/** The address space shared by all heaps of an allocator: the tiling of the memory
    obtained from sbrk into blocks, the boundary tags, and the size-class free lists. */
module Arena {
  import opened Words
  import opened Sets

  // sizeof(ObjHeader), and the bytes of a header, a footer and a DualLnkNode together.
  const TAG := 16
  const MIN_BLOCK := 48
  const CLASSES := 65
  const LAST := 64

  const OBJ_FREE := 0
  const OBJ_ALLOCATED := 1

  /** A block is on a free list of some heap, in the hands of a thread inside the
      allocator, or in use by the program. */
  datatype Owner = Free(heap: nat) | Held(thread: nat) | Live

  datatype Block = Block(size: int, owner: Owner)

  type Blocks = map<int, Block>

  /** One heap: its 65 list heads (node addresses, 0 is NULL), and the list contents as
      block addresses. A node sits TAG bytes into its block. */
  datatype Heap = Heap(grain: int, heads: seq<nat>, lists: seq<seq<int>>)

  /** What one sbrk call returned. */
  datatype Region = Region(start: int, len: int)

  datatype State = State(mem: Mem, heaps: seq<Heap>, blocks: Blocks, heapSize: int, regions: seq<Region>)

  function ClassOf(grain: int, size: int): (i: int)
    requires grain > 0 && size >= 0
    ensures 0 <= i <= LAST
  {
    if size / grain > LAST then LAST else size / grain
  }

  // ---------- Lists ----------

  /** The node address stored for position k of a list; NULL off either end. */
  function NodeAt(l: seq<int>, k: int): (p: int) {
    if 0 <= k < |l| then l[k] + TAG else 0
  }

  ghost predicate LinkOk(m: Mem, l: seq<int>, k: int)
    requires 0 <= k < |l|
  {
    && Rd(m, l[k] + 16) == NodeAt(l, k + 1)
    && Rd(m, l[k] + 24) == NodeAt(l, k - 1)
  }

  /** next_ and prev_ of every node mirror the list. */
  ghost predicate Linked(m: Mem, l: seq<int>) {
    forall k :: 0 <= k < |l| ==> LinkOk(m, l, k)
  }

  ghost predicate Distinct(l: seq<int>) {
    forall j, k :: 0 <= j < k < |l| ==> l[j] != l[k]
  }

  ghost predicate Sorted(bs: Blocks, l: seq<int>)
    requires forall k :: 0 <= k < |l| ==> l[k] in bs
  {
    forall j, k :: 0 <= j < k < |l| ==> bs[l[j]].size <= bs[l[k]].size
  }

  // ---------- Invariant ----------

  /** Blocks are aligned, large enough for their tags and links, and do not overlap. */
  ghost predicate Geometry(bs: Blocks) {
    && (forall b :: b in bs ==> b > 0 && b % 8 == 0 && bs[b].size >= MIN_BLOCK && bs[b].size % 8 == 0)
    && (forall b, c :: b in bs && c in bs && b < c ==> b + bs[b].size <= c)
  }

  ghost predicate Tagged(m: Mem, b: int, size: int, flag: nat) {
    && Rd(m, b) == flag
    && Rd(m, b + 8) == size
    && Rd(m, b + size - 16) == flag
    && Rd(m, b + size - 8) == size
  }

  /** Header and footer of every block outside the allocator's hands agree with it. */
  ghost predicate TagsOk(m: Mem, bs: Blocks) {
    forall b :: b in bs ==>
      && (bs[b].owner.Free? ==> Tagged(m, b, bs[b].size, OBJ_FREE))
      && (bs[b].owner.Live? ==> Tagged(m, b, bs[b].size, OBJ_ALLOCATED))
  }

  /** The members of list i of heap h are blocks of that heap and class. */
  ghost predicate Members(bs: Blocks, h: nat, grain: int, i: int, l: seq<int>)
    requires grain > 0
  {
    forall k :: 0 <= k < |l| ==>
      && l[k] in bs && bs[l[k]].owner == Free(h)
      && bs[l[k]].size >= 0 && ClassOf(grain, bs[l[k]].size) == i
  }

  ghost predicate ListOk(m: Mem, bs: Blocks, h: nat, f: Heap, i: int)
    requires f.grain > 0 && |f.heads| == |f.lists| == CLASSES && 0 <= i < CLASSES
  {
    && f.heads[i] == NodeAt(f.lists[i], 0)
    && Linked(m, f.lists[i])
    && Distinct(f.lists[i])
    && Members(bs, h, f.grain, i, f.lists[i])
    && (i == LAST ==> Sorted(bs, f.lists[i]))
  }

  /** Every free block of heap h is on the list of its class. */
  ghost predicate Complete(bs: Blocks, h: nat, f: Heap)
    requires f.grain > 0 && |f.lists| == CLASSES
  {
    forall b :: b in bs && bs[b].owner == Free(h) ==>
      bs[b].size >= 0 && b in f.lists[ClassOf(f.grain, bs[b].size)]
  }

  ghost predicate HeapOk(m: Mem, bs: Blocks, h: nat, f: Heap) {
    && f.grain > 0 && |f.heads| == |f.lists| == CLASSES
    && (forall i :: 0 <= i < CLASSES ==> ListOk(m, bs, h, f, i))
    && Complete(bs, h, f)
  }

  ghost predicate Covered(bs: Blocks, a: int) {
    exists b :: b in bs && b <= a < b + bs[b].size
  }

  ghost predicate Mapped(regions: seq<Region>, a: int) {
    exists j :: 0 <= j < |regions| && regions[j].start <= a < regions[j].start + regions[j].len
  }

  /** The blocks cover exactly the addresses obtained from sbrk. */
  ghost predicate Tiled(bs: Blocks, regions: seq<Region>) {
    forall a {:trigger Covered(bs, a)} {:trigger Mapped(regions, a)} :: Mapped(regions, a) <==> Covered(bs, a)
  }

  ghost predicate Inv(s: State) {
    && Geometry(s.blocks)
    && TagsOk(s.mem, s.blocks)
    && (forall h {:trigger HeapOk(s.mem, s.blocks, h, s.heaps[h])} ::
          0 <= h < |s.heaps| ==> HeapOk(s.mem, s.blocks, h, s.heaps[h]))
    && (forall b :: b in s.blocks && s.blocks[b].owner.Free? ==> s.blocks[b].owner.heap < |s.heaps|)
    && Tiled(s.blocks, s.regions)
    && s.heapSize == Total(s.blocks)
  }

  // ---------- Sums ----------

  ghost function SizeSum(bs: Blocks, ks: set<int>): (n: int)
    requires ks <= bs.Keys
  {
    if ks == {} then 0
    else Inhabited(ks); var b :| b in ks; bs[b].size + SizeSum(bs, ks - {b})
  }

  lemma {:induction false} SizeSumRemove(bs: Blocks, ks: set<int>, b: int)
    requires b in ks && ks <= bs.Keys
    ensures SizeSum(bs, ks) == bs[b].size + SizeSum(bs, ks - {b})
  {
    var c :| c in ks && SizeSum(bs, ks) == bs[c].size + SizeSum(bs, ks - {c});
    if c != b {
      SizeSumRemove(bs, ks - {c}, b);
      SizeSumRemove(bs, ks - {b}, c);
      assert ks - {c} - {b} == ks - {b} - {c};
    }
  }

  lemma {:induction false} SizeSumSame(bs: Blocks, bs': Blocks, ks: set<int>)
    requires ks <= bs.Keys && ks <= bs'.Keys
    requires forall b :: b in ks ==> bs'[b].size == bs[b].size
    ensures SizeSum(bs', ks) == SizeSum(bs, ks)
  {
    if ks != {} {
      Inhabited(ks);
      var b :| b in ks;
      SizeSumRemove(bs, ks, b);
      SizeSumRemove(bs', ks, b);
      SizeSumSame(bs, bs', ks - {b});
    }
  }

  ghost function Total(bs: Blocks): (n: int) {
    SizeSum(bs, bs.Keys)
  }

  lemma TotalSet(bs: Blocks, b: int, x: Block)
    ensures Total(bs[b := x]) == Total(bs) + x.size - (if b in bs then bs[b].size else 0)
  {
    var bs' := bs[b := x];
    SizeSumRemove(bs', bs'.Keys, b);
    assert bs'.Keys - {b} == bs.Keys - {b};
    SizeSumSame(bs, bs', bs.Keys - {b});
    if b in bs {
      SizeSumRemove(bs, bs.Keys, b);
    } else {
      assert bs.Keys - {b} == bs.Keys;
    }
  }

  // ---------- Framing ----------

  /** A heap depends only on its own free blocks and on their link words. */
  lemma HeapFrame(m: Mem, m': Mem, bs: Blocks, bs': Blocks, h: nat, f: Heap)
    requires HeapOk(m, bs, h, f)
    requires forall b :: b in bs && bs[b].owner == Free(h) ==>
               b in bs' && bs'[b] == bs[b] && Rd(m', b + 16) == Rd(m, b + 16) && Rd(m', b + 24) == Rd(m, b + 24)
    requires forall b :: b in bs' && bs'[b].owner == Free(h) ==> b in bs && bs[b] == bs'[b]
    ensures HeapOk(m', bs', h, f)
  {
    forall i | 0 <= i < CLASSES ensures ListOk(m', bs', h, f, i) {
      var l := f.lists[i];
      assert ListOk(m, bs, h, f, i);
      forall k | 0 <= k < |l| ensures LinkOk(m', l, k) {
        assert LinkOk(m, l, k);
      }
    }
  }

  /** Words outside b's range belong to no part of any other block. */
  ghost predicate OnlyIn(m: Mem, m': Mem, lo: int, hi: int) {
    forall a :: !(lo <= a < hi) ==> Rd(m', a) == Rd(m, a)
  }

  /** No heap notices a change that spares the free blocks. */
  lemma HeapsFrame(s: State, m': Mem, bs': Blocks)
    requires forall h {:trigger HeapOk(s.mem, s.blocks, h, s.heaps[h])} ::
               0 <= h < |s.heaps| ==> HeapOk(s.mem, s.blocks, h, s.heaps[h])
    requires forall b :: b in s.blocks && s.blocks[b].owner.Free? ==>
               b in bs' && bs'[b] == s.blocks[b]
               && Rd(m', b + 16) == Rd(s.mem, b + 16) && Rd(m', b + 24) == Rd(s.mem, b + 24)
    requires forall b :: b in bs' && bs'[b].owner.Free? ==> b in s.blocks && s.blocks[b] == bs'[b]
    ensures forall h {:trigger HeapOk(m', bs', h, s.heaps[h])} :: 0 <= h < |s.heaps| ==> HeapOk(m', bs', h, s.heaps[h])
  {
    forall h | 0 <= h < |s.heaps| ensures HeapOk(m', bs', h, s.heaps[h]) {
      assert HeapOk(s.mem, s.blocks, h, s.heaps[h]);
      HeapFrame(s.mem, m', s.blocks, bs', h, s.heaps[h]);
    }
  }

  // ---------- Linking and unlinking ----------

  function InsertAt(l: seq<int>, k: int, b: int): (l': seq<int>)
    requires 0 <= k <= |l|
    ensures |l'| == |l| + 1
  {
    l[..k] + [b] + l[k..]
  }

  function RemoveAt(l: seq<int>, k: int): (l': seq<int>)
    requires 0 <= k < |l|
    ensures |l'| == |l| - 1
  {
    l[..k] + l[k + 1..]
  }

  /** The stores that put block b before position k of list l. */
  function LinkStores(m: Mem, l: seq<int>, k: int, b: int): (m': Mem)
    requires 0 <= k <= |l| && b >= 0
    requires forall j :: 0 <= j < |l| ==> l[j] >= 0
  {
    var m1 := m[b + 16 := NodeAt(l, k)][b + 24 := NodeAt(l, k - 1)];
    var m2 := if k > 0 then m1[l[k - 1] + 16 := b + TAG] else m1;
    if k < |l| then m2[l[k] + 24 := b + TAG] else m2
  }

  /** The stores that take position k out of list l. */
  function UnlinkStores(m: Mem, l: seq<int>, k: int): (m': Mem)
    requires 0 <= k < |l|
    requires forall j :: 0 <= j < |l| ==> l[j] >= 0
  {
    var m1 := if k > 0 then m[l[k - 1] + 16 := NodeAt(l, k + 1)] else m;
    if k + 1 < |l| then m1[l[k + 1] + 24 := NodeAt(l, k - 1)] else m1
  }

  /** Positive addresses at least a block apart. */
  ghost predicate Spread(l: seq<int>) {
    && (forall j :: 0 <= j < |l| ==> l[j] > 0)
    && (forall j, k :: 0 <= j < |l| && 0 <= k < |l| && j != k ==>
          l[j] + MIN_BLOCK <= l[k] || l[k] + MIN_BLOCK <= l[j])
  }

  ghost predicate Apart(l: seq<int>, b: int) {
    forall j :: 0 <= j < |l| ==> l[j] + MIN_BLOCK <= b || b + MIN_BLOCK <= l[j]
  }

  lemma LinkLinks(m: Mem, l: seq<int>, k: int, b: int)
    requires Spread(l) && b > 0 && Apart(l, b) && 0 <= k <= |l|
    requires Linked(m, l)
    ensures Linked(LinkStores(m, l, k, b), InsertAt(l, k, b))
  {
    hide LinkStores, InsertAt, LinkOk, Spread, Apart;
    SpreadPositive(l);
    var m', l' := LinkStores(m, l, k, b), InsertAt(l, k, b);
    forall j | 0 <= j < |l'| ensures LinkOk(m', l', j) {
      if j < k {
        LinksBefore(m, l, k, b, j);
      } else if j == k {
        LinksHere(m, l, k, b);
      } else {
        LinksAfter(m, l, k, b, j - 1);
      }
    }
  }

  lemma SpreadPositive(l: seq<int>)
    requires Spread(l)
    ensures forall j :: 0 <= j < |l| ==> l[j] > 0
  {
  }

  lemma LinksHere(m: Mem, l: seq<int>, k: int, b: int)
    requires Spread(l) && b > 0 && Apart(l, b) && 0 <= k <= |l|
    ensures LinkOk(LinkStores(m, l, k, b), InsertAt(l, k, b), k)
  {
    var l' := InsertAt(l, k, b);
    assert l'[k] == b && NodeAt(l', k + 1) == NodeAt(l, k) && NodeAt(l', k - 1) == NodeAt(l, k - 1);
  }

  lemma LinksBefore(m: Mem, l: seq<int>, k: int, b: int, j: int)
    requires Spread(l) && b > 0 && Apart(l, b) && 0 <= j < k <= |l|
    requires LinkOk(m, l, j)
    ensures LinkOk(LinkStores(m, l, k, b), InsertAt(l, k, b), j)
  {
  }

  lemma LinksAfter(m: Mem, l: seq<int>, k: int, b: int, j: int)
    requires Spread(l) && b > 0 && Apart(l, b) && 0 <= k <= j < |l|
    requires LinkOk(m, l, j)
    ensures LinkOk(LinkStores(m, l, k, b), InsertAt(l, k, b), j + 1)
  {
    var l' := InsertAt(l, k, b);
    assert l'[j + 1] == l[j];
    assert NodeAt(l', j) == if j == k then b + TAG else NodeAt(l, j - 1);
    assert NodeAt(l', j + 2) == NodeAt(l, j + 1);
  }

  lemma UnlinkLinks(m: Mem, l: seq<int>, k: int)
    requires Spread(l) && 0 <= k < |l|
    requires Linked(m, l)
    ensures Linked(UnlinkStores(m, l, k), RemoveAt(l, k))
  {
    hide UnlinkStores, RemoveAt, LinkOk, Spread;
    SpreadPositive(l);
    var m', l' := UnlinkStores(m, l, k), RemoveAt(l, k);
    forall j | 0 <= j < |l'| ensures LinkOk(m', l', j) {
      UnlinksAt(m, l, k, j);
    }
  }

  lemma UnlinksAt(m: Mem, l: seq<int>, k: int, j: int)
    requires Spread(l) && 0 <= k < |l| && 0 <= j < |l| - 1 && LinkOk(m, l, if j < k then j else j + 1)
    ensures LinkOk(UnlinkStores(m, l, k), RemoveAt(l, k), j)
  {
    hide Spread;
    var c := if j < k then j else j + 1;
    SpreadPositive(l);
    UnlinkReads(m, l, k, c);
    NodesAfterRemoval(l, k, j);
  }

  /** What the stores of a removal leave in the links of the node at position c. */
  lemma UnlinkReads(m: Mem, l: seq<int>, k: int, c: int)
    requires Spread(l) && 0 <= k < |l| && 0 <= c < |l| && c != k
    ensures var m' := UnlinkStores(m, l, k);
            && Rd(m', l[c] + 16) == (if c + 1 == k then NodeAt(l, k + 1) else Rd(m, l[c] + 16))
            && Rd(m', l[c] + 24) == (if c == k + 1 then NodeAt(l, k - 1) else Rd(m, l[c] + 24))
  {
  }

  lemma NodesAfterRemoval(l: seq<int>, k: int, j: int)
    requires 0 <= k < |l| && 0 <= j < |l| - 1
    ensures var l' := RemoveAt(l, k);
            && l'[j] == (if j < k then l[j] else l[j + 1])
            && NodeAt(l', j + 1) == (if j + 1 < k then NodeAt(l, j + 1) else NodeAt(l, j + 2))
            && NodeAt(l', j - 1) == (if j - 1 < k then NodeAt(l, j - 1) else NodeAt(l, j))
  {
  }

  // ---------- Primitive transitions ----------

  /** Every block in use, live or held, except x keeps its size, its owner and every word in
      its range. */
  ghost predicate Undisturbed(s: State, s': State, x: int) {
    Unmoved(s.mem, s'.mem, s.blocks, s'.blocks, x)
  }

  ghost predicate Unmoved(m: Mem, m': Mem, bs: Blocks, bs': Blocks, x: int) {
    forall c :: c in bs && !bs[c].owner.Free? && c != x ==>
      c in bs' && bs'[c] == bs[c] && Same(m, m', c, c + bs[c].size)
  }

  /** Replacing one list of a heap. */
  lemma HeapReplace(m: Mem, m': Mem, bs: Blocks, bs': Blocks, h: nat, f: Heap, i: int, hd: nat, l: seq<int>)
    requires HeapOk(m, bs, h, f) && 0 <= i < CLASSES
    requires ListOk(m', bs', h, f.(heads := f.heads[i := hd], lists := f.lists[i := l]), i)
    requires forall b :: b in bs && bs[b].owner == Free(h) && ClassOf(f.grain, bs[b].size) != i ==>
               b in bs' && bs'[b] == bs[b] && Rd(m', b + 16) == Rd(m, b + 16) && Rd(m', b + 24) == Rd(m, b + 24)
    requires forall b :: b in bs' && bs'[b].owner == Free(h) ==>
               bs'[b].size >= 0 && (if ClassOf(f.grain, bs'[b].size) == i then b in l else b in bs && bs[b] == bs'[b])
    ensures HeapOk(m', bs', h, f.(heads := f.heads[i := hd], lists := f.lists[i := l]))
  {
    var f' := f.(heads := f.heads[i := hd], lists := f.lists[i := l]);
    forall j | 0 <= j < CLASSES ensures ListOk(m', bs', h, f', j) {
      if j != i {
        var l := f.lists[j];
        assert ListOk(m, bs, h, f, j);
        forall k | 0 <= k < |l| ensures LinkOk(m', l, k) {
          assert LinkOk(m, l, k);
        }
      }
    }
  }

  /** Memory m', list i of heap h now l with head hd, and block b now owned by o. */
  function Relist(s: State, m': Mem, h: nat, i: int, hd: nat, l: seq<int>, b: int, o: Owner): (s': State)
    requires h < |s.heaps| && 0 <= i < |s.heaps[h].lists| == |s.heaps[h].heads| && b in s.blocks
  {
    var f := s.heaps[h];
    s.(mem := m',
       heaps := s.heaps[h := f.(heads := f.heads[i := hd], lists := f.lists[i := l])],
       blocks := s.blocks[b := s.blocks[b].(owner := o)])
  }

  predicate Unlinkable(s: State, h: nat, i: int, k: int) {
    && h < |s.heaps| && 0 <= i < |s.heaps[h].lists| == |s.heaps[h].heads| && 0 <= k < |s.heaps[h].lists[i]|
    && (forall j :: 0 <= j < |s.heaps[h].lists[i]| ==> s.heaps[h].lists[i][j] >= 0)
    && s.heaps[h].lists[i][k] in s.blocks
  }

  /** Takes position k off list i of heap h; thread t holds the block afterwards. */
  function Unlink(s: State, h: nat, i: int, k: int, t: nat): (s': State)
    requires Unlinkable(s, h, i, k)
  {
    var l := s.heaps[h].lists[i];
    Relist(s, UnlinkStores(s.mem, l, k), h, i, if k == 0 then NodeAt(l, 1) else s.heaps[h].heads[i],
           RemoveAt(l, k), l[k], Held(t))
  }

  lemma ListFacts(s: State, h: nat, i: int)
    requires Inv(s) && h < |s.heaps| && 0 <= i < CLASSES
    ensures |s.heaps[h].lists| == |s.heaps[h].heads| == CLASSES && s.heaps[h].grain > 0
    ensures ListOk(s.mem, s.blocks, h, s.heaps[h], i)
    ensures Spread(s.heaps[h].lists[i])
  {
    assert HeapOk(s.mem, s.blocks, h, s.heaps[h]);
    var l := s.heaps[h].lists[i];
    assert ListOk(s.mem, s.blocks, h, s.heaps[h], i);
    forall j, k | 0 <= j < |l| && 0 <= k < |l| && j != k
      ensures l[j] + MIN_BLOCK <= l[k] || l[k] + MIN_BLOCK <= l[j]
    {
      assert l[j] != l[k];
    }
  }

  /** Memory changes only in the link words of the blocks in xs. */
  ghost predicate OnlyLinks(m: Mem, m': Mem, xs: set<int>) {
    forall a :: Rd(m', a) == Rd(m, a) || exists x :: x in xs && (a == x + 16 || a == x + 24)
  }

  lemma LinksMissTags(m: Mem, m': Mem, bs: Blocks, xs: set<int>, c: int)
    requires Geometry(bs) && xs <= bs.Keys && OnlyLinks(m, m', xs) && c in bs
    ensures forall f :: Tagged(m, c, bs[c].size, f) ==> Tagged(m', c, bs[c].size, f)
    ensures c !in xs ==> Same(m, m', c, c + bs[c].size)
  {
  }

  lemma OtherHeap(m: Mem, m': Mem, bs: Blocks, b: int, o: Owner, xs: set<int>, g: nat, f: Heap)
    requires HeapOk(m, bs, g, f) && Geometry(bs) && b in bs
    requires xs <= bs.Keys && OnlyLinks(m, m', xs)
    requires forall x :: x in xs ==> bs[x].owner != Free(g)
    requires bs[b].owner != Free(g) && o != Free(g)
    ensures HeapOk(m', bs[b := bs[b].(owner := o)], g, f)
  {
    forall c | c in bs && c !in xs ensures Rd(m', c + 16) == Rd(m, c + 16) && Rd(m', c + 24) == Rd(m, c + 24) {
      LinksMissTags(m, m', bs, xs, c);
    }
    HeapFrame(m, m', bs, bs[b := bs[b].(owner := o)], g, f);
  }

  lemma SameHeap(m: Mem, m': Mem, bs: Blocks, b: int, o: Owner, xs: set<int>, h: nat, f: Heap, i: int, hd: nat, l: seq<int>)
    requires HeapOk(m, bs, h, f) && Geometry(bs) && b in bs && 0 <= i < CLASSES
    requires xs <= bs.Keys && OnlyLinks(m, m', xs)
    requires forall x :: x in xs ==> x == b || ClassOf(f.grain, bs[x].size) == i
    requires ClassOf(f.grain, bs[b].size) == i
    requires ListOk(m', bs[b := bs[b].(owner := o)], h, f.(heads := f.heads[i := hd], lists := f.lists[i := l]), i)
    requires o == Free(h) ==> b in l
    requires forall c :: c in f.lists[i] && c != b ==> c in l
    ensures HeapOk(m', bs[b := bs[b].(owner := o)], h, f.(heads := f.heads[i := hd], lists := f.lists[i := l]))
  {
    hide OnlyLinks, ListOk;
    forall c | c in bs && c !in xs ensures Rd(m', c + 16) == Rd(m, c + 16) && Rd(m', c + 24) == Rd(m, c + 24) {
      LinksMissTags(m, m', bs, xs, c);
    }
    HeapReplace(m, m', bs, bs[b := bs[b].(owner := o)], h, f, i, hd, l);
  }

  lemma TagsFrame(m: Mem, m': Mem, bs: Blocks, b: int, o: Owner, xs: set<int>)
    requires TagsOk(m, bs) && Geometry(bs) && b in bs
    requires xs <= bs.Keys && OnlyLinks(m, m', xs)
    requires !o.Live? && (o.Free? ==> Tagged(m, b, bs[b].size, OBJ_FREE))
    ensures TagsOk(m', bs[b := bs[b].(owner := o)])
  {
  }

  lemma LinksUndisturb(m: Mem, m': Mem, bs: Blocks, b: int, o: Owner, xs: set<int>)
    requires Geometry(bs) && b in bs
    requires xs <= bs.Keys && OnlyLinks(m, m', xs)
    requires forall x :: x in xs ==> bs[x].owner.Free? || x == b
    ensures Unmoved(m, m', bs, bs[b := bs[b].(owner := o)], b)
  {
  }

  /** A change of owner moves no boundary. */
  lemma OwnerFrame(bs: Blocks, b: int, o: Owner, regions: seq<Region>)
    requires b in bs && Geometry(bs) && Tiled(bs, regions)
    ensures Geometry(bs[b := bs[b].(owner := o)])
    ensures Tiled(bs[b := bs[b].(owner := o)], regions)
    ensures Total(bs[b := bs[b].(owner := o)]) == Total(bs)
  {
    hide Covered, Mapped, SizeSum;
    var bs' := bs[b := bs[b].(owner := o)];
    TotalSet(bs, b, bs'[b]);
    OwnerCovers(bs, b, o);
  }

  lemma OwnerCovers(bs: Blocks, b: int, o: Owner)
    requires b in bs
    ensures forall a :: Covered(bs[b := bs[b].(owner := o)], a) <==> Covered(bs, a)
  {
    var bs' := bs[b := bs[b].(owner := o)];
    forall a ensures Covered(bs', a) <==> Covered(bs, a) {
      if Covered(bs, a) {
        var c :| c in bs && c <= a < c + bs[c].size;
        assert c in bs';
      }
      if Covered(bs', a) {
        var c :| c in bs' && c <= a < c + bs'[c].size;
        assert c in bs;
      }
    }
  }

  /** What relisting b under class i of heap h has to satisfy; xs are the blocks whose
      links may have changed. */
  ghost predicate Relinks(s: State, m': Mem, h: nat, i: int, hd: nat, l: seq<int>, b: int, o: Owner, t: nat, xs: set<int>) {
    && h < |s.heaps| && 0 <= i < CLASSES && b in s.blocks
    && s.heaps[h].grain > 0 && |s.heaps[h].heads| == |s.heaps[h].lists| == CLASSES
    && s.blocks[b].owner in {Free(h), Held(t)} && o in {Free(h), Held(t)}
    && s.blocks[b].size >= 0 && ClassOf(s.heaps[h].grain, s.blocks[b].size) == i
    && xs <= s.blocks.Keys && OnlyLinks(s.mem, m', xs)
    && (forall x :: x in xs && x != b ==>
          s.blocks[x].owner == Free(h) && s.blocks[x].size >= 0 && ClassOf(s.heaps[h].grain, s.blocks[x].size) == i)
    && ListOk(m', s.blocks[b := s.blocks[b].(owner := o)], h,
              s.heaps[h].(heads := s.heaps[h].heads[i := hd], lists := s.heaps[h].lists[i := l]), i)
    && (o == Free(h) ==> b in l && Tagged(s.mem, b, s.blocks[b].size, OBJ_FREE))
    && (forall c :: c in s.heaps[h].lists[i] && c != b ==> c in l)
  }

  lemma RelinkHeap(s: State, m': Mem, h: nat, i: int, hd: nat, l: seq<int>, b: int, o: Owner, t: nat, xs: set<int>, g: int)
    requires Geometry(s.blocks) && 0 <= g < |s.heaps|
    requires HeapOk(s.mem, s.blocks, g, s.heaps[g])
    requires Relinks(s, m', h, i, hd, l, b, o, t, xs)
    ensures HeapOk(m', s.blocks[b := s.blocks[b].(owner := o)], g, Relist(s, m', h, i, hd, l, b, o).heaps[g])
  {
    if g == h {
      SameHeap(s.mem, m', s.blocks, b, o, xs, h, s.heaps[h], i, hd, l);
    } else {
      OtherHeap(s.mem, m', s.blocks, b, o, xs, g, s.heaps[g]);
    }
  }

  /** Moving b between thread t's hands and list i of heap h. */
  lemma RelinkKeeps(s: State, m': Mem, h: nat, i: int, hd: nat, l: seq<int>, b: int, o: Owner, t: nat, xs: set<int>)
    requires Inv(s) && Relinks(s, m', h, i, hd, l, b, o, t, xs)
    ensures var s' := Relist(s, m', h, i, hd, l, b, o);
            Inv(s') && Undisturbed(s, s', b)
  {
    hide HeapOk, ListOk;
    var s' := Relist(s, m', h, i, hd, l, b, o);
    forall g | 0 <= g < |s.heaps| ensures HeapOk(m', s'.blocks, g, s'.heaps[g]) {
      assert HeapOk(s.mem, s.blocks, g, s.heaps[g]);
      RelinkHeap(s, m', h, i, hd, l, b, o, t, xs, g);
    }
    TagsFrame(s.mem, m', s.blocks, b, o, xs);
    OwnerFrame(s.blocks, b, o, s.regions);
    LinksUndisturb(s.mem, m', s.blocks, b, o, xs);
  }

  lemma UnlinkKeeps(s: State, h: nat, i: int, k: int, t: nat)
    requires Inv(s) && h < |s.heaps| && 0 <= i < CLASSES
    requires |s.heaps[h].lists| == CLASSES && 0 <= k < |s.heaps[h].lists[i]|
    ensures Unlinkable(s, h, i, k)
    ensures Inv(Unlink(s, h, i, k, t)) && Undisturbed(s, Unlink(s, h, i, k, t), s.heaps[h].lists[i][k])
  {
    hide Inv, Undisturbed, UnlinkStores, ListOk;
    ListFacts(s, h, i);
    var f := s.heaps[h];
    var l := f.lists[i];
    ListMembers(s.mem, s.blocks, h, f, i);
    UnlinkLists(s.mem, s.blocks, h, f, i, k, Held(t));
    var hd := if k == 0 then NodeAt(l, 1) else f.heads[i];
    RelinkKeeps(s, UnlinkStores(s.mem, l, k), h, i, hd, RemoveAt(l, k), l[k], Held(t), t, set x | x in l);
  }

  lemma UnlinkLists(m: Mem, bs: Blocks, h: nat, f: Heap, i: int, k: int, o: Owner)
    requires f.grain > 0 && |f.heads| == |f.lists| == CLASSES && 0 <= i < CLASSES
    requires ListOk(m, bs, h, f, i) && Spread(f.lists[i]) && 0 <= k < |f.lists[i]|
    ensures var l := f.lists[i];
            var hd := if k == 0 then NodeAt(l, 1) else f.heads[i];
            && ListOk(UnlinkStores(m, l, k), bs[l[k] := bs[l[k]].(owner := o)], h,
                      f.(heads := f.heads[i := hd], lists := f.lists[i := RemoveAt(l, k)]), i)
            && OnlyLinks(m, UnlinkStores(m, l, k), set x | x in l)
            && (forall c :: c in l && c != l[k] ==> c in RemoveAt(l, k))
  {
    hide UnlinkStores, RemoveAt, OnlyLinks, LinkOk, Spread;
    var l := f.lists[i];
    SpreadPositive(l);
    RemoveAtElements(l, k);
    RemovedSorted(bs, i, l, k, o);
    UnlinkLinks(m, l, k);
    UnlinkWrites(m, l, k);
    HeadAfterRemoval(l, k);
  }

  lemma RemovedSorted(bs: Blocks, i: int, l: seq<int>, k: int, o: Owner)
    requires (forall j :: 0 <= j < |l| ==> l[j] in bs) && 0 <= k < |l| && Distinct(l) && (i == LAST ==> Sorted(bs, l))
    ensures var bs', l' := bs[l[k] := bs[l[k]].(owner := o)], RemoveAt(l, k);
            && Distinct(l') && l[k] !in l' && (forall j :: 0 <= j < |l'| ==> l'[j] in bs')
            && (i == LAST ==> Sorted(bs', l'))
  {
    RemoveAtElements(l, k);
  }

  lemma HeadAfterRemoval(l: seq<int>, k: int)
    requires 0 <= k < |l|
    ensures NodeAt(RemoveAt(l, k), 0) == if k == 0 then NodeAt(l, 1) else NodeAt(l, 0)
  {
  }

  lemma RemoveAtElements(l: seq<int>, k: int)
    requires 0 <= k < |l|
    ensures forall j :: 0 <= j < |l| - 1 ==> RemoveAt(l, k)[j] == l[if j < k then j else j + 1]
    ensures forall c :: c in l && c != l[k] ==> c in RemoveAt(l, k)
  {
  }

  lemma UnlinkWrites(m: Mem, l: seq<int>, k: int)
    requires 0 <= k < |l|
    requires forall j :: 0 <= j < |l| ==> l[j] >= 0
    ensures OnlyLinks(m, UnlinkStores(m, l, k), set x | x in l)
  {
    var m', xs := UnlinkStores(m, l, k), set x | x in l;
    forall a | Rd(m', a) != Rd(m, a) ensures exists x :: x in xs && (a == x + 16 || a == x + 24) {
      var x := if k > 0 && a == l[k - 1] + 16 then l[k - 1] else l[k + 1];
      assert x in xs;
    }
  }

  /** The first position whose block has at least n bytes; the length if there is none. */
  function FirstAtLeast(bs: Blocks, l: seq<int>, n: int): (k: int)
    requires forall j :: 0 <= j < |l| ==> l[j] in bs
    ensures 0 <= k <= |l|
    ensures forall j :: 0 <= j < k ==> bs[l[j]].size < n
    ensures k < |l| ==> bs[l[k]].size >= n
  {
    if |l| == 0 || bs[l[0]].size >= n then 0 else 1 + FirstAtLeast(bs, l[1..], n)
  }

  /** Lists are LIFO, except that the last class is kept by size. */
  function LinkPos(bs: Blocks, i: int, l: seq<int>, n: int): (k: int)
    requires forall j :: 0 <= j < |l| ==> l[j] in bs
    ensures 0 <= k <= |l|
  {
    if i == LAST then FirstAtLeast(bs, l, n) else 0
  }

  predicate Linkable(s: State, h: nat, b: int) {
    && h < |s.heaps| && s.heaps[h].grain > 0 && |s.heaps[h].lists| == |s.heaps[h].heads| == CLASSES
    && b in s.blocks && b >= 0 && s.blocks[b].size >= 0
    && var l := s.heaps[h].lists[ClassOf(s.heaps[h].grain, s.blocks[b].size)];
       forall j :: 0 <= j < |l| ==> l[j] in s.blocks && l[j] >= 0
  }

  /** insertFreeBlock: puts held block b on its list of heap h. */
  function Link(s: State, h: nat, b: int): (s': State)
    requires Linkable(s, h, b)
  {
    var f := s.heaps[h];
    var i := ClassOf(f.grain, s.blocks[b].size);
    var l := f.lists[i];
    var k := LinkPos(s.blocks, i, l, s.blocks[b].size);
    Relist(s, LinkStores(s.mem, l, k, b), h, i, if k == 0 then b + TAG else f.heads[i], InsertAt(l, k, b), b, Free(h))
  }

  lemma LinkKeeps(s: State, h: nat, b: int, t: nat)
    requires Inv(s) && h < |s.heaps| && b in s.blocks && s.blocks[b].owner == Held(t)
    requires Tagged(s.mem, b, s.blocks[b].size, OBJ_FREE)
    ensures Linkable(s, h, b)
    ensures Inv(Link(s, h, b)) && Undisturbed(s, Link(s, h, b), b)
  {
    hide Inv, Undisturbed, Tagged, LinkStores, ListOk, Spread, Apart;
    ListFacts(s, h, 0);
    var f := s.heaps[h];
    assert s.blocks[b].size >= 0 && b > 0 by { GeometryOf(s, b); }
    var i := ClassOf(f.grain, s.blocks[b].size);
    ListFacts(s, h, i);
    var l := f.lists[i];
    ListMembers(s.mem, s.blocks, h, f, i);
    HeldApart(s, h, i, b, t);
    var k := LinkPos(s.blocks, i, l, s.blocks[b].size);
    LinkLists(s.mem, s.blocks, h, f, i, b, k);
    var hd := if k == 0 then b + TAG else f.heads[i];
    RelinkKeeps(s, LinkStores(s.mem, l, k, b), h, i, hd, InsertAt(l, k, b), b, Free(h), t, (set x | x in l) + {b});
  }

  lemma GeometryOf(s: State, b: int)
    requires Inv(s) && b in s.blocks
    ensures b > 0 && b % 8 == 0 && s.blocks[b].size >= MIN_BLOCK && s.blocks[b].size % 8 == 0
  {
  }

  lemma ListMembers(m: Mem, bs: Blocks, h: nat, f: Heap, i: int)
    requires f.grain > 0 && |f.heads| == |f.lists| == CLASSES && 0 <= i < CLASSES
    requires ListOk(m, bs, h, f, i)
    ensures forall x :: x in f.lists[i] ==>
              x in bs && bs[x].owner == Free(h) && bs[x].size >= 0 && ClassOf(f.grain, bs[x].size) == i
    ensures forall k :: 0 <= k < |f.lists[i]| ==> f.lists[i][k] in bs
  {
  }

  lemma HeldApart(s: State, h: nat, i: int, b: int, t: nat)
    requires Inv(s) && h < |s.heaps| && b in s.blocks && s.blocks[b].owner == Held(t)
    requires |s.heaps[h].lists| == CLASSES && 0 <= i < CLASSES
    ensures Apart(s.heaps[h].lists[i], b)
    ensures forall k :: 0 <= k < |s.heaps[h].lists[i]| ==> s.heaps[h].lists[i][k] > 0
  {
    ListFacts(s, h, i);
  }

  lemma LinkSorted(bs: Blocks, h: nat, i: int, l: seq<int>, b: int, k: int)
    requires forall j :: 0 <= j < |l| ==> l[j] in bs
    requires b in bs && Apart(l, b) && Distinct(l) && (i == LAST ==> Sorted(bs, l))
    requires k == LinkPos(bs, i, l, bs[b].size)
    ensures var bs', l' := bs[b := bs[b].(owner := Free(h))], InsertAt(l, k, b);
            && (forall j :: 0 <= j < |l'| ==> l'[j] in bs')
            && Distinct(l') && (i == LAST ==> Sorted(bs', l'))
  {
    hide Apart, LinkPos, Distinct;
    InsertAtElements(l, k, b);
    LinkDistinct(l, b, k);
    if i == LAST {
      LinkInOrder(bs, h, l, b, k);
    }
  }

  lemma LinkDistinct(l: seq<int>, b: int, k: int)
    requires Apart(l, b) && Distinct(l) && 0 <= k <= |l|
    ensures Distinct(InsertAt(l, k, b))
  {
  }

  lemma LinkInOrder(bs: Blocks, h: nat, l: seq<int>, b: int, k: int)
    requires forall j :: 0 <= j < |l| ==> l[j] in bs
    requires b in bs && Apart(l, b) && Sorted(bs, l) && k == LinkPos(bs, LAST, l, bs[b].size)
    ensures forall j :: 0 <= j < |InsertAt(l, k, b)| ==> InsertAt(l, k, b)[j] in bs
    ensures Sorted(bs[b := bs[b].(owner := Free(h))], InsertAt(l, k, b))
  {
  }

  lemma LinkLists(m: Mem, bs: Blocks, h: nat, f: Heap, i: int, b: int, k: int)
    requires f.grain > 0 && |f.heads| == |f.lists| == CLASSES && 0 <= i < CLASSES
    requires ListOk(m, bs, h, f, i) && Spread(f.lists[i]) && b in bs && b > 0 && Apart(f.lists[i], b)
    requires bs[b].size >= 0 && ClassOf(f.grain, bs[b].size) == i
    requires k == LinkPos(bs, i, f.lists[i], bs[b].size)
    ensures var l := f.lists[i];
            var hd := if k == 0 then b + TAG else f.heads[i];
            && ListOk(LinkStores(m, l, k, b), bs[b := bs[b].(owner := Free(h))], h,
                      f.(heads := f.heads[i := hd], lists := f.lists[i := InsertAt(l, k, b)]), i)
            && OnlyLinks(m, LinkStores(m, l, k, b), (set x | x in l) + {b})
            && b in InsertAt(l, k, b)
            && (forall c :: c in l ==> c in InsertAt(l, k, b))
  {
    hide LinkStores, OnlyLinks, LinkOk, Spread, Apart, Sorted, Distinct;
    var l := f.lists[i];
    SpreadPositive(l);
    InsertAtElements(l, k, b);
    LinkSorted(bs, h, i, l, b, k);
    LinkLinks(m, l, k, b);
    LinkWrites(m, l, k, b);
  }

  lemma InsertAtElements(l: seq<int>, k: int, b: int)
    requires 0 <= k <= |l|
    ensures forall j :: 0 <= j <= |l| ==>
              InsertAt(l, k, b)[j] == if j < k then l[j] else if j == k then b else l[j - 1]
    ensures b in InsertAt(l, k, b)
    ensures forall c :: c in l ==> c in InsertAt(l, k, b)
  {
    var l' := InsertAt(l, k, b);
    assert l'[k] == b;
    forall c | c in l ensures c in l' {
      var j :| 0 <= j < |l| && l[j] == c;
      assert l'[if j < k then j else j + 1] == c;
    }
  }

  lemma LinkWrites(m: Mem, l: seq<int>, k: int, b: int)
    requires 0 <= k <= |l| && b >= 0
    requires forall j :: 0 <= j < |l| ==> l[j] >= 0
    ensures OnlyLinks(m, LinkStores(m, l, k, b), (set x | x in l) + {b})
  {
    var m', xs := LinkStores(m, l, k, b), (set x | x in l) + {b};
    forall a | Rd(m', a) != Rd(m, a) ensures exists x :: x in xs && (a == x + 16 || a == x + 24) {
      var x := if a == b + 16 || a == b + 24 then b else if k > 0 && a == l[k - 1] + 16 then l[k - 1] else l[k];
      assert x in xs;
    }
  }

  // ---------- Blocks in a thread's hands ----------

  /** Changing the words of a held block. */
  lemma HeldWrites(s: State, m': Mem, b: int, t: nat)
    requires Inv(s) && b in s.blocks && s.blocks[b].owner == Held(t)
    requires OnlyIn(s.mem, m', b, b + s.blocks[b].size)
    ensures Inv(s.(mem := m')) && Undisturbed(s, s.(mem := m'), b)
  {
    HeapsFrame(s, m', s.blocks);
  }

  /** Cuts held block b after n bytes; thread t holds both parts. */
  function Carve(s: State, b: int, n: int): (s': State)
    requires b in s.blocks
  {
    s.(blocks := s.blocks[b := s.blocks[b].(size := n)][b + n := s.blocks[b].(size := s.blocks[b].size - n)])
  }

  /** Apart from b and d, which are not free, the two tables list the same blocks. */
  ghost predicate SameOthers(bs: Blocks, bs': Blocks, b: int, d: int) {
    && (forall c :: c in bs && c != b ==> c in bs' && bs'[c] == bs[c])
    && (forall c :: c in bs' && c != b && c != d ==> c in bs && bs[c] == bs'[c])
    && (b in bs ==> bs[b].owner.Held?) && (b in bs' ==> bs'[b].owner.Held?) && (d in bs' ==> bs'[d].owner.Held?)
  }

  /** Redrawing a held block, with the memory left alone. */
  lemma Redraw(s: State, bs': Blocks, regions': seq<Region>, b: int, d: int)
    requires Inv(s) && SameOthers(s.blocks, bs', b, d) && (d != b ==> d !in s.blocks)
    requires Geometry(bs') && Tiled(bs', regions')
    ensures var s' := s.(blocks := bs', regions := regions', heapSize := Total(bs'));
            Inv(s') && Undisturbed(s, s', b)
  {
    hide HeapOk, Tagged, Geometry, Tiled, Total;
    HeapsFrame(s, s.mem, bs');
  }

  lemma CarveTiled(bs: Blocks, b: int, n: int, regions: seq<Region>)
    requires b in bs && 0 < n < bs[b].size && b + n !in bs && Tiled(bs, regions)
    ensures Tiled(bs[b := bs[b].(size := n)][b + n := bs[b].(size := bs[b].size - n)], regions)
  {
    hide Covered, Mapped;
    CarveCovers(bs, b, n);
  }

  lemma CarveKeeps(s: State, b: int, n: int, t: nat)
    requires Inv(s) && b in s.blocks && s.blocks[b].owner == Held(t)
    requires MIN_BLOCK <= n <= s.blocks[b].size - MIN_BLOCK && n % 8 == 0
    ensures Inv(Carve(s, b, n)) && Undisturbed(s, Carve(s, b, n), b)
    ensures b + n !in s.blocks
  {
    hide HeapOk, Tagged, Geometry, Tiled, Total, Undisturbed;
    CarveGeometry(s.blocks, b, n);
    CarveTiled(s.blocks, b, n, s.regions);
    Redraw(s, Carve(s, b, n).blocks, s.regions, b, b + n);
  }

  lemma CarveGeometry(bs: Blocks, b: int, n: int)
    requires Geometry(bs) && b in bs
    requires MIN_BLOCK <= n <= bs[b].size - MIN_BLOCK && n % 8 == 0
    ensures var bs' := bs[b := bs[b].(size := n)][b + n := bs[b].(size := bs[b].size - n)];
            b + n !in bs && Geometry(bs') && Total(bs') == Total(bs)
  {
    hide SizeSum;
    TotalSet(bs, b, bs[b].(size := n));
    TotalSet(bs[b := bs[b].(size := n)], b + n, bs[b].(size := bs[b].size - n));
  }

  lemma CarveCovers(bs: Blocks, b: int, n: int)
    requires b in bs && 0 < n < bs[b].size && b + n !in bs
    ensures var bs' := bs[b := bs[b].(size := n)][b + n := bs[b].(size := bs[b].size - n)];
            forall a :: Covered(bs', a) <==> Covered(bs, a)
  {
    var bs' := bs[b := bs[b].(size := n)][b + n := bs[b].(size := bs[b].size - n)];
    forall a ensures Covered(bs', a) <==> Covered(bs, a) {
      if Covered(bs, a) {
        var c :| c in bs && c <= a < c + bs[c].size;
        var d := if c == b && a >= b + n then b + n else c;
        assert d in bs' && d <= a < d + bs'[d].size;
      }
      if Covered(bs', a) {
        var c :| c in bs' && c <= a < c + bs'[c].size;
        var d := if c == b + n then b else c;
        assert d in bs && d <= a < d + bs[d].size;
      }
    }
  }

  ghost predicate Fresh(regions: seq<Region>, start: int, n: int) {
    && start > 0 && start % 8 == 0
    && forall a :: start <= a < start + n ==> !Mapped(regions, a)
  }

  /** getMemoryFromOS: sbrk returned n bytes at start. */
  function Grow(s: State, start: int, n: int, t: nat): (s': State) {
    s.(blocks := s.blocks[start := Block(n, Held(t))],
       heapSize := s.heapSize + n,
       regions := s.regions + [Region(start, n)])
  }

  lemma GrowGeometry(bs: Blocks, regions: seq<Region>, start: int, x: Block)
    requires Geometry(bs) && Tiled(bs, regions) && Fresh(regions, start, x.size)
    requires x.size >= MIN_BLOCK && x.size % 8 == 0
    ensures start !in bs && Geometry(bs[start := x])
  {
    hide Covered, Mapped, Tiled, Fresh;
    FreshApart(bs, regions, start, x.size);
    FreshIsAligned(regions, start, x.size);
  }

  lemma FreshIsAligned(regions: seq<Region>, start: int, n: int)
    requires Fresh(regions, start, n)
    ensures start > 0 && start % 8 == 0
  {
  }

  lemma GrowTiled(bs: Blocks, regions: seq<Region>, start: int, x: Block)
    requires Tiled(bs, regions) && start !in bs
    ensures Tiled(bs[start := x], regions + [Region(start, x.size)])
  {
    hide Covered, Mapped;
    GrowCovers(bs, start, x);
    GrowMaps(regions, Region(start, x.size));
    var bs', regions' := bs[start := x], regions + [Region(start, x.size)];
    forall a ensures Mapped(regions', a) <==> Covered(bs', a) {
      assert Covered(bs', a) <==> Covered(bs, a) || start <= a < start + x.size;
      assert Mapped(regions', a) <==> Mapped(regions, a) || start <= a < start + x.size;
    }
  }

  lemma GrowKeeps(s: State, start: int, n: int, t: nat)
    requires Inv(s) && n >= MIN_BLOCK && n % 8 == 0 && Fresh(s.regions, start, n)
    ensures start !in s.blocks
    ensures Inv(Grow(s, start, n, t)) && Undisturbed(s, Grow(s, start, n, t), start)
  {
    hide HeapOk, Tagged, Geometry, Tiled, Total, Undisturbed, Fresh;
    TotalSet(s.blocks, start, Block(n, Held(t)));
    GrowGeometry(s.blocks, s.regions, start, Block(n, Held(t)));
    GrowTiled(s.blocks, s.regions, start, Block(n, Held(t)));
    Redraw(s, Grow(s, start, n, t).blocks, s.regions + [Region(start, n)], start, start);
  }

  lemma FreshApart(bs: Blocks, regions: seq<Region>, start: int, n: int)
    requires Geometry(bs) && Tiled(bs, regions) && n > 0 && Fresh(regions, start, n)
    ensures forall c :: c in bs ==> c + bs[c].size <= start || start + n <= c
  {
    forall c | c in bs ensures c + bs[c].size <= start || start + n <= c {
      assert Covered(bs, c);
      assert c < start < c + bs[c].size ==> Covered(bs, start);
    }
  }

  lemma GrowCovers(bs: Blocks, start: int, x: Block)
    requires start !in bs
    ensures forall a :: Covered(bs[start := x], a) <==> Covered(bs, a) || start <= a < start + x.size
  {
    var bs' := bs[start := x];
    forall a ensures Covered(bs', a) <==> Covered(bs, a) || start <= a < start + x.size {
      if Covered(bs, a) {
        var c :| c in bs && c <= a < c + bs[c].size;
        assert c in bs' && c <= a < c + bs'[c].size;
      }
      if start <= a < start + x.size {
        assert start in bs';
      }
    }
  }

  lemma GrowMaps(regions: seq<Region>, r: Region)
    ensures forall a :: Mapped(regions + [r], a) <==> Mapped(regions, a) || r.start <= a < r.start + r.len
  {
    var regions' := regions + [r];
    forall a ensures Mapped(regions', a) <==> Mapped(regions, a) || r.start <= a < r.start + r.len {
      if Mapped(regions, a) {
        var j :| 0 <= j < |regions| && regions[j].start <= a < regions[j].start + regions[j].len;
        assert regions'[j] == regions[j];
      }
      assert regions'[|regions|] == r;
    }
  }

  function SetOwner(s: State, b: int, o: Owner): (s': State)
    requires b in s.blocks
  {
    s.(blocks := s.blocks[b := s.blocks[b].(owner := o)])
  }

  /** Handing a tagged block to the program, or taking one back from it. */
  lemma HandOver(s: State, b: int, o: Owner)
    requires Inv(s) && b in s.blocks && !s.blocks[b].owner.Free? && !o.Free?
    requires o.Live? ==> Tagged(s.mem, b, s.blocks[b].size, OBJ_ALLOCATED)
    ensures Inv(SetOwner(s, b, o))
  {
    hide HeapOk, Tagged, Geometry, Tiled, Total;
    var s' := SetOwner(s, b, o);
    HeapsFrame(s, s.mem, s'.blocks);
    OwnerFrame(s.blocks, b, o, s.regions);
  }

  /** The program writes within a live block's payload. */
  lemma LiveWrites(s: State, m': Mem, b: int)
    requires Inv(s) && b in s.blocks && s.blocks[b].owner.Live?
    requires OnlyIn(s.mem, m', b + TAG, b + s.blocks[b].size - TAG)
    ensures Inv(s.(mem := m'))
    ensures forall c :: c in s.blocks && c != b ==> Same(s.mem, m', c, c + s.blocks[c].size)
  {
    HeapsFrame(s, m', s.blocks);
  }
}
