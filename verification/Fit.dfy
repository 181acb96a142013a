/** The lookup of a free block through the 65 size classes, with its split. */
module Fit {
  import opened Words
  import opened Arena

  // ---------- Which block is chosen ----------

  /** The first nonempty list at or after class i; CLASSES if there is none. */
  function NextNonEmpty(lists: seq<seq<int>>, i: int): (j: int)
    requires 0 <= i <= |lists|
    ensures i <= j <= |lists|
    ensures forall k :: i <= k < j ==> lists[k] == []
    ensures j < |lists| ==> lists[j] != []
    decreases |lists| - i
  {
    if i == |lists| || lists[i] != [] then i else NextNonEmpty(lists, i + 1)
  }

  datatype Choice = Miss | Hit(cls: int, pos: int, split: bool)

  /** Own class first; then the first block of the next nonempty class, split when the
      rest can stand as a block of its own. */
  function Choose(bs: Blocks, f: Heap, n: int): (c: Choice)
    requires f.grain > 0 && |f.lists| == CLASSES && n >= 0
    requires forall i, k :: 0 <= i < CLASSES && 0 <= k < |f.lists[i]| ==> f.lists[i][k] in bs
    ensures c.Hit? ==> 0 <= c.cls < CLASSES && 0 <= c.pos < |f.lists[c.cls]|
  {
    var i := ClassOf(f.grain, n);
    if f.lists[i] != [] then
      if i < LAST then Hit(i, 0, false)
      else
        var k := FirstAtLeast(bs, f.lists[i], n);
        if k == |f.lists[i]| then Miss else Hit(i, k, false)
    else
      var j := NextNonEmpty(f.lists, i + 1);
      if j == CLASSES then Miss
      else Hit(j, 0, bs[f.lists[j][0]].size >= n + MIN_BLOCK)
  }

  lemma DivMono(a: int, b: int, g: int)
    requires g > 0 && 0 <= a <= b
    ensures a / g <= b / g
  {
    var x, y := a / g, b / g;
    assert x > y ==> g * x >= g * (y + 1);
  }

  lemma ClassMono(g: int, a: int, b: int)
    requires g > 0 && 0 <= a <= b
    ensures ClassOf(g, a) <= ClassOf(g, b)
  {
    DivMono(a, b, g);
  }

  lemma AtLeastByClass(g: int, n: int, size: int)
    requires g > 0 && n >= 0 && size >= 0 && n % g == 0 && size / g >= n / g
    ensures size >= n
  {
  }

  /** Block b is large enough for n bytes, and no other free block of heap h that is has fewer
      whole grains. */
  ghost predicate LeastFit(bs: Blocks, h: nat, g: int, n: int, b: int)
    requires g > 0
  {
    && b in bs && bs[b].owner == Free(h) && bs[b].size >= n
    && forall c :: c in bs && bs[c].owner == Free(h) && bs[c].size >= n ==> bs[b].size / g <= bs[c].size / g
  }

  /** The class of n bytes is the last one, that of 64 grains or more, or heap h has a free block with
      as many whole grains. */
  ghost predicate OwnClassServes(bs: Blocks, h: nat, g: int, n: int)
    requires g > 0
  {
    n / g >= 64 || exists c :: c in bs && bs[c].owner == Free(h) && bs[c].size / g == n / g
  }

  /** The lookup is best fit over the whole heap, up to the heap's grain: it misses exactly
      when no free block is large enough, and otherwise no large enough free block has fewer
      whole grains. The block is to be split exactly if its class is not that of n bytes and the
      rest can stand as a block of its own. */
  lemma ChooseIsBestFit(m: Mem, bs: Blocks, h: nat, f: Heap, n: int)
    requires HeapOk(m, bs, h, f) && Geometry(bs) && n >= MIN_BLOCK && n % f.grain == 0
    ensures forall i, k :: 0 <= i < CLASSES && 0 <= k < |f.lists[i]| ==> f.lists[i][k] in bs
    ensures Choose(bs, f, n).Miss? <==> forall c :: c in bs && bs[c].owner == Free(h) ==> bs[c].size < n
    ensures var ch := Choose(bs, f, n);
            ch.Hit? ==>
              var b := f.lists[ch.cls][ch.pos];
              && LeastFit(bs, h, f.grain, n, b)
              && (ch.split <==> bs[b].size >= n + MIN_BLOCK && !OwnClassServes(bs, h, f.grain, n))
  {
    forall i, k | 0 <= i < CLASSES && 0 <= k < |f.lists[i]| ensures f.lists[i][k] in bs {
      assert ListOk(m, bs, h, f, i);
    }
    var ch := Choose(bs, f, n);
    if ch.Hit? {
      ChosenFits(m, bs, h, f, n);
      SplitOffOwnClass(m, bs, h, f, n);
      forall c | c in bs && bs[c].owner == Free(h) && bs[c].size >= n
        ensures bs[f.lists[ch.cls][ch.pos]].size / f.grain <= bs[c].size / f.grain
      {
        ChosenLeast(m, bs, h, f, n, c);
      }
    } else {
      forall c | c in bs && bs[c].owner == Free(h) ensures bs[c].size < n {
        if bs[c].size >= n {
          MissFitsNone(m, bs, h, f, n, c);
        }
      }
    }
  }

  lemma SplitOffOwnClass(m: Mem, bs: Blocks, h: nat, f: Heap, n: int)
    requires HeapOk(m, bs, h, f) && n >= MIN_BLOCK
    requires forall i, k :: 0 <= i < CLASSES && 0 <= k < |f.lists[i]| ==> f.lists[i][k] in bs
    requires Choose(bs, f, n).Hit?
    ensures var ch := Choose(bs, f, n);
            ch.split <==> bs[f.lists[ch.cls][ch.pos]].size >= n + MIN_BLOCK && !OwnClassServes(bs, h, f.grain, n)
  {
    var i := ClassOf(f.grain, n);
    assert ListOk(m, bs, h, f, i);
    if f.lists[i] != [] {
      var c := f.lists[i][0];
      assert c in bs && bs[c].owner == Free(h);
    }
  }

  lemma ChosenFits(m: Mem, bs: Blocks, h: nat, f: Heap, n: int)
    requires HeapOk(m, bs, h, f) && n >= MIN_BLOCK && n % f.grain == 0
    requires forall i, k :: 0 <= i < CLASSES && 0 <= k < |f.lists[i]| ==> f.lists[i][k] in bs
    requires Choose(bs, f, n).Hit?
    ensures var ch := Choose(bs, f, n);
            var b := f.lists[ch.cls][ch.pos];
            bs[b].owner == Free(h) && bs[b].size >= n
  {
    var ch := Choose(bs, f, n);
    assert ListOk(m, bs, h, f, ch.cls);
    var b := f.lists[ch.cls][ch.pos];
    if !(ch.cls == LAST && ClassOf(f.grain, n) == LAST) {
      AtLeastByClass(f.grain, n, bs[b].size);
    }
  }

  lemma MissFitsNone(m: Mem, bs: Blocks, h: nat, f: Heap, n: int, c: int)
    requires HeapOk(m, bs, h, f) && n >= MIN_BLOCK
    requires forall i, k :: 0 <= i < CLASSES && 0 <= k < |f.lists[i]| ==> f.lists[i][k] in bs
    requires Choose(bs, f, n).Miss?
    requires c in bs && bs[c].owner == Free(h)
    ensures bs[c].size < n
  {
    if bs[c].size >= n {
      ClassMono(f.grain, n, bs[c].size);
    }
  }

  lemma ChosenLeast(m: Mem, bs: Blocks, h: nat, f: Heap, n: int, c: int)
    requires HeapOk(m, bs, h, f) && n >= MIN_BLOCK
    requires forall i, k :: 0 <= i < CLASSES && 0 <= k < |f.lists[i]| ==> f.lists[i][k] in bs
    requires Choose(bs, f, n).Hit?
    requires c in bs && bs[c].owner == Free(h) && bs[c].size >= n
    ensures var ch := Choose(bs, f, n);
            bs[f.lists[ch.cls][ch.pos]].size / f.grain <= bs[c].size / f.grain
  {
    var ch := Choose(bs, f, n);
    var b := f.lists[ch.cls][ch.pos];
    var j := ClassOf(f.grain, bs[c].size);
    assert ListOk(m, bs, h, f, ch.cls);
    ClassMono(f.grain, n, bs[c].size);
    assert c in f.lists[j];
    if ch.cls == LAST {
      assert j == LAST;
      var k :| 0 <= k < |f.lists[LAST]| && f.lists[LAST][k] == c;
      assert ch.pos <= k;
      assert bs[b].size <= bs[c].size;
      DivMono(bs[b].size, bs[c].size, f.grain);
    }
  }

  /** With the 8-byte grain of the single heap and of the caches this is plain best fit. */
  lemma EightByteGrainIsExact(bs: Blocks, b: int, c: int)
    requires Geometry(bs) && b in bs && c in bs && bs[b].size / 8 <= bs[c].size / 8
    ensures bs[b].size <= bs[c].size
  {
  }

  lemma LeastIsSmallest(bs: Blocks, h: nat, n: int, b: int)
    requires Geometry(bs) && LeastFit(bs, h, 8, n, b)
    ensures forall c :: c in bs && bs[c].owner == Free(h) && bs[c].size >= n ==> bs[b].size <= bs[c].size
  {
    hide Geometry;
    forall c | c in bs && bs[c].owner == Free(h) && bs[c].size >= n ensures bs[b].size <= bs[c].size {
      EightByteGrainIsExact(bs, b, c);
    }
  }

  // ---------- Taking the chosen block ----------

  /** Header and footer of a block. */
  function SetTags(m: Mem, b: int, size: nat, flag: nat): (m': Mem) {
    m[b := flag][b + 8 := size][b + size - 16 := flag][b + size - 8 := size]
  }

  lemma SetTagsTags(m: Mem, b: int, size: nat, flag: nat)
    requires size >= 32
    ensures Tagged(SetTags(m, b, size, flag), b, size, flag)
    ensures OnlyIn(m, SetTags(m, b, size, flag), b, b + size)
  {
  }

  /** Cuts held block b after n bytes and tags the rest as free. */
  function Cut(s: State, b: int, n: int): (s': State)
    requires b in s.blocks && n <= s.blocks[b].size
  {
    var s1 := Carve(s, b, n);
    s1.(mem := SetTags(s1.mem, b + n, s.blocks[b].size - n, OBJ_FREE))
  }

  lemma CutKeeps(s: State, b: int, n: int, t: nat)
    requires Inv(s) && b in s.blocks && s.blocks[b].owner == Held(t)
    requires MIN_BLOCK <= n <= s.blocks[b].size - MIN_BLOCK && n % 8 == 0
    ensures var s', rest := Cut(s, b, n), s.blocks[b].size - n;
            && Inv(s') && Undisturbed(s, s', b)
            && b + n !in s.blocks
            && s'.blocks == s.blocks[b := Block(n, Held(t))][b + n := Block(rest, Held(t))]
            && Tagged(s'.mem, b + n, rest, OBJ_FREE)
  {
    hide Inv, Tagged, OnlyIn, Undisturbed;
    CarveKeeps(s, b, n, t);
    var s1 := Carve(s, b, n);
    var rest := s.blocks[b].size - n;
    SetTagsTags(s1.mem, b + n, rest, OBJ_FREE);
    HeldWrites(s1, SetTags(s1.mem, b + n, rest, OBJ_FREE), b + n, t);
    UndisturbedTrans(s, s1, Cut(s, b, n), b, b + n);
  }

  /** Two changes in a row; the second may touch x too, or a block that was not in use. */
  lemma UndisturbedTrans(s: State, s1: State, s2: State, x: int, y: int)
    requires Undisturbed(s, s1, x) && Undisturbed(s1, s2, y)
    requires y == x || y !in s.blocks || s.blocks[y].owner.Free?
    ensures Undisturbed(s, s2, x)
  {
  }

  predicate Splittable(s: State, h: nat, b: int, n: int) {
    b in s.blocks && n <= s.blocks[b].size && Linkable(Cut(s, b, n), h, b + n)
  }

  /** Cuts held block b to n bytes and puts the rest on the lists of heap h. */
  function Split(s: State, h: nat, b: int, n: int): (s': State)
    requires Splittable(s, h, b, n)
  {
    Link(Cut(s, b, n), h, b + n)
  }

  lemma SplitKeeps(s: State, h: nat, b: int, n: int, t: nat)
    requires Inv(s) && h < |s.heaps| && b in s.blocks && s.blocks[b].owner == Held(t)
    requires MIN_BLOCK <= n <= s.blocks[b].size - MIN_BLOCK && n % 8 == 0
    ensures Splittable(s, h, b, n)
    ensures var s' := Split(s, h, b, n);
            && Inv(s') && Undisturbed(s, s', b)
            && s'.blocks == s.blocks[b := Block(n, Held(t))][b + n := Block(s.blocks[b].size - n, Free(h))]
            && b + n !in s.blocks
            && |s'.heaps| == |s.heaps|
            && s'.heapSize == s.heapSize && s'.regions == s.regions
  {
    hide Inv, Tagged, Undisturbed, LinkStores;
    CutKeeps(s, b, n, t);
    LinkKeeps(Cut(s, b, n), h, b + n, t);
    UndisturbedTrans(s, Cut(s, b, n), Split(s, h, b, n), b, b + n);
  }

  predicate Takeable(s: State, h: nat, n: int, t: nat) {
    && h < |s.heaps|
    && var f := s.heaps[h];
    && f.grain > 0 && |f.lists| == |f.heads| == CLASSES && n >= 0
    && (forall i, k :: 0 <= i < CLASSES && 0 <= k < |f.lists[i]| ==> f.lists[i][k] in s.blocks)
    && match Choose(s.blocks, f, n)
       case Miss => true
       case Hit(i, k, split) =>
         && Unlinkable(s, h, i, k)
         && (split ==> Splittable(Unlink(s, h, i, k, t), h, f.lists[i][k], n))
  }

  datatype Taken = NoFit | Got(block: int, state: State)

  /** What allocateObject does under its lock before any refill: the chosen block comes off
      its list, and its excess goes back when it is to be split. */
  function Take(s: State, h: nat, n: int, t: nat): (r: Taken)
    requires Takeable(s, h, n, t)
  {
    var f := s.heaps[h];
    match Choose(s.blocks, f, n)
    case Miss => NoFit
    case Hit(i, k, split) =>
      var s1 := Unlink(s, h, i, k, t);
      Got(f.lists[i][k], if split then Split(s1, h, f.lists[i][k], n) else s1)
  }

  lemma UnlinkFields(s: State, h: nat, i: int, k: int, t: nat)
    requires Unlinkable(s, h, i, k)
    ensures var s', b := Unlink(s, h, i, k, t), s.heaps[h].lists[i][k];
            && s'.blocks == s.blocks[b := s.blocks[b].(owner := Held(t))] && |s'.heaps| == |s.heaps|
            && s'.heapSize == s.heapSize && s'.regions == s.regions
  {
  }

  lemma LeastFits(bs: Blocks, h: nat, g: int, n: int, b: int)
    requires g > 0 && LeastFit(bs, h, g, n, b)
    ensures b in bs && bs[b].owner == Free(h) && bs[b].size >= n
  {
  }

  /** A hit hands thread t the best fit of heap h, whole or cut, and nobody else notices. Sizes of
      all other free blocks are as before, but for the cut-off rest. */
  lemma TakeKeeps(s: State, h: nat, n: int, t: nat)
    requires Inv(s) && h < |s.heaps|
    requires n >= MIN_BLOCK && n % 8 == 0 && (s.heaps[h].grain > 0 ==> n % s.heaps[h].grain == 0)
    ensures Takeable(s, h, n, t)
    ensures Take(s, h, n, t).NoFit? <==> forall c :: c in s.blocks && s.blocks[c].owner == Free(h) ==> s.blocks[c].size < n
    ensures var r := Take(s, h, n, t);
            r.Got? ==>
              var b, s' := r.block, r.state;
              && Inv(s') && Undisturbed(s, s', b)
              && |s'.heaps| == |s.heaps| && s'.heapSize == s.heapSize && s'.regions == s.regions
              && TookBlock(s.blocks, s'.blocks, h, s.heaps[h].grain, b, n, Held(t))
  {
    hide Inv, Undisturbed, Unlink, Split, HeapOk, Choose, ListOk, Spread, LeastFit, OwnClassServes;
    var f := s.heaps[h];
    ListFacts(s, h, 0);
    HeapFacts(s, h);
    ChooseIsBestFit(s.mem, s.blocks, h, f, n);
    var ch := Choose(s.blocks, f, n);
    if ch.Hit? {
      var b := f.lists[ch.cls][ch.pos];
      LeastFits(s.blocks, h, f.grain, n, b);
      UnlinkKeeps(s, h, ch.cls, ch.pos, t);
      UnlinkFields(s, h, ch.cls, ch.pos, t);
      var s1 := Unlink(s, h, ch.cls, ch.pos, t);
      if ch.split {
        SplitKeeps(s1, h, b, n, t);
        UndisturbedTrans(s, s1, Split(s1, h, b, n), b, b);
      }
    }
  }

  lemma HeapFacts(s: State, h: nat)
    requires Inv(s) && h < |s.heaps|
    ensures HeapOk(s.mem, s.blocks, h, s.heaps[h]) && Geometry(s.blocks)
  {
  }

  /** Block b, the best fit for n bytes in heap h with grain g, went to owner o. It is cut to
      exactly n bytes if it is from a larger class and at least a minimum block is left over, and
      otherwise handed out whole. */
  ghost predicate TookBlock(bs: Blocks, bs': Blocks, h: nat, g: int, b: int, n: int, o: Owner) {
    && g > 0 && LeastFit(bs, h, g, n, b)
    && if bs[b].size >= n + MIN_BLOCK && !OwnClassServes(bs, h, g, n)
       then b + n !in bs && bs' == bs[b := Block(n, o)][b + n := Block(bs[b].size - n, Free(h))]
       else bs' == bs[b := Block(bs[b].size, o)]
  }

  lemma TookFacts(bs: Blocks, bs': Blocks, h: nat, g: int, b: int, n: int, o: Owner)
    requires n > 0 && TookBlock(bs, bs', h, g, b, n, o)
    ensures b in bs && bs[b].owner == Free(h) && b in bs' && bs'[b].owner == o && bs[b].size >= bs'[b].size >= n
  {
  }

  // ---------- Last in, first out ----------

  /** Where the lookup finds a block of n bytes that has just been linked. */
  lemma LinkedIsChosen(bs: Blocks, f: Heap, f': Heap, bs': Blocks, i: int, k: int, b: int, n: int)
    requires f.grain > 0 && n >= 0 && |f.lists| == CLASSES && i == ClassOf(f.grain, n) && f'.grain == f.grain
    requires (forall j :: 0 <= j < |f.lists[i]| ==> f.lists[i][j] in bs) && k == LinkPos(bs, i, f.lists[i], n)
    requires f'.lists == f.lists[i := InsertAt(f.lists[i], k, b)]
    requires bs'.Keys == bs.Keys && (forall c :: c in bs ==> bs'[c].size == bs[c].size) && b in bs && bs[b].size == n
    requires forall j, e :: 0 <= j < CLASSES && 0 <= e < |f'.lists[j]| ==> f'.lists[j][e] in bs'
    ensures Choose(bs', f', n) == Hit(i, k, false) && f'.lists[i][k] == b
  {
    var l, l' := f.lists[i], f'.lists[i];
    assert l'[k] == b;
    if i == LAST {
      forall j | 0 <= j < k ensures bs'[l'[j]].size < n {
        assert l'[j] == l[j];
      }
    }
  }

  lemma InsertThenRemove(l: seq<int>, k: int, b: int)
    requires 0 <= k <= |l|
    ensures RemoveAt(InsertAt(l, k, b), k) == l && InsertAt(l, k, b)[k] == b
    ensures k == 0 ==> NodeAt(InsertAt(l, k, b), 1) == NodeAt(l, 0)
  {
  }

  /** The block freed last is the first to be handed out again: a request for exactly its size
      gets it back, and the lists of the heap are as they were before it was freed. */
  lemma TakeUndoesLink(s: State, h: nat, b: int, t: nat)
    requires Inv(s) && h < |s.heaps| && b in s.blocks && s.blocks[b].owner == Held(t)
    requires Tagged(s.mem, b, s.blocks[b].size, OBJ_FREE)
    requires s.heaps[h].grain > 0 ==> s.blocks[b].size % s.heaps[h].grain == 0
    ensures Linkable(s, h, b) && Takeable(Link(s, h, b), h, s.blocks[b].size, t)
    ensures var r := Take(Link(s, h, b), h, s.blocks[b].size, t);
            r.Got? && r.block == b && r.state.heaps == s.heaps && r.state.blocks == s.blocks
  {
    hide Inv, Tagged, LinkStores, UnlinkStores, Undisturbed, InsertAt, RemoveAt, LinkPos, Choose;
    LinkKeeps(s, h, b, t);
    GeometryOf(s, b);
    var f, n := s.heaps[h], s.blocks[b].size;
    var i := ClassOf(f.grain, n);
    ListFacts(s, h, i);
    var k := LinkPos(s.blocks, i, f.lists[i], n);
    var s1 := Link(s, h, b);
    TakeKeeps(s1, h, n, t);
    LinkedIsChosen(s.blocks, f, s1.heaps[h], s1.blocks, i, k, b, n);
    InsertThenRemove(f.lists[i], k, b);
    var s2 := Unlink(s1, h, i, k, t);
    assert s2.heaps[h].lists == f.lists && s2.heaps[h].heads == f.heads;
  }
}
