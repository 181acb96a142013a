/** The pointer-walking code of the allocators, proved against Arena and Fit. */
module SizeClassHeap {
  import opened Words
  import opened Arena
  import opened Fit
  import opened Objects

  /** The stores of insertFreeBlock, in its four cases, have the effect of LinkStores. */
  lemma SpliceStores(m: Mem, l: seq<int>, k: int, b: int)
    requires Spread(l) && Apart(l, b) && b > 0 && 0 <= k <= |l|
    ensures k == |l| > 0 ==>
              m[l[k - 1] + 16 := b + TAG][b + 24 := l[k - 1] + TAG][b + 16 := 0] == LinkStores(m, l, k, b)
    ensures k == 0 < |l| ==>
              m[b + 16 := l[k] + TAG][b + 24 := 0][l[k] + 24 := b + TAG] == LinkStores(m, l, k, b)
    ensures 0 < k < |l| ==>
              m[l[k - 1] + 16 := b + TAG][b + 16 := l[k] + TAG][l[k] + 24 := b + TAG][b + 24 := l[k - 1] + TAG]
              == LinkStores(m, l, k, b)
    ensures k == 0 < |l| ==>
              m[b + 16 := l[k] + TAG][l[k] + 24 := b + TAG][b + 24 := 0] == LinkStores(m, l, k, b)
    ensures |l| == 0 ==> m[b + 16 := 0][b + 24 := 0] == LinkStores(m, l, k, b)
  {
  }

  /** The tags of a block survive its removal from the list. */
  lemma UnlinkKeepsTags(s: State, h: nat, i: int, k: int, t: nat)
    requires Inv(s) && h < |s.heaps| && 0 <= i < CLASSES
    requires |s.heaps[h].lists| == CLASSES && 0 <= k < |s.heaps[h].lists[i]|
    ensures Unlinkable(s, h, i, k)
    ensures var b := s.heaps[h].lists[i][k];
            Rd(Unlink(s, h, i, k, t).mem, b + 8) == s.blocks[b].size
  {
    ListFacts(s, h, i);
    var l := s.heaps[h].lists[i];
    UnlinkWrites(s.mem, l, k);
    LinksMissTags(s.mem, UnlinkStores(s.mem, l, k), s.blocks, (set x | x in l), l[k]);
  }

  lemma SplitSize(s: State, h: nat, i: int, n: int, t: nat)
    requires Unlinkable(s, h, i, 0)
    requires Splittable(Unlink(s, h, i, 0, t), h, s.heaps[h].lists[i][0], n) && n != 0
    ensures var b := s.heaps[h].lists[i][0];
            var s' := Split(Unlink(s, h, i, 0, t), h, b, n);
            b in s'.blocks && s'.blocks[b].size == n
  {
  }

  function SetHead(freels: seq<seq<nat>>, h: nat, p: int, hd: nat): (r: seq<seq<nat>>)
    requires h < |freels| && 0 <= p < |freels[h]|
  {
    var row: seq<nat> := freels[h][p := hd];
    freels[h := row]
  }

  /** The free blocks of heap h in classes below i. */
  function FreeBelow(bs: Blocks, h: nat, grain: int, i: int): (r: set<int>)
    requires grain > 0
  {
    set b | b in bs && bs[b].owner == Free(h) && bs[b].size >= 0 && ClassOf(grain, bs[b].size) < i
  }

  lemma EmptySum(bs: Blocks)
    ensures SizeSum(bs, {}) == 0
  {
  }

  lemma FreeBelowEnds(s: State, h: nat)
    requires Inv(s) && h < |s.heaps|
    ensures s.heaps[h].grain > 0
    ensures FreeBelow(s.blocks, h, s.heaps[h].grain, 0) == {}
    ensures FreeBelow(s.blocks, h, s.heaps[h].grain, CLASSES) == FreeOf(s.blocks, h)
  {
    HeapFacts(s, h);
    var bs, g := s.blocks, s.heaps[h].grain;
    forall b | b in bs && bs[b].owner == Free(h)
      ensures b in FreeBelow(bs, h, g, CLASSES) && b !in FreeBelow(bs, h, g, 0)
    {
      assert 0 <= ClassOf(g, bs[b].size) < CLASSES;
    }
  }

  /** The next_ links of the nodes spell list l. */
  ghost predicate Chain(m: Mem, l: seq<int>) {
    forall k :: 0 <= k < |l| ==> NextOk(m, l, k)
  }

  ghost predicate NextOk(m: Mem, l: seq<int>, k: int)
    requires 0 <= k < |l|
  {
    l[k] > 0 && Rd(m, l[k] + 16) == NodeAt(l, k + 1)
  }

  lemma ChainPositive(m: Mem, l: seq<int>)
    requires Chain(m, l)
    ensures forall k :: 0 <= k < |l| ==> l[k] > 0
  {
    forall k | 0 <= k < |l| ensures l[k] > 0 {
      assert NextOk(m, l, k);
    }
  }

  ghost predicate PrevOk(m: Mem, l: seq<int>, k: int)
    requires 0 <= k < |l|
  {
    Rd(m, l[k] + 24) == NodeAt(l, k - 1)
  }

  /** Position k of the list of class i is tagged free at both ends and has the size of its
      class, in whole grains; in the last class it is also no smaller than its predecessor. */
  ghost predicate NodeConsistent(m: Mem, grain: int, i: int, l: seq<int>, k: int)
    requires 0 <= k < |l| && grain > 0
  {
    var size := Rd(m, l[k] + 8);
    && Tagged(m, l[k], size, OBJ_FREE) && size % grain == 0
    && (if i < LAST then size == i * grain
        else size >= i * grain && (k > 0 ==> size >= Rd(m, l[k - 1] + 8)))
  }

  lemma ListMember(m: Mem, bs: Blocks, h: nat, f: Heap, i: int, k: int)
    requires HeapOk(m, bs, h, f) && 0 <= i < CLASSES && 0 <= k < |f.lists[i]|
    ensures f.lists[i][k] in bs && bs[f.lists[i][k]].owner == Free(h)
  {
    assert ListOk(m, bs, h, f, i);
  }

  /** The blocks on list i of heap h have whole grains. */
  ghost predicate WholeList(s: State, h: nat, grain: int, i: int)
    requires grain > 0
  {
    && h < |s.heaps| && 0 <= i < |s.heaps[h].lists|
    && forall k :: 0 <= k < |s.heaps[h].lists[i]| ==>
         s.heaps[h].lists[i][k] in s.blocks && s.blocks[s.heaps[h].lists[i][k]].size % grain == 0
  }

  /** The lists of a heap hold exactly its free blocks. */
  lemma WholeLists(s: State, h: nat)
    requires Inv(s) && h < |s.heaps| && s.heaps[h].grain > 0
    ensures (forall i :: 0 <= i < CLASSES ==> WholeList(s, h, s.heaps[h].grain, i)) <==>
            forall b :: b in s.blocks && s.blocks[b].owner == Free(h) ==> s.blocks[b].size % s.heaps[h].grain == 0
  {
    hide Inv, ListOk;
    HeapFacts(s, h);
    var f, g := s.heaps[h], s.heaps[h].grain;
    if forall i :: 0 <= i < CLASSES ==> WholeList(s, h, g, i) {
      forall b | b in s.blocks && s.blocks[b].owner == Free(h) ensures s.blocks[b].size % g == 0 {
        var i := ClassOf(g, s.blocks[b].size);
        assert WholeList(s, h, g, i) && b in f.lists[i];
      }
    }
    if forall b :: b in s.blocks && s.blocks[b].owner == Free(h) ==> s.blocks[b].size % g == 0 {
      forall i | 0 <= i < CLASSES ensures WholeList(s, h, g, i) {
        forall k | 0 <= k < |f.lists[i]| ensures f.lists[i][k] in s.blocks && s.blocks[f.lists[i][k]].size % g == 0 {
          ListMember(s.mem, s.blocks, h, f, i, k);
        }
      }
    }
  }

  lemma EightBytes(s: State)
    requires Inv(s)
    ensures forall b :: b in s.blocks ==> s.blocks[b].size % 8 == 0
  {
  }

  lemma WholeGrains(grain: int, size: int)
    requires grain > 0 && size >= 0
    ensures size / grain * grain == size - size % grain
    ensures ClassOf(grain, size) * grain <= size
  {
  }

  ghost predicate HeadsAgree(grains: seq<int>, freels: seq<seq<nat>>, heaps: seq<Heap>) {
    && |grains| == |freels| == |heaps|
    && forall h :: 0 <= h < |heaps| ==>
         heaps[h].grain == grains[h] && heaps[h].heads == freels[h] && |freels[h]| == CLASSES
  }

  /** What Link leaves in memory and in the head table. */
  lemma LinkedHeads(grains: seq<int>, freels: seq<seq<nat>>, s: State, h: nat, b: int)
    requires HeadsAgree(grains, freels, s.heaps) && Linkable(s, h, b)
    ensures var p := ClassOf(s.heaps[h].grain, s.blocks[b].size);
            var l, s' := s.heaps[h].lists[p], Link(s, h, b);
            var k := LinkPos(s.blocks, p, l, s.blocks[b].size);
            && s'.mem == LinkStores(s.mem, l, k, b) && s'.heapSize == s.heapSize
            && HeadsAgree(grains, if k == 0 then SetHead(freels, h, p, b + TAG) else freels, s'.heaps)
  {
  }

  /** The same for Unlink. */
  lemma UnlinkedHeads(grains: seq<int>, freels: seq<seq<nat>>, s: State, h: nat, p: int, k: int, t: nat)
    requires HeadsAgree(grains, freels, s.heaps) && Unlinkable(s, h, p, k)
    ensures var l, s' := s.heaps[h].lists[p], Unlink(s, h, p, k, t);
            && s'.mem == UnlinkStores(s.mem, l, k) && s'.heapSize == s.heapSize && NodeAt(l, 1) >= 0
            && HeadsAgree(grains, if k == 0 then SetHead(freels, h, p, NodeAt(l, 1)) else freels, s'.heaps)
  {
  }

  /** The memory, the list heads of every heap (row h, class i) and _heapSize. The ghost
      state st says what they represent. */
  class Heaps {
    const grains: seq<int>
    var mem: Mem
    var freels: seq<seq<nat>>
    var heapSize: int
    ghost var st: State

    ghost predicate Agrees()
      reads this
    {
      mem == st.mem && heapSize == st.heapSize && HeadsAgree(grains, freels, st.heaps)
    }

    ghost predicate Valid()
      reads this
    {
      Agrees() && Inv(st)
    }

    /** Before any allocation: no memory and empty lists. */
    constructor (gs: seq<int>, m: Mem)
      requires forall h :: 0 <= h < |gs| ==> gs[h] > 0
      ensures Valid() && grains == gs && mem == m && st.blocks == map[] && st.regions == []
    {
      grains := gs;
      mem := m;
      freels := seq(|gs|, _ => seq(CLASSES, _ => 0));
      heapSize := 0;
      var none: seq<seq<int>> := seq(CLASSES, _ => []);
      st := State(m, seq(|gs|, h requires 0 <= h < |gs| => Heap(gs[h], seq(CLASSES, _ => 0), none)), map[], 0, []);
      new;
      forall h | 0 <= h < |gs| ensures HeapOk(m, map[], h, st.heaps[h]) {
      }
    }

    lemma RowsAt(h: nat)
      requires Valid() && h < |grains|
      ensures |st.heaps| == |grains| == |freels| && st.heaps[h].grain == grains[h]
      ensures |freels[h]| == CLASSES && st.heaps[h].heads == freels[h]
    {
    }

    /** The list is empty exactly when its head is NULL, and the head is the first node. */
    lemma ListAt(h: nat, i: int)
      requires Valid() && h < |st.heaps| && 0 <= i < CLASSES
      ensures |st.heaps[h].lists| == CLASSES && st.heaps[h].grain > 0
      ensures ListOk(mem, st.blocks, h, st.heaps[h], i)
      ensures Spread(st.heaps[h].lists[i])
      ensures freels[h][i] == NodeAt(st.heaps[h].lists[i], 0)
      ensures forall k :: 0 <= k < |st.heaps[h].lists[i]| ==>
                var b := st.heaps[h].lists[i][k];
                b > 0 && b in st.blocks && Rd(mem, b + 8) == st.blocks[b].size
    {
      ListFacts(st, h, i);
    }

    /** The walk along the sorted list: stops at the first node of at least n bytes. */
    method FindPlace(h: nat, n: int) returns (preiter: nat, iter: nat)
      requires Valid() && h < |grains|
      ensures |st.heaps[h].lists| == CLASSES
      ensures forall k :: 0 <= k < |st.heaps[h].lists[LAST]| ==> st.heaps[h].lists[LAST][k] in st.blocks
      ensures var l := st.heaps[h].lists[LAST];
              var k := FirstAtLeast(st.blocks, l, n);
              preiter == NodeAt(l, k - 1) && iter == NodeAt(l, k)
    {
      hide Inv, ListOk, Spread;
      ListAt(h, LAST);
      ghost var l := st.heaps[h].lists[LAST];
      iter := freels[h][LAST];
      preiter := 0;
      ghost var k := 0;
      while iter != 0
        invariant 0 <= k <= |l|
        invariant iter == NodeAt(l, k) && preiter == NodeAt(l, k - 1)
        invariant forall j :: 0 <= j < k ==> st.blocks[l[j]].size < n
        decreases |l| - k
      {
        if Rd(mem, iter - 8) >= n {
          break;
        }
        assert LinkOk(mem, l, k) by { LinkAt(h, LAST, k); }
        preiter := iter;
        iter := Rd(mem, iter);
        k := k + 1;
      }
      assert k == FirstAtLeast(st.blocks, l, n);
    }

    lemma LinkAt(h: nat, i: int, k: int)
      requires Valid() && h < |st.heaps| && 0 <= i < CLASSES
      requires |st.heaps[h].lists| == CLASSES && 0 <= k < |st.heaps[h].lists[i]|
      ensures LinkOk(mem, st.heaps[h].lists[i], k)
    {
      ListFacts(st, h, i);
    }

    method PushFront(h: nat, p: int, toinsert: nat, ghost l: seq<int>)
      requires h < |freels| && 0 <= p < |freels[h]|
      requires freels[h][p] == NodeAt(l, 0) && Spread(l) && Apart(l, toinsert - TAG) && toinsert > TAG
      modifies this`mem, this`freels
      ensures mem == LinkStores(old(mem), l, 0, toinsert - TAG)
      ensures freels == SetHead(old(freels), h, p, toinsert)
    {
      SpliceStores(mem, l, 0, toinsert - TAG);
      var tmpnext := freels[h][p];
      mem := mem[toinsert := tmpnext];
      if tmpnext != 0 {
        mem := mem[tmpnext + 8 := toinsert];
      }
      mem := mem[toinsert + 8 := 0];
      freels := SetHead(freels, h, p, toinsert);
    }

    method SpliceBetween(h: nat, p: int, toinsert: nat, preiter: nat, iter: nat, ghost l: seq<int>, ghost k: int)
      requires h < |freels| && 0 <= p < |freels[h]|
      requires Spread(l) && Apart(l, toinsert - TAG) && toinsert > TAG && 0 <= k <= |l| && |l| > 0
      requires preiter == NodeAt(l, k - 1) && iter == NodeAt(l, k)
      modifies this`mem, this`freels
      ensures mem == LinkStores(old(mem), l, k, toinsert - TAG)
      ensures freels == if k == 0 then SetHead(old(freels), h, p, toinsert) else old(freels)
    {
      SpliceStores(mem, l, k, toinsert - TAG);
      if iter == 0 {
        mem := mem[preiter := toinsert];
        mem := mem[toinsert + 8 := preiter];
        mem := mem[toinsert := 0];
      } else if preiter == 0 {
        freels := SetHead(freels, h, p, toinsert);
        mem := mem[toinsert := iter];
        mem := mem[toinsert + 8 := 0];
        mem := mem[iter + 8 := toinsert];
      } else {
        mem := mem[preiter := toinsert];
        mem := mem[toinsert := iter];
        mem := mem[iter + 8 := toinsert];
        mem := mem[toinsert + 8 := preiter];
      }
    }

    /** insertFreeBlock: the block goes to its place in the sorted last class, or to the front of
        any other. */
    method InsertFreeBlock(h: nat, toinsert: int, pos: int, ghost t: nat) returns (ok: bool)
      requires Valid() && h < |grains|
      requires toinsert - TAG in st.blocks && st.blocks[toinsert - TAG].owner == Held(t)
      requires Tagged(mem, toinsert - TAG, st.blocks[toinsert - TAG].size, OBJ_FREE)
      requires grains[h] > 0 && (pos < 0 || pos == st.blocks[toinsert - TAG].size / grains[h])
      modifies this`mem, this`st, this`freels
      ensures ok == (pos >= 0)
      ensures ok ==> Valid() && Linkable(old(st), h, toinsert - TAG) && st == Link(old(st), h, toinsert - TAG)
      ensures !ok ==> Valid() && st == old(st) && mem == old(mem)
    {
      hide Inv, ListOk, Tagged, Spread, Apart, Link, LinkStores, SetHead, InsertAt, HeadsAgree, Undisturbed;
      if pos < 0 {
        return false;
      }
      var p := if pos > LAST then LAST else pos;
      ghost var b := toinsert - TAG;
      RowsAt(h);
      GeometryOf(st, b);
      ListAt(h, p);
      LinkKeeps(st, h, b, t);
      HeldApart(st, h, p, b, t);
      ghost var l := st.heaps[h].lists[p];
      ghost var k := LinkPos(st.blocks, p, l, st.blocks[b].size);
      if p == LAST && freels[h][p] != 0 {
        SizeWord(b, t);
        var preiter, iter := FindPlace(h, Rd(mem, toinsert - 8));
        SpliceBetween(h, p, toinsert, preiter, iter, l, k);
      } else {
        PushFront(h, p, toinsert, l);
      }
      LinkedHeads(grains, old(freels), st, h, b);
      st := Link(st, h, b);
      ok := true;
    }

    /** Takes node iter out of its list: the first node, or one with a predecessor. */
    method UnlinkNode(h: nat, p: int, iter: nat, ghost l: seq<int>, ghost k: int)
      requires h < |freels| && 0 <= p < |freels[h]| && freels[h][p] == NodeAt(l, 0)
      requires Spread(l) && 0 <= k < |l| && iter == NodeAt(l, k) && LinkOk(mem, l, k)
      modifies this`mem, this`freels
      ensures mem == UnlinkStores(old(mem), l, k)
      ensures freels == if k == 0 then SetHead(old(freels), h, p, NodeAt(l, 1)) else old(freels)
    {
      var next, prev := Rd(mem, iter), Rd(mem, iter + 8);
      if iter == freels[h][p] {
        assert k == 0;
        freels := SetHead(freels, h, p, next);
        if next != 0 {
          mem := mem[next + 8 := 0];
        }
      } else {
        mem := mem[prev := next];
        if next != 0 {
          mem := mem[next + 8 := prev];
        }
      }
    }

    /** Position of the node that rmFromFreeLs picks, or the length of the list. */
    ghost function PickPos(h: nat, i: int, totsize: int): (k: int)
      requires Valid() && h < |grains| && 0 <= i < CLASSES
      reads this
      ensures |st.heaps[h].lists| == CLASSES && 0 <= k <= |st.heaps[h].lists[i]|
    {
      ListAt(h, i);
      var l := st.heaps[h].lists[i];
      if i == LAST then FirstAtLeast(st.blocks, l, totsize) else 0
    }

    /** rmFromFreeLs: the first node of a class, or the first large enough one of the last. */
    method RmFromFreeLs(h: nat, pos: int, totsize: int, ghost t: nat) returns (node: nat)
      requires Valid() && h < |grains|
      modifies this`mem, this`freels, this`st
      ensures Valid()
      ensures node == 0 ==> st == old(st)
      ensures var i := if pos > LAST then LAST else pos;
              && (pos < 0 ==> node == 0)
              && (pos >= 0 ==>
                   var k := old(PickPos(h, i, totsize));
                   var l := old(st).heaps[h].lists[i];
                   && (node == 0 <==> k == |l|)
                   && (node != 0 ==> node == l[k] + TAG && Unlinkable(old(st), h, i, k) && st == Unlink(old(st), h, i, k, t)))
    {
      hide Inv, ListOk, Spread, Unlink, UnlinkStores, SetHead, RemoveAt, HeadsAgree, Undisturbed;
      if pos < 0 {
        return 0;
      }
      var p := if pos > LAST then LAST else pos;
      RowsAt(h);
      ListAt(h, p);
      ghost var l := st.heaps[h].lists[p];
      ghost var k := PickPos(h, p, totsize);
      if freels[h][p] == 0 {
        return 0;
      }
      if p == LAST {
        var _, iter := FindPlace(h, totsize);
        node := iter;
        if node == 0 {
          return 0;
        }
      } else {
        node := freels[h][p];
      }
      LinkAt(h, p, k);
      UnlinkKeeps(st, h, p, k, t);
      UnlinkNode(h, p, node, l, k);
      UnlinkedHeads(grains, old(freels), st, h, p, k, t);
      st := Unlink(st, h, p, k, t);
    }

    /** The scan for a nonempty list at or after class i. */
    method ScanClasses(h: nat, i: int) returns (index: int)
      requires Valid() && h < |grains| && 0 <= i <= CLASSES
      ensures |st.heaps[h].lists| == CLASSES && index == NextNonEmpty(st.heaps[h].lists, i)
    {
      hide Inv, ListOk, Spread;
      RowsAt(h);
      ListAt(h, 0);
      index := i;
      while index < CLASSES
        invariant i <= index <= CLASSES
        invariant NextNonEmpty(st.heaps[h].lists, i) == NextNonEmpty(st.heaps[h].lists, index)
      {
        ListAt(h, index);
        if freels[h][index] != 0 {
          break;
        }
        index := index + 1;
      }
    }

    /** Splits node toSplit after totalSize bytes: tags the rest and puts it on its list. */
    method SplitNode(h: nat, toSplit: nat, totalSize: int, ghost t: nat)
      requires Valid() && h < |grains|
      requires toSplit - TAG in st.blocks && st.blocks[toSplit - TAG].owner == Held(t)
      requires Rd(mem, toSplit - 8) == st.blocks[toSplit - TAG].size
      requires MIN_BLOCK <= totalSize <= st.blocks[toSplit - TAG].size - MIN_BLOCK && totalSize % 8 == 0
      modifies this`mem, this`freels, this`st
      ensures Valid()
      ensures Splittable(old(st), h, toSplit - TAG, totalSize)
      ensures st == Split(old(st), h, toSplit - TAG, totalSize)
    {
      hide Inv, ListOk, Tagged, Spread, Undisturbed, Link, HeadsAgree, SetTags;
      ghost var b := toSplit - TAG;
      RowsAt(h);
      ListAt(h, 0);
      CutKeeps(st, b, totalSize, t);
      SplitKeeps(st, h, b, totalSize, t);
      var realSize := Rd(mem, toSplit - 8);
      var newclass := (realSize - totalSize) / grains[h];
      WriteTags(toSplit + totalSize - TAG, realSize - totalSize, OBJ_FREE);
      st := Cut(st, b, totalSize);
      var ok := InsertFreeBlock(h, toSplit + totalSize, newclass, t);
    }

    /** Sets header and footer. */
    method WriteTags(obj: int, size: nat, flags: nat)
      requires size >= MIN_BLOCK
      modifies this`mem
      ensures mem == SetTags(old(mem), obj, size, flags)
    {
      var p := obj;
      mem := mem[p + 8 := size];
      mem := mem[p := flags];
      p := p + size - TAG;
      mem := mem[p + 8 := size];
      mem := mem[p := flags];
    }

    /** allocateObject under its lock, up to the refill; block is 0 when nothing fits. */
    method TakeFit(h: nat, totalSize: int, ghost t: nat) returns (block: int, size: int)
      requires Valid() && h < |grains| && grains[h] > 0
      requires totalSize >= MIN_BLOCK && totalSize % 8 == 0 && totalSize % grains[h] == 0
      modifies this`mem, this`freels, this`st
      ensures Valid()
      ensures Takeable(old(st), h, totalSize, t)
      ensures match Take(old(st), h, totalSize, t)
              case NoFit => block == 0 && st == old(st)
              case Got(b, s') => block == b && b > 0 && st == s' && b in st.blocks && size == st.blocks[b].size
    {
      hide Inv, ListOk, Spread, Undisturbed, Split, HeadsAgree, Geometry, HeapOk;
      RowsAt(h);
      TakeKeeps(st, h, totalSize, t);
      var index := if totalSize / grains[h] > LAST then LAST else totalSize / grains[h];
      ListAt(h, index);
      if freels[h][index] != 0 {
        var node := RmFromFreeLs(h, totalSize / grains[h], totalSize, t);
        if node == 0 {
          return 0, 0;
        }
        block := node - TAG;
        UnlinkKeepsTags(old(st), h, index, old(PickPos(h, index, totalSize)), t);
        size := totalSize;
        if Rd(mem, block + 8) > totalSize {
          size := Rd(mem, block + 8);
        }
      } else {
        block, size := TakeLarger(h, totalSize, index + 1, t);
      }
    }

    /** The search of the larger classes, from class i on, with the split. */
    method TakeLarger(h: nat, totalSize: int, i: int, ghost t: nat) returns (block: int, size: int)
      requires Valid() && h < |grains| && grains[h] > 0 && Takeable(st, h, totalSize, t)
      requires totalSize >= MIN_BLOCK && totalSize % 8 == 0
      requires i == ClassOf(grains[h], totalSize) + 1 && st.heaps[h].grain == grains[h] && st.heaps[h].lists[i - 1] == []
      modifies this`mem, this`freels, this`st
      ensures Valid()
      ensures match Take(old(st), h, totalSize, t)
              case NoFit => block == 0 && st == old(st)
              case Got(b, s') => block == b && b > 0 && st == s' && b in st.blocks && size == st.blocks[b].size
    {
      hide Inv, ListOk, Spread, Undisturbed, Split, HeadsAgree;
      RowsAt(h);
      var index := ScanClasses(h, i);
      if index == CLASSES {
        return 0, 0;
      }
      ListAt(h, index);
      FirstOfClass(h, index);
      var toSplit := RmFromFreeLs(h, index, index * grains[h], t);
      block := toSplit - TAG;
      UnlinkKeepsTags(old(st), h, index, 0, t);
      var realSize := Rd(mem, toSplit - 8);
      if realSize >= totalSize + MIN_BLOCK {
        SplitNode(h, toSplit, totalSize, t);
        SplitSize(old(st), h, index, totalSize, t);
        size := totalSize;
      } else {
        size := realSize;
      }
    }

    // ---------- Objects ----------

    /** allocateObject of a heap that refills itself from sbrk; sbrk would answer brk. The central
        heap, with its grain of a page, has nothing for an empty request; the single heap does. */
    method AllocateObject(h: nat, size: nat, brk: int, ghost t: nat) returns (ptr: int)
      requires Valid() && h < |grains| && (grains[h] == 8 || grains[h] == 4096)
      requires Fresh(st.regions, brk, TotalSize(grains[h], size))
      modifies this
      ensures Valid() && Takeable(old(st), h, TotalSize(grains[h], size), t)
      ensures ptr == 0 <==> grains[h] == 4096 && size == 0
      ensures ptr == 0 ==> st == old(st) && mem == old(mem)
      ensures var r := Acquire(old(st), h, TotalSize(grains[h], size), brk, t);
              ptr != 0 ==>
                && ptr == r.block + TAG && r.block in r.state.blocks && r.state.blocks[r.block].size >= 0
                && st == Deliver(r.state, r.block)
    {
      hide Inv, Takeable, Take, Undisturbed, TookBlock, HeadsAgree, Fresh, SetTags;
      RowsAt(h);
      TotalSizeFacts(grains[h], size);
      var totalSize := TotalSize(grains[h], size);
      AcquireKeeps(st, h, totalSize, brk, t);
      if grains[h] == 4096 && size == 0 {
        return 0;
      }
      var obj, n := TakeFit(h, totalSize, t);
      if obj == 0 {
        heapSize := heapSize + totalSize;
        st := Grow(st, brk, totalSize, t);
        obj, n := brk, totalSize;
      }
      GeometryOf(st, obj);
      DeliverKeeps(st, obj, t);
      WriteTags(obj, n, OBJ_ALLOCATED);
      st := Deliver(st, obj);
      ptr := obj + TAG;
    }

    method ObjectSize(ptr: int) returns (n: int)
      requires Valid() && LiveAt(st, ptr - TAG)
      ensures n == st.blocks[ptr - TAG].size - 2 * TAG >= 16
    {
      GeometryOf(st, ptr - TAG);
      n := Rd(mem, ptr - TAG + 8) - 2 * TAG;
    }

    /** freeObject of a live object of at least the minimum size, which all are. */
    method FreeObject(h: nat, ptr: int, ghost t: nat)
      requires Valid() && h < |grains| && grains[h] > 0 && LiveAt(st, ptr - TAG)
      modifies this`mem, this`freels, this`st
      ensures Valid()
      ensures Linkable(Flagged(old(st), ptr - TAG, t), h, ptr - TAG)
      ensures st == Link(Flagged(old(st), ptr - TAG, t), h, ptr - TAG)
    {
      hide Inv, Undisturbed, HeadsAgree, Link, Tagged;
      var obj := ptr - TAG;
      RowsAt(h);
      GeometryOf(st, obj);
      LiveTags(st, obj);
      FlaggedKeeps(st, obj, t);
      ReleaseKeeps(st, h, obj, t);
      var totalSize := Rd(mem, obj + 8);
      mem := mem[obj := OBJ_FREE];
      mem := mem[obj + totalSize - TAG := OBJ_FREE];
      st := Flagged(st, obj, t);
      var ok := InsertFreeBlock(h, ptr, totalSize / grains[h], t);
    }

    // ---------- Consistency checks and statistics ----------

    /** checkFreeLsConsist, with the assertions of all its versions, on a list whose next_ links
        spell l: they all pass exactly when every node is consistent. */
    method CheckFreeLsConsist(h: nat, index: int, ghost l: seq<int>) returns (ok: bool)
      requires h < |freels| && h < |grains| && grains[h] > 0 && 0 <= index < CLASSES <= |freels[h]|
      requires freels[h][index] == NodeAt(l, 0) && Chain(mem, l)
      ensures ok <==> forall k :: 0 <= k < |l| ==> NodeConsistent(mem, grains[h], index, l, k)
    {
      ChainPositive(mem, l);
      var classsize := index * grains[h];
      var iter, prenodesize := freels[h][index], 0;
      ghost var k := 0;
      ok := true;
      while iter != 0
        invariant 0 <= k <= |l| && iter == NodeAt(l, k)
        invariant index == LAST ==> prenodesize == if k == 0 then 0 else Rd(mem, l[k - 1] + 8)
        invariant ok <==> forall j :: 0 <= j < k ==> NodeConsistent(mem, grains[h], index, l, j)
        decreases |l| - k
      {
        var here := Rd(mem, iter - TAG) == OBJ_FREE;
        var totsize := Rd(mem, iter - TAG + 8);
        here := here && totsize % grains[h] == 0;
        if index <= CLASSES - 2 {
          here := here && totsize == classsize;
        } else {
          here := here && totsize >= classsize && totsize >= prenodesize;
          prenodesize := totsize;
        }
        var foot := iter + totsize - 2 * TAG;
        here := here && Rd(mem, foot) == OBJ_FREE && Rd(mem, foot + 8) == totsize;
        assert NextOk(mem, l, k);
        assert here <==> NodeConsistent(mem, grains[h], index, l, k);
        ok := ok && here;
        iter := Rd(mem, iter);
        k := k + 1;
      }
    }

    /** By the invariant, position k of list i is consistent if it has whole grains. */
    lemma FreeNode(h: nat, i: int, k: int)
      requires Valid() && h < |grains| && 0 <= i < CLASSES && grains[h] > 0
      requires |st.heaps[h].lists| == CLASSES && 0 <= k < |st.heaps[h].lists[i]|
      ensures var l := st.heaps[h].lists[i];
              && LinkOk(mem, l, k) && l[k] in st.blocks
              && (NodeConsistent(mem, grains[h], i, l, k) <==> st.blocks[l[k]].size % grains[h] == 0)
    {
      RowsAt(h);
      ListAt(h, i);
      var l := st.heaps[h].lists[i];
      GeometryOf(st, l[k]);
      WholeGrains(grains[h], st.blocks[l[k]].size);
      assert Tagged(mem, l[k], st.blocks[l[k]].size, OBJ_FREE);
    }

    /** checkDualLnkList passes exactly when every prev_ points back to the node before. */
    method CheckDualLnkList(h: nat, index: int, ghost l: seq<int>) returns (ok: bool)
      requires h < |freels| && 0 <= index < |freels[h]|
      requires freels[h][index] == NodeAt(l, 0) && Chain(mem, l)
      ensures ok <==> forall k :: 0 <= k < |l| ==> PrevOk(mem, l, k)
    {
      ChainPositive(mem, l);
      var iter, preiter: nat := freels[h][index], 0;
      ghost var k := 0;
      ok := true;
      while iter != 0
        invariant 0 <= k <= |l| && iter == NodeAt(l, k) && preiter == NodeAt(l, k - 1)
        invariant ok <==> forall j :: 0 <= j < k ==> PrevOk(mem, l, j)
        decreases |l| - k
      {
        assert NextOk(mem, l, k);
        assert PrevOk(mem, l, k) <==> Rd(mem, iter + 8) == preiter;
        ok := ok && Rd(mem, iter + 8) == preiter;
        preiter := iter;
        iter := Rd(mem, iter);
        k := k + 1;
      }
    }

    /** Between operations checkALL passes exactly when every free block of the heap has whole
        grains. With 8-byte grains it can never fail. */
    method CheckALL(h: nat) returns (ok: bool)
      requires Valid() && h < |grains| && grains[h] > 0
      ensures ok <==> forall b :: b in st.blocks && st.blocks[b].owner == Free(h) ==> st.blocks[b].size % grains[h] == 0
      ensures grains[h] == 8 ==> ok
    {
      hide Inv, HeadsAgree, NodeConsistent, PrevOk, Chain, WholeList;
      ok := true;
      RowsAt(h);
      for i := 0 to CLASSES
        invariant ok <==> forall j :: 0 <= j < i ==> WholeList(st, h, grains[h], j)
      {
        ListChecks(h, i);
        var a := CheckFreeLsConsist(h, i, st.heaps[h].lists[i]);
        var b := CheckDualLnkList(h, i, st.heaps[h].lists[i]);
        ok := ok && a && b;
      }
      WholeLists(st, h);
      EightBytes(st);
    }

    lemma ListChecks(h: nat, i: int)
      requires Valid() && h < |grains| && 0 <= i < CLASSES && grains[h] > 0
      ensures |st.heaps[h].lists| == CLASSES
      ensures var l := st.heaps[h].lists[i];
              && freels[h][i] == NodeAt(l, 0) && Chain(mem, l)
              && (WholeList(st, h, grains[h], i) <==> forall k :: 0 <= k < |l| ==> NodeConsistent(mem, grains[h], i, l, k))
              && forall k :: 0 <= k < |l| ==> PrevOk(mem, l, k)
    {
      hide Inv, ListOk, HeadsAgree, NodeConsistent;
      RowsAt(h);
      ListAt(h, i);
      var l := st.heaps[h].lists[i];
      forall k | 0 <= k < |l|
        ensures l[k] in st.blocks && (NodeConsistent(mem, grains[h], i, l, k) <==> st.blocks[l[k]].size % grains[h] == 0)
        ensures PrevOk(mem, l, k) && NextOk(mem, l, k)
      {
        FreeNode(h, i, k);
      }
    }

    /** The walk along list i of heap h, adding sizes. */
    method SumList(h: nat, i: int) returns (sum: int)
      requires Valid() && h < |grains| && 0 <= i < CLASSES
      ensures |st.heaps[h].lists| == CLASSES
      ensures var ks := set x | x in st.heaps[h].lists[i];
              ks <= st.blocks.Keys && sum == SizeSum(st.blocks, ks)
    {
      hide Inv, SizeSum, HeadsAgree, Spread;
      RowsAt(h);
      ListAt(h, i);
      ghost var l := st.heaps[h].lists[i];
      var iter := freels[h][i];
      sum := 0;
      ghost var k := 0;
      ghost var done: set<int> := {};
      EmptySum(st.blocks);
      while iter != 0
        invariant 0 <= k <= |l| && iter == NodeAt(l, k)
        invariant done == set x | x in l[..k]
        invariant done <= st.blocks.Keys && sum == SizeSum(st.blocks, done)
        decreases |l| - k
      {
        LinkAt(h, i, k);
        assert l[k] !in l[..k];
        SizeSumRemove(st.blocks, done + {l[k]}, l[k]);
        assert done + {l[k]} - {l[k]} == done;
        assert l[..k + 1] == l[..k] + [l[k]];
        done := done + {l[k]};
        sum := sum + Rd(mem, iter - TAG + 8);
        iter := Rd(mem, iter);
        k := k + 1;
      }
      assert l[..k] == l;
    }

    /** sumFreeListSize adds up exactly the free blocks of heap h. */
    method SumFreeListSize(h: nat) returns (sum: int)
      requires Valid() && h < |grains|
      ensures sum == SizeSum(st.blocks, FreeOf(st.blocks, h))
    {
      hide Inv, SizeSum, HeadsAgree, Spread;
      RowsAt(h);
      ListAt(h, 0);
      sum := 0;
      EmptySum(st.blocks);
      FreeBelowEnds(st, h);
      for i := 0 to CLASSES
        invariant sum == SizeSum(st.blocks, FreeBelow(st.blocks, h, grains[h], i))
      {
        var n := SumList(h, i);
        ClassSummed(h, i);
        SizeSumUnion(st.blocks, FreeBelow(st.blocks, h, grains[h], i), set x | x in st.heaps[h].lists[i]);
        sum := sum + n;
      }
    }

    lemma ClassSummed(h: nat, i: int)
      requires Valid() && h < |grains| && 0 <= i < CLASSES && grains[h] > 0
      ensures |st.heaps[h].lists| == CLASSES
      ensures var ks, js := FreeBelow(st.blocks, h, grains[h], i), set x | x in st.heaps[h].lists[i];
              ks !! js && ks + js == FreeBelow(st.blocks, h, grains[h], i + 1)
    {
      RowsAt(h);
      ListAt(h, i);
      ListMembers(mem, st.blocks, h, st.heaps[h], i);
      HeapFacts(st, h);
      var ks, js := FreeBelow(st.blocks, h, grains[h], i), set x | x in st.heaps[h].lists[i];
      forall b ensures b in ks + js <==> b in FreeBelow(st.blocks, h, grains[h], i + 1) {
      }
    }

    /** What print() reports: _heapSize against the free lists of all heaps. The answer is
        yes exactly when no block is in use. */
    method HeapSizeEqualsFree() returns (yes: bool)
      requires Valid()
      ensures yes <==> NotFree(st.blocks) == {}
    {
      var sum := 0;
      for h := 0 to |grains|
        invariant sum == FreeBytes(st.blocks, h)
      {
        var n := SumFreeListSize(h);
        sum := sum + n;
      }
      Conservation(st);
      yes := heapSize == sum;
    }

    /** Asking class i for i grains takes the first node, in the last class too. */
    lemma FirstOfClass(h: nat, i: int)
      requires Valid() && h < |grains| && 0 <= i < CLASSES && grains[h] > 0
      ensures PickPos(h, i, i * grains[h]) == 0
    {
      ListAt(h, i);
      var l, g := st.heaps[h].lists[i], grains[h];
      if i == LAST && |l| > 0 {
        assert ClassOf(g, st.blocks[l[0]].size) == LAST;
        WholeGrains(g, st.blocks[l[0]].size);
      }
    }

    lemma SizeWord(b: int, t: nat)
      requires Valid() && b in st.blocks && st.blocks[b].owner == Held(t)
      requires Tagged(mem, b, st.blocks[b].size, OBJ_FREE)
      ensures Rd(mem, b + 8) == st.blocks[b].size
    {
    }
  }
}
