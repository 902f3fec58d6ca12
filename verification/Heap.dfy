/** The kernel heap of src/kernel/memory.c: first fit over a linked list of block headers, with splitting and
    coalescing. */
module Heap {

  const HEAP_START: nat := 0x10_0000
  const HEAP_SIZE: nat := 0x60_0000
  const HEADER: nat := 16                        // sizeof(BlockHeader) with 64-bit pointers

  // ---------------------------------------------------------------------------
  // The block list as a value
  // ---------------------------------------------------------------------------

  datatype Block = Block(size: nat, free: bool)

  /** Bytes taken by blocks and their headers. */
  function Total(bs: seq<Block>): nat {
    if |bs| == 0 then 0 else HEADER + bs[0].size + Total(bs[1..])
  }

  /** The address of the header of block i. */
  function At(bs: seq<Block>, i: nat): nat
    requires i <= |bs|
  {
    HEAP_START + Total(bs[..i])
  }

  predicate NoAdjacent(bs: seq<Block>) {
    forall i :: 0 <= i < |bs| - 1 ==> !(bs[i].free && bs[i + 1].free)
  }

  /** The blocks tile the heap exactly, no two neighbours are free, and sizes are multiples of four. */
  predicate Inv(bs: seq<Block>) {
    |bs| > 0 && Total(bs) == HEAP_SIZE && NoAdjacent(bs) && forall i :: 0 <= i < |bs| ==> bs[i].size % 4 == 0
  }

  function Initial(): seq<Block> { [Block(HEAP_SIZE - HEADER, true)] }

  /** `(size + 3u) & ~3u` on 32 bits. */
  function Round(n: nat): nat { ((n + 3) % 0x1_0000_0000) / 4 * 4 }

  /** The first free block of at least n bytes; |bs| for none. */
  function Fit(bs: seq<Block>, n: nat): (i: nat)
    ensures i <= |bs| && (i < |bs| ==> bs[i].free && bs[i].size >= n)
    ensures forall j :: 0 <= j < i ==> !(bs[j].free && bs[j].size >= n)
  {
    if |bs| == 0 then 0
    else if bs[0].free && bs[0].size >= n then 0
    else
      var i := Fit(bs[1..], n);
      assert forall j :: 1 <= j < i + 1 ==> bs[j] == bs[1..][j - 1];
      i + 1
  }

  /** Block i claimed for n bytes, split when at least four bytes remain behind a new header. */
  function Claimed(bs: seq<Block>, i: nat, n: nat): seq<Block>
    requires i < |bs| && bs[i].size >= n
  {
    Splice(bs, i, Pieces(bs[i], n))
  }

  /** Neighbouring free blocks merged, from the left. */
  function Merge(bs: seq<Block>): seq<Block>
    decreases |bs|
  {
    if |bs| < 2 then bs
    else if bs[0].free && bs[1].free then Merge([Block(bs[0].size + HEADER + bs[1].size, true)] + bs[2..])
    else [bs[0]] + Merge(bs[1..])
  }

  function Freed(bs: seq<Block>, i: nat): seq<Block>
    requires i < |bs|
  {
    Merge(Splice(bs, i, [Block(bs[i].size, true)]))
  }

  // ---------------------------------------------------------------------------
  // Sums and addresses
  // ---------------------------------------------------------------------------

  lemma {:induction false} TotalConcat(a: seq<Block>, b: seq<Block>)
    ensures Total(a + b) == Total(a) + Total(b)
  {
    if |a| == 0 {
      assert a + b == b;
    } else {
      assert (a + b)[1..] == a[1..] + b;
      TotalConcat(a[1..], b);
    }
  }

  lemma TotalOne(b: Block)
    ensures Total([b]) == HEADER + b.size
  {}

  /** The next header lies just behind the block. */
  lemma AtNext(bs: seq<Block>, i: nat)
    requires i < |bs|
    ensures At(bs, i + 1) == At(bs, i) + HEADER + bs[i].size
  {
    assert bs[..i + 1] == bs[..i] + [bs[i]];
    TotalConcat(bs[..i], [bs[i]]);
    TotalOne(bs[i]);
  }

  lemma {:induction false} AtMonotone(bs: seq<Block>, i: nat, j: nat)
    requires i < j <= |bs|
    ensures At(bs, i) + HEADER + bs[i].size <= At(bs, j)
  {
    AtNext(bs, j - 1);
    if i < j - 1 { AtMonotone(bs, i, j - 1); }
  }

  /** Distinct blocks, headers included, occupy disjoint intervals inside the heap. */
  lemma Disjoint(bs: seq<Block>, i: nat, j: nat)
    requires Inv(bs) && i < j < |bs|
    ensures HEAP_START <= At(bs, i) && At(bs, i) + HEADER + bs[i].size <= At(bs, j)
    ensures At(bs, j) + HEADER + bs[j].size <= HEAP_START + HEAP_SIZE
  {
    AtMonotone(bs, i, j);
    AtMonotone(bs, j, |bs|);
    assert bs[..|bs|] == bs;
  }

  lemma TotalThree(pre: seq<Block>, mid: seq<Block>, post: seq<Block>)
    ensures Total(pre + mid + post) == Total(pre) + Total(mid) + Total(post)
  {
    TotalConcat(pre + mid, post);
    TotalConcat(pre, mid);
  }

  /** The list with block i replaced by a stretch of blocks. */
  function Splice(bs: seq<Block>, i: nat, mid: seq<Block>): seq<Block>
    requires i < |bs|
  {
    bs[..i] + mid + bs[i + 1..]
  }

  lemma SpliceSelf(bs: seq<Block>, i: nat)
    requires i < |bs|
    ensures bs == Splice(bs, i, [bs[i]])
  {}

  lemma SpliceTotal(bs: seq<Block>, i: nat, mid: seq<Block>)
    requires i < |bs| && Total(mid) == HEADER + bs[i].size
    ensures Total(Splice(bs, i, mid)) == Total(bs)
  {
    SpliceSelf(bs, i);
    TotalThree(bs[..i], [bs[i]], bs[i + 1..]);
    TotalThree(bs[..i], mid, bs[i + 1..]);
    TotalOne(bs[i]);
  }

  lemma TotalPair(x: Block, y: Block)
    ensures Total([x, y]) == 2 * HEADER + x.size + y.size
  {
    assert [x, y] == [x] + [y];
    TotalConcat([x], [y]);
  }

  // ---------------------------------------------------------------------------
  // malloc
  // ---------------------------------------------------------------------------

  /** The blocks that take the place of a claimed block. */
  function Pieces(b: Block, n: nat): seq<Block>
    requires b.size >= n
  {
    if b.size >= n + HEADER + 4 then [Block(n, false), Block(b.size - n - HEADER, true)] else [Block(b.size, false)]
  }

  lemma PiecesTotal(b: Block, n: nat)
    requires b.size >= n
    ensures Total(Pieces(b, n)) == HEADER + b.size
  {
    if b.size >= n + HEADER + 4 { TotalPair(Block(n, false), Block(b.size - n - HEADER, true)); }
  }

  lemma ClaimedInv(bs: seq<Block>, i: nat, n: nat)
    requires Inv(bs) && i < |bs| && bs[i].free && bs[i].size >= n && n % 4 == 0
    ensures Inv(Claimed(bs, i, n))
  {
    PiecesTotal(bs[i], n);
    SpliceTotal(bs, i, Pieces(bs[i], n));
    if bs[i].size >= n + HEADER + 4 {
      SplitApart(bs, i, Block(n, false), Block(bs[i].size - n - HEADER, true), Claimed(bs, i, n));
    } else {
      assert Claimed(bs, i, n) == bs[i := Block(bs[i].size, false)];
    }
  }

  lemma SplitApart(bs: seq<Block>, i: nat, x: Block, y: Block, r: seq<Block>)
    requires NoAdjacent(bs) && i < |bs| && bs[i].free && !x.free && y.free && r == Splice(bs, i, [x, y])
    requires x.size % 4 == 0 && y.size % 4 == 0 && forall j :: 0 <= j < |bs| ==> bs[j].size % 4 == 0
    ensures NoAdjacent(r) && forall j :: 0 <= j < |r| ==> r[j].size % 4 == 0
  {
    assert forall j :: 0 <= j < |r| ==> r[j] == if j < i then bs[j] else if j == i then x else if j == i + 1 then y
      else bs[j - 1];
  }

  // ---------------------------------------------------------------------------
  // free
  // ---------------------------------------------------------------------------

  /** Where no two neighbours are free there is nothing to merge. */
  lemma {:induction false} MergeDone(bs: seq<Block>)
    requires NoAdjacent(bs)
    ensures Merge(bs) == bs
  {
    if |bs| >= 2 {
      assert forall j :: 0 <= j < |bs[1..]| ==> bs[1..][j] == bs[j + 1];
      MergeDone(bs[1..]);
    }
  }

  predicate Fours(bs: seq<Block>) { forall i :: 0 <= i < |bs| ==> bs[i].size % 4 == 0 }

  /** A block in front of a merged list that does not begin with a free neighbour. */
  lemma ConsMerged(b: Block, m: seq<Block>)
    requires NoAdjacent(m) && Fours(m) && b.size % 4 == 0 && (|m| > 0 ==> !(b.free && m[0].free))
    ensures NoAdjacent([b] + m) && Fours([b] + m) && Total([b] + m) == HEADER + b.size + Total(m)
  {
    var r := [b] + m;
    assert r[1..] == m;
    assert forall i :: 0 <= i < |r| ==> r[i] == if i == 0 then b else m[i - 1];
  }

  /** Two neighbours as one block. */
  lemma JoinTotal(bs: seq<Block>, m: seq<Block>)
    requires |bs| >= 2 && m == [Block(bs[0].size + HEADER + bs[1].size, true)] + bs[2..]
    ensures Total(m) == Total(bs)
  {
    assert m[1..] == bs[2..] == bs[1..][1..];
  }

  /** Merging keeps the tiling, and leaves no free neighbours. */
  lemma {:induction false} MergeOk(bs: seq<Block>)
    requires Fours(bs)
    ensures Total(Merge(bs)) == Total(bs) && NoAdjacent(Merge(bs)) && Fours(Merge(bs))
      && (|Merge(bs)| > 0 <==> |bs| > 0)
    ensures |bs| > 0 ==> Merge(bs)[0].free == bs[0].free
    decreases |bs|
  {
    if |bs| >= 2 {
      if bs[0].free && bs[1].free {
        var m := [Block(bs[0].size + HEADER + bs[1].size, true)] + bs[2..];
        JoinTotal(bs, m);
        MergeOk(m);
      } else {
        MergeOk(bs[1..]);
        ConsMerged(bs[0], Merge(bs[1..]));
      }
    }
  }

  lemma FreedInv(bs: seq<Block>, i: nat)
    requires Inv(bs) && i < |bs|
    ensures Inv(Freed(bs, i))
  {
    var c := Splice(bs, i, [Block(bs[i].size, true)]);
    SpliceTotal(bs, i, [Block(bs[i].size, true)]);
    assert forall j :: 0 <= j < |c| ==> c[j].size == bs[j].size;
    MergeOk(c);
  }

  lemma {:induction false} MergePrefix(pre: seq<Block>, bs: seq<Block>)
    requires NoAdjacent(pre) && |pre| > 0 && (|bs| > 0 ==> !(pre[|pre| - 1].free && bs[0].free))
    ensures Merge(pre + bs) == pre + Merge(bs)
  {
    if |pre| == 1 {
      if |bs| > 0 { assert (pre + bs)[1..] == bs; } else { assert pre + bs == pre; }
    } else {
      assert (pre + bs)[1..] == pre[1..] + bs;
      assert forall j :: 0 <= j < |pre[1..]| ==> pre[1..][j] == pre[j + 1];
      MergePrefix(pre[1..], bs);
      assert [pre[0]] + (pre[1..] + Merge(bs)) == pre + Merge(bs);
    }
  }

  /** `free` right after `malloc` restores the exact block list. */
  lemma FreeUndoesMalloc(bs: seq<Block>, i: nat, n: nat)
    requires NoAdjacent(bs) && i < |bs| && bs[i].free && bs[i].size >= n
    ensures Freed(Claimed(bs, i, n), i) == bs
  {
    var r := Claimed(bs, i, n);
    var x := Block(r[i].size, true);
    if bs[i].size < n + HEADER + 4 {
      assert Splice(r, i, [x]) == bs;
      MergeDone(bs);
    } else {
      var y := Block(bs[i].size - n - HEADER, true);
      var pre, tail := bs[..i], [x, y] + bs[i + 1..];
      assert Splice(r, i, [x]) == pre + tail;
      MergeHead(bs, i, x, y);
      if i > 0 { MergePrefix(pre, tail); } else { assert pre + tail == tail; }
      assert pre + bs[i..] == bs;
    }
  }

  /** The two halves of a split block merge back. */
  lemma MergeHead(bs: seq<Block>, i: nat, x: Block, y: Block)
    requires NoAdjacent(bs) && i < |bs| && x.free && y.free && bs[i] == Block(x.size + HEADER + y.size, true)
    ensures Merge([x, y] + bs[i + 1..]) == bs[i..]
  {
    var tail := [x, y] + bs[i + 1..];
    assert tail[2..] == bs[i + 1..] && [bs[i]] + tail[2..] == bs[i..];
    assert forall j :: 0 <= j < |bs[i..]| ==> bs[i..][j] == bs[j + i];
    MergeDone(bs[i..]);
  }

  // ---------------------------------------------------------------------------
  // What callers see: the set of live allocations
  // ---------------------------------------------------------------------------

  /** A live allocation: payload address and size. */
  datatype Alloc = Alloc(ptr: nat, size: nat)

  /** The live blocks of `bs` when its first header is at address `o`. */
  function LiveFrom(bs: seq<Block>, o: nat): set<Alloc> {
    if |bs| == 0 then {}
    else (if bs[0].free then {} else {Alloc(o + HEADER, bs[0].size)}) + LiveFrom(bs[1..], o + HEADER + bs[0].size)
  }

  function LiveSet(bs: seq<Block>): set<Alloc> { LiveFrom(bs, HEAP_START) }

  lemma {:induction false} LiveConcat(a: seq<Block>, b: seq<Block>, o: nat)
    ensures LiveFrom(a + b, o) == LiveFrom(a, o) + LiveFrom(b, o + Total(a))
  {
    if |a| == 0 {
      assert a + b == b;
    } else {
      var o' := o + HEADER + a[0].size;
      var x := if a[0].free then {} else {Alloc(o + HEADER, a[0].size)};
      var y, z := LiveFrom(a[1..], o'), LiveFrom(b, o + Total(a));
      assert LiveFrom(a + b, o) == x + (y + z) by {
        assert (a + b)[1..] == a[1..] + b;
        LiveConcat(a[1..], b, o');
      }
      Unions(x, y, z);
    }
  }

  lemma Unions(x: set<Alloc>, y: set<Alloc>, z: set<Alloc>)
    ensures x + (y + z) == (x + y) + z
  {}

  /** Live blocks lie inside their stretch. */
  lemma {:induction false} LiveRange(bs: seq<Block>, o: nat, a: Alloc)
    requires a in LiveFrom(bs, o)
    ensures o + HEADER <= a.ptr && a.ptr + a.size <= o + Total(bs)
  {
    if !(!bs[0].free && a == Alloc(o + HEADER, bs[0].size)) { LiveRange(bs[1..], o + HEADER + bs[0].size, a); }
  }

  /** Merging frees nothing and moves nothing that is live. */
  lemma {:induction false} MergeLive(bs: seq<Block>, o: nat)
    ensures LiveFrom(Merge(bs), o) == LiveFrom(bs, o)
    decreases |bs|
  {
    if |bs| >= 2 {
      if bs[0].free && bs[1].free {
        var m := [Block(bs[0].size + HEADER + bs[1].size, true)] + bs[2..];
        MergeLive(m, o);
        assert m[1..] == bs[2..] == bs[1..][1..];
      } else {
        MergeLive(bs[1..], o + HEADER + bs[0].size);
        assert ([bs[0]] + Merge(bs[1..]))[1..] == Merge(bs[1..]);
      }
    }
  }

  lemma LiveThree(pre: seq<Block>, mid: seq<Block>, post: seq<Block>, o: nat)
    ensures LiveFrom(pre + mid + post, o) == LiveFrom(pre, o) + LiveFrom(mid, o + Total(pre))
      + LiveFrom(post, o + Total(pre) + Total(mid))
  {
    LiveConcat(pre + mid, post, o);
    LiveConcat(pre, mid, o);
    TotalConcat(pre, mid);
  }

  lemma LiveOne(b: Block, o: nat)
    ensures LiveFrom([b], o) == if b.free then {} else {Alloc(o + HEADER, b.size)}
  {}

  lemma LivePair(x: Block, y: Block, o: nat)
    requires !x.free && y.free
    ensures LiveFrom([x, y], o) == {Alloc(o + HEADER, x.size)}
  {
    assert [x, y] == [x] + [y];
    LiveConcat([x], [y], o);
  }

  lemma PiecesLive(b: Block, n: nat, o: nat)
    requires b.size >= n
    ensures LiveFrom(Pieces(b, n), o) == {Alloc(o + HEADER, Pieces(b, n)[0].size)}
  {
    if b.size >= n + HEADER + 4 {
      LivePair(Block(n, false), Block(b.size - n - HEADER, true), o);
    } else {
      LiveOne(Block(b.size, false), o);
    }
  }

  /** The allocations outside block i. */
  function Others(bs: seq<Block>, i: nat): set<Alloc>
    requires i < |bs|
  {
    LiveFrom(bs[..i], HEAP_START) + LiveFrom(bs[i + 1..], At(bs, i) + HEADER + bs[i].size)
  }

  lemma LiveAround(pre: seq<Block>, mid: seq<Block>, post: seq<Block>, o: nat, a: nat, e: nat)
    requires a == o + Total(pre) && e == a + Total(mid)
    ensures LiveFrom(pre + mid + post, o) == (LiveFrom(pre, o) + LiveFrom(post, e)) + LiveFrom(mid, a)
  {
    LiveThree(pre, mid, post, o);
    Swapped(LiveFrom(pre + mid + post, o), LiveFrom(pre, o), LiveFrom(mid, a), LiveFrom(post, e));
  }

  lemma Swapped(t: set<Alloc>, x: set<Alloc>, y: set<Alloc>, z: set<Alloc>)
    requires t == x + y + z
    ensures t == (x + z) + y
  {}

  lemma SpliceLive(bs: seq<Block>, i: nat, mid: seq<Block>)
    requires i < |bs| && Total(mid) == HEADER + bs[i].size
    ensures LiveSet(Splice(bs, i, mid)) == Others(bs, i) + LiveFrom(mid, At(bs, i))
  {
    LiveAround(bs[..i], mid, bs[i + 1..], HEAP_START, At(bs, i), At(bs, i) + HEADER + bs[i].size);
  }

  lemma NotOthers(bs: seq<Block>, i: nat, a: Alloc)
    requires i < |bs| && a.ptr == At(bs, i) + HEADER
    ensures a !in Others(bs, i)
  {
    var o := At(bs, i) + HEADER + bs[i].size;
    if a in LiveFrom(bs[..i], HEAP_START) { LiveRange(bs[..i], HEAP_START, a); }
    if a in LiveFrom(bs[i + 1..], o) { LiveRange(bs[i + 1..], o, a); }
  }

  lemma LiveSplit(bs: seq<Block>, i: nat)
    requires i < |bs|
    ensures LiveSet(bs) == Others(bs, i) + if bs[i].free then {} else {Alloc(At(bs, i) + HEADER, bs[i].size)}
  {
    SpliceSelf(bs, i);
    TotalOne(bs[i]);
    SpliceLive(bs, i, [bs[i]]);
    LiveOne(bs[i], At(bs, i));
  }

  /** `malloc` adds one allocation and changes no other. */
  lemma ClaimedLive(bs: seq<Block>, i: nat, n: nat)
    requires i < |bs| && bs[i].free && bs[i].size >= n
    ensures var a := Alloc(At(bs, i) + HEADER, Claimed(bs, i, n)[i].size);
            LiveSet(Claimed(bs, i, n)) == LiveSet(bs) + {a} && a !in LiveSet(bs)
  {
    var mid := Pieces(bs[i], n);
    LiveSplit(bs, i);
    PiecesTotal(bs[i], n);
    SpliceLive(bs, i, mid);
    PiecesLive(bs[i], n, At(bs, i));
    assert Claimed(bs, i, n)[i] == mid[0];
    NotOthers(bs, i, Alloc(At(bs, i) + HEADER, mid[0].size));
  }

  /** `free` removes exactly its own allocation. */
  lemma FreedLive(bs: seq<Block>, i: nat)
    requires i < |bs| && !bs[i].free
    ensures LiveSet(Freed(bs, i)) == LiveSet(bs) - {Alloc(At(bs, i) + HEADER, bs[i].size)}
  {
    var c := Block(bs[i].size, true);
    LiveSplit(bs, i);
    TotalOne(c);
    SpliceLive(bs, i, [c]);
    LiveOne(c, At(bs, i));
    MergeLive(Splice(bs, i, [c]), HEAP_START);
    NotOthers(bs, i, Alloc(At(bs, i) + HEADER, bs[i].size));
  }

  /** A live allocation is a used block. */
  lemma {:induction false} LiveIndex(bs: seq<Block>, o: nat, a: Alloc) returns (i: nat)
    requires a in LiveFrom(bs, o)
    ensures i < |bs| && !bs[i].free && a == Alloc(o + Total(bs[..i]) + HEADER, bs[i].size)
  {
    if !bs[0].free && a == Alloc(o + HEADER, bs[0].size) {
      i := 0;
    } else {
      var j := LiveIndex(bs[1..], o + HEADER + bs[0].size, a);
      i := j + 1;
      assert bs[..i][1..] == bs[1..][..j];
    }
  }

  /** Live allocations are pairwise disjoint, with room for a header between them. */
  lemma LiveDisjoint(bs: seq<Block>, a: Alloc, b: Alloc)
    requires Inv(bs) && a in LiveSet(bs) && b in LiveSet(bs) && a != b
    ensures a.ptr + a.size + HEADER <= b.ptr || b.ptr + b.size + HEADER <= a.ptr
  {
    var i := LiveIndex(bs, HEAP_START, a);
    var j := LiveIndex(bs, HEAP_START, b);
    if i < j { Disjoint(bs, i, j); } else if j < i { Disjoint(bs, j, i); }
  }

  lemma FreeAlone(bs: seq<Block>, lo: nat, hi: nat)
    requires NoAdjacent(bs) && lo < hi <= |bs| && forall i :: lo <= i < hi ==> bs[i].free
    ensures hi == lo + 1
  {
    var next := lo + 1;
    assert bs[lo].free && (next < |bs| ==> !bs[lo + 1].free);
  }

  /** With nothing live the heap is one free block again, whatever happened before. */
  lemma NothingLost(bs: seq<Block>)
    requires Inv(bs) && LiveSet(bs) == {}
    ensures bs == Initial()
  {
    AllFree(bs, HEAP_START);
    FreeAlone(bs, 0, |bs|);
    TotalOne(bs[0]);
    assert bs == [bs[0]];
  }

  lemma {:induction false} AllFree(bs: seq<Block>, o: nat)
    requires LiveFrom(bs, o) == {}
    ensures forall i :: 0 <= i < |bs| ==> bs[i].free
  {
    if |bs| > 0 {
      var rest := LiveFrom(bs[1..], o + HEADER + bs[0].size);
      assert rest <= LiveFrom(bs, o);
      var a := Alloc(o + HEADER, bs[0].size);
      assert bs[0].free || a in LiveFrom(bs, o);
      AllFree(bs[1..], o + HEADER + bs[0].size);
      assert forall i :: 1 <= i < |bs| ==> bs[i] == bs[1..][i - 1];
    }
  }

  /** Any stretch of neighbouring free blocks is one block: failing means no free run is large enough. */
  lemma FreeRun(bs: seq<Block>, lo: nat, hi: nat, n: nat)
    requires Inv(bs) && lo < hi <= |bs| && (forall i :: lo <= i < hi ==> bs[i].free)
    requires Fit(bs, n) == |bs|
    ensures hi == lo + 1 && Total(bs[lo..hi]) < HEADER + n
  {
    FreeAlone(bs, lo, hi);
    assert bs[lo..hi] == [bs[lo]];
    TotalOne(bs[lo]);
  }

  /** Rounding wraps to zero for the last three sizes. */
  lemma RoundEnough(n: nat)
    requires n < 0x1_0000_0000
    ensures Round(n) % 4 == 0 && (Round(n) >= n <==> n <= 0xFFFF_FFFC)
    ensures n > 0xFFFF_FFFC ==> Round(n) == 0
  {}

  // ---------------------------------------------------------------------------
  // Whole runs
  // ---------------------------------------------------------------------------

  /** A request for n bytes, or the release of the used block with index i. */
  datatype Op = Request(n: nat) | Release(i: nat)

  function Apply(bs: seq<Block>, op: Op): seq<Block> {
    match op
    case Request(n) =>
      var i := Fit(bs, Round(n));
      if n == 0 || i == |bs| then bs else Claimed(bs, i, Round(n))
    case Release(i) => if i < |bs| && !bs[i].free then Freed(bs, i) else bs
  }

  /** The allocation a request for n bytes gets. */
  function Granted(bs: seq<Block>, n: nat): Alloc
    requires Fit(bs, Round(n)) < |bs|
  {
    var i := Fit(bs, Round(n));
    Alloc(At(bs, i) + HEADER, Claimed(bs, i, Round(n))[i].size)
  }

  lemma PieceEnough(b: Block, n: nat, k: nat)
    requires b.size >= k && n < 0x1_0000_0000 && k == Round(n)
    ensures Pieces(b, k)[0].size >= n <==> n <= 0xFFFF_FFFC
    ensures n > 0xFFFF_FFFC ==> Pieces(b, k)[0].size < HEADER + 4
  {
    RoundEnough(n);
  }

  lemma ClaimedPiece(bs: seq<Block>, i: nat, k: nat)
    requires i < |bs| && bs[i].size >= k
    ensures Claimed(bs, i, k)[i] == Pieces(bs[i], k)[0]
  {}

  /** A request that is served adds one allocation, and it is as large as asked for if and only if the size is not one
      of the last three. */
  lemma ServedEnough(bs: seq<Block>, n: nat, i: nat, k: nat)
    requires 0 < n < 0x1_0000_0000 && k == Round(n) && i == Fit(bs, k) < |bs|
    ensures LiveSet(Apply(bs, Request(n))) == LiveSet(bs) + {Granted(bs, n)} && Granted(bs, n) !in LiveSet(bs)
    ensures Granted(bs, n).size >= n <==> n <= 0xFFFF_FFFC
    ensures n > 0xFFFF_FFFC ==> Granted(bs, n).size < HEADER + 4
  {
    PieceEnough(bs[i], n, k);
    ClaimedPiece(bs, i, k);
    ClaimedLive(bs, i, k);
  }

  /** No request gets more than its size rounded up to four and 16 bytes; it gets exactly the rounded size if and only
      if the block has that size or leaves room for a header and four bytes. */
  lemma GrantedSize(bs: seq<Block>, n: nat, i: nat, k: nat)
    requires Inv(bs) && 0 < n <= 0xFFFF_FFFC && k == Round(n) && i == Fit(bs, k) < |bs|
    ensures n <= k < n + 4 && k <= Granted(bs, n).size <= k + 16
    ensures Granted(bs, n).size == k <==> bs[i].size == k || bs[i].size >= k + 20
    ensures Granted(bs, n).ptr % 4 == 0
  {
    RoundEnough(n);
    ClaimedPiece(bs, i, k);
    FoursTotal(bs, i);
  }

  /** Headers lie on multiples of four. */
  lemma {:induction false} FoursTotal(bs: seq<Block>, i: nat)
    requires i <= |bs| && Fours(bs)
    ensures At(bs, i) % 4 == 0
  {
    if i > 0 {
      FoursTotal(bs, i - 1);
      AtNext(bs, i - 1);
    } else {
      assert bs[..0] == [];
    }
  }

  /** The first of these sizes, on the fresh heap: a block of no bytes. */
  lemma EmptyBlock(bs: seq<Block>)
    requires bs == Initial()
    ensures Fit(bs, Round(0xFFFF_FFFD)) < |bs| && Granted(bs, 0xFFFF_FFFD) == Alloc(HEAP_START + HEADER, 0)
  {
    RoundEnough(0xFFFF_FFFD);
    assert Fit(bs, 0) == 0 && bs[..0] == [];
    assert Claimed(bs, 0, 0)[0] == Pieces(bs[0], 0)[0];
  }

  function Run(bs: seq<Block>, ops: seq<Op>): seq<Block>
    decreases |ops|
  {
    if |ops| == 0 then bs else Run(Apply(bs, ops[0]), ops[1..])
  }

  lemma {:induction false} RunInv(bs: seq<Block>, ops: seq<Op>)
    requires Inv(bs)
    ensures Inv(Run(bs, ops))
    decreases |ops|
  {
    if |ops| > 0 {
      match ops[0]
      case Request(n) =>
        var i := Fit(bs, Round(n));
        if n > 0 && i < |bs| { ClaimedInv(bs, i, Round(n)); }
        RunInv(Apply(bs, ops[0]), ops[1..]);
      case Release(i) =>
        if i < |bs| && !bs[i].free { FreedInv(bs, i); }
        RunInv(Apply(bs, ops[0]), ops[1..]);
    }
  }

  /** Over every run of requests and releases: exact tiling, disjoint live blocks, and nothing lost once all are
      released. */
  lemma EveryRun(ops: seq<Op>)
    ensures var bs := Run(Initial(), ops);
            Inv(bs) && (LiveSet(bs) == {} ==> bs == Initial())
            && forall a, b :: a in LiveSet(bs) && b in LiveSet(bs) && a != b ==>
                a.ptr + a.size + HEADER <= b.ptr || b.ptr + b.size + HEADER <= a.ptr
  {
    var bs := Run(Initial(), ops);
    TotalOne(Initial()[0]);
    RunInv(Initial(), ops);
    if LiveSet(bs) == {} { NothingLost(bs); }
    forall a, b | a in LiveSet(bs) && b in LiveSet(bs) && a != b
      ensures a.ptr + a.size + HEADER <= b.ptr || b.ptr + b.size + HEADER <= a.ptr
    {
      LiveDisjoint(bs, a, b);
    }
  }
}
