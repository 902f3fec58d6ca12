/** The heap's linked headers in memory, and `malloc` and `free` walking them. */
module HeapList {
  import opened Heap

  /** A block header as stored; `next` is 0 at the end. */
  datatype Header = Header(size: nat, free: bool, next: nat)

  type Memory = map<nat, Header>

  /** Where the last header before `rest` points: to `rest`, at address a, or beyond it if it is empty. */
  function LinkTo(rest: seq<Block>, a: nat, end: nat): nat { if |rest| == 0 then end else a }

  /** The headers from address a on hold the blocks; the last one points to `end`. */
  predicate Chain(h: Memory, a: nat, bs: seq<Block>, end: nat)
    decreases |bs|
  {
    |bs| == 0
    || (a in h && var n := a + HEADER + bs[0].size;
        h[a] == Header(bs[0].size, bs[0].free, LinkTo(bs[1..], n, end)) && Chain(h, n, bs[1..], end))
  }

  /** Memory holds the block list from the start of the heap. */
  predicate Represents(h: Memory, bs: seq<Block>) { Chain(h, HEAP_START, bs, 0) }

  // ---------------------------------------------------------------------------
  // Local updates of the chain
  // ---------------------------------------------------------------------------

  lemma {:induction false} ChainConcat(h: Memory, a: nat, x: seq<Block>, y: seq<Block>, end: nat)
    ensures Chain(h, a, x + y, end) <==> Chain(h, a, x, LinkTo(y, a + Total(x), end)) && Chain(h, a + Total(x), y, end)
    decreases |x|
  {
    if |x| == 0 {
      assert x + y == y;
    } else {
      assert (x + y)[1..] == x[1..] + y;
      ChainConcat(h, a + HEADER + x[0].size, x[1..], y, end);
    }
  }

  /** The two memories agree outside the n bytes from address a. */
  predicate SameOutside(h: Memory, h': Memory, a: nat, n: nat) {
    forall x :: x in h && (x < a || a + n <= x) ==> x in h' && h'[x] == h[x]
  }

  lemma {:induction false} ChainFrame(h: Memory, h': Memory, a: nat, bs: seq<Block>, end: nat, o: nat, n: nat)
    requires Chain(h, a, bs, end) && SameOutside(h, h', o, n) && (a + Total(bs) <= o || o + n <= a)
    ensures Chain(h', a, bs, end)
    decreases |bs|
  {
    if |bs| > 0 { ChainFrame(h, h', a + HEADER + bs[0].size, bs[1..], end, o, n); }
  }

  /** The three parts of a chain around a stretch. */
  predicate Parts(h: Memory, pre: seq<Block>, mid: seq<Block>, post: seq<Block>) {
    var a := HEAP_START + Total(pre);
    var e := a + Total(mid);
    Chain(h, HEAP_START, pre, a) && Chain(h, a, mid, LinkTo(post, e, 0)) && Chain(h, e, post, 0)
  }

  lemma ChainParts(h: Memory, pre: seq<Block>, mid: seq<Block>, post: seq<Block>)
    requires |mid| > 0
    ensures Represents(h, pre + mid + post) <==> Parts(h, pre, mid, post)
  {
    ChainConcat(h, HEAP_START, pre, mid + post, 0);
    ChainConcat(h, HEAP_START + Total(pre), mid, post, 0);
    assert pre + mid + post == pre + (mid + post);
  }

  /** Rewriting one stretch of the chain, by headers inside it, leaves the rest linked. */
  lemma Relink(h: Memory, h': Memory, pre: seq<Block>, mid: seq<Block>, mid': seq<Block>, post: seq<Block>)
    requires Total(mid) == Total(mid') && Parts(h, pre, mid, post)
    requires SameOutside(h, h', HEAP_START + Total(pre), Total(mid))
    requires Chain(h', HEAP_START + Total(pre), mid', LinkTo(post, HEAP_START + Total(pre) + Total(mid), 0))
    ensures Parts(h', pre, mid', post)
  {
    var a := HEAP_START + Total(pre);
    ChainFrame(h, h', HEAP_START, pre, a, a, Total(mid));
    ChainFrame(h, h', a + Total(mid), post, 0, a, Total(mid));
  }

  lemma Close(h: Memory, pre: seq<Block>, mid: seq<Block>, post: seq<Block>, bs: seq<Block>)
    requires |mid| > 0 && Parts(h, pre, mid, post) && bs == pre + mid + post
    ensures Represents(h, bs)
  {
    ChainParts(h, pre, mid, post);
  }

  lemma ChainOne(h: Memory, a: nat, b: Block, end: nat)
    ensures Chain(h, a, [b], end) <==> a in h && h[a] == Header(b.size, b.free, end)
  {}

  lemma ChainTwo(h: Memory, a: nat, x: Block, y: Block, end: nat)
    ensures Chain(h, a, [x, y], end) <==>
              var c := a + HEADER + x.size;
              a in h && h[a] == Header(x.size, x.free, c) && c in h && h[c] == Header(y.size, y.free, end)
  {
    assert [x, y] == [x] + [y];
    ChainConcat(h, a, [x], [y], end);
    TotalOne(x);
    ChainOne(h, a, x, LinkTo([y], a + HEADER + x.size, end));
    ChainOne(h, a + HEADER + x.size, y, end);
  }

  /** Block i of a chain, between what comes before and after. */
  lemma OpenAt(h: Memory, bs: seq<Block>, i: nat)
    requires i < |bs| && Represents(h, bs)
    ensures var a := At(bs, i);
            Parts(h, bs[..i], [bs[i]], bs[i + 1..]) && a in h
            && h[a] == Header(bs[i].size, bs[i].free, if i + 1 < |bs| then At(bs, i + 1) else 0)
  {
    SpliceSelf(bs, i);
    ChainParts(h, bs[..i], [bs[i]], bs[i + 1..]);
    TotalOne(bs[i]);
    AtNext(bs, i);
    ChainOne(h, At(bs, i), bs[i], LinkTo(bs[i + 1..], At(bs, i) + HEADER + bs[i].size, 0));
  }

  /** Blocks i and i + 1 of a chain. */
  lemma OpenTwo(h: Memory, bs: seq<Block>, i: nat)
    requires i + 1 < |bs| && Represents(h, bs)
    ensures Parts(h, bs[..i], [bs[i], bs[i + 1]], bs[i + 2..])
    ensures var e := At(bs, i) + 2 * HEADER + bs[i].size + bs[i + 1].size;
            At(bs, i + 1) in h && h[At(bs, i + 1)] == Header(bs[i + 1].size, bs[i + 1].free, LinkTo(bs[i + 2..], e, 0))
  {
    TwoTotal(bs, i);
    ChainParts(h, bs[..i], [bs[i], bs[i + 1]], bs[i + 2..]);
    AtNext(bs, i);
    ChainTwo(h, At(bs, i), bs[i], bs[i + 1],
        LinkTo(bs[i + 2..], At(bs, i) + 2 * HEADER + bs[i].size + bs[i + 1].size, 0));
  }

  lemma UpdateOutside(h: Memory, a: nat, x: Header, n: nat)
    requires n > 0
    ensures SameOutside(h, h[a := x], a, n)
  {}

  /** One block takes the place of a stretch: clearing or setting a flag, or merging two blocks. */
  lemma RelinkOne(h: Memory, pre: seq<Block>, mid: seq<Block>, b: Block, post: seq<Block>, a: nat, h': Memory)
    requires |mid| > 0 && Total(mid) == HEADER + b.size && Parts(h, pre, mid, post)
    requires a == HEAP_START + Total(pre) && h' == h[a := Header(b.size, b.free, LinkTo(post, a + Total(mid), 0))]
    ensures Parts(h', pre, [b], post)
  {
    var end := LinkTo(post, a + Total(mid), 0);
    var one := OneBlock(h, b, a, end);
    Relink(h, h', pre, mid, one, post);
  }

  lemma OneBlock(h: Memory, b: Block, a: nat, end: nat) returns (one: seq<Block>)
    ensures var h' := h[a := Header(b.size, b.free, end)];
            one == [b] && Total(one) == HEADER + b.size && Chain(h', a, one, end)
                && SameOutside(h, h', a, HEADER + b.size)
  {
    one := [b];
    TotalOne(b);
    var h' := h[a := Header(b.size, b.free, end)];
    ChainOne(h', a, b, end);
    UpdateOutside(h, a, Header(b.size, b.free, end), HEADER + b.size);
  }

  /** Two blocks take the place of one: a split. */
  lemma RelinkTwo(h: Memory, pre: seq<Block>, b: Block, x: Block, y: Block, post: seq<Block>)
    requires b.size == x.size + HEADER + y.size && Parts(h, pre, [b], post)
    ensures var a := HEAP_START + Total(pre); var c := a + HEADER + x.size;
            Parts(h[c := Header(y.size, y.free, LinkTo(post, a + HEADER + b.size, 0))][a :=
                Header(x.size, x.free, c)], pre, [x, y], post)
  {
    var a := HEAP_START + Total(pre);
    var c := a + HEADER + x.size;
    var h' := h[c := Header(y.size, y.free, LinkTo(post, a + HEADER + b.size, 0))][a := Header(x.size, x.free, c)];
    TotalOne(b);
    TotalPair(x, y);
    ChainTwo(h', a, x, y, LinkTo(post, a + HEADER + b.size, 0));
    Relink(h, h', pre, [b], [x, y], post);
  }

  // ---------------------------------------------------------------------------
  // The allocator
  // ---------------------------------------------------------------------------

  lemma Bounded(bs: seq<Block>, i: nat)
    requires Inv(bs) && i < |bs|
    ensures HEAP_START <= At(bs, i) && At(bs, i) + HEADER + bs[i].size <= HEAP_START + HEAP_SIZE
  {
    AtMonotone(bs, i, |bs|);
    assert bs[..|bs|] == bs;
  }

  /** Merging may go on from block i: everything before it is settled. */
  predicate Settled(cs: seq<Block>, i: nat, goal: seq<Block>) {
    i <= |cs| && cs[..i] + Merge(cs[i..]) == goal
  }

  lemma SettledMerge(cs: seq<Block>, i: nat, goal: seq<Block>)
    requires Settled(cs, i, goal) && i + 1 < |cs| && cs[i].free && cs[i + 1].free
    ensures Settled(cs[..i] + [Block(cs[i].size + HEADER + cs[i + 1].size, true)] + cs[i + 2..], i, goal)
  {
    var m := Block(cs[i].size + HEADER + cs[i + 1].size, true);
    var ds := cs[..i] + [m] + cs[i + 2..];
    assert cs[i..][2..] == cs[i + 2..] && ds[..i] == cs[..i] && ds[i..] == [m] + cs[i..][2..];
  }

  lemma SettledSkip(cs: seq<Block>, i: nat, goal: seq<Block>)
    requires Settled(cs, i, goal) && i < |cs| && !(cs[i].free && i + 1 < |cs| && cs[i + 1].free)
    ensures Settled(cs, i + 1, goal)
  {
    assert cs[i..][1..] == cs[i + 1..];
    assert Merge(cs[i..]) == [cs[i]] + Merge(cs[i + 1..]) by {
      if i + 1 < |cs| {
        assert cs[i..][1] == cs[i + 1];
      } else {
        assert cs[i..] == [cs[i]] && Merge(cs[i + 1..]) == [];
      }
    }
    assert cs[..i] + ([cs[i]] + Merge(cs[i + 1..])) == cs[..i + 1] + Merge(cs[i + 1..]);
  }

  lemma TwoTotal(cs: seq<Block>, i: nat)
    requires i + 1 < |cs|
    ensures cs == cs[..i] + [cs[i], cs[i + 1]] + cs[i + 2..]
      && Total([cs[i], cs[i + 1]]) == 2 * HEADER + cs[i].size + cs[i + 1].size
  {
    TotalPair(cs[i], cs[i + 1]);
  }

  /** One merge of the coalescing walk, in memory and in the list. */
  lemma MergeStep(h: Memory, bs: seq<Block>, i: nat, goal: seq<Block>)
    requires i + 1 < |bs| && Represents(h, bs) && bs[i].free && bs[i + 1].free && Settled(bs, i, goal)
    ensures var m := Block(bs[i].size + HEADER + bs[i + 1].size, true);
            var cs := bs[..i] + [m] + bs[i + 2..];
            At(bs, i + 1) in h && Represents(h[At(bs, i) := Header(m.size, true, h[At(bs, i + 1)].next)], cs)
            && Settled(cs, i, goal) && At(cs, i) == At(bs, i)
  {
    var m := Block(bs[i].size + HEADER + bs[i + 1].size, true);
    var cs := bs[..i] + [m] + bs[i + 2..];
    OpenTwo(h, bs, i);
    TwoTotal(bs, i);
    RelinkOne(h, bs[..i], [bs[i], bs[i + 1]], m, bs[i + 2..], At(bs, i),
        h[At(bs, i) := Header(m.size, true, h[At(bs, i + 1)].next)]);
    Close(h[At(bs, i) := Header(m.size, true, h[At(bs, i + 1)].next)], bs[..i], [m], bs[i + 2..], cs);
    SettledMerge(bs, i, goal);
    assert cs[..i] == bs[..i];
  }

  /** The coalescing walk stands at block i. */
  predicate Walking(h: Memory, bs: seq<Block>, i: nat, curr: nat, goal: seq<Block>) {
    Represents(h, bs) && Settled(bs, i, goal) && curr == if i < |bs| then At(bs, i) else 0
  }

  lemma StartWalk(h: Memory, bs: seq<Block>, goal: seq<Block>)
    requires Represents(h, bs) && |bs| > 0 && Merge(bs) == goal
    ensures Walking(h, bs, 0, HEAP_START, goal)
  {
    assert bs[0..] == bs && bs[..0] == [];
  }

  lemma EndWalk(h: Memory, bs: seq<Block>, i: nat, goal: seq<Block>)
    requires Walking(h, bs, i, 0, goal)
    ensures bs == goal
  {
    if i < |bs| { NonNull(bs, i); }
    assert bs[i..] == [] && bs[..i] == bs;
  }

  class Allocator {
    var memory: Memory
    var head: nat
    ghost var blocks: seq<Block>

    ghost predicate Valid()
      reads this
    {
      head == HEAP_START && Inv(blocks) && Represents(memory, blocks)
    }

    /** `mem_init`. */
    constructor ()
      ensures Valid() && blocks == Initial() && LiveSet(blocks) == {}
    {
      head := HEAP_START;
      memory := map[HEAP_START := Header(HEAP_SIZE - HEADER, true, 0)];
      blocks := Initial();
    }

    /** Splits if there is room, and marks the block used. */
    method Claim(curr: nat, size: nat, ghost i: nat)
      requires Valid() && i < |blocks| && curr == At(blocks, i) && blocks[i].free && blocks[i].size >= size
        && size % 4 == 0
      modifies this
      ensures Valid() && blocks == Claimed(old(blocks), i, size)
    {
      ghost var bs := blocks;
      OpenAt(memory, bs, i);
      Bounded(bs, i);
      ClaimedInv(bs, i, size);
      if memory[curr].size >= (size + HEADER + 4) % 0x1_0000_0000 {
        ClaimPart(curr, size, bs, i);
      } else {
        ClaimWhole(curr, size, bs, i);
      }
      blocks := Claimed(bs, i, size);
    }

    /** Two headers in the place of one. */
    method ClaimPart(curr: nat, size: nat, ghost bs: seq<Block>, ghost i: nat)
      requires Represents(memory, bs) && i < |bs| && curr == At(bs, i) && bs[i].free && bs[i].size >= size + HEADER + 4
      modifies this`memory
      ensures Represents(memory, Claimed(bs, i, size))
    {
      OpenAt(memory, bs, i);
      AtNext(bs, i);
      var c := memory[curr];
      ghost var x, y := Block(size, false), Block(bs[i].size - size - HEADER, true);
      RelinkTwo(memory, bs[..i], bs[i], x, y, bs[i + 1..]);
      var split := curr + HEADER + size;
      memory := memory[split := Header(c.size - size - HEADER, true, c.next)];
      memory := memory[curr := Header(size, false, split)];
      Close(memory, bs[..i], [x, y], bs[i + 1..], Claimed(bs, i, size));
    }

    /** The whole block marked used. */
    method ClaimWhole(curr: nat, ghost size: nat, ghost bs: seq<Block>, ghost i: nat)
      requires Represents(memory, bs) && i < |bs| && curr == At(bs, i) && bs[i].free
        && size <= bs[i].size < size + HEADER + 4
      modifies this`memory
      ensures Represents(memory, Claimed(bs, i, size))
    {
      OpenAt(memory, bs, i);
      AtNext(bs, i);
      var c := memory[curr];
      ghost var x := Block(bs[i].size, false);
      TotalOne(bs[i]);
      RelinkOne(memory, bs[..i], [bs[i]], x, bs[i + 1..], curr, memory[curr := c.(free := false)]);
      memory := memory[curr := c.(free := false)];
      Close(memory, bs[..i], [x], bs[i + 1..], Claimed(bs, i, size));
    }

    /** `malloc`: first fit. Fails exactly when no free block is large enough. */
    method Malloc(n: nat) returns (ptr: nat)
      requires Valid() && n < 0x1_0000_0000
      modifies this
      ensures Valid()
      ensures blocks == Apply(old(blocks), Request(n))
      ensures ptr == (var i := Fit(old(blocks), Round(n)); if n == 0 || i == |old(blocks)| then 0
        else At(old(blocks), i) + HEADER)
      ensures ptr != 0 ==>
        && n > 0 && Fit(old(blocks), Round(n)) < |old(blocks)| && Granted(old(blocks), n).ptr == ptr
        && LiveSet(blocks) == LiveSet(old(blocks)) + {Granted(old(blocks), n)}
            && Granted(old(blocks), n) !in LiveSet(old(blocks))
        && (Granted(old(blocks), n).size >= n <==> n <= 0xFFFF_FFFC)
    {
      if n == 0 { return 0; }
      var size := Round(n);
      var curr := head;
      ghost var i := 0;
      assert blocks[..0] == [];
      while curr != 0
        invariant Valid() && blocks == old(blocks) && i <= |blocks|
        invariant curr == if i < |blocks| then At(blocks, i) else 0
        invariant forall j :: 0 <= j < i ==> !(blocks[j].free && blocks[j].size >= size)
        decreases |blocks| - i
      {
        OpenAt(memory, blocks, i);
        if memory[curr].free && memory[curr].size >= size {
          FitIs(blocks, i, size);
          ServedEnough(blocks, n, i, size);
          Claim(curr, size, i);
          return curr + HEADER;
        }
        curr := memory[curr].next;
        i := i + 1;
        NonNull(blocks, i);
      }
      NonNull(blocks, i);
      return 0;
    }

    /** One turn of the coalescing walk: merge with the next block, or move on. */
    method CoalesceStep(curr: nat, ghost i: nat, ghost goal: seq<Block>) returns (next: nat, ghost j: nat)
      requires Walking(memory, blocks, i, curr, goal) && curr != 0
      modifies this
      ensures head == old(head) && Walking(memory, blocks, j, next, goal)
      ensures j <= |blocks| && |blocks| - j < |old(blocks)| - i
    {
      NonNull(blocks, i);
      OpenAt(memory, blocks, i);
      var c := memory[curr];
      if c.next != 0 { OpenTwo(memory, blocks, i); }
      if c.free && c.next != 0 && memory[c.next].free {
        var d := memory[c.next];
        MergeStep(memory, blocks, i, goal);
        memory := memory[curr := Header(c.size + HEADER + d.size, true, d.next)];
        blocks := blocks[..i] + [Block(c.size + HEADER + d.size, true)] + blocks[i + 2..];
        next, j := curr, i;
      } else {
        NonNull(blocks, i + 1);
        SettledSkip(blocks, i, goal);
        next, j := c.next, i + 1;
      }
    }

    /** The coalescing walk. */
    method Coalesce(ghost goal: seq<Block>)
      requires head == HEAP_START && Represents(memory, blocks) && |blocks| > 0 && Merge(blocks) == goal && Inv(goal)
      modifies this
      ensures Valid() && blocks == goal
    {
      var curr := head;
      ghost var i := 0;
      StartWalk(memory, blocks, goal);
      while curr != 0
        invariant head == HEAP_START && Walking(memory, blocks, i, curr, goal)
        decreases |blocks| - i
      {
        curr, i := CoalesceStep(curr, i, goal);
      }
      EndWalk(memory, blocks, i, goal);
    }

    /** `free`: the allocation goes, everything else stays, and free neighbours are merged. */
    method Free(ptr: nat, ghost a: Alloc) returns (ghost i: nat)
      requires Valid() && (ptr == 0 || (a in LiveSet(blocks) && a.ptr == ptr))
      modifies this
      ensures Valid()
      ensures ptr == 0 ==> blocks == old(blocks)
      ensures ptr != 0 ==> LiveSet(blocks) == LiveSet(old(blocks)) - {a}
      ensures ptr != 0 ==>
        && i < |old(blocks)| && ptr == At(old(blocks), i) + HEADER && !old(blocks)[i].free
        && blocks == Apply(old(blocks), Release(i)) == Freed(old(blocks), i)
    {
      i := 0;
      if ptr == 0 { return; }
      var block := ptr - HEADER;
      i := LiveIndex(blocks, HEAP_START, a);
      ghost var bs := blocks;
      OpenAt(memory, bs, i);
      AtNext(bs, i);
      FreedInv(bs, i);
      FreedLive(bs, i);
      TotalOne(bs[i]);
      SpliceTotal(bs, i, [Block(bs[i].size, true)]);
      RelinkOne(memory, bs[..i], [bs[i]], Block(bs[i].size, true), bs[i + 1..], block,
          memory[block := memory[block].(free := true)]);
      memory := memory[block := memory[block].(free := true)];
      blocks := Splice(bs, i, [Block(bs[i].size, true)]);
      Close(memory, bs[..i], [Block(bs[i].size, true)], bs[i + 1..], blocks);
      Coalesce(Freed(bs, i));
    }
  }

  /** `malloc` then `free`: the block list is what it was, whether or not the request could be met. */
  method MallocThenFree(m: Allocator, n: nat)
    requires m.Valid() && n < 0x1_0000_0000
    modifies m
    ensures m.Valid() && m.blocks == old(m.blocks)
  {
    ghost var bs := m.blocks;
    var p := m.Malloc(n);
    ghost var cs := m.blocks;
    ghost var a := if p != 0 then Granted(bs, n) else Alloc(0, 0);
    ghost var j := m.Free(p, a);
    if p != 0 { UndoServed(bs, n, Fit(bs, Round(n)), Round(n), cs, j); }
  }

  lemma UndoServed(bs: seq<Block>, n: nat, i: nat, z: nat, cs: seq<Block>, j: nat)
    requires Inv(bs) && n > 0 && z == Round(n) && i == Fit(bs, z) < |bs| && cs == Apply(bs, Request(n)) && j < |cs|
      && At(cs, j) == At(bs, i)
    ensures Freed(cs, j) == bs
  {
    ClaimedFront(bs, i, z);
    SameIndex(bs, cs, i, j);
    FreeUndoesMalloc(bs, i, z);
  }

  lemma ClaimedFront(bs: seq<Block>, i: nat, z: nat)
    requires i < |bs| && bs[i].size >= z
    ensures i < |Claimed(bs, i, z)| && Claimed(bs, i, z)[..i] == bs[..i]
  {}

  lemma SameIndex(bs: seq<Block>, cs: seq<Block>, i: nat, j: nat)
    requires i < |bs| && i < |cs| && bs[..i] == cs[..i] && j < |cs| && At(cs, j) == At(bs, i)
    ensures i == j
  {
    if i < j { AtMonotone(cs, i, j); } else if j < i { AtMonotone(cs, j, i); }
  }

  lemma NonNull(bs: seq<Block>, i: nat)
    requires i <= |bs|
    ensures At(bs, i) > 0
  {}

  /** The walk stops at the first fit. */
  lemma FitIs(bs: seq<Block>, i: nat, n: nat)
    requires i < |bs| && bs[i].free && bs[i].size >= n
    requires forall j :: 0 <= j < i ==> !(bs[j].free && bs[j].size >= n)
    ensures Fit(bs, n) == i
  {}
}
