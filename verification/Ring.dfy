/** The byte ring that the TLS and TCP receive paths use: a fixed buffer with a read and a write index, one slot kept
    empty. */
module Ring {
  import opened Bytes

  /** The bytes from the read index up to the write index, going around. */
  function Window(d: seq<byte>, first: nat, last: nat): seq<byte>
    requires first < |d| && last < |d|
  {
    if first <= last then d[first..last] else d[first..] + d[..last]
  }

  lemma StepAround(i: nat, n: nat)
    requires i < n
    ensures (i + 1) % n == if i + 1 == n then 0 else i + 1
  {
    if i + 1 < n { assert (i + 1) % n == i + 1; }
  }

  lemma Shift(out: seq<byte>, x: byte, rest: seq<byte>)
    ensures out + ([x] + rest) == (out + [x]) + rest
  {}

  lemma Extend(all: seq<byte>, s: seq<byte>, i: nat)
    requires i < |s|
    ensures all + s[..i] + [s[i]] == all + s[..i + 1]
  {
    assert s[..i + 1] == s[..i] + [s[i]];
  }

  lemma Empty(d: seq<byte>, first: nat, last: nat)
    requires first < |d| && last < |d|
    ensures Window(d, first, last) == [] <==> first == last
    ensures |Window(d, first, last)| < |d|
  {}

  class Buffer {
    const data: array<byte>
    var first: nat
    var last: nat

    ghost predicate Valid()
      reads this
    {
      first < data.Length && last < data.Length
    }

    ghost function Contents(): seq<byte>
      requires Valid()
      reads this, data
    {
      Window(data[..], first, last)
    }

    /** Bytes that still fit. */
    ghost function Space(): int
      requires Valid()
      reads this, data
    {
      data.Length - 1 - |Contents()|
    }

    constructor (n: nat)
      requires n > 0
      ensures Valid() && fresh(data) && data.Length == n && Contents() == []
    {
      data := new byte[n](_ => 0);
      first, last := 0, 0;
    }

    method IsFull() returns (full: bool)
      requires Valid()
      ensures full <==> Space() == 0
      ensures Space() >= 0
    {
      StepAround(last, data.Length);
      full := (last + 1) % data.Length == first;
    }

    /** Writes without looking: right only while there is space. */
    method Put(x: byte)
      requires Valid() && Space() > 0
      modifies this, data
      ensures Valid() && Contents() == old(Contents()) + [x]
    {
      StepAround(last, data.Length);
      data[last] := x;
      last := (last + 1) % data.Length;
    }

    method Get() returns (x: byte)
      requires Valid() && first != last
      modifies this
      ensures Valid() && old(Contents()) == [x] + Contents()
    {
      StepAround(first, data.Length);
      x := data[first];
      first := (first + 1) % data.Length;
    }

    /** Takes up to `max` bytes from the front. */
    method Take(max: nat) returns (out: seq<byte>)
      requires Valid()
      modifies this
      ensures Valid() && old(Contents()) == out + Contents()
      ensures |out| == if max < |old(Contents())| then max else |old(Contents())|
    {
      out := [];
      ghost var all, rest := Contents(), Contents();
      while first != last && |out| < max
        invariant Valid() && rest == Contents() && all == out + rest && |out| <= max
        decreases max - |out|
      {
        var x := Get();
        rest := Contents();
        Shift(out, x, rest);
        out := out + [x];
      }
      Empty(data[..], first, last);
    }

    /** Puts bytes until the ring is full; the rest is dropped. */
    method Push(s: seq<byte>) returns (ghost n: nat)
      requires Valid()
      modifies this, data
      ensures Valid() && old(Space()) >= 0 && n == (if |s| <= old(Space()) then |s| else old(Space()))
      ensures Contents() == old(Contents()) + s[..n]
    {
      n := 0;
      var i := 0;
      ghost var all, now := Contents(), Contents();
      while i < |s|
        invariant i <= |s| && n == i <= old(Space()) && Valid() && now == Contents() && now == all + s[..i]
      {
        var full := IsFull();
        if full { return; }
        Put(s[i]);
        now := Contents();
        Extend(all, s, i);
        i := i + 1;
        n := i;
      }
    }
  }
}
