/** What the out-of-order slot is for: segments that overtake one another, and the orderly close of a connection. */
module TcpOrder {
  import opened Bytes
  import opened Tcp

  /** A segment with this piece of the stream; it may acknowledge anything. */
  predicate Carries(seg: Segment, data: seq<byte>, sseq: nat) {
    seg.data == data && seg.sseq == sseq && !seg.rst && !seg.fin
  }

  /** Open, with a free slot, waiting for number r. */
  predicate Ready(f: Flow, r: nat) {
    f.used && f.state == Established && f.rcvNxt == r < W32 && |f.slot.data| == 0 && f.read <= |f.kept|
  }

  /** The same bytes kept and dropped, the same number expected. */
  predicate SameBytes(f: Flow, g: Flow) { f.kept == g.kept && f.lost == g.lost && f.rcvNxt == g.rcvNxt }

  lemma OneData(f: Flow, seg: Segment, data: seq<byte>, r: nat)
    requires Ready(f, r) && Carries(seg, data, r) && data != []
    ensures SameBytes(Heard(f, seg), Pushed(f, data)) && Ready(Heard(f, seg), Inc(r, |data|))
  {}

  /** What the slot takes. */
  lemma LateData(f: Flow, seg: Segment, data: seq<byte>, r: nat, q: nat)
    requires Ready(f, r) && Carries(seg, data, q) && data != [] && q != r
    ensures var g := Heard(f, seg);
            && SameBytes(g, f) && g.read == f.read && g.used && g.state == Established
            && g.slot == if q > r && |data| <= TX_SIZE then Slot(data, q) else f.slot
  {}

  lemma FilledData(g: Flow, seg: Segment, a: seq<byte>, b: seq<byte>, r: nat)
    requires g.rcvNxt == r && b != [] && g.slot == Slot(b, Inc(r, |a|)) && Carries(seg, a, r)
    ensures WithData(g, seg) == Pushed(Pushed(g, a), b).(slot := Slot([], Inc(r, |a|)))
  {}

  lemma HeardData(g: Flow, seg: Segment)
    requires g.used && g.state == Established && seg.data != [] && !seg.rst && !seg.fin
    ensures Heard(g, seg) == WithData(if seg.ack then g.(sndNxt := seg.sack) else g, seg)
  {}

  /** The missing piece, with the next one in the slot. */
  lemma Filled(g: Flow, seg: Segment, a: seq<byte>, b: seq<byte>, r: nat)
    requires g.used && g.state == Established && g.rcvNxt == r < W32 && g.read <= |g.kept|
    requires a != [] && b != [] && g.slot == Slot(b, Inc(r, |a|)) && Carries(seg, a, r)
    ensures SameBytes(Heard(g, seg), Pushed(Pushed(g, a), b)) && Ready(Heard(g, seg), Inc(Inc(r, |a|), |b|))
  {
    var h := if seg.ack then g.(sndNxt := seg.sack) else g;
    HeardData(g, seg);
    FilledData(h, seg, a, b, r);
    PushedSame(g, h, a);
    PushedSame(Pushed(g, a), Pushed(h, a), b);
  }

  lemma PushedSame(f: Flow, g: Flow, data: seq<byte>)
    requires SameBytes(f, g) && f.read == g.read
    ensures SameBytes(Pushed(f, data), Pushed(g, data)) && Pushed(f, data).read == Pushed(g, data).read
  {}

  lemma WrapIff(r: nat, n: nat)
    requires r < W32 && 0 < n < W32
    ensures Inc(r, n) != r && (Inc(r, n) > r <==> r + n < W32)
  {}

  /** Two neighbouring pieces a, b that arrive as b, a leave the same bytes and the same expected number as in order, if
      and only if b fits the slot and its number is not behind a wrap of the sequence numbers. */
  lemma EitherOrder(f: Flow, s1: Segment, s2: Segment, a: seq<byte>, b: seq<byte>, r: nat)
    requires Ready(f, r) && a != [] && b != [] && |a| < W32 && |b| < W32
    requires Carries(s1, a, r) && Carries(s2, b, Inc(r, |a|))
    ensures SameBytes(Heard(Heard(f, s2), s1), Heard(Heard(f, s1), s2)) <==> |b| <= TX_SIZE && r + |a| < W32
  {
    var q := Inc(r, |a|);
    WrapIff(r, |a|);
    OneData(f, s1, a, r);
    OneData(Heard(f, s1), s2, b, q);
    PushedSame(Heard(f, s1), Pushed(f, a), b);
    LateData(f, s2, b, r, q);
    var g := Heard(f, s2);
    if q > r && |b| <= TX_SIZE {
      Filled(g, s1, a, b, r);
      PushedSame(f, g, a);
      PushedSame(Pushed(f, a), Pushed(g, a), b);
    } else {
      OneData(g, s1, a, r);
      PushedSame(f, g, a);
      WrapIff(q, |b|);
    }
  }

  // ---------------------------------------------------------------------------
  // Whole runs with overtaking
  // ---------------------------------------------------------------------------

  /** How the pieces of the stream arrive: one by itself, or two of which the second comes first. */
  datatype Hop = One(a: seq<byte>) | Two(a: seq<byte>, b: seq<byte>)

  function BytesOf(h: Hop): seq<byte> { if h.One? then h.a else h.a + h.b }

  function Joined(hops: seq<Hop>): seq<byte> { if |hops| == 0 then [] else BytesOf(hops[0]) + Joined(hops[1..]) }

  predicate HopOk(h: Hop) { h.a != [] && (h.Two? ==> h.b != [] && |h.b| <= TX_SIZE) }

  /** The segments of the hops, from number r on. */
  predicate Arrives(hops: seq<Hop>, segs: seq<Segment>, r: nat)
    decreases |hops|
  {
    if |hops| == 0 then segs == []
    else
      match hops[0]
      case One(a) => |segs| >= 1 && Carries(segs[0], a, r) && Arrives(hops[1..], segs[1..], r + |a|)
      case Two(a, b) =>
        |segs| >= 2 && Carries(segs[0], b, r + |a|) && Carries(segs[1], a, r)
        && Arrives(hops[1..], segs[2..], r + |a| + |b|)
  }

  lemma {:induction false} HeardFirst(f: Flow, segs: seq<Segment>)
    requires |segs| > 0
    ensures HeardAll(f, segs) == HeardAll(Heard(f, segs[0]), segs[1..])
    decreases |segs|
  {
    var n := |segs| - 1;
    if n > 0 {
      HeardFirst(f, segs[..n]);
      assert segs[..n][0] == segs[0] && segs[..n][1..] == segs[1..][..n - 1] && segs[1..][n - 1] == segs[n];
    } else {
      assert segs[..0] == [];
    }
  }

  /** The bytes `data` have been taken in, in order and without loss. */
  predicate TookIn(f: Flow, g: Flow, data: seq<byte>, r: nat) {
    Ready(g, r + |data|) && g.kept == f.kept + data && g.lost == f.lost && g.read == f.read
  }

  lemma TookInOne(f: Flow, seg: Segment, a: seq<byte>, r: nat)
    requires Ready(f, r) && Carries(seg, a, r) && a != [] && |a| <= Room(f) && r + |a| < W32
    ensures TookIn(f, Heard(f, seg), a, r)
  {
    OneData(f, seg, a, r);
    HeardRead(f, seg);
    assert a[..|a|] == a;
  }

  lemma TookInTwo(f: Flow, s2: Segment, s1: Segment, a: seq<byte>, b: seq<byte>, r: nat)
    requires Ready(f, r) && Carries(s2, b, r + |a|) && Carries(s1, a, r)
    requires a != [] && b != [] && |b| <= TX_SIZE && |a| + |b| <= Room(f) && r + |a| + |b| < W32
    ensures TookIn(f, Heard(Heard(f, s2), s1), a + b, r)
  {
    var g := Heard(f, s2);
    LateData(f, s2, b, r, r + |a|);
    Filled(g, s1, a, b, r);
    HeardRead(g, s1);
    assert a[..|a|] == a && b[..|b|] == b;
    assert f.kept + (a + b) == f.kept + a + b;
  }

  lemma TookInTrans(f: Flow, g: Flow, h: Flow, a: seq<byte>, b: seq<byte>, r: nat)
    requires TookIn(f, g, a, r) && TookIn(g, h, b, r + |a|)
    ensures TookIn(f, h, a + b, r)
  {
    assert f.kept + (a + b) == f.kept + a + b;
  }

  /** However many pieces are overtaken by their successor, all bytes arrive, in order, when they fit the ring and the
      sequence numbers do not wrap on the way. */
  lemma {:induction false} Overtaking(f: Flow, hops: seq<Hop>, segs: seq<Segment>, r: nat)
    requires Ready(f, r) && Arrives(hops, segs, r) && forall h :: h in hops ==> HopOk(h)
    requires |Joined(hops)| <= Room(f) && r + |Joined(hops)| < W32
    ensures TookIn(f, HeardAll(f, segs), Joined(hops), r)
    decreases |hops|
  {
    if |hops| > 0 {
      var d := BytesOf(hops[0]);
      var g, rest := FirstHop(f, hops, segs, r);
      assert HopOk(hops[0]);
      Overtaking(g, hops[1..], rest, r + |d|);
      TookInTrans(f, g, HeardAll(f, segs), d, Joined(hops[1..]), r);
    }
  }

  lemma FirstHop(f: Flow, hops: seq<Hop>, segs: seq<Segment>, r: nat) returns (g: Flow, rest: seq<Segment>)
    requires Ready(f, r) && |hops| > 0 && Arrives(hops, segs, r) && HopOk(hops[0])
    requires |BytesOf(hops[0])| <= Room(f) && r + |BytesOf(hops[0])| < W32
    ensures TookIn(f, g, BytesOf(hops[0]), r) && Arrives(hops[1..], rest, r + |BytesOf(hops[0])|)
    ensures HeardAll(f, segs) == HeardAll(g, rest)
  {
    var h := hops[0];
    ArrivesFirst(hops, segs, r);
    if h.One? {
      g, rest := Heard(f, segs[0]), segs[1..];
      HeardFirst(f, segs);
      TookInOne(f, segs[0], h.a, r);
    } else {
      g, rest := Heard(Heard(f, segs[0]), segs[1]), segs[2..];
      HeardTwo(f, segs);
      TookInTwo(f, segs[0], segs[1], h.a, h.b, r);
    }
  }

  lemma ArrivesFirst(hops: seq<Hop>, segs: seq<Segment>, r: nat)
    requires |hops| > 0 && Arrives(hops, segs, r)
    ensures var h, n := hops[0], r + |BytesOf(hops[0])|;
            && (h.One? ==> |segs| >= 1 && Carries(segs[0], h.a, r) && Arrives(hops[1..], segs[1..], n))
            && (h.Two? ==> |segs| >= 2 && Carries(segs[0], h.b, r + |h.a|) && Carries(segs[1], h.a, r))
            && (h.Two? ==> Arrives(hops[1..], segs[2..], n))
  {}

  lemma HeardTwo(f: Flow, segs: seq<Segment>)
    requires |segs| > 1
    ensures HeardAll(f, segs) == HeardAll(Heard(Heard(f, segs[0]), segs[1]), segs[2..])
  {
    HeardFirst(f, segs);
    HeardFirst(Heard(f, segs[0]), segs[1..]);
    assert segs[1..][0] == segs[1] && segs[1..][1..] == segs[2..];
  }

  // ---------------------------------------------------------------------------
  // Opening and closing
  // ---------------------------------------------------------------------------

  /** The peer's FIN takes the number behind the last byte acknowledged, and our next acknowledgement counts it. */
  lemma FinCounted(peer: Peer, f: Flow, seg: Segment)
    requires PeerOk(peer) && Sound(peer, f) && FromPeer(peer, seg) && f.used && f.state == Established
      && f.read <= |f.kept|
    requires seg.fin && !seg.rst
    ensures var g := Heard(f, seg); g.state == CloseWait && g.fin && g.rcvNxt == SeqAt(peer, Passed(g) + 1)
  {
    var rest := seg.(fin := false);
    HeardSound(peer, f, rest);
    ConversedState(f, rest);
    SeqNext(peer, Passed(Heard(f, rest)), 1);
  }

  /** SYN+ACK, and nothing else but a reset, ends the opening. */
  lemma Opening(isn: nat, seg: Segment)
    requires isn < W32 && !seg.rst
    ensures var f, g := After(isn, []), Heard(After(isn, []), seg);
            if seg.syn && seg.ack then Ready(g, Inc(seg.sseq, 1)) && g.kept == [] && g.sndNxt == seg.sack else g == f
  {}

  /** A FIN taken means that the connection takes no more data. */
  predicate FinCloses(f: Flow) { f.fin ==> Closing(f) }

  lemma WithDataFin(f: Flow, seg: Segment)
    ensures WithData(f, seg).fin == f.fin
  {}

  lemma ConversedFin(f: Flow, seg: Segment)
    requires FinCloses(f)
    ensures FinCloses(Conversed(f, seg))
  {
    ConversedState(f, seg);
    WithDataFin(if seg.ack then WithAck(f, seg.sack) else f, seg);
  }

  lemma HeardFin(f: Flow, seg: Segment)
    requires FinCloses(f)
    ensures FinCloses(Heard(f, seg))
  {
    ConversedFin(f, seg);
  }

  lemma {:induction false} HeardAllFin(f: Flow, segs: seq<Segment>)
    requires FinCloses(f)
    ensures FinCloses(HeardAll(f, segs))
  {
    if |segs| > 0 {
      HeardAllFin(f, segs[..|segs| - 1]);
      HeardFin(HeardAll(f, segs[..|segs| - 1]), segs[|segs| - 1]);
    }
  }

  lemma {:induction false} AwaitedFin(f: Flow, polls: seq<seq<Segment>>)
    requires FinCloses(f)
    ensures FinCloses(Awaited(f, polls))
    decreases |polls|
  {
    if |polls| > 0 {
      HeardAllFin(f, polls[0]);
      AwaitedFin(HeardAll(f, polls[0]), polls[1..]);
    }
  }

  lemma {:induction false} RunFin(isn: nat, events: seq<Event>)
    ensures FinCloses(After(isn, events))
  {
    if |events| > 0 {
      RunFin(isn, events[..|events| - 1]);
      NextFin(After(isn, events[..|events| - 1]), events[|events| - 1]);
    }
  }

  lemma NextFin(f: Flow, e: Event)
    requires FinCloses(f) && f.read <= |f.kept|
    ensures FinCloses(Next(f, e))
  {
    match e
    case Arrive(seg) => HeardFin(f, seg);
    case Read(_, polls) =>
      AwaitedRead(f, polls);
      AwaitedFin(f, polls);
    case Close(polls) => ClosedDownState(CloseSent(f), polls);
    case Drop =>
  }

  /** Where recv reports the end of the stream, nothing that arrives later adds to it. */
  lemma EndIsFinal(isn: nat, events: seq<Event>, segs: seq<Segment>)
    requires AtEnd(After(isn, events))
    ensures HeardAll(After(isn, events), segs).kept == After(isn, events).kept
  {
    var f := After(isn, events);
    RunFin(isn, events);
    if Closing(f) { ClosingKeeps(f, segs); } else { UnusedKeeps(f, segs); }
  }

  lemma {:induction false} UnusedKeeps(f: Flow, segs: seq<Segment>)
    requires !f.used
    ensures HeardAll(f, segs) == f
  {
    if |segs| > 0 { UnusedKeeps(f, segs[..|segs| - 1]); }
  }

  /** recv comes back with nothing only at the end of the stream or when its turns have run out. */
  lemma {:induction false} NothingYet(f: Flow, polls: seq<seq<Segment>>)
    ensures var g := Awaited(f, polls); Queued(g) > 0 || AtEnd(g) || g == HeardAll(f, Together(polls))
    decreases |polls|
  {
    if |polls| > 0 {
      var g := HeardAll(f, polls[0]);
      HeardJoin(f, polls[0], Together(polls[1..]));
      NothingYet(g, polls[1..]);
    }
  }

  function Together(polls: seq<seq<Segment>>): seq<Segment> {
    if |polls| == 0 then [] else polls[0] + Together(polls[1..])
  }

  lemma {:induction false} HeardJoin(f: Flow, a: seq<Segment>, b: seq<Segment>)
    ensures HeardAll(f, a + b) == HeardAll(HeardAll(f, a), b)
    decreases |b|
  {
    var n := |b| - 1;
    if |b| > 0 {
      assert (a + b)[..|a + b| - 1] == a + b[..n] && (a + b)[|a + b| - 1] == b[n];
      HeardJoin(f, a, b[..n]);
    } else {
      assert a + b == a;
    }
  }

  /** We close first: FIN_WAIT_2 exactly with the acknowledgement of our FIN, and TIME_WAIT with the peer's FIN, whether
      acknowledged before or not. */
  lemma ActiveClose(f: Flow, seg: Segment)
    requires f.used && f.state == Established && !seg.rst
    ensures var c := CloseSent(f);
            var g := Heard(c, seg);
            && c.sndNxt == Inc(f.sndNxt, 1) && g.used
            && (g.state == TimeWait <==> seg.fin)
            && (g.state == FinWait2 <==> !seg.fin && seg.ack && seg.sack == Inc(f.sndNxt, 1))
            && (!seg.fin && g.state != FinWait2 ==> g.state == FinWait1)
  {
    ConversedState(CloseSent(f), seg);
  }

  lemma SecondFin(f: Flow, seg: Segment)
    requires f.used && f.state == FinWait2 && !seg.rst
    ensures Heard(f, seg).state == if seg.fin then TimeWait else FinWait2
  {
    ConversedState(f, seg);
  }

  /** The peer has closed first: our FIN then waits for one acknowledgement. */
  lemma PassiveClose(f: Flow, seg: Segment)
    requires f.used && f.state == CloseWait && !seg.rst
    ensures var g := Heard(CloseSent(f), seg); (!g.used <==> seg.ack) && (g.state == Closed <==> seg.ack)
  {}
}
