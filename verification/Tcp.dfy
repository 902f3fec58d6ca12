/** The TCP receive path of src/kernel/net.c: in-order delivery with one out-of-order slot. */
module Tcp {
  import opened Bytes
  import Ring

  const RX_SIZE: nat := 4096
  const TX_SIZE: nat := 1400

  datatype ConnState = Closed | SynSent | Established | FinWait1 | FinWait2 | CloseWait | LastAck | TimeWait

  datatype Segment = Segment(sseq: nat, sack: nat, syn: bool, ack: bool, fin: bool, rst: bool, data: seq<byte>)

  /** Sequence numbers are 32 bits wide. */
  function Inc(r: nat, n: nat): nat { (r + n) % W32 }

  // ---------------------------------------------------------------------------
  // A connection as a value
  // ---------------------------------------------------------------------------

  /** The out-of-order slot; no data when free. */
  datatype Slot = Slot(data: seq<byte>, sseq: nat)

  /** A connection: its fields, all bytes that ever entered the ring, how many of them were read, and how many
      acknowledged bytes the full ring dropped. */
  datatype Flow = Flow(used: bool, state: ConnState, rcvNxt: nat, sndNxt: nat, fin: bool, rst: bool,
                       slot: Slot, kept: seq<byte>, read: nat, lost: nat)

  /** Stream bytes acknowledged so far. */
  function Passed(f: Flow): nat { |f.kept| + f.lost }

  function Queued(f: Flow): int { |f.kept| - f.read }

  /** Bytes that still fit into the ring. */
  function Room(f: Flow): nat { if Queued(f) < RX_SIZE - 1 then RX_SIZE - 1 - Queued(f) else 0 }

  /** The next stream bytes are acknowledged; those that do not fit are gone. */
  function Pushed(f: Flow, data: seq<byte>): (g: Flow)
    ensures g.read == f.read && |f.kept| <= |g.kept| && Passed(g) == Passed(f) + |data|
    ensures g.lost == f.lost <==> |data| <= Room(f)
    ensures g.lost >= f.lost
  {
    var n := if |data| <= Room(f) then |data| else Room(f);
    f.(kept := f.kept + data[..n], lost := f.lost + |data| - n, rcvNxt := Inc(f.rcvNxt, |data|))
  }

  /** Data in the established state: next in order, later, or already had. */
  function WithData(f: Flow, seg: Segment): Flow {
    if seg.sseq == f.rcvNxt then
      var g := Pushed(f, seg.data);
      if |g.slot.data| > 0 && g.slot.sseq == g.rcvNxt then Pushed(g, g.slot.data).(slot := Slot([], g.slot.sseq)) else g
    else if seg.sseq > f.rcvNxt && |seg.data| <= TX_SIZE && |f.slot.data| == 0 then f.(slot := Slot(seg.data, seg.sseq))
    else f
  }

  function WithAck(f: Flow, sack: nat): Flow {
    if f.state == FinWait1 && sack == f.sndNxt then f.(state := FinWait2) else f.(sndNxt := sack)
  }

  function WithFin(f: Flow): Flow {
    f.(rcvNxt := Inc(f.rcvNxt, 1), fin := true, state := if f.state == Established then CloseWait else TimeWait)
  }

  /** Acknowledgement, then data, then FIN. */
  function Conversed(f: Flow, seg: Segment): Flow {
    var g := if seg.ack then WithAck(f, seg.sack) else f;
    var h := if |seg.data| > 0 && g.state == Established then WithData(g, seg) else g;
    if seg.fin then WithFin(h) else h
  }

  function Released(f: Flow): Flow { f.(used := false, state := Closed) }

  /** A segment addressed to the connection. */
  function Heard(f: Flow, seg: Segment): Flow {
    if !f.used then f
    else if seg.rst then Released(f.(rst := true))
    else match f.state
      case SynSent => if seg.syn && seg.ack
          then f.(rcvNxt := Inc(seg.sseq, 1), sndNxt := seg.sack, state := Established) else f
      case Established => Conversed(f, seg)
      case FinWait1 => Conversed(f, seg)
      case FinWait2 => Conversed(f, seg)
      case LastAck => if seg.ack then Released(f) else f
      case _ => f
  }

  function HeardAll(f: Flow, segs: seq<Segment>): Flow {
    if |segs| == 0 then f else Heard(HeardAll(f, segs[..|segs| - 1]), segs[|segs| - 1])
  }

  function Taken(f: Flow, max: nat): Flow
    requires f.read <= |f.kept|
  {
    f.(read := f.read + if max < Queued(f) then max else Queued(f))
  }

  /** Nothing more will come. */
  predicate AtEnd(f: Flow) { f.fin || f.state == CloseWait || f.state == Closed || !f.used }

  /** The polling loop of recv: one group of segments for each turn. */
  function Awaited(f: Flow, polls: seq<seq<Segment>>): Flow
    decreases |polls|
  {
    if |polls| == 0 then f
    else
      var g := HeardAll(f, polls[0]);
      if Queued(g) > 0 || AtEnd(g) then g else Awaited(g, polls[1..])
  }

  /** Bytes handed out, if the loop ended with data and not by its deadline. */
  function Received(f: Flow, max: nat, polls: seq<seq<Segment>>): Flow
    requires f.read <= |f.kept|
  {
    if !f.used || |polls| == 0 then f else
    AwaitedRead(f, polls);
    Taken(Awaited(f, polls), max)
  }

  predicate Finished(f: Flow) { !f.used || f.state == TimeWait || f.state == Closed }

  function ClosedDown(f: Flow, polls: seq<seq<Segment>>): Flow
    decreases |polls|
  {
    if |polls| == 0 || Finished(f) then Released(f) else ClosedDown(HeardAll(f, polls[0]), polls[1..])
  }

  function CloseSent(f: Flow): Flow {
    f.(sndNxt := Inc(f.sndNxt, 1), state := if f.state == Established then FinWait1 else LastAck)
  }

  function Shut(f: Flow, polls: seq<seq<Segment>>): Flow {
    if !f.used then f
    else if f.state == Established || f.state == CloseWait then ClosedDown(CloseSent(f), polls)
    else Released(f)
  }

  /** What can happen to a connection: a segment arrives, the program reads or closes (polling meanwhile), or the timer
      gives up. */
  datatype Event =
    | Arrive(seg: Segment)
    | Read(max: nat, polls: seq<seq<Segment>>)
    | Close(polls: seq<seq<Segment>>)
    | Drop

  function Next(f: Flow, e: Event): Flow
    requires f.read <= |f.kept|
  {
    match e
    case Arrive(seg) => Heard(f, seg)
    case Read(max, polls) => Received(f, max, polls)
    case Close(polls) => Shut(f, polls)
    case Drop => Released(f)
  }

  /** The connection after `net_tcp_connect` has sent its SYN and then all events. */
  function After(isn: nat, events: seq<Event>): (f: Flow)
    ensures f.read <= |f.kept|
  {
    if |events| == 0 then Flow(true, SynSent, 0, Inc(isn, 1), false, false, Slot([], 0), [], 0, 0)
    else
      var f := After(isn, events[..|events| - 1]);
      NextRead(f, events[|events| - 1]);
      Next(f, events[|events| - 1])
  }

  lemma WithDataRead(f: Flow, seg: Segment)
    requires f.read <= |f.kept|
    ensures WithData(f, seg).read == f.read <= |WithData(f, seg).kept|
  {}

  lemma ConversedRead(f: Flow, seg: Segment)
    requires f.read <= |f.kept|
    ensures Conversed(f, seg).read == f.read <= |Conversed(f, seg).kept|
  {
    var g := if seg.ack then WithAck(f, seg.sack) else f;
    WithDataRead(g, seg);
  }

  lemma HeardRead(f: Flow, seg: Segment)
    requires f.read <= |f.kept|
    ensures Heard(f, seg).read == f.read <= |Heard(f, seg).kept|
  {
    ConversedRead(f, seg);
  }

  lemma {:induction false} HeardAllRead(f: Flow, segs: seq<Segment>)
    requires f.read <= |f.kept|
    ensures HeardAll(f, segs).read == f.read <= |HeardAll(f, segs).kept|
  {
    if |segs| > 0 {
      HeardAllRead(f, segs[..|segs| - 1]);
      HeardRead(HeardAll(f, segs[..|segs| - 1]), segs[|segs| - 1]);
    }
  }

  lemma {:induction false} AwaitedRead(f: Flow, polls: seq<seq<Segment>>)
    requires f.read <= |f.kept|
    ensures Awaited(f, polls).read == f.read <= |Awaited(f, polls).kept|
    decreases |polls|
  {
    if |polls| > 0 {
      HeardAllRead(f, polls[0]);
      AwaitedRead(HeardAll(f, polls[0]), polls[1..]);
    }
  }

  lemma {:induction false} ClosedDownRead(f: Flow, polls: seq<seq<Segment>>)
    requires f.read <= |f.kept|
    ensures ClosedDown(f, polls).read == f.read <= |ClosedDown(f, polls).kept|
    decreases |polls|
  {
    if |polls| > 0 && !Finished(f) {
      HeardAllRead(f, polls[0]);
      ClosedDownRead(HeardAll(f, polls[0]), polls[1..]);
    }
  }

  lemma NextRead(f: Flow, e: Event)
    requires f.read <= |f.kept|
    ensures Next(f, e).read <= |Next(f, e).kept|
  {
    match e
    case Arrive(seg) => HeardRead(f, seg);
    case Read(max, polls) => AwaitedRead(f, polls);
    case Close(polls) => ClosedDownRead(CloseSent(f), polls);
    case Drop =>
  }

  // ---------------------------------------------------------------------------
  // The peer's stream
  // ---------------------------------------------------------------------------

  /** What the peer sends: fewer than 2^32 bytes, the first with sequence number `base`. */
  datatype Peer = Peer(stream: seq<byte>, base: nat)

  predicate PeerOk(peer: Peer) { |peer.stream| < W32 && peer.base < W32 }

  /** The sequence number of stream position p. */
  function SeqAt(peer: Peer, p: nat): nat { Inc(peer.base, p) }

  /** `data` is what the stream holds at position p. */
  predicate Stretch(peer: Peer, p: nat, data: seq<byte>, sseq: nat) {
    p + |data| <= |peer.stream| && data == peer.stream[p..p + |data|] && sseq == SeqAt(peer, p)
  }

  ghost predicate Piece(peer: Peer, data: seq<byte>, sseq: nat) { exists p: nat :: Stretch(peer, p, data, sseq) }

  /** Any piece of the stream, however cut, late or repeated. */
  ghost predicate FromPeer(peer: Peer, seg: Segment) {
    (seg.data != [] ==> Piece(peer, seg.data, seg.sseq)) && (seg.syn && seg.ack ==> Inc(seg.sseq, 1) == peer.base)
  }

  ghost predicate AllFromPeer(peer: Peer, segs: seq<Segment>) { forall s :: s in segs ==> FromPeer(peer, s) }

  ghost predicate PollsFromPeer(peer: Peer, polls: seq<seq<Segment>>) {
    forall g :: g in polls ==> AllFromPeer(peer, g)
  }

  ghost predicate EventFromPeer(peer: Peer, e: Event) {
    match e
    case Arrive(seg) => FromPeer(peer, seg)
    case Read(_, polls) => PollsFromPeer(peer, polls)
    case Close(polls) => PollsFromPeer(peer, polls)
    case Drop => true
  }

  /** In a stream shorter than 2^32 a sequence number names one position, even when it wraps. */
  lemma SeqUnique(peer: Peer, p: nat, q: nat)
    requires p < W32 && q < W32 && SeqAt(peer, p) == SeqAt(peer, q)
    ensures p == q
  {}

  lemma SeqNext(peer: Peer, p: nat, n: nat)
    ensures Inc(SeqAt(peer, p), n) == SeqAt(peer, p + n)
  {}

  /** The acknowledged bytes are a prefix of the stream, and unless some were dropped the program gets exactly these. */
  ghost predicate Sound(peer: Peer, f: Flow) {
    && Passed(f) <= |peer.stream|
    && (f.state == Established ==> f.rcvNxt == SeqAt(peer, Passed(f)))
    && (f.state == SynSent ==> Passed(f) == 0)
    && (f.lost == 0 ==> f.kept == peer.stream[..Passed(f)])
    && (f.slot.data != [] ==> Piece(peer, f.slot.data, f.slot.sseq))
  }

  lemma PushedKept(peer: Peer, f: Flow, data: seq<byte>, p: nat)
    requires f.lost == 0 && p == |f.kept| <= |peer.stream| && f.kept == peer.stream[..p]
      && p + |data| <= |peer.stream| && data == peer.stream[p..p + |data|]
    ensures Pushed(f, data).lost == 0 ==> Pushed(f, data).kept == peer.stream[..p + |data|]
  {
    assert data[..|data|] == data;
    assert peer.stream[..p + |data|] == peer.stream[..p] + data;
  }

  /** The piece that comes next is pushed. */
  lemma PushedSound(peer: Peer, f: Flow, data: seq<byte>)
    requires PeerOk(peer) && Sound(peer, f) && f.state == Established && Piece(peer, data, f.rcvNxt)
    ensures Sound(peer, Pushed(f, data))
  {
    var p: nat :| Stretch(peer, p, data, f.rcvNxt);
    SeqUnique(peer, p, Passed(f));
    SeqNext(peer, p, |data|);
    if f.lost == 0 { PushedKept(peer, f, data, p); }
  }

  lemma WithDataSound(peer: Peer, f: Flow, seg: Segment)
    requires PeerOk(peer) && Sound(peer, f) && f.state == Established && FromPeer(peer, seg) && seg.data != []
    ensures Sound(peer, WithData(f, seg))
  {
    if seg.sseq == f.rcvNxt {
      PushedSound(peer, f, seg.data);
      var g := Pushed(f, seg.data);
      if |g.slot.data| > 0 && g.slot.sseq == g.rcvNxt { PushedSound(peer, g, g.slot.data); }
    }
  }

  lemma ConversedSound(peer: Peer, f: Flow, seg: Segment)
    requires PeerOk(peer) && Sound(peer, f) && FromPeer(peer, seg)
      && (f.state == Established || f.state == FinWait1 || f.state == FinWait2)
    ensures Sound(peer, Conversed(f, seg))
  {
    var g := if seg.ack then WithAck(f, seg.sack) else f;
    if |seg.data| > 0 && g.state == Established { WithDataSound(peer, g, seg); }
  }

  lemma HeardSound(peer: Peer, f: Flow, seg: Segment)
    requires PeerOk(peer) && Sound(peer, f) && FromPeer(peer, seg)
    ensures Sound(peer, Heard(f, seg))
  {
    if f.state == Established || f.state == FinWait1 || f.state == FinWait2 { ConversedSound(peer, f, seg); }
    if f.state == SynSent && seg.syn && seg.ack { OpenedSound(peer, f, seg); }
  }

  lemma OpenedSound(peer: Peer, f: Flow, seg: Segment)
    requires PeerOk(peer) && Sound(peer, f) && FromPeer(peer, seg) && f.state == SynSent && seg.syn && seg.ack
    ensures Sound(peer, f.(rcvNxt := Inc(seg.sseq, 1), sndNxt := seg.sack, state := Established))
  {}

  lemma {:induction false} HeardAllSound(peer: Peer, f: Flow, segs: seq<Segment>)
    requires PeerOk(peer) && Sound(peer, f) && AllFromPeer(peer, segs)
    ensures Sound(peer, HeardAll(f, segs))
  {
    if |segs| > 0 {
      HeardAllSound(peer, f, segs[..|segs| - 1]);
      HeardSound(peer, HeardAll(f, segs[..|segs| - 1]), segs[|segs| - 1]);
    }
  }

  lemma {:induction false} AwaitedSound(peer: Peer, f: Flow, polls: seq<seq<Segment>>)
    requires PeerOk(peer) && Sound(peer, f) && PollsFromPeer(peer, polls)
    ensures Sound(peer, Awaited(f, polls))
    decreases |polls|
  {
    if |polls| > 0 {
      HeardAllSound(peer, f, polls[0]);
      AwaitedSound(peer, HeardAll(f, polls[0]), polls[1..]);
    }
  }

  lemma {:induction false} ClosedDownSound(peer: Peer, f: Flow, polls: seq<seq<Segment>>)
    requires PeerOk(peer) && Sound(peer, f) && PollsFromPeer(peer, polls)
    ensures Sound(peer, ClosedDown(f, polls))
    decreases |polls|
  {
    if |polls| > 0 && !Finished(f) {
      HeardAllSound(peer, f, polls[0]);
      ClosedDownSound(peer, HeardAll(f, polls[0]), polls[1..]);
    }
  }

  lemma NextSound(peer: Peer, f: Flow, e: Event)
    requires PeerOk(peer) && Sound(peer, f) && EventFromPeer(peer, e) && f.read <= |f.kept|
    ensures Sound(peer, Next(f, e))
  {
    match e
    case Arrive(seg) => HeardSound(peer, f, seg);
    case Read(max, polls) =>
      AwaitedRead(f, polls);
      AwaitedSound(peer, f, polls);
    case Close(polls) => ClosedDownSound(peer, CloseSent(f), polls);
    case Drop =>
  }

  /** Every run keeps it. */
  lemma {:induction false} RunSound(peer: Peer, isn: nat, events: seq<Event>)
    requires PeerOk(peer) && forall e :: e in events ==> EventFromPeer(peer, e)
    ensures Sound(peer, After(isn, events))
  {
    if |events| > 0 {
      RunSound(peer, isn, events[..|events| - 1]);
      NextSound(peer, After(isn, events[..|events| - 1]), events[|events| - 1]);
    }
  }

  // ---------------------------------------------------------------------------
  // When bytes are dropped
  // ---------------------------------------------------------------------------

  /** Bytes a segment acknowledges: its own when it comes next, and the slot's when that follows. */
  function Gain(f: Flow, seg: Segment): nat {
    if !f.used || seg.rst || f.state != Established || |seg.data| == 0 || seg.sseq != f.rcvNxt then 0
    else |seg.data| + if |f.slot.data| > 0 && f.slot.sseq == Inc(f.rcvNxt, |seg.data|) then |f.slot.data| else 0
  }

  lemma WithDataGain(f: Flow, seg: Segment)
    requires f.used && !seg.rst && f.state == Established && |seg.data| > 0 && f.read <= |f.kept|
    ensures Passed(WithData(f, seg)) == Passed(f) + Gain(f, seg)
    ensures f.lost <= WithData(f, seg).lost && (WithData(f, seg).lost == f.lost <==> Gain(f, seg) <= Room(f))
  {}

  lemma ConversedGain(f: Flow, seg: Segment)
    requires f.used && !seg.rst && f.state == Established && f.read <= |f.kept|
    ensures Passed(Conversed(f, seg)) == Passed(f) + Gain(f, seg)
    ensures f.lost <= Conversed(f, seg).lost && (Conversed(f, seg).lost == f.lost <==> Gain(f, seg) <= Room(f))
  {
    var g := if seg.ack then WithAck(f, seg.sack) else f;
    if |seg.data| > 0 { WithDataGain(g, seg); }
  }

  lemma HalfClosedKeeps(f: Flow, seg: Segment)
    requires f.state == FinWait1 || f.state == FinWait2
    ensures Conversed(f, seg).kept == f.kept && Conversed(f, seg).lost == f.lost
  {}

  lemma HeardGain(f: Flow, seg: Segment)
    requires f.read <= |f.kept|
    ensures Passed(Heard(f, seg)) == Passed(f) + Gain(f, seg)
    ensures f.lost <= Heard(f, seg).lost && (Heard(f, seg).lost == f.lost <==> Gain(f, seg) <= Room(f))
  {
    if f.used && !seg.rst {
      if f.state == Established { ConversedGain(f, seg); }
      if f.state == FinWait1 || f.state == FinWait2 { HalfClosedKeeps(f, seg); }
    }
  }

  /** Some segment in a group meets a connection that is bad for it. */
  predicate SomeHeard(bad: (Flow, Segment) -> bool, f: Flow, segs: seq<Segment>) {
    |segs| > 0 && var front := segs[..|segs| - 1]; SomeHeard(bad, f, front) || bad(HeardAll(f, front), segs[|segs| - 1])
  }

  predicate SomeAwaited(bad: (Flow, Segment) -> bool, f: Flow, polls: seq<seq<Segment>>)
    decreases |polls|
  {
    |polls| > 0 && var g := HeardAll(f, polls[0]);
    SomeHeard(bad, f, polls[0]) || (Queued(g) == 0 && !AtEnd(g) && SomeAwaited(bad, g, polls[1..]))
  }

  /** A connection that is closing takes no more data, so its segments do not matter. */
  predicate SomeAt(bad: (Flow, Segment) -> bool, f: Flow, e: Event) {
    match e
    case Arrive(seg) => bad(f, seg)
    case Read(_, polls) => f.used && SomeAwaited(bad, f, polls)
    case Close(_) => false
    case Drop => false
  }

  predicate SomeTime(bad: (Flow, Segment) -> bool, isn: nat, events: seq<Event>) {
    |events| > 0 && var front := events[..|events| - 1];
    SomeTime(bad, isn, front) || SomeAt(bad, After(isn, front), events[|events| - 1])
  }

  predicate Overflows(f: Flow, seg: Segment) { Gain(f, seg) > Room(f) }

  /** Some segment brings more bytes than the ring has room for. */
  predicate Drops(isn: nat, events: seq<Event>) { SomeTime(Overflows, isn, events) }

  lemma {:induction false} HeardAllLost(f: Flow, segs: seq<Segment>)
    requires f.read <= |f.kept|
    ensures f.lost <= HeardAll(f, segs).lost && (HeardAll(f, segs).lost == f.lost <==> !SomeHeard(Overflows, f, segs))
  {
    if |segs| > 0 {
      HeardAllLost(f, segs[..|segs| - 1]);
      HeardAllRead(f, segs[..|segs| - 1]);
      HeardGain(HeardAll(f, segs[..|segs| - 1]), segs[|segs| - 1]);
    }
  }

  lemma {:induction false} AwaitedLost(f: Flow, polls: seq<seq<Segment>>)
    requires f.read <= |f.kept|
    ensures f.lost <= Awaited(f, polls).lost
      && (Awaited(f, polls).lost == f.lost <==> !SomeAwaited(Overflows, f, polls))
    decreases |polls|
  {
    if |polls| > 0 {
      HeardAllLost(f, polls[0]);
      HeardAllRead(f, polls[0]);
      AwaitedLost(HeardAll(f, polls[0]), polls[1..]);
    }
  }

  /** A connection that is closing takes no more data. */
  predicate Closing(f: Flow) { f.state != Established && f.state != SynSent }

  lemma {:induction false} ClosingKeeps(f: Flow, segs: seq<Segment>)
    requires Closing(f)
    ensures Closing(HeardAll(f, segs)) && HeardAll(f, segs).kept == f.kept && HeardAll(f, segs).lost == f.lost
  {
    if |segs| > 0 { ClosingKeeps(f, segs[..|segs| - 1]); }
  }

  lemma {:induction false} ClosedDownKeeps(f: Flow, polls: seq<seq<Segment>>)
    requires Closing(f)
    ensures ClosedDown(f, polls).kept == f.kept && ClosedDown(f, polls).lost == f.lost
    decreases |polls|
  {
    if |polls| > 0 && !Finished(f) {
      ClosingKeeps(f, polls[0]);
      ClosedDownKeeps(HeardAll(f, polls[0]), polls[1..]);
    }
  }

  lemma NextLost(f: Flow, e: Event)
    requires f.read <= |f.kept|
    ensures f.lost <= Next(f, e).lost && (Next(f, e).lost == f.lost <==> !SomeAt(Overflows, f, e))
  {
    match e
    case Arrive(seg) => HeardGain(f, seg);
    case Read(max, polls) =>
      AwaitedRead(f, polls);
      AwaitedLost(f, polls);
    case Close(polls) => ClosedDownKeeps(CloseSent(f), polls);
    case Drop =>
  }

  lemma {:induction false} RunLost(isn: nat, events: seq<Event>)
    ensures After(isn, events).lost == 0 <==> !Drops(isn, events)
  {
    if |events| > 0 {
      RunLost(isn, events[..|events| - 1]);
      NextLost(After(isn, events[..|events| - 1]), events[|events| - 1]);
    }
  }

  /** Read or not, the bytes that entered the ring are the acknowledged part of the stream if and only if no segment
      brought more than the ring had room for; the ends tell which. */
  lemma InOrder(peer: Peer, isn: nat, events: seq<Event>)
    requires PeerOk(peer) && forall e :: e in events ==> EventFromPeer(peer, e)
    ensures var f := After(isn, events);
            Passed(f) <= |peer.stream| && (f.kept == peer.stream[..Passed(f)] <==> !Drops(isn, events))
  {
    RunSound(peer, isn, events);
    RunLost(isn, events);
  }

  /** A stream that fits the ring is never cut, whenever the program reads. */
  lemma {:induction false} ShortStream(peer: Peer, isn: nat, events: seq<Event>)
    requires PeerOk(peer) && forall e :: e in events ==> EventFromPeer(peer, e)
    requires |peer.stream| < RX_SIZE
    ensures After(isn, events).lost == 0
  {
    if |events| > 0 {
      var f := After(isn, events[..|events| - 1]);
      ShortStream(peer, isn, events[..|events| - 1]);
      RunSound(peer, isn, events[..|events| - 1]);
      NextShort(peer, f, events[|events| - 1]);
    }
  }

  lemma HeardShort(peer: Peer, f: Flow, seg: Segment)
    requires PeerOk(peer) && Sound(peer, f) && FromPeer(peer, seg) && |peer.stream| < RX_SIZE && f.lost == 0
      && f.read <= |f.kept|
    ensures Heard(f, seg).lost == 0
  {
    HeardGain(f, seg);
    HeardSound(peer, f, seg);
  }

  lemma {:induction false} HeardAllShort(peer: Peer, f: Flow, segs: seq<Segment>)
    requires PeerOk(peer) && Sound(peer, f) && AllFromPeer(peer, segs) && |peer.stream| < RX_SIZE && f.lost == 0
      && f.read <= |f.kept|
    ensures HeardAll(f, segs).lost == 0
  {
    if |segs| > 0 {
      HeardAllShort(peer, f, segs[..|segs| - 1]);
      HeardAllSound(peer, f, segs[..|segs| - 1]);
      HeardAllRead(f, segs[..|segs| - 1]);
      HeardShort(peer, HeardAll(f, segs[..|segs| - 1]), segs[|segs| - 1]);
    }
  }

  lemma {:induction false} AwaitedShort(peer: Peer, f: Flow, polls: seq<seq<Segment>>)
    requires PeerOk(peer) && Sound(peer, f) && PollsFromPeer(peer, polls) && |peer.stream| < RX_SIZE && f.lost == 0
      && f.read <= |f.kept|
    ensures Awaited(f, polls).lost == 0
    decreases |polls|
  {
    if |polls| > 0 {
      HeardAllShort(peer, f, polls[0]);
      HeardAllSound(peer, f, polls[0]);
      HeardAllRead(f, polls[0]);
      AwaitedShort(peer, HeardAll(f, polls[0]), polls[1..]);
    }
  }

  lemma NextShort(peer: Peer, f: Flow, e: Event)
    requires PeerOk(peer) && Sound(peer, f) && EventFromPeer(peer, e) && |peer.stream| < RX_SIZE && f.lost == 0
      && f.read <= |f.kept|
    ensures Next(f, e).lost == 0
  {
    match e
    case Arrive(seg) => HeardShort(peer, f, seg);
    case Read(max, polls) =>
      AwaitedRead(f, polls);
      AwaitedShort(peer, f, polls);
    case Close(polls) => ClosedDownKeeps(CloseSent(f), polls);
    case Drop =>
  }

  // ---------------------------------------------------------------------------
  // The end of the stream
  // ---------------------------------------------------------------------------

  /** A FIN is taken while a part of the stream is still missing. */
  predicate Early(peer: Peer, f: Flow, seg: Segment) {
    f.used && !seg.rst && f.state == Established && seg.fin && Passed(f) + Gain(f, seg) < |peer.stream|
  }

  function EarlyFor(peer: Peer): (Flow, Segment) -> bool { (f, seg) => Early(peer, f, seg) }

  /** Closed by the peer, all of the stream has been acknowledged if and only if no FIN came early. */
  predicate Ended(peer: Peer, f: Flow, early: bool) {
    && (f.state == CloseWait ==> (Passed(f) == |peer.stream| <==> !early))
    && (f.state == SynSent || f.state == Established ==> !early)
  }

  lemma WithDataState(f: Flow, seg: Segment)
    ensures WithData(f, seg).state == f.state
  {}

  lemma ConversedState(f: Flow, seg: Segment)
    ensures Conversed(f, seg).state ==
            if f.state == Established then (if seg.fin then CloseWait else Established)
            else if seg.fin then TimeWait
            else if f.state == FinWait1 && seg.ack && seg.sack == f.sndNxt then FinWait2 else f.state
  {
    WithDataState(if seg.ack then WithAck(f, seg.sack) else f, seg);
  }

  lemma HeardEnded(peer: Peer, f: Flow, seg: Segment, early: bool)
    requires PeerOk(peer) && Sound(peer, f) && FromPeer(peer, seg) && f.read <= |f.kept| && Ended(peer, f, early)
    ensures Ended(peer, Heard(f, seg), early || Early(peer, f, seg))
  {
    HeardGain(f, seg);
    HeardSound(peer, f, seg);
    ConversedState(f, seg);
  }

  lemma {:induction false} HeardAllEnded(peer: Peer, f: Flow, segs: seq<Segment>, early: bool)
    requires PeerOk(peer) && Sound(peer, f) && AllFromPeer(peer, segs) && f.read <= |f.kept| && Ended(peer, f, early)
    ensures Ended(peer, HeardAll(f, segs), early || SomeHeard(EarlyFor(peer), f, segs))
  {
    if |segs| > 0 {
      var front := segs[..|segs| - 1];
      HeardAllEnded(peer, f, front, early);
      HeardAllSound(peer, f, front);
      HeardAllRead(f, front);
      HeardEnded(peer, HeardAll(f, front), segs[|segs| - 1], early || SomeHeard(EarlyFor(peer), f, front));
    }
  }

  lemma {:induction false} AwaitedEnded(peer: Peer, f: Flow, polls: seq<seq<Segment>>, early: bool)
    requires PeerOk(peer) && Sound(peer, f) && PollsFromPeer(peer, polls) && f.read <= |f.kept| && Ended(peer, f, early)
    ensures Ended(peer, Awaited(f, polls), early || SomeAwaited(EarlyFor(peer), f, polls))
    decreases |polls|
  {
    if |polls| > 0 {
      HeardAllEnded(peer, f, polls[0], early);
      HeardAllSound(peer, f, polls[0]);
      HeardAllRead(f, polls[0]);
      AwaitedEnded(peer, HeardAll(f, polls[0]), polls[1..], early || SomeHeard(EarlyFor(peer), f, polls[0]));
    }
  }

  lemma {:induction false} ClosedDownState(f: Flow, polls: seq<seq<Segment>>)
    ensures ClosedDown(f, polls).state == Closed
    decreases |polls|
  {
    if |polls| > 0 && !Finished(f) { ClosedDownState(HeardAll(f, polls[0]), polls[1..]); }
  }

  lemma NextEnded(peer: Peer, f: Flow, e: Event, early: bool)
    requires PeerOk(peer) && Sound(peer, f) && EventFromPeer(peer, e) && f.read <= |f.kept| && Ended(peer, f, early)
    ensures Ended(peer, Next(f, e), early || SomeAt(EarlyFor(peer), f, e))
  {
    match e
    case Arrive(seg) => HeardEnded(peer, f, seg, early);
    case Read(max, polls) =>
      AwaitedRead(f, polls);
      AwaitedEnded(peer, f, polls, early);
    case Close(polls) => ClosedDownState(CloseSent(f), polls);
    case Drop =>
  }

  /** Over every run: a connection the peer has closed has acknowledged the whole stream if and only if no FIN was taken
      early. */
  lemma {:induction false} WholeStream(peer: Peer, isn: nat, events: seq<Event>)
    requires PeerOk(peer) && forall e :: e in events ==> EventFromPeer(peer, e)
    ensures Ended(peer, After(isn, events), SomeTime(EarlyFor(peer), isn, events))
  {
    if |events| > 0 {
      var front := events[..|events| - 1];
      WholeStream(peer, isn, front);
      RunSound(peer, isn, front);
      NextEnded(peer, After(isn, front), events[|events| - 1], SomeTime(EarlyFor(peer), isn, front));
    }
  }

  /** A FIN sent behind the last byte is early exactly when it does not come next and something is missing. */
  lemma EarlyIff(peer: Peer, f: Flow, seg: Segment)
    requires PeerOk(peer) && Sound(peer, f) && FromPeer(peer, seg) && f.used && !seg.rst && f.state == Established
    requires seg.fin && Inc(seg.sseq, |seg.data|) == SeqAt(peer, |peer.stream|)
    ensures Early(peer, f, seg) <==> seg.sseq != f.rcvNxt && Passed(f) < |peer.stream|
  {
    if seg.sseq == f.rcvNxt {
      SeqNext(peer, Passed(f), |seg.data|);
      if seg.data != [] {
        var p: nat :| Stretch(peer, p, seg.data, seg.sseq);
        SeqUnique(peer, p, Passed(f));
        SeqUnique(peer, Passed(f) + |seg.data|, |peer.stream|);
      } else {
        SeqUnique(peer, Passed(f), |peer.stream|);
      }
    }
  }

  /** A FIN that overtakes the only byte of the stream: the connection is closed by the peer, and the byte is
      refused. */
  lemma OvertakenExample(b: byte)
    ensures var peer := Peer([b], 1);
            var events := [Arrive(Segment(0, 0, true, true, false, false, [])),
                Arrive(Segment(2, 0, false, true, true, false, [])),
                           Arrive(Segment(1, 0, false, true, false, false, [b]))];
            && (forall e :: e in events ==> EventFromPeer(peer, e))
            && After(0, events).state == CloseWait && Passed(After(0, events)) == 0
  {
    var e1, e2 := Arrive(Segment(0, 0, true, true, false, false, [])),
        Arrive(Segment(2, 0, false, true, true, false, []));
    var e3 := Arrive(Segment(1, 0, false, true, false, false, [b]));
    assert [e1, e2, e3][..2] == [e1, e2] && [e1, e2][..1] == [e1] && [e1][..0] == [];
    assert Stretch(Peer([b], 1), 0, [b], 1);
    var f := After(0, [e1]);
    assert f == Next(After(0, []), e1);
    assert f.state == Established && f.kept == [] && f.lost == 0;
    var g := After(0, [e1, e2]);
    assert g == Next(f, e2) && g.state == CloseWait && g.kept == [] && g.lost == 0;
  }

  /** A segment of 4096 bytes does not fit even an empty ring: it is acknowledged in full, and the stream is broken. */
  lemma OverflowExample(data: seq<byte>)
    requires |data| == 4096
    ensures var events := [Arrive(Segment(0, 0, true, true, false, false, [])),
      Arrive(Segment(1, 0, false, true, false, false, data))];
            && (forall e :: e in events ==> EventFromPeer(Peer(data, 1), e))
            && Drops(0, events) && Passed(After(0, events)) == 4096 && After(0, events).kept == data[..4095]
  {
    var e1, e2 := Arrive(Segment(0, 0, true, true, false, false, [])),
        Arrive(Segment(1, 0, false, true, false, false, data));
    assert [e1, e2][..1] == [e1] && [e1][..0] == [];
    assert Stretch(Peer(data, 1), 0, data, 1);
    var f := After(0, [e1]);
    assert f == Next(After(0, []), e1);
    assert f.state == Established && f.rcvNxt == 1 && f.kept == [];
  }

  // ---------------------------------------------------------------------------
  // One connection in memory
  // ---------------------------------------------------------------------------

  lemma Appended(delivered: seq<byte>, c: seq<byte>, d: seq<byte>)
    ensures delivered + (c + d) == (delivered + c) + d
  {}

  class Conn {
    var used: bool
    var state: ConnState
    var rcvNxt: nat
    var sndNxt: nat
    var finRecv: bool
    var rstRecv: bool
    const rx: Ring.Buffer
    const oooBuf: array<byte>
    var oooLen: nat
    var oooSeq: nat

    ghost var delivered: seq<byte>     // all that recv has returned
    ghost var lost: nat                // acknowledged bytes that found the ring full

    ghost predicate Valid()
      reads this, rx
    {
      rx.Valid() && rx.data.Length == RX_SIZE && oooBuf.Length == TX_SIZE && rx.data != oooBuf && oooLen <= TX_SIZE
    }

    ghost function F(): (f: Flow)
      requires Valid()
      reads this, rx, rx.data, oooBuf
      ensures f.read <= |f.kept| && Queued(f) == |rx.Contents()|
    {
      Flow(used, state, rcvNxt, sndNxt, finRecv, rstRecv, Slot(oooBuf[..oooLen], oooSeq), delivered + rx.Contents(),
          |delivered|, lost)
    }

    /** `net_tcp_connect` after the SYN is sent. */
    constructor (isn: nat)
      ensures Valid() && fresh(rx) && fresh(rx.data) && fresh(oooBuf) && F() == After(isn, []) && delivered == []
    {
      used, state, rcvNxt, sndNxt, finRecv, rstRecv := true, SynSent, 0, Inc(isn, 1), false, false;
      rx := new Ring.Buffer(RX_SIZE);
      oooBuf := new byte[TX_SIZE](_ => 0);
      oooLen, oooSeq := 0, 0;
      delivered, lost := [], 0;
    }

    /** `tcp_rx_push`, and the sequence number moved on. */
    method Push(data: seq<byte>)
      requires Valid()
      modifies this`rcvNxt, this`lost, rx, rx.data
      ensures Valid() && F() == Pushed(old(F()), data)
    {
      ghost var c := rx.Contents();
      Ring.Empty(rx.data[..], rx.first, rx.last);
      ghost var n := rx.Push(data);
      Appended(delivered, c, data[..n]);
      rcvNxt := Inc(rcvNxt, |data|);
      lost := lost + (|data| - n);
    }

    /** Keeps an out-of-order segment in the one slot. */
    method Keep(data: seq<byte>, sseq: nat)
      requires Valid() && |data| <= TX_SIZE
      modifies this`oooLen, this`oooSeq, oooBuf
      ensures Valid() && F() == old(F()).(slot := Slot(data, sseq))
    {
      for i := 0 to |data|
        invariant Valid() && oooBuf[..i] == data[..i] && rx.Contents() == old(rx.Contents())
      {
        oooBuf[i] := data[i];
      }
      oooLen, oooSeq := |data|, sseq;
    }

    /** The data part of `tcp_rx_process` in the established state. */
    method TakeData(seg: Segment)
      requires Valid()
      modifies this`rcvNxt, this`oooLen, this`oooSeq, this`lost, rx, rx.data, oooBuf
      ensures Valid() && F() == WithData(old(F()), seg)
    {
      if seg.sseq == rcvNxt {
        Push(seg.data);
        if oooLen > 0 && oooSeq == rcvNxt {
          Push(oooBuf[..oooLen]);
          oooLen := 0;
        }
      } else if seg.sseq > rcvNxt && |seg.data| <= TX_SIZE {
        if oooLen == 0 { Keep(seg.data, seg.sseq); }
      }
    }

    method TakeAck(sack: nat)
      requires Valid()
      modifies this`state, this`sndNxt
      ensures Valid() && F() == WithAck(old(F()), sack)
    {
      if state == FinWait1 && sack == sndNxt { state := FinWait2; } else { sndNxt := sack; }
    }

    /** The FIN takes a sequence number, and no data is accepted after it. */
    method TakeFin()
      requires Valid()
      modifies this`state, this`rcvNxt, this`finRecv
      ensures Valid() && F() == WithFin(old(F()))
    {
      rcvNxt := Inc(rcvNxt, 1);
      finRecv := true;
      state := if state == Established then CloseWait else TimeWait;
    }

    method Converse(seg: Segment)
      requires Valid()
      modifies this`state, this`finRecv, this`sndNxt, this`rcvNxt, this`oooLen, this`oooSeq, this`lost, rx, rx.data,
          oooBuf
      ensures Valid() && F() == Conversed(old(F()), seg)
    {
      if seg.ack { TakeAck(seg.sack); }
      if |seg.data| > 0 && state == Established { TakeData(seg); }
      if seg.fin { TakeFin(); }
    }

    method Release()
      requires Valid()
      modifies this`used, this`state
      ensures Valid() && F() == Released(old(F()))
    {
      used, state := false, Closed;
    }

    /** `tcp_rx_process` for a segment addressed to this connection. */
    method Process(seg: Segment)
      requires Valid()
      modifies this, rx, rx.data, oooBuf
      ensures Valid() && F() == Heard(old(F()), seg) && delivered == old(delivered)
    {
      if !used { return; }
      if seg.rst {
        rstRecv := true;
        Release();
        return;
      }
      if state == SynSent {
        if seg.syn && seg.ack { rcvNxt, sndNxt, state := Inc(seg.sseq, 1), seg.sack, Established; }
      } else if state == Established || state == FinWait1 || state == FinWait2 {
        Converse(seg);
      } else if state == LastAck {
        if seg.ack { Release(); }
      }
    }

    /** `net_poll_once`, with the segments it finds for this connection. */
    method Poll(segs: seq<Segment>)
      requires Valid()
      modifies this, rx, rx.data, oooBuf
      ensures Valid() && F() == HeardAll(old(F()), segs) && delivered == old(delivered)
    {
      for i := 0 to |segs|
        invariant Valid() && F() == HeardAll(old(F()), segs[..i]) && delivered == old(delivered)
      {
        assert segs[..i + 1][..i] == segs[..i];
        Process(segs[i]);
      }
      assert segs[..|segs|] == segs;
    }

    /** Hands out up to `max` bytes of the ring. */
    method Take(max: nat) returns (out: seq<byte>)
      requires Valid()
      modifies rx, this`delivered
      ensures Valid() && F() == Taken(old(F()), max) && delivered == old(delivered) + out
    {
      ghost var c := rx.Contents();
      out := rx.Take(max);
      Appended(delivered, out, rx.Contents());
      delivered := delivered + out;
    }

    /** `net_tcp_recv`: polls until there is data, the connection is at its end or the deadline has passed (no polls
        left). */
    method Recv(max: nat, polls: seq<seq<Segment>>) returns (r: int, out: seq<byte>)
      requires Valid()
      modifies this, rx, rx.data, oooBuf
      ensures Valid() && F() == Received(old(F()), max, polls) && delivered == old(delivered) + out
      ensures r == if old(used) then |out| else -1
    {
      out := [];
      if !used { return -1, []; }
      ghost var f := F();
      for i := 0 to |polls|
        invariant Valid() && delivered == old(delivered)
        invariant Awaited(F(), polls[i..]) == Awaited(f, polls)
        invariant i > 0 ==> Queued(F()) == 0
      {
        Poll(polls[i]);
        assert polls[i..][0] == polls[i] && polls[i..][1..] == polls[i + 1..];
        Ring.Empty(rx.data[..], rx.first, rx.last);
        if rx.first != rx.last {
          out := Take(max);
          return |out|, out;
        }
        if finRecv || state == CloseWait || state == Closed || !used { return 0, []; }
      }
      return 0, [];
    }

    /** `net_tcp_close`: the FIN, polling for the answer until the deadline, then the descriptor is free. */
    method CloseDown(polls: seq<seq<Segment>>)
      requires Valid()
      modifies this, rx, rx.data, oooBuf
      ensures Valid() && F() == Shut(old(F()), polls) && delivered == old(delivered)
    {
      if !used { return; }
      if state == Established || state == CloseWait {
        sndNxt := Inc(sndNxt, 1);
        state := if state == Established then FinWait1 else LastAck;
        AwaitClose(polls);
      }
      Release();
    }

    method AwaitClose(polls: seq<seq<Segment>>)
      requires Valid() && used && !Finished(F())
      modifies this, rx, rx.data, oooBuf
      ensures Valid() && Released(F()) == ClosedDown(old(F()), polls) && delivered == old(delivered)
    {
      ghost var f := F();
      var i := 0;
      while i < |polls| && used
        invariant 0 <= i <= |polls| && Valid() && delivered == old(delivered) && (used ==> !Finished(F()))
        invariant ClosedDown(F(), polls[i..]) == ClosedDown(f, polls)
      {
        assert polls[i..][0] == polls[i] && polls[i..][1..] == polls[i + 1..];
        Poll(polls[i]);
        i := i + 1;
        if state == TimeWait || state == Closed { break; }
      }
    }
  }

  /** Whatever arrives, lost, repeated or reordered, and whenever it is read: the connection is as folded over the
      events, the program has read the bytes that entered the ring, in order, and these are the acknowledged part of the
      peer's stream if and only if no segment brought more than the ring had room for. */
  method Drive(ghost peer: Peer, isn: nat, events: seq<Event>) returns (out: seq<byte>, c: Conn)
    requires PeerOk(peer) && forall e :: e in events ==> EventFromPeer(peer, e)
    ensures c.Valid() && c.F() == After(isn, events) && c.delivered == out
    ensures Passed(After(isn, events)) <= |peer.stream|
    ensures out + c.rx.Contents() == peer.stream[..Passed(After(isn, events))] <==> !Drops(isn, events)
    ensures !Drops(isn, events) ==> out <= peer.stream
    ensures |peer.stream| < RX_SIZE ==> !Drops(isn, events)
  {
    c := new Conn(isn);
    out := [];
    for i := 0 to |events|
      invariant c.Valid() && c.F() == After(isn, events[..i]) && c.delivered == out
      invariant fresh(c) && fresh(c.rx) && fresh(c.rx.data) && fresh(c.oooBuf)
    {
      assert events[..i + 1][..i] == events[..i];
      var got := Happen(c, events[i]);
      out := out + got;
    }
    assert events[..|events|] == events;
    Delivery(peer, isn, events, out, c.rx.Contents());
  }

  lemma Delivery(peer: Peer, isn: nat, events: seq<Event>, out: seq<byte>, ring: seq<byte>)
    requires PeerOk(peer) && (forall e :: e in events ==> EventFromPeer(peer, e))
      && out + ring == After(isn, events).kept
    ensures Passed(After(isn, events)) <= |peer.stream|
    ensures out + ring == peer.stream[..Passed(After(isn, events))] <==> !Drops(isn, events)
    ensures !Drops(isn, events) ==> out <= peer.stream
    ensures |peer.stream| < RX_SIZE ==> !Drops(isn, events)
  {
    InOrder(peer, isn, events);
    RunLost(isn, events);
    if !Drops(isn, events) { assert out == (out + ring)[..|out|]; }
    if |peer.stream| < RX_SIZE { ShortStream(peer, isn, events); }
  }

  method Happen(c: Conn, e: Event) returns (got: seq<byte>)
    requires c.Valid()
    modifies c, c.rx, c.rx.data, c.oooBuf
    ensures c.Valid() && c.F() == Next(old(c.F()), e) && c.delivered == old(c.delivered) + got
  {
    got := [];
    match e
    case Arrive(seg) => c.Process(seg);
    case Read(max, polls) =>
      var r;
      r, got := c.Recv(max, polls);
    case Close(polls) => c.CloseDown(polls);
    case Drop => c.Release();
  }
}
