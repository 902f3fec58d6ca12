/** What fork, write faults and teardown do to the copy-on-write counters, exactly. */
module Counters {
  import opened Paging
  import opened Cow
  import opened Spaces
  import opened Steps
  import opened Teardown

  /** Which frame each page of an address space is in, below 1GB. */
  type Frames = imap<Ix, nat>

  ghost function FramesIn(m: Trans, p: nat): Frames {
    imap y | Low(y) && Key(p, y) in m :: m[Key(p, y)].pfn
  }

  ghost function FramesOf(s: State, role: Roles, p: nat): Frames { FramesIn(TransOf(s.mem, role), p) }

  /** Frame g holds one of the pages before slot (i, j). */
  ghost predicate Hit(fr: Frames, i: nat, j: nat, g: nat) { exists y :: y in fr && Before(y, i, j) && fr[y] == g }

  /** The counters with those of the frames of these pages raised. */
  ghost function Bumped(fr: Frames, cow: seq<nat>, i: nat, j: nat): (r: seq<nat>)
    ensures |r| == |cow|
  {
    seq(|cow|, g requires 0 <= g < |cow| => if Hit(fr, i, j, g) then Bump(cow[g]) else cow[g])
  }

  /** No frame holds two pages. */
  ghost predicate OneEach(fr: Frames) {
    (forall y :: y in fr ==> Low(y)) && forall x, y :: x in fr && y in fr && fr[x] == fr[y] ==> x == y
  }

  lemma FramesOneEach(s: State, role: Roles, p: nat)
    requires Inv(s, role)
    ensures OneEach(FramesOf(s, role, p))
  {
    var m, fr := TransOf(s.mem, role), FramesOf(s, role, p);
    forall x, y | x in fr && y in fr && fr[x] == fr[y] ensures x == y { assert PairOk(m, Key(p, x), Key(p, y)); }
  }

  /** The same pages before both slots. */
  lemma BumpedSame(fr: Frames, cow: seq<nat>, i: nat, j: nat, i': nat, j': nat)
    requires forall y :: y in fr ==> Before(y, i, j) == Before(y, i', j')
    ensures Bumped(fr, cow, i, j) == Bumped(fr, cow, i', j')
  {
    forall g ensures Hit(fr, i, j, g) == Hit(fr, i', j', g) {}
  }

  lemma BumpedStart(fr: Frames, cow: seq<nat>)
    ensures Bumped(fr, cow, 0, 0) == cow
  {}

  /** One page more. */
  lemma BumpedNext(fr: Frames, cow: seq<nat>, i: Index, j: Index, f: nat)
    requires OneEach(fr) && Ix(0, 0, i, j) in fr && fr[Ix(0, 0, i, j)] == f < |cow|
    ensures Bumped(fr, cow, i, j + 1) == Bumped(fr, cow, i, j)[f := Bump(Bumped(fr, cow, i, j)[f])]
  {
    var x := Ix(0, 0, i, j);
    var a, b := Bumped(fr, cow, i, j + 1), Bumped(fr, cow, i, j)[f := Bump(Bumped(fr, cow, i, j)[f])];
    forall g | 0 <= g < |cow| ensures a[g] == b[g] { HitNext(fr, x, i, j, g); }
  }

  lemma HitNext(fr: Frames, x: Ix, i: Index, j: Index, g: nat)
    requires OneEach(fr) && x == Ix(0, 0, i, j) && x in fr
    ensures Hit(fr, i, j + 1, g) <==> Hit(fr, i, j, g) || g == fr[x]
    ensures !Hit(fr, i, j, fr[x])
  {
    assert Before(x, i, j + 1);
    forall y | y in fr && Before(y, i, j + 1) && !Before(y, i, j) ensures y == x {}
    forall y | y in fr && Before(y, i, j) ensures Before(y, i, j + 1) {}
  }

  /** Since state s0, fork raised the counters of the pages of p before slot (i, j), and no other; the pages are where
      they were. */
  ghost predicate Raises(s0: State, r0: Roles, s: State, role: Roles, p: nat, i: nat, j: nat) {
    && FramesOf(s, role, p) == FramesOf(s0, r0, p)
    && s.cow == Bumped(FramesOf(s0, r0, p), s0.cow, i, j)
  }

  /** A fork that began in state s0. */
  ghost predicate Forking(s0: State, r0: Roles, s: State, role: Roles, p: nat, i: nat, j: nat) {
    Inv(s0, r0) && Raises(s0, r0, s, role, p, i, j)
  }

  lemma RaisesStart(s: State, role: Roles, p: nat)
    ensures Raises(s, role, s, role, p, 0, 0)
  {
    BumpedStart(FramesOf(s, role, p), s.cow);
  }

  /** A step that leaves the translations and the counters alone may come first. */
  lemma RaisesAfter(s: State, role: Roles, s0: State, r0: Roles, s': State, role': Roles, p: nat, i: nat, j: nat)
    requires TransOf(s0.mem, r0) == TransOf(s.mem, role) && s0.cow == s.cow && Raises(s0, r0, s', role', p, i, j)
    ensures Raises(s, role, s', role', p, i, j)
  {}

  /** On to a later slot, with no page of p between. */
  lemma RaisesOn(s0: State, r0: Roles, s: State, role: Roles, p: nat, i: nat, j: nat, i': nat, j': nat)
    requires Raises(s0, r0, s, role, p, i, j)
    requires forall y :: y in FramesOf(s, role, p) ==> Before(y, i, j) == Before(y, i', j')
    ensures Raises(s0, r0, s, role, p, i', j')
  {
    BumpedSame(FramesOf(s0, r0, p), s0.cow, i, j, i', j');
  }

  /** Fork's treatment of one page, with its counter. */
  ghost predicate Counts(s: State, role: Roles, s': State, role': Roles, p: nat, x: Ix) {
    var fr := FramesOf(s, role, p);
    && x in fr && fr[x] < |s.cow| && FramesOf(s', role', p) == fr
    && s'.cow == s.cow[fr[x] := Bump(s.cow[fr[x]])]
  }

  lemma RaisesPage(s0: State, r0: Roles, s: State, role: Roles, s': State, role': Roles, p: nat, i: Index, j: Index)
    requires Inv(s0, r0) && Raises(s0, r0, s, role, p, i, j) && Counts(s, role, s', role', p, Ix(0, 0, i, j))
    ensures Raises(s0, r0, s', role', p, i, j + 1)
  {
    var fr := FramesOf(s0, r0, p);
    FramesOneEach(s0, r0, p);
    BumpedNext(fr, s0.cow, i, j, fr[Ix(0, 0, i, j)]);
  }

  /** Protecting an entry of p, or mapping a page of another address space, moves no page of p. */
  lemma FramesKept(m: Trans, p: nat, c: nat, x: Ix, f: nat, m': Trans)
    requires p != c && Key(p, x) in m && m[Key(p, x)].pfn == f
    requires var m1 := m[Key(p, x) := Entry(f, 0x205)]; m' == m1 || m' == m1[Key(c, x) := Entry(f, 0x205)]
    ensures FramesIn(m', p) == FramesIn(m, p)
  {}

  /** Fork's treatment of one page, between states. */
  lemma ShareCounts(s: State, role: Roles, s1: State, s2: State, role2: Roles, p: nat, c: nat, x: Ix, ok: bool,
      s3: State)
    requires Inv(s, role) && p != c && Low(x) && Key(p, x) in TransOf(s.mem, role)
    requires PtOf(s.mem, p, x).Some? && PtOf(s.mem, p, x).value < TOTAL_FRAMES
    requires var f := TransOf(s.mem, role)[Key(p, x)].pfn;
      && s1 == Store(s, PtOf(s.mem, p, x).value, x.d, Entry(f, 0x205))
      && (if ok then MapsPage(s1, role, s2, role2, c, x, Entry(f, 0x205)) else Grows(s1, role, s2, role2))
      && f < |s2.cow| && s3 == s2.(cow := s2.cow[f := Bump(s2.cow[f])])
    ensures Counts(s, role, s3, role2, p, x)
  {
    var m, f := TransOf(s.mem, role), TransOf(s.mem, role)[Key(p, x)].pfn;
    Reflag(s, role, p, x, Entry(f, 0x205));
    FramesKept(m, p, c, x, f, TransOf(s2.mem, role2));
  }

  /** A slot without an entry. */
  lemma RaisesSkip(s0: State, r0: Roles, s: State, role: Roles, p: nat, i: Index, j: Index)
    requires Inv(s, role) && p in Procs(role) && PtOf(s.mem, p, Ix(0, 0, i, j)).Some?
    requires var e := At(s.mem, PtOf(s.mem, p, Ix(0, 0, i, j)).value, j); !(e.p && e.pfn >= RESERVED)
    requires Raises(s0, r0, s, role, p, i, j)
    ensures Raises(s0, r0, s, role, p, i, j + 1)
  {
    var x := Ix(0, 0, i, j);
    TransAt(s, role, p, x);
    assert LeafOk(Procs(role), TransOf(s.mem, role), Key(p, x));
    forall y | y in FramesOf(s, role, p) ensures Before(y, i, j) == Before(y, i, j + 1) { assert y != x; }
    RaisesOn(s0, r0, s, role, p, i, j, i, j + 1);
  }

  /** A finished or missing table: on to the next directory slot. */
  lemma RaisesRow(s0: State, r0: Roles, s: State, role: Roles, p: nat, i: Index, j: nat)
    requires Raises(s0, r0, s, role, p, i, j)
    requires j == 512 || forall d: Index :: Key(p, Ix(0, 0, i, d)) !in TransOf(s.mem, role)
    ensures Raises(s0, r0, s, role, p, i + 1, 0)
  {
    forall y | y in FramesOf(s, role, p) ensures Before(y, i, j) == Before(y, i + 1, 0) {
      if y.c == i { assert y == Ix(0, 0, i, y.d); }
    }
    RaisesOn(s0, r0, s, role, p, i, j, i + 1, 0);
  }

  lemma RaisesNoPages(s: State, role: Roles, p: nat)
    requires p in Procs(role) && p in ViewOf(s, role) && forall y :: Low(y) ==> y !in ViewOf(s, role)[p]
    ensures Raises(s, role, s, role, p, 512, 0)
  {
    forall y | Low(y) ensures Key(p, y) !in TransOf(s.mem, role) { ViewAt(s, role, p, y); }
    RaisesStart(s, role, p);
    RaisesOn(s, role, s, role, p, 0, 0, 512, 0);
  }

  // ---------------------------------------------------------------------------
  // A page shared once
  // ---------------------------------------------------------------------------

  /** A and B have page x in one frame. */
  ghost predicate Share(s: State, role: Roles, a: nat, b: nat, x: Ix, f: nat) {
    var m := TransOf(s.mem, role);
    && a != b && Low(x) && Key(a, x) in m && Key(b, x) in m && m[Key(a, x)].pfn == m[Key(b, x)].pfn == f
    && f < |s.cow|
  }

  /** A fork raises the counter of a page that was never shared to 2. */
  lemma RaisedToTwo(s: State, role: Roles, s': State, role': Roles, p: nat, x: Ix, f: nat)
    requires Raises(s, role, s', role', p, 512, 0) && Low(x) && Key(p, x) in TransOf(s.mem, role)
    requires TransOf(s.mem, role)[Key(p, x)].pfn == f < |s.cow| && s.cow[f] == 0
    ensures |s'.cow| == |s.cow| && s'.cow[f] == 2
  {
    var fr := FramesOf(s, role, p);
    assert x in fr && Before(x, 512, 0) && fr[x] == f;
    assert Hit(fr, 512, 0, f);
  }

  /** A frame that holds no page of the forking address space keeps its counter. */
  lemma NotRaised(s: State, role: Roles, s': State, role': Roles, p: nat, g: nat)
    requires Raises(s, role, s', role', p, 512, 0) && g < |s.cow| && g !in FramesOf(s, role, p).Values
    ensures |s'.cow| == |s.cow| && s'.cow[g] == s.cow[g]
  {}

  /** Then whoever writes first copies the page, and the other one keeps the frame and needs none. */
  lemma SecondWriter(s: State, role: Roles, s': State, a: nat, b: nat, x: Ix, f: nat)
    requires Share(s, role, a, b, x, f) && s.cow[f] == 2 && Serves(s, role, s', a, x)
    ensures Alone(s', role, b, x) && TransOf(s'.mem, role)[Key(b, x)].pfn == f && s'.cow[f] == 1
  {}

  /** If instead one of them ends, the other one keeps the frame and needs none either. */
  lemma SurvivorWrites(s: State, role: Roles, s': State, role': Roles, a: nat, b: nat, x: Ix, f: nat)
    requires Share(s, role, a, b, x, f) && s.cow[f] == 2 && Destroys(s, role, s', role', a)
    ensures Key(b, x) in TransOf(s'.mem, role') && TransOf(s'.mem, role')[Key(b, x)].pfn == f
    ensures s'.cow[f] == 1 && s'.used[f] && Alone(s', role', b, x)
  {
    RetireTrans(s, role, a);
    MappedOk(s, role, Key(a, x));
    assert Released(s, role, s', a, x) && OnlyOwned(s, role, s', a, f);
  }

  /** If both end without writing, the frame stays taken although its counter is 0 and nobody has it: the counter went
      up by two for the two of them, and each of them only counts it down. */
  lemma LostFrame(s: State, role: Roles, s1: State, role1: Roles, s2: State, role2: Roles, a: nat, b: nat, x: Ix,
      f: nat)
    requires Share(s, role, a, b, x, f) && s.cow[f] == 2
    requires Destroys(s, role, s1, role1, a) && Destroys(s1, role1, s2, role2, b)
    ensures s2.used[f] && s2.cow[f] == 0 && f !in role2
  {
    SurvivorWrites(s, role, s1, role1, a, b, x, f);
    MappedOk(s1, role1, Key(b, x));
    assert Released(s1, role1, s2, b, x) && OnlyOwned(s1, role1, s2, b, f);
  }
}
