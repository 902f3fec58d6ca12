/** Copy-on-write accounting over the live translations, apart from how tables store them. */
module Cow {
  import opened Numbers
  import opened Paging

  /** A page of a live address space. */
  datatype Key = Key(r: nat, x: Ix)

  /** The present 4KB entries of all live address spaces. */
  type Trans = imap<Key, Word>

  /** Pages below 1GB: the only ones fork and teardown look at. */
  predicate Low(x: Ix) { x.a == 0 && x.b == 0 }

  ghost function Sharers(procs: set<nat>, m: Trans, x: Ix, f: nat): set<nat> {
    set r | r in procs && Key(r, x) in m && m[Key(r, x)].pfn == f
  }

  ghost predicate LeafOk(procs: set<nat>, m: Trans, k: Key) {
    k in m ==>
      && k.r in procs
      && Managed(m[k].pfn)
      && (m[k] == Entry(m[k].pfn, 7) || (m[k] == Entry(m[k].pfn, 0x205) && Low(k.x)))
  }

  /** A frame sits at one virtual page only, and a writable entry is alone on its frame. */
  ghost predicate PairOk(m: Trans, k: Key, l: Key) {
    k in m && l in m && m[k].pfn == m[l].pfn ==> k.x == l.x && (m[k].rw ==> k == l)
  }

  ghost predicate CountOk(procs: set<nat>, m: Trans, cow: seq<nat>, x: Ix, f: nat) {
    f < |cow| && |Sharers(procs, m, x, f)| >= 2 ==> cow[f] >= |Sharers(procs, m, x, f)|
  }

  ghost predicate CowOk(procs: set<nat>, m: Trans, cow: seq<nat>) {
    && |cow| == TOTAL_FRAMES
    && (forall f :: 0 <= f < |cow| ==> cow[f] <= 255)
    && (forall k :: LeafOk(procs, m, k))
    && (forall k, l :: PairOk(m, k, l))
    && (forall x, f :: CountOk(procs, m, cow, x, f))
  }

  /** No live address space maps `f`. */
  ghost predicate Unshared(m: Trans, f: nat) {
    forall k :: k in m ==> m[k].pfn != f
  }

  /** Mapping a fresh frame writable keeps the accounting. */
  lemma MapFresh(procs: set<nat>, m: Trans, cow: seq<nat>, k: Key, f: nat)
    requires CowOk(procs, m, cow) && k.r in procs && Managed(f) && Unshared(m, f)
    ensures CowOk(procs, m[k := Entry(f, 7)], cow)
  {
    var m' := m[k := Entry(f, 7)];
    forall l ensures LeafOk(procs, m', l) { assert LeafOk(procs, m, l); }
    forall l, n ensures PairOk(m', l, n) { assert PairOk(m, l, n); }
    forall x, g ensures CountOk(procs, m', cow, x, g) {
      assert CountOk(procs, m, cow, x, g);
      if g == f {
        assert Sharers(procs, m', x, g) <= {k.r};
        SubsetCard(Sharers(procs, m', x, g), {k.r});
      } else {
        assert Sharers(procs, m', x, g) <= Sharers(procs, m, x, g);
        SubsetCard(Sharers(procs, m', x, g), Sharers(procs, m, x, g));
      }
    }
  }

  /** An address space without pages adds no sharer. */
  lemma MoreProcs(procs: set<nat>, m: Trans, cow: seq<nat>, r: nat)
    requires CowOk(procs, m, cow) && r !in procs
    ensures CowOk(procs + {r}, m, cow)
  {
    forall l ensures LeafOk(procs + {r}, m, l) { assert LeafOk(procs, m, l); }
    forall x, g ensures CountOk(procs + {r}, m, cow, x, g) {
      assert LeafOk(procs, m, Key(r, x));
      assert CountOk(procs, m, cow, x, g);
      assert Sharers(procs + {r}, m, x, g) == Sharers(procs, m, x, g);
    }
  }

  /** Write-protecting an entry and raising the counter of its frame are both harmless. */
  lemma Protect(procs: set<nat>, m: Trans, cow: seq<nat>, k: Key, c: nat)
    requires CowOk(procs, m, cow) && k in m && Low(k.x) && m[k].pfn < |cow| && cow[m[k].pfn] <= c <= 255
    ensures CowOk(procs, m[k := Entry(m[k].pfn, 0x205)], cow[m[k].pfn := c])
  {
    var f := m[k].pfn;
    var m', cow' := m[k := Entry(f, 0x205)], cow[f := c];
    forall l ensures LeafOk(procs, m', l) { assert LeafOk(procs, m, l); }
    forall l, n ensures PairOk(m', l, n) { assert PairOk(m, l, n); }
    forall x, g ensures CountOk(procs, m', cow', x, g) {
      assert CountOk(procs, m, cow, x, g);
      assert Sharers(procs, m', x, g) == Sharers(procs, m, x, g);
    }
  }

  /** `frame_cow_cnt[fn]` after one more sharer (vmm.c:441-445). */
  function Bump(c: nat): nat { if c < 254 then c + 2 else 255 }

  /** Counting a page shared once more: one more sharer, at least two more on the counter. */
  lemma ShareCount(procs: set<nat>, m: Trans, cow: seq<nat>, p: nat, c: nat, x: Ix, f: nat, y: Ix, g: nat)
    requires CountOk(procs, m, cow, y, g) && |procs| <= 255 && f < |cow| && cow[f] <= 255
    requires p in procs && c in procs && p != c && Key(c, x) !in m && Key(p, x) in m && m[Key(p, x)].pfn == f
    ensures CountOk(procs, m[Key(p, x) := Entry(f, 0x205)][Key(c, x) := Entry(f, 0x205)], cow[f := Bump(cow[f])], y, g)
  {
    var m' := m[Key(p, x) := Entry(f, 0x205)][Key(c, x) := Entry(f, 0x205)];
    var sh, sh' := Sharers(procs, m, y, g), Sharers(procs, m', y, g);
    if y == x && g == f {
      assert sh' == sh + {c};
      SubsetCard(sh', procs);
      SubsetCard({p}, sh);
    } else {
      assert sh' == sh;
    }
  }

  /** Fork's treatment of one page: both entries become read-only copy-on-write, the counter goes up by two. */
  lemma SharePage(procs: set<nat>, m: Trans, cow: seq<nat>, p: nat, c: nat, x: Ix)
    requires CowOk(procs, m, cow) && |procs| <= 255
    requires p in procs && c in procs && p != c && Low(x)
    requires Key(p, x) in m && Key(c, x) !in m
    ensures
      var f := m[Key(p, x)].pfn;
      f < |cow| && CowOk(procs, m[Key(p, x) := Entry(f, 0x205)][Key(c, x) := Entry(f, 0x205)], cow[f := Bump(cow[f])])
  {
    var kp := Key(p, x);
    assert LeafOk(procs, m, kp);
    var f := m[kp].pfn;
    var m' := m[kp := Entry(f, 0x205)][Key(c, x) := Entry(f, 0x205)];
    var cow' := cow[f := Bump(cow[f])];
    forall l ensures LeafOk(procs, m', l) { assert LeafOk(procs, m, l); }
    forall l, n ensures PairOk(m', l, n) {
      assert PairOk(m, l, n) && PairOk(m, kp, n) && PairOk(m, l, kp) && PairOk(m, n, kp);
    }
    forall y, g ensures CountOk(procs, m', cow', y, g) {
      assert CountOk(procs, m, cow, y, g);
      if 0 <= g { ShareCount(procs, m, cow, p, c, x, f, y, g); }
    }
  }

  /** The counter of a frame that `n` forks have shared, from the start. */
  function Raised(n: nat): nat { if n == 0 then 0 else Bump(Raised(n - 1)) }

  lemma {:induction false} RaisedIs(n: nat)
    ensures Raised(n) == if n <= 127 then 2 * n else 255
  {
    if n > 0 { RaisedIs(n - 1); }
  }

  /** Of the n + 1 sharers that n forks make, n write and copy; the last one keeps the frame without a copy exactly when
      there was one fork, or when the counter had stuck and 254 writers took it down to 1. */
  lemma LastWriter(n: nat, k: nat)
    requires k <= n && 1 <= n <= 254
    ensures Raised(n) >= n
    ensures Raised(n) - k <= 1 <==> k == n && (n == 1 || n == 254)
  {
    RaisedIs(n);
  }

  /** A write fault that copies: the page moves to a fresh frame and the old frame loses a sharer. */
  lemma FaultCopy(procs: set<nat>, m: Trans, cow: seq<nat>, k: Key, g: nat)
    requires CowOk(procs, m, cow) && k in m && Managed(g) && Unshared(m, g)
    requires m[k].pfn < |cow| && cow[m[k].pfn] > 1
    ensures CowOk(procs, m[k := Entry(g, 7)], cow[m[k].pfn := cow[m[k].pfn] - 1])
  {
    var f := m[k].pfn;
    assert LeafOk(procs, m, k);
    MapFresh(procs, m, cow, k, g);
    var m' := m[k := Entry(g, 7)];
    var cow' := cow[f := cow[f] - 1];
    forall x, h ensures CountOk(procs, m', cow', x, h) {
      assert CountOk(procs, m', cow, x, h) && CountOk(procs, m, cow, x, h);
      if h == f {
        if x == k.x {
          assert k.r in Sharers(procs, m, x, h);
          assert Sharers(procs, m', x, h) == Sharers(procs, m, x, h) - {k.r};
        } else {
          forall r | r in Sharers(procs, m', x, h) ensures false {
            assert PairOk(m, Key(r, x), k);
          }
          assert Sharers(procs, m', x, h) == {};
        }
      }
    }
  }

  /** With the counter at most one there is no other sharer, so the entry may become writable in place. */
  lemma FaultOwn(procs: set<nat>, m: Trans, cow: seq<nat>, k: Key)
    requires CowOk(procs, m, cow) && k in m
    requires m[k].pfn < |cow| && cow[m[k].pfn] <= 1
    ensures CowOk(procs, m[k := Entry(m[k].pfn, 7)], cow)
  {
    var f := m[k].pfn;
    assert LeafOk(procs, m, k);
    var m' := m[k := Entry(f, 7)];
    forall l ensures LeafOk(procs, m', l) { assert LeafOk(procs, m, l); }
    forall l, n ensures PairOk(m', l, n) {
      assert PairOk(m, l, n);
      if l in m && n in m && m[l].pfn == m[n].pfn == f {
        assert PairOk(m, k, n) && PairOk(m, k, l);
        if n != k { SoleSharer(procs, m, cow, k, n); }
        if l != k { SoleSharer(procs, m, cow, k, l); }
      }
    }
    forall x, h ensures CountOk(procs, m', cow, x, h) {
      assert CountOk(procs, m, cow, x, h);
      assert Sharers(procs, m', x, h) == Sharers(procs, m, x, h);
    }
  }

  lemma SoleSharer(procs: set<nat>, m: Trans, cow: seq<nat>, k: Key, n: Key)
    requires CowOk(procs, m, cow) && k in m && n in m && m[n].pfn == m[k].pfn && n != k
    ensures m[k].pfn < |cow| && cow[m[k].pfn] > 1
  {
    assert LeafOk(procs, m, k) && LeafOk(procs, m, n) && PairOk(m, k, n);
    var sh := Sharers(procs, m, k.x, m[k].pfn);
    assert k.r != n.r;
    assert {k.r, n.r} <= sh;
    SubsetCard({k.r, n.r}, sh);
    assert CountOk(procs, m, cow, k.x, m[k].pfn);
  }

  // ---------------------------------------------------------------------------
  // Teardown
  // ---------------------------------------------------------------------------

  /** The translations left when `r` is gone. */
  ghost function Without(m: Trans, r: nat): Trans {
    imap k | k in m && k.r != r :: m[k]
  }

  /** What the counter of a frame still owed to a dying page guarantees: one more than the sharers that stay. */
  ghost predicate Slack(procs: set<nat>, m: Trans, cow: seq<nat>, x: Ix, f: nat) {
    f < |cow| && |Sharers(procs, m, x, f)| >= 1 ==> cow[f] >= |Sharers(procs, m, x, f)| + 1
  }

  lemma Drop(procs: set<nat>, m: Trans, cow: seq<nat>, r: nat)
    requires CowOk(procs, m, cow) && r in procs
    ensures CowOk(procs - {r}, Without(m, r), cow)
    ensures forall x :: Key(r, x) in m ==> Slack(procs - {r}, Without(m, r), cow, x, m[Key(r, x)].pfn)
  {
    var procs', m' := procs - {r}, Without(m, r);
    forall l ensures LeafOk(procs', m', l) { assert LeafOk(procs, m, l); }
    forall l, n ensures PairOk(m', l, n) { assert PairOk(m, l, n); }
    forall x, f ensures CountOk(procs', m', cow, x, f) {
      assert CountOk(procs, m, cow, x, f);
      SubsetCard(Sharers(procs', m', x, f), Sharers(procs, m, x, f));
    }
    forall x | Key(r, x) in m ensures Slack(procs', m', cow, x, m[Key(r, x)].pfn) {
      var f := m[Key(r, x)].pfn;
      assert CountOk(procs, m, cow, x, f);
      assert r in Sharers(procs, m, x, f);
      assert Sharers(procs', m', x, f) == Sharers(procs, m, x, f) - {r};
    }
  }

  /** Releasing one dying page that still has a positive counter. */
  lemma ReleaseCounted(procs: set<nat>, m: Trans, cow: seq<nat>, x: Ix, f: nat)
    requires CowOk(procs, m, cow) && Slack(procs, m, cow, x, f)
    requires f < |cow| && cow[f] > 0
    requires forall k :: k in m && m[k].pfn == f ==> k.x == x
    ensures CowOk(procs, m, cow[f := cow[f] - 1])
  {
    var cow' := cow[f := cow[f] - 1];
    forall y, g ensures CountOk(procs, m, cow', y, g) {
      assert CountOk(procs, m, cow, y, g);
      if g == f && y != x {
        assert Sharers(procs, m, y, g) == {};
      }
    }
  }

  /** A dying page whose counter is zero has a frame nobody else maps. */
  lemma ReleaseLast(procs: set<nat>, m: Trans, cow: seq<nat>, x: Ix, f: nat)
    requires CowOk(procs, m, cow) && Slack(procs, m, cow, x, f)
    requires f < |cow| && cow[f] == 0
    requires forall k :: k in m && m[k].pfn == f ==> k.x == x
    ensures Unshared(m, f)
  {
    forall k | k in m && m[k].pfn == f ensures false {
      assert LeafOk(procs, m, k);
      SubsetCard({k.r}, Sharers(procs, m, x, f));
    }
  }
}
