/** `draw_line` of src/kernel/graphics.c: Bresenham's line. */
module Line {
  import opened Numbers

  datatype Point = Point(x: int, y: int)

  function Abs(v: int): nat { if v < 0 then -v else v }

  function Max(a: nat, b: nat): nat { if a >= b then a else b }

  /** After i steps in x and j steps in y: twice the distance from the true line, measured in the long axis, is at most
      its length. */
  predicate Near(dx: nat, dy: nat, i: nat, j: nat) {
    2 * Abs(dx * j - dy * i) <= Max(dx, dy)
  }

  /** The deviation, as the loop accumulates it. */
  function Dev(dx: nat, dy: nat, i: nat, j: nat): int { Times(dx, j) - Times(dy, i) }

  lemma DevIs(dx: nat, dy: nat, i: nat, j: nat)
    ensures Dev(dx, dy, i, j) == dx * j - dy * i
  {
    TimesIs(dx, j);
    TimesIs(dy, i);
  }

  /** `err` is the deviation plus dx - dy, the long axis advances every time, and a diagonal stays a diagonal. */
  predicate Tracks(dx: nat, dy: nat, i: nat, j: nat, k: nat, err: int) {
    err == Dev(dx, dy, i, j) + dx - dy && 2 * Abs(Dev(dx, dy, i, j)) <= Max(dx, dy)
    && (if dx >= dy then i == k else j == k)
    && (dx == dy ==> i == j)
  }

  /** The two tests of the loop body take the step that stays nearest. */
  lemma StepTracks(dx: nat, dy: nat, i: nat, j: nat, k: nat, err: int)
    requires Tracks(dx, dy, i, j, k, err) && Max(dx, dy) > 0
    ensures Tracks(dx, dy, if 2 * err > 0 - dy as int then i + 1 else i, if 2 * err < dx then j + 1
      else j, k + 1, NextErr(dx, dy, err))
  {}

  /** Near the line, the end of the long axis is the end of the short one. */
  lemma EndTogether(a: nat, b: nat, n: nat)
    requires a > 0 && 2 * Abs(a * n - b * a) <= a
    ensures n == b
  {
    var d := n - b;
    assert a * n - b * a == a * d;
    MulSign(d, a);
  }

  /** Near the line, the short axis does not overshoot. */
  lemma NoOvershoot(a: nat, b: nat, i: nat, j: nat)
    requires a > 0 && i <= a && 2 * (a * j - b * i) <= a
    ensures j <= b
  {
    assert b * i <= b * a by { MulMono(b, i, a); }
    var d := j - b;
    assert a * j == a * b + a * d;
    MulSign(d, a);
  }

  lemma Inside(dx: nat, dy: nat, i: nat, j: nat, k: nat, err: int)
    requires Tracks(dx, dy, i, j, k, err) && k <= Max(dx, dy)
    ensures i <= dx && j <= dy && (i == dx && j == dy <==> k == Max(dx, dy))
    ensures Near(dx, dy, i, j) && Abs(err) <= 2 * Max(dx, dy)
  {
    DevIs(dx, dy, i, j);
    if dx >= dy {
      if dx > 0 {
        NoOvershoot(dx, dy, i, j);
        if k == dx { EndTogether(dx, dy, j); }
      }
    } else {
      NoOvershoot(dy, dx, j, i);
      if k == dy { EndTogether(dy, dx, i); }
    }
  }

  predicate Between(a: int, b: int, p: int) { a <= p <= b || b <= p <= a }

  /** The k-th point of the path from `a` to `b`. */
  predicate OnLine(a: Point, b: Point, k: nat, p: Point) {
    var dx, dy := Abs(b.x - a.x), Abs(b.y - a.y);
    var i, j := Abs(p.x - a.x), Abs(p.y - a.y);
    Near(dx, dy, i, j) && Between(a.x, b.x, p.x) && Between(a.y, b.y, p.y) && if dx >= dy then i == k else j == k
  }

  /** i steps from a towards b. */
  function Toward(a: int, b: int, i: nat): int { if b - a > 0 then a + i else a - i }

  /** Where the loop stands after k turns. */
  ghost predicate At(a: Point, b: Point, p: Point, k: nat, err: int) {
    exists i: nat, j: nat :: Stands(a, b, p, k, err, i, j)
  }

  predicate Stands(a: Point, b: Point, p: Point, k: nat, err: int, i: nat, j: nat) {
    var dx, dy := Abs(b.x - a.x), Abs(b.y - a.y);
    Tracks(dx, dy, i, j, k, err) && p == Point(Toward(a.x, b.x, i), Toward(a.y, b.y, j))
  }

  ghost predicate Reached(a: Point, b: Point, p: Point, k: nat) { exists err :: At(a, b, p, k, err) }

  /** The end point is reached on the last turn and no sooner. */
  lemma AtEnd(a: Point, b: Point, p: Point, k: nat, err: int, dx: nat, dy: nat)
    requires dx == Abs(b.x - a.x) && dy == Abs(b.y - a.y) && At(a, b, p, k, err) && k <= Max(dx, dy)
    ensures (p == b <==> k == Max(dx, dy)) && Abs(err) <= 2 * Max(dx, dy) && Reached(a, b, p, k)
  {
    var i: nat, j: nat :| Stands(a, b, p, k, err, i, j);
    Inside(dx, dy, i, j, k, err);
  }

  lemma Placed(a: int, b: int, i: nat, d: nat)
    requires d == Abs(b - a) && i <= d
    ensures Abs(Toward(a, b, i) - a) == i && Between(a, b, Toward(a, b, i))
  {}

  lemma ReachedOnLine(a: Point, b: Point, p: Point, k: nat, dx: nat, dy: nat)
    requires dx == Abs(b.x - a.x) && dy == Abs(b.y - a.y) && Reached(a, b, p, k) && k <= Max(dx, dy)
    ensures OnLine(a, b, k, p)
  {
    var err :| At(a, b, p, k, err);
    var i: nat, j: nat :| Stands(a, b, p, k, err, i, j);
    Inside(dx, dy, i, j, k, err);
    Placed(a.x, b.x, i, dx);
    Placed(a.y, b.y, j, dy);
  }

  function Unit(d: int): int { if d > 0 then 1 else -1 }

  lemma TowardNext(a: int, b: int, i: nat)
    ensures Toward(a, b, i) + Unit(b - a) == Toward(a, b, i + 1)
  {}

  function NextErr(dx: nat, dy: nat, err: int): int {
    err - (if 2 * err > 0 - dy as int then dy else 0) + if 2 * err < dx then dx else 0
  }

  lemma AtStep(a: Point, b: Point, p: Point, k: nat, err: int, dx: nat, dy: nat, q: Point, e: int)
    requires dx == Abs(b.x - a.x) && dy == Abs(b.y - a.y) && At(a, b, p, k, err) && k < Max(dx, dy)
    requires q.x == (if 2 * err > 0 - dy as int then p.x + Unit(b.x - a.x) else p.x)
    requires q.y == (if 2 * err < dx then p.y + Unit(b.y - a.y) else p.y) && e == NextErr(dx, dy, err)
    ensures At(a, b, q, k + 1, e)
  {
    var i: nat, j: nat :| Stands(a, b, p, k, err, i, j);
    StepTracks(dx, dy, i, j, k, err);
    TowardNext(a.x, b.x, i);
    TowardNext(a.y, b.y, j);
    var i' := if 2 * err > 0 - dy as int then i + 1 else i;
    var j' := if 2 * err < dx then j + 1 else j;
    assert Stands(a, b, q, k + 1, e, i', j');
  }

  lemma AtStart(a: Point, b: Point)
    ensures At(a, b, a, 0, Abs(b.x - a.x) - Abs(b.y - a.y))
  {
    Start(Abs(b.x - a.x), Abs(b.y - a.y));
    assert Stands(a, b, a, 0, Abs(b.x - a.x) - Abs(b.y - a.y), 0, 0);
  }

  /** The points drawn so far, and where the loop stands. */
  ghost predicate Walked(a: Point, b: Point, ps: seq<Point>, p: Point, err: int) {
    |ps| <= Max(Abs(b.x - a.x), Abs(b.y - a.y)) && At(a, b, p, |ps|, err) && (if |ps| > 0 then ps[0] == a else p == a)
    && forall m :: 0 <= m < |ps| ==> Reached(a, b, ps[m], m)
  }

  lemma WalkedStart(a: Point, b: Point, err: int)
    requires err == Abs(b.x - a.x) - Abs(b.y - a.y)
    ensures Walked(a, b, [], a, err)
  {
    AtStart(a, b);
  }

  lemma WalkedStep(a: Point, b: Point, ps: seq<Point>, p: Point, err: int, dx: nat, dy: nat, q: Point, e: int)
    requires Walked(a, b, ps, p, err) && p != b && dx == Abs(b.x - a.x) && dy == Abs(b.y - a.y)
    requires q.x == (if 2 * err > 0 - dy as int then p.x + Unit(b.x - a.x) else p.x)
    requires q.y == (if 2 * err < dx then p.y + Unit(b.y - a.y) else p.y) && e == NextErr(dx, dy, err)
    ensures Walked(a, b, ps + [p], q, e)
  {
    AtEnd(a, b, p, |ps|, err, dx, dy);
    AtStep(a, b, p, |ps|, err, dx, dy, q, e);
  }

  /** The whole path: its last point is reached on the last turn. */
  ghost predicate Path(a: Point, b: Point, ps: seq<Point>) {
    |ps| == Max(Abs(b.x - a.x), Abs(b.y - a.y)) + 1 && ps[0] == a && ps[|ps| - 1] == b
    && forall k :: 0 <= k < |ps| ==> Reached(a, b, ps[k], k)
  }

  lemma WalkedEnd(a: Point, b: Point, ps: seq<Point>, err: int)
    requires Walked(a, b, ps, b, err)
    ensures Path(a, b, ps + [b])
  {
    AtEnd(a, b, b, |ps|, err, Abs(b.x - a.x), Abs(b.y - a.y));
  }

  /** The loop of `draw_line`; the sequence is the calls of `draw_pixel`. */
  method Trace(a: Point, b: Point) returns (ps: seq<Point>)
    ensures Path(a, b, ps)
  {
    var x1, y1 := a.x, a.y;
    var dx, dy := b.x - a.x, b.y - a.y;
    var sx := if dx > 0 then 1 else -1;
    var sy := if dy > 0 then 1 else -1;
    if dx < 0 { dx := -dx; }
    if dy < 0 { dy := -dy; }
    var err := dx - dy;
    ps := [];
    WalkedStart(a, b, err);
    while true
      invariant Walked(a, b, ps, Point(x1, y1), err)
      decreases Max(dx, dy) - |ps|
    {
      ghost var p, e, before := Point(x1, y1), err, ps;
      ps := ps + [Point(x1, y1)];
      if x1 == b.x && y1 == b.y {
        WalkedEnd(a, b, before, e);
        break;
      }
      x1, y1, err := Advance(x1, y1, err, dx, dy, sx, sy);
      WalkedStep(a, b, before, p, e, dx, dy, Point(x1, y1), err);
    }
  }

  /** One turn of the loop, after the pixel. */
  method Advance(x: int, y: int, err: int, dx: nat, dy: nat, sx: int, sy: int) returns (x1: int, y1: int, e: int)
    ensures x1 == (if 2 * err > 0 - dy as int then x + sx else x) && y1 == (if 2 * err < dx then y + sy else y)
      && e == NextErr(dx, dy, err)
  {
    x1, y1, e := x, y, err;
    var e2 := 2 * e;
    if e2 > 0 - dy as int { e := e - dy; x1 := x1 + sx; }
    if e2 < dx { e := e + dx; y1 := y1 + sy; }
  }

  lemma AllOnLine(a: Point, b: Point, ps: seq<Point>)
    requires Path(a, b, ps)
    ensures forall k :: 0 <= k < |ps| ==> OnLine(a, b, k, ps[k])
  {
    forall k | 0 <= k < |ps| ensures OnLine(a, b, k, ps[k]) {
      ReachedOnLine(a, b, ps[k], k, Abs(b.x - a.x), Abs(b.y - a.y));
    }
  }

  /** Draws exactly max(dx, dy) + 1 pixels from one end to the other: inside the bounding box, one step of the long axis
      at a time, never more than half a pixel from the line. The sequence is the calls of `draw_pixel`. */
  method DrawLine(a: Point, b: Point) returns (ps: seq<Point>)
    ensures |ps| == Max(Abs(b.x - a.x), Abs(b.y - a.y)) + 1 && ps[0] == a && ps[|ps| - 1] == b
    ensures forall k :: 0 <= k < |ps| ==> OnLine(a, b, k, ps[k])
  {
    ps := Trace(a, b);
    AllOnLine(a, b, ps);
  }

  lemma Start(dx: nat, dy: nat)
    ensures Tracks(dx, dy, 0, 0, 0, dx - dy)
  {}
}
