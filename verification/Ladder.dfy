/** The Montgomery ladder `curve25519_ladder`: swapped limbs against an index recursion over Z/p. */
module Ladder {
  import opened Bytes
  import opened Numbers
  import opened Field25519
  import opened Curve25519
  import opened FieldBytes

  // ---------------------------------------------------------------------------
  // The ladder over the integers modulo p
  // ---------------------------------------------------------------------------

  /** A projective point X : Z of the x-line. */
  datatype Point = Point(x: nat, z: nat)

  datatype Pair = Pair(low: Point, high: Point)

  /** The multiplier the code uses in the doubling, together with AA. */
  const A24: nat := 121666

  function SqP(x: nat): nat { MulP(x, x) }

  /** The multiplier of RFC 7748, section 5: (486662 - 2) / 4. */
  const A24_RFC: nat := 121665

  /** Doubling over the integers modulo m, with a given multiplier. */
  function DblMod(m: nat, a24: nat, r: Point): Point
    requires m > 0
  {
    var a, b := (r.x + r.z) % m, (r.x - r.z) % m;
    var aa, bb := (a * a) % m, (b * b) % m;
    var e := (aa - bb) % m;
    Point((aa * bb) % m, (e * ((aa + (e * a24) % m) % m)) % m)
  }

  function Dbl(r: Point): Point {
    var aa, bb := SqP(AddP(r.x, r.z)), SqP(SubP(r.x, r.z));
    var e := SubP(aa, bb);
    Point(MulP(aa, bb), MulP(e, AddP(aa, MulP(e, A24))))
  }

  lemma DblParts(m: nat, a24: nat, r: Point, a: nat, b: nat, aa: nat, bb: nat, e: nat)
    requires m > 0 && a == (r.x + r.z) % m && b == (r.x - r.z) % m && aa == (a * a) % m && bb == (b * b) % m
      && e == (aa - bb) % m
    ensures DblMod(m, a24, r) == Point((aa * bb) % m, (e * ((aa + (e * a24) % m) % m)) % m)
  {}

  lemma DblIs(r: Point)
    ensures Dbl(r) == DblMod(P, A24, r)
  {
    var a, b := AddP(r.x, r.z), SubP(r.x, r.z);
    var aa, bb := SqP(a), SqP(b);
    DblParts(P, A24, r, a, b, aa, bb, SubP(aa, bb));
  }

  /** The sum of two points whose difference has the affine coordinate x1. */
  function Add(x1: nat, r: Point, s: Point): Point {
    var da := MulP(SubP(s.x, s.z), AddP(r.x, r.z));
    var cb := MulP(AddP(s.x, s.z), SubP(r.x, r.z));
    Point(SqP(AddP(da, cb)), MulP(SqP(SubP(da, cb)), x1))
  }

  /** Differential addition over the integers modulo m. */
  function AddMod(m: nat, x1: nat, r: Point, s: Point): Point
    requires m > 0
  {
    var a, b, c, d := (r.x + r.z) % m, (r.x - r.z) % m, (s.x + s.z) % m, (s.x - s.z) % m;
    var da, cb := (d * a) % m, (c * b) % m;
    var u, v := (da + cb) % m, (da - cb) % m;
    Point((u * u) % m, (((v * v) % m) * x1) % m)
  }

  lemma AddParts(m: nat, x1: nat, r: Point, s: Point, da: nat, cb: nat, u: nat, v: nat)
    requires m > 0 && da == (((s.x - s.z) % m) * ((r.x + r.z) % m)) % m
    requires cb == (((s.x + s.z) % m) * ((r.x - r.z) % m)) % m && u == (da + cb) % m && v == (da - cb) % m
    ensures AddMod(m, x1, r, s) == Point((u * u) % m, (((v * v) % m) * x1) % m)
  {}

  lemma AddIs(x1: nat, r: Point, s: Point)
    ensures Add(x1, r, s) == AddMod(P, x1, r, s)
  {
    var da, cb := MulP(SubP(s.x, s.z), AddP(r.x, r.z)), MulP(AddP(s.x, s.z), SubP(r.x, r.z));
    AddParts(P, x1, r, s, da, cb, AddP(da, cb), SubP(da, cb));
  }

  /** The n-th and (n+1)-st multiples of the point with coordinate x1, by halving n. */
  function Multiples(x1: nat, n: nat): Pair {
    if n == 0 then
      Pair(Point(1, 0), Point(x1, 1))
    else
      var p := Multiples(x1, n / 2);
      var sum := Add(x1, p.low, p.high);
      if n % 2 == 0 then Pair(Dbl(p.low), sum) else Pair(sum, Dbl(p.high))
  }

  /** The affine coordinate X / Z as the code computes it: 0 where Z is 0. */
  function Affine(r: Point): nat { MulP(r.x, PowP(r.z, P - 2)) }

  lemma MulPSym(x: nat, y: nat)
    ensures MulP(x, y) == MulP(y, x)
  {
    assert x * y == y * x;
  }

  /** Times Z it is X times Z^(p - 1), and Z^(p - 1) is 1 for every Z that p does not divide. */
  lemma AffineTimesZ(r: Point)
    ensures MulP(Affine(r), r.z) == MulP(r.x, PowP(r.z, P - 1))
  {
    var w := PowP(r.z, P - 2);
    ModAssoc(P, r.x, w, r.z);
    MulPSym(w, r.z);
    PowStep(r.z, P - 1);
  }

  lemma PowStep(x: nat, e: nat)
    requires e > 0
    ensures PowP(x, e) == MulP(x, PowP(x, e - 1))
  {}

  lemma {:induction false} PowOne(e: nat)
    ensures PowP(1, e) == 1
  {
    if e > 0 { PowOne(e - 1); }
  }

  /** X : 1 has the coordinate X. */
  lemma AffineUnit(x: nat)
    ensures Affine(Point(x, 1)) == x % P
  {
    PowOne(P - 2);
  }

  lemma NegSquare(m: int, a: int, b: int)
    requires m > 0
    ensures (((a - b) % m) * ((a - b) % m)) % m == (((b - a) % m) * ((b - a) % m)) % m
  {
    var d := a - b;
    ModMul(m, d, d);
    ModMul(m, -d, -d);
    assert d * d == (-d) * (-d);
  }

  /** Differential addition does not care which operand comes first. */
  lemma AddSym(x1: nat, r: Point, s: Point)
    ensures Add(x1, r, s) == Add(x1, s, r)
  {
    var sm, sp, rm, rp := SubP(s.x, s.z), AddP(s.x, s.z), SubP(r.x, r.z), AddP(r.x, r.z);
    MulPSym(sm, rp);
    MulPSym(sp, rm);
    NegSquare(P, MulP(sm, rp), MulP(sp, rm));
  }

  // ---------------------------------------------------------------------------
  // Which curve
  // ---------------------------------------------------------------------------

  /** (X + Z)^2 and (X - Z)^2; their difference is 4XZ. */
  lemma Squares(x: int, z: int)
    ensures (x + z) * (x + z) == x * x + 2 * (x * z) + z * z
    ensures (x - z) * (x - z) == x * x - 2 * (x * z) + z * z
  {}

  lemma SquareLine(x: int, z: int, a24: int)
    ensures x * x + 2 * (x * z) + z * z + (4 * (x * z)) * a24 == x * x + (4 * a24 + 2) * (x * z) + z * z
  {
    var m := x * z;
    assert (4 * m) * a24 == (4 * a24) * m;
  }

  lemma DifferenceSquared(x: int, z: int)
    ensures (x * x + 2 * (x * z) + z * z) * (x * x - 2 * (x * z) + z * z) == (x * x - z * z) * (x * x - z * z)
  {
    var u, v := x + z, x - z;
    Squares(x, z);
    assert u * v == x * x - z * z;
    Regroup(u, v);
  }

  lemma Regroup(u: int, v: int)
    ensures (u * u) * (v * v) == (u * v) * (u * v)
  {}

  /** What the steps of a doubling stand for: s and d are the two squares, e their difference. */
  lemma Residues(m: int, u: int, v: int, s: int, d: int, e: int)
    requires m > 0 && s == u * u && d == v * v && e == s - d
    ensures ((u % m) * (u % m)) % m == s % m && ((v % m) * (v % m)) % m == d % m && (s % m - d % m) % m == e % m
  {
    ModMul(m, u, u);
    ModMul(m, v, v);
    ModSub(m, s, d);
  }

  lemma LineResidue(m: int, s: int, e: int, a24: int)
    requires m > 0
    ensures ((e % m) * ((s % m + ((e % m) * a24) % m) % m)) % m == (e * (s + e * a24)) % m
  {
    ModMulLeft(m, e, a24);
    ModAdd(m, s, e * a24);
    ModMul(m, e, s + e * a24);
  }

  /** For every modulus, and so for p: this is the x-coordinate doubling of the Montgomery curve with A = 4 * a24 +
      2. */
  lemma Doubling(m: nat, a24: nat, r: Point)
    requires m > 0
    ensures var x, z := r.x, r.z;
            DblMod(m, a24, r) == Point(((x * x - z * z) * (x * x - z * z)) % m,
                                       ((4 * (x * z)) * (x * x + (4 * a24 + 2) * (x * z) + z * z)) % m)
  {
    var x: int, z: int := r.x, r.z;
    var s, d, e := x * x + 2 * (x * z) + z * z, x * x - 2 * (x * z) + z * z, 4 * (x * z);
    Squares(x, z);
    Residues(m, x + z, x - z, s, d, e);
    LineResidue(m, s, e, a24);
    SquareLine(x, z, a24);
    ModMul(m, s, d);
    DifferenceSquared(x, z);
  }

  /** DA and CB over the integers: their sum and difference are twice the two determinants. */
  lemma CrossProducts(a: int, b: int, x: int, z: int)
    ensures (x - z) * (a + b) + (x + z) * (a - b) == 2 * (a * x - b * z)
    ensures (x - z) * (a + b) - (x + z) * (a - b) == 2 * (b * x - a * z)
  {}

  lemma TwiceSquared(m: int, d: int, u: int)
    requires m > 0 && u == (2 * d) % m
    ensures (u * u) % m == (4 * (d * d)) % m
  {
    ModMul(m, 2 * d, 2 * d);
    assert (2 * d) * (2 * d) == 4 * (d * d);
  }

  lemma Negated(a: int, b: int)
    ensures (b - a) * (b - a) == (a - b) * (a - b)
  {}

  /** For every modulus, and so for p: the differential addition of every Montgomery curve, which does not depend on
      its constant. */
  lemma Addition(m: nat, x1: nat, r: Point, s: Point)
    requires m > 0
    ensures var d, e := r.x * s.x - r.z * s.z, r.x * s.z - r.z * s.x;
            AddMod(m, x1, r, s) == Point((4 * (d * d)) % m, ((4 * (e * e)) * x1) % m)
  {
    var d, e: int := r.x * s.x - r.z * s.z, r.z * s.x - r.x * s.z;
    var f, g := (s.x - s.z) * (r.x + r.z), (s.x + s.z) * (r.x - r.z);
    CrossProducts(r.x, r.z, s.x, s.z);
    ModMul(m, s.x - s.z, r.x + r.z);
    ModMul(m, s.x + s.z, r.x - r.z);
    ModAdd(m, f, g);
    ModSub(m, f, g);
    AddParts(m, x1, r, s, f % m, g % m, (2 * d) % m, (2 * e) % m);
    TwiceSquared(m, d, (2 * d) % m);
    TwiceSquared(m, e, (2 * e) % m);
    ModMulLeft(m, 4 * (e * e), x1);
    Negated(r.z * s.x, r.x * s.z);
  }

  /** Doubling with the code's multiplier is that of RFC 7748 exactly where (4XZ)^2 vanishes. */
  lemma DoublingIffRfc(m: nat, r: Point)
    requires m > 0
    ensures DblMod(m, A24, r) == DblMod(m, A24_RFC, r) <==> ((4 * (r.x * r.z)) * (4 * (r.x * r.z))) % m == 0
  {
    var x, z := r.x, r.z;
    var n, e := x * z, 4 * (x * z);
    Doubling(m, A24, r);
    Doubling(m, A24_RFC, r);
    var u := x * x + 486662 * n + z * z;
    assert e * (u + e) == e * u + e * e;
    ModEqual(m, e * u, e * e);
  }

  lemma Small(n: nat, m: nat)
    requires n < m
    ensures n % m == n
  {}

  /** Already doubling the base point x = 9 differs, modulo p and every other modulus above 36^2. */
  lemma BasePointDiffers(m: nat, r: Point)
    requires r == Point(9, 1) && m > 1296
    ensures DblMod(m, A24, r) != DblMod(m, A24_RFC, r)
  {
    DiffersWhen(m, r, 1296);
  }

  lemma DiffersWhen(m: nat, r: Point, n: nat)
    requires n == (4 * (r.x * r.z)) * (4 * (r.x * r.z)) && 0 < n < m
    ensures DblMod(m, A24, r) != DblMod(m, A24_RFC, r)
  {
    DoublingIffRfc(m, r);
    Small(n, m);
  }

  // ---------------------------------------------------------------------------
  // Consecutive multiples
  // ---------------------------------------------------------------------------

  /** The same projective point with both coordinates multiplied by k. */
  function Scaled(m: nat, k: nat, r: Point): Point
    requires m > 0
  {
    Point((k * r.x) % m, (k * r.z) % m)
  }

  lemma SumScaled(m: int, k: int, u: int, v: int)
    requires m > 0
    ensures ((k * u) % m + (k * v) % m) % m == (k * ((u + v) % m)) % m
    ensures ((k * u) % m - (k * v) % m) % m == (k * ((u - v) % m)) % m
  {
    ModAdd(m, k * u, k * v);
    ModSub(m, k * u, k * v);
    assert k * u + k * v == k * (u + v) && k * u - k * v == k * (u - v);
    ModMulRight(m, k, u + v);
    ModMulRight(m, k, u - v);
  }

  lemma ProductScaled(m: int, k: int, l: int, u: int, v: int)
    requires m > 0
    ensures (((k * u) % m) * ((l * v) % m)) % m == ((k * l) * ((u * v) % m)) % m
  {
    ModMul(m, k * u, l * v);
    FourFactors(k, u, l, v);
    ModMulRight(m, k * l, u * v);
  }

  lemma FourFactors(k: int, u: int, l: int, v: int)
    ensures (k * u) * (l * v) == (k * l) * (u * v)
  {}

  lemma ThirdScaled(m: int, k: int, e: int, a: int)
    requires m > 0
    ensures (((k * e) % m) * a) % m == (k * ((e * a) % m)) % m
  {
    ModMulLeft(m, k * e, a);
    ModMulRight(m, k, e * a);
    assert (k * e) * a == k * (e * a);
  }

  /** Doubling is homogeneous of degree four. */
  lemma DoublingScaled(m: nat, a24: nat, k: nat, r: Point)
    requires m > 0
    ensures DblMod(m, a24, Scaled(m, k, r)) == Scaled(m, (k * k) * (k * k), DblMod(m, a24, r))
  {
    var a, b := (r.x + r.z) % m, (r.x - r.z) % m;
    var aa, bb := (a * a) % m, (b * b) % m;
    var e := (aa - bb) % m;
    var f := (e * a24) % m;
    var kk := k * k;
    SumScaled(m, k, r.x, r.z);
    ProductScaled(m, k, k, a, a);
    ProductScaled(m, k, k, b, b);
    SumScaled(m, kk, aa, bb);
    DblParts(m, a24, Scaled(m, k, r), (k * a) % m, (k * b) % m, (kk * aa) % m, (kk * bb) % m, (kk * e) % m);
    DblParts(m, a24, r, a, b, aa, bb, e);
    ThirdScaled(m, kk, e, a24);
    SumScaled(m, kk, aa, f);
    ProductScaled(m, kk, kk, aa, bb);
    ProductScaled(m, kk, kk, e, (aa + f) % m);
  }

  /** The factor between the two representations of the (n+1)-st multiple: a power of 4 * x1. */
  function Lead(x1: nat, n: nat): nat {
    if n == 0 then 4 * x1 else if n % 2 == 0 then 1 else var k := Lead(x1, n / 2); (k * k) * (k * k)
  }

  /** Once times the point is the point: 4 * x1 times (x1 : 1). */
  lemma OnceMod(m: nat, x1: nat)
    requires m > 0
    ensures AddMod(m, x1, Point(1, 0), Point(x1, 1)) == Scaled(m, 4 * x1, Point(x1, 1))
  {
    Addition(m, x1, Point(1, 0), Point(x1, 1));
    assert 4 * (x1 * x1) == (4 * x1) * x1;
  }

  lemma Once(x1: nat)
    ensures Multiples(x1, 1).low == Scaled(P, 4 * x1, Point(x1, 1))
    ensures Multiples(x1, 1).low.x == MulP(x1, Multiples(x1, 1).low.z)
  {
    var one, r, s := 1, Point(1, 0), Point(x1, 1);
    assert Multiples(x1, one / 2) == Pair(r, s);
    AddIs(x1, r, s);
    OnceMod(P, x1);
    AffineOf(P, x1, 4 * x1);
  }

  lemma AffineOf(m: nat, x: nat, k: nat)
    requires m > 0
    ensures (k * x) % m == (x * (k % m)) % m
  {
    ModMulRight(m, x, k);
    assert k * x == x * k;
  }

  lemma Reduced(m: nat, r: Point)
    requires r.x < m && r.z < m
    ensures Scaled(m, 1, r) == r
  {
    Small(r.x, m);
    Small(r.z, m);
    assert 1 * r.x == r.x && 1 * r.z == r.z;
  }

  lemma AddBelow(x1: nat, r: Point, s: Point)
    ensures Add(x1, r, s).x < P && Add(x1, r, s).z < P
  {}

  /** For every n the second point of the pair is the first one of the next pair, up to the stated factor. */
  lemma {:induction false} Consecutive(x1: nat, n: nat)
    ensures Multiples(x1, n + 1).low == Scaled(P, Lead(x1, n), Multiples(x1, n).high)
  {
    if n == 0 {
      Once(x1);
    } else {
      var h := n / 2;
      var p := Multiples(x1, h);
      if n % 2 == 0 {
        assert (n + 1) / 2 == h && (n + 1) % 2 == 1;
        AddBelow(x1, p.low, p.high);
        Reduced(P, Add(x1, p.low, p.high));
      } else {
        assert (n + 1) / 2 == h + 1 && (n + 1) % 2 == 0;
        Consecutive(x1, h);
        var k := Lead(x1, h);
        DoublingScaled(P, A24, k, p.high);
        DblIs(p.high);
        DblIs(Scaled(P, k, p.high));
      }
    }
  }

  // ---------------------------------------------------------------------------
  // One rung on limbs
  // ---------------------------------------------------------------------------

  /** The point two field elements stand for. */
  function At(x: Fe, z: Fe): Point { Point(Res(x), Res(z)) }

  method Scale(e: Fe) returns (m: Fe)
    requires Loose(e)
    ensures Tight(m) && Res(m) == MulP(Res(e), A24)
  {
    m := FeMulScalar(e, A24);
  }

  /** The doubling half: also gives A and B to the addition half. */
  method DoubleHalf(x2: Fe, z2: Fe) returns (a: Fe, b: Fe, x: Fe, z: Fe)
    requires Tight(x2) && Tight(z2)
    ensures Loose(a) && Loose(b) && Res(a) == AddP(Res(x2), Res(z2)) && Res(b) == SubP(Res(x2), Res(z2))
    ensures Tight(x) && Tight(z) && At(x, z) == Dbl(At(x2, z2))
  {
    a := FeAdd(x2, z2);
    var aa := FeSq(a);
    b := FeSub(x2, z2);
    var bb := FeSq(b);
    var e := FeSub(aa, bb);
    x := FeMul(aa, bb);
    var m := Scale(e);
    m := FeAdd(aa, m);
    z := FeMul(e, m);
  }

  /** The addition half. */
  method AddHalf(x1: Fe, a: Fe, b: Fe, x3: Fe, z3: Fe, ghost r: Point) returns (x: Fe, z: Fe)
    requires Tight(x1) && Tight(x3) && Tight(z3) && Loose(a) && Loose(b)
    requires Res(a) == AddP(r.x, r.z) && Res(b) == SubP(r.x, r.z)
    ensures Tight(x) && Tight(z) && At(x, z) == Add(Res(x1), r, At(x3, z3))
  {
    var c := FeAdd(x3, z3);
    var d := FeSub(x3, z3);
    var da := FeMul(d, a);
    var cb := FeMul(c, b);
    x := FeAdd(da, cb);
    x := FeSq(x);
    z := FeSub(da, cb);
    z := FeSq(z);
    z := FeMul(z, x1);
  }

  /** The four working elements of the loop. */
  datatype Work = Work(x2: Fe, z2: Fe, x3: Fe, z3: Fe)

  predicate Carried(w: Work) { Tight(w.x2) && Tight(w.z2) && Tight(w.x3) && Tight(w.z3) }

  /** The pair of points held, undoing the pending swap. */
  function Held(w: Work, swap: nat): Pair {
    if swap == 1 then Pair(At(w.x3, w.z3), At(w.x2, w.z2)) else Pair(At(w.x2, w.z2), At(w.x3, w.z3))
  }

  method SwapWork(w: Work, bit: nat) returns (v: Work)
    requires Carried(w) && bit < 2
    ensures Carried(v)
    ensures bit == 0 ==> v == w
    ensures bit == 1 ==> v == Work(w.x3, w.z3, w.x2, w.z2)
  {
    var x2, x3 := FeCswap(w.x2, w.x3, bit);
    var z2, z3 := FeCswap(w.z2, w.z3, bit);
    v := Work(x2, z2, x3, z3);
  }

  /** `swap ^ bit`. */
  lemma XorBits(x: nat, y: nat)
    requires x < 2 && y < 2
    ensures Xor(x, y) == if x == y then 0 else 1
  {}

  /** One iteration: the deferred swap, then doubling and addition. */
  method Rung(x1: Fe, w: Work, swap: nat, bit: nat) returns (v: Work)
    requires Tight(x1) && Carried(w) && swap < 2 && bit < 2
    ensures Carried(v)
    ensures Held(v, bit) == var p := Held(w, swap);
                            var sum := Add(Res(x1), p.low, p.high);
                            if bit == 0 then Pair(Dbl(p.low), sum) else Pair(sum, Dbl(p.high))
  {
    XorBits(swap, bit);
    var u := SwapWork(w, Xor(swap, bit));
    assert Held(u, bit) == Held(w, swap);
    var a, b, x2, z2 := DoubleHalf(u.x2, u.z2);
    var x3, z3 := AddHalf(x1, a, b, u.x3, u.z3, At(u.x2, u.z2));
    v := Work(x2, z2, x3, z3);
    AddSym(Res(x1), At(u.x2, u.z2), At(u.x3, u.z3));
  }

  // ---------------------------------------------------------------------------
  // The scalar
  // ---------------------------------------------------------------------------

  const E245: nat := 0x20_0000_0000_0000_0000_0000_0000_0000_0000_0000_0000_0000_0000_0000_0000_0000
  const E251: nat := 0x800_0000_0000_0000_0000_0000_0000_0000_0000_0000_0000_0000_0000_0000_0000_0000
  const E254: nat := 0x4000_0000_0000_0000_0000_0000_0000_0000_0000_0000_0000_0000_0000_0000_0000_0000

  /** Bits 0 to 2 and 255 cleared, bit 254 set. */
  function Clamped(n: nat): nat { E254 + 8 * ((n / 8) % E251) }

  /** A multiple of the cofactor 8 with bit 254 on top; bits 3 to 253 are those of n. */
  lemma ClampedBits(n: nat)
    ensures Clamped(n) % 8 == 0 && Clamped(n) / E254 == 1 && (Clamped(n) % E254) / 8 == (n / 8) % E251
  {
    var r := (n / 8) % E251;
    DivUnique(Clamped(n), E254, 1, 8 * r);
  }

  lemma AndOdd(x: nat, m: nat)
    ensures And(x, 2 * m + 1) == 2 * And(x / 2, m) + x % 2
  {
    assert (2 * m + 1) / 2 == m;
  }

  lemma And248(x: byte)
    ensures And(x, 248) == x - x % 8
  {
    AndTwice(x, 124);
    AndTwice(x / 2, 62);
    AndTwice(x / 4, 31);
    AndOnes(x / 8, 5);
    assert Exp2(5) == 32;
    assert x / 2 / 2 == x / 4 && x / 4 / 2 == x / 8;
  }

  lemma AndTwice(x: nat, m: nat)
    ensures And(x, 2 * m) == 2 * And(x / 2, m)
  {}

  lemma And127(x: byte)
    ensures And(x, 127) == x % 128
  {
    AndOdd(x, 63);
    AndOdd(x / 2, 31);
    AndOdd(x / 4, 15);
    AndOdd(x / 8, 7);
    AndOdd(x / 16, 3);
    AndOdd(x / 32, 1);
    AndOdd(x / 64, 0);
    AndZero(x / 128);
    Halves(x);
  }

  lemma Halves(x: nat)
    ensures x / 2 / 2 == x / 4 && x / 4 / 2 == x / 8 && x / 8 / 2 == x / 16 && x / 16 / 2 == x / 32
    ensures x / 32 / 2 == x / 64 && x / 64 / 2 == x / 128
  {}

  lemma Or64(x: nat)
    requires x < 128
    ensures Or(x, 64) == 64 + x % 64
  {
    assert Exp2(6) == 64;
    OrTop(x % 64, x / 64, 6);
  }

  lemma {:induction false} OrTop(x: nat, a: nat, k: nat)
    requires x < Exp2(k) && a < 2
    ensures Or(x + a * Exp2(k), Exp2(k)) == x + Exp2(k)
    decreases k
  {
    if k > 0 {
      var y := x + a * Exp2(k);
      assert y / 2 == x / 2 + a * Exp2(k - 1);
      OrTop(x / 2, a, k - 1);
    }
  }

  lemma {:induction false} LEBelow(s: seq<byte>)
    ensures LE(s) < Exp2(8 * |s|)
  {
    if |s| > 0 {
      LEBelow(s[1..]);
      Exp2Add(8, 8 * |s[1..]|);
      assert Exp2(8) == 256;
    }
  }

  /** The ends of a 32-byte string, with 240 bits between. */
  lemma Ends(s: seq<byte>) returns (m: nat)
    requires |s| == 32
    ensures m == LE(s[1..31])
    ensures LE(s) == s[0] as nat + 256 * m + (8 * E245) * s[31] && m < E245 / 32
  {
    var mid, end := s[1..31], s[31..];
    m := LE(mid);
    assert s[1..] == mid + end;
    LEConcat(mid, end);
    LEBelow(mid);
    assert end[1..] == [];
    assert LE(end) == s[31];
    Exp240(8 * |mid|);
  }

  lemma Exp240(k: nat)
    requires k == 240
    ensures Exp2(k) == E245 / 32
  {
    assert Exp2(15) == 0x8000;
    Exp2Sum(15, 15, 0x8000, 0x8000);
    Exp2Sum(30, 30, 0x4000_0000, 0x4000_0000);
    Exp2Sum(60, 60, 0x1000_0000_0000_0000, 0x1000_0000_0000_0000);
    Exp2Sum(120, 120, 0x100_0000_0000_0000_0000_0000_0000_0000, 0x100_0000_0000_0000_0000_0000_0000_0000);
  }

  method ClearLow(x: byte) returns (y: byte)
    ensures y == x - x % 8
  {
    And248(x);
    y := And(x, 248);
  }

  method Keep7(x: byte) returns (y: nat)
    ensures y == x % 128
  {
    And127(x);
    y := And(x, 127);
  }

  method Set6(x: nat) returns (y: nat)
    requires x < 128
    ensures y == 64 + x % 64
  {
    Or64(x);
    y := Or(x, 64);
  }

  method SetHigh(x: byte) returns (y: byte)
    ensures y == 64 + x % 64
  {
    var t := Keep7(x);
    y := Set6(t);
    assert (x % 128) % 64 == x % 64;
  }

  /** `k[0] &= 248; k[31] &= 127; k[31] |= 64`. */
  method Clamp(scalar: seq<byte>) returns (k: seq<byte>)
    requires |scalar| == 32
    ensures |k| == 32 && LE(k) == Clamped(LE(scalar))
  {
    var lo := ClearLow(scalar[0]);
    var hi := SetHigh(scalar[31]);
    k := scalar[0 := lo][31 := hi];
    ClampEnds(scalar, k);
  }

  lemma ClampEnds(s: seq<byte>, k: seq<byte>)
    requires |s| == |k| == 32 && k[1..31] == s[1..31]
    requires k[0] == s[0] - s[0] % 8 && k[31] == 64 + s[31] % 64
    ensures LE(k) == Clamped(LE(s))
  {
    var m := Ends(s);
    var n := Ends(k);
    ClampValue(s[0], m, s[31], LE(s), LE(k));
  }

  lemma ClampValue(lo: byte, m: nat, hi: byte, n: nat, k: nat)
    requires n == lo as nat + 256 * m + (8 * E245) * hi && m < E245 / 32
    requires k == (lo - lo % 8) as nat + 256 * m + (8 * E245) * (64 + hi % 64)
    ensures k == Clamped(n)
  {
    var r := lo / 8 + 32 * m + E245 * (hi % 64);
    assert n / 8 == lo / 8 + 32 * m + E245 * hi;
    assert n / 8 == E251 * (hi / 64) + r;
    DivUnique(n / 8, E251, hi / 64, r);
  }

  /** `n >> i`. */
  function Shr(n: nat, i: nat): nat
    decreases i, n
  {
    if i == 0 then n else Shr(n / 2, i - 1)
  }

  lemma {:induction false} ShrAdd(n: nat, i: nat, j: nat)
    ensures Shr(n, i + j) == Shr(Shr(n, i), j)
    decreases i
  {
    if i > 0 { ShrAdd(n / 2, i - 1, j); }
  }

  lemma Shr2(n: nat)
    ensures Shr(n, 2) == n / 4
  {
    assert Shr(n, 2) == Shr(n / 2, 1) == Shr(n / 2 / 2, 0);
  }

  lemma Shr4(n: nat)
    ensures Shr(n, 4) == n / 16
  {
    ShrAdd(n, 2, 2);
    Shr2(n);
    Shr2(n / 4);
  }

  lemma Shr8(n: nat)
    ensures Shr(n, 8) == n / 256
  {
    ShrAdd(n, 4, 4);
    Shr4(n);
    Shr4(n / 16);
  }

  lemma {:induction false} LowBits(b: nat, y: nat, i: nat, j: nat)
    requires i < j
    ensures Shr(b + Exp2(j) * y, i) % 2 == Shr(b, i) % 2
    decreases i
  {
    var z := Exp2(j - 1) * y;
    assert Exp2(j) * y == 2 * z;
    if i > 0 { LowBits(b / 2, y, i - 1, j - 1); }
  }

  /** Bit i of the scalar is bit i mod 8 of its byte i / 8. */
  lemma {:induction false} BitAt(s: seq<byte>, i: nat)
    requires i < 8 * |s|
    ensures Shr(LE(s), i) % 2 == Shr(s[i / 8], i % 8) % 2
  {
    if i < 8 {
      assert i / 8 == 0 && i % 8 == i;
      assert Exp2(8) == 256;
      LowBits(s[0], LE(s[1..]), i, 8);
    } else {
      BitAt(s[1..], i - 8);
      ShrAdd(LE(s), 8, i - 8);
      Shr8(LE(s));
      assert LE(s) / 256 == LE(s[1..]);
      assert (i - 8) / 8 == i / 8 - 1 && (i - 8) % 8 == i % 8;
    }
  }

  lemma {:induction false} ShrTop(n: nat, k: nat)
    requires Exp2(k) <= n < 2 * Exp2(k)
    ensures Shr(n, k) == 1
    decreases k
  {
    if k > 0 { ShrTop(n / 2, k - 1); }
  }

  // ---------------------------------------------------------------------------
  // The whole ladder
  // ---------------------------------------------------------------------------

  /** Bits 254 down to `i` of the scalar have been used. */
  predicate Climbed(x1: Fe, n: nat, i: nat, w: Work, swap: nat) {
    Carried(w) && swap < 2 && Held(w, swap) == Multiples(Res(x1), Shr(n, i)) && (Shr(n, i) > 0 || i == 255)
  }

  method Climb(x1: Fe, k: seq<byte>, w: Work, swap: nat, i: nat) returns (v: Work, bit: nat)
    requires Tight(x1) && |k| == 32 && i < 255 && Shr(LE(k), 254) == 1 && Climbed(x1, LE(k), i + 1, w, swap)
    ensures Climbed(x1, LE(k), i, v, bit)
  {
    ghost var n := LE(k);
    bit := Shr(k[i / 8], i % 8) % 2;
    BitAt(k, i);
    ShrAdd(n, i, 1);
    v := Rung(x1, w, swap, bit);
  }

  method Start(u: seq<byte>) returns (x1: Fe, w: Work)
    requires |u| == 32
    ensures Tight(x1) && Res(x1) == (LE(u) % B5) % P && Carried(w) && Held(w, 0) == Multiples(Res(x1), 0)
  {
    x1 := FeFromBytes(u);
    w := Work(Fe(1, 0, 0, 0, 0), Fe(0, 0, 0, 0, 0), x1, Fe(1, 0, 0, 0, 0));
  }

  /** `x_2 * z_2^(p - 2)` after the last swap. */
  method Finish(w: Work, swap: nat) returns (out: seq<byte>)
    requires Carried(w) && swap < 2
    ensures |out| == 32 && LE(out) == Affine(Held(w, swap).low)
  {
    var v := SwapWork(w, swap);
    var zi := FeInvert(v.z2);
    var x := FeMul(v.x2, zi);
    out := FeToBytes(x);
    assert Res(x) < P;
  }

  /** For every scalar and point: the canonical bytes of X / Z of the clamped multiple. */
  method Curve25519Ladder(scalar: seq<byte>, u: seq<byte>) returns (out: seq<byte>)
    requires |scalar| == 32 && |u| == 32
    ensures |out| == 32
    ensures LE(out) == Affine(Multiples((LE(u) % B5) % P, Clamped(LE(scalar))).low)
  {
    var x1, w := Start(u);
    var k := Clamp(scalar);
    var swap := 0;
    ghost var n := LE(k);
    ghost var top := 255;
    TopBits(LE(scalar), top);
    var i := 255;
    while i > 0
      invariant i <= 255 && Climbed(x1, n, i, w, swap)
    {
      i := i - 1;
      w, swap := Climb(x1, k, w, swap, i);
    }
    NoShift(n, i);
    out := Finish(w, swap);
  }

  lemma NoShift(n: nat, i: nat)
    requires i == 0
    ensures Shr(n, i) == n
  {}

  lemma TopBits(s: nat, top: nat)
    requires top == 255
    ensures Shr(Clamped(s), top) == 0 && Shr(Clamped(s), top - 1) == 1
  {
    Exp240(top - 15);
    assert Exp2(14) == 0x4000;
    Exp2Sum(top - 15, 14, E245 / 32, 0x4000);
    ShrTop(Clamped(s), top - 1);
    ShrAdd(Clamped(s), top - 1, 1);
  }
}
