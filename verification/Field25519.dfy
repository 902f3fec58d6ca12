/** Arithmetic modulo 2^255 - 19 on five 51-bit limbs (src/kernel/crypto.c, section X25519).
    Limbs are 64-bit words; products and their sums are 128-bit words. Wrap-around is written out. */
module Field25519 {
  import opened Bytes
  import opened Numbers

  const B: nat := 0x8_0000_0000_0000                     // 2^51
  const B2: nat := 0x40_0000_0000_0000_0000_0000_0000
  const B3: nat := 0x200_0000_0000_0000_0000_0000_0000_0000_0000_0000
  const B4: nat := 0x1000_0000_0000_0000_0000_0000_0000_0000_0000_0000_0000_0000_0000
  const B5: nat := 0x8000_0000_0000_0000_0000_0000_0000_0000_0000_0000_0000_0000_0000_0000_0000_0000
  const P: nat := B5 - 19                                // 2^255 - 19
  const W128: nat := 0x1_0000_0000_0000_0000_0000_0000_0000_0000
  const LIMIT: nat := 0x40_0000_0000_0000                // 2^54

  function U64(x: int): nat { x % W64 }

  function U128(x: int): nat { x % W128 }

  datatype Fe = Fe(a: nat, b: nat, c: nat, d: nat, e: nat)

  /** The integer a field element stands for, before reduction. */
  function Val(h: Fe): nat { h.a + h.b * B + h.c * B2 + h.d * B3 + h.e * B4 }

  predicate Below(h: Fe, n: nat) { h.a < n && h.b < n && h.c < n && h.d < n && h.e < n }

  /** Carried: what every product leaves. */
  predicate Tight(h: Fe) { Below(h, B + 1) }

  predicate Loose(h: Fe) { Below(h, LIMIT) }

  // The field itself: integers below p.

  function AddP(x: nat, y: nat): nat { (x + y) % P }
  function SubP(x: nat, y: nat): nat { (x - y) % P }
  function MulP(x: nat, y: nat): nat { (x * y) % P }

  /** The residue a field element stands for. */
  function Res(h: Fe): nat { Val(h) % P }

  lemma U64Id(x: int)
    requires 0 <= x < W64
    ensures U64(x) == x
  {}

  lemma U128Id(x: int)
    requires 0 <= x < W128
    ensures U128(x) == x
  {}

  /** `c = (uint64_t)(t >> 51); t &= FE_MASK`. */
  method Split51(t: nat) returns (c: nat, r: nat)
    requires t < B * W64
    ensures t == c * B + r && r < B
  {
    c := U64(t / B);
    r := t % B;
  }

  method Add64(x: nat, y: nat) returns (z: nat)
    requires x + y < W64
    ensures z == x + y
  {
    z := U64(x + y);
  }

  /** `x - y + k` on 64-bit words: the difference may wrap, the sum brings it back. */
  method SubAdd64(x: nat, y: nat, k: nat) returns (z: nat)
    requires x < W64 && y < W64 && k < W64 && 0 <= x - y + k < W64
    ensures z == x - y + k
  {
    z := U64(U64(x - y) + k);
  }

  method FeAdd(f: Fe, g: Fe) returns (h: Fe)
    requires Loose(f) && Loose(g)
    ensures Val(h) == Val(f) + Val(g) && Res(h) == AddP(Res(f), Res(g))
    ensures h == Fe(f.a + g.a, f.b + g.b, f.c + g.c, f.d + g.d, f.e + g.e)
  {
    var a := Add64(f.a, g.a);
    var b := Add64(f.b, g.b);
    var c := Add64(f.c, g.c);
    var d := Add64(f.d, g.d);
    var e := Add64(f.e, g.e);
    h := Fe(a, b, c, d, e);
    ModAdd(P, Val(f), Val(g));
  }

  /** Adds 4p limb by limb so that no limb goes below zero. */
  method FeSub(f: Fe, g: Fe) returns (h: Fe)
    requires Tight(f) && Tight(g)
    ensures Loose(h) && Res(h) == SubP(Res(f), Res(g))
  {
    var a := SubAdd64(f.a, g.a, 4 * B - 76);
    var b := SubAdd64(f.b, g.b, 4 * B - 4);
    var c := SubAdd64(f.c, g.c, 4 * B - 4);
    var d := SubAdd64(f.d, g.d, 4 * B - 4);
    var e := SubAdd64(f.e, g.e, 4 * B - 4);
    h := Fe(a, b, c, d, e);
    assert Val(h) == (Val(f) - Val(g)) + 4 * P;
    ModShift(P, Val(f) - Val(g), 4);
    ModSub(P, Val(f), Val(g));
  }

  // ---------------------------------------------------------------------------
  // Multiplication
  // ---------------------------------------------------------------------------

  function T0(f: Fe, g: Fe): nat {
    f.a * g.a + 19 * (f.b * g.e) + 19 * (f.c * g.d) + 19 * (f.d * g.c) + 19 * (f.e * g.b)
  }
  function T1(f: Fe, g: Fe): nat { f.a * g.b + f.b * g.a + 19 * (f.c * g.e) + 19 * (f.d * g.d) + 19 * (f.e * g.c) }
  function T2(f: Fe, g: Fe): nat { f.a * g.c + f.b * g.b + f.c * g.a + 19 * (f.d * g.e) + 19 * (f.e * g.d) }
  function T3(f: Fe, g: Fe): nat { f.a * g.d + f.b * g.c + f.c * g.b + f.d * g.a + 19 * (f.e * g.e) }
  function T4(f: Fe, g: Fe): nat { f.a * g.e + f.b * g.d + f.c * g.c + f.d * g.b + f.e * g.a }

  /** The part of the product that is folded back with factor 19. */
  function Fold(f: Fe, g: Fe): nat {
    (f.b * g.e + f.c * g.d + f.d * g.c + f.e * g.b)
    + (f.c * g.e + f.d * g.d + f.e * g.c) * B
    + (f.d * g.e + f.e * g.d) * B2
    + (f.e * g.e) * B3
  }

  function Wide(t0: nat, t1: nat, t2: nat, t3: nat, t4: nat): nat {
    t0 + t1 * B + t2 * B2 + t3 * B3 + t4 * B4
  }

  function RowSum(x: nat, g: Fe): nat { x * g.a + (x * g.b) * B + (x * g.c) * B2 + (x * g.d) * B3 + (x * g.e) * B4 }

  lemma Row(x: nat, g: Fe)
    ensures x * Val(g) == RowSum(x, g)
  {}

  lemma Rows(f: Fe, y: nat)
    ensures Val(f) * y == f.a * y + (f.b * y) * B + (f.c * y) * B2 + (f.d * y) * B3 + (f.e * y) * B4
  {}

  /** The same identity with the twenty-five products as unknowns. */
  lemma Gather(aa: nat, ab: nat, ac: nat, ad: nat, ae: nat, ba: nat, bb: nat, bc: nat, bd: nat, be: nat, ca: nat,
      cb: nat, cc: nat, cd: nat, ce: nat, da: nat, db: nat, dc: nat, dd: nat, de: nat, ea: nat, eb: nat, ec: nat,
      ed: nat, ee: nat)
    ensures (aa + ab * B + ac * B2 + ad * B3 + ae * B4)
            + (ba + bb * B + bc * B2 + bd * B3 + be * B4) * B
            + (ca + cb * B + cc * B2 + cd * B3 + ce * B4) * B2
            + (da + db * B + dc * B2 + dd * B3 + de * B4) * B3
            + (ea + eb * B + ec * B2 + ed * B3 + ee * B4) * B4
         == Wide(aa + 19 * be + 19 * cd + 19 * dc + 19 * eb, ab + ba + 19 * ce + 19 * dd + 19 * ec,
             ac + bb + ca + 19 * de + 19 * ed, ad + bc + cb + da + 19 * ee, ae + bd + cc + db + ea)
            + ((be + cd + dc + eb) + (ce + dd + ec) * B + (de + ed) * B2 + (ee) * B3) * P
  {
    assert (be + cd + dc + eb) * B5 == (be + cd + dc + eb) * 19 + (be + cd + dc + eb) * P;
    assert ((ce + dd + ec) * B) * B5 == ((ce + dd + ec) * 19) * B + ((ce + dd + ec) * B) * P;
    assert ((de + ed) * B2) * B5 == ((de + ed) * 19) * B2 + ((de + ed) * B2) * P;
    assert (ee * B3) * B5 == (ee * 19) * B3 + (ee * B3) * P;
  }

  lemma SubstRows(f: Fe, y: nat, ra: nat, rb: nat, rc: nat, rd: nat, re: nat)
    requires f.a * y == ra && f.b * y == rb && f.c * y == rc && f.d * y == rd && f.e * y == re
    ensures Val(f) * y == ra + rb * B + rc * B2 + rd * B3 + re * B4
  {
    Rows(f, y);
  }

  lemma GatherRows(f: Fe, g: Fe)
    ensures RowSum(f.a, g) + RowSum(f.b, g) * B + RowSum(f.c, g) * B2 + RowSum(f.d, g) * B3 + RowSum(f.e, g) * B4
         == Wide(T0(f, g), T1(f, g), T2(f, g), T3(f, g), T4(f, g)) + Fold(f, g) * P
  {
    Gather(f.a * g.a, f.a * g.b, f.a * g.c, f.a * g.d, f.a * g.e, f.b * g.a, f.b * g.b, f.b * g.c, f.b * g.d,
        f.b * g.e, f.c * g.a, f.c * g.b, f.c * g.c, f.c * g.d, f.c * g.e, f.d * g.a, f.d * g.b, f.d * g.c, f.d * g.d,
        f.d * g.e, f.e * g.a, f.e * g.b, f.e * g.c, f.e * g.d, f.e * g.e);
  }

  lemma Product(f: Fe, g: Fe)
    ensures Val(f) * Val(g) == Wide(T0(f, g), T1(f, g), T2(f, g), T3(f, g), T4(f, g)) + Fold(f, g) * P
  {
    calc {
      Val(f) * Val(g);
    == { Row(f.a, g); Row(f.b, g); Row(f.c, g); Row(f.d, g); Row(f.e, g);
         SubstRows(f, Val(g), RowSum(f.a, g), RowSum(f.b, g), RowSum(f.c, g), RowSum(f.d, g), RowSum(f.e, g)); }
      RowSum(f.a, g) + RowSum(f.b, g) * B + RowSum(f.c, g) * B2 + RowSum(f.d, g) * B3 + RowSum(f.e, g) * B4;
    == { GatherRows(f, g); }
      Wide(T0(f, g), T1(f, g), T2(f, g), T3(f, g), T4(f, g)) + Fold(f, g) * P;
    }
  }

  lemma MulLe(x: nat, y: nat, m: nat, n: nat)
    requires x <= m && y <= n
    ensures x * y <= m * n
  {
    assert x * y <= m * y;
    assert m * y <= m * n;
  }

  /** A 64 by 64 bit product. */
  method Mul128(x: nat, y: nat) returns (z: nat)
    requires x < LIMIT && y < LIMIT
    ensures z == x * y && z < 0x1000_0000_0000_0000_0000_0000_0000
  {
    MulLe(x, y, LIMIT - 1, LIMIT - 1);
    U128Id(x * y);
    z := U128(x * y);
  }

  /** The product with a limb that was multiplied by 19 as a 64-bit word. */
  method Mul19(x: nat, y: nat) returns (z: nat)
    requires x < LIMIT && y < LIMIT
    ensures z == 19 * (x * y) && z < 19 * 0x1000_0000_0000_0000_0000_0000_0000
  {
    MulLe(x, y, LIMIT - 1, LIMIT - 1);
    U64Id(x * 19);
    var x19 := U64(x * 19);
    assert x19 * y == 19 * (x * y);
    U128Id(x19 * y);
    z := U128(x19 * y);
  }

  method Add128(x: nat, y: nat) returns (z: nat)
    requires x + y < W128
    ensures z == x + y
  {
    z := U128(x + y);
  }

  method Sum128(a: nat, b: nat, c: nat, d: nat, e: nat) returns (z: nat)
    requires a + b + c + d + e < W128
    ensures z == a + b + c + d + e
  {
    z := U128(a + b + c + d + e);
  }

  const COL: nat := 80 * 0x1000_0000_0000_0000_0000_0000_0000

  /** The five column sums of `fe_mul`, none of which loses a bit. */
  method Columns(f: Fe, g: Fe) returns (t0: nat, t1: nat, t2: nat, t3: nat, t4: nat)
    requires Loose(f) && Loose(g)
    ensures t0 == T0(f, g) && t1 == T1(f, g) && t2 == T2(f, g) && t3 == T3(f, g) && t4 == T4(f, g)
    ensures t0 < COL && t1 < COL && t2 < COL && t3 < COL && t4 < 5 * 0x1000_0000_0000_0000_0000_0000_0000
  {
    t0 := Column0(f, g);
    t1 := Column1(f, g);
    t2 := Column2(f, g);
    t3 := Column3(f, g);
    t4 := Column4(f, g);
  }

  method Column0(f: Fe, g: Fe) returns (t: nat)
    requires Loose(f) && Loose(g)
    ensures t == T0(f, g) && t < COL
  {
    var w := Mul128(f.a, g.a);
    var x := Mul19(f.b, g.e);
    var y := Mul19(f.c, g.d);
    var z := Mul19(f.d, g.c);
    var u := Mul19(f.e, g.b);
    t := Sum128(w, x, y, z, u);
  }

  method Column1(f: Fe, g: Fe) returns (t: nat)
    requires Loose(f) && Loose(g)
    ensures t == T1(f, g) && t < COL
  {
    var w := Mul128(f.a, g.b);
    var x := Mul128(f.b, g.a);
    var y := Mul19(f.c, g.e);
    var z := Mul19(f.d, g.d);
    var u := Mul19(f.e, g.c);
    t := Sum128(w, x, y, z, u);
  }

  method Column2(f: Fe, g: Fe) returns (t: nat)
    requires Loose(f) && Loose(g)
    ensures t == T2(f, g) && t < COL
  {
    var w := Mul128(f.a, g.c);
    var x := Mul128(f.b, g.b);
    var y := Mul128(f.c, g.a);
    var z := Mul19(f.d, g.e);
    var u := Mul19(f.e, g.d);
    t := Sum128(w, x, y, z, u);
  }

  method Column3(f: Fe, g: Fe) returns (t: nat)
    requires Loose(f) && Loose(g)
    ensures t == T3(f, g) && t < COL
  {
    var w := Mul128(f.a, g.d);
    var x := Mul128(f.b, g.c);
    var y := Mul128(f.c, g.b);
    var z := Mul128(f.d, g.a);
    var u := Mul19(f.e, g.e);
    t := Sum128(w, x, y, z, u);
  }

  method Column4(f: Fe, g: Fe) returns (t: nat)
    requires Loose(f) && Loose(g)
    ensures t == T4(f, g) && t < 5 * 0x1000_0000_0000_0000_0000_0000_0000
  {
    var w := Mul128(f.a, g.e);
    var x := Mul128(f.b, g.d);
    var y := Mul128(f.c, g.c);
    var z := Mul128(f.d, g.b);
    var u := Mul128(f.e, g.a);
    t := Sum128(w, x, y, z, u);
  }

  /** The carry chain of `fe_mul`: limbs end at most 2^51 and a multiple of p, at most, is dropped. */
  method CarryChain(u0: nat, u1: nat, u2: nat, u3: nat, u4: nat) returns (h: Fe, ghost k: nat)
    requires u0 < COL && u1 < COL && u2 < COL && u3 < COL && u4 < 5 * 0x1000_0000_0000_0000_0000_0000_0000
    ensures Tight(h) && Val(h) == Wide(u0, u1, u2, u3, u4) - k * P
  {
    var t0, t1, t2, t3, t4 := u0, u1, u2, u3, u4;
    var c;
    c, t0 := Split51(t0); t1 := Add128(t1, c);
    c, t1 := Split51(t1); t2 := Add128(t2, c);
    c, t2 := Split51(t2); t3 := Add128(t3, c);
    c, t3 := Split51(t3); t4 := Add128(t4, c);
    c, t4 := Split51(t4); t0 := Add128(t0, 19 * c);
    k := c;
    c, t0 := Split51(t0); t1 := Add128(t1, c);
    c, t1 := Split51(t1); t2 := Add128(t2, c);
    c, t2 := Split51(t2); t3 := Add128(t3, c);
    c, t3 := Split51(t3); t4 := Add128(t4, c);
    h := Fe(t0, t1, t2, t3, t4);
  }

  lemma ProductRes(m: nat, x: nat, y: nat, z: nat, k: nat, w: nat, l: nat, v: nat)
    requires m > 0 && z == x * y && z == w + k * m && v == w - l * m
    ensures v % m == ((x % m) * (y % m)) % m
  {
    Reduced(m, z, k, w, l, v);
    ModMul(m, x, y);
  }

  method FeMul(f: Fe, g: Fe) returns (h: Fe)
    requires Loose(f) && Loose(g)
    ensures Tight(h) && Res(h) == MulP(Res(f), Res(g))
  {
    var t0, t1, t2, t3, t4 := Columns(f, g);
    ghost var k, l;
    h, l := CarryChain(t0, t1, t2, t3, t4);
    k := Fold(f, g);
    assert Val(f) * Val(g) == Wide(t0, t1, t2, t3, t4) + k * P by { Product(f, g); }
    ProductRes(P, Val(f), Val(g), Val(f) * Val(g), k, Wide(t0, t1, t2, t3, t4), l, Val(h));
  }

  lemma Reduced(m: nat, x: nat, k: nat, w: nat, l: nat, v: nat)
    requires m > 0 && x == w + k * m && v == w - l * m
    ensures v % m == x % m
  {
    ModShift(m, w, k);
    ModShift(m, v, l);
  }

  method FeSq(f: Fe) returns (h: Fe)
    requires Loose(f)
    ensures Tight(h) && Res(h) == MulP(Res(f), Res(f))
  {
    h := FeMul(f, f);
  }

  method CarryScalarUp(u0: nat, u1: nat, u2: nat, u3: nat, u4: nat) returns (h: Fe)
    requires Below(Fe(u0, u1, u2, u3, u4), LIMIT * 0x4_0000)
    ensures h.a < B && h.b < B && h.c < B && h.d < B && h.e < 2 * LIMIT * 0x4_0000 && Val(h) == Wide(u0, u1, u2, u3, u4)
  {
    var t0, t1, t2, t3, t4 := u0, u1, u2, u3, u4;
    var c;
    c, t0 := Split51(t0); t1 := Add128(t1, c);
    c, t1 := Split51(t1); t2 := Add128(t2, c);
    c, t2 := Split51(t2); t3 := Add128(t3, c);
    c, t3 := Split51(t3); t4 := Add128(t4, c);
    h := Fe(t0, t1, t2, t3, t4);
  }

  /** `19*c` on 64-bit words. */
  method Times19(c: nat) returns (z: nat)
    requires 19 * c < W64
    ensures z == 19 * c
  {
    U64Id(19 * c);
    z := U64(19 * c);
  }

  method CarryScalarDown(t: Fe) returns (h: Fe, ghost k: nat)
    requires t.a < B && t.b < B && t.c < B && t.d < B && t.e < 2 * LIMIT * 0x4_0000
    ensures Tight(h) && Val(h) == Val(t) - k * P
  {
    var c, t4 := Split51(t.e);
    k := c;
    c := Times19(c);
    var t0 := Add128(t.a, c);
    c, t0 := Split51(t0);
    var t1 := Add128(t.b, c);
    h := Fe(t0, t1, t.c, t.d, t4);
    TopCarry(t, h, k, c);
  }

  /** The shorter carry chain of `fe_mul_scalar`. */
  method CarryScalar(u0: nat, u1: nat, u2: nat, u3: nat, u4: nat) returns (h: Fe, ghost k: nat)
    requires Below(Fe(u0, u1, u2, u3, u4), LIMIT * 0x4_0000)
    ensures Tight(h) && Val(h) == Wide(u0, u1, u2, u3, u4) - k * P
  {
    h := CarryScalarUp(u0, u1, u2, u3, u4);
    h, k := CarryScalarDown(h);
  }

  /** What leaves the top limb comes back nineteen times at the bottom. */
  lemma TopCarry(t: Fe, h: Fe, k: nat, c: nat)
    requires t.e == k * B + h.e && t.a + 19 * k == c * B + h.a && h.b == t.b + c && h.c == t.c && h.d == t.d
    ensures Val(h) == Val(t) - k * P
  {}

  method FeMulScalar(f: Fe, n: nat) returns (h: Fe)
    requires Loose(f) && n < 0x4_0000
    ensures Tight(h) && Res(h) == MulP(Res(f), n % P)
  {
    var t0 := ScaleLimb(f.a, n);
    var t1 := ScaleLimb(f.b, n);
    var t2 := ScaleLimb(f.c, n);
    var t3 := ScaleLimb(f.d, n);
    var t4 := ScaleLimb(f.e, n);
    ghost var l;
    h, l := CarryScalar(t0, t1, t2, t3, t4);
    Rows(f, n);
    ProductRes(P, Val(f), n, Val(f) * n, 0, Wide(t0, t1, t2, t3, t4), l, Val(h));
  }

  method ScaleLimb(x: nat, n: nat) returns (z: nat)
    requires x < LIMIT && n < 0x4_0000
    ensures z == x * n && z < LIMIT * 0x4_0000
  {
    MulLe(x, n, LIMIT, 0x4_0000 - 1);
    U128Id(x * n);
    z := U128(x * n);
  }
}
