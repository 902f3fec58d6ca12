/** Powers modulo 2^255 - 19 and the inversion chain `fe_invert` of src/kernel/crypto.c. */
module Curve25519 {
  import opened Bytes
  import opened Numbers
  import opened Field25519

  // ---------------------------------------------------------------------------
  // Inversion by exponentiation
  // ---------------------------------------------------------------------------

  function PowP(x: nat, e: nat): nat {
    if e == 0 then 1 else MulP(x, PowP(x, e - 1))
  }

  lemma MulPMod(x: nat, y: nat)
    ensures MulP(x % P, y) == MulP(x, y) && MulP(x, y) < P
  {
    ModMulLeft(P, x, y);
  }

  lemma {:induction false} PowAdd(x: nat, a: nat, b: nat)
    requires b > 0
    ensures MulP(PowP(x, a), PowP(x, b)) == PowP(x, a + b)
  {
    if a == 0 {
      PowBelow(x, b);
    } else {
      PowAdd(x, a - 1, b);
      ModAssoc(P, x, PowP(x, a - 1), PowP(x, b));
    }
  }

  lemma PowBelow(x: nat, b: nat)
    requires b > 0
    ensures PowP(x, b) < P && MulP(1, PowP(x, b)) == PowP(x, b)
  {}

  method MulPow(f: Fe, g: Fe, ghost z: nat, ghost a: nat, ghost b: nat) returns (h: Fe)
    requires Tight(f) && Tight(g) && a > 0 && b > 0 && Res(f) == PowP(z, a) && Res(g) == PowP(z, b)
    ensures Tight(h) && Res(h) == PowP(z, a + b)
  {
    h := FeMul(f, g);
    PowAdd(z, a, b);
  }

  lemma Exp2Step(e: nat, i: nat)
    ensures e * Exp2(i + 1) == e * Exp2(i) + e * Exp2(i)
  {
    assert Exp2(i + 1) == Exp2(i) + Exp2(i);
    assert e * (Exp2(i) + Exp2(i)) == e * Exp2(i) + e * Exp2(i);
  }

  /** `n` squarings raise the exponent by the factor 2^n. */
  method Squarings(f: Fe, n: nat, ghost z: nat, ghost e: nat) returns (h: Fe)
    requires Tight(f) && n > 0 && e > 0 && Res(f) == PowP(z, e)
    ensures Tight(h) && Res(h) == PowP(z, e * Exp2(n))
  {
    h := MulPow(f, f, z, e, e);
    ghost var k := e + e;
    Exp2Step(e, 0);
    for i := 1 to n
      invariant Tight(h) && k == e * Exp2(i) && k > 0 && Res(h) == PowP(z, k)
    {
      h := MulPow(h, h, z, k, k);
      k := k + k;
      Exp2Step(e, i);
    }
  }

  lemma Exponents()
    ensures Exp2(5) == 0x20 && Exp2(10) == 0x400 && Exp2(20) == 0x10_0000
    ensures Exp2(50) == 0x4_0000_0000_0000
    ensures Exp2(100) == 0x10_0000_0000_0000_0000_0000_0000
  {
    assert Exp2(5) == 0x20;
    Exp2Sum(5, 5, 0x20, 0x20);
    Exp2Sum(10, 10, 0x400, 0x400);
    Exp2Sum(20, 20, 0x10_0000, 0x10_0000);
    Exp2Sum(40, 10, 0x100_0000_0000, 0x400);
    Exp2Sum(50, 50, 0x4_0000_0000_0000, 0x4_0000_0000_0000);
  }

  /** The squaring chain computes the power 2^255 - 21, which is p - 2. */
  method FeInvert(f: Fe) returns (h: Fe)
    requires Tight(f)
    ensures Tight(h) && Res(h) == PowP(Res(f), P - 2)
  {
    ghost var z := Res(f);
    assert PowP(z, 1) == z by { MulPMod(Val(f), 1); }
    var t0, t1 := ShortChain(f, z);
    Exponents();
    var t2 := Squarings(t1, 5, z, 31);
    t1 := MulPow(t2, t1, z, 31 * Exp2(5), 31);
    t2 := Squarings(t1, 10, z, 0x3FF);
    t2 := MulPow(t2, t1, z, 0x3FF * Exp2(10), 0x3FF);
    var t3 := Squarings(t2, 20, z, 0xF_FFFF);
    t2 := MulPow(t3, t2, z, 0xF_FFFF * Exp2(20), 0xF_FFFF);
    t2 := Squarings(t2, 10, z, 0xFF_FFFF_FFFF);
    t1 := MulPow(t2, t1, z, 0xFF_FFFF_FFFF * Exp2(10), 0x3FF);
    h := LongChain(t0, t1, z);
  }

  /** z^11 and z^31. */
  method ShortChain(f: Fe, ghost z: nat) returns (t0: Fe, t1: Fe)
    requires Tight(f) && Res(f) == PowP(z, 1)
    ensures Tight(t0) && Tight(t1) && Res(t0) == PowP(z, 11) && Res(t1) == PowP(z, 31)
  {
    t0 := MulPow(f, f, z, 1, 1);
    t1 := MulPow(t0, t0, z, 2, 2);
    t1 := MulPow(t1, t1, z, 4, 4);
    t1 := MulPow(f, t1, z, 1, 8);
    t0 := MulPow(t0, t1, z, 2, 9);
    var t2 := MulPow(t0, t0, z, 11, 11);
    t1 := MulPow(t1, t2, z, 9, 22);
  }

  /** From z^11 and z^(2^50 - 1) to z^(2^255 - 21). */
  method LongChain(t0: Fe, u: Fe, ghost z: nat) returns (h: Fe)
    requires Tight(t0) && Tight(u) && Res(t0) == PowP(z, 11) && Res(u) == PowP(z, 0x3_FFFF_FFFF_FFFF)
    ensures Tight(h) && Res(h) == PowP(z, P - 2)
  {
    Exponents();
    var t1 := u;
    var t2 := Squarings(t1, 50, z, 0x3_FFFF_FFFF_FFFF);
    t2 := MulPow(t2, t1, z, 0x3_FFFF_FFFF_FFFF * Exp2(50), 0x3_FFFF_FFFF_FFFF);
    ghost var e := 0x3_FFFF_FFFF_FFFF * Exp2(50) + 0x3_FFFF_FFFF_FFFF;
    var t3 := Squarings(t2, 100, z, e);
    t2 := MulPow(t3, t2, z, e * Exp2(100), e);
    e := e * Exp2(100) + e;
    t2 := Squarings(t2, 50, z, e);
    t1 := MulPow(t2, t1, z, e * Exp2(50), 0x3_FFFF_FFFF_FFFF);
    e := e * Exp2(50) + 0x3_FFFF_FFFF_FFFF;
    t1 := Squarings(t1, 5, z, e);
    h := MulPow(t1, t0, z, e * Exp2(5), 11);
  }
}
