/** Conditional swap, and field elements as 32 little-endian bytes (fe_from_bytes, fe_to_bytes, fe_cswap). */
module FieldBytes {
  import opened Bytes
  import opened Numbers
  import opened Field25519

  /** Powers of two used as shifts. */
  lemma Powers()
    ensures Exp2(8) == 0x100 && Exp2(12) == 0x1000 && Exp2(13) == 0x2000
    ensures Exp2(16) == 0x1_0000 && Exp2(24) == 0x100_0000 && Exp2(25) == 0x200_0000 && Exp2(26) == 0x400_0000
    ensures Exp2(32) == 0x1_0000_0000 && Exp2(38) == 0x40_0000_0000 && Exp2(39) == 0x80_0000_0000
    ensures Exp2(40) == 0x100_0000_0000 && Exp2(48) == 0x1_0000_0000_0000
    ensures Exp2(51) == B && Exp2(56) == 0x100_0000_0000_0000 && Exp2(64) == W64
  {
    assert Exp2(8) == 0x100 && Exp2(12) == 0x1000;
    Exp2Add(12, 1); Exp2Add(8, 8); Exp2Add(12, 12); Exp2Add(24, 1); Exp2Add(13, 13);
    Exp2Add(16, 16); Exp2Add(26, 12); Exp2Add(26, 13); Exp2Add(32, 8); Exp2Add(40, 8);
    Exp2Add(39, 12); Exp2Add(48, 8); Exp2Add(32, 32);
  }

  // ---------------------------------------------------------------------------
  // Conditional swap
  // ---------------------------------------------------------------------------

  /** The exclusive-or trick, with mask all zeros or all ones. */
  lemma SwapBits(f: nat, g: nat, swap: bool, k: nat)
    requires f < Exp2(k) && g < Exp2(k)
    ensures
      var x := And(Xor(f, g), if swap then Exp2(k) - 1 else 0);
      Xor(f, x) == (if swap then g else f) && Xor(g, x) == (if swap then f else g)
  {
    XorBelow(f, g, k);
    if swap {
      AndOnes(Xor(f, g), k);
      XorUndo(f, g);
      XorSym(f, g);
      XorUndo(g, f);
    } else {
      AndZero(Xor(f, g));
      XorZero(f);
      XorZero(g);
    }
  }

  lemma Exp2At64(k: nat)
    requires k == 64
    ensures Exp2(k) == W64
  {
    Powers();
  }

  lemma MaskOf(bit: nat)
    requires bit < 2
    ensures U64(0 - bit) == if bit == 1 then W64 - 1 else 0
  {}

  /** One limb of `fe_cswap`. */
  method SwapLimb(f: nat, g: nat, bit: nat) returns (f': nat, g': nat)
    requires f < W64 && g < W64 && bit < 2
    ensures f' == (if bit == 1 then g else f) && g' == (if bit == 1 then f else g)
  {
    var mask := U64(0 - bit);
    var x := And(Xor(f, g), mask);
    f' := Xor(f, x);
    g' := Xor(g, x);
    MaskOf(bit);
    ghost var k := 64;
    Exp2At64(k);
    SwapBits(f, g, bit == 1, k);
  }

  method FeCswap(f: Fe, g: Fe, bit: nat) returns (f': Fe, g': Fe)
    requires Tight(f) && Tight(g) && bit < 2
    ensures if bit == 1 then f' == g && g' == f else f' == f && g' == g
  {
    var fa, ga := SwapLimb(f.a, g.a, bit);
    var fb, gb := SwapLimb(f.b, g.b, bit);
    var fc, gc := SwapLimb(f.c, g.c, bit);
    var fd, gd := SwapLimb(f.d, g.d, bit);
    var fe, ge := SwapLimb(f.e, g.e, bit);
    f', g' := Fe(fa, fb, fc, fd, fe), Fe(ga, gb, gc, gd, ge);
  }

  // ---------------------------------------------------------------------------
  // Bytes
  // ---------------------------------------------------------------------------

  /** The integer written by little-endian bytes. */
  function LE(s: seq<byte>): nat {
    if |s| == 0 then 0 else s[0] + 256 * LE(s[1..])
  }

  /** x moved up by n bytes. */
  function Up(x: nat, n: nat): nat { if n == 0 then x else 256 * Up(x, n - 1) }

  lemma {:induction false} UpIs(x: nat, n: nat)
    ensures Up(x, n) == Exp2(8 * n) * x
  {
    if n > 0 {
      UpIs(x, n - 1);
      var e, f := Exp2(8 * (n - 1)), Exp2(8 * n);
      assert f == 256 * e by { Exp2Add(8, 8 * (n - 1)); assert Exp2(8) == 256; }
      Scale256(e, f, x);
    }
  }

  lemma Scale256(e: nat, f: nat, x: nat)
    requires f == 256 * e
    ensures 256 * (e * x) == f * x
  {}

  lemma {:induction false} LEUp(s: seq<byte>, t: seq<byte>)
    ensures LE(s + t) == LE(s) + Up(LE(t), |s|)
  {
    if |s| == 0 {
      assert s + t == t;
    } else {
      assert (s + t)[1..] == s[1..] + t;
      LEUp(s[1..], t);
    }
  }

  lemma LEConcat(s: seq<byte>, t: seq<byte>)
    ensures LE(s + t) == LE(s) + Exp2(8 * |s|) * LE(t)
  {
    LEUp(s, t);
    UpIs(LE(t), |s|);
  }

  /** Or-ing in `y << k` above the bits of `x`, on 64-bit words. */
  method OrShl(x: nat, y: nat, k: nat) returns (z: nat)
    requires x < Exp2(k) && y * Exp2(k) < W64
    ensures z == x + y * Exp2(k)
  {
    OrDisjoint(x, y, k);
    U64Id(y * Exp2(k));
    z := Or(x, U64(y * Exp2(k)));
  }

  /** Eight bytes as a 64-bit word: `s[o] | s[o+1] << 8 | ... | s[o+7] << 56`. */
  method Load64(s: seq<byte>, o: nat) returns (w: nat)
    requires o + 8 <= |s|
    ensures w == LE(s[o..o + 8]) && w < W64
  {
    Powers();
    var a := OrShl(s[o], s[o + 1], 8);
    a := OrShl(a, s[o + 2], 16);
    a := OrShl(a, s[o + 3], 24);
    a := OrShl(a, s[o + 4], 32);
    a := OrShl(a, s[o + 5], 40);
    a := OrShl(a, s[o + 6], 48);
    w := OrShl(a, s[o + 7], 56);
    LE8(s[o..o + 8]);
  }

  lemma LE8(s: seq<byte>)
    requires |s| == 8
    ensures LE(s) == s[0] as nat + s[1] as nat * 0x100 + s[2] as nat * 0x1_0000 + s[3] as nat * 0x100_0000
      + s[4] as nat * 0x1_0000_0000
                   + s[5] as nat * 0x100_0000_0000 + s[6] as nat * 0x1_0000_0000_0000
                       + s[7] as nat * 0x100_0000_0000_0000
  {
    LE4(s);
    LE4(s[4..]);
    assert LE(s[4..][4..]) == 0;
  }

  lemma LE4(s: seq<byte>)
    requires |s| >= 4
    ensures LE(s) == s[0] as nat + s[1] as nat * 0x100 + s[2] as nat * 0x1_0000 + s[3] as nat * 0x100_0000
      + 0x1_0000_0000 * LE(s[4..])
  {
    assert s[1..][1..] == s[2..] && s[2..][1..] == s[3..] && s[3..][1..] == s[4..];
    assert LE(s) == s[0] + 256 * LE(s[1..]);
    assert LE(s[1..]) == s[1] + 256 * LE(s[2..]);
    assert LE(s[2..]) == s[2] + 256 * LE(s[3..]);
    assert LE(s[3..]) == s[3] + 256 * LE(s[4..]);
  }

  const W192: nat := 0x1_0000_0000_0000_0000_0000_0000_0000_0000_0000_0000_0000_0000

  lemma LEWord(s: seq<byte>, t: seq<byte>)
    requires |s| == 8
    ensures LE(s + t) == LE(s) + W64 * LE(t)
  {
    LEConcat(s, t);
    Exp2At64(8 * |s|);
  }

  lemma LE32(s: seq<byte>)
    requires |s| == 32
    ensures LE(s) == LE(s[0..8]) + LE(s[8..16]) * W64 + LE(s[16..24]) * W128 + LE(s[24..32]) * W192
  {
    var t, u := s[8..], s[16..];
    assert s == s[0..8] + t && t == s[8..16] + u && u == s[16..24] + s[24..32];
    LEWord(s[0..8], t);
    LEWord(s[8..16], u);
    LEWord(s[16..24], s[24..32]);
  }

  /** `((v >> ..) | (w << 13)) & FE_MASK` and its two siblings: `q` are the high bits of the word below. */
  lemma Shl13(q: nat, w: nat)
    requires q < 0x2000 && w < W64
    ensures U64(w * 0x2000) == (w % 0x8_0000_0000_0000) * 0x2000
    ensures (q + (w % 0x8_0000_0000_0000) * 0x2000) % B == q + (w % 0x40_0000_0000) * 0x2000 < B
  {
    var h, l := w / 0x8_0000_0000_0000, w % 0x8_0000_0000_0000;
    assert w * 0x2000 == h * W64 + l * 0x2000;
    DivUnique(w * 0x2000, W64, h, l * 0x2000);
    var g, m := l / 0x40_0000_0000, l % 0x40_0000_0000;
    DivUnique(w, 0x40_0000_0000, h * 0x2000 + g, m);
    assert q + l * 0x2000 == g * B + (q + m * 0x2000);
    DivUnique(q + l * 0x2000, B, g, q + m * 0x2000);
  }

  method Merge13(q: nat, w: nat) returns (h: nat)
    requires q < 0x2000 && w < W64
    ensures h == q + (w % 0x40_0000_0000) * 0x2000 && h < B
  {
    Shl13(q, w);
    assert Or(q, (w % 0x8_0000_0000_0000) * 0x2000) == q + (w % 0x8_0000_0000_0000) * 0x2000 by {
      Powers();
      OrDisjoint(q, w % 0x8_0000_0000_0000, 13);
    }
    h := Or(q, U64(w * 0x2000)) % B;
  }

  lemma Shl26(q: nat, w: nat)
    requires q < 0x400_0000 && w < W64
    ensures U64(w * 0x400_0000) == (w % 0x40_0000_0000) * 0x400_0000
    ensures (q + (w % 0x40_0000_0000) * 0x400_0000) % B == q + (w % 0x200_0000) * 0x400_0000 < B
  {
    var h, l := w / 0x40_0000_0000, w % 0x40_0000_0000;
    assert w * 0x400_0000 == h * W64 + l * 0x400_0000;
    DivUnique(w * 0x400_0000, W64, h, l * 0x400_0000);
    var g, m := l / 0x200_0000, l % 0x200_0000;
    DivUnique(w, 0x200_0000, h * 0x2000 + g, m);
    assert q + l * 0x400_0000 == g * B + (q + m * 0x400_0000);
    DivUnique(q + l * 0x400_0000, B, g, q + m * 0x400_0000);
  }

  method Merge26(q: nat, w: nat) returns (h: nat)
    requires q < 0x400_0000 && w < W64
    ensures h == q + (w % 0x200_0000) * 0x400_0000 && h < B
  {
    Shl26(q, w);
    assert Or(q, (w % 0x40_0000_0000) * 0x400_0000) == q + (w % 0x40_0000_0000) * 0x400_0000 by {
      Powers();
      OrDisjoint(q, w % 0x40_0000_0000, 26);
    }
    h := Or(q, U64(w * 0x400_0000)) % B;
  }

  lemma Shl39(q: nat, w: nat)
    requires q < 0x80_0000_0000 && w < W64
    ensures U64(w * 0x80_0000_0000) == (w % 0x200_0000) * 0x80_0000_0000
    ensures (q + (w % 0x200_0000) * 0x80_0000_0000) % B == q + (w % 0x1000) * 0x80_0000_0000 < B
  {
    var h, l := w / 0x200_0000, w % 0x200_0000;
    assert w * 0x80_0000_0000 == h * W64 + l * 0x80_0000_0000;
    DivUnique(w * 0x80_0000_0000, W64, h, l * 0x80_0000_0000);
    var g, m := l / 0x1000, l % 0x1000;
    DivUnique(w, 0x1000, h * 0x2000 + g, m);
    assert q + l * 0x80_0000_0000 == g * B + (q + m * 0x80_0000_0000);
    DivUnique(q + l * 0x80_0000_0000, B, g, q + m * 0x80_0000_0000);
  }

  method Merge39(q: nat, w: nat) returns (h: nat)
    requires q < 0x80_0000_0000 && w < W64
    ensures h == q + (w % 0x1000) * 0x80_0000_0000 && h < B
  {
    Shl39(q, w);
    assert Or(q, (w % 0x200_0000) * 0x80_0000_0000) == q + (w % 0x200_0000) * 0x80_0000_0000 by {
      Powers();
      OrDisjoint(q, w % 0x200_0000, 39);
    }
    h := Or(q, U64(w * 0x80_0000_0000)) % B;
  }

  /** The low 255 bits of the 32 bytes, cut into limbs. */
  method FeFromBytes(s: seq<byte>) returns (h: Fe)
    requires |s| == 32
    ensures Below(h, B) && Val(h) == LE(s) % B5
  {
    var w0 := Load64(s, 0);
    var w1 := Load64(s, 8);
    var w2 := Load64(s, 16);
    var w3 := Load64(s, 24);
    LE32(s);
    h := FeFromWords(w0, w1, w2, w3);
  }

  method FeFromWords(w0: nat, w1: nat, w2: nat, w3: nat) returns (h: Fe)
    requires w0 < W64 && w1 < W64 && w2 < W64 && w3 < W64
    ensures Below(h, B) && Val(h) == (w0 + w1 * W64 + w2 * W128 + w3 * W192) % B5
  {
    var b := Merge13(w0 / B, w1);
    var c := Merge26(w1 / 0x40_0000_0000, w2);
    var d := Merge39(w2 / 0x200_0000, w3);
    h := Fe(w0 % B, b, c, d, (w3 / 0x1000) % B);
    Limbs(w0, w1, w2, w3, h);
  }

  lemma Limbs(w0: nat, w1: nat, w2: nat, w3: nat, h: Fe)
    requires w0 < W64 && w1 < W64 && w2 < W64 && w3 < W64
    requires h.a == w0 % B && h.b == w0 / B + (w1 % 0x40_0000_0000) * 0x2000
    requires h.c == w1 / 0x40_0000_0000 + (w2 % 0x200_0000) * 0x400_0000
    requires h.d == w2 / 0x200_0000 + (w3 % 0x1000) * 0x80_0000_0000 && h.e == (w3 / 0x1000) % B
    requires Below(h, B)
    ensures Val(h) == (w0 + w1 * W64 + w2 * W128 + w3 * W192) % B5
  {
    var top := (w3 / 0x1000) / B;
    assert w0 + w1 * W64 + w2 * W128 + w3 * W192 == Val(h) + top * B5;
    DivUnique(w0 + w1 * W64 + w2 * W128 + w3 * W192, B5, top, Val(h));
  }

  // ---------------------------------------------------------------------------
  // Canonical output
  // ---------------------------------------------------------------------------

  /** One of the two carry passes of `fe_to_bytes`. */
  method CarryPass(h: Fe) returns (t: Fe, ghost k: nat)
    requires Tight(h)
    ensures t.a < B && t.b < B && t.c < B && t.d < B && t.e <= B
    ensures h.a < B && h.b < B && h.c < B && h.d < B ==> t.e < B
    ensures Val(t) == Val(h) - k * P
  {
    var t0, t1, t2, t3, t4 := h.a, h.b, h.c, h.d, h.e;
    var c;
    c, t4 := Split51(t4); t0 := Add64(t0, 19 * c);
    k := c;
    c, t0 := Split51(t0); t1 := Add64(t1, c);
    c, t1 := Split51(t1); t2 := Add64(t2, c);
    c, t2 := Split51(t2); t3 := Add64(t3, c);
    c, t3 := Split51(t3); t4 := Add64(t4, c);
    t := Fe(t0, t1, t2, t3, t4);
  }

  predicate AtLeastP(t: Fe) {
    t.e == B - 1 && t.d == B - 1 && t.c == B - 1 && t.b == B - 1 && t.a >= B - 19
  }

  lemma AtLeastPOk(t: Fe)
    requires Below(t, B)
    ensures AtLeastP(t) <==> Val(t) >= P
  {}

  /** Two carry passes and a conditional subtraction give the representative below p. */
  method FullReduce(h: Fe) returns (t: Fe)
    requires Tight(h)
    ensures Below(t, B) && Val(t) == Res(h)
  {
    ghost var k;
    t, k := CarryTwice(h);
    var m: int := 0;
    if t.e / B != 0 { m := 1; }
    if AtLeastP(t) { m := 1; }
    AtLeastPOk(t);
    t := SubtractP(t, m);
    Canonical(Val(h), Val(t), k + m);
  }

  method CarryTwice(h: Fe) returns (t: Fe, ghost k: nat)
    requires Tight(h)
    ensures Below(t, B) && Val(t) == Val(h) - k * P
  {
    ghost var l;
    t, k := CarryPass(h);
    t, l := CarryPass(t);
    k := k + l;
  }

  /** `t[i] -= m * p[i]`. */
  method SubtractP(t: Fe, m: nat) returns (h: Fe)
    requires Below(t, B) && m == if AtLeastP(t) then 1 else 0
    ensures Below(h, B) && Val(h) == Val(t) - m * P
  {
    if m == 1 {
      h := Fe(t.a - (B - 19), t.b - (B - 1), t.c - (B - 1), t.d - (B - 1), t.e - (B - 1));
    } else {
      h := t;
    }
  }

  lemma Canonical(x: nat, v: nat, k: nat)
    requires v == x - k * P && v < P
    ensures v == x % P
  {
    DivUnique(x, P, k, v);
  }

  /** `x | (y << 51)` on 64-bit words, for `x` below 2^51. */
  method Pack51(x: nat, y: nat) returns (z: nat)
    requires x < B && y < W64
    ensures z == x + (y % 0x2000) * B && z < W64
  {
    var h, l := y / 0x2000, y % 0x2000;
    assert y * B == h * W64 + l * B;
    DivUnique(y * B, W64, h, l * B);
    assert Or(x, l * B) == x + l * B by {
      Powers();
      OrDisjoint(x, l, 51);
    }
    z := Or(x, U64(y * B));
  }

  /** `x | (y << 38)` on 64-bit words, for `x` below 2^38. */
  method Pack38(x: nat, y: nat) returns (z: nat)
    requires x < 0x40_0000_0000 && y < W64
    ensures z == x + (y % 0x400_0000) * 0x40_0000_0000 && z < W64
  {
    var h, l := y / 0x400_0000, y % 0x400_0000;
    assert y * 0x40_0000_0000 == h * W64 + l * 0x40_0000_0000;
    DivUnique(y * 0x40_0000_0000, W64, h, l * 0x40_0000_0000);
    assert Or(x, l * 0x40_0000_0000) == x + l * 0x40_0000_0000 by {
      Powers();
      OrDisjoint(x, l, 38);
    }
    z := Or(x, U64(y * 0x40_0000_0000));
  }

  /** `x | (y << 25)` on 64-bit words, for `x` below 2^25. */
  method Pack25(x: nat, y: nat) returns (z: nat)
    requires x < 0x200_0000 && y < W64
    ensures z == x + (y % 0x80_0000_0000) * 0x200_0000 && z < W64
  {
    var h, l := y / 0x80_0000_0000, y % 0x80_0000_0000;
    assert y * 0x200_0000 == h * W64 + l * 0x200_0000;
    DivUnique(y * 0x200_0000, W64, h, l * 0x200_0000);
    assert Or(x, l * 0x200_0000) == x + l * 0x200_0000 by {
      Powers();
      OrDisjoint(x, l, 25);
    }
    z := Or(x, U64(y * 0x200_0000));
  }

  /** `x | (y << 12)` on 64-bit words, for `x` below 2^12. */
  method Pack12(x: nat, y: nat) returns (z: nat)
    requires x < 0x1000 && y < W64
    ensures z == x + (y % 0x10_0000_0000_0000) * 0x1000 && z < W64
  {
    var h, l := y / 0x10_0000_0000_0000, y % 0x10_0000_0000_0000;
    assert y * 0x1000 == h * W64 + l * 0x1000;
    DivUnique(y * 0x1000, W64, h, l * 0x1000);
    assert Or(x, l * 0x1000) == x + l * 0x1000 by {
      Powers();
      OrDisjoint(x, l, 12);
    }
    z := Or(x, U64(y * 0x1000));
  }

  lemma Words(t: Fe, w0: nat, w1: nat, w2: nat, w3: nat)
    requires Below(t, B)
    requires w0 == t.a + (t.b % 0x2000) * B && w1 == t.b / 0x2000 + (t.c % 0x400_0000) * 0x40_0000_0000
    requires w2 == t.c / 0x400_0000 + (t.d % 0x80_0000_0000) * 0x200_0000
    requires w3 == t.d / 0x80_0000_0000 + (t.e % 0x10_0000_0000_0000) * 0x1000
    ensures w0 + w1 * W64 + w2 * W128 + w3 * W192 == Val(t)
  {}

  lemma Div256(w: nat, m: nat)
    requires m > 0
    ensures w / (m * 256) == (w / m) / 256
  {
    var q, r := w / m, w % m;
    var a, b := q / 256, q % 256;
    assert w == a * (m * 256) + (b * m + r) by {
      assert q * m == (a * 256 + b) * m == a * (m * 256) + b * m;
    }
    assert b * m + r < m * 256 by { MulLe(b, m, 255, m); }
    DivUnique(w, m * 256, a, b * m + r);
  }

  /** The eight bytes of a word: `s[i] = (uint8_t)(w >> (8 * i))`. */
  method Store64(w: nat) returns (s: seq<byte>)
    requires w < W64
    ensures |s| == 8 && LE(s) == w
  {
    s := [];
    ghost var e, q := 1, w;
    for i := 0 to 8
      invariant |s| == i && e == Exp2(8 * i) && q == w / Exp2(8 * i) && LE(s) + e * q == w
    {
      var b: byte := (w / Exp2(8 * i)) % 256;
      NextByte(w, i);
      LEAppend(s, b);
      StoreSum(LE(s), e, q, w);
      s := s + [b];
      e, q := e * 256, q / 256;
    }
    assert Exp2(64) == W64 by { Powers(); }
  }

  lemma LEAppend(s: seq<byte>, b: byte)
    ensures LE(s + [b]) == LE(s) + Exp2(8 * |s|) * b
  {
    LEConcat(s, [b]);
    assert LE([b]) == b;
  }

  lemma NextByte(w: nat, i: nat)
    ensures Exp2(8 * (i + 1)) == Exp2(8 * i) * 256 && w / Exp2(8 * (i + 1)) == (w / Exp2(8 * i)) / 256
  {
    Exp2Add(8 * i, 8);
    assert Exp2(8) == 256;
    Div256(w, Exp2(8 * i));
  }

  lemma StoreSum(l: nat, e: nat, q: nat, w: nat)
    requires l + e * q == w
    ensures (l + e * (q % 256)) + (e * 256) * (q / 256) == w
  {
    Regroup(e, q);
  }

  lemma Regroup(e: nat, q: nat)
    ensures e * q == (e * 256) * (q / 256) + e * (q % 256)
  {
    var a, b := q / 256, q % 256;
    assert e * (256 * a + b) == (e * 256) * a + e * b;
  }

  /** 32 little-endian bytes of the representative below p. */
  method FeToBytes(h: Fe) returns (s: seq<byte>)
    requires Tight(h)
    ensures |s| == 32 && LE(s) == Res(h)
  {
    var t := FullReduce(h);
    var w0 := Pack51(t.a, t.b);
    var w1 := Pack38(t.b / 0x2000, t.c);
    var w2 := Pack25(t.c / 0x400_0000, t.d);
    var w3 := Pack12(t.d / 0x80_0000_0000, t.e);
    var s0 := Store64(w0);
    var s1 := Store64(w1);
    var s2 := Store64(w2);
    var s3 := Store64(w3);
    s := s0 + s1 + s2 + s3;
    LE32(s);
    assert s[0..8] == s0 && s[8..16] == s1 && s[16..24] == s2 && s[24..32] == s3;
    Words(t, w0, w1, w2, w3);
  }

  /** Reading 32 bytes and writing them back gives (s mod 2^255) mod p. */
  method BytesRoundTrip(s: seq<byte>) returns (r: seq<byte>)
    requires |s| == 32
    ensures |r| == 32 && LE(r) == (LE(s) % B5) % P
  {
    var h := FeFromBytes(s);
    r := FeToBytes(h);
  }
}
