/** Bytes, powers of two, and the bit operations on non-negative words. */
module Bytes {

  type byte = x: nat | x < 256

  const W32: nat := 0x1_0000_0000
  const W64: nat := 0x1_0000_0000_0000_0000

  function Exp2(n: nat): (r: nat)
    ensures r > 0
  {
    if n == 0 then 1 else 2 * Exp2(n - 1)
  }

  lemma {:induction false} Exp2Add(m: nat, n: nat)
    ensures Exp2(m + n) == Exp2(m) * Exp2(n)
  {
    if m > 0 {
      Exp2Add(m - 1, n);
      assert Exp2(m) * Exp2(n) == 2 * (Exp2(m - 1) * Exp2(n));
    }
  }

  lemma Exp2Sum(m: nat, n: nat, v: nat, w: nat)
    requires Exp2(m) == v && Exp2(n) == w
    ensures Exp2(m + n) == v * w
  {
    Exp2Add(m, n);
  }

  // ---------------------------------------------------------------------------
  // |, & and ^ on non-negative words, bit by bit
  // ---------------------------------------------------------------------------

  function Or(x: nat, y: nat): nat
    decreases x + y
  {
    if x == 0 && y == 0 then 0 else 2 * Or(x / 2, y / 2) + if x % 2 == 1 || y % 2 == 1 then 1 else 0
  }

  function And(x: nat, y: nat): nat {
    if x == 0 then 0 else 2 * And(x / 2, y / 2) + if x % 2 == 1 && y % 2 == 1 then 1 else 0
  }

  function Xor(x: nat, y: nat): nat
    decreases x + y
  {
    if x == 0 && y == 0 then 0 else 2 * Xor(x / 2, y / 2) + if x % 2 != y % 2 then 1 else 0
  }

  lemma {:induction false} OrZero(y: nat)
    ensures Or(0, y) == y
  {
    if y > 0 { OrZero(y / 2); }
  }

  /** Where the bits are disjoint, `|` is `+`. */
  lemma {:induction false} OrDisjoint(x: nat, y: nat, k: nat)
    requires x < Exp2(k)
    ensures Or(x, y * Exp2(k)) == x + y * Exp2(k)
    decreases k
  {
    if k == 0 {
      OrZero(y);
    } else {
      var z := y * Exp2(k - 1);
      assert y * Exp2(k) == 2 * z;
      OrDisjoint(x / 2, y, k - 1);
    }
  }

  lemma {:induction false} XorUndo(x: nat, y: nat)
    ensures Xor(x, Xor(x, y)) == y
    decreases x + y
  {
    if x > 0 || y > 0 {
      XorUndo(x / 2, y / 2);
      var z := Xor(x, y);
      assert z / 2 == Xor(x / 2, y / 2);
    }
  }

  lemma {:induction false} XorZero(x: nat)
    ensures Xor(x, 0) == x && Xor(x, x) == 0
  {
    if x > 0 { XorZero(x / 2); }
  }

  lemma {:induction false} XorSym(x: nat, y: nat)
    ensures Xor(x, y) == Xor(y, x)
    decreases x + y
  {
    if x > 0 || y > 0 { XorSym(x / 2, y / 2); }
  }

  lemma {:induction false} XorBelow(x: nat, y: nat, k: nat)
    requires x < Exp2(k) && y < Exp2(k)
    ensures Xor(x, y) < Exp2(k)
    decreases k
  {
    if k > 0 { XorBelow(x / 2, y / 2, k - 1); }
  }

  lemma {:induction false} AndZero(x: nat)
    ensures And(x, 0) == 0
  {
    if x > 0 { AndZero(x / 2); }
  }

  lemma {:induction false} AndOnes(x: nat, k: nat)
    requires x < Exp2(k)
    ensures And(x, Exp2(k) - 1) == x
  {
    if x > 0 {
      OddHalf(Exp2(k - 1));
      AndOnes(x / 2, k - 1);
    }
  }

  lemma OddHalf(e: nat)
    requires e > 0
    ensures (2 * e - 1) / 2 == e - 1 && (2 * e - 1) % 2 == 1
  {}

  // ---------------------------------------------------------------------------
  // Most significant byte first
  // ---------------------------------------------------------------------------

  /** The low n bytes of v, most significant first. */
  function BigEndian(v: nat, n: nat): (s: seq<byte>)
    ensures |s| == n
    decreases n, v
  {
    if n == 0 then [] else BigEndian(v / 256, n - 1) + [v % 256]
  }

  function FromBigEndian(s: seq<byte>): nat {
    if |s| == 0 then 0 else 256 * FromBigEndian(s[..|s| - 1]) + s[|s| - 1]
  }

  lemma {:induction false} BigEndianValue(v: nat, n: nat, p: nat)
    requires p == Pow256(n) && v < p
    ensures FromBigEndian(BigEndian(v, n)) == v
    decreases n
  {
    if n > 0 {
      BigEndianValue(v / 256, n - 1, Pow256(n - 1));
      var s := BigEndian(v, n);
      assert s[..|s| - 1] == BigEndian(v / 256, n - 1);
    }
  }

  function Pow256(n: nat): nat { if n == 0 then 1 else 256 * Pow256(n - 1) }

  lemma Pow256At(n: nat)
    requires n == 8
    ensures Pow256(n) == W64
  {
    assert Pow256(n - 7) == 0x100;
    assert Pow256(n - 6) == 0x1_0000;
    assert Pow256(n - 5) == 0x100_0000;
    assert Pow256(n - 4) == 0x1_0000_0000;
    assert Pow256(n - 3) == 0x100_0000_0000;
    assert Pow256(n - 2) == 0x1_0000_0000_0000;
    assert Pow256(n - 1) == 0x100_0000_0000_0000;
  }
}
