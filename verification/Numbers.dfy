/** Facts about numbers and finite sets that several components need. */
module Numbers {

  lemma SubsetCard(a: set<nat>, b: set<nat>)
    requires a <= b
    ensures |a| <= |b|
  {
    if a != {} {
      var e :| e in a;
      SubsetCard(a - {e}, b - {e});
    }
  }

  lemma MulSign(d: int, m: int)
    requires m > 0
    ensures d > 0 ==> d * m >= m
    ensures d < 0 ==> d * m <= -m
  {}

  lemma MulMono(c: nat, x: nat, y: nat)
    requires x <= y
    ensures c * x <= c * y
  {
    assert c * y == c * x + c * (y - x);
  }

  /** Quotient and remainder are what they are declared to be. */
  lemma DivUnique(x: int, m: int, q: int, r: int)
    requires m > 0 && 0 <= r < m && x == q * m + r
    ensures x / m == q && x % m == r
  {
    var d := q - x / m;
    MulSign(d, m);
    assert d * m == q * m - (x / m) * m;
  }

  /** d added n times. */
  function Times(d: nat, n: nat): nat { if n == 0 then 0 else Times(d, n - 1) + d }

  lemma {:induction false} TimesIs(d: nat, n: nat)
    ensures Times(d, n) == d * n
  {
    if n > 0 { TimesIs(d, n - 1); }
  }

  // ---------------------------------------------------------------------------
  // Remainders
  // ---------------------------------------------------------------------------

  lemma ModShift(m: int, x: int, k: int)
    requires m > 0
    ensures (x + k * m) % m == x % m
  {
    var q, r := x / m, x % m;
    assert x + k * m == (q + k) * m + r;
    DivUnique(x + k * m, m, q + k, r);
  }

  lemma ModMulLeft(m: int, x: int, y: int)
    requires m > 0
    ensures ((x % m) * y) % m == (x * y) % m
  {
    TimesRemainder(m, x, x / m, x % m, y);
  }

  lemma TimesRemainder(m: int, x: int, q: int, r: int, y: int)
    requires m > 0 && x == q * m + r
    ensures (r * y) % m == (x * y) % m
  {
    Distribute(m, q, r, y);
    ModShift(m, r * y, q * y);
  }

  lemma Distribute(m: int, q: int, r: int, y: int)
    ensures (q * m + r) * y == r * y + (q * y) * m
  {
    assert (q * m + r) * y == (q * m) * y + r * y;
    assert (q * m) * y == (q * y) * m;
  }

  lemma ModMulRight(m: int, x: int, y: int)
    requires m > 0
    ensures (x * (y % m)) % m == (x * y) % m
  {
    ModMulLeft(m, y, x);
    assert x * (y % m) == (y % m) * x && x * y == y * x;
  }

  lemma ModMul(m: int, x: int, y: int)
    requires m > 0
    ensures (x * y) % m == ((x % m) * (y % m)) % m
  {
    ModMulLeft(m, x, y);
    ModMulRight(m, x % m, y);
  }

  lemma ModAdd(m: int, x: int, y: int)
    requires m > 0
    ensures (x + y) % m == (x % m + y % m) % m
  {
    assert x + y == (x % m + y % m) + (x / m + y / m) * m;
    ModShift(m, x % m + y % m, x / m + y / m);
  }

  lemma ModAddRight(m: int, x: int, y: int)
    requires m > 0
    ensures (x + y % m) % m == (x + y) % m
  {
    assert x + y == (x + y % m) + (y / m) * m;
    ModShift(m, x + y % m, y / m);
  }

  lemma ModSub(m: int, x: int, y: int)
    requires m > 0
    ensures (x - y) % m == (x % m - y % m) % m
  {
    assert x - y == (x % m - y % m) + (x / m - y / m) * m;
    ModShift(m, x % m - y % m, x / m - y / m);
  }

  /** Adding v changes nothing modulo m exactly when v is 0 there. */
  lemma ModEqual(m: int, u: int, v: int)
    requires m > 0
    ensures (u + v) % m == u % m <==> v % m == 0
  {
    ModAddRight(m, u, v);
    ModSub(m, u + v, u);
  }

  lemma ModAssoc(m: int, x: int, y: int, z: int)
    requires m > 0
    ensures (((x * y) % m) * z) % m == (x * ((y * z) % m)) % m
  {
    ModMulLeft(m, x * y, z);
    ModMulRight(m, x, y * z);
    assert (x * y) * z == x * (y * z);
  }
}
