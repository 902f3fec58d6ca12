/** The arithmetic evaluator of src/kernel/shell.c (arith_primary, arith_term, arith_expr). */
module Arith {

  const NAME_MAX: nat := 23

  /** Environment variables: keys and values. */
  type Env = seq<(string, string)>

  /** A value and the position behind the text read. */
  datatype Out = Out(v: int, p: nat)

  // ---------------------------------------------------------------------------
  // Characters and numbers
  // ---------------------------------------------------------------------------

  /** The character at p; the terminator at and behind the end. */
  function At(s: string, p: nat): char { if p < |s| then s[p] else '\0' }

  predicate Digit(c: char) { '0' <= c <= '9' }

  predicate Letter(c: char) { 'a' <= c <= 'z' || 'A' <= c <= 'Z' || c == '_' }

  function Skip(s: string, p: nat): (q: nat)
    requires p <= |s|
    ensures p <= q <= |s| && At(s, q) != ' '
    decreases |s| - p
  {
    if At(s, p) == ' ' then Skip(s, p + 1) else p
  }

  function DigitOf(c: char): nat
    requires Digit(c)
  {
    (c - '0') as nat
  }

  /** Reads digits from p on, onto v. */
  function Digits(s: string, p: nat, v: nat): (o: Out)
    requires p <= |s|
    ensures p <= o.p <= |s|
    decreases |s| - p
  {
    if Digit(At(s, p)) then Digits(s, p + 1, v * 10 + DigitOf(s[p])) else Out(v, p)
  }

  /** The end of a name from p on, at most n more characters. */
  function NameEnd(s: string, p: nat, n: nat): (q: nat)
    requires p <= |s|
    ensures p <= q <= |s|
    decreases n, |s|
  {
    if n > 0 && (Letter(At(s, p)) || Digit(At(s, p))) then NameEnd(s, p + 1, n - 1) else p
  }

  /** The value of a variable: that of the first entry with its name, else 0. */
  function VarValue(env: Env, name: string): int {
    if |env| == 0 then 0
    else if env[0].0 == name then
      var n := env[0].1;
      if At(n, 0) == '-' then -(Digits(n, 1, 0).v) else Digits(n, 0, 0).v
    else VarValue(env[1..], name)
  }

  /** Division rounds toward zero, and gives 0 for a zero divisor. */
  function Quot(a: int, b: int): int {
    if b == 0 then 0
    else if (a >= 0) == (b > 0) then Magnitude(a) / Magnitude(b)
    else -(Magnitude(a) / Magnitude(b))
  }

  function Magnitude(a: int): nat { if a < 0 then -a else a }

  function Rem(a: int, b: int): int { if b == 0 then 0 else a - b * Quot(a, b) }

  /** Quotient and remainder as in C: the remainder has the sign of the dividend. */
  lemma Truncates(a: int, b: int)
    requires b != 0
    ensures a == b * Quot(a, b) + Rem(a, b) && Magnitude(Rem(a, b)) < Magnitude(b)
    ensures Rem(a, b) == 0 || (Rem(a, b) > 0 <==> a > 0)
  {
    var y, r := RemParts(a, b, Quot(a, b));
    RemIs(a, b, y);
    SignOf(a, Magnitude(b), y, r, Rem(a, b));
  }

  lemma RemIs(a: int, b: int, y: int)
    requires b != 0 && y == b * Quot(a, b)
    ensures Rem(a, b) == a - y && a == b * Quot(a, b) + Rem(a, b)
  {}

  lemma SignOf(a: int, n: int, y: int, r: int, m: int)
    requires 0 <= r < n && r <= Magnitude(a) && y == (if a >= 0 then a - r else a + r) && m == a - y
    ensures Magnitude(m) < n && (m == 0 || (m > 0 <==> a > 0))
  {}

  lemma RemParts(a: int, b: int, x: int) returns (y: int, r: int)
    requires b != 0 && x == Quot(a, b)
    ensures y == b * x && 0 <= r < Magnitude(b) && r <= Magnitude(a) && y == if a >= 0 then a - r else a + r
  {
    var q, k;
    q, k, r := DivParts(Magnitude(a), Magnitude(b));
    Signs(b, Magnitude(b), q, k);
    QuotIs(a, b, q, x);
    y := if a >= 0 then k else -k;
  }

  lemma QuotIs(a: int, b: int, q: int, x: int)
    requires b != 0 && q == Magnitude(a) / Magnitude(b) && x == Quot(a, b)
    ensures x == if (a >= 0) == (b > 0) then q else -q
  {}

  lemma DivParts(m: nat, n: nat) returns (q: int, k: int, r: int)
    requires n > 0
    ensures q == m / n && k == n * q && m == k + r && 0 <= r < n && r <= m
  {
    q, r := m / n, m % n;
    k := n * q;
  }

  lemma Signs(b: int, n: int, q: int, k: int)
    requires (b == n || b == -n) && k == n * q
    ensures b == n ==> b * q == k && b * -q == -k
    ensures b == -n ==> b * q == -k && b * -q == k
  {}

  // ---------------------------------------------------------------------------
  // What the evaluator computes
  // ---------------------------------------------------------------------------

  function Primary(env: Env, s: string, p: nat): (o: Out)
    requires p <= |s|
    ensures p <= o.p <= |s|
    decreases |s| - p, 0
  {
    var q := Skip(s, p);
    if At(s, q) == '(' then
      var e := Expr(env, s, q + 1);
      var r := Skip(s, e.p);
      Out(e.v, if At(s, r) == ')' then r + 1 else r)
    else if At(s, q) == '-' then
      var e := Primary(env, s, q + 1);
      Out(-e.v, e.p)
    else
      var n := if At(s, q) == '$' then q + 1 else q;
      if Letter(At(s, n)) then
        var e := NameEnd(s, n, NAME_MAX);
        Out(VarValue(env, s[n..e]), e)
      else Digits(s, n, 0)
  }

  /** The loop of `arith_term`. */
  function TermRest(env: Env, s: string, o: Out): (r: Out)
    requires o.p <= |s|
    ensures o.p <= r.p <= |s|
    decreases |s| - o.p, 1
  {
    var q := Skip(s, o.p);
    if At(s, q) == '*' || At(s, q) == '/' || At(s, q) == '%' then
      var b := Primary(env, s, q + 1);
      TermRest(env, s, Out(Product(At(s, q), o.v, b.v), b.p))
    else o
  }

  function Product(op: char, a: int, b: int): int {
    if op == '*' then a * b else if op == '/' then Quot(a, b) else Rem(a, b)
  }

  function Term(env: Env, s: string, p: nat): (r: Out)
    requires p <= |s|
    ensures p <= r.p <= |s|
    decreases |s| - p, 2
  {
    TermRest(env, s, Primary(env, s, p))
  }

  /** The loop of `arith_expr`. */
  function ExprRest(env: Env, s: string, o: Out): (r: Out)
    requires o.p <= |s|
    ensures o.p <= r.p <= |s|
    decreases |s| - o.p, 3
  {
    var q := Skip(s, o.p);
    if At(s, q) == '+' || At(s, q) == '-' then
      var b := Term(env, s, q + 1);
      ExprRest(env, s, Out(Total(At(s, q), o.v, b.v), b.p))
    else o
  }

  function Total(op: char, a: int, b: int): int { if op == '+' then a + b else a - b }

  function Expr(env: Env, s: string, p: nat): (r: Out)
    requires p <= |s|
    ensures p <= r.p <= |s|
    decreases |s| - p, 4
  {
    ExprRest(env, s, Term(env, s, p))
  }

  // ---------------------------------------------------------------------------
  // The evaluator itself
  // ---------------------------------------------------------------------------

  method SkipSpaces(s: string, p: nat) returns (q: nat)
    requires p <= |s|
    ensures q == Skip(s, p)
  {
    q := p;
    while At(s, q) == ' '
      invariant q <= |s| && Skip(s, q) == Skip(s, p)
      decreases |s| - q
    {
      q := q + 1;
    }
  }

  method ReadDigits(s: string, p: nat) returns (v: nat, q: nat)
    requires p <= |s|
    ensures Out(v, q) == Digits(s, p, 0)
  {
    v, q := 0, p;
    while Digit(At(s, q))
      invariant q <= |s| && Digits(s, q, v) == Digits(s, p, 0)
      decreases |s| - q
    {
      v := v * 10 + DigitOf(s[q]);
      q := q + 1;
    }
  }

  lemma OneMoreChar(s: string, p: nat, q: nat)
    requires p <= q < |s|
    ensures s[p..q] + [s[q]] == s[p..q + 1]
  {}

  method ReadName(s: string, p: nat) returns (name: string, q: nat)
    requires p <= |s|
    ensures q == NameEnd(s, p, NAME_MAX) && name == s[p..q]
  {
    name, q := "", p;
    var left := NAME_MAX;
    ghost var end := NameEnd(s, p, NAME_MAX);
    while (Letter(At(s, q)) || Digit(At(s, q))) && left > 0
      invariant p <= q <= |s| && left >= 0 && NameEnd(s, q, left) == end && name == s[p..q]
      decreases left
    {
      OneMoreChar(s, p, q);
      name := name + [s[q]];
      q := q + 1;
      left := left - 1;
    }
  }

  method Lookup(env: Env, name: string) returns (v: int)
    ensures v == VarValue(env, name)
  {
    for e := 0 to |env|
      invariant VarValue(env, name) == VarValue(env[e..], name)
    {
      if env[e].0 == name {
        var n := env[e].1;
        var q;
        if At(n, 0) == '-' {
          v, q := ReadDigits(n, 1);
          return -v;
        }
        v, q := ReadDigits(n, 0);
        return;
      }
      assert env[e..][1..] == env[e + 1..];
    }
    return 0;
  }

  method ArithPrimary(env: Env, s: string, p: nat) returns (v: int, q: nat)
    requires p <= |s|
    ensures Out(v, q) == Primary(env, s, p)
    decreases |s| - p, 0
  {
    q := SkipSpaces(s, p);
    if At(s, q) == '(' {
      v, q := ArithExpr(env, s, q + 1);
      q := SkipSpaces(s, q);
      if At(s, q) == ')' { q := q + 1; }
      return;
    }
    if At(s, q) == '-' {
      v, q := ArithPrimary(env, s, q + 1);
      return -v, q;
    }
    if At(s, q) == '$' { q := q + 1; }
    if Letter(At(s, q)) {
      var name;
      name, q := ReadName(s, q);
      v := Lookup(env, name);
      return;
    }
    v, q := ReadDigits(s, q);
  }

  /** One turn of the loop over products. */
  lemma TermTurn(env: Env, s: string, v: int, q: nat, t: nat)
    requires q <= |s| && t == Skip(s, q)
    ensures t <= |s|
    ensures At(s, t) in {'*', '/', '%'} ==>
      && t < |s|
      && var b := Primary(env, s, t + 1);
        TermRest(env, s, Out(v, q)) == TermRest(env, s, Out(Product(At(s, t), v, b.v), b.p))
    ensures At(s, t) !in {'*', '/', '%'} ==> TermRest(env, s, Out(v, q)) == Out(v, q)
  {}

  method ProductOf(op: char, a: int, b: int) returns (v: int)
    ensures v == Product(op, a, b)
  {
    if op == '*' {
      v := a * b;
    } else if op == '/' {
      v := Quot(a, b);
    } else {
      v := Rem(a, b);
    }
  }

  /** The factor behind the operator at t. */
  method TermFactor(env: Env, s: string, v: int, q: nat, t: nat) returns (v': int, q': nat)
    requires q <= |s| && t == Skip(s, q) && At(s, t) in {'*', '/', '%'}
    ensures q < q' <= |s| && TermRest(env, s, Out(v', q')) == TermRest(env, s, Out(v, q))
    decreases |s| - q, 1
  {
    TermTurn(env, s, v, q, t);
    var b;
    b, q' := ArithPrimary(env, s, t + 1);
    v' := ProductOf(At(s, t), v, b);
  }

  method ArithTerm(env: Env, s: string, p: nat) returns (v: int, q: nat)
    requires p <= |s|
    ensures Out(v, q) == Term(env, s, p)
    decreases |s| - p, 2
  {
    v, q := ArithPrimary(env, s, p);
    ghost var goal := Term(env, s, p);
    while true
      invariant p <= q <= |s| && TermRest(env, s, Out(v, q)) == goal
      decreases |s| - q
    {
      var t := SkipSpaces(s, q);
      if At(s, t) !in {'*', '/', '%'} {
        TermTurn(env, s, v, q, t);
        break;
      }
      v, q := TermFactor(env, s, v, q, t);
    }
  }

  /** One turn of the loop over sums. */
  lemma ExprTurn(env: Env, s: string, v: int, q: nat, t: nat)
    requires q <= |s| && t == Skip(s, q)
    ensures t <= |s|
    ensures At(s, t) in {'+', '-'} ==>
      && t < |s|
      && var b := Term(env, s, t + 1);
        ExprRest(env, s, Out(v, q)) == ExprRest(env, s, Out(Total(At(s, t), v, b.v), b.p))
    ensures At(s, t) !in {'+', '-'} ==> ExprRest(env, s, Out(v, q)) == Out(v, q)
  {}

  /** The term behind the operator at t. */
  method ExprTerm(env: Env, s: string, v: int, q: nat, t: nat) returns (v': int, q': nat)
    requires q <= |s| && t == Skip(s, q) && At(s, t) in {'+', '-'}
    ensures q < q' <= |s| && ExprRest(env, s, Out(v', q')) == ExprRest(env, s, Out(v, q))
    decreases |s| - q, 3
  {
    ExprTurn(env, s, v, q, t);
    var b;
    b, q' := ArithTerm(env, s, t + 1);
    if At(s, t) == '+' {
      v' := v + b;
    } else {
      v' := v - b;
    }
  }

  method ArithExpr(env: Env, s: string, p: nat) returns (v: int, q: nat)
    requires p <= |s|
    ensures Out(v, q) == Expr(env, s, p)
    decreases |s| - p, 4
  {
    v, q := ArithTerm(env, s, p);
    ghost var goal := Expr(env, s, p);
    while true
      invariant p <= q <= |s| && ExprRest(env, s, Out(v, q)) == goal
      decreases |s| - q
    {
      var t := SkipSpaces(s, q);
      if At(s, t) !in {'+', '-'} {
        ExprTurn(env, s, v, q, t);
        break;
      }
      v, q := ExprTerm(env, s, v, q, t);
    }
  }
}
