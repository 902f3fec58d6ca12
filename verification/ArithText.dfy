/** Expressions as written: text with spaces and parentheses, and the evaluator reading it back. */
module ArithText {
  import opened Arith

  // ---------------------------------------------------------------------------
  // Syntax, with the spaces before each token
  // ---------------------------------------------------------------------------

  datatype Prim =
    | Num(sp: nat, digits: string)
    | Neg(sp: nat, e: Prim)
    | Var(sp: nat, dollar: bool, name: string)
    | Paren(sp: nat, inner: Sum, close: nat)
  datatype Prod = One(p: Prim) | Times(l: Prod, sp: nat, op: char, r: Prim)
  datatype Sum = Single(t: Prod) | Plus(left: Sum, sp: nat, op: char, right: Prod)

  predicate Name(n: string) {
    0 < |n| <= NAME_MAX && Letter(n[0]) && forall i :: 0 <= i < |n| ==> Letter(n[i]) || Digit(n[i])
  }

  predicate Number(d: string) { |d| > 0 && forall i :: 0 <= i < |d| ==> Digit(d[i]) }

  predicate MulOp(c: char) { c == '*' || c == '/' || c == '%' }

  predicate AddOp(c: char) { c == '+' || c == '-' }

  predicate WfPrim(e: Prim) {
    match e
    case Num(_, d) => Number(d)
    case Neg(_, x) => WfPrim(x)
    case Var(_, _, n) => Name(n)
    case Paren(_, x, _) => WfSum(x)
  }

  predicate WfProd(t: Prod) {
    match t
    case One(p) => WfPrim(p)
    case Times(l, _, op, r) => WfProd(l) && MulOp(op) && WfPrim(r)
  }

  predicate WfSum(e: Sum) {
    match e
    case Single(t) => WfProd(t)
    case Plus(l, _, op, r) => WfSum(l) && AddOp(op) && WfProd(r)
  }

  // ---------------------------------------------------------------------------
  // Text and value
  // ---------------------------------------------------------------------------

  function Spaces(n: nat): (s: string)
    ensures |s| == n && forall i :: 0 <= i < n ==> s[i] == ' '
  {
    seq(n, _ => ' ')
  }

  function PrimText(e: Prim): string {
    match e
    case Num(sp, d) => Spaces(sp) + d
    case Neg(sp, x) => Spaces(sp) + ("-" + PrimText(x))
    case Var(sp, dollar, n) => Spaces(sp) + ((if dollar then "$" else "") + n)
    case Paren(sp, x, close) => Spaces(sp) + ("(" + (SumText(x) + (Spaces(close) + ")")))
  }

  function ProdText(t: Prod): string {
    match t
    case One(p) => PrimText(p)
    case Times(l, sp, op, r) => ProdText(l) + (Spaces(sp) + ([op] + PrimText(r)))
  }

  function SumText(e: Sum): string {
    match e
    case Single(t) => ProdText(t)
    case Plus(l, sp, op, r) => SumText(l) + (Spaces(sp) + ([op] + ProdText(r)))
  }

  /** The number a string of digits stands for, read onto v. */
  function Decimal(d: string, v: nat): nat
    requires forall i :: 0 <= i < |d| ==> Digit(d[i])
  {
    if |d| == 0 then v else Decimal(d[1..], v * 10 + DigitOf(d[0]))
  }

  function PrimValue(env: Env, e: Prim): int
    requires WfPrim(e)
  {
    match e
    case Num(_, d) => Decimal(d, 0)
    case Neg(_, x) => -PrimValue(env, x)
    case Var(_, _, n) => VarValue(env, n)
    case Paren(_, x, _) => SumValue(env, x)
  }

  function ProdValue(env: Env, t: Prod): int
    requires WfProd(t)
  {
    match t
    case One(p) => PrimValue(env, p)
    case Times(l, _, op, r) => Product(op, ProdValue(env, l), PrimValue(env, r))
  }

  function SumValue(env: Env, e: Sum): int
    requires WfSum(e)
  {
    match e
    case Single(t) => ProdValue(env, t)
    case Plus(l, _, op, r) => Total(op, SumValue(env, l), ProdValue(env, r))
  }

  // ---------------------------------------------------------------------------
  // Text at a position
  // ---------------------------------------------------------------------------

  predicate Here(s: string, p: nat, t: string) { p + |t| <= |s| && s[p..p + |t|] == t }

  lemma Split(s: string, p: nat, a: string, b: string)
    ensures Here(s, p, a + b) <==> Here(s, p, a) && Here(s, p + |a|, b)
  {
    if p + |a| + |b| <= |s| {
      var w := s[p..p + |a| + |b|];
      assert w[..|a|] == s[p..p + |a|] && w[|a|..] == s[p + |a|..p + |a| + |b|];
      assert (a + b)[..|a|] == a && (a + b)[|a|..] == b;
      assert w == w[..|a|] + w[|a|..];
    }
  }

  lemma First(s: string, p: nat, c: char)
    ensures Here(s, p, [c]) <==> p < |s| && s[p] == c
  {
    if p < |s| { assert s[p..p + 1] == [s[p]]; }
  }

  lemma CharAt(s: string, p: nat, t: string, i: nat)
    requires Here(s, p, t) && i < |t|
    ensures s[p + i] == t[i] && At(s, p + i) == t[i]
  {
    assert s[p..p + |t|][i] == s[p + i];
  }

  lemma {:induction false} SkipText(s: string, p: nat, n: nat)
    requires p + n <= |s| && (forall i :: p <= i < p + n ==> s[i] == ' ') && At(s, p + n) != ' '
    ensures Skip(s, p) == p + n
    decreases n
  {
    if n > 0 { SkipText(s, p + 1, n - 1); }
  }

  lemma SkipSpacesText(s: string, p: nat, n: nat)
    requires Here(s, p, Spaces(n)) && At(s, p + n) != ' '
    ensures Skip(s, p) == p + n
  {
    forall i | p <= i < p + n ensures s[i] == ' ' { CharAt(s, p, Spaces(n), i - p); }
    SkipText(s, p, n);
  }

  lemma {:induction false} DigitsText(s: string, p: nat, d: string, v: nat)
    requires Here(s, p, d) && (forall i :: 0 <= i < |d| ==> Digit(d[i])) && !Digit(At(s, p + |d|))
    ensures Digits(s, p, v) == Out(Decimal(d, v), p + |d|)
    decreases |d|
  {
    if |d| > 0 {
      CharAt(s, p, d, 0);
      assert d == [d[0]] + d[1..];
      Split(s, p, [d[0]], d[1..]);
      DigitsText(s, p + 1, d[1..], v * 10 + DigitOf(d[0]));
    }
  }

  lemma {:induction false} NameText(s: string, p: nat, n: string, k: nat)
    requires Here(s, p, n) && |n| <= k && (forall i :: 0 <= i < |n| ==> Letter(n[i]) || Digit(n[i]))
    requires !Letter(At(s, p + |n|)) && !Digit(At(s, p + |n|))
    ensures NameEnd(s, p, k) == p + |n|
    decreases |n|
  {
    if |n| > 0 {
      CharAt(s, p, n, 0);
      assert n == [n[0]] + n[1..];
      Split(s, p, [n[0]], n[1..]);
      NameText(s, p + 1, n[1..], k - 1);
    }
  }

  /** A token cannot run on into this character. */
  predicate Free(c: char) { !Letter(c) && !Digit(c) }

  // ---------------------------------------------------------------------------
  // The evaluator reads the text back
  // ---------------------------------------------------------------------------

  lemma NumOk(env: Env, s: string, p: nat, sp: nat, d: string)
    requires Number(d) && Here(s, p, Spaces(sp) + d) && Free(At(s, p + sp + |d|))
    ensures Primary(env, s, p) == Out(Decimal(d, 0), p + sp + |d|)
  {
    Split(s, p, Spaces(sp), d);
    CharAt(s, p + sp, d, 0);
    SkipSpacesText(s, p, sp);
    DigitsText(s, p + sp, d, 0);
    PrimaryNum(env, s, p, p + sp);
  }

  lemma PrimaryNum(env: Env, s: string, p: nat, q: nat)
    requires p <= |s| && Skip(s, p) == q < |s| && Digit(At(s, q))
    ensures Primary(env, s, p) == Digits(s, q, 0)
  {}

  lemma PrimaryVar(env: Env, s: string, p: nat, q: nat, n: nat, e: nat)
    requires p <= |s| && Skip(s, p) == q && n == (if At(s, q) == '$' then q + 1 else q) && Letter(At(s, n))
      && NameEnd(s, n, NAME_MAX) == e
    requires At(s, q) == '$' || n == q
    ensures Primary(env, s, p) == Out(VarValue(env, s[n..e]), e)
  {}

  lemma VarOk(env: Env, s: string, p: nat, sp: nat, pre: string, n: string)
    requires Name(n) && (pre == "" || pre == "$") && Here(s, p, Spaces(sp) + (pre + n))
      && Free(At(s, p + sp + |pre| + |n|))
    ensures Primary(env, s, p) == Out(VarValue(env, n), p + sp + |pre| + |n|)
  {
    var q := p + sp + |pre|;
    VarParts(s, p, sp, pre, n, q);
    SkipSpacesText(s, p, sp);
    NameText(s, q, n, NAME_MAX);
    PrimaryVar(env, s, p, p + sp, q, q + |n|);
  }

  /** Where the parts of a variable stand. */
  lemma VarParts(s: string, p: nat, sp: nat, pre: string, n: string, q: nat)
    requires Name(n) && (pre == "" || pre == "$") && Here(s, p, Spaces(sp) + (pre + n)) && q == p + sp + |pre|
    ensures Here(s, p, Spaces(sp)) && Here(s, q, n) && Letter(At(s, q)) && (pre == "" || At(s, p + sp) == '$')
      && s[q..q + |n|] == n
    ensures At(s, p + sp) != ' '
  {
    Split(s, p, Spaces(sp), pre + n);
    Split(s, p + sp, pre, n);
    CharAt(s, q, n, 0);
    if pre == "$" { First(s, p + sp, '$'); }
  }

  lemma PrimaryNeg(env: Env, s: string, p: nat, q: nat, r: nat, v: int, end: nat)
    requires p <= |s| && Skip(s, p) == q < |s| && r == q + 1 && At(s, q) == '-' && Primary(env, s, r) == Out(v, end)
    ensures Primary(env, s, p) == Out(-v, end)
  {}

  /** Where the parts of a negation stand. */
  lemma NegText(e: Prim, s: string, p: nat, end: nat) returns (q: nat, r: nat)
    requires e.Neg? && Here(s, p, PrimText(e)) && end == p + |PrimText(e)|
    ensures Skip(s, p) == q < |s| && At(s, q) == '-' && r == q + 1 && Here(s, r, PrimText(e.e))
      && end == r + |PrimText(e.e)|
  {
    var t := PrimText(e.e);
    q := p + e.sp;
    r := q + 1;
    Split(s, p, Spaces(e.sp), "-" + t);
    Split(s, q, "-", t);
    First(s, q, '-');
    SkipSpacesText(s, p, e.sp);
  }

  lemma PrimaryParen(env: Env, s: string, p: nat, q: nat, a: nat, v: int, b: nat, c: nat, end: nat)
    requires p <= |s| && Skip(s, p) == q < |s| && a == q + 1 && At(s, q) == '(' && Expr(env, s, a) == Out(v, b)
    requires b <= |s| && Skip(s, b) == c && At(s, c) == ')' && end == c + 1
    ensures Primary(env, s, p) == Out(v, end)
  {}

  /** Where the parts of a parenthesis stand: opening, contents, end of contents, closing. */
  lemma ParenText(e: Prim, s: string, p: nat, end: nat) returns (q: nat, a: nat, b: nat, c: nat)
    requires e.Paren? && Here(s, p, PrimText(e)) && end == p + |PrimText(e)|
    ensures Skip(s, p) == q < |s|
      && At(s, q) == '(' && a == q + 1 && Here(s, a, SumText(e.inner)) && b == a + |SumText(e.inner)| <= |s|
    ensures Skip(s, b) == c < |s| && At(s, c) == ')' && Free(At(s, b)) && end == c + 1
  {
    var t, close := SumText(e.inner), Spaces(e.close) + ")";
    q := p + e.sp;
    a := q + 1;
    b := a + |t|;
    c := b + e.close;
    Split(s, p, Spaces(e.sp), "(" + (t + close));
    Split(s, q, "(", t + close);
    First(s, q, '(');
    SkipSpacesText(s, p, e.sp);
    Split(s, a, t, close);
    CloseText(s, b, e.close);
  }

  /** Spaces and a closing parenthesis end an expression. */
  lemma CloseText(s: string, q: nat, close: nat)
    requires Here(s, q, Spaces(close) + ")")
    ensures Skip(s, q) == q + close < |s| && At(s, q + close) == ')' && Free(At(s, q))
  {
    Split(s, q, Spaces(close), ")");
    First(s, q + close, ')');
    SkipSpacesText(s, q, close);
    if close > 0 { CharAt(s, q, Spaces(close), 0); }
  }

  /** An operator, with spaces before it. */
  lemma OpText(s: string, q: nat, sp: nat, op: char, rest: string)
    requires Here(s, q, Spaces(sp) + ([op] + rest)) && (MulOp(op) || AddOp(op))
    ensures Skip(s, q) == q + sp < |s| && At(s, q + sp) == op && Free(At(s, q)) && Here(s, q + sp + 1, rest)
  {
    Split(s, q, Spaces(sp), [op] + rest);
    Split(s, q + sp, [op], rest);
    First(s, q + sp, op);
    SkipSpacesText(s, q, sp);
    if sp > 0 { CharAt(s, q, Spaces(sp), 0); }
  }

  lemma {:induction false} PrimOk(env: Env, e: Prim, s: string, p: nat, end: nat)
    requires WfPrim(e) && Here(s, p, PrimText(e)) && end == p + |PrimText(e)| && Free(At(s, end))
    ensures Primary(env, s, p) == Out(PrimValue(env, e), end)
    decreases e, 0
  {
    match e
    case Num(sp, d) => NumOk(env, s, p, sp, d);
    case Var(sp, dollar, n) => VarOk(env, s, p, sp, if dollar then "$" else "", n);
    case Neg(_, x) =>
      var q, r := NegText(e, s, p, end);
      PrimOk(env, x, s, r, end);
      PrimaryNeg(env, s, p, q, r, PrimValue(env, x), end);
    case Paren(_, x, _) =>
      var q, a, b, c := ParenText(e, s, p, end);
      SumStops(env, x, s, a, b);
      PrimaryParen(env, s, p, q, a, SumValue(env, x), b, c, end);
  }

  lemma TermStep(env: Env, s: string, o: Out, q: nat, op: char, a: nat, b: Out)
    requires o.p <= |s| && Skip(s, o.p) == q < |s| && a == q + 1 && At(s, q) == op && MulOp(op)
      && Primary(env, s, a) == b
    ensures TermRest(env, s, o) == TermRest(env, s, Out(Product(op, o.v, b.v), b.p))
  {}

  lemma ExprStep(env: Env, s: string, o: Out, q: nat, op: char, a: nat, b: Out)
    requires o.p <= |s| && Skip(s, o.p) == q < |s| && a == q + 1 && At(s, q) == op && AddOp(op) && Term(env, s, a) == b
    ensures ExprRest(env, s, o) == ExprRest(env, s, Out(Total(op, o.v, b.v), b.p))
  {}

  lemma TermStops(env: Env, s: string, o: Out)
    requires o.p <= |s| && !MulOp(At(s, Skip(s, o.p)))
    ensures TermRest(env, s, o) == o
  {}

  lemma ExprStops(env: Env, s: string, o: Out)
    requires o.p <= |s| && !AddOp(At(s, Skip(s, o.p)))
    ensures ExprRest(env, s, o) == o
  {}

  /** `arith_term` at p has read up to q, with value v, and is at the top of its loop. */
  predicate InTerm(env: Env, s: string, p: nat, v: int, q: nat) {
    p <= |s| && q <= |s| && Term(env, s, p) == TermRest(env, s, Out(v, q))
  }

  predicate InExpr(env: Env, s: string, p: nat, v: int, q: nat) {
    p <= |s| && q <= |s| && Expr(env, s, p) == ExprRest(env, s, Out(v, q))
  }

  lemma TermStart(env: Env, s: string, p: nat, v: int, q: nat)
    requires p <= |s| && q <= |s| && Primary(env, s, p) == Out(v, q)
    ensures InTerm(env, s, p, v, q)
  {}

  lemma TermGoes(env: Env, s: string, p: nat, v: int, q: nat, r: nat, op: char, a: nat, w: int, end: nat)
    requires InTerm(env, s, p, v, q) && Skip(s, q) == r < |s| && a == r + 1 && At(s, r) == op && MulOp(op)
      && end <= |s| && Primary(env, s, a) == Out(w, end)
    ensures InTerm(env, s, p, Product(op, v, w), end)
  {
    TermStep(env, s, Out(v, q), r, op, a, Out(w, end));
  }

  lemma ExprStart(env: Env, s: string, p: nat, v: int, q: nat)
    requires InTerm(env, s, p, v, q) && !MulOp(At(s, Skip(s, q)))
    ensures InExpr(env, s, p, v, q)
  {
    TermStops(env, s, Out(v, q));
  }

  lemma ExprGoes(env: Env, s: string, p: nat, v: int, q: nat, r: nat, op: char, a: nat, w: int, end: nat)
    requires InExpr(env, s, p, v, q) && Skip(s, q) == r < |s| && a == r + 1 && At(s, r) == op && AddOp(op)
    requires InTerm(env, s, a, w, end) && !MulOp(At(s, Skip(s, end)))
    ensures InExpr(env, s, p, Total(op, v, w), end)
  {
    TermStops(env, s, Out(w, end));
    ExprStep(env, s, Out(v, q), r, op, a, Out(w, end));
  }

  /** Where the parts of a product stand: end of the left factor, operator, right factor. */
  lemma TimesText(t: Prod, s: string, p: nat, end: nat) returns (q: nat, r: nat, a: nat)
    requires t.Times? && MulOp(t.op) && Here(s, p, ProdText(t)) && end == p + |ProdText(t)|
    ensures Here(s, p, ProdText(t.l)) && q == p + |ProdText(t.l)| <= |s| && Free(At(s, q))
    ensures Skip(s, q) == r < |s| && At(s, r) == t.op && a == r + 1 && Here(s, a, PrimText(t.r))
      && end == a + |PrimText(t.r)|
  {
    q := p + |ProdText(t.l)|;
    r := q + t.sp;
    a := r + 1;
    Split(s, p, ProdText(t.l), Spaces(t.sp) + ([t.op] + PrimText(t.r)));
    OpText(s, q, t.sp, t.op, PrimText(t.r));
  }

  lemma PlusText(e: Sum, s: string, p: nat, end: nat) returns (q: nat, r: nat, a: nat)
    requires e.Plus? && AddOp(e.op) && Here(s, p, SumText(e)) && end == p + |SumText(e)|
    ensures Here(s, p, SumText(e.left)) && q == p + |SumText(e.left)| <= |s| && Free(At(s, q))
    ensures Skip(s, q) == r < |s| && At(s, r) == e.op && a == r + 1 && Here(s, a, ProdText(e.right))
      && end == a + |ProdText(e.right)|
  {
    q := p + |SumText(e.left)|;
    r := q + e.sp;
    a := r + 1;
    Split(s, p, SumText(e.left), Spaces(e.sp) + ([e.op] + ProdText(e.right)));
    OpText(s, q, e.sp, e.op, ProdText(e.right));
  }

  /** Reading a product leaves the loop of `arith_term` behind it, with its value. */
  lemma {:induction false} ProdOk(env: Env, t: Prod, s: string, p: nat, end: nat)
    requires WfProd(t) && Here(s, p, ProdText(t)) && end == p + |ProdText(t)| && Free(At(s, end))
    ensures InTerm(env, s, p, ProdValue(env, t), end)
    decreases t, 1
  {
    match t
    case One(e) =>
      PrimOk(env, e, s, p, end);
      TermStart(env, s, p, PrimValue(env, e), end);
    case Times(l, _, op, r) =>
      var q, m, a := TimesText(t, s, p, end);
      ProdOk(env, l, s, p, q);
      PrimOk(env, r, s, a, end);
      TermGoes(env, s, p, ProdValue(env, l), q, m, op, a, PrimValue(env, r), end);
  }

  lemma {:induction false} SumOk(env: Env, e: Sum, s: string, p: nat, end: nat)
    requires WfSum(e) && Here(s, p, SumText(e)) && end == p + |SumText(e)| && Free(At(s, end))
      && !MulOp(At(s, Skip(s, end)))
    ensures InExpr(env, s, p, SumValue(env, e), end)
    decreases e, 2
  {
    match e
    case Single(t) =>
      ProdOk(env, t, s, p, end);
      ExprStart(env, s, p, ProdValue(env, t), end);
    case Plus(l, _, op, r) =>
      var q, m, a := PlusText(e, s, p, end);
      SumOk(env, l, s, p, q);
      ProdOk(env, r, s, a, end);
      ExprGoes(env, s, p, SumValue(env, l), q, m, op, a, ProdValue(env, r), end);
  }

  /** Wherever an expression stands, followed by what cannot continue it, the evaluator returns its value and stops
      exactly behind its text. */
  lemma SumStops(env: Env, e: Sum, s: string, p: nat, end: nat)
    requires WfSum(e) && Here(s, p, SumText(e)) && end == p + |SumText(e)| && Free(At(s, end))
    requires !MulOp(At(s, Skip(s, end))) && !AddOp(At(s, Skip(s, end)))
    ensures Expr(env, s, p) == Out(SumValue(env, e), end)
    decreases e, 3
  {
    SumOk(env, e, s, p, end);
    ExprStops(env, s, Out(SumValue(env, e), end));
  }

  // ---------------------------------------------------------------------------
  // Printing a tree
  // ---------------------------------------------------------------------------

  datatype Tree = Lit(n: nat) | Ident(name: string) | Minus(e: Tree) | Bin(op: char, l: Tree, r: Tree)

  predicate WfTree(t: Tree) {
    match t
    case Lit(_) => true
    case Ident(n) => Name(n)
    case Minus(e) => WfTree(e)
    case Bin(op, l, r) => (MulOp(op) || AddOp(op)) && WfTree(l) && WfTree(r)
  }

  /** Arithmetic with truncating division, zero for a zero divisor. */
  function Eval(env: Env, t: Tree): int {
    match t
    case Lit(n) => n
    case Ident(n) => VarValue(env, n)
    case Minus(e) => -Eval(env, e)
    case Bin(op, l, r) =>
      var a, b := Eval(env, l), Eval(env, r);
      match op
      case '+' => a + b
      case '-' => a - b
      case '*' => a * b
      case '/' => if b == 0 then 0 else Quot(a, b)
      case _ => if b == 0 then 0 else Rem(a, b)
  }

  function Numeral(n: nat): (d: string)
    ensures Number(d)
  {
    var c := '0' + (n % 10) as char;
    if n < 10 then [c] else Numeral(n / 10) + [c]
  }

  lemma {:induction false} DecimalSnoc(d: string, c: char, v: nat)
    requires (forall i :: 0 <= i < |d| ==> Digit(d[i])) && Digit(c)
    ensures Decimal(d + [c], v) == Decimal(d, v) * 10 + DigitOf(c)
  {
    if |d| > 0 {
      assert (d + [c])[1..] == d[1..] + [c];
      DecimalSnoc(d[1..], c, v * 10 + DigitOf(d[0]));
    }
  }

  lemma {:induction false} NumeralValue(n: nat)
    ensures Decimal(Numeral(n), 0) == n
  {
    var c := '0' + (n % 10) as char;
    if n >= 10 {
      NumeralValue(n / 10);
      DecimalSnoc(Numeral(n / 10), c, 0);
    } else {
      assert Decimal([c], 0) == DigitOf(c);
    }
  }

  /** A whole string of digits, from position p to its end. */
  lemma ReadsNumeral(s: string, p: nat, n: nat)
    requires p <= |s| && s[p..] == Numeral(n)
    ensures Digits(s, p, 0) == Out(n, |s|)
  {
    var d := Numeral(n);
    assert |s| == p + |d| && Here(s, p, d);
    DigitsText(s, p, d, 0);
    NumeralValue(n);
  }

  /** A variable has the value of the number, possibly with a minus sign, in the first entry with its name. */
  lemma {:induction false} VariableValue(env: Env, name: string, i: nat, n: nat)
    requires i < |env| && env[i].0 == name && forall j :: 0 <= j < i ==> env[j].0 != name
    ensures env[i].1 == Numeral(n) ==> VarValue(env, name) == n
    ensures env[i].1 == "-" + Numeral(n) ==> VarValue(env, name) == 0 - n
  {
    if i > 0 {
      VariableValue(env[1..], name, i - 1, n);
    } else {
      var s := env[0].1;
      if s == Numeral(n) {
        assert s[0..] == s && Digit(s[0]);
        ReadsNumeral(s, 0, n);
      }
      if s == "-" + Numeral(n) {
        assert s[1..] == Numeral(n) && s[0] == '-';
        ReadsNumeral(s, 1, n);
      }
    }
  }

  /** A variable without an entry is zero. */
  lemma {:induction false} NoVariable(env: Env, name: string)
    requires forall e :: e in env ==> e.0 != name
    ensures VarValue(env, name) == 0
  {
    if |env| > 0 { NoVariable(env[1..], name); }
  }

  /** Parentheses only where the grammar needs them; `sp` spaces before every token. */
  function ToPrim(t: Tree, sp: nat): Prim
    decreases t, 0
  {
    match t
    case Lit(n) => Num(sp, Numeral(n))
    case Ident(n) => Var(sp, false, n)
    case Minus(e) => Neg(sp, ToPrim(e, sp))
    case Bin(op, l, r) =>
      if MulOp(op) then Paren(sp, Single(Times(ToProd(l, sp), sp, op, ToPrim(r, sp))), sp)
      else Paren(sp, Plus(ToSum(l, sp), sp, op, ToProd(r, sp)), sp)
  }

  function ToProd(t: Tree, sp: nat): Prod
    decreases t, 1
  {
    if t.Bin? && MulOp(t.op) then Times(ToProd(t.l, sp), sp, t.op, ToPrim(t.r, sp)) else One(ToPrim(t, sp))
  }

  function ToSum(t: Tree, sp: nat): Sum
    decreases t, 2
  {
    if t.Bin? && !MulOp(t.op) then Plus(ToSum(t.l, sp), sp, t.op, ToProd(t.r, sp)) else Single(ToProd(t, sp))
  }

  lemma {:induction false} ToOk(env: Env, t: Tree, sp: nat)
    requires WfTree(t)
    ensures WfPrim(ToPrim(t, sp)) && PrimValue(env, ToPrim(t, sp)) == Eval(env, t)
    ensures WfProd(ToProd(t, sp)) && ProdValue(env, ToProd(t, sp)) == Eval(env, t)
    ensures WfSum(ToSum(t, sp)) && SumValue(env, ToSum(t, sp)) == Eval(env, t)
  {
    match t
    case Lit(n) => NumeralValue(n);
    case Ident(_) =>
    case Minus(e) => ToOk(env, e, sp);
    case Bin(op, l, r) =>
      ToOk(env, l, sp);
      ToOk(env, r, sp);
      if MulOp(op) {
        var p := Times(ToProd(l, sp), sp, op, ToPrim(r, sp));
        assert WfProd(p) && ProdValue(env, p) == Eval(env, t);
        assert WfSum(Single(p)) && SumValue(env, Single(p)) == Eval(env, t);
      } else {
        var p := Plus(ToSum(l, sp), sp, op, ToProd(r, sp));
        assert WfSum(p) && SumValue(env, p) == Eval(env, t);
        assert WfPrim(Paren(sp, p, sp)) && PrimValue(env, Paren(sp, p, sp)) == Eval(env, t);
      }
  }

  function Print(t: Tree, sp: nat): string { SumText(ToSum(t, sp)) }

  /** What may follow: no letter or digit at once, and no operator after spaces. */
  predicate Ends(rest: string) {
    Free(At(rest, 0)) && !MulOp(At(rest, Skip(rest, 0))) && !AddOp(At(rest, Skip(rest, 0)))
  }

  lemma {:induction false} SkipBehind(t: string, rest: string, k: nat)
    requires k <= |rest|
    ensures Skip(t + rest, |t| + k) == |t| + Skip(rest, k)
    decreases |rest| - k
  {
    if At(rest, k) == ' ' { SkipBehind(t, rest, k + 1); }
  }

  /** For every tree, every spacing and every text behind it that does not continue the expression, evaluating the
      printed tree gives its value and stops right behind the printed text. */
  lemma PrintThenEvaluate(env: Env, t: Tree, sp: nat, rest: string)
    requires WfTree(t) && Ends(rest)
    ensures Expr(env, Print(t, sp) + rest, 0) == Out(Eval(env, t), |Print(t, sp)|)
  {
    var s := Print(t, sp) + rest;
    ToOk(env, t, sp);
    SkipBehind(Print(t, sp), rest, 0);
    assert s[0..0 + |Print(t, sp)|] == Print(t, sp);
    SumStops(env, ToSum(t, sp), s, 0, |Print(t, sp)|);
  }

  method EvaluatePrinted(env: Env, t: Tree, sp: nat, rest: string) returns (v: int, q: nat)
    requires WfTree(t) && Ends(rest)
    ensures v == Eval(env, t) && q == |Print(t, sp)|
  {
    PrintThenEvaluate(env, t, sp, rest);
    v, q := ArithExpr(env, Print(t, sp) + rest, 0);
  }
}
