/** The `to_s` of every node kind: plain infix text, with no parentheses. */
module Rendering {

  import opened Syntax
  import opened Outcomes

  predicate IsDigit(ch: char) {
    '0' <= ch <= '9'
  }

  predicate AllDigits(s: string) {
    forall i :: 0 <= i < |s| ==> IsDigit(s[i])
  }

  function DigitChar(d: nat): (ch: char)
    requires d < 10
    ensures IsDigit(ch) && ch as int - '0' as int == d
  {
    "0123456789"[d]
  }

  /** Decimal digits of a natural number, most significant first, no leading zero. */
  function NatToString(n: nat): (s: string)
    ensures |s| >= 1 && AllDigits(s)
    ensures |s| > 1 ==> s[0] != '0'
    decreases n
  {
    if n < 10 then [DigitChar(n)] else NatToString(n / 10) + [DigitChar(n % 10)]
  }

  /** `Integer#to_s`: a minus sign in front of the digits of a negative number. */
  function IntToString(i: int): string {
    if i < 0 then "-" + NatToString(-i) else NatToString(i)
  }

  /** The number a string of decimal digits denotes. */
  function DigitsValue(s: string): nat
    requires AllDigits(s)
    decreases |s|
  {
    if |s| == 0 then 0
    else DigitsValue(s[..|s| - 1]) * 10 + (s[|s| - 1] as int - '0' as int)
  }

  /** Reads back an optionally negative decimal integer. */
  function ParseInt(s: string): Option<int> {
    if |s| > 1 && s[0] == '-' && AllDigits(s[1..]) then Some(0 - DigitsValue(s[1..]) as int)
    else if |s| > 0 && AllDigits(s) then Some(DigitsValue(s))
    else None
  }

  lemma {:induction false} NatToStringRoundTrip(n: nat)
    ensures DigitsValue(NatToString(n)) == n
    decreases n
  {
    if n >= 10 {
      NatToStringRoundTrip(n / 10);
      var s := NatToString(n);
      assert s[..|s| - 1] == NatToString(n / 10);
    }
  }

  /** A minus sign followed by the digits of a positive number reads back as its
      negation. */
  lemma ParseNegative(i: int, t: string)
    requires i < 0 && t == NatToString(-i)
    ensures ParseInt("-" + t) == Some(i)
  {
    NatToStringRoundTrip(-i);
    assert ("-" + t)[1..] == t;
    assert DigitsValue(t) == -i;
  }

  /** The digits of a natural number read back as that number. */
  lemma ParseNonNegative(i: int, t: string)
    requires i >= 0 && t == NatToString(i)
    ensures ParseInt(t) == Some(i)
  {
    NatToStringRoundTrip(i);
    assert IsDigit(t[0]);
  }

  /** The text of a number reads back as that number. */
  lemma IntToStringRoundTrip(i: int)
    ensures ParseInt(IntToString(i)) == Some(i)
  {
    if i < 0 {
      ParseNegative(i, NatToString(-i));
    } else {
      ParseNonNegative(i, NatToString(i));
    }
  }

  function OpSymbol(op: BinOp): string {
    match op
    case Add => "+"
    case Multiply => "*"
    case LessThan => "<"
  }

  /** Two pieces of text with one space between them. */
  function Join(a: string, b: string): string {
    a + " " + b
  }

  /** `to_s` of an expression node: operands and operator separated by single spaces. */
  function Render(e: Expr): string {
    match e
    case Number(n) => IntToString(n)
    case Boolean(b) => if b then "true" else "false"
    case Binary(op, l, r) => Join(Join(Render(l), OpSymbol(op)), Render(r))
    case Variable(x) => x
  }

  /** `to_s` of a statement node: `x = e`, `if c then a else b`, `no-op`. */
  function RenderStmt(s: Stmt): string {
    match s
    case Expression(e) => Render(e)
    case NoOp => "no-op"
    case Assign(x, e) => Join(Join(x, "="), Render(e))
    case If(c, a, b) =>
      Join(Join(Join(Join(Join("if", Render(c)), "then"), RenderStmt(a)), "else"), RenderStmt(b))
  }

  /** A rendered number reads back as the number it holds. */
  lemma RenderNumberRoundTrip(n: int)
    ensures ParseInt(Render(Number(n))) == Some(n)
  {
    IntToStringRoundTrip(n);
  }

  /** Position of the first space. */
  function FirstSpace(s: string): (i: nat)
    requires ' ' in s
    ensures i < |s| && s[i] == ' ' && ' ' !in s[..i]
  {
    if s[0] == ' ' then 0 else 1 + FirstSpace(s[1..])
  }

  /** The pieces of a text between single spaces. */
  function Split(s: string): seq<string>
    decreases |s|
  {
    if ' ' in s then
      var i := FirstSpace(s);
      [s[..i]] + Split(s[i + 1..])
    else [s]
  }

  lemma FirstSpaceAt(s: string, k: nat)
    requires k < |s| && s[k] == ' ' && ' ' !in s[..k]
    ensures FirstSpace(s) == k
  {
    var i := FirstSpace(s);
    assert forall j :: 0 <= j < k ==> s[..k][j] == s[j];
    assert forall j :: 0 <= j < i ==> s[..i][j] == s[j];
  }

  /** A text without spaces is one piece. */
  lemma SplitWord(w: string)
    requires ' ' !in w
    ensures Split(w) == [w]
  {
  }

  /** Splitting two texts joined by a space splits each of them. */
  lemma {:induction false} SplitJoin(a: string, b: string)
    ensures Split(Join(a, b)) == Split(a) + Split(b)
    decreases |a|
  {
    var s := Join(a, b);
    if ' ' in a {
      var j := FirstSpace(a);
      var rest := a[j + 1..];
      SplitAt(s, j, a[..j], Join(rest, b));
      SplitJoin(rest, b);
    } else {
      SplitAt(s, |a|, a, b);
    }
  }

  /** A text whose first space is at `k` splits into the text before it and the
      pieces of the text after it. */
  lemma SplitAt(s: string, k: nat, before: string, after: string)
    requires k < |s| && s[k] == ' ' && s[..k] == before && ' ' !in before && s[k + 1..] == after
    ensures Split(s) == [before] + Split(after)
  {
    FirstSpaceAt(s, k);
  }

  /** The tokens of an expression in infix order: operands and operator symbols. */
  function Infix(e: Expr): seq<string> {
    match e
    case Number(n) => [IntToString(n)]
    case Boolean(b) => [if b then "true" else "false"]
    case Binary(op, l, r) => Infix(l) + [OpSymbol(op)] + Infix(r)
    case Variable(x) => [x]
  }

  /** The tokens of a statement, keywords included. */
  function StmtInfix(s: Stmt): seq<string> {
    match s
    case Expression(e) => Infix(e)
    case NoOp => ["no-op"]
    case Assign(x, e) => [x] + ["="] + Infix(e)
    case If(c, a, b) => ["if"] + Infix(c) + ["then"] + StmtInfix(a) + ["else"] + StmtInfix(b)
  }

  /** No variable name contains a space. */
  predicate PlainNames(names: set<string>) {
    forall x :: x in names ==> ' ' !in x
  }

  lemma NoSpaceInNumber(n: int)
    ensures ' ' !in IntToString(n)
  {
    var s := NatToString(if n < 0 then -n else n);
    assert forall i :: 0 <= i < |s| ==> IsDigit(s[i]);
    if n < 0 {
      assert IntToString(n) == "-" + s;
    }
  }

  /** Rendering is the infix token sequence joined by single spaces: splitting the
      text at its spaces gives back exactly the operands and operators in order. */
  lemma {:induction false} RenderTokens(e: Expr)
    requires PlainNames(Vars(e))
    ensures Split(Render(e)) == Infix(e)
  {
    match e
    case Number(n) =>
      NoSpaceInNumber(n);
    case Boolean(b) =>
    case Variable(x) =>
      assert x in Vars(e);
    case Binary(op, l, r) =>
      RenderTokens(l);
      RenderTokens(r);
      SplitWord(OpSymbol(op));
      SplitJoin(Render(l), OpSymbol(op));
      SplitJoin(Join(Render(l), OpSymbol(op)), Render(r));
  }

  /** The same for statements, with names assigned to as well as names read. */
  lemma {:induction false} RenderStmtTokens(s: Stmt)
    requires PlainNames(StmtVars(s)) && PlainNames(Targets(s))
    ensures Split(RenderStmt(s)) == StmtInfix(s)
  {
    match s
    case Expression(e) =>
      RenderTokens(e);
    case NoOp =>
    case Assign(x, e) =>
      assert x in Targets(s);
      RenderTokens(e);
      AssignTokens(x, e);
    case If(c, a, b) =>
      RenderTokens(c);
      RenderStmtTokens(a);
      RenderStmtTokens(b);
      IfTokens(c, a, b);
  }

  lemma AssignTokens(x: string, e: Expr)
    requires ' ' !in x && Split(Render(e)) == Infix(e)
    ensures Split(RenderStmt(Assign(x, e))) == StmtInfix(Assign(x, e))
  {
    SplitWord(x);
    SplitWord("=");
    SplitJoin(x, "=");
    SplitJoin(Join(x, "="), Render(e));
  }

  lemma IfTokens(c: Expr, a: Stmt, b: Stmt)
    requires Split(Render(c)) == Infix(c)
    requires Split(RenderStmt(a)) == StmtInfix(a) && Split(RenderStmt(b)) == StmtInfix(b)
    ensures Split(RenderStmt(If(c, a, b))) == StmtInfix(If(c, a, b))
  {
    var head := Join(Join(Join("if", Render(c)), "then"), RenderStmt(a));
    IfHeadTokens(c, a);
    SplitWord("else");
    SplitJoin(head, "else");
    SplitJoin(Join(head, "else"), RenderStmt(b));
  }

  /** The tokens of `if c then a`, the part of an If's text before `else`. */
  lemma IfHeadTokens(c: Expr, a: Stmt)
    requires Split(Render(c)) == Infix(c) && Split(RenderStmt(a)) == StmtInfix(a)
    ensures Split(Join(Join(Join("if", Render(c)), "then"), RenderStmt(a))) ==
              ["if"] + Infix(c) + ["then"] + StmtInfix(a)
  {
    var t1 := Join("if", Render(c));
    SplitWord("if");
    SplitWord("then");
    SplitJoin("if", Render(c));
    SplitJoin(t1, "then");
    SplitJoin(Join(t1, "then"), RenderStmt(a));
  }
}
