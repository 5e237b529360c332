/** The closed syntax tree of the language: expressions, statements, environments,
    and the reducibility predicates every node kind answers (shade.rb, classes
    Boolean .. If). */
module Syntax {

  /** The three binary node kinds. In the interpreter they are three classes with
      one and the same congruence rule; here the rule is written once. */
  datatype BinOp = Add | Multiply | LessThan

  /** Expression nodes: they reduce to a new node and never touch the environment. */
  datatype Expr =
    | Number(n: int)
    | Boolean(b: bool)
    | Binary(op: BinOp, left: Expr, right: Expr)
    | Variable(name: string)

  /** Statement nodes. An expression may stand where a statement is expected (the
      driver runs bare expressions, and the branches of an If may be expressions). */
  datatype Stmt =
    | Expression(expr: Expr)
    | NoOp
    | Assign(name: string, expr: Expr)
    | If(condition: Expr, consequence: Stmt, alternative: Stmt)

  /** Variable bindings; values are nodes, as in the interpreter's Hash. */
  type Env = map<string, Expr>

  /** The driver's state: the current statement and environment. */
  datatype Config = Config(stmt: Stmt, env: Env)

  /** The value kinds. */
  predicate IsValue(e: Expr) {
    e.Number? || e.Boolean?
  }

  /** `reducible?` of each expression class: false for Number and Boolean, true for
      Add, Multiply, LessThan and Variable. */
  predicate Reducible(e: Expr) {
    match e
    case Number(_) => false
    case Boolean(_) => false
    case Binary(_, _, _) => true
    case Variable(_) => true
  }

  /** `reducible?` of each statement class: false for NoOp, true for Assign and If;
      a bare expression answers for itself. */
  predicate StmtReducible(s: Stmt) {
    match s
    case Expression(e) => Reducible(e)
    case NoOp => false
    case Assign(_, _) => true
    case If(_, _, _) => true
  }

  /** A node is irreducible exactly when it is a value, and a statement is
      irreducible exactly when it is a no-op or a value. */
  lemma IrreducibleIffValue(e: Expr, s: Stmt)
    ensures !Reducible(e) <==> IsValue(e)
    ensures !StmtReducible(s) <==> (s == NoOp || (s.Expression? && IsValue(s.expr)))
  {
  }

  /** Termination measure: a Variable weighs more than any value it may be replaced by. */
  function Size(e: Expr): nat {
    match e
    case Number(_) => 1
    case Boolean(_) => 1
    case Binary(_, l, r) => 1 + Size(l) + Size(r)
    case Variable(_) => 2
  }

  function StmtSize(s: Stmt): nat {
    match s
    case Expression(e) => Size(e)
    case NoOp => 1
    case Assign(_, e) => 1 + Size(e)
    case If(c, a, b) => 1 + Size(c) + StmtSize(a) + StmtSize(b)
  }

  /** Number of binary operator nodes. */
  function Ops(e: Expr): nat {
    match e
    case Binary(_, l, r) => 1 + Ops(l) + Ops(r)
    case _ => 0
  }

  /** The names an expression reads. */
  function Vars(e: Expr): set<string> {
    match e
    case Number(_) => {}
    case Boolean(_) => {}
    case Binary(_, l, r) => Vars(l) + Vars(r)
    case Variable(x) => {x}
  }

  /** The names a statement reads (the target of an Assign is written, not read). */
  function StmtVars(s: Stmt): set<string> {
    match s
    case Expression(e) => Vars(e)
    case NoOp => {}
    case Assign(_, e) => Vars(e)
    case If(c, a, b) => Vars(c) + StmtVars(a) + StmtVars(b)
  }

  /** The names a statement assigns to. */
  function Targets(s: Stmt): set<string> {
    match s
    case Assign(x, _) => {x}
    case If(_, a, b) => Targets(a) + Targets(b)
    case _ => {}
  }

  /** Every name in `names` that the environment binds is bound to a value. This holds
      of every environment for a variable-free program, and of every environment that
      only assignments have filled. */
  predicate BoundToValues(names: set<string>, env: Env) {
    forall x :: x in names && x in env ==> IsValue(env[x])
  }

  /** Every environment value is irreducible. */
  predicate ValuesOnly(env: Env) {
    forall x :: x in env ==> IsValue(env[x])
  }

  /** The configurations whose runs are guaranteed to stop. */
  predicate Terminating(c: Config) {
    BoundToValues(StmtVars(c.stmt), c.env)
  }
}
