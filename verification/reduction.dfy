/** The one-step rewrite rule of every node kind (the `reduce(env)` methods of
    shade.rb), unified into one result shape: a new node for expressions, a new
    (statement, environment) configuration for statements. */
module Reduction {

  import opened Syntax
  import opened Outcomes

  /** The value-producing case of a binary node, reached once both operands are
      irreducible: the operator is applied to their payloads. Only numbers have `+`,
      `*` and `<` against a number, so any other operand is a fault; the left one is
      blamed first. */
  function Apply(op: BinOp, l: Expr, r: Expr): (res: Result<Expr>)
    ensures res.Ok? <==> l.Number? && r.Number?
    ensures res.Ok? ==> IsValue(res.value) && (res.value.Boolean? <==> op == LessThan)
    ensures res.Err? ==> res.fault == NotANumber(if l.Number? then r else l)
  {
    if !l.Number? then Err(NotANumber(l))
    else if !r.Number? then Err(NotANumber(r))
    else
      match op
      case Add => Ok(Number(l.n + r.n))
      case Multiply => Ok(Number(l.n * r.n))
      case LessThan => Ok(Boolean(l.n < r.n))
  }

  /** One reduction step of a reducible expression. A binary node steps its left
      operand while that is reducible, then its right operand, then applies the
      operator; a variable is replaced by its binding. */
  function ReduceExpr(e: Expr, env: Env): (r: Result<Expr>)
    requires Reducible(e)
    ensures r.Err? ==> r.fault.UnboundVariable? || r.fault.NotANumber?
    ensures r.Err? && r.fault.UnboundVariable? ==> r.fault.name in Vars(e) && r.fault.name !in env
  {
    match e
    case Variable(x) =>
      if x in env then Ok(env[x]) else Err(UnboundVariable(x))
    case Binary(op, l, rt) =>
      if Reducible(l) then
        var l' :- ReduceExpr(l, env);
        Ok(Binary(op, l', rt))
      else if Reducible(rt) then
        var r' :- ReduceExpr(rt, env);
        Ok(Binary(op, l, r'))
      else
        Apply(op, l, rt)
  }

  /** One reduction step of a reducible statement, with the environment it runs in. */
  function ReduceStmt(s: Stmt, env: Env): (r: Result<Config>)
    requires StmtReducible(s)
  {
    match s
    case Expression(e) =>
      var e' :- ReduceExpr(e, env);
      Ok(Config(Expression(e'), env))
    case Assign(x, e) =>
      if Reducible(e) then
        var e' :- ReduceExpr(e, env);
        Ok(Config(Assign(x, e'), env))
      else
        Ok(Config(NoOp, env[x := e]))
    case If(c, a, b) =>
      if Reducible(c) then
        var c' :- ReduceExpr(c, env);
        Ok(Config(If(c', a, b), env))
      else
        match c
        case Boolean(true) => Ok(Config(a, env))
        case Boolean(false) => Ok(Config(b, env))
        case _ => Err(NotABoolean(c))
  }

  /** A step shrinks the tree and reads no new names, as long as every name it may
      look up is bound to a value; on a variable-free expression it consumes exactly
      one operator. */
  lemma {:induction false} ExprStepShrinks(e: Expr, env: Env)
    requires Reducible(e) && ReduceExpr(e, env).Ok?
    ensures var e' := ReduceExpr(e, env).value;
      && (BoundToValues(Vars(e), env) ==> Size(e') < Size(e) && Vars(e') <= Vars(e))
      && (Vars(e) == {} ==> Ops(e') + 1 == Ops(e))
  {
    match e
    case Variable(x) =>
    case Binary(op, l, r) =>
      if Reducible(l) {
        ExprStepShrinks(l, env);
      } else if Reducible(r) {
        ExprStepShrinks(r, env);
      }
  }

  /** The same for statements: under bound-to-value lookups a step shrinks the
      statement and keeps it terminating. */
  lemma StmtStepShrinks(s: Stmt, env: Env)
    requires StmtReducible(s) && ReduceStmt(s, env).Ok? && BoundToValues(StmtVars(s), env)
    ensures StmtSize(ReduceStmt(s, env).value.stmt) < StmtSize(s)
    ensures Terminating(ReduceStmt(s, env).value)
  {
    match s
    case Expression(e) =>
      ExprStepShrinks(e, env);
    case Assign(x, e) =>
      if Reducible(e) {
        ExprStepShrinks(e, env);
      }
    case If(c, a, b) =>
      if Reducible(c) {
        ExprStepShrinks(c, env);
      }
  }

  /** The environment changes only in the step that completes an assignment, and what
      that step stores is irreducible; every other binding stays as it was. */
  lemma EnvironmentDiscipline(s: Stmt, env: Env)
    requires StmtReducible(s)
    ensures var r := ReduceStmt(s, env);
      && (r.Ok? && r.value.env != env ==> s.Assign? && !Reducible(s.expr))
      && (r.Ok? ==> forall y :: y in r.value.env ==>
            (y in env && r.value.env[y] == env[y]) || IsValue(r.value.env[y]))
      && (r.Ok? && ValuesOnly(env) ==> ValuesOnly(r.value.env))
      && (r.Ok? ==> forall y :: y in env && !(s.Assign? && y == s.name) ==>
            y in r.value.env && r.value.env[y] == env[y])
  {
  }

  /** Binary congruence is left-first: a reducible left operand is the only part that
      changes; otherwise a reducible right operand is; the operator kind is kept, and a
      fault of the stepped operand is the fault of the whole node. */
  lemma LeftFirst(op: BinOp, l: Expr, r: Expr, env: Env)
    ensures Reducible(l) ==>
              ReduceExpr(Binary(op, l, r), env) ==
                (if ReduceExpr(l, env).Ok? then Ok(Binary(op, ReduceExpr(l, env).value, r))
                 else Err(ReduceExpr(l, env).fault))
    ensures !Reducible(l) && Reducible(r) ==>
              ReduceExpr(Binary(op, l, r), env) ==
                (if ReduceExpr(r, env).Ok? then Ok(Binary(op, l, ReduceExpr(r, env).value))
                 else Err(ReduceExpr(r, env).fault))
  {
  }

  /** With both operands numbers, one step yields the sum, the product or the
      comparison. */
  lemma ValueRule(a: int, b: int, env: Env)
    ensures ReduceExpr(Binary(Add, Number(a), Number(b)), env) == Ok(Number(a + b))
    ensures ReduceExpr(Binary(Multiply, Number(a), Number(b)), env) == Ok(Number(a * b))
    ensures ReduceExpr(Binary(LessThan, Number(a), Number(b)), env) == Ok(Boolean(a < b))
  {
  }

  /** A value comes out of a step only from a variable lookup or from the value rule of
      a binary node whose operands are both values. */
  lemma OnlyValueRuleProducesValues(e: Expr, env: Env)
    requires Reducible(e)
    ensures ReduceExpr(e, env).Ok? && IsValue(ReduceExpr(e, env).value) ==>
              e.Variable? || (e.Binary? && IsValue(e.left) && IsValue(e.right))
  {
  }

  /** A variable steps to its binding, or faults when unbound; an expression statement
      never changes the environment. */
  lemma VariableLookup(x: string, e: Expr, env: Env)
    ensures x in env ==> ReduceStmt(Expression(Variable(x)), env) == Ok(Config(Expression(env[x]), env))
    ensures x !in env ==> ReduceStmt(Expression(Variable(x)), env) == Err(UnboundVariable(x))
    ensures Reducible(e) && ReduceStmt(Expression(e), env).Ok? ==> ReduceStmt(Expression(e), env).value.env == env
  {
  }

  /** An assignment steps its right-hand side in place while that is reducible, with
      the environment unchanged; once it is irreducible, the step yields a no-op and
      binds the name to it, leaving every other name as it was. */
  lemma AssignStep(x: string, e: Expr, env: Env)
    ensures Reducible(e) ==>
              ReduceStmt(Assign(x, e), env) ==
                (if ReduceExpr(e, env).Ok? then Ok(Config(Assign(x, ReduceExpr(e, env).value), env))
                 else Err(ReduceExpr(e, env).fault))
    ensures !Reducible(e) ==>
              var r := ReduceStmt(Assign(x, e), env);
              && r.Ok? && r.value.stmt == NoOp
              && x in r.value.env && r.value.env[x] == e
              && (forall y :: y != x ==> (y in r.value.env <==> y in env))
              && (forall y :: y != x && y in env ==> r.value.env[y] == env[y])
  {
  }

  /** An If steps its condition in place while that is reducible, leaving both branches
      and the environment alone; a true condition yields the consequence and a false one
      the alternative, untouched; any other value is a fault. */
  lemma IfStep(c: Expr, a: Stmt, b: Stmt, env: Env)
    ensures Reducible(c) ==>
              ReduceStmt(If(c, a, b), env) ==
                (if ReduceExpr(c, env).Ok? then Ok(Config(If(ReduceExpr(c, env).value, a, b), env))
                 else Err(ReduceExpr(c, env).fault))
    ensures c == Boolean(true) ==> ReduceStmt(If(c, a, b), env) == Ok(Config(a, env))
    ensures c == Boolean(false) ==> ReduceStmt(If(c, a, b), env) == Ok(Config(b, env))
    ensures c.Number? ==> ReduceStmt(If(c, a, b), env) == Err(NotABoolean(c))
  {
  }
}
