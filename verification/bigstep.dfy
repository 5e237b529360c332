/** A big-step reference semantics for the same language: each construct is given
    its meaning in one recursive evaluation, independently of the one-step rules.
    The driver's runs are proved to agree with it (module Machine). */
module BigStep {

  import opened Syntax
  import opened Outcomes

  /** The value of an expression: operands left to right, then the operator, whose
      operands must both be numbers. */
  function Evaluate(e: Expr, env: Env): (r: Result<Expr>)
    ensures r.Ok? && BoundToValues(Vars(e), env) ==> IsValue(r.value)
    ensures r.Ok? && Vars(e) == {} && e.Binary? ==> (r.value.Boolean? <==> e.op == LessThan)
  {
    match e
    case Number(_) => Ok(e)
    case Boolean(_) => Ok(e)
    case Variable(x) => if x in env then Ok(env[x]) else Err(UnboundVariable(x))
    case Binary(op, l, rt) =>
      var lv :- Evaluate(l, env);
      var rv :- Evaluate(rt, env);
      if !lv.Number? then Err(NotANumber(lv))
      else if !rv.Number? then Err(NotANumber(rv))
      else
        match op
        case Add => Ok(Number(lv.n + rv.n))
        case Multiply => Ok(Number(lv.n * rv.n))
        case LessThan => Ok(Boolean(lv.n < rv.n))
  }

  /** The final configuration of a statement: an expression ends as its value, an
      assignment as a no-op with its name bound to the value, an If as its chosen
      branch does. */
  function Exec(s: Stmt, env: Env): (r: Result<Config>)
    ensures r.Ok? && BoundToValues(StmtVars(s), env) ==> !StmtReducible(r.value.stmt)
    ensures r.Ok? && BoundToValues(StmtVars(s), env) && ValuesOnly(env) ==> ValuesOnly(r.value.env)
  {
    match s
    case Expression(e) =>
      var v :- Evaluate(e, env);
      Ok(Config(Expression(v), env))
    case NoOp => Ok(Config(NoOp, env))
    case Assign(x, e) =>
      var v :- Evaluate(e, env);
      Ok(Config(NoOp, env[x := v]))
    case If(c, a, b) =>
      var v :- Evaluate(c, env);
      if v == Boolean(true) then Exec(a, env)
      else if v == Boolean(false) then Exec(b, env)
      else Err(NotABoolean(v))
  }
}
