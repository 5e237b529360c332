/** `VirtualMachine#step` as shade.rb writes it, with faults reported at the step that
    meets them, kept apart from the driver the rest of the model uses. The step is the
    parallel assignment `self.statement, self.env = statement.reduce(env)`. Assign and If
    answer with a [statement, env] array, but an expression answers with a bare node; a
    Struct has no `to_ary`, so Ruby binds the node to `statement` and nil to `env`. The
    environment is lost after every step of a bare expression. */
module AsWritten {

  import opened Syntax
  import opened Outcomes
  import opened Reduction
  import Machine
  import BigStep

  /** The interpreter's state as written: the environment may be nil (`None`), both
      when the caller passes none and after an expression step. */
  datatype RubyConfig = RubyConfig(stmt: Stmt, env: Option<Env>)

  /** What a lookup sees: a nil environment binds nothing. */
  function Bindings(env: Option<Env>): Env {
    if env.Some? then env.value else map[]
  }

  /** The step as written. Reduction rules are those of the model; only the handling of
      the environment differs. */
  function StepAsWritten(c: RubyConfig): (r: Result<RubyConfig>)
    requires StmtReducible(c.stmt)
  {
    match c.stmt
    case Expression(e) =>
      var e' :- ReduceExpr(e, Bindings(c.env));
      Ok(RubyConfig(Expression(e'), None))
    case Assign(x, e) =>
      if Reducible(e) then
        var e' :- ReduceExpr(e, Bindings(c.env));
        Ok(RubyConfig(Assign(x, e'), c.env))
      else if c.env.None? then Err(NilEnvironment)
      else Ok(RubyConfig(NoOp, Some(c.env.value[x := e])))
    case If(cond, a, b) =>
      if Reducible(cond) then
        var cond' :- ReduceExpr(cond, Bindings(c.env));
        Ok(RubyConfig(If(cond', a, b), c.env))
      else
        match cond
        case Boolean(true) => Ok(RubyConfig(a, c.env))
        case Boolean(false) => Ok(RubyConfig(b, c.env))
        case _ => Err(NotABoolean(cond))
  }

  /** How the as-written run ends. */
  datatype RubyOutcome = Done(last: RubyConfig) | Crashed(fault: Fault) | OutOfSteps

  /** `VirtualMachine#run` over the as-written step, allowed at most `fuel` steps. */
  function RunAsWritten(c: RubyConfig, fuel: nat): (o: RubyOutcome)
    ensures o.Done? ==> !StmtReducible(o.last.stmt)
    decreases fuel
  {
    if !StmtReducible(c.stmt) then Done(c)
    else if fuel == 0 then OutOfSteps
    else
      match StepAsWritten(c)
      case Err(f) => Crashed(f)
      case Ok(next) => RunAsWritten(next, fuel - 1)
  }

  /** The as-written step and the model's step always agree on the statement and on
      whether the step faults; they differ in the environment exactly when the
      statement is a bare expression, which the as-written step leaves nil. */
  lemma StepDiffersOnlyInEnv(s: Stmt, env: Env)
    requires StmtReducible(s)
    ensures var mine := Machine.Step(Config(s, env));
            var theirs := StepAsWritten(RubyConfig(s, Some(env)));
      && (mine.Ok? <==> theirs.Ok?)
      && (mine.Err? ==> theirs == Err(mine.fault))
      && (mine.Ok? ==> theirs.value.stmt == mine.value.stmt)
      && (mine.Ok? && !s.Expression? ==> theirs.value.env == Some(mine.value.env))
      && (mine.Ok? && s.Expression? ==> theirs.value.env == None)
  {
  }

  /** The discrepancy, on the smallest program that reads two names: x + y with x and y
      bound. The model yields 3; as written, the first step forgets the environment and
      the lookup of y has nothing to look in. */
  lemma ForgottenEnvironment()
    ensures var env := map["x" := Number(1), "y" := Number(2)];
            var prog := Expression(Binary(Add, Variable("x"), Variable("y")));
      && RunAsWritten(RubyConfig(prog, Some(env)), 10) == Crashed(UnboundVariable("y"))
      && Machine.Run(Config(prog, env), 10).Halted?
      && Machine.Last(Machine.Run(Config(prog, env), 10).trace) == Config(Expression(Number(3)), env)
  {
    var env := map["x" := Number(1), "y" := Number(2)];
    var prog := Expression(Binary(Add, Variable("x"), Variable("y")));
    var c1 := Config(Expression(Binary(Add, Number(1), Variable("y"))), env);
    assert StepAsWritten(RubyConfig(prog, Some(env))) ==
             Ok(RubyConfig(c1.stmt, None));
    assert StepAsWritten(RubyConfig(c1.stmt, None)) == Err(UnboundVariable("y"));
    assert Terminating(Config(prog, env)) by {
      assert StmtVars(prog) == {"x", "y"};
    }
    Machine.RunAgrees(Config(prog, env), 10);
    assert BigStep.Evaluate(Variable("x"), env) == Ok(Number(1));
    assert BigStep.Evaluate(Variable("y"), env) == Ok(Number(2));
  }
}
