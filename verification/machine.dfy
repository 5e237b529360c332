/** The driver (VirtualMachine in shade.rb): one step at a time until the statement
    is irreducible, recording every configuration it passes through. */
module Machine {

  import opened Syntax
  import opened Outcomes
  import opened Reduction
  import opened BigStep

  /** `VirtualMachine#step`: replace the configuration by its one-step reduct. Every
      kind answers with a (statement, environment) pair; a bare expression keeps the
      environment. */
  function Step(c: Config): Result<Config>
    requires StmtReducible(c.stmt)
  {
    ReduceStmt(c.stmt, c.env)
  }

  /** How a run ends, with the configurations it printed: it halts at an irreducible
      statement, fails on a faulting step, or runs out of the caller's step budget. */
  datatype Outcome =
    | Halted(trace: seq<Config>)
    | Failed(trace: seq<Config>, fault: Fault)
    | Exhausted(trace: seq<Config>)

  function Last(trace: seq<Config>): Config
    requires |trace| > 0
  {
    trace[|trace| - 1]
  }

  /** `c` is reducible and steps to `next`. */
  predicate StepsTo(c: Config, next: Config) {
    StmtReducible(c.stmt) && Step(c) == Ok(next)
  }

  /** Each configuration of the trace but the last is reducible and steps to the next. */
  predicate Chain(trace: seq<Config>)
    decreases |trace|
  {
    |trace| <= 1 || (StepsTo(trace[0], trace[1]) && Chain(trace[1..]))
  }

  /** A chain relates every configuration but the last to the next one. */
  lemma {:induction false} ChainSteps(trace: seq<Config>, i: nat)
    requires Chain(trace) && i + 1 < |trace|
    ensures StepsTo(trace[i], trace[i + 1])
    decreases i
  {
    if i > 0 {
      ChainSteps(trace[1..], i - 1);
    }
  }

  /** A chain extended by one step from its last configuration is a chain. */
  lemma {:induction false} ChainExtend(trace: seq<Config>, next: Config)
    requires |trace| > 0 && Chain(trace) && StepsTo(Last(trace), next)
    ensures Chain(trace + [next])
    decreases |trace|
  {
    if |trace| > 1 {
      ChainExtend(trace[1..], next);
      assert (trace + [next])[1..] == trace[1..] + [next];
    }
  }

  /** Puts `c` in front of a run's trace. */
  function Prepend(c: Config, o: Outcome): Outcome {
    match o
    case Halted(t) => Halted([c] + t)
    case Failed(t, f) => Failed([c] + t, f)
    case Exhausted(t) => Exhausted([c] + t)
  }

  /** `VirtualMachine#run`, allowed at most `fuel` steps: the loop steps only while the
      statement is reducible, and stops at the first irreducible one. */
  function Run(c: Config, fuel: nat): (o: Outcome)
    ensures |o.trace| >= 1 && o.trace[0] == c && |o.trace| <= fuel + 1
    decreases fuel
  {
    if !StmtReducible(c.stmt) then Halted([c])
    else if fuel == 0 then Exhausted([c])
    else
      match Step(c)
      case Err(f) => Failed([c], f)
      case Ok(next) => Prepend(c, Run(next, fuel - 1))
  }

  /** A run halts exactly at an irreducible statement; it fails at a reducible one
      whose step faults, with that fault; it is cut off only after using its whole
      budget. */
  lemma {:induction false} RunEnds(c: Config, fuel: nat)
    ensures var o := Run(c, fuel);
      && (o.Halted? ==> !StmtReducible(Last(o.trace).stmt))
      && (o.Failed? ==> StmtReducible(Last(o.trace).stmt) && Step(Last(o.trace)) == Err(o.fault))
      && (o.Exhausted? ==> StmtReducible(Last(o.trace).stmt) && |o.trace| == fuel + 1)
    decreases fuel
  {
    if StmtReducible(c.stmt) && fuel > 0 && Step(c).Ok? {
      var next := Step(c).value;
      RunEnds(next, fuel - 1);
      RunCons(c, fuel);
      assert Last(Run(c, fuel).trace) == Last(Run(next, fuel - 1).trace);
    }
  }

  /** A run's trace is a chain of single steps: the driver steps only reducible
      statements, one step per recorded configuration. */
  lemma {:induction false} RunIsChain(c: Config, fuel: nat)
    ensures Chain(Run(c, fuel).trace)
    decreases fuel
  {
    if StmtReducible(c.stmt) && fuel > 0 && Step(c).Ok? {
      var o := Run(Step(c).value, fuel - 1);
      RunIsChain(Step(c).value, fuel - 1);
      assert Run(c, fuel).trace == [c] + o.trace;
      assert ([c] + o.trace)[1..] == o.trace;
    }
  }

  /** The result of a finished run: its last configuration, or its fault. */
  function Final(o: Outcome): Result<Config>
    requires !o.Exhausted? && |o.trace| > 0
  {
    if o.Halted? then Ok(Last(o.trace)) else Err(o.fault)
  }

  /** Small-step evaluation of an expression to an irreducible one, for expressions
      whose every looked-up name is bound to a value (then each step shrinks it). */
  function Normalize(e: Expr, env: Env): (r: Result<Expr>)
    requires BoundToValues(Vars(e), env)
    ensures r.Ok? ==> IsValue(r.value)
    decreases Size(e)
  {
    if !Reducible(e) then Ok(e)
    else
      match ReduceExpr(e, env)
      case Err(f) => Err(f)
      case Ok(e') =>
        ExprStepShrinks(e, env);
        Normalize(e', env)
  }

  /** The driver without a step budget, for terminating configurations. */
  function Drive(c: Config): (r: Result<Config>)
    requires Terminating(c)
    ensures r.Ok? ==> !StmtReducible(r.value.stmt)
    decreases StmtSize(c.stmt)
  {
    if !StmtReducible(c.stmt) then Ok(c)
    else
      match Step(c)
      case Err(f) => Err(f)
      case Ok(next) =>
        StmtStepShrinks(c.stmt, c.env);
        Drive(next)
  }

  /** Termination: a configuration whose every looked-up name is bound to a value (in
      particular any variable-free program) finishes within its size in steps, and
      ends where the unbounded driver does. */
  lemma {:induction false} RunMatchesDrive(c: Config, fuel: nat)
    requires Terminating(c) && fuel >= StmtSize(c.stmt)
    ensures !Run(c, fuel).Exhausted?
    ensures Final(Run(c, fuel)) == Drive(c)
    decreases fuel
  {
    if StmtReducible(c.stmt) {
      match Step(c)
      case Err(f) =>
      case Ok(next) =>
        StmtStepShrinks(c.stmt, c.env);
        RunMatchesDrive(next, fuel - 1);
    }
  }

  /** Stepping a binary node to a value is stepping its left operand to a value, then
      its right operand, then applying the operator. */
  lemma {:induction false} NormalizeBinary(op: BinOp, l: Expr, r: Expr, env: Env)
    requires BoundToValues(Vars(Binary(op, l, r)), env)
    ensures Normalize(Binary(op, l, r), env) ==
              (var lv :- Normalize(l, env); var rv :- Normalize(r, env); Apply(op, lv, rv))
    decreases Size(l) + Size(r)
  {
    var e := Binary(op, l, r);
    if Reducible(l) {
      match ReduceExpr(l, env)
      case Err(f) =>
      case Ok(l') =>
        ExprStepShrinks(l, env);
        assert ReduceExpr(e, env) == Ok(Binary(op, l', r));
        NormalizeBinary(op, l', r, env);
    } else if Reducible(r) {
      match ReduceExpr(r, env)
      case Err(f) =>
      case Ok(r') =>
        ExprStepShrinks(r, env);
        assert ReduceExpr(e, env) == Ok(Binary(op, l, r'));
        NormalizeBinary(op, l, r', env);
    }
  }

  /** Small-step evaluation of an expression agrees with its big-step value. */
  lemma {:induction false} NormalizeAgrees(e: Expr, env: Env)
    requires BoundToValues(Vars(e), env)
    ensures Normalize(e, env) == Evaluate(e, env)
  {
    match e
    case Number(_) =>
    case Boolean(_) =>
    case Variable(x) =>
    case Binary(op, l, r) =>
      NormalizeAgrees(l, env);
      NormalizeAgrees(r, env);
      NormalizeBinary(op, l, r, env);
  }

  lemma {:induction false} DriveExpression(e: Expr, env: Env)
    requires BoundToValues(Vars(e), env)
    ensures Drive(Config(Expression(e), env)) ==
              (var v :- Normalize(e, env); Ok(Config(Expression(v), env)))
    decreases Size(e)
  {
    if Reducible(e) {
      match ReduceExpr(e, env)
      case Err(f) =>
      case Ok(e') =>
        ExprStepShrinks(e, env);
        DriveExpression(e', env);
    }
  }

  lemma {:induction false} DriveAssign(x: string, e: Expr, env: Env)
    requires BoundToValues(Vars(e), env)
    ensures Drive(Config(Assign(x, e), env)) ==
              (var v :- Normalize(e, env); Ok(Config(NoOp, env[x := v])))
    decreases Size(e)
  {
    if Reducible(e) {
      match ReduceExpr(e, env)
      case Err(f) =>
      case Ok(e') =>
        ExprStepShrinks(e, env);
        DriveAssign(x, e', env);
    }
  }

  lemma {:induction false} DriveIf(c: Expr, a: Stmt, b: Stmt, env: Env)
    requires Terminating(Config(If(c, a, b), env))
    ensures Drive(Config(If(c, a, b), env)) ==
              (var v :- Normalize(c, env);
               if v == Boolean(true) then Drive(Config(a, env))
               else if v == Boolean(false) then Drive(Config(b, env))
               else Err(NotABoolean(v)))
    decreases Size(c)
  {
    if Reducible(c) {
      match ReduceExpr(c, env)
      case Err(f) =>
      case Ok(c') =>
        ExprStepShrinks(c, env);
        DriveIf(c', a, b, env);
    }
  }

  /** The driver's end result is the big-step meaning of the statement. */
  lemma {:induction false} DriveAgrees(s: Stmt, env: Env)
    requires Terminating(Config(s, env))
    ensures Drive(Config(s, env)) == Exec(s, env)
  {
    match s
    case Expression(e) =>
      DriveExpression(e, env);
      NormalizeAgrees(e, env);
    case NoOp =>
    case Assign(x, e) =>
      DriveAssign(x, e, env);
      NormalizeAgrees(e, env);
    case If(c, a, b) =>
      DriveIf(c, a, b, env);
      NormalizeAgrees(c, env);
      DriveAgrees(a, env);
      DriveAgrees(b, env);
  }

  /** A run given as many steps as the statement's size halts or fails exactly as the
      big-step semantics says. */
  lemma RunAgrees(c: Config, fuel: nat)
    requires Terminating(c) && fuel >= StmtSize(c.stmt)
    ensures !Run(c, fuel).Exhausted?
    ensures Final(Run(c, fuel)) == Exec(c.stmt, c.env)
  {
    RunMatchesDrive(c, fuel);
    DriveAgrees(c.stmt, c.env);
  }

  /** `VirtualMachine#run` as the loop it is, for configurations that terminate: it
      records each configuration it steps from, and the final one. */
  method Execute(c: Config) returns (o: Outcome)
    requires Terminating(c)
    ensures !o.Exhausted? && |o.trace| >= 1 && o.trace[0] == c && Chain(o.trace)
    ensures o.Halted? ==> !StmtReducible(Last(o.trace).stmt)
    ensures o.Failed? ==> StmtReducible(Last(o.trace).stmt) && Step(Last(o.trace)) == Err(o.fault)
    ensures Final(o) == Exec(c.stmt, c.env)
  {
    DriveAgrees(c.stmt, c.env);
    var cur := c;
    var trace := [c];
    while StmtReducible(cur.stmt)
      invariant |trace| >= 1 && trace[0] == c && Last(trace) == cur && Chain(trace)
      invariant Terminating(cur) && Drive(cur) == Drive(c)
      decreases StmtSize(cur.stmt)
    {
      match Step(cur)
      case Err(f) =>
        return Failed(trace, f);
      case Ok(next) =>
        StmtStepShrinks(cur.stmt, cur.env);
        ChainExtend(trace, next);
        trace := trace + [next];
        cur := next;
    }
    o := Halted(trace);
  }

  /** Evaluating a bare expression never touches the environment: every
      configuration of its run is an expression statement in the environment the run
      started with. */
  lemma {:induction false} ExpressionKeepsEnvironment(e: Expr, env: Env, fuel: nat)
    ensures var t := Run(Config(Expression(e), env), fuel).trace;
      forall i :: 0 <= i < |t| ==> t[i].env == env && t[i].stmt.Expression?
    decreases fuel
  {
    var c := Config(Expression(e), env);
    if Reducible(e) && fuel > 0 && Step(c).Ok? {
      var next := Step(c).value;
      var t, t' := Run(c, fuel).trace, Run(next, fuel - 1).trace;
      assert next == Config(Expression(ReduceExpr(e, env).value), env);
      RunCons(c, fuel);
      ExpressionKeepsEnvironment(next.stmt.expr, env, fuel - 1);
      assert forall i :: 1 <= i < |t| ==> t[i] == t'[i - 1];
    }
  }

  /** Until an assignment's run ends, every configuration keeps the original
      environment and is still the assignment to the same name; a run that does not
      halt never changes the environment at all. */
  lemma {:induction false} AssignPrefix(x: string, e: Expr, env: Env, fuel: nat)
    ensures var o := Run(Config(Assign(x, e), env), fuel);
      && (forall i :: 0 <= i < |o.trace| - 1 ==>
            o.trace[i].env == env && o.trace[i].stmt.Assign? && o.trace[i].stmt.name == x)
      && (!o.Halted? ==> Last(o.trace).env == env)
    decreases fuel
  {
    var c := Config(Assign(x, e), env);
    if fuel > 0 && Step(c).Ok? {
      var next := Step(c).value;
      var t, t' := Run(c, fuel).trace, Run(next, fuel - 1).trace;
      RunCons(c, fuel);
      AssignStep(x, e, env);
      if Reducible(e) {
        AssignPrefix(x, next.stmt.expr, env, fuel - 1);
        assert forall i :: 1 <= i < |t| ==> t[i] == t'[i - 1];
      } else {
        assert t' == [next];
      }
    }
  }

  /** An assignment changes the environment exactly once: a halted run ends, after at
      least one step, in a no-op with the name bound to an irreducible node and every
      other name as it was. */
  lemma {:induction false} AssignCompletes(x: string, e: Expr, env: Env, fuel: nat)
    ensures var o := Run(Config(Assign(x, e), env), fuel);
      o.Halted? ==>
        && |o.trace| >= 2
        && Last(o.trace).stmt == NoOp
        && x in Last(o.trace).env && !Reducible(Last(o.trace).env[x])
        && Last(o.trace).env == env[x := Last(o.trace).env[x]]
    decreases fuel
  {
    var c := Config(Assign(x, e), env);
    if fuel > 0 && Step(c).Ok? {
      var next := Step(c).value;
      var t, t' := Run(c, fuel).trace, Run(next, fuel - 1).trace;
      RunCons(c, fuel);
      AssignStep(x, e, env);
      assert Last(t) == Last(t');
      if Reducible(e) {
        AssignCompletes(x, next.stmt.expr, env, fuel - 1);
      } else {
        assert t' == [next];
        assert next.env == env[x := e];
      }
    }
  }

  /** The first part of an If's run: configurations that are the same If up to its
      condition, in the original environment, until (at index `k`) it becomes one of
      its branches, untouched: the consequence when the condition reached `true`, the
      alternative when it reached `false`. */
  lemma {:induction false} IfPrefix(cond: Expr, a: Stmt, b: Stmt, env: Env, fuel: nat)
    returns (k: nat)
    ensures var o := Run(Config(If(cond, a, b), env), fuel);
      && 1 <= k <= |o.trace|
      && (forall i :: 0 <= i < k ==>
            && o.trace[i].env == env && o.trace[i].stmt.If?
            && o.trace[i].stmt.consequence == a && o.trace[i].stmt.alternative == b)
      && (k < |o.trace| ==>
            && o.trace[k - 1].stmt.condition.Boolean?
            && o.trace[k] == (if o.trace[k - 1].stmt.condition.b then Config(a, env) else Config(b, env)))
    decreases fuel
  {
    var c := Config(If(cond, a, b), env);
    var o := Run(c, fuel);
    k := 1;
    if fuel > 0 && Step(c).Ok? {
      var next := Step(c).value;
      var o' := Run(next, fuel - 1);
      assert o.trace == [c] + o'.trace;
      IfStep(cond, a, b, env);
      if Reducible(cond) {
        var k' := IfPrefix(next.stmt.condition, a, b, env, fuel - 1);
        k := k' + 1;
        assert forall i :: 1 <= i < |o.trace| ==> o.trace[i] == o'.trace[i - 1];
      } else {
        assert o.trace[1] == next;
      }
    }
  }

  /** If is short-circuit: after the prefix above, the run is the run of the chosen
      branch alone, so the branch not taken is never stepped. */
  lemma ShortCircuit(cond: Expr, a: Stmt, b: Stmt, env: Env, fuel: nat)
    returns (k: nat)
    ensures var o := Run(Config(If(cond, a, b), env), fuel);
      && 1 <= k <= |o.trace|
      && (forall i :: 0 <= i < k ==>
            && o.trace[i].env == env && o.trace[i].stmt.If?
            && o.trace[i].stmt.consequence == a && o.trace[i].stmt.alternative == b)
      && (k < |o.trace| ==>
            && o.trace[k - 1].stmt.condition.Boolean?
            && o.trace[k] == (if o.trace[k - 1].stmt.condition.b then Config(a, env) else Config(b, env))
            && k <= fuel
            && o.trace[k..] == Run(o.trace[k], fuel - k).trace)
  {
    k := IfPrefix(cond, a, b, env, fuel);
    if k < |Run(Config(If(cond, a, b), env), fuel).trace| {
      RunSuffix(Config(If(cond, a, b), env), fuel, k);
    }
  }

  /** Every suffix of a run's trace is the trace of the run from its first
      configuration, with the steps already taken deducted from the budget. */
  lemma RunSuffix(c: Config, fuel: nat, k: nat)
    requires k < |Run(c, fuel).trace|
    ensures k <= fuel && Run(c, fuel).trace[k..] == Run(Run(c, fuel).trace[k], fuel - k).trace
  {
    RunSuffixFrom(c, fuel, k, Run(c, fuel).trace[k], fuel - k);
  }

  /** RunSuffix, with the suffix's first configuration `d` and its budget `g` named by
      the caller, so the induction never has to equate two runs' arguments. */
  lemma {:induction false} RunSuffixFrom(c: Config, fuel: nat, k: nat, d: Config, g: nat)
    requires k < |Run(c, fuel).trace| && d == Run(c, fuel).trace[k] && k + g == fuel
    ensures Run(c, fuel).trace[k..] == Run(d, g).trace
    decreases k
  {
    if k == 0 {
      assert Run(c, fuel).trace[0..] == Run(c, fuel).trace;
    } else {
      RunTookStep(c, fuel);
      var next := Step(c).value;
      RunCons(c, fuel);
      DropCons(c, Run(next, fuel - 1).trace, k);
      RunSuffixFrom(next, fuel - 1, k - 1, d, g);
    }
  }

  /** A run whose trace goes past its first configuration took a step from it. */
  lemma RunTookStep(c: Config, fuel: nat)
    requires |Run(c, fuel).trace| > 1
    ensures StmtReducible(c.stmt) && fuel > 0 && Step(c).Ok?
  {
  }

  /** A run that takes a step records the configuration it started from, then the run
      from the configuration it stepped to. */
  lemma RunCons(c: Config, fuel: nat)
    requires StmtReducible(c.stmt) && fuel > 0 && Step(c).Ok?
    ensures Run(c, fuel).trace == [c] + Run(Step(c).value, fuel - 1).trace
  {
  }

  lemma DropCons(c: Config, t: seq<Config>, k: nat)
    requires 0 < k <= |t|
    ensures ([c] + t)[k] == t[k - 1] && ([c] + t)[k..] == t[k - 1..]
  {
  }
}
