/** Variable-free arithmetic trees: which of them are well formed, and what running
    them yields. The interpreter checks no kinds ahead of time; this module states what
    its rules guarantee for trees that happen to be well formed. */
module Kinds {

  import opened Syntax
  import opened Outcomes
  import opened Reduction
  import opened BigStep
  import opened Machine

  datatype Kind = NumberKind | BooleanKind

  predicate HasKind(v: Expr, k: Kind) {
    match k
    case NumberKind => v.Number?
    case BooleanKind => v.Boolean?
  }

  /** The kind of a variable-free tree whose operands are all numbers: + and * give a
      number, < gives a boolean. Trees with a variable or a mismatched operand have
      none. */
  function KindOf(e: Expr): Option<Kind> {
    match e
    case Number(_) => Some(NumberKind)
    case Boolean(_) => Some(BooleanKind)
    case Variable(_) => None
    case Binary(op, l, r) =>
      if KindOf(l) == Some(NumberKind) && KindOf(r) == Some(NumberKind) then
        Some(if op == LessThan then BooleanKind else NumberKind)
      else None
  }

  lemma {:induction false} KindedIsVariableFree(e: Expr)
    requires KindOf(e).Some?
    ensures Vars(e) == {}
  {
    match e
    case Number(_) =>
    case Boolean(_) =>
    case Binary(_, l, r) =>
      KindedIsVariableFree(l);
      KindedIsVariableFree(r);
  }

  /** A well-kinded tree evaluates, without fault, to a value of its kind. */
  lemma {:induction false} KindedEvaluates(e: Expr, env: Env)
    requires KindOf(e).Some?
    ensures Evaluate(e, env).Ok? && HasKind(Evaluate(e, env).value, KindOf(e).value)
  {
    match e
    case Number(_) =>
    case Boolean(_) =>
    case Binary(op, l, r) =>
      KindedEvaluates(l, env);
      KindedEvaluates(r, env);
  }

  /** On a variable-free expression a halted run takes one step per operator. */
  lemma {:induction false} StepsPerOperator(e: Expr, env: Env, fuel: nat)
    requires Vars(e) == {}
    ensures var o := Run(Config(Expression(e), env), fuel);
              o.Halted? ==> |o.trace| == Ops(e) + 1
    decreases fuel
  {
    var c := Config(Expression(e), env);
    if Reducible(e) && fuel > 0 && Step(c).Ok? {
      var e' := ReduceExpr(e, env).value;
      assert Step(c).value == Config(Expression(e'), env);
      ExprStepShrinks(e, env);
      StepsPerOperator(e', env, fuel - 1);
      assert Run(c, fuel).trace == [c] + Run(Config(Expression(e'), env), fuel - 1).trace;
    }
  }

  /** A variable-free tree built from numbers with +, * and < runs, in any environment,
      to a value of the root operator's kind, in exactly as many steps as it has
      operators. */
  lemma ArithmeticRuns(e: Expr, env: Env)
    requires KindOf(e).Some?
    ensures var o := Run(Config(Expression(e), env), Size(e));
      && o.Halted?
      && |o.trace| == Ops(e) + 1
      && Last(o.trace).env == env
      && Last(o.trace).stmt.Expression?
      && HasKind(Last(o.trace).stmt.expr, KindOf(e).value)
  {
    KindedIsVariableFree(e);
    var c := Config(Expression(e), env);
    RunAgrees(c, Size(e));
    KindedEvaluates(e, env);
    StepsPerOperator(e, env, Size(e));
  }
}
