/** Failure-compatible result types shared by the reduction rules and the driver. */
module Outcomes {

  import opened Syntax

  /** The ways a reduction step can fail. The interpreter raises each of these as a
      Ruby exception (or a nil that crashes the next step); here they are values. */
  datatype Fault =
    | UnboundVariable(name: string)     // a Variable whose name the environment does not bind
    | NotANumber(operand: Expr)         // an irreducible operand of + * < that is not a Number
    | NotABoolean(condition: Expr)      // an irreducible If condition that is not a Boolean
    | NilEnvironment                    // Hash#merge on a nil environment (as-written driver only)

  datatype Option<+T> = None | Some(value: T)

  datatype Result<+T> = Ok(value: T) | Err(fault: Fault) {

    predicate IsFailure() {
      Err?
    }

    function PropagateFailure<U>(): Result<U>
      requires Err?
    {
      Err(fault)
    }

    function Extract(): T
      requires Ok?
    {
      value
    }
  }
}
