# shade: a small-step interpreter, modelled in Dafny

`shade.rb` is a tiny interpreter in the style of *Understanding Computation*.
Its programs are trees of Struct nodes:

- expressions: `Number`, `Boolean`, `Add`, `Multiply`, `LessThan` and `Variable`;
- statements: `NoOp`, `Assign` and `If`.

Every node answers `reducible?`. Reducible nodes answer `reduce(env)`, which
rewrites the tree one step:

- a binary node steps its left operand first, then its right operand, then
  applies its operator;
- a variable is replaced by its binding;
- an assignment reduces its right-hand side in place, then binds the name and
  becomes `no-op`;
- an `If` reduces its condition, then becomes the chosen branch.

The `VirtualMachine` holds a statement and an environment. Its `run` calls
`step` while the statement is reducible and prints every configuration it
passes through.

The Dafny modules follow that structure.

- `Syntax` (syntax.dfy) holds the node kinds and `reducible?`. The three
  binary classes are one constructor `Binary(op, left, right)`, because their
  rules differ only in the operator. Expressions and statements are two
  separate types.
- `Outcomes` (outcomes.dfy) holds `Result` and `Fault`. A faulting step is a
  value here; in Ruby it is an exception, or a nil that crashes the next step.
- `Reduction` (reduction.dfy) holds every `reduce(env)` and the facts about a
  single step.
- `BigStep` (bigstep.dfy) is a big-step reference semantics. The interpreter
  does not have one; it is the partner the runs are proved against.
- `Machine` (machine.dfy) holds `VirtualMachine#run` as a fuel-bounded `Run`
  that returns the printed trace, and `Execute`, the loop form. It also proves
  termination, agreement with `BigStep`, and the behaviour of assignment and
  `If` over whole runs.
- `Rendering` (render.dfy) holds every `to_s`. It proves that:
  - the decimal text of a number reads back as that number;
  - splitting a rendered program at its spaces gives its infix token sequence.
- `Kinds` (kinds.dfy) covers well-formed variable-free arithmetic. Such a tree
  runs to a value of its kind, in one step per operator.
- `Examples` (examples.dfy) holds the five programs the script runs at its
  end, plus a few more, as concrete traces.
- `AsWritten` (aswritten.dfy) holds `VirtualMachine#step` as written, with faults
  reported at the step that meets them.
  Its destructuring assignment loses the environment (see Findings).

## Model

| member | source | states |
|---|---|---|
| Syntax.IrreducibleIffValue | shade.rb:18-198 | An expression is irreducible exactly when it is a Number or a Boolean. A statement is irreducible exactly when it is `no-op` or a value. |
| Reduction.Apply | shade.rb:60-62 | Applying an operator to two irreducible operands succeeds exactly when both are numbers. The result is a value, and it is a Boolean exactly for `<`. Otherwise the fault names the first operand that is not a number. The same branch appears at lines 84-86 and 108-110. |
| Reduction.ReduceExpr | shade.rb:55-129 | One step of a binary node or a variable. It fails only with an unbound name or a non-number operand. An unbound name is one the expression reads and the environment does not bind. |
| Reduction.ExprStepShrinks | shade.rb:55-63 | A successful step shrinks the tree and reads no new names, provided every name it may read is bound to a value. On a variable-free tree it consumes exactly one operator. |
| Reduction.StmtStepShrinks | shade.rb:163-194 | An assignment or If step shrinks the statement and keeps every read name bound to a value, so the driver terminates. |
| Reduction.EnvironmentDiscipline | shade.rb:163-168 | Only the step that completes an assignment changes the environment. What it stores is irreducible, every other binding is unchanged, and an environment holding only values keeps holding only values. |
| Reduction.LeftFirst | shade.rb:56-59 | A reducible left operand is the only part of a binary node that steps. After it, a reducible right operand is. The operator is kept, and an operand's fault is the node's fault. |
| Reduction.ValueRule | shade.rb:55-111 | With two number operands, one step gives their sum, their product or their comparison. |
| Reduction.OnlyValueRuleProducesValues | shade.rb:55-63 | A step yields a value only by looking up a variable or by applying an operator to two values. |
| Reduction.VariableLookup | shade.rb:127-129 | A variable steps to its binding. It faults when the name is unbound. An expression step never changes the environment. |
| Reduction.AssignStep | shade.rb:163-169 | An assignment reduces its right-hand side in place in the same environment. Once that side is irreducible, the assignment becomes `no-op`, binds the name to it, and leaves every other name alone. |
| Reduction.IfStep | shade.rb:185-194 | An If reduces its condition in place and keeps both branches. A true condition gives the consequence and a false one the alternative, unchanged, in the same environment. A number condition is a fault. |
| BigStep.Evaluate | shade.rb:55-129 | The reference value of an expression is a value whenever every name it reads is bound to a value. A variable-free binary node has a Boolean value exactly when its operator is `<`. |
| BigStep.Exec | shade.rb:163-194 | When every name the statement reads is bound to a value, the reference final configuration is irreducible, and it then preserves an environment that holds only values. |
| Machine.Run | shade.rb:8-15 | A run's trace starts at the initial configuration. It holds at most one more configuration than its step budget. |
| Machine.RunEnds | shade.rb:9-14 | A run halts only at an irreducible statement. It fails only at a reducible one whose step gives that fault. It is cut off only after using its whole step budget. |
| Machine.RunIsChain | shade.rb:9-12 | Each configuration in a trace, except the last, is reducible and steps to the next one. |
| Machine.RunCons | shade.rb:9-11 | A run that steps records its first configuration, then the run from the configuration it stepped to. |
| Machine.RunSuffix | shade.rb:9-12 | Every suffix of a trace is the run from that suffix's first configuration, with the steps already taken deducted from the budget. |
| Machine.Normalize | shade.rb:55-129 | Stepping an expression whose read names are bound to values ends in a value or a fault. |
| Machine.Drive | shade.rb:8-15 | Without a step budget, a terminating configuration is driven to an irreducible statement or a fault. |
| Machine.RunMatchesDrive | shade.rb:8-15 | With at least as many steps as the statement's size, a terminating run is never cut off. It ends where the unbudgeted driver ends. |
| Machine.NormalizeBinary | shade.rb:55-63 | Stepping a binary node to a value first steps the left operand to a value, then the right operand, then applies the operator. |
| Machine.NormalizeAgrees | shade.rb:55-129 | Small-step evaluation of an expression yields its big-step value, or the same fault. |
| Machine.DriveExpression | shade.rb:4-6 | Driving an expression statement means evaluating the expression in the same environment. |
| Machine.DriveAssign | shade.rb:163-168 | Driving an assignment means evaluating its right-hand side, then binding the name to the value. |
| Machine.DriveIf | shade.rb:185-194 | Driving an If means evaluating the condition, then driving the chosen branch. A condition that is not a Boolean is a fault. |
| Machine.DriveAgrees | shade.rb:8-15 | The unbudgeted driver's result is the big-step meaning of the statement. |
| Machine.RunAgrees | shade.rb:8-15 | A terminating run with enough steps halts, or fails, exactly as the big-step semantics says. |
| Machine.Execute | shade.rb:8-15 | The run loop records a chain of steps from the initial configuration. It halts at an irreducible statement, or stops at the step that faults. Its result is the big-step meaning. |
| Machine.ExpressionKeepsEnvironment | shade.rb:4-6 | Every configuration in the run of an expression statement keeps the environment the run started with. |
| Machine.AssignPrefix | shade.rb:163-168 | Until an assignment's run ends, every configuration is the same assignment in the original environment. A run that does not halt never changes the environment. |
| Machine.AssignCompletes | shade.rb:163-168 | A halted assignment run ends, after at least one step, in `no-op`. The name is bound to an irreducible node, and every other name is as it was. |
| Machine.IfPrefix | shade.rb:185-194 | An If's run keeps the same If, with the same branches and environment, until it becomes one of its branches unchanged: the consequence when the condition reached `true`, the alternative when it reached `false`. |
| Machine.ShortCircuit | shade.rb:189-192 | After the If prefix, the branch the final condition selects (`true` the consequence, `false` the alternative) is entered in the original environment, and the rest of the trace is the run of that branch alone, so the other branch is never stepped. |
| Rendering.NatToString | shade.rb:33-35 | The text of a natural number is a non-empty string of decimal digits with no leading zero. |
| Rendering.NatToStringRoundTrip | shade.rb:33-35 | The digits of a natural number read back as that number. |
| Rendering.IntToStringRoundTrip | shade.rb:33-35 | The text of any integer, with a minus sign when negative, reads back as that integer. |
| Rendering.RenderNumberRoundTrip | shade.rb:32-35 | A rendered Number reads back as the number it holds. |
| Rendering.NoSpaceInNumber | shade.rb:33-35 | The text of a number contains no space. |
| Rendering.RenderTokens | shade.rb:47-49 | Splitting an expression's text at its spaces gives exactly its operands and operator symbols in infix order. The same holds at lines 71-73, 95-97, 119-121 and 19-21. |
| Rendering.RenderStmtTokens | shade.rb:137-179 | Splitting a statement's text at its spaces gives its keywords, names and expression tokens in order. |
| Rendering.AssignTokens | shade.rb:155-157 | The text of an assignment splits into its name, `=`, and the tokens of its right-hand side. |
| Rendering.IfTokens | shade.rb:177-179 | The text of an If splits into `if`, the condition's tokens, `then`, the consequence's tokens, `else`, and the alternative's tokens. |
| Kinds.KindedEvaluates | shade.rb:55-111 | A variable-free tree whose operators all see number operands evaluates without fault to a value of its kind. |
| Kinds.StepsPerOperator | shade.rb:55-111 | On a variable-free expression, a halted run takes exactly one step per operator. |
| Kinds.ArithmeticRuns | shade.rb:8-15 | A well-kinded arithmetic tree run in any environment halts, after one step per operator, at a value of its kind, with the environment unchanged. |
| Examples.AddExample | shade.rb:201-206 | `2 + 3` runs to `5` in one step. |
| Examples.MultiplyExample | shade.rb:208-213 | `(4 + 8) * 5` runs through `12 * 5` to `60`. |
| Examples.LessThanExample | shade.rb:215-223 | `5 < 4 + 3` runs through `5 < 7` to `true`. |
| Examples.AssignExample | shade.rb:225-228 | `x = 3` in the empty environment becomes `no-op` with x bound to 3. |
| Examples.IfExample | shade.rb:230-242 | `if false then 2 * 11 else 10 + 2` steps to `10 + 2`, then to `12`. The consequence is never stepped. |
| Examples.LeftToRightExample | shade.rb:55-63 | `(2 + 3) + (4 + 5)` finishes its left operand before its right one starts. |
| Examples.AssignTraceExample | shade.rb:163-168 | `x = 1 + 2` reduces its right-hand side in place. The environment changes only at the last step. |
| Examples.LookupExample | shade.rb:127-129 | An unbound variable faults at once. A bound one is replaced by its value. |
| Examples.MismatchExample | shade.rb:55-194 | A Boolean operand of `+` and a number condition of an If are faults. |
| Examples.RenderExamples | shade.rb:19-157 | The printed forms are `5 < 4 + 3`, `x = 3`, `no-op` and `-12`. |
| Examples.RenderIfExample | shade.rb:177-179 | The If example prints as `if false then 2 * 11 else 10 + 2`. |
| Examples.RenderAmbiguity | shade.rb:47-73 | `(1 + 2) * 3` and `1 + 2 * 3` print alike, because the text carries no grouping. |
| Examples.GroupingMatters | shade.rb:55-87 | Those two trees run to 9 and to 7. |
| AsWritten.RunAsWritten | shade.rb:8-15 | The driver over the as-written step halts only at an irreducible statement. |
| AsWritten.StepDiffersOnlyInEnv | shade.rb:4-6 | The as-written step and the model's step agree on the next statement and on every fault. After an expression step, the as-written environment is nil; after any other step, the environments agree. |
| AsWritten.ForgottenEnvironment | shade.rb:4-6 | On `x + y` with x = 1 and y = 2, the as-written run crashes on the lookup of y. The model's run halts at 3. |

## Left out

- Printing is left out. `run` prints each configuration with `puts`, which the
  model represents as the returned trace. The formatting of the environment
  Hash, and every `inspect` method, are display code and are not modelled.
- Machine.Run: takes a step budget (`fuel`), where the Ruby loop is unbounded.
  A configuration can loop forever: for example, `y = x` with x bound to
  `x + 1`. An assignment keeps the environment, so every lookup of x yields
  `x + 1` again. Such a run is reported as `Exhausted`. Termination is
  proved for every configuration whose read names are bound to values
  (`Machine.RunMatchesDrive`).
- Errors are faults at the step that meets them. Ruby is less direct:
  - an unbound name or a non-Boolean `If` condition gives nil, which crashes
    the next step;
  - a non-number operand raises NoMethodError, TypeError or ArgumentError
    inside `+`, `*` or `<`.

  The model does not distinguish these exception classes or the step at
  which Ruby raises.
- The grammar excludes a statement in an expression position, such as an
  `Assign` as an operand of `Add`. Ruby crashes one step after reducing one,
  because an Array has no `reducible?`. A NoOp as an assignment's right-hand
  side does not crash: `Assign.new(:x, NoOp.new)` runs to completion and binds
  x to a NoOp node (shade.rb:167). As an operand of `+`, `*` or `<` it raises
  NoMethodError on `value` (shade.rb:61), and as an If condition it matches
  neither `when`, so `reduce` yields nil (shade.rb:189-192). The `Expr` type
  cannot express such an operand, so the model has no run like these.
- `reduce` on an irreducible node is excluded by a precondition. Number,
  Boolean and NoOp define no `reduce` at all.
- Variable names are Ruby symbols. They are modelled as strings.
- Integers are Ruby's arbitrary-precision Integers. They are modelled as
  unbounded `int`, so there is no overflow to model.
- A machine created without an environment starts with nil. The main model
  starts it with an empty environment, which behaves the same for the example
  programs. `AsWritten` keeps nil as `None`, and reports a lookup in a nil
  environment as an unbound name where Ruby raises NoMethodError.
- Rendering.RenderTokens: requires variable names without spaces. A Ruby
  symbol may contain one (`:"a b"`), and then the text does not split back
  into its tokens.
- Rendering.RenderStmtTokens: requires the same of assigned names.

## Findings

| source | as written | input that shows it | evidently intended | confidence | as-written member | corrected member |
|---|---|---|---|---|---|---|
| shade.rb:4-6 | `step` destructures every reduct as a (statement, environment) pair. An expression's `reduce` returns a bare node. A Struct has no `to_ary`, so the node becomes the statement and the environment becomes nil. | `VirtualMachine.new(Add.new(Variable.new(:x), Variable.new(:y)), { x: Number.new(1), y: Number.new(2) }).run`: the first step forgets the environment, and the lookup of y then fails | An expression step keeps the environment, and the run ends at `3` | high; not executed | AsWritten.ForgottenEnvironment | Machine.ExpressionKeepsEnvironment |
