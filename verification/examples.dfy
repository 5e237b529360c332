/** The example programs run at the end of shade.rb, and a few more that pin down
    evaluation order, assignment and lookup, as concrete facts about the model. */
module Examples {

  import opened Syntax
  import opened Outcomes
  import opened Machine
  import opened Rendering

  function N(n: int): Expr {
    Number(n)
  }

  function Ex(e: Expr): Config {
    Config(Expression(e), map[])
  }

  /** 2 + 3 runs to 5 in one step. */
  lemma AddExample()
    ensures Run(Ex(Binary(Add, N(2), N(3))), 10) ==
              Halted([Ex(Binary(Add, N(2), N(3))), Ex(N(5))])
  {
  }

  /** (4 + 8) * 5: the left operand first, then the product. */
  lemma MultiplyExample()
    ensures Run(Ex(Binary(Multiply, Binary(Add, N(4), N(8)), N(5))), 10) ==
              Halted([Ex(Binary(Multiply, Binary(Add, N(4), N(8)), N(5))),
                      Ex(Binary(Multiply, N(12), N(5))),
                      Ex(N(60))])
  {
    var c1 := Ex(Binary(Multiply, N(12), N(5)));
    assert Run(c1, 9) == Halted([c1, Ex(N(60))]);
  }

  /** 5 < 4 + 3: the right operand is reduced once the left is a value. */
  lemma LessThanExample()
    ensures Run(Ex(Binary(LessThan, N(5), Binary(Add, N(4), N(3)))), 10) ==
              Halted([Ex(Binary(LessThan, N(5), Binary(Add, N(4), N(3)))),
                      Ex(Binary(LessThan, N(5), N(7))),
                      Ex(Boolean(true))])
  {
    var c1 := Ex(Binary(LessThan, N(5), N(7)));
    assert Run(c1, 9) == Halted([c1, Ex(Boolean(true))]);
  }

  /** x = 3 in the empty environment: one step to no-op with x bound to 3. */
  lemma AssignExample()
    ensures Run(Config(Assign("x", N(3)), map[]), 10) ==
              Halted([Config(Assign("x", N(3)), map[]), Config(NoOp, map["x" := N(3)])])
  {
  }

  /** if false then 2 * 11 else 10 + 2: straight to the alternative, which is then
      reduced; the consequence never is. */
  lemma IfExample()
    ensures Run(Config(If(Boolean(false), Expression(Binary(Multiply, N(2), N(11))),
                          Expression(Binary(Add, N(10), N(2)))), map[]), 10) ==
              Halted([Config(If(Boolean(false), Expression(Binary(Multiply, N(2), N(11))),
                                Expression(Binary(Add, N(10), N(2)))), map[]),
                      Ex(Binary(Add, N(10), N(2))),
                      Ex(N(12))])
  {
  }

  /** 2 + 3 + (4 + 5) with the right grouping: the left operand is reduced completely
      before the right one starts. */
  lemma LeftToRightExample()
    ensures Run(Ex(Binary(Add, Binary(Add, N(2), N(3)), Binary(Add, N(4), N(5)))), 10) ==
              Halted([Ex(Binary(Add, Binary(Add, N(2), N(3)), Binary(Add, N(4), N(5)))),
                      Ex(Binary(Add, N(5), Binary(Add, N(4), N(5)))),
                      Ex(Binary(Add, N(5), N(9))),
                      Ex(N(14))])
  {
    var c1 := Ex(Binary(Add, N(5), Binary(Add, N(4), N(5))));
    var c2 := Ex(Binary(Add, N(5), N(9)));
    assert Step(c1) == Ok(c2);
    assert Run(c1, 9) == Halted([c1, c2, Ex(N(14))]);
  }

  /** x = 1 + 2: the right-hand side is reduced in place, and the environment changes
      once, at the last step. */
  lemma AssignTraceExample()
    ensures Run(Config(Assign("x", Binary(Add, N(1), N(2))), map[]), 10) ==
              Halted([Config(Assign("x", Binary(Add, N(1), N(2))), map[]),
                      Config(Assign("x", N(3)), map[]),
                      Config(NoOp, map["x" := N(3)])])
  {
  }

  /** Looking up an unbound name is a fault; a bound one is replaced by its value. */
  lemma LookupExample()
    ensures Run(Ex(Variable("y")), 10) == Failed([Ex(Variable("y"))], UnboundVariable("y"))
    ensures Run(Config(Expression(Variable("y")), map["y" := N(3)]), 10) ==
              Halted([Config(Expression(Variable("y")), map["y" := N(3)]),
                      Config(Expression(N(3)), map["y" := N(3)])])
  {
  }

  /** Operands and conditions of the wrong kind are faults, not values. */
  lemma MismatchExample()
    ensures Run(Ex(Binary(Add, Boolean(true), N(1))), 10) ==
              Failed([Ex(Binary(Add, Boolean(true), N(1)))], NotANumber(Boolean(true)))
    ensures Run(Config(If(N(1), NoOp, NoOp), map[]), 10) ==
              Failed([Config(If(N(1), NoOp, NoOp), map[])], NotABoolean(N(1)))
  {
  }

  /** The texts the interpreter prints for its example programs. */
  lemma RenderExamples()
    ensures Render(Binary(LessThan, N(5), Binary(Add, N(4), N(3)))) == "5 < 4 + 3"
    ensures RenderStmt(Assign("x", N(3))) == "x = 3"
    ensures RenderStmt(NoOp) == "no-op"
    ensures Render(N(-12)) == "-12"
  {
    assert IntToString(3) == "3" && IntToString(4) == "4" && IntToString(5) == "5";
    assert NatToString(12) == NatToString(1) + "2" == "12";
  }

  lemma RenderIfExample()
    ensures RenderStmt(If(Boolean(false), Expression(Binary(Multiply, N(2), N(11))),
                          Expression(Binary(Add, N(10), N(2))))) ==
              "if false then 2 * 11 else 10 + 2"
  {
    RenderOperands();
    assert Join("if", "false") == "if false";
    assert Join("if false", "then") == "if false then";
    assert Join("if false then", "2 * 11") == "if false then 2 * 11";
    assert Join("if false then 2 * 11", "else") == "if false then 2 * 11 else";
  }

  lemma RenderOperands()
    ensures RenderStmt(Expression(Binary(Multiply, N(2), N(11)))) == "2 * 11"
    ensures RenderStmt(Expression(Binary(Add, N(10), N(2)))) == "10 + 2"
  {
    assert IntToString(2) == "2";
    assert IntToString(11) == NatToString(1) + "1" == "11";
    assert IntToString(10) == NatToString(1) + "0" == "10";
  }

  /** The text carries no grouping: (1 + 2) * 3 and 1 + 2 * 3 print alike. */
  lemma RenderAmbiguity()
    ensures Render(Binary(Multiply, Binary(Add, N(1), N(2)), N(3))) == "1 + 2 * 3"
    ensures Render(Binary(Add, N(1), Binary(Multiply, N(2), N(3)))) == "1 + 2 * 3"
  {
    assert IntToString(1) == "1" && IntToString(2) == "2" && IntToString(3) == "3";
    assert Join(Join("1", "+"), "2") == "1 + 2";
    assert Join(Join("2", "*"), "3") == "2 * 3";
    assert Join(Join("1 + 2", "*"), "3") == "1 + 2 * 3";
    assert Join(Join("1", "+"), "2 * 3") == "1 + 2 * 3";
  }

  /** The two trees that print alike run to different numbers. */
  lemma GroupingMatters()
    ensures Run(Ex(Binary(Multiply, Binary(Add, N(1), N(2)), N(3))), 10) ==
              Halted([Ex(Binary(Multiply, Binary(Add, N(1), N(2)), N(3))),
                      Ex(Binary(Multiply, N(3), N(3))),
                      Ex(N(9))])
    ensures Run(Ex(Binary(Add, N(1), Binary(Multiply, N(2), N(3)))), 10) ==
              Halted([Ex(Binary(Add, N(1), Binary(Multiply, N(2), N(3)))),
                      Ex(Binary(Add, N(1), N(6))),
                      Ex(N(7))])
  {
  }
}
