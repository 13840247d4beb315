/** The behaviour of eval on concrete expressions the calculator is
    expected to handle, and on malformed input. */
module CalculatorExamples {
  import opened Calculator
  import opened CalculatorProperties
  import opened CalculatorExpressions

  /** b raised to a whole power n (1 for n <= 0). */
  function NatPow(b: real, n: int): real
    decreases n
  {
    if n <= 0 then 1.0 else b * NatPow(b, n - 1)
  }

  /** Math.pow agrees with repeated multiplication on whole exponents. */
  ghost predicate IsNatPow(pow: PowFn) {
    forall b: real, n: nat :: pow(b, n as real) == NatPow(b, n)
  }

  lemma EmptyIsNaN(pow: PowFn)
    ensures Calc("", pow) == NaN
  {
  }

  lemma BlankIsMissingOperand(pow: PowFn)
    ensures Calc("   ", pow) == Failure(MissingOperand)
  {
  }

  lemma UnknownSymbol(pow: PowFn)
    ensures Calc("2#3", pow) == Failure(OpNotFound)
  {
  }

  // Trees of the example expressions.

  function SumOfProduct(): Expr { Bin(Plus, Lit("2"), Bin(Times, Lit("3"), Lit("4"))) }
  function ProductOfSum(): Expr { Bin(Times, Bin(Plus, Lit("2"), Lit("3")), Lit("4")) }
  function Differences(): Expr { Bin(Minus, Bin(Minus, Lit("10"), Lit("4")), Lit("3")) }
  function Powers(): Expr { Bin(Power, Lit("2"), Bin(Power, Lit("3"), Lit("2"))) }
  function Quotient(): Expr { Bin(Divide, Lit("5"), Lit("0")) }
  function Sum(): Expr { Bin(Plus, Lit("1"), Lit("2")) }

  lemma SumOfProductText()
    ensures Unlex(Show(SumOfProduct())) == "2+3*4"
  {
    assert Show(SumOfProduct()) == [Num("2"), Op(Plus), Num("3"), Op(Times), Num("4")];
  }

  lemma ProductOfSumText()
    ensures Unlex(Show(ProductOfSum())) == "(2+3)*4"
  {
    assert Show(ProductOfSum()) == [LParen, Num("2"), Op(Plus), Num("3"), RParen, Op(Times), Num("4")];
  }

  lemma DifferencesText()
    ensures Unlex(Show(Differences())) == "10-4-3"
  {
    assert Show(Differences()) == [Num("10"), Op(Minus), Num("4"), Op(Minus), Num("3")];
  }

  lemma PowersText()
    ensures Unlex(Show(Powers())) == "2^3^2"
  {
    assert Show(Powers()) == [Num("2"), Op(Power), Num("3"), Op(Power), Num("2")];
  }

  lemma QuotientText()
    ensures Unlex(Show(Quotient())) == "5/0"
  {
    assert Show(Quotient()) == [Num("5"), Op(Divide), Num("0")];
  }

  lemma SumText()
    ensures Unlex(Show(Sum())) == "1+2" && Spaced(Show(Sum())) == " 1 + 2"
  {
    assert Show(Sum()) == [Num("1"), Op(Plus), Num("2")];
  }

  lemma TreeValues(pow: PowFn)
    ensures Sem(SumOfProduct(), pow) == Ok(14.0)
    ensures Sem(ProductOfSum(), pow) == Ok(20.0)
    ensures Sem(Differences(), pow) == Ok(3.0)
    ensures IsNatPow(pow) ==> Sem(Powers(), pow) == Ok(512.0)
    ensures Sem(Quotient(), pow) == Err(DivByZero)
    ensures Sem(Sum(), pow) == Ok(3.0)
  {
    assert DecimalValue("10") == 10 by {
      assert "10"[..1] == "1";
    }
    if IsNatPow(pow) {
      assert pow(3.0, 2 as real) == NatPow(3.0, 2);
      assert pow(2.0, 9 as real) == NatPow(2.0, 9);
    }
  }

  lemma Precedence1(pow: PowFn)
    ensures Calc("2+3*4", pow) == Value(14.0)
  {
    SumOfProductText();
    TreeValues(pow);
    CalcShow(SumOfProduct(), pow);
  }

  lemma Precedence2(pow: PowFn)
    ensures Calc("(2+3)*4", pow) == Value(20.0)
  {
    ProductOfSumText();
    TreeValues(pow);
    CalcShow(ProductOfSum(), pow);
  }

  /** 10-4-3 is (10-4)-3, not 10-(4-3). */
  lemma LeftAssociative(pow: PowFn)
    ensures Calc("10-4-3", pow) == Value(3.0)
  {
    DifferencesText();
    TreeValues(pow);
    CalcShow(Differences(), pow);
  }

  /** 2^3^2 is 2^(3^2), not (2^3)^2. */
  lemma RightAssociative(pow: PowFn)
    requires IsNatPow(pow)
    ensures Calc("2^3^2", pow) == Value(512.0)
  {
    PowersText();
    TreeValues(pow);
    CalcShow(Powers(), pow);
  }

  lemma DivisionByZero(pow: PowFn)
    ensures Calc("5/0", pow) == Failure(DivByZero)
  {
    QuotientText();
    TreeValues(pow);
    CalcShow(Quotient(), pow);
  }

  lemma SpacesIgnored(pow: PowFn)
    ensures Calc(" 1 + 2", pow) == Calc("1+2", pow) == Value(3.0)
  {
    SumText();
    TreeValues(pow);
    CalcShow(Sum(), pow);
    CalcSpacedShow(Sum(), pow);
  }

  /** A trailing space is ignored as well. */
  lemma TrailingSpace(pow: PowFn)
    ensures Calc(" 1 + 2 ", pow) == Value(3.0)
  {
    SumText();
    TreeValues(pow);
    var s := " 1 + 2 ";
    LexSpaceAt(s, 6);
    assert s[5..6] == Lexeme(Num("2"));
    LexNumAt(s, 5, Num("2"));
    LexSpaceAt(s, 4);
    LexSymbolAt(s, 3, Op(Plus));
    LexSpaceAt(s, 2);
    assert s[1..2] == Lexeme(Num("1"));
    LexNumAt(s, 1, Num("1"));
    LexSpaceAt(s, 0);
    assert |s| == 7 && LexFrom(s, 7) == Ok([]);
    assert [Num("2")] + [] == [Num("2")];
    assert LexFrom(s, 5) == Ok([Num("2")]);
    assert [Op(Plus)] + [Num("2")] == [Op(Plus), Num("2")];
    assert LexFrom(s, 3) == Ok([Op(Plus), Num("2")]);
    assert [Num("1")] + [Op(Plus), Num("2")] == [Num("1"), Op(Plus), Num("2")];
    assert Lex(s) == Ok([Num("1"), Op(Plus), Num("2")]);
    assert Show(Sum()) == [Num("1"), Op(Plus), Num("2")];
    ToPostfixShow(Sum());
    RunPostfixSem(Sum(), pow);
  }

  // Malformed input, token by token.

  function Unclosed(): seq<Token> { [LParen, Num("1"), Op(Plus), Num("2")] }
  function Unopened(): seq<Token> { [Num("1"), Op(Plus), Num("2"), RParen] }

  lemma UnclosedTokens()
    ensures Lex("(1+2") == Ok(Unclosed()) && ToPostfix(Unclosed()) == Err(MissingOperator)
  {
    assert Unlex(Unclosed()) == "(1+2";
    LexUnlex(Unclosed());
    assert !Balanced(Unclosed());
    ToPostfixFails(Unclosed());
  }

  lemma UnopenedTokens()
    ensures Lex("1+2)") == Ok(Unopened()) && ToPostfix(Unopened()) == Err(MissingOperator)
  {
    assert Unlex(Unopened()) == "1+2)";
    LexUnlex(Unopened());
    assert !Balanced(Unopened());
    ToPostfixFails(Unopened());
  }

  lemma UnclosedParen(pow: PowFn)
    ensures Calc("(1+2", pow) == Failure(MissingOperator)
  {
    UnclosedTokens();
  }

  lemma UnopenedParen(pow: PowFn)
    ensures Calc("1+2)", pow) == Failure(MissingOperator)
  {
    UnopenedTokens();
  }

  lemma PostfixExamples(pow: PowFn)
    ensures RunPostfix([Num("1"), Num("1"), Op(Plus)], pow) == Ok(2.0)
    ensures RunPostfix([Num("1"), Op(Plus)], pow) == Err(MissingOperand)
    ensures RunPostfix([Num("1"), Num("1")], pow) == Err(MissingOperator)
  {
  }

  function Dangling(): seq<Token> { [Num("2"), Op(Plus)] }

  lemma DanglingTokens()
    ensures Lex("2+") == Ok(Dangling()) && ToPostfix(Dangling()) == Ok(Dangling())
  {
    assert Unlex(Dangling()) == "2+";
    LexUnlex(Dangling());
    var c0, c1, c2 := Conv([], []), Conv([Num("2")], []), Conv([Num("2")], [Op(Plus)]);
    StepsOne(c0, Num("2"));
    assert [] + [Num("2")] == [Num("2")];
    StepsThen(c0, [Num("2")], [Op(Plus)], c1);
    StepsOne(c1, Op(Plus));
    assert [] + [Op(Plus)] == [Op(Plus)];
    assert [Num("2")] + [Op(Plus)] == Dangling();
  }

  lemma DanglingOperator(pow: PowFn)
    ensures Calc("2+", pow) == Failure(MissingOperand)
  {
    DanglingTokens();
    assert RunPostfix(Dangling(), pow) == Err(MissingOperand);
  }

  lemma TwoNumbersTokens()
    ensures Lex(" 2 3") == Ok([Num("2"), Num("3")])
    ensures ToPostfix([Num("2"), Num("3")]) == Ok([Num("2"), Num("3")])
  {
    LexSpaced([Num("2"), Num("3")]);
    assert Spaced([Num("2"), Num("3")]) == " 2 3";
    var c0, c1 := Conv([], []), Conv([Num("2")], []);
    StepsOne(c0, Num("2"));
    assert [] + [Num("2")] == [Num("2")];
    StepsThen(c0, [Num("2")], [Num("3")], c1);
    StepsOne(c1, Num("3"));
    assert [Num("2")] + [Num("3")] == [Num("2"), Num("3")];
  }

  function OperatorLastList(): seq<Token> { [Num("1"), Num("1"), Op(Plus)] }

  lemma OperatorLastTokens()
    ensures Lex("1 1 +") == Ok(OperatorLastList()) && ToPostfix(OperatorLastList()) == Ok(OperatorLastList())
  {
    var s := "1 1 +";
    assert |s| == 5 && LexFrom(s, 5) == Ok([]);
    LexSymbolAt(s, 4, Op(Plus));
    assert [Op(Plus)] + [] == [Op(Plus)];
    LexSpaceAt(s, 3);
    assert s[2..3] == Lexeme(Num("1"));
    LexNumAt(s, 2, Num("1"));
    assert [Num("1")] + [Op(Plus)] == [Num("1"), Op(Plus)];
    LexSpaceAt(s, 1);
    assert s[0..1] == Lexeme(Num("1"));
    LexNumAt(s, 0, Num("1"));
    assert [Num("1")] + [Num("1"), Op(Plus)] == OperatorLastList();
    var c0, c1, c2 := Conv([], []), Conv([Num("1")], []), Conv([Num("1"), Num("1")], []);
    StepsOne(c0, Num("1"));
    assert [] + [Num("1")] == [Num("1")];
    StepsThen(c0, [Num("1")], [Num("1"), Op(Plus)], c1);
    StepsOne(c1, Num("1"));
    assert [Num("1")] + [Num("1")] == [Num("1"), Num("1")];
    assert [Num("1"), Op(Plus)] == [Num("1")] + [Op(Plus)];
    StepsThen(c1, [Num("1")], [Op(Plus)], c2);
    StepsOne(c2, Op(Plus));
    assert [] + [Op(Plus)] == [Op(Plus)];
    assert [Num("1"), Num("1")] + [Op(Plus)] == OperatorLastList();
  }

  /** Operands written before their operator are accepted: the converter
      does not check the infix grammar, so "1 1 +" evaluates to 2. */
  lemma OperatorLast(pow: PowFn)
    ensures Calc("1 1 +", pow) == Value(2.0)
  {
    OperatorLastTokens();
    assert RunPostfix(OperatorLastList(), pow) == Ok(2.0);
  }

  /** Two numbers without an operator between them. */
  lemma TwoNumbers(pow: PowFn)
    ensures Calc(" 2 3", pow) == Failure(MissingOperator)
  {
    TwoNumbersTokens();
  }
}
