/** Expression trees: the meaning the calculator gives its input.  An
    expression printed with the fewest parentheses that precedence and
    associativity allow is converted by the shunting-yard stage into the
    tree's postfix form, which the stack evaluator runs to the tree's
    value; so the whole pipeline evaluates the printed text to the value
    of the tree. */
module CalculatorExpressions {
  import opened Calculator
  import opened CalculatorProperties

  datatype Expr = Lit(d: Digits) | Bin(op: Operator, left: Expr, right: Expr)

  /** `x op y`, with `x` the left operand. */
  function Infix(op: Operator, x: real, y: real, pow: PowFn): Result<real> {
    match op
    case Plus => Ok(x + y)
    case Minus => Ok(x - y)
    case Times => Ok(x * y)
    case Divide => if y == 0.0 then Err(DivByZero) else Ok(x / y)
    case Power => Ok(pow(x, y))
  }

  /** The value of a tree: left operand, then right operand, then the
      operator; the first division by zero aborts. */
  function Sem(e: Expr, pow: PowFn): Result<real> {
    match e
    case Lit(d) => Ok(DecimalValue(d) as real)
    case Bin(op, l, r) =>
      match Sem(l, pow)
      case Err(x) => Err(x)
      case Ok(x) =>
        match Sem(r, pow)
        case Err(y) => Err(y)
        case Ok(y) => Infix(op, x, y, pow)
  }

  function Postfix(e: Expr): seq<Token> {
    match e
    case Lit(d) => [Num(d)]
    case Bin(op, l, r) => Postfix(l) + Postfix(r) + [Op(op)]
  }

  // ---------------------------------------------------------------------
  // The evaluator runs the postfix form of a tree to its value
  // ---------------------------------------------------------------------

  /** The operand on top of the stack is the right one: applyOperator(op,
      d1, d2) computes d2 op d1. */
  lemma ApplyIsInfix(op: Operator, x: real, y: real, pow: PowFn)
    ensures ApplyOperator(op, y, x, pow) == Infix(op, x, y, pow)
  {
  }

  /** What the evaluator does after a value has been computed (or not). */
  function Push(r: Result<real>, stack: seq<real>, rest: seq<Token>, pow: PowFn): Result<seq<real>> {
    match r
    case Err(e) => Err(e)
    case Ok(v) => Exec(stack + [v], rest, pow)
  }

  lemma ExecNum(stack: seq<real>, d: Digits, rest: seq<Token>, pow: PowFn)
    ensures Exec(stack, [Num(d)] + rest, pow) == Exec(stack + [DecimalValue(d) as real], rest, pow)
  {
    assert ([Num(d)] + rest)[1..] == rest;
  }

  lemma ExecOp(stack: seq<real>, x: real, y: real, op: Operator, rest: seq<Token>, pow: PowFn)
    ensures Exec(stack + [x] + [y], [Op(op)] + rest, pow) == Push(Infix(op, x, y, pow), stack, rest, pow)
  {
    var st := stack + [x] + [y];
    assert ([Op(op)] + rest)[0] == Op(op) && ([Op(op)] + rest)[1..] == rest;
    assert st[|st| - 1] == y && st[|st| - 2] == x && st[..|st| - 2] == stack;
    ApplyIsInfix(op, x, y, pow);
  }

  /** Running the postfix form of `e` on any stack, before any further
      tokens, pushes the value of `e` (or stops with its error). */
  lemma {:induction false} ExecPostfix(stack: seq<real>, e: Expr, rest: seq<Token>, pow: PowFn)
    ensures Exec(stack, Postfix(e) + rest, pow) == Push(Sem(e, pow), stack, rest, pow)
    decreases e
  {
    match e
    case Lit(d) =>
      ExecNum(stack, d, rest, pow);
    case Bin(op, l, r) =>
      var tail := [Op(op)] + rest;
      assert Postfix(e) + rest == Postfix(l) + (Postfix(r) + tail);
      ExecPostfix(stack, l, Postfix(r) + tail, pow);
      if Sem(l, pow).Ok? {
        var x := Sem(l, pow).value;
        ExecPostfix(stack + [x], r, tail, pow);
        if Sem(r, pow).Ok? {
          ExecOp(stack, x, Sem(r, pow).value, op, rest, pow);
        }
      }
  }

  /** The evaluator computes the value of the tree whose postfix form it runs. */
  lemma RunPostfixSem(e: Expr, pow: PowFn)
    ensures RunPostfix(Postfix(e), pow) == Sem(e, pow)
  {
    ExecPostfix([], e, [], pow);
    assert Postfix(e) + [] == Postfix(e);
    if Sem(e, pow).Ok? {
      assert [] + [Sem(e, pow).value] == [Sem(e, pow).value];
    }
  }

  /** Division by zero is the only way a tree's value can fail. */
  lemma {:induction false} SemError(e: Expr, pow: PowFn)
    ensures Sem(e, pow).Err? ==> Sem(e, pow).error == DivByZero
    decreases e
  {
    if e.Bin? {
      SemError(e.left, pow);
      SemError(e.right, pow);
    }
  }

  // ---------------------------------------------------------------------
  // Printing a tree with the fewest parentheses
  // ---------------------------------------------------------------------

  /** How tightly the top of an expression binds; a literal binds tightest. */
  function PrecOf(e: Expr): int {
    match e
    case Lit(_) => 5
    case Bin(op, _, _) => Precedence(op)
  }

  /** A left operand needs parentheses when it binds looser than `op`, or as
      loosely while `op` groups to the right. */
  predicate ParenLeft(op: Operator, l: Expr) {
    PrecOf(l) < Precedence(op) || (PrecOf(l) == Precedence(op) && Associativity(op) == Right)
  }

  /** A right operand needs parentheses when it binds looser than `op`, or as
      loosely while `op` groups to the left. */
  predicate ParenRight(op: Operator, r: Expr) {
    PrecOf(r) < Precedence(op) || (PrecOf(r) == Precedence(op) && Associativity(op) == Left)
  }

  function Group(ts: seq<Token>, paren: bool): seq<Token> {
    if paren then [LParen] + ts + [RParen] else ts
  }

  /** The conventional infix tokens of a tree. */
  function Show(e: Expr): seq<Token> {
    match e
    case Lit(d) => [Num(d)]
    case Bin(op, l, r) => Group(Show(l), ParenLeft(op, l)) + [Op(op)] + Group(Show(r), ParenRight(op, r))
  }

  /** Operators of one precedence level share their associativity. */
  lemma SameLevelSameAssoc(a: Operator, b: Operator)
    ensures Precedence(a) == Precedence(b) ==> Associativity(a) == Associativity(b)
  {
  }

  // ---------------------------------------------------------------------
  // The converter turns the printed tree into its postfix form
  // ---------------------------------------------------------------------

  function Reverse(s: seq<Token>): seq<Token>
    decreases |s|
  {
    if |s| == 0 then [] else [Last(s)] + Reverse(Init(s))
  }

  /** What reading a (possibly parenthesized) operand leaves on the stack and
      writes to the output. */
  function GroupPending(x: Expr, paren: bool): seq<Token> {
    if paren then [] else Pending(x)
  }

  function GroupEmitted(x: Expr, paren: bool): seq<Token> {
    if paren then Postfix(x) else Emitted(x)
  }

  /** The operators still on the stack after reading Show(e): the spine of
      right operands not in parentheses, outermost first. */
  function Pending(e: Expr): seq<Token> {
    match e
    case Lit(_) => []
    case Bin(op, _, r) => [Op(op)] + (if ParenRight(op, r) then [] else Pending(r))
  }

  /** The output written while reading Show(e). */
  function Emitted(e: Expr): seq<Token> {
    match e
    case Lit(d) => [Num(d)]
    case Bin(op, l, r) => Postfix(l) + (if ParenRight(op, r) then Postfix(r) else Emitted(r))
  }

  /** Every element is an operator binding at least as tightly as `p`. */
  predicate BindsAtLeast(s: seq<Token>, p: int) {
    forall k :: 0 <= k < |s| ==> s[k].Op? && Precedence(s[k].op) >= p
  }

  /** No operator that binds at least as tightly as `p` pops the stack top. */
  predicate Guard(stack: seq<Token>, p: int) {
    |stack| == 0 || forall o: Operator :: Precedence(o) >= p ==> !Pops(Last(stack), o)
  }

  lemma ReverseCons(t: Token, s: seq<Token>)
    ensures Reverse([t] + s) == Reverse(s) + [t]
    decreases |s|
  {
    if |s| == 0 {
      assert [t] + s == [t];
      assert Reverse([t]) == [t] + Reverse([]);
    } else {
      assert Last([t] + s) == Last(s) && Init([t] + s) == [t] + Init(s);
      ReverseCons(t, Init(s));
    }
  }

  /** Popping the stack left by Show(e) completes the output to the postfix form. */
  lemma {:induction false} PendingOutput(e: Expr)
    ensures Emitted(e) + Reverse(Pending(e)) == Postfix(e)
    decreases e
  {
    match e
    case Lit(d) =>
      assert Emitted(e) + [] == Postfix(e);
    case Bin(op, l, r) =>
      var pr := ParenRight(op, r);
      var em, rest := GroupEmitted(r, pr), GroupPending(r, pr);
      if !pr {
        PendingOutput(r);
      } else {
        assert em + Reverse(rest) == em + [];
      }
      ReverseCons(Op(op), rest);
      SeqAssoc(Postfix(l), em, Reverse(rest) + [Op(op)]);
      SeqAssoc(em, Reverse(rest), [Op(op)]);
      SeqAssoc(Postfix(l), Postfix(r), [Op(op)]);
  }

  lemma BindsCons(op: Operator, s: seq<Token>, p: int)
    requires Precedence(op) >= p && BindsAtLeast(s, p)
    ensures BindsAtLeast([Op(op)] + s, p)
  {
    assert forall k :: 0 < k < |s| + 1 ==> ([Op(op)] + s)[k] == s[k - 1];
  }

  /** The stack left by Show(e) holds operators binding at least as tightly as `e`. */
  lemma {:induction false} PendingBinds(e: Expr)
    ensures BindsAtLeast(Pending(e), PrecOf(e))
    decreases e
  {
    match e
    case Lit(d) =>
    case Bin(op, l, r) =>
      var rest := GroupPending(r, ParenRight(op, r));
      if !ParenRight(op, r) {
        PendingBinds(r);
      }
      assert BindsAtLeast(rest, Precedence(op));
      BindsCons(op, rest, Precedence(op));
  }

  /** The `op` rule pops exactly the operators above a guarded stack. */
  lemma {:induction false} PopAll(out: seq<Token>, stack: seq<Token>, p: seq<Token>, op: Operator)
    requires forall k :: 0 <= k < |p| ==> Pops(p[k], op)
    requires |stack| == 0 || !Pops(Last(stack), op)
    ensures PopWhile(Conv(out, stack + p), op) == Conv(out + Reverse(p), stack)
    decreases |p|
  {
    if |p| == 0 {
      assert stack + p == stack;
      assert out + Reverse(p) == out;
    } else {
      var s := stack + p;
      assert Last(s) == Last(p) && Init(s) == stack + Init(p);
      PopAll(out + [Last(p)], stack, Init(p), op);
      SeqAssoc(out, [Last(p)], Reverse(Init(p)));
    }
  }

  /** The `)` rule pops the operators above the nearest `(` and drops it. */
  lemma {:induction false} PopToParenAll(out: seq<Token>, stack: seq<Token>, p: seq<Token>, b: int)
    requires BindsAtLeast(p, b)
    ensures PopToParen(Conv(out, stack + [LParen] + p)) == Ok(Conv(out + Reverse(p), stack))
    decreases |p|
  {
    var s := stack + [LParen] + p;
    if |p| == 0 {
      assert s == stack + [LParen] && Init(s) == stack;
      assert out + Reverse(p) == out;
    } else {
      assert Last(s) == Last(p) && Init(s) == stack + [LParen] + Init(p);
      PopToParenAll(out + [Last(p)], stack, Init(p), b);
      SeqAssoc(out, [Last(p)], Reverse(Init(p)));
    }
  }

  /** The final loop moves a stack of operators to the output. */
  lemma {:induction false} FlushAll(out: seq<Token>, p: seq<Token>, b: int)
    requires BindsAtLeast(p, b)
    ensures Flush(Conv(out, p)) == Ok(out + Reverse(p))
    decreases |p|
  {
    if |p| == 0 {
      assert out + Reverse(p) == out;
    } else {
      assert Last(p).Op?;
      FlushAll(out + [Last(p)], Init(p), b);
      SeqAssoc(out, [Last(p)], Reverse(Init(p)));
    }
  }

  lemma StepsThen(c: Conv, a: seq<Token>, b: seq<Token>, d: Conv)
    requires Steps(c, a) == Ok(d)
    ensures Steps(c, a + b) == Steps(d, b)
  {
    StepsAppend(c, a, b);
  }

  lemma StepsOne(c: Conv, t: Token)
    ensures Steps(c, [t]) == Step(c, t)
  {
    assert [t][1..] == [];
  }

  lemma GuardRight(op: Operator, r: Expr, stack: seq<Token>)
    requires !ParenRight(op, r)
    ensures Guard(stack + [Op(op)], PrecOf(r))
  {
    assert Last(stack + [Op(op)]) == Op(op);
    forall o: Operator | Precedence(o) >= PrecOf(r)
      ensures !Pops(Op(op), o)
    {
      SameLevelSameAssoc(op, o);
    }
  }

  /** The operators the left operand leaves on the stack all give way to `op`. */
  lemma LeftGivesWay(op: Operator, l: Expr, pl: bool)
    requires pl == ParenLeft(op, l)
    ensures forall k :: 0 <= k < |GroupPending(l, pl)| ==> Pops(GroupPending(l, pl)[k], op)
  {
    if !pl {
      PendingBinds(l);
    }
  }

  lemma GroupOutput(x: Expr, paren: bool, out: seq<Token>)
    ensures out + GroupEmitted(x, paren) + Reverse(GroupPending(x, paren)) == out + Postfix(x)
  {
    if paren {
      assert GroupEmitted(x, paren) + [] == Postfix(x);
    } else {
      PendingOutput(x);
    }
    SeqAssoc(out, GroupEmitted(x, paren), Reverse(GroupPending(x, paren)));
  }

  /** Reading the operator of Bin(op, l, r) after its left operand. */
  lemma OpStep(op: Operator, l: Expr, pl: bool, out: seq<Token>, stack: seq<Token>)
    requires pl == ParenLeft(op, l) && Guard(stack, Precedence(op))
    ensures Steps(Conv(out + GroupEmitted(l, pl), stack + GroupPending(l, pl)), [Op(op)])
         == Ok(Conv(out + Postfix(l), stack + [Op(op)]))
  {
    var c := Conv(out + GroupEmitted(l, pl), stack + GroupPending(l, pl));
    LeftGivesWay(op, l, pl);
    PopAll(out + GroupEmitted(l, pl), stack, GroupPending(l, pl), op);
    GroupOutput(l, pl, out);
    assert PopWhile(c, op) == Conv(out + Postfix(l), stack);
    StepsOne(c, Op(op));
  }

  /** The pieces of a binary node's tokens, output and stack. */
  lemma BinParts(op: Operator, l: Expr, r: Expr, out: seq<Token>, stack: seq<Token>)
    ensures Show(Bin(op, l, r))
         == Group(Show(l), ParenLeft(op, l)) + ([Op(op)] + Group(Show(r), ParenRight(op, r)))
    ensures out + Postfix(l) + GroupEmitted(r, ParenRight(op, r)) == out + Emitted(Bin(op, l, r))
    ensures stack + [Op(op)] + GroupPending(r, ParenRight(op, r)) == stack + Pending(Bin(op, l, r))
  {
    SeqAssoc(Group(Show(l), ParenLeft(op, l)), [Op(op)], Group(Show(r), ParenRight(op, r)));
    SeqAssoc(out, Postfix(l), GroupEmitted(r, ParenRight(op, r)));
    SeqAssoc(stack, [Op(op)], GroupPending(r, ParenRight(op, r)));
  }

  /** Reading Bin(op, l, r): its left operand, its operator, its right operand. */
  lemma BinSteps(op: Operator, l: Expr, r: Expr, out: seq<Token>, stack: seq<Token>)
    requires Guard(stack, Precedence(op))
    requires Steps(Conv(out, stack), Group(Show(l), ParenLeft(op, l)))
          == Ok(Conv(out + GroupEmitted(l, ParenLeft(op, l)), stack + GroupPending(l, ParenLeft(op, l))))
    requires Steps(Conv(out + Postfix(l), stack + [Op(op)]), Group(Show(r), ParenRight(op, r)))
          == Ok(Conv(out + Postfix(l) + GroupEmitted(r, ParenRight(op, r)),
                     stack + [Op(op)] + GroupPending(r, ParenRight(op, r))))
    ensures Steps(Conv(out, stack), Show(Bin(op, l, r)))
         == Ok(Conv(out + Emitted(Bin(op, l, r)), stack + Pending(Bin(op, l, r))))
  {
    var pl, pr := ParenLeft(op, l), ParenRight(op, r);
    var left, right := Group(Show(l), pl), Group(Show(r), pr);
    BinParts(op, l, r, out, stack);
    var c1 := Conv(out + GroupEmitted(l, pl), stack + GroupPending(l, pl));
    StepsThen(Conv(out, stack), left, [Op(op)] + right, c1);
    OpStep(op, l, pl, out, stack);
    StepsThen(c1, [Op(op)], right, Conv(out + Postfix(l), stack + [Op(op)]));
  }

  /** Reading Show(e) on a stack that `e`'s operators cannot pop writes
      Emitted(e) and pushes Pending(e). */
  lemma {:induction false} ShowSteps(e: Expr, out: seq<Token>, stack: seq<Token>)
    requires Guard(stack, PrecOf(e))
    ensures Steps(Conv(out, stack), Show(e)) == Ok(Conv(out + Emitted(e), stack + Pending(e)))
    decreases e, 0
  {
    match e
    case Lit(d) =>
      StepsOne(Conv(out, stack), Num(d));
      assert stack + [] == stack;
    case Bin(op, l, r) =>
      GroupSteps(l, ParenLeft(op, l), out, stack);
      if !ParenRight(op, r) {
        GuardRight(op, r, stack);
      }
      GroupSteps(r, ParenRight(op, r), out + Postfix(l), stack + [Op(op)]);
      BinSteps(op, l, r, out, stack);
  }

  /** Reading `( x )` after Show(x) has been read on the pushed `(`. */
  lemma ParenSteps(x: Expr, out: seq<Token>, stack: seq<Token>)
    requires Steps(Conv(out, stack + [LParen]), Show(x))
          == Ok(Conv(out + Emitted(x), stack + [LParen] + Pending(x)))
    ensures Steps(Conv(out, stack), [LParen] + Show(x) + [RParen]) == Ok(Conv(out + Postfix(x), stack))
  {
    var inner := stack + [LParen];
    SeqAssoc([LParen], Show(x), [RParen]);
    StepsOne(Conv(out, stack), LParen);
    StepsThen(Conv(out, stack), [LParen], Show(x) + [RParen], Conv(out, inner));
    StepsThen(Conv(out, inner), Show(x), [RParen], Conv(out + Emitted(x), inner + Pending(x)));
    PendingBinds(x);
    PopToParenAll(out + Emitted(x), stack, Pending(x), PrecOf(x));
    PendingOutput(x);
    SeqAssoc(out, Emitted(x), Reverse(Pending(x)));
    StepsOne(Conv(out + Emitted(x), inner + Pending(x)), RParen);
  }

  /** Reading an operand, in parentheses or not. */
  lemma {:induction false} GroupSteps(x: Expr, paren: bool, out: seq<Token>, stack: seq<Token>)
    requires !paren ==> Guard(stack, PrecOf(x))
    ensures Steps(Conv(out, stack), Group(Show(x), paren))
         == Ok(Conv(out + GroupEmitted(x, paren), stack + GroupPending(x, paren)))
    decreases x, 1
  {
    if !paren {
      ShowSteps(x, out, stack);
    } else {
      ShowSteps(x, out, stack + [LParen]);
      ParenSteps(x, out, stack);
      assert stack + [] == stack;
    }
  }

  /** The converter turns the printed tree into its postfix form. */
  lemma ToPostfixShow(e: Expr)
    ensures ToPostfix(Show(e)) == Ok(Postfix(e))
  {
    ShowSteps(e, [], []);
    assert [] + Emitted(e) == Emitted(e) && [] + Pending(e) == Pending(e);
    PendingBinds(e);
    PendingOutput(e);
    FlushAll(Emitted(e), Pending(e), PrecOf(e));
  }

  // ---------------------------------------------------------------------
  // The printed text lexes back to the printed tokens
  // ---------------------------------------------------------------------

  lemma NoAdjacentJoin(a: seq<Token>, t: Token, b: seq<Token>)
    requires !t.Num? && NoAdjacentNums(a) && NoAdjacentNums(b)
    ensures NoAdjacentNums(a + [t] + b)
  {
    var s := a + [t] + b;
    forall k | 0 <= k < |s| - 1
      ensures !(s[k].Num? && s[k + 1].Num?)
    {
      if k < |a| - 1 {
        assert s[k] == a[k] && s[k + 1] == a[k + 1];
      } else if k == |a| - 1 {
        assert s[k + 1] == t;
      } else if k == |a| {
        assert s[k] == t;
      } else {
        assert s[k] == b[k - |a| - 1] && s[k + 1] == b[k - |a|];
      }
    }
  }

  /** Two numbers are never printed side by side. */
  lemma {:induction false} ShowNoAdjacentNums(e: Expr)
    ensures NoAdjacentNums(Show(e))
    decreases e
  {
    match e
    case Lit(d) =>
    case Bin(op, l, r) =>
      ShowNoAdjacentNums(l);
      ShowNoAdjacentNums(r);
      var left, right := Group(Show(l), ParenLeft(op, l)), Group(Show(r), ParenRight(op, r));
      GroupNoAdjacentNums(Show(l), ParenLeft(op, l));
      GroupNoAdjacentNums(Show(r), ParenRight(op, r));
      NoAdjacentJoin(left, Op(op), right);
  }

  lemma GroupNoAdjacentNums(ts: seq<Token>, paren: bool)
    requires NoAdjacentNums(ts)
    ensures NoAdjacentNums(Group(ts, paren))
  {
    if paren {
      NoAdjacentJoin([], LParen, ts);
      assert [] + [LParen] + ts == [LParen] + ts;
      NoAdjacentJoin([LParen] + ts, RParen, []);
      assert [LParen] + ts + [RParen] + [] == [LParen] + ts + [RParen];
    }
  }

  /** Every token has a non-empty text. */
  lemma {:induction false} UnlexLength(ts: seq<Token>)
    ensures |Unlex(ts)| >= |ts|
    decreases |ts|
  {
    if ts != [] {
      UnlexLength(ts[1..]);
    }
  }

  // ---------------------------------------------------------------------
  // The whole calculator
  // ---------------------------------------------------------------------

  /** How eval reports the value of a tree. */
  function Reported(r: Result<real>): Answer {
    match r
    case Ok(v) => Value(v)
    case Err(e) => Failure(e)
  }

  /** The calculator evaluates the conventional text of any expression tree
      to the tree's value, honouring precedence and associativity; its only
      possible failure is a division by zero. */
  lemma CalcShow(e: Expr, pow: PowFn)
    ensures Calc(Unlex(Show(e)), pow) == Reported(Sem(e, pow))
    ensures Calc(Unlex(Show(e)), pow).Failure? ==> Calc(Unlex(Show(e)), pow).error == DivByZero
  {
    UnlexLength(Show(e));
    ShowNoAdjacentNums(e);
    LexUnlex(Show(e));
    ToPostfixShow(e);
    RunPostfixSem(e, pow);
    SemError(e, pow);
  }

  /** The same with a space before every token. */
  lemma CalcSpacedShow(e: Expr, pow: PowFn)
    ensures Calc(Spaced(Show(e)), pow) == Reported(Sem(e, pow))
  {
    SpacedFirst(Show(e));
    LexSpaced(Show(e));
    ToPostfixShow(e);
    RunPostfixSem(e, pow);
  }
}
