/** A calculator for simple arithmetic expressions over non-negative integer
    literals, the binary operators + - * / ^ and parentheses.  It is a
    three-stage pipeline: a character-level lexer (Tokenize), the
    shunting-yard infix-to-postfix converter (Infix2Postfix) and a
    Reverse-Polish stack evaluator (EvalPostfix), composed by Eval.

    Each stage is a method that keeps the loop of the Java original and is
    proved equal to a specification function (Lex, ToPostfix, RunPostfix,
    Calc); the properties of the calculator are lemmas about those functions. */
module Calculator {

  // ---------------------------------------------------------------------
  // Data model
  // ---------------------------------------------------------------------

  /** The error kinds the calculator reports (the messages are not modelled). */
  datatype Error = MissingOperand | MissingOperator | OpNotFound | DivByZero

  datatype Result<T> = Ok(value: T) | Err(error: Error)

  datatype Operator = Plus | Minus | Times | Divide | Power

  datatype Assoc = Left | Right

  predicate IsDigit(c: char) { '0' <= c <= '9' }

  predicate IsDigits(s: string) { |s| > 0 && forall i :: 0 <= i < |s| ==> IsDigit(s[i]) }

  /** The text of a number token: one or more ASCII digits. */
  type Digits = s: string | IsDigits(s) witness "0"

  /** A token keeps the exact text of a number, so that lexing loses nothing
      but the spaces. */
  datatype Token = Num(digits: Digits) | Op(op: Operator) | LParen | RParen

  /** The exponentiation of the host language (Math.pow), supplied by the caller. */
  type PowFn = (real, real) -> real

  /** What `eval` hands back: a number, the not-a-number sentinel for an empty
      expression, or the error that aborted the evaluation. */
  datatype Answer = Value(x: real) | NaN | Failure(error: Error)

  function Last<T>(s: seq<T>): T requires |s| > 0 { s[|s| - 1] }

  function Init<T>(s: seq<T>): seq<T> requires |s| > 0 { s[..|s| - 1] }

  /** `ts` prefixed to a successful result; an error stays as it is. */
  function Prepend<T>(ts: seq<T>, r: Result<seq<T>>): Result<seq<T>> {
    match r
    case Ok(v) => Ok(ts + v)
    case Err(e) => Err(e)
  }

  // ---------------------------------------------------------------------
  // Lexer
  // ---------------------------------------------------------------------

  function OperatorChar(op: Operator): char {
    match op
    case Plus => '+'
    case Minus => '-'
    case Times => '*'
    case Divide => '/'
    case Power => '^'
  }

  /** One of the operator characters or a parenthesis. */
  predicate IsSymbol(c: char) {
    c == '+' || c == '-' || c == '*' || c == '/' || c == '^' || c == '(' || c == ')'
  }

  /** The characters the lexer accepts. */
  predicate Allowed(c: char) { IsSymbol(c) || c == ' ' || IsDigit(c) }

  function SymbolToken(c: char): (t: Token)
    requires IsSymbol(c)
    ensures Lexeme(t) == [c]
  {
    if c == '+' then Op(Plus)
    else if c == '-' then Op(Minus)
    else if c == '*' then Op(Times)
    else if c == '/' then Op(Divide)
    else if c == '^' then Op(Power)
    else if c == '(' then LParen
    else RParen
  }

  /** The text a token stands for. */
  function Lexeme(t: Token): string {
    match t
    case Num(d) => d
    case Op(op) => [OperatorChar(op)]
    case LParen => "("
    case RParen => ")"
  }

  /** The concatenation of the tokens' texts. */
  function Unlex(ts: seq<Token>): string {
    if ts == [] then "" else Lexeme(ts[0]) + Unlex(ts[1..])
  }

  function RemoveSpaces(s: string): string {
    if s == [] then "" else (if s[0] == ' ' then "" else [s[0]]) + RemoveSpaces(s[1..])
  }

  /** Length of the longest run of digits in `s` starting at `i`. */
  function DigitRun(s: string, i: nat): (n: nat)
    requires i <= |s|
    ensures i + n <= |s|
    ensures forall k :: i <= k < i + n ==> IsDigit(s[k])
    ensures i + n < |s| ==> !IsDigit(s[i + n])
    decreases |s| - i
  {
    if i == |s| || !IsDigit(s[i]) then 0 else 1 + DigitRun(s, i + 1)
  }

  /** Reference definition of the lexer, on the suffix of `s` from `i`: a
      symbol is a token by itself, a space separates, a maximal run of
      digits is one number, and any other character is an error. */
  function LexFrom(s: string, i: nat): Result<seq<Token>>
    requires i <= |s|
    decreases |s| - i
  {
    if i == |s| then Ok([])
    else if IsSymbol(s[i]) then Prepend([SymbolToken(s[i])], LexFrom(s, i + 1))
    else if s[i] == ' ' then LexFrom(s, i + 1)
    else if IsDigit(s[i]) then
      var n := DigitRun(s, i);
      Prepend([Num(s[i..i + n])], LexFrom(s, i + n))
    else Err(OpNotFound)
  }

  function Lex(s: string): Result<seq<Token>> {
    LexFrom(s, 0)
  }

  lemma PrependPrepend<T>(a: seq<T>, b: seq<T>, r: Result<seq<T>>)
    ensures Prepend(a, Prepend(b, r)) == Prepend(a + b, r)
  {
    if r.Ok? { assert a + (b + r.value) == (a + b) + r.value; }
  }

  lemma DigitRunIs(s: string, i: nat, n: nat)
    requires i + n <= |s|
    requires forall k :: i <= k < i + n ==> IsDigit(s[k])
    requires i + n < |s| ==> !IsDigit(s[i + n])
    ensures DigitRun(s, i) == n
    decreases n
  {
    if n > 0 { DigitRunIs(s, i + 1, n - 1); }
  }

  /** The digits buffered from `start` up to `i`, as the token list they flush to. */
  function Buffered(s: string, start: nat, i: nat): seq<Token>
    requires start <= i <= |s|
    requires forall k :: start <= k < i ==> IsDigit(s[k])
  {
    if start == i then [] else [Num(s[start..i])]
  }

  /** Flushing the buffer at a non-digit (or at the end) keeps the lexer invariant. */
  lemma FlushBuffer(s: string, tokens: seq<Token>, start: nat, i: nat)
    requires start <= i <= |s|
    requires forall k :: start <= k < i ==> IsDigit(s[k])
    requires i < |s| ==> !IsDigit(s[i])
    ensures Prepend(tokens, LexFrom(s, start)) == Prepend(tokens + Buffered(s, start, i), LexFrom(s, i))
  {
    if start < i {
      DigitRunIs(s, start, i - start);
      PrependPrepend(tokens, [Num(s[start..i])], LexFrom(s, i));
    } else {
      assert tokens + [] == tokens;
    }
  }

  lemma SymbolStep(s: string, tokens: seq<Token>, start: nat, i: nat)
    requires start <= i < |s| && IsSymbol(s[i])
    requires forall k :: start <= k < i ==> IsDigit(s[k])
    ensures Prepend(tokens, LexFrom(s, start))
         == Prepend(tokens + Buffered(s, start, i) + [SymbolToken(s[i])], LexFrom(s, i + 1))
  {
    FlushBuffer(s, tokens, start, i);
    PrependPrepend(tokens + Buffered(s, start, i), [SymbolToken(s[i])], LexFrom(s, i + 1));
  }

  lemma SpaceStep(s: string, tokens: seq<Token>, start: nat, i: nat)
    requires start <= i < |s| && s[i] == ' '
    requires forall k :: start <= k < i ==> IsDigit(s[k])
    ensures Prepend(tokens, LexFrom(s, start)) == Prepend(tokens + Buffered(s, start, i), LexFrom(s, i + 1))
  {
    FlushBuffer(s, tokens, start, i);
  }

  lemma BadStep(s: string, tokens: seq<Token>, start: nat, i: nat)
    requires start <= i < |s| && !Allowed(s[i])
    requires forall k :: start <= k < i ==> IsDigit(s[k])
    ensures Prepend(tokens, LexFrom(s, start)) == Err(OpNotFound)
  {
    FlushBuffer(s, tokens, start, i);
  }

  lemma EndStep(s: string, tokens: seq<Token>, start: nat)
    requires start <= |s|
    requires forall k :: start <= k < |s| ==> IsDigit(s[k])
    ensures Prepend(tokens, LexFrom(s, start)) == Ok(tokens + Buffered(s, start, |s|))
  {
    FlushBuffer(s, tokens, start, |s|);
    assert tokens + Buffered(s, start, |s|) + [] == tokens + Buffered(s, start, |s|);
  }

  /** Java's `tokenize`: a loop over the characters with a digit buffer. */
  method Tokenize(expr: string) returns (r: Result<seq<Token>>)
    ensures r == if expr == "" then Err(MissingOperand) else Lex(expr)
  {
    if |expr| == 0 {
      return Err(MissingOperand);
    }
    var tokens: seq<Token> := [];
    var buffer: string := "";
    ghost var start := 0;
    var i := 0;
    ghost var whole := Lex(expr);
    assert Prepend(tokens, whole) == whole by {
      if whole.Ok? { assert tokens + whole.value == whole.value; }
    }
    while i < |expr|
      invariant 0 <= start <= i <= |expr|
      invariant buffer == expr[start..i]
      invariant forall k :: start <= k < i ==> IsDigit(expr[k])
      invariant whole == Prepend(tokens, LexFrom(expr, start))
    {
      var c := expr[i];
      if IsSymbol(c) {
        SymbolStep(expr, tokens, start, i);
        assert tokens + Buffered(expr, start, i) == if |buffer| > 0 then tokens + [Num(buffer)] else tokens;
        if |buffer| > 0 {
          tokens := tokens + [Num(buffer)];
          buffer := "";
        }
        tokens := tokens + [SymbolToken(c)];
        start := i + 1;
      } else if c == ' ' {
        SpaceStep(expr, tokens, start, i);
        assert tokens + Buffered(expr, start, i) == if |buffer| > 0 then tokens + [Num(buffer)] else tokens;
        if |buffer| > 0 {
          tokens := tokens + [Num(buffer)];
          buffer := "";
        }
        start := i + 1;
      } else if IsDigit(c) {
        assert expr[start..i + 1] == expr[start..i] + [c];
        buffer := buffer + [c];
      } else {
        BadStep(expr, tokens, start, i);
        return Err(OpNotFound);
      }
      i := i + 1;
    }
    EndStep(expr, tokens, start);
    assert tokens + Buffered(expr, start, i) == if |buffer| > 0 then tokens + [Num(buffer)] else tokens;
    if |buffer| > 0 {
      tokens := tokens + [Num(buffer)];
    }
    return Ok(tokens);
  }

  // ---------------------------------------------------------------------
  // Infix to postfix (shunting-yard)
  // ---------------------------------------------------------------------

  function Precedence(op: Operator): int {
    match op
    case Plus | Minus => 2
    case Times | Divide => 3
    case Power => 4
  }

  function Associativity(op: Operator): Assoc {
    match op
    case Plus | Minus | Times | Divide => Left
    case Power => Right
  }

  /** The pop rule: before `op` is pushed, the stack top is moved to the
      output while it is an operator that binds tighter than `op`, or as
      tight when `op` is left-associative. */
  predicate Pops(top: Token, op: Operator) {
    top.Op? &&
    (Precedence(top.op) > Precedence(op) ||
     (Precedence(top.op) == Precedence(op) && Associativity(op) == Left))
  }

  /** The converter's state: the output so far and the operator stack (top last). */
  datatype Conv = Conv(output: seq<Token>, stack: seq<Token>)

  function PopWhile(c: Conv, op: Operator): Conv
    decreases |c.stack|
  {
    if |c.stack| > 0 && Pops(Last(c.stack), op) then
      PopWhile(Conv(c.output + [Last(c.stack)], Init(c.stack)), op)
    else c
  }

  /** The `)` rule: pop to the output down to the nearest `(`, which is dropped. */
  function PopToParen(c: Conv): Result<Conv>
    decreases |c.stack|
  {
    if |c.stack| == 0 then Err(MissingOperator)
    else if Last(c.stack) == LParen then Ok(Conv(c.output, Init(c.stack)))
    else PopToParen(Conv(c.output + [Last(c.stack)], Init(c.stack)))
  }

  /** One token of the shunting-yard algorithm. */
  function Step(c: Conv, t: Token): Result<Conv> {
    match t
    case Num(_) => Ok(Conv(c.output + [t], c.stack))
    case Op(op) =>
      var d := PopWhile(c, op);
      Ok(Conv(d.output, d.stack + [t]))
    case LParen => Ok(Conv(c.output, c.stack + [LParen]))
    case RParen => PopToParen(c)
  }

  function Steps(c: Conv, ts: seq<Token>): Result<Conv>
    decreases |ts|
  {
    if ts == [] then Ok(c)
    else
      match Step(c, ts[0])
      case Err(e) => Err(e)
      case Ok(d) => Steps(d, ts[1..])
  }

  /** The final loop: move the rest of the stack to the output; a parenthesis
      left on it is unmatched. */
  function Flush(c: Conv): Result<seq<Token>>
    decreases |c.stack|
  {
    if |c.stack| == 0 then Ok(c.output)
    else if Last(c.stack) == LParen || Last(c.stack) == RParen then Err(MissingOperator)
    else Flush(Conv(c.output + [Last(c.stack)], Init(c.stack)))
  }

  function ToPostfix(ts: seq<Token>): Result<seq<Token>> {
    match Steps(Conv([], []), ts)
    case Err(e) => Err(e)
    case Ok(c) => Flush(c)
  }

  /** Java's `infix2Postfix`: postFix list and operator stack. */
  method Infix2Postfix(tokens: seq<Token>) returns (r: Result<seq<Token>>)
    ensures r == ToPostfix(tokens)
  {
    var postFix: seq<Token> := [];
    var operators: seq<Token> := [];
    var i := 0;
    while i < |tokens|
      invariant 0 <= i <= |tokens|
      invariant Steps(Conv([], []), tokens) == Steps(Conv(postFix, operators), tokens[i..])
    {
      var token := tokens[i];
      ghost var before := Conv(postFix, operators);
      assert tokens[i..][1..] == tokens[i + 1..];
      match token {
        case Num(_) =>
          postFix := postFix + [token];
        case Op(op) =>
          while |operators| > 0 && operators[|operators| - 1] != LParen
                && Pops(operators[|operators| - 1], op)
            invariant PopWhile(before, op) == PopWhile(Conv(postFix, operators), op)
            decreases |operators|
          {
            postFix := postFix + [operators[|operators| - 1]];
            operators := operators[..|operators| - 1];
          }
          operators := operators + [token];
        case LParen =>
          operators := operators + [token];
        case RParen =>
          while |operators| > 0 && operators[|operators| - 1] != LParen
            invariant PopToParen(before) == PopToParen(Conv(postFix, operators))
            decreases |operators|
          {
            postFix := postFix + [operators[|operators| - 1]];
            operators := operators[..|operators| - 1];
          }
          if |operators| == 0 {
            return Err(MissingOperator);
          }
          operators := operators[..|operators| - 1];
      }
      i := i + 1;
    }
    assert tokens[i..] == [];
    ghost var done := Conv(postFix, operators);
    while |operators| > 0
      invariant Flush(done) == Flush(Conv(postFix, operators))
      decreases |operators|
    {
      var op := operators[|operators| - 1];
      operators := operators[..|operators| - 1];
      if op == LParen || op == RParen {
        return Err(MissingOperator);
      }
      postFix := postFix + [op];
    }
    return Ok(postFix);
  }

  // ---------------------------------------------------------------------
  // Postfix evaluation
  // ---------------------------------------------------------------------

  function DigitValue(c: char): nat
    requires IsDigit(c)
  {
    assert '0' as int <= c as int;
    c as int - '0' as int
  }

  /** The decimal value of a digit string. */
  function DecimalValue(s: string): nat
    requires forall i :: 0 <= i < |s| ==> IsDigit(s[i])
  {
    if |s| == 0 then 0
    else 10 * DecimalValue(s[..|s| - 1]) + DigitValue(s[|s| - 1])
  }

  /** `d1` is the top of the stack (the right operand), `d2` the one below it. */
  function ApplyOperator(op: Operator, d1: real, d2: real, pow: PowFn): Result<real> {
    match op
    case Plus => Ok(d1 + d2)
    case Minus => Ok(d2 - d1)
    case Times => Ok(d1 * d2)
    case Divide => if d1 == 0.0 then Err(DivByZero) else Ok(d2 / d1)
    case Power => Ok(pow(d2, d1))
  }

  /** Run the postfix tokens on an operand stack (top last). */
  function Exec(stack: seq<real>, ts: seq<Token>, pow: PowFn): Result<seq<real>>
    decreases |ts|
  {
    if ts == [] then Ok(stack)
    else
      match ts[0]
      case Num(d) => Exec(stack + [DecimalValue(d) as real], ts[1..], pow)
      case Op(op) =>
        if |stack| < 2 then Err(MissingOperand)
        else (
          match ApplyOperator(op, stack[|stack| - 1], stack[|stack| - 2], pow)
          case Err(e) => Err(e)
          case Ok(v) => Exec(stack[..|stack| - 2] + [v], ts[1..], pow))
      case _ => Err(OpNotFound)
  }

  function RunPostfix(ts: seq<Token>, pow: PowFn): Result<real> {
    match Exec([], ts, pow)
    case Err(e) => Err(e)
    case Ok(st) =>
      if |st| == 0 then Err(MissingOperand)
      else if |st| > 1 then Err(MissingOperator)
      else Ok(st[0])
  }

  /** Java's `evalPostfix`: a loop over the postfix tokens with an operand stack. */
  method EvalPostfix(postfix: seq<Token>, pow: PowFn) returns (r: Result<real>)
    ensures r == RunPostfix(postfix, pow)
  {
    var stack: seq<real> := [];
    var i := 0;
    while i < |postfix|
      invariant 0 <= i <= |postfix|
      invariant Exec([], postfix, pow) == Exec(stack, postfix[i..], pow)
    {
      assert postfix[i..][1..] == postfix[i + 1..];
      match postfix[i] {
        case Num(d) =>
          stack := stack + [DecimalValue(d) as real];
        case Op(op) =>
          if |stack| < 2 {
            return Err(MissingOperand);
          }
          var d1 := stack[|stack| - 1];
          var d2 := stack[|stack| - 2];
          stack := stack[..|stack| - 2];
          var v := ApplyOperator(op, d1, d2, pow);
          if v.Err? {
            return Err(v.error);
          }
          stack := stack + [v.value];
        case _ =>
          return Err(OpNotFound);
      }
      i := i + 1;
    }
    assert postfix[i..] == [];
    if |stack| == 0 {
      return Err(MissingOperand);
    }
    if |stack| > 1 {
      return Err(MissingOperator);
    }
    return Ok(stack[0]);
  }

  // ---------------------------------------------------------------------
  // The whole pipeline
  // ---------------------------------------------------------------------

  function Calc(expr: string, pow: PowFn): Answer {
    if |expr| == 0 then NaN
    else
      match Lex(expr)
      case Err(e) => Failure(e)
      case Ok(ts) =>
        match ToPostfix(ts)
        case Err(e) => Failure(e)
        case Ok(p) =>
          match RunPostfix(p, pow)
          case Err(e) => Failure(e)
          case Ok(v) => Value(v)
  }

  /** Java's `eval`: NaN for the empty expression, otherwise the three stages. */
  method Eval(expr: string, pow: PowFn) returns (a: Answer)
    ensures a == Calc(expr, pow)
  {
    if |expr| == 0 {
      return NaN;
    }
    var tokens := Tokenize(expr);
    if tokens.Err? {
      return Failure(tokens.error);
    }
    var postfix := Infix2Postfix(tokens.value);
    if postfix.Err? {
      return Failure(postfix.error);
    }
    var v := EvalPostfix(postfix.value, pow);
    if v.Err? {
      return Failure(v.error);
    }
    return Value(v.value);
  }
}
