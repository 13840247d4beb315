/** Properties of the calculator's three stages: what the lexer accepts
    and what it loses, what the shunting-yard converter keeps and when it
    fails, and how the postfix evaluator reports malformed input. */
module CalculatorProperties {
  import opened Calculator

  // ---------------------------------------------------------------------
  // Lexer
  // ---------------------------------------------------------------------

  /** The lexer fails, with OpNotFound, exactly when the input holds a
      character other than a digit, a space, an operator or a parenthesis. */
  lemma {:induction false} LexFromFails(s: string, i: nat)
    requires i <= |s|
    ensures LexFrom(s, i).Err? <==> exists k :: i <= k < |s| && !Allowed(s[k])
    ensures LexFrom(s, i).Err? ==> LexFrom(s, i).error == OpNotFound
    decreases |s| - i
  {
    if i < |s| {
      if IsSymbol(s[i]) || s[i] == ' ' {
        LexFromFails(s, i + 1);
        if exists k :: i <= k < |s| && !Allowed(s[k]) {
          var k :| i <= k < |s| && !Allowed(s[k]);
          assert k != i;
        }
      } else if IsDigit(s[i]) {
        var n := DigitRun(s, i);
        LexFromFails(s, i + n);
        if exists k :: i <= k < |s| && !Allowed(s[k]) {
          var k :| i <= k < |s| && !Allowed(s[k]);
          assert k >= i + n;
        }
      }
    }
  }

  lemma LexFails(s: string)
    ensures Lex(s).Err? <==> exists k :: 0 <= k < |s| && !Allowed(s[k])
    ensures Lex(s).Err? ==> Lex(s).error == OpNotFound
  {
    LexFromFails(s, 0);
  }

  lemma UnlexCons(t: Token, ts: seq<Token>)
    ensures Unlex([t] + ts) == Lexeme(t) + Unlex(ts)
  {
    assert ([t] + ts)[1..] == ts;
  }

  lemma {:induction false} RemoveSpacesAppend(a: string, b: string)
    ensures RemoveSpaces(a + b) == RemoveSpaces(a) + RemoveSpaces(b)
  {
    if a == [] {
      assert a + b == b;
    } else {
      assert (a + b)[1..] == a[1..] + b;
      RemoveSpacesAppend(a[1..], b);
    }
  }

  lemma {:induction false} RemoveSpacesNone(a: string)
    requires forall k :: 0 <= k < |a| ==> a[k] != ' '
    ensures RemoveSpaces(a) == a
  {
    if a != [] {
      RemoveSpacesNone(a[1..]);
    }
  }

  /** What one lexing step at `i` keeps of the text: the piece `s[i..k]`
      becomes the tokens `pre`, which spell it without its spaces. */
  lemma TextStep(s: string, i: nat, k: nat, pre: seq<Token>)
    requires i <= k <= |s| && LexFrom(s, i) == Prepend(pre, LexFrom(s, k))
    requires Unlex(pre) == RemoveSpaces(s[i..k])
    requires LexFrom(s, k).Ok? ==> Unlex(LexFrom(s, k).value) == RemoveSpaces(s[k..])
    ensures LexFrom(s, i).Ok? ==> Unlex(LexFrom(s, i).value) == RemoveSpaces(s[i..])
  {
    TextJoin(s, i, k, pre, LexFrom(s, i), LexFrom(s, k));
  }

  lemma TextJoin(s: string, i: nat, k: nat, pre: seq<Token>, r: Result<seq<Token>>, rk: Result<seq<Token>>)
    requires i <= k <= |s| && r == Prepend(pre, rk)
    requires Unlex(pre) == RemoveSpaces(s[i..k])
    requires rk.Ok? ==> Unlex(rk.value) == RemoveSpaces(s[k..])
    ensures r.Ok? ==> Unlex(r.value) == RemoveSpaces(s[i..])
  {
    if rk.Ok? {
      UnlexAppend(pre, rk.value);
      assert s[i..] == s[i..k] + s[k..];
      RemoveSpacesAppend(s[i..k], s[k..]);
    }
  }

  lemma {:induction false} UnlexAppend(a: seq<Token>, b: seq<Token>)
    ensures Unlex(a + b) == Unlex(a) + Unlex(b)
    decreases a
  {
    if a == [] {
      assert a + b == b;
    } else {
      assert (a + b)[0] == a[0] && (a + b)[1..] == a[1..] + b;
      UnlexAppend(a[1..], b);
    }
  }

  lemma PrependNothing(r: Result<seq<Token>>)
    ensures Prepend([], r) == r
  {
    if r.Ok? {
      assert [] + r.value == r.value;
    }
  }

  lemma UnlexOne(t: Token)
    ensures Unlex([t]) == Lexeme(t)
  {
    assert [t][1..] == [];
  }

  lemma RemoveSpacesOne(c: char)
    ensures RemoveSpaces([c]) == if c == ' ' then "" else [c]
  {
    assert [c][1..] == [];
  }

  lemma {:induction false} LexFromText(s: string, i: nat)
    requires i <= |s|
    ensures LexFrom(s, i).Ok? ==> Unlex(LexFrom(s, i).value) == RemoveSpaces(s[i..])
    decreases |s| - i
  {
    if i < |s| {
      if IsSymbol(s[i]) || s[i] == ' ' {
        LexFromText(s, i + 1);
        assert s[i..i + 1] == [s[i]];
        RemoveSpacesOne(s[i]);
        if IsSymbol(s[i]) {
          UnlexOne(SymbolToken(s[i]));
          TextStep(s, i, i + 1, [SymbolToken(s[i])]);
        } else {
          PrependNothing(LexFrom(s, i + 1));
          TextStep(s, i, i + 1, []);
        }
      } else if IsDigit(s[i]) {
        var n := DigitRun(s, i);
        LexFromText(s, i + n);
        UnlexOne(Num(s[i..i + n]));
        RemoveSpacesNone(s[i..i + n]);
        TextStep(s, i, i + n, [Num(s[i..i + n])]);
      }
    }
  }

  /** On success the tokens spell out the input with its spaces deleted
      (every token is one symbol, or a non-empty digit string by its type). */
  lemma LexText(s: string)
    ensures Lex(s).Ok? ==> Unlex(Lex(s).value) == RemoveSpaces(s)
  {
    LexFromText(s, 0);
    assert s[0..] == s;
  }

  /** No two number tokens next to each other. */
  predicate NoAdjacentNums(ts: seq<Token>) {
    forall k :: 0 <= k < |ts| - 1 ==> !(ts[k].Num? && ts[k + 1].Num?)
  }

  lemma SymbolOfLexeme(t: Token)
    requires !t.Num?
    ensures |Lexeme(t)| == 1 && IsSymbol(Lexeme(t)[0]) && SymbolToken(Lexeme(t)[0]) == t
  {
  }

  /** One number token read off the text at `i`, given what follows it. */
  lemma LexNumAt(s: string, i: nat, t: Token)
    requires t.Num? && i + |Lexeme(t)| <= |s| && s[i..i + |Lexeme(t)|] == Lexeme(t)
    requires i + |Lexeme(t)| < |s| ==> !IsDigit(s[i + |Lexeme(t)|])
    ensures LexFrom(s, i) == Prepend([t], LexFrom(s, i + |Lexeme(t)|))
  {
    var d := t.digits;
    assert Lexeme(t) == d;
    assert forall k :: i <= k < i + |d| ==> s[k] == d[k - i];
    DigitRunIs(s, i, |d|);
    assert [Num(s[i..i + |d|])] == [t];
  }

  /** One operator or parenthesis token read off the text at `i`. */
  lemma LexSymbolAt(s: string, i: nat, t: Token)
    requires !t.Num? && i < |s| && s[i] == Lexeme(t)[0]
    ensures LexFrom(s, i) == Prepend([t], LexFrom(s, i + 1))
  {
    SymbolOfLexeme(t);
  }

  lemma LexSpaceAt(s: string, i: nat)
    requires i < |s| && s[i] == ' '
    ensures LexFrom(s, i) == LexFrom(s, i + 1)
  {
  }

  /** Any token read off the text at `i`, given that a number is not
      followed by a digit. */
  lemma LexTokenAt(s: string, i: nat, t: Token)
    requires i + |Lexeme(t)| <= |s| && s[i..i + |Lexeme(t)|] == Lexeme(t)
    requires t.Num? && i + |Lexeme(t)| < |s| ==> !IsDigit(s[i + |Lexeme(t)|])
    ensures LexFrom(s, i) == Prepend([t], LexFrom(s, i + |Lexeme(t)|))
  {
    if t.Num? {
      LexNumAt(s, i, t);
    } else {
      SymbolOfLexeme(t);
      assert s[i] == s[i..i + 1][0];
      LexSymbolAt(s, i, t);
    }
  }

  lemma PrependHead(a: Result<seq<Token>>, b: Result<seq<Token>>, ts: seq<Token>)
    requires ts != [] && a == Prepend([ts[0]], b) && b == Ok(ts[1..])
    ensures a == Ok(ts)
  {
    assert [ts[0]] + ts[1..] == ts;
  }

  /** Splitting a suffix written as a concatenation. */
  lemma SplitSuffix(s: string, i: nat, a: string, b: string)
    requires i <= |s| && s[i..] == a + b
    ensures i + |a| <= |s| && s[i..i + |a|] == a && s[i + |a|..] == b
  {
    assert s[i..i + |a|] == (a + b)[..|a|];
    assert s[i + |a|..] == (a + b)[|a|..];
  }

  /** The pieces of a suffix that spells a token followed by more tokens;
      a symbol token starts with a non-digit. */
  lemma UnlexHead(s: string, i: nat, ts: seq<Token>)
    requires i <= |s| && s[i..] == Unlex(ts) && ts != []
    ensures i + |Lexeme(ts[0])| <= |s|
    ensures s[i..i + |Lexeme(ts[0])|] == Lexeme(ts[0])
    ensures s[i + |Lexeme(ts[0])|..] == Unlex(ts[1..])
    ensures !ts[0].Num? ==> !IsDigit(s[i])
  {
    SplitSuffix(s, i, Lexeme(ts[0]), Unlex(ts[1..]));
    if !ts[0].Num? {
      SymbolOfLexeme(ts[0]);
      assert s[i] == s[i..i + 1][0];
    }
  }

  lemma {:induction false} LexFromUnlex(s: string, i: nat, ts: seq<Token>)
    requires i <= |s| && s[i..] == Unlex(ts)
    requires NoAdjacentNums(ts)
    ensures LexFrom(s, i) == Ok(ts)
    decreases ts
  {
    if ts == [] {
      assert |s[i..]| == 0;
    } else {
      UnlexHead(s, i, ts);
      var j := i + |Lexeme(ts[0])|;
      NumBoundary(s, i, ts);
      LexFromUnlex(s, j, ts[1..]);
      LexTokenAt(s, i, ts[0]);
      PrependHead(LexFrom(s, i), LexFrom(s, j), ts);
    }
  }

  /** A number token in such a text ends where its digits end. */
  lemma NumBoundary(s: string, i: nat, ts: seq<Token>)
    requires i <= |s| && s[i..] == Unlex(ts) && ts != [] && NoAdjacentNums(ts)
    ensures i + |Lexeme(ts[0])| <= |s|
    ensures ts[0].Num? && i + |Lexeme(ts[0])| < |s| ==> !IsDigit(s[i + |Lexeme(ts[0])|])
    ensures NoAdjacentNums(ts[1..])
  {
    UnlexHead(s, i, ts);
    var j := i + |Lexeme(ts[0])|;
    if j < |s| {
      assert ts[1..] != [];
      UnlexHead(s, j, ts[1..]);
    }
  }

  /** Lexing the text of a token sequence gives it back, unless two numbers
      stand side by side (their digits would merge into one number). */
  lemma LexUnlex(ts: seq<Token>)
    requires NoAdjacentNums(ts)
    ensures Lex(Unlex(ts)) == Ok(ts)
  {
    LexFromUnlex(Unlex(ts), 0, ts);
  }

  /** The tokens' texts, each preceded by a space. */
  function Spaced(ts: seq<Token>): string {
    if ts == [] then "" else " " + Lexeme(ts[0]) + Spaced(ts[1..])
  }

  lemma SpacedFirst(ts: seq<Token>)
    requires ts != []
    ensures Spaced(ts) == " " + Lexeme(ts[0]) + Spaced(ts[1..])
  {
  }

  /** The pieces of a suffix that spells a space, a token and more text. */
  lemma SpaceThen(s: string, i: nat, a: string, b: string)
    requires i <= |s| && s[i..] == " " + a + b
    ensures i + 1 + |a| <= |s| && s[i] == ' '
    ensures s[i + 1..i + 1 + |a|] == a && s[i + 1 + |a|..] == b
  {
    SplitSuffix(s, i, " " + a, b);
    assert s[i] == (" " + a)[0];
    assert s[i + 1..i + 1 + |a|] == (" " + a)[1..];
  }

  lemma SpacedStartsWithSpace(s: string, j: nat, ts: seq<Token>)
    requires j <= |s| && s[j..] == Spaced(ts)
    ensures j < |s| ==> !IsDigit(s[j])
  {
    if j < |s| {
      assert s[j] == s[j..][0];
    }
  }

  /** The pieces of a suffix that spells a space, a token and more spaced
      tokens; `j` is where the rest begins. */
  lemma SpacedHead(s: string, i: nat, ts: seq<Token>) returns (j: nat)
    requires i <= |s| && s[i..] == Spaced(ts) && ts != []
    ensures i < |s| && s[i] == ' ' && j == i + 1 + |Lexeme(ts[0])| <= |s|
    ensures s[i + 1..j] == Lexeme(ts[0]) && s[j..] == Spaced(ts[1..])
    ensures j < |s| ==> !IsDigit(s[j])
  {
    SpacedFirst(ts);
    SpaceThen(s, i, Lexeme(ts[0]), Spaced(ts[1..]));
    j := i + 1 + |Lexeme(ts[0])|;
    SpacedStartsWithSpace(s, j, ts[1..]);
  }

  /** Lexing a space and then a token. */
  lemma SpaceTokenAt(s: string, i: nat, t: Token, j: nat)
    requires i < |s| && s[i] == ' ' && j == i + 1 + |Lexeme(t)| <= |s|
    requires s[i + 1..j] == Lexeme(t) && (j < |s| ==> !IsDigit(s[j]))
    ensures LexFrom(s, i) == Prepend([t], LexFrom(s, j))
  {
    LexSpaceAt(s, i);
    LexTokenAt(s, i + 1, t);
  }

  lemma {:induction false} LexFromSpaced(s: string, i: nat, ts: seq<Token>)
    requires i <= |s| && s[i..] == Spaced(ts)
    ensures LexFrom(s, i) == Ok(ts)
    decreases ts
  {
    if ts == [] {
      assert |s[i..]| == 0;
    } else {
      var j := SpacedHead(s, i, ts);
      SpaceTokenAt(s, i, ts[0], j);
      LexFromSpaced(s, j, ts[1..]);
      PrependHead(LexFrom(s, i), LexFrom(s, j), ts);
    }
  }

  /** Spaces between tokens never matter: the spaced-out text of any token
      sequence lexes back to it. */
  lemma LexSpaced(ts: seq<Token>)
    ensures Lex(Spaced(ts)) == Ok(ts)
  {
    LexFromSpaced(Spaced(ts), 0, ts);
  }

  // ---------------------------------------------------------------------
  // Shunting-yard: composition
  // ---------------------------------------------------------------------

  function Then(r: Result<Conv>, ts: seq<Token>): Result<Conv> {
    match r
    case Err(e) => Err(e)
    case Ok(d) => Steps(d, ts)
  }

  lemma {:induction false} StepsAppend(c: Conv, a: seq<Token>, b: seq<Token>)
    ensures Steps(c, a + b) == Then(Steps(c, a), b)
    decreases a
  {
    if a == [] {
      assert a + b == b;
    } else {
      assert (a + b)[0] == a[0] && (a + b)[1..] == a[1..] + b;
      match Step(c, a[0])
      case Err(_) =>
      case Ok(d) => StepsAppend(d, a[1..], b);
    }
  }

  // ---------------------------------------------------------------------
  // Shunting-yard: what the output holds
  // ---------------------------------------------------------------------

  /** The number tokens of a sequence, in order. */
  function Numbers(ts: seq<Token>): seq<Token> {
    if ts == [] then [] else Numbers(Init(ts)) + (if Last(ts).Num? then [Last(ts)] else [])
  }

  /** The operators of a sequence, in order. */
  function Operators(ts: seq<Token>): seq<Operator> {
    if ts == [] then [] else Operators(Init(ts)) + (if Last(ts).Op? then [Last(ts).op] else [])
  }

  predicate NoParens(ts: seq<Token>) {
    forall k :: 0 <= k < |ts| ==> ts[k] != LParen && ts[k] != RParen
  }

  /** The operator stack holds only operators and left parentheses. */
  predicate StackShape(stack: seq<Token>) {
    forall k :: 0 <= k < |stack| ==> stack[k].Op? || stack[k] == LParen
  }

  function OpBag(c: Conv): multiset<Operator> {
    multiset(Operators(c.output)) + multiset(Operators(c.stack))
  }

  lemma {:induction false} NumbersAppend(a: seq<Token>, b: seq<Token>)
    ensures Numbers(a + b) == Numbers(a) + Numbers(b)
    decreases |b|
  {
    if b == [] {
      assert a + b == a;
    } else {
      assert Init(a + b) == a + Init(b) && Last(a + b) == Last(b);
      NumbersAppend(a, Init(b));
    }
  }

  lemma {:induction false} OperatorsAppend(a: seq<Token>, b: seq<Token>)
    ensures Operators(a + b) == Operators(a) + Operators(b)
    decreases |b|
  {
    if b == [] {
      assert a + b == a;
    } else {
      assert Init(a + b) == a + Init(b) && Last(a + b) == Last(b);
      OperatorsAppend(a, Init(b));
    }
  }

  /** Moving the operator on top of the stack to the output. */
  function MoveTop(c: Conv): Conv
    requires |c.stack| > 0
  {
    Conv(c.output + [Last(c.stack)], Init(c.stack))
  }

  /** What the converter keeps invariant while it moves tokens around. */
  predicate Keeps(c: Conv, d: Conv) {
    Numbers(d.output) == Numbers(c.output) && OpBag(d) == OpBag(c) &&
    (NoParens(c.output) ==> NoParens(d.output)) &&
    (StackShape(c.stack) ==> StackShape(d.stack))
  }

  lemma MoveTopKeeps(c: Conv)
    requires |c.stack| > 0 && Last(c.stack).Op?
    ensures Keeps(c, MoveTop(c))
  {
    var d := MoveTop(c);
    assert c.stack == Init(c.stack) + [Last(c.stack)];
    OperatorsAppend(Init(c.stack), [Last(c.stack)]);
    OperatorsAppend(c.output, [Last(c.stack)]);
    NumbersAppend(c.output, [Last(c.stack)]);
    assert Numbers([Last(c.stack)]) == [];
    assert OpBag(d) == OpBag(c);
  }

  lemma KeepsTrans(a: Conv, b: Conv, c: Conv)
    requires Keeps(a, b) && Keeps(b, c)
    ensures Keeps(a, c)
  {
  }

  lemma {:induction false} PopWhileKeeps(c: Conv, op: Operator)
    ensures Keeps(c, PopWhile(c, op))
    decreases |c.stack|
  {
    if |c.stack| > 0 && Pops(Last(c.stack), op) {
      MoveTopKeeps(c);
      PopWhileKeeps(MoveTop(c), op);
      KeepsTrans(c, MoveTop(c), PopWhile(c, op));
    }
  }

  lemma {:induction false} PopToParenKeeps(c: Conv)
    requires StackShape(c.stack)
    ensures PopToParen(c).Ok? ==> Keeps(c, PopToParen(c).value)
    decreases |c.stack|
  {
    if |c.stack| > 0 {
      if Last(c.stack) == LParen {
        assert c.stack == Init(c.stack) + [LParen];
        OperatorsAppend(Init(c.stack), [LParen]);
      } else {
        MoveTopKeeps(c);
        PopToParenKeeps(MoveTop(c));
        if PopToParen(c).Ok? {
          KeepsTrans(c, MoveTop(c), PopToParen(c).value);
        }
      }
    }
  }

  lemma OneToken(t: Token)
    ensures Numbers([t]) == if t.Num? then [t] else []
    ensures Operators([t]) == if t.Op? then [t.op] else []
  {
    assert Init([t]) == [];
  }

  lemma PushShape(stack: seq<Token>, t: Token)
    requires t.Op? || t == LParen
    requires StackShape(stack)
    ensures StackShape(stack + [t])
  {
    var s := stack + [t];
    forall k | 0 <= k < |s|
      ensures s[k].Op? || s[k] == LParen
    {
      if k < |stack| {
        assert s[k] == stack[k];
      }
    }
  }

  lemma PushKeeps(c: Conv, t: Token)
    requires t.Op? || t == LParen
    ensures OpBag(Conv(c.output, c.stack + [t])) == OpBag(c) + multiset(Operators([t]))
    ensures StackShape(c.stack) ==> StackShape(c.stack + [t])
  {
    OperatorsAppend(c.stack, [t]);
    if StackShape(c.stack) {
      PushShape(c.stack, t);
    }
  }

  /** Reading `ts` took the converter from `c` to `d`: it kept the numbers
      in order and every operator, wrote no parenthesis, and its stack
      holds only operators and `(`. */
  predicate Advances(c: Conv, d: Conv, ts: seq<Token>) {
    Numbers(d.output) == Numbers(c.output) + Numbers(ts) &&
    OpBag(d) == OpBag(c) + multiset(Operators(ts)) &&
    (NoParens(c.output) ==> NoParens(d.output)) && StackShape(d.stack)
  }

  lemma AdvancesNone(c: Conv)
    requires StackShape(c.stack)
    ensures Advances(c, c, [])
  {
    assert Numbers(c.output) + [] == Numbers(c.output);
  }

  lemma AdvancesCons(c: Conv, d: Conv, e: Conv, ts: seq<Token>)
    requires ts != [] && Advances(c, d, [ts[0]]) && Advances(d, e, ts[1..])
    ensures Advances(c, e, ts)
  {
    NumbersCons(ts);
    OperatorsCons(ts);
    SeqAssoc(Numbers(c.output), Numbers([ts[0]]), Numbers(ts[1..]));
    MultisetConcat(Operators([ts[0]]), Operators(ts[1..]));
  }

  lemma SeqAssoc<T>(a: seq<T>, b: seq<T>, c: seq<T>)
    ensures a + b + c == a + (b + c)
  {
  }

  lemma MultisetConcat<T>(a: seq<T>, b: seq<T>)
    ensures multiset(a + b) == multiset(a) + multiset(b)
  {
  }

  lemma NumbersCons(ts: seq<Token>)
    requires ts != []
    ensures Numbers(ts) == Numbers([ts[0]]) + Numbers(ts[1..])
  {
    assert ts == [ts[0]] + ts[1..];
    NumbersAppend([ts[0]], ts[1..]);
  }

  lemma OperatorsCons(ts: seq<Token>)
    requires ts != []
    ensures Operators(ts) == Operators([ts[0]]) + Operators(ts[1..])
  {
    assert ts == [ts[0]] + ts[1..];
    OperatorsAppend([ts[0]], ts[1..]);
  }

  lemma NumStepKeeps(c: Conv, t: Token)
    requires StackShape(c.stack) && t.Num?
    ensures Advances(c, Step(c, t).value, [t])
  {
    OneToken(t);
    NumbersAppend(c.output, [t]);
    OperatorsAppend(c.output, [t]);
  }

  lemma OpStepKeeps(c: Conv, t: Token)
    requires StackShape(c.stack) && t.Op?
    ensures Advances(c, Step(c, t).value, [t])
  {
    OneToken(t);
    PopWhileKeeps(c, t.op);
    PushKeeps(PopWhile(c, t.op), t);
  }

  lemma ParenStepKeeps(c: Conv, t: Token)
    requires StackShape(c.stack) && (t == LParen || t == RParen) && Step(c, t).Ok?
    ensures Advances(c, Step(c, t).value, [t])
  {
    OneToken(t);
    if t == LParen {
      PushKeeps(c, t);
    } else {
      PopToParenKeeps(c);
    }
  }

  lemma StepKeeps(c: Conv, t: Token)
    requires StackShape(c.stack) && Step(c, t).Ok?
    ensures Advances(c, Step(c, t).value, [t])
  {
    if t.Num? {
      NumStepKeeps(c, t);
    } else if t.Op? {
      OpStepKeeps(c, t);
    } else {
      ParenStepKeeps(c, t);
    }
  }

  lemma {:induction false} StepsKeeps(c: Conv, ts: seq<Token>)
    requires StackShape(c.stack)
    ensures Steps(c, ts).Ok? ==> Advances(c, Steps(c, ts).value, ts)
    decreases ts
  {
    if ts == [] {
      AdvancesNone(c);
    } else if Step(c, ts[0]).Ok? {
      var d := Step(c, ts[0]).value;
      StepKeeps(c, ts[0]);
      StepsKeeps(d, ts[1..]);
      if Steps(c, ts).Ok? {
        AdvancesCons(c, d, Steps(c, ts).value, ts);
      }
    }
  }

  lemma {:induction false} FlushKeeps(c: Conv)
    requires StackShape(c.stack)
    ensures Flush(c).Ok? ==>
      Numbers(Flush(c).value) == Numbers(c.output) &&
      multiset(Operators(Flush(c).value)) == OpBag(c) &&
      (NoParens(c.output) ==> NoParens(Flush(c).value))
    decreases |c.stack|
  {
    if |c.stack| > 0 && Last(c.stack).Op? {
      MoveTopKeeps(c);
      FlushKeeps(MoveTop(c));
    }
  }

  /** The postfix output holds the input's numbers in their original order,
      every operator as many times as the input does, and no parenthesis. */
  lemma ToPostfixKeeps(ts: seq<Token>)
    ensures ToPostfix(ts).Ok? ==>
      var p := ToPostfix(ts).value;
      Numbers(p) == Numbers(ts) &&
      multiset(Operators(p)) == multiset(Operators(ts)) &&
      NoParens(p)
  {
    var c := Conv([], []);
    StepsKeeps(c, ts);
    if Steps(c, ts).Ok? {
      FlushKeeps(Steps(c, ts).value);
    }
  }

  // ---------------------------------------------------------------------
  // Shunting-yard: when it fails
  // ---------------------------------------------------------------------

  /** Reference parenthesis check: the depth after `ts` started at depth `d`,
      or an error at a `)` that closes nothing. */
  function ParenDepth(d: nat, ts: seq<Token>): Result<nat>
    decreases ts
  {
    if ts == [] then Ok(d)
    else if ts[0] == LParen then ParenDepth(d + 1, ts[1..])
    else if ts[0] == RParen then (if d == 0 then Err(MissingOperator) else ParenDepth(d - 1, ts[1..]))
    else ParenDepth(d, ts[1..])
  }

  predicate Balanced(ts: seq<Token>) {
    ParenDepth(0, ts) == Ok(0)
  }

  /** Number of `(` on a stack. */
  function Opens(stack: seq<Token>): nat {
    if stack == [] then 0 else Opens(Init(stack)) + (if Last(stack) == LParen then 1 else 0)
  }

  lemma {:induction false} PopWhileOpens(c: Conv, op: Operator)
    ensures Opens(PopWhile(c, op).stack) == Opens(c.stack)
    ensures StackShape(c.stack) ==> StackShape(PopWhile(c, op).stack)
    decreases |c.stack|
  {
    if |c.stack| > 0 && Pops(Last(c.stack), op) {
      PopWhileOpens(Conv(c.output + [Last(c.stack)], Init(c.stack)), op);
    }
  }

  lemma {:induction false} OpensSnoc(stack: seq<Token>, t: Token)
    ensures Opens(stack + [t]) == Opens(stack) + (if t == LParen then 1 else 0)
  {
    assert Init(stack + [t]) == stack;
  }

  lemma {:induction false} PopToParenOpens(c: Conv)
    requires StackShape(c.stack)
    ensures PopToParen(c).Ok? <==> Opens(c.stack) > 0
    ensures PopToParen(c).Ok? ==>
      (Opens(PopToParen(c).value.stack) == Opens(c.stack) - 1 && StackShape(PopToParen(c).value.stack))
    ensures PopToParen(c).Err? ==> PopToParen(c).error == MissingOperator
    decreases |c.stack|
  {
    if |c.stack| > 0 && Last(c.stack) != LParen {
      PopToParenOpens(Conv(c.output + [Last(c.stack)], Init(c.stack)));
    }
  }

  /** One step of the converter moves the count of `(` on its stack as the
      reference check moves the depth. */
  lemma StepOpens(c: Conv, t: Token)
    requires StackShape(c.stack)
    ensures Step(c, t).Ok? <==> ParenDepth(Opens(c.stack), [t]).Ok?
    ensures Step(c, t).Ok? ==>
      Opens(Step(c, t).value.stack) == ParenDepth(Opens(c.stack), [t]).value &&
      StackShape(Step(c, t).value.stack)
    ensures Step(c, t).Err? ==> Step(c, t).error == MissingOperator
  {
    match t
    case Num(_) =>
    case Op(op) =>
      PopWhileOpens(c, op);
      OpensSnoc(PopWhile(c, op).stack, t);
    case LParen =>
      OpensSnoc(c.stack, t);
    case RParen =>
      PopToParenOpens(c);
  }

  lemma DepthCons(d: nat, ts: seq<Token>)
    requires ts != []
    ensures ParenDepth(d, [ts[0]]).Ok? ==> ParenDepth(d, ts) == ParenDepth(ParenDepth(d, [ts[0]]).value, ts[1..])
    ensures ParenDepth(d, [ts[0]]).Err? ==> ParenDepth(d, ts) == ParenDepth(d, [ts[0]])
  {
  }

  lemma {:induction false} StepsOpens(c: Conv, ts: seq<Token>)
    requires StackShape(c.stack)
    ensures Steps(c, ts).Ok? <==> ParenDepth(Opens(c.stack), ts).Ok?
    ensures Steps(c, ts).Ok? ==>
      Opens(Steps(c, ts).value.stack) == ParenDepth(Opens(c.stack), ts).value &&
      StackShape(Steps(c, ts).value.stack)
    ensures Steps(c, ts).Err? ==> Steps(c, ts).error == MissingOperator
    decreases ts
  {
    if ts != [] {
      StepOpens(c, ts[0]);
      DepthCons(Opens(c.stack), ts);
      if Step(c, ts[0]).Ok? {
        StepsOpens(Step(c, ts[0]).value, ts[1..]);
      }
    }
  }

  lemma {:induction false} FlushOpens(c: Conv)
    requires StackShape(c.stack)
    ensures Flush(c).Ok? <==> Opens(c.stack) == 0
    ensures Flush(c).Err? ==> Flush(c).error == MissingOperator
    decreases |c.stack|
  {
    if |c.stack| > 0 && Last(c.stack).Op? {
      FlushOpens(Conv(c.output + [Last(c.stack)], Init(c.stack)));
    }
  }

  /** The converter fails exactly on unbalanced parentheses (a `)` that
      closes nothing, or a `(` that is never closed), and then with
      MissingOperator; balanced input never fails. */
  lemma ToPostfixFails(ts: seq<Token>)
    ensures ToPostfix(ts).Err? <==> !Balanced(ts)
    ensures ToPostfix(ts).Err? ==> ToPostfix(ts).error == MissingOperator
  {
    var c := Conv([], []);
    StepsOpens(c, ts);
    if Steps(c, ts).Ok? {
      FlushOpens(Steps(c, ts).value);
    }
  }

  // ---------------------------------------------------------------------
  // Postfix evaluation: operand order and malformed input
  // ---------------------------------------------------------------------

  /** The operator fails only as a division whose top operand (the divisor)
      is zero; `-` and `/` take the lower operand first. */
  lemma ApplyOperatorFacts(op: Operator, d1: real, d2: real, pow: PowFn)
    ensures ApplyOperator(op, d1, d2, pow).Err? <==> (op == Divide && d1 == 0.0)
    ensures ApplyOperator(op, d1, d2, pow).Err? ==> ApplyOperator(op, d1, d2, pow).error == DivByZero
    ensures op == Minus ==> ApplyOperator(op, d1, d2, pow) == Ok(d2 - d1)
    ensures op == Divide && d1 != 0.0 ==> ApplyOperator(op, d1, d2, pow).value * d1 == d2
  {
  }

  /** Reference definition of the evaluator's stack discipline, values
      ignored: the stack depth after `ts` started at depth `d`. */
  function Depth(d: nat, ts: seq<Token>): Result<nat>
    decreases |ts|
  {
    if ts == [] then Ok(d)
    else
      match ts[0]
      case Num(_) => Depth(d + 1, ts[1..])
      case Op(_) => if d < 2 then Err(MissingOperand) else Depth(d - 1, ts[1..])
      case _ => Err(OpNotFound)
  }

  predicate NoDivision(ts: seq<Token>) {
    forall k :: 0 <= k < |ts| ==> ts[k] != Op(Divide)
  }

  /** Running postfix tokens follows their stack discipline: it ends with a
      stack as deep as Depth says, or fails with Depth's error, or hits a
      division by zero first; without division it fails exactly when Depth does. */
  lemma {:induction false} ExecDepth(stack: seq<real>, ts: seq<Token>, pow: PowFn)
    ensures Exec(stack, ts, pow).Ok? ==> Depth(|stack|, ts) == Ok(|Exec(stack, ts, pow).value|)
    ensures Exec(stack, ts, pow).Err? ==>
      Exec(stack, ts, pow).error == DivByZero || Depth(|stack|, ts) == Err(Exec(stack, ts, pow).error)
    ensures Depth(|stack|, ts).Err? ==> Exec(stack, ts, pow).Err?
    ensures NoDivision(ts) ==> (Exec(stack, ts, pow).Err? <==> Depth(|stack|, ts).Err?)
    decreases |ts|
  {
    if ts != [] {
      assert NoDivision(ts) ==> NoDivision(ts[1..]);
      match ts[0]
      case Num(d) =>
        ExecDepth(stack + [DecimalValue(d) as real], ts[1..], pow);
      case Op(op) =>
        if |stack| >= 2 {
          var v := ApplyOperator(op, stack[|stack| - 1], stack[|stack| - 2], pow);
          ApplyOperatorFacts(op, stack[|stack| - 1], stack[|stack| - 2], pow);
          if v.Ok? {
            ExecDepth(stack[..|stack| - 2] + [v.value], ts[1..], pow);
          }
        }
      case _ =>
    }
  }

  /** How the evaluator classifies a postfix sequence: it succeeds only when
      exactly one value is left; none left is MissingOperand, several are
      MissingOperator, and a broken stack discipline reports its own error
      (a division by zero can come first).  Without division, exactly one
      value left means success. */
  lemma RunPostfixShape(ts: seq<Token>, pow: PowFn)
    ensures RunPostfix(ts, pow).Ok? ==> Depth(0, ts) == Ok(1)
    ensures Depth(0, ts) == Ok(0) ==>
      RunPostfix(ts, pow) == Err(MissingOperand) || RunPostfix(ts, pow) == Err(DivByZero)
    ensures Depth(0, ts).Ok? && Depth(0, ts).value > 1 ==>
      RunPostfix(ts, pow) == Err(MissingOperator) || RunPostfix(ts, pow) == Err(DivByZero)
    ensures Depth(0, ts).Err? ==>
      RunPostfix(ts, pow) == Err(Depth(0, ts).error) || RunPostfix(ts, pow) == Err(DivByZero)
    ensures NoDivision(ts) && Depth(0, ts) == Ok(1) ==> RunPostfix(ts, pow).Ok?
  {
    ExecDepth([], ts, pow);
  }
}
