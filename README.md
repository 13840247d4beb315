# Three small Java programs, modelled in Dafny

This project models and verifies three programs from one course repository.

- **Calculator** (`Calculator.java`) evaluates an infix arithmetic expression. The expression has non-negative integer literals, the binary operators `+ - * / ^` and parentheses. Evaluation is a three-stage pipeline:
  - `tokenize` is a lexer with a digit buffer;
  - `infix2Postfix` is a shunting-yard converter with an operator stack;
  - `evalPostfix` is a Reverse-Polish evaluator with an operand stack;
  - `eval` composes them and returns NaN for the empty expression.

  There are four error kinds: missing operand, missing operator or parenthesis, operator not found, and division by zero.
- **Neighbours** (`Neighbours.java`) is a Schelling segregation simulation on a square world of red, blue and empty cells.
  - An actor is satisfied when at least a fraction `threshold` of its occupied neighbours have its colour.
  - One update collects the unsatisfied actors row by row. It then moves each of them to a randomly chosen empty cell.
- **Pig** (`Pig.java`) is the dice game Pig. In a turn a player rolls ("r"), banks the round and passes ("n") or quits ("q"):
  - a roll of one loses the round points;
  - the first player whose total reaches the target wins.

Files and modules:

- `calculator.dfy` (module `Calculator`) has the data model and one reference function per stage: `Lex`, `ToPostfix` and `RunPostfix`, composed by `Calc`. It also has the Java loops as methods (`Tokenize`, `Infix2Postfix`, `EvalPostfix`, `Eval`), each proved equal to its reference function.
- `calculator_properties.dfy` proves what each stage does:
  - the lexer's error condition and its round trip through the token texts;
  - what the converter keeps;
  - that the converter fails exactly on unbalanced parentheses;
  - the evaluator's stack discipline.
- `calculator_expressions.dfy` defines expression trees with their value, their postfix form and their conventional printed form. It proves that `eval` on the printed form of any tree gives the tree's value. The printed form has the fewest parentheses the tree needs; text with redundant parentheses, such as `(1+2)+3` or `((2))`, is covered only by the concrete examples.
- `calculator_examples.dfy` holds the concrete expressions the calculator is expected to handle.
- `neighbours.dfy` has the world as a Dafny `array2` and the Java methods as methods. Each method is proved against functions on a snapshot of the world, which is a sequence of rows.
- `neighbours_properties.dfy` proves what the neighbour counts mean, and what a scan collects, in which order. It also proves that the moves of an update keep every actor, go to distinct empty cells and leave every other cell alone.
- `pig.dfy` has `Player` as a class whose fields the game updates in place, the successor and winner searches as loops over the player array, and the loop body of the game. It also has the whole game loop driven by a script of commands and die rolls.
- `neighbours_examples.dfy` and `pig_examples.dfy` restate the checks of the `test()` methods of Neighbours.java and Pig.java as lemmas and methods. Calculator.java has no `test()` method.

Where the programs use `double`:

- Calculator values are Dafny `real`s, and NaN is a separate answer `NaN`.
- Exponentiation (`Math.pow`) is a function parameter `pow`. The examples that use it assume only that it agrees with repeated multiplication on whole exponents.
- The Neighbours threshold is an exact `real`. There are at most eight neighbours, so the fraction compared with the threshold is `k/n` with `n <= 8`. For the thresholds the program uses (0.5, 0.7 and 0.8), the exact comparison and the `double` comparison agree.

Randomness becomes an input:

- `draw: nat -> nat` chooses the removed empty location (`draw(i) % |remaining|` at the `i`-th move).
- The starting player is an argument.
- The die rolls are a sequence of values in 1..6.

Input such as `1 1 +` is not infix, but the code accepts it and evaluates it to 2, because the converter only moves tokens and never checks that operands and operators alternate (`CalculatorExamples.OperatorLast`).

## Model

| member | source | states |
|---|---|---|
| Calculator.SymbolToken | Calculator.java:177-182 | an operator or parenthesis character becomes the token whose text is that character |
| Calculator.DigitRun | Calculator.java:188-189 | the digit buffer grows over a maximal run of digits: every character of the run is a digit, and the next one is not |
| Calculator.Tokenize | Calculator.java:167-199 | the lexer loop with its digit buffer: the empty text fails with MissingOperand, and every other text gives exactly the reference lexer's result `Lex` |
| Calculator.Infix2Postfix | Calculator.java:91-136 | the shunting-yard loops over the output list and operator stack compute exactly the reference converter `ToPostfix`, including its MissingOperator failures |
| Calculator.EvalPostfix | Calculator.java:42-68 | the operand-stack loop computes exactly the reference evaluator `RunPostfix`, including its errors |
| Calculator.Eval | Calculator.java:31-38 | NaN for the empty text; otherwise lexing, conversion and evaluation in turn, the first error aborting (`Calc`) |
| CalculatorProperties.LexFromFails | Calculator.java:174-192 | lexing a suffix fails exactly when the suffix holds a character that is not a digit, a space, an operator or a parenthesis, and then with OpNotFound |
| CalculatorProperties.LexFails | Calculator.java:174-192 | the lexer fails, always with OpNotFound, exactly when the input holds a character other than an ASCII digit, a space, `+-*/^`, `(` or `)` |
| CalculatorProperties.LexText | Calculator.java:171-198 | on success the concatenated token texts are the input with its spaces deleted |
| CalculatorProperties.LexUnlex | Calculator.java:171-198 | the other direction of the round trip: lexing the concatenated texts of any tokens gives those tokens back, provided no two numbers are adjacent (they would merge into one) |
| CalculatorProperties.LexSpaced | Calculator.java:183-187 | spaces only separate: any token sequence, written with a space before each token, lexes back to itself |
| CalculatorProperties.PopWhileKeeps | Calculator.java:101-107 | popping operators before a push keeps the numbers of the output in order, and the multiset of operators on output and stack |
| CalculatorProperties.PopToParenKeeps | Calculator.java:115-121 | the `)` rule keeps the same, and puts no parenthesis into the output |
| CalculatorProperties.StepsKeeps | Calculator.java:95-125 | reading tokens appends exactly their numbers, in order, to the output; their operators are added to the output and stack; no parenthesis reaches the output |
| CalculatorProperties.FlushKeeps | Calculator.java:127-133 | the final loop moves the stacked operators to the output without losing or adding any |
| CalculatorProperties.ToPostfixKeeps | Calculator.java:95-135 | the postfix output has the input's numbers in their original order, each operator as often as the input, and no parenthesis |
| CalculatorProperties.PopToParenOpens | Calculator.java:113-121 | the `)` rule succeeds exactly when a `(` is on the stack, and removes one of them; otherwise it fails with MissingOperator |
| CalculatorProperties.StepOpens | Calculator.java:95-125 | one token succeeds exactly when the parenthesis depth stays non-negative, and changes the count of `(` on the stack by that depth change |
| CalculatorProperties.StepsOpens | Calculator.java:95-125 | a token sequence is read without error exactly when no `)` closes nothing; the stack then holds as many `(` as are still open |
| CalculatorProperties.FlushOpens | Calculator.java:127-133 | the final loop fails, with MissingOperator, exactly when a `(` is left on the stack |
| CalculatorProperties.ToPostfixFails | Calculator.java:113-131 | the converter fails exactly when the parentheses are unbalanced, and then with MissingOperator; balanced input never fails |
| CalculatorProperties.ApplyOperatorFacts | Calculator.java:70-86 | only division fails, with DivByZero, exactly when the top operand `d1` is 0; `-` gives `d2 - d1`, and `/` gives the `q` with `q * d1 == d2` |
| CalculatorProperties.ExecDepth | Calculator.java:45-58 | evaluating postfix tokens follows the reference stack discipline `Depth`: same final depth, the same MissingOperand or OpNotFound error, or a division by zero first; without division it fails exactly when `Depth` does |
| CalculatorProperties.RunPostfixShape | Calculator.java:45-67 | success needs exactly one value left; none left gives MissingOperand, more than one gives MissingOperator, a broken discipline gives its own error; without division, one value left always succeeds |
| CalculatorExpressions.ApplyIsInfix | Calculator.java:52-54 | the top of the stack is the right operand: applying the operator to the popped `d1`, `d2` computes `d2 op d1` |
| CalculatorExpressions.ExecPostfix | Calculator.java:45-58 | running the postfix form of a tree on any stack, before any other tokens, pushes the tree's value or stops with its error |
| CalculatorExpressions.RunPostfixSem | Calculator.java:42-68 | the evaluator computes the value of the tree whose postfix form it runs |
| CalculatorExpressions.SemError | Calculator.java:78-81 | the only way a tree's value can fail is a division by zero |
| CalculatorExpressions.SameLevelSameAssoc | Calculator.java:138-158 | operators of the same precedence level have the same associativity |
| CalculatorExpressions.PopAll | Calculator.java:101-107 | the pop rule for an operator moves exactly the run of operators on top of the stack that bind tighter, or as tight when it is left-associative |
| CalculatorExpressions.PopToParenAll | Calculator.java:113-121 | the `)` rule moves the operators above the nearest `(` to the output in stack order and drops the `(` |
| CalculatorExpressions.FlushAll | Calculator.java:127-133 | the final loop appends a stack of operators to the output in stack order |
| CalculatorExpressions.ShowSteps | Calculator.java:95-125 | reading the printed tokens of a tree, on a stack the tree's operators cannot pop, writes a fixed output and pushes a fixed pending stack; with `PendingOutput` the two make up the postfix form |
| CalculatorExpressions.ToPostfixShow | Calculator.java:91-136 | precedence and associativity work: converting the conventional infix tokens of any tree (minimal parentheses) gives the tree's postfix form |
| CalculatorExpressions.ShowNoAdjacentNums | Calculator.java:174-192 | printed trees never put two numbers side by side, so their text lexes back to the same tokens |
| CalculatorExpressions.CalcShow | Calculator.java:31-38 | eval of the printed text of any tree is the tree's value, and the only possible failure is DivByZero |
| CalculatorExpressions.CalcSpacedShow | Calculator.java:31-38 | the same holds for the printed text with a space before every token |
| CalculatorExamples.EmptyIsNaN | Calculator.java:31-34 | eval of the empty text is NaN, not an error |
| CalculatorExamples.BlankIsMissingOperand | Calculator.java:60-62 | a text of spaces gives no tokens, and then MissingOperand from the empty final stack |
| CalculatorExamples.UnknownSymbol | Calculator.java:190-192 | `2#3` fails with OpNotFound |
| CalculatorExamples.TreeValues | Calculator.java:70-84 | the values of the example trees, with `2^(3^2)` equal to 512 under whole-number exponentiation |
| CalculatorExamples.Precedence1 | Calculator.java:138-148 | eval("2+3*4") is 14 |
| CalculatorExamples.Precedence2 | Calculator.java:110-121 | eval("(2+3)*4") is 20 |
| CalculatorExamples.LeftAssociative | Calculator.java:101-105 | eval("10-4-3") is 3: `-` groups to the left |
| CalculatorExamples.RightAssociative | Calculator.java:150-158 | eval("2^3^2") is 512 (not 64): `^` groups to the right |
| CalculatorExamples.DivisionByZero | Calculator.java:78-81 | eval("5/0") fails with DivByZero |
| CalculatorExamples.SpacesIgnored | Calculator.java:183-187 | eval(" 1 + 2") equals eval("1+2"), which is 3 |
| CalculatorExamples.TrailingSpace | Calculator.java:183-187 | eval(" 1 + 2 ") is 3 |
| CalculatorExamples.UnclosedParen | Calculator.java:127-131 | eval("(1+2") fails with MissingOperator from the `(` left on the stack |
| CalculatorExamples.UnopenedParen | Calculator.java:113-120 | eval("1+2)") fails with MissingOperator from the `)` that closes nothing |
| CalculatorExamples.PostfixExamples | Calculator.java:45-67 | evalPostfix of [1,1,+] is 2; [1,+] fails with MissingOperand; [1,1] fails with MissingOperator |
| CalculatorExamples.DanglingOperator | Calculator.java:49-51 | eval("2+") fails with MissingOperand: the operator finds one operand |
| CalculatorExamples.OperatorLast | Calculator.java:95-99 | eval("1 1 +") is 2: the converter does not check the infix grammar |
| CalculatorExamples.TwoNumbers | Calculator.java:63-65 | eval(" 2 3") fails with MissingOperator: two values are left |
| Neighbours.IsSatisfied | Neighbours.java:128-157 | the nested offset loops return exactly `Satisfied`: true on an empty cell, else true when there are no neighbours or matches/neighbours >= threshold |
| Neighbours.CountRow | Neighbours.java:137-154 | one pass of the inner loop adds the occupied in-bounds cells of one row of the block (centre skipped) to `neighbours`, and those of the centre's colour to `validNeighbours` |
| Neighbours.CollectUnsatisfied | Neighbours.java:50-62 | the collection loop of the update returns exactly the row-major scan of the occupied cells that are not satisfied |
| Neighbours.EmptyLocations | Neighbours.java:162-169 | the first loop of the move returns exactly the row-major scan of the empty cells |
| Neighbours.Step | Neighbours.java:177-179 | one relocation keeps the world square and of the same size |
| Neighbours.Relocate | Neighbours.java:177-179 | the loop body writes the actor to the new position and empties the old one, in the array, as `Step` says |
| Neighbours.Relocated | Neighbours.java:161-181 | the world after the moves is square and of the same size |
| Neighbours.MoveActors | Neighbours.java:161-181 | the array ends as `Relocated` of the old world: each listed actor in turn moves to the empty location that `draw` picks and removes, until either list runs out |
| Neighbours.UpdateWorld | Neighbours.java:46-65 | the array ends as `Update` of the old world: the unsatisfied actors at threshold 0.7, collected, then moved |
| Neighbours.Count | Neighbours.java:227-235 | the loop returns the number of elements equal to `toFind` |
| NeighboursProperties.ValidCells | Neighbours.java:91-94 | on a square world, `isValidLocation` holds exactly for the positions that index a cell of the world |
| NeighboursProperties.CountBounds | Neighbours.java:134-155 | 0 <= matches <= neighbours <= 8 |
| NeighboursProperties.Isolated | Neighbours.java:144-149 | no neighbours exactly when every cell of the block around is empty or outside the world |
| NeighboursProperties.Unanimous | Neighbours.java:147-152 | matches equal neighbours exactly when every occupied cell around has the centre's colour |
| NeighboursProperties.ContentIff | Neighbours.java:156 | the fraction test without division: no neighbours, or matches >= threshold * neighbours |
| NeighboursProperties.SatisfiedMonotone | Neighbours.java:156 | an actor satisfied at a threshold is satisfied at every lower one |
| NeighboursProperties.ContentExtremes | Neighbours.java:156 | a threshold <= 0 accepts everything; above 1 only no neighbours passes; at most 1, unanimity passes |
| NeighboursProperties.ThresholdExtremes | Neighbours.java:128-157 | at a threshold <= 0 every cell is satisfied; above 1 exactly the empty cells and the isolated actors are |
| NeighboursProperties.UnanimousSatisfied | Neighbours.java:128-157 | an actor whose occupied neighbours all share its colour is satisfied at any threshold up to 1 |
| NeighboursProperties.ScanMembers | Neighbours.java:52-62 | a scan holds exactly the in-bounds cells it looks for: the empty ones, or the occupied unsatisfied ones |
| NeighboursProperties.ScanOrdered | Neighbours.java:52-62 | a scan lists its cells in strictly increasing row-major order, hence without repetition |
| NeighboursProperties.RemoveFacts | Neighbours.java:175 | removing the drawn location shortens the list by one and keeps the other locations; a distinct list stays distinct without it |
| NeighboursProperties.PlanShape | Neighbours.java:173-175 | as many moves as actors left or free locations, whichever is fewer; the `j`-th move takes the `j`-th listed actor |
| NeighboursProperties.PlanTargetsFree | Neighbours.java:175 | every move goes to one of the free locations |
| NeighboursProperties.PlanTargetsDistinct | Neighbours.java:175 | when the free locations are distinct, no two moves share a target |
| NeighboursProperties.StepBag | Neighbours.java:177-179 | a move to an empty cell keeps the multiset of cells: as many reds, blues and empty cells |
| NeighboursProperties.ApplyUntouched | Neighbours.java:173-180 | a cell no move leaves from or goes to keeps its actor |
| NeighboursProperties.UnusedStaysNone | Neighbours.java:173-180 | an empty cell that is no move's target stays empty |
| NeighboursProperties.ApplyBag | Neighbours.java:173-180 | moves to distinct initially empty cells keep the multiset of cells |
| NeighboursProperties.ApplyEffect | Neighbours.java:173-180 | after disjoint moves each moved actor stands on its target and its old cell is empty |
| NeighboursProperties.RelocatedBag | Neighbours.java:161-181 | moving any listed actors keeps as many reds, blues and empty cells |
| NeighboursProperties.UpdateBag | Neighbours.java:46-65 | one update keeps as many reds, blues and empty cells |
| NeighboursProperties.MovesShape | Neighbours.java:161-175 | an update makes min(unsatisfied, empty) moves; the `j`-th takes the `j`-th unsatisfied actor to an empty cell, and no two share a target |
| NeighboursProperties.ScanCells | Neighbours.java:52-59 | the collected unsatisfied cells are occupied, and the empty locations are empty |
| NeighboursProperties.MovesDisjoint | Neighbours.java:161-180 | in one update no actor moves twice, each leaves an occupied cell for an empty one, and no two go to the same cell |
| NeighboursProperties.UpdateEffect | Neighbours.java:46-65 | after an update each moved actor stands on its target and its old cell is empty, and every other cell is unchanged |
| NeighboursProperties.SatisfiedStays | Neighbours.java:52-62 | a satisfied actor stays where it is |
| NeighboursProperties.EveryoneMoves | Neighbours.java:173-180 | with at least as many empty cells as unsatisfied actors, every unsatisfied actor moves |
| NeighboursExamples.TestWorld | Neighbours.java:191-195 | the hand-made world is square of side three |
| NeighboursExamples.ValidLocations | Neighbours.java:199-202 | (0,0) and (2,2) are inside a world of size 3; (-1,0) and (0,3) are not |
| NeighboursExamples.CornerCounts | Neighbours.java:134-155 | the red actor at (0,0) has two neighbours, one of them red |
| NeighboursExamples.OppositeCounts | Neighbours.java:134-155 | the blue actor at (2,2) has one neighbour, blue |
| NeighboursExamples.TestSatisfied | Neighbours.java:206-209 | (0,0) and (2,2) are satisfied at 0.5; (0,0) is not at 0.7 or 0.8 |
| NeighboursExamples.TestMove | Neighbours.java:212-222 | moving (0,0), (0,1) and (1,0) keeps a world of side 3 with the same actors, whatever the random choices |
| NeighboursExamples.NewTestWorld | Neighbours.java:191-195 | the array built holds the hand-made world |
| NeighboursExamples.TestIsSatisfied | Neighbours.java:206-209 | the four `isSatisfied` calls on the array return what the test expects |
| Pig.Player.constructor | Pig.java:167-171 | a new player has no name and 0 total and round points |
| Pig.IndexOf | Pig.java:87-90 | the search index is the first position holding `current` |
| Pig.NextIndex | Pig.java:91-95 | the next position goes round: the last position is followed by 0, every other by the one after it |
| Pig.GetNextPlayer | Pig.java:86-97 | the player after the first occurrence of `current`, cyclically; `current` must be one of the players: otherwise the Java search runs past the end of the array and `players[i]` throws `ArrayIndexOutOfBoundsException` (Pig.java:88), and every call site passes a player taken from the array, so the requirement excludes no input the program produces |
| Pig.PassRound | Pig.java:86-97 | passing the turn `k` times from index `i` reaches index `(i + k) % n`: every player gets a turn in each round of `n` |
| Pig.IsWinner | Pig.java:98-105 | true exactly when some player has at least `winPts` total points |
| Pig.Parse | Pig.java:41-66 | "r" rolls the given die value, "n" banks, "q" quits, and any other text is ignored |
| Pig.Rule | Pig.java:41-66 | a win only at `winPts` or more; abort exactly on "q"; quitting and unknown commands change nothing; a pass leaves no round points |
| Pig.RollOne | Pig.java:46-49 | a roll of 1 loses the round points, keeps the total and passes the turn |
| Pig.RollMore | Pig.java:42-53 | a roll of 2..6 adds to the round; the player wins exactly when total + round reaches `winPts`, with that sum as the new total, and otherwise keeps the turn with the total unchanged |
| Pig.BankRound | Pig.java:55-62 | "n" moves the round into the total and clears the round; it wins exactly when the total reaches `winPts`, and otherwise passes |
| Pig.RuleKeepsPlaying | Pig.java:38-69 | from a score in play, a turn never lowers the total, and either stays in play, passes with an empty round, or wins |
| Pig.Turn | Pig.java:39-66 | one pass of the loop updates `current`'s points as `Rule` says, keeps its name, and hands over to the next player exactly on a pass |
| Pig.Start | Pig.java:31-35 | a new game, with no points anywhere and the first player among the players, is in play |
| Pig.Play | Pig.java:38-69 | the reference definition of the loop on values (each command played by `Rule` on the seat to move, the next seat on a pass, the end on a win or a quit); its result keeps one score per player and a seat in range, and never ends on a pass |
| Pig.PlayOutcome | Pig.java:38-69 | from a game in play, `Play` either ends with a winner who has at least `winPts` while every other player has fewer, or leaves the game in play (including after a quit) |
| Pig.Turns | Pig.java:37-67 | the loop leaves every player's points, the current player and the aborted and won flags exactly as `Play` of the starting points and seat predicts, and keeps the names |
| Pig.Game | Pig.java:31-69 | the final points, current player and flags are those `Play` predicts from the first player's seat; never both won and aborted; a winner has at least `winPts` and every other player fewer; without a win (after a quit or when the commands run out) the game is still in play; "won" agrees with `isWinner`; names are unchanged |
| Pig.Winner | Pig.java:98-105 | a player at the winning points makes `isWinner` true |
| Pig.NoWinner | Pig.java:98-105 | while the game is in play `isWinner` is false |
| PigExamples.Test | Pig.java:194-206 | with three players, players[0] is followed by players[1] and players[2] by players[0]; with totals 10, 15 and 20 there is a winner at 20 |
| PigExamples.Turns | Pig.java:41-62 | with 10 banked and 6 in the round at target 20: a 4 wins with 20, a 1 passes with 10 and the round lost, and banking passes with 16 |

## Left out

- Floating point. Calculator values are exact reals, so rounding, overflow to infinity and the `double` NaN value are not modelled. `Double.parseDouble` of a long literal is not rounded either.
- Exponentiation is the parameter `pow`: nothing is assumed about `Math.pow` beyond what the `IsNatPow` examples state.
- Unicode digits. `Character.isDigit` in `tokenize` also accepts non-ASCII digits, and the model does not. In the Java program a number holding such a digit passes the lexer, fails the `\d+` test of `infix2Postfix` (Calculator.java:96), and is rejected with OP_NOT_FOUND (Calculator.java:122-124) when the converter reaches it, unless an earlier token has already stopped the conversion. The model rejects the digit in the lexer with OpNotFound. The two therefore differ when a `)` without a matching `(` comes before the digit, as in `)٣`: Java raises MISSING_OPERATOR (Calculator.java:118-119) and the model OpNotFound.
- Error messages. The model keeps only the error kind, and both Java exception classes become one `Err`.
- The `RuntimeException` branches of `applyOperator`, `getPrecedence`, `getAssociativity` and `infix2Postfix` (Calculator.java:86, 123, 146, 156) are not modelled. They cannot happen once operators and tokens are datatypes.
- Calculator.Precedence and Calculator.Associativity are the table itself and have no contract of their own. Their consequences are `SameLevelSameAssoc`, `PopAll`, `ToPostfixShow` and the associativity examples.
- Calculator.ApplyOperator (Calculator.java:70-86) has no contract of its own. Its facts are `CalculatorProperties.ApplyOperatorFacts` (what each operator computes and when it fails) and `CalculatorExpressions.ApplyIsInfix` (the operand order of the stack).
- Neighbours.IsValidLocation (Neighbours.java:91-94) is the bounds test itself and has no contract of its own. Its meaning on the world is `NeighboursProperties.ValidCells`, and its checks are `NeighboursExamples.ValidLocations`.
- The Neighbours threshold is an exact rational (`real`), not a `double`. As noted above, the two comparisons agree for the program's thresholds.
- The Neighbours world is an `array2`, so it is square by construction. The Java `Actor[][]` could be ragged, and its rows could alias one another; neither is modelled.
- Neighbours randomness:
  - `Collections.shuffle` and `Random.nextInt` in `moveActors` are replaced by `draw`, which picks the index of the removed empty location;
  - the shuffle before the loop is not modelled separately, because a shuffle followed by uniformly random removals draws the same sequences of targets as the removals alone;
  - every proved property holds for every `draw`.
- `createWorld`, `init`, `fixScreenSize` and the JavaFX rendering and timer code of Neighbours are not modelled. They are set-up, user interface and timing. The `State` enum is declared but unused.
- Neighbours.Count compares with `==` on values, where the Java `count` (Neighbours.java:227) compares references. The two agree on enum values, which is what the grid holds. The Java `count` is never called in the program.
- Neighbours.MoveActors states its result against `Relocated` for any list of in-bounds positions. The properties about which moves happen (`MovesShape`, `MovesDisjoint`, `UpdateEffect`) are proved for the list that `updateWorld` passes.
- Pig input and output: `welcomeMsg`, `statusMsg`, `roundMsg`, `gameOverMsg`, `getPlayerChoice`, `getPlayers` and the `Scanner`. The typed commands are the `choices` argument. The game-over message is the `Game` results.
- Pig randomness:
  - `getCurrentPlayer` becomes the `first` argument of `Game`;
  - `rollDice` becomes the `rolls` sequence, whose values are required to be in 1..6, the range `rollDice` produces.
- Pig.Game stops when the scripted commands run out, where the Java loop would wait for more input. The contract then states that the game is still in play.
- Pig.Game requires the players to be distinct objects, as `getPlayers` builds each with `new Player()` (Pig.java:154-159). An array holding one player twice is not modelled.
- Java `int` overflow of the points is not modelled: integers are unbounded.
- A new `Player`'s name is `null` in Java and `""` in the model.
- The `test()` methods of Neighbours.java and Pig.java and their `exit(0)` calls. Their checks are restated in `NeighboursExamples` and `PigExamples`.
