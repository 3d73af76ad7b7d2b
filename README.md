# 24 puzzle solver — a Dafny model

The 24 puzzle deals four cards numbered 0 to 10. The player combines the four
numbers with `+`, `-`, `×` and `÷` so that the result is 24. The solver
(`src/solver.js`) finds every way to do this:

1. It checks its input.
2. It lists the orderings of the four numbers without repeats, the 64
   triples of operators, and 30 postfix layouts (`RPN_PATTERNS`).
3. It fills every layout with every ordering and every triple.
4. It keeps the postfix sequences whose value is within 10⁻⁶ of 24.
5. It prints each kept sequence in infix notation, with parentheses where
   precedence needs them.

The card helpers (`src/composables/card.js`) give a new card the first suit
that no card of the same number on the table has yet. They also build the
path of a card's picture.

The model has these modules:

- `Tokens`: postfix tokens, the operator table and expression trees.
- `Postfix`: the evaluator, as a stack-machine method proved equal to a
  functional semantics. That semantics is proved to agree with the value of
  the tree the tokens build.
- `Infix`: the unparser, as a frame-stack method proved equal to rendering
  that tree.
- `Reading`: reads a rendering back with the usual precedence rules, to show
  what the printed text means.
- `Patterns`: the layout table, with proofs that every row is a valid
  postfix layout.
- `Permutations`: the in-place sort and the backtracking search. The search
  is proved to emit every arrangement of the numbers exactly once, in
  ascending order.
- `Enumerate`: the operator triples and the candidate generator.
- `Solver`: the guard and the pipeline of `solve`.
- `Cards` and `Numerals`: the card helpers and decimal numerals.

Decimal arithmetic is modelled with exact reals.

## Model

| member | source | states |
|---|---|---|
| Tokens.ParseOp | src/solver.js:3-8 | a symbol names an operator exactly when it is a key of `PRECEDENSE`, and that operator's symbol is the key |
| Tokens.Prec | src/solver.js:3-8 | precedence is 1 or 2, and it is 2 exactly for `×` and `÷` |
| Tokens.OperatorsAreTheKeys | src/solver.js:90 | `Object.keys(PRECEDENSE)` holds four symbols, exactly the keys, and each operator's symbol reads back as that operator |
| Tokens.Apply | src/solver.js:154-172 | an operator application has no value exactly when it divides by zero |
| Postfix.IsCorrectExpression | src/solver.js:141-183 | the loop over the value stack returns exactly what the functional machine `Accepts` gives, including every early `return false` |
| Postfix.ArithIsApply | src/solver.js:154-172 | the switch computes `num2 op num1` as the operator's application to the left and right operands |
| Postfix.WellFormedIffParses | src/solver.js:143-181 | a token sequence passes the stack-depth checks of lines 149 and 179 exactly when it describes a single expression tree |
| Postfix.RunAgreesWithBuild | src/solver.js:143-177 | running the machine on the values of a stack of trees gives the values of the trees the same tokens build, and stops early exactly when building fails or some tree divides by zero |
| Postfix.AcceptsIffTreeNear24 | src/solver.js:141-183 | the evaluator accepts exactly when the tokens describe one tree whose value is defined and within 1e-6 of 24 |
| Postfix.AcceptedIsWellFormed | src/solver.js:179-182 | whatever the evaluator accepts is a well-formed postfix sequence |
| Postfix.WellFormedRejection | src/solver.js:149-182 | a well-formed sequence is rejected only for a zero divisor or a value away from 24 |
| Infix.RpnToInfix | src/solver.js:185-217 | the loop over the frame stack returns exactly the expression of the single frame `RunFrames` leaves |
| Infix.CombineFrames | src/solver.js:195-213 | the operator branch (sort for `+` and `*`, parenthesize, join) builds the frame that `Combine` describes; `Infix.CombineMatchesNode` shows that frame prints the node of the two operand trees |
| Infix.CombineMatchesNode | src/solver.js:195-213 | combining the frames of two trees under an operator gives the frame of the node with those trees as its operands |
| Infix.RunFrames | src/solver.js:187-215 | on a well-formed sequence exactly one frame is left at the end |
| Infix.CodeUnitLessIrreflexive | src/solver.js:198 | no string sorts strictly before itself in code-unit order |
| Infix.SortPairKeepsOrder | src/solver.js:197-198 | the default sort of two frames never swaps them, because both print as the same object string |
| Infix.RunFramesAgreesWithBuild | src/solver.js:187-215 | the frame stack after any tokens holds the renderings of the trees the tokens build |
| Infix.InfixOfRendersTree | src/solver.js:185-217 | the printed text is the tree rendered with operands in postfix order, a left operand of lower precedence in parentheses, and a right operand in parentheses when its precedence is lower or when it is equal and the operator is `-` |
| Infix.DivisionDropsParentheses | src/solver.js:206 | as written, `a ÷ (b ÷ c)` prints like `(a ÷ b) ÷ c`, and `a ÷ (b × c)` prints like `(a ÷ b) × c` |
| Reading.SpellLayout | src/solver.js:203-210 | the lexemes of a rendering spell exactly the rendered text |
| Reading.ReadsBackIntended | src/solver.js:206 | when `÷` keeps its right operand of equal precedence in parentheses, every rendering reads back as the tree's own value |
| Reading.AsWrittenMisreads | src/solver.js:206 | a tree worth 24 for the cards 1, 1, 3, 8 prints as "8 ÷ 1 ÷ 3 × 1", which reads as 8/3; the intended grouping prints "8 ÷ (1 ÷ 3) × 1" |
| Patterns.TableIsValid | src/solver.js:28-63 | the table has 30 rows, and each is a valid postfix layout of four number slots and three operator slots |
| Patterns.OnlyDuplicateRows | src/solver.js:45-47 | the rows at lines 45 and 47 are equal, and no other two rows are |
| Patterns.EachSlotOnce | src/solver.js:28-63 | a valid layout names each of the slots 0 to 6 exactly once |
| Patterns.Instantiate | src/solver.js:96 | substituting into a layout keeps its length |
| Patterns.InstanceOfValid | src/solver.js:96 | a valid layout filled with four numbers and three operator keys is a well-formed postfix sequence, holds the numbers in the ordering's order and uses each operator of the triple once |
| Patterns.RowRejection | src/solver.js:95-97 | every table row, filled, is well formed, holds the ordering and the triple's operators, and is rejected only for a zero divisor or a value away from 24 |
| Patterns.CorrectedTableDistinct | src/solver.js:47 | with line 47 holding the layout its comment names, the table has 30 valid layouts, no two alike |
| Patterns.IntendedRowNew | src/solver.js:47 | the layout named by the comment at line 47 appears in no row of the table as written |
| Patterns.IntendedRowCovered | src/solver.js:43-47 | the layout named by the comment at line 47, filled with a triple, equals the layout of line 43 filled with the same operators rotated |
| Patterns.Line47Reorders | src/solver.js:45-47 | with 1, 2, 3, 4 and `+ - ×`, line 47 gives the same sequence as line 45, `1 2 3 + - 4 ×`, where the layout its comment names gives `1 2 3 + × 4 -` |
| Patterns.InnerOperatorsSwapped | src/solver.js:43-45 | the layout of line 43 filled with a triple equals the layout of line 45 filled with its first two operators exchanged |
| Permutations.SortAscending | src/solver.js:124 | the array ends sorted ascending and holds the same multiset of numbers |
| Permutations.Sink | src/solver.js:124 | one insertion step extends the sorted prefix by one element, keeps the multiset and leaves the elements after that prefix in place |
| Permutations.Backtrack | src/solver.js:105-120 | `used` is restored on return, and the list grows by exactly what the recursive search below `result` emits, with the duplicate test of line 111 |
| Permutations.NumberPermutations | src/solver.js:104-127 | the caller's array ends sorted with the same numbers, and the result is the search's output on the sorted numbers |
| Permutations.EmitSound | src/solver.js:105-120 | every emitted sequence is `result` followed by an arrangement of the free numbers |
| Permutations.EmitComplete | src/solver.js:105-120 | every arrangement of the free numbers after `result` is emitted |
| Permutations.EmitAscending | src/solver.js:110-113 | over sorted numbers the search emits in strictly ascending lexicographic order |
| Permutations.ArrangementsOfNumbers | src/solver.js:104-127 | the output is exactly the sequences with the same multiset as the numbers and, once sorted, strictly ascending |
| Permutations.AscendingDistinct | src/solver.js:111 | a strictly ascending list repeats nothing, so each arrangement is emitted once |
| Enumerate.OperatorPermutations | src/solver.js:129-139 | the three nested loops build exactly the flattened triple table |
| Enumerate.TriplesLength | src/solver.js:129-139 | there are `n³` triples |
| Enumerate.TripleAt | src/solver.js:131-134 | the triple of positions x, y, z sits at index `(x·n + y)·n + z` |
| Enumerate.TriplesMembers | src/solver.js:129-139 | the triples are exactly the length-3 sequences over the operators |
| Enumerate.OperatorTriples | src/solver.js:90 | for the operator keys there are 64 triples, exactly the triples of keys |
| Enumerate.ExpressionPermutations | src/solver.js:88-102 | the numbers end sorted with the same multiset, and the result is every table row filled with every ordering and every triple, in loop order |
| Enumerate.Substitute | src/solver.js:93-101 | the two outer loops build exactly the flattened candidate table |
| Enumerate.FillLayouts | src/solver.js:95-98 | the inner loop appends the 30 layouts filled with one ordering and one triple |
| Enumerate.CandidatesLength | src/solver.js:93-100 | there is one candidate per ordering, triple and layout |
| Enumerate.CandidateAt | src/solver.js:93-97 | ordering x, triple y and layout z give the candidate at index `(x·|triples| + y)·30 + z` |
| Enumerate.CandidateSource | src/solver.js:93-97 | every candidate is some layout filled with some ordering and some triple |
| Enumerate.CandidatesWellFormed | src/solver.js:88-102 | every candidate is well formed, holds an ordering of the numbers and a triple's operators, and is rejected only for a zero divisor or a value away from 24 |
| Solver.Guard | src/solver.js:66-72 | the array error is raised exactly when the length is not 4; the number error exactly when the length is 4 and some number is outside 0..10; neither otherwise |
| Solver.GuardExamples | src/solver.test.js:7-13 | the integer inputs of the validation tests raise the errors those tests expect |
| Solver.Solve | src/solver.js:65-86 | a rejected input throws and leaves the array alone; otherwise the array ends sorted, and the answer renders every accepted candidate in generation order |
| Solver.Accepted | src/solver.js:79 | every kept candidate is well formed, so the unparser can print it |
| Solver.AcceptedMembers | src/solver.js:79 | a sequence is kept exactly when it is a candidate the evaluator accepts |
| Solver.Rendered | src/solver.js:81 | one text per kept candidate |
| Solver.RenderedMembers | src/solver.js:81 | a text is in the result exactly when it is the rendering of a kept candidate |
| Solver.SolutionsAreAnswers | src/solver.js:65-86 | a text is an answer exactly when it renders an accepted candidate; that candidate uses the four numbers and three operators, its tree is worth 24 within 1e-6, and it prints as the text |
| Solver.EightOverAThirdAccepted | src/solver.js:45 | `8 1 3 ÷ ÷ 1 ×` is well formed and accepted |
| Solver.RepeatedAnswer | src/solver.js:82-83 | for the cards 1, 1, 3, 8 the answer "8 ÷ 1 ÷ 3 × 1" appears at least twice, since the layouts of lines 43 and 45 give the same sequence with `÷ ÷ ×`: line 83 copies the list and removes nothing |
| Solver.Deduplicated | src/solver.js:82-83 | the deduplication the comment announces: the result holds exactly the texts of the list, none twice |
| Solver.DeduplicatedInFirstOccurrenceOrder | src/solver.js:82-83 | the deduplicated texts come in the order of their first occurrences in the list |
| Solver.DeduplicatedKeepsDistinct | src/solver.js:82-83 | a list without repeats is left unchanged, so deduplicating is idempotent |
| Solver.RepeatRemoved | src/solver.js:82-83 | with deduplication, "8 ÷ 1 ÷ 3 × 1" is an answer for 1, 1, 3, 8 exactly once |
| Cards.FreeSuitFrom | src/composables/card.js:5 | the suit found is untaken and comes from the remaining suits, and none is found exactly when all of them are taken |
| Cards.PickCard | src/composables/card.js:4-11 | the card keeps the number it was asked for |
| Cards.PickCardFirstFree | src/composables/card.js:1-5 | the suit is the first of S, H, C, D that no card with the same number has, and it is undefined exactly when all four are taken |
| Cards.EmptyPlacesIgnored | src/composables/card.js:5 | an empty place on the table does not change the card picked |
| Cards.PickedCardIsNew | src/composables/card.js:4-11 | a card that gets a suit equals no card already on the table |
| Cards.GetImageUrl | src/composables/card.js:13-15 | the path is longer than its fixed prefix and suffix together |
| Cards.ImageUrlRoundTrip | src/composables/card.js:13-15 | the path can be read back into the card's number and its suit, or into an undefined suit |
| Cards.ImageUrlInjective | src/composables/card.js:13-15 | two cards with suits from `SUITS`, or with no suit, share a path only when they are equal |
| Numerals.NatTextRoundTrip | src/composables/card.js:14 | the decimal numeral of a natural number reads back as that number |
| Numerals.IntTextRoundTrip | src/composables/card.js:14 | the text of any integer, with a minus sign when it is negative, reads back as that integer |

## Left out

- Decimal arithmetic (decimal.js) is modelled as exact real arithmetic. Results that decimal.js would round at its working precision are not modelled. With inputs from 0 to 10 and three operations, the tolerance of 1e-6 absorbs such rounding.
- JavaScript's dynamic type checks (`Array.isArray`, `typeof num !== 'number'`, `Number.isInteger`) are not modelled. The input is an array of integers, so the test inputs `1.5` and `'a'` cannot be expressed.
- Infix.RpnToInfix requires a well-formed sequence, which leaves out four malformed inputs the source handles differently:
  - the empty sequence: the loop of line 187 does not run, and line 216 throws a `TypeError` reading `expression` of the missing `stack[0]`;
  - an operator that finds fewer than two frames: the source throws a `TypeError` when it reads a property of the `undefined` it popped;
  - values left over at the end, such as `1 2`: line 216 returns the text of the bottom frame;
  - an operator string that is not a key of `PRECEDENSE`: line 200 gives it an undefined precedence, so the tests of line 203 and the `<` test of line 206 are false. The `===` test of line 206 compares `undefined` with `undefined` when the right operand was itself built by such an operator, so for `/` it adds parentheses: `1 2 3 / /` prints as "1 / (2 / 3)".

  `solve` only passes accepted sequences, and those are always well formed.
- Numerals.IntText writes every integer in plain decimal. JavaScript prints integers of magnitude 10^21 or more in exponent form (`1e+21`). Cards and the solver only use 0 to 10.
- For a lone number token, `rpnToInfix` returns the number itself instead of a string. The model returns its decimal text. `solve` never passes a lone number.
- Permutations.SortAscending stands for the engine's `Array.prototype.sort` with the comparator `x - y`, using an insertion sort. Only its result is modelled, and for a total order on integers that result is the same.
- Permutations.ArrangementsOfNumbers: the number of arrangements (4! divided by the factorials of the repeat counts) is not stated as a number. It is stated as each arrangement appearing exactly once.
- Enumerate.ExpressionPermutations requires four numbers. Its only caller, `solve`, calls it after the guard.
- The whole-search outcomes in `src/solver.test.js` are not proved: which inputs have no solution, and the exact answer lists. Those tests also spell the operators `*` and `/`, which the solver does not print.
- The Vue components and the game state that call the card helpers are not part of this model.

## Findings

| source | as written | input that shows it | evidently intended | confidence | as-written member | corrected member |
|---|---|---|---|---|---|---|
| src/solver.js:206 | the right operand keeps its parentheses at equal precedence only for `-` and `/`; the solver's division symbol is `÷`, so division never keeps them | cards 1, 1, 3, 8: the tree (8 ÷ (1 ÷ 3)) × 1 is worth 24 and prints as "8 ÷ 1 ÷ 3 × 1", which reads as 8/3 | test for `÷` as well as `-`, printing "8 ÷ (1 ÷ 3) × 1" | high (proved; not executed) | Reading.AsWrittenMisreads | Reading.ReadsBackIntended |
| src/solver.js:47 | the row repeats line 45, `[0, 1, 2, 4, 5, 3, 6]`, while its comment names `(a op3 (b op1 c)) op2 d`, that is `[0, 1, 2, 4, 6, 3, 5]` | numbers 1, 2, 3, 4 with `+ - ×`: the 17th sequence of the block repeats the 15th, `1 2 3 + - 4 ×`, instead of `1 2 3 + × 4 -` (Patterns.Line47Reorders). The effect is on order only: the comment's layout equals line 43's with the operators rotated (Patterns.IntendedRowCovered), and line 45's equals line 43's with two operators exchanged (Patterns.InnerOperatorsSwapped), so over all triples no answer is gained or lost | the row the comment names | high (proved; not executed) | Patterns.OnlyDuplicateRows | Patterns.CorrectedTableDistinct |
| src/solver.js:82-83 | the comment announces deduplication, but `Array.from([...results])` only copies the list | cards 1, 1, 3, 8: the layouts of lines 43 and 45 with `÷ ÷ ×` both give `8 1 3 ÷ ÷ 1 ×`, so "8 ÷ 1 ÷ 3 × 1" is returned at least twice | a list without repeats, `Array.from(new Set(results))`, which keeps the first occurrence of each text; "8 ÷ 1 ÷ 3 × 1" is then returned once (Solver.RepeatRemoved) | medium (proved; not executed; `src/solver.test.js` only checks membership and empty lists, which both readings satisfy) | Solver.RepeatedAnswer | Solver.Deduplicated |

The rest of the model follows the code as written: the table keeps its
repeated row, the unparser keeps the `-`/`/` test, and line 83 keeps
repeats. All three behaviours are part of what `solve` returns.
