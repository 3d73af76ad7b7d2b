/**
 * `solve` (src/solver.js:65-86): the input guard, then the pipeline that
 * generates every candidate postfix sequence, keeps those the evaluator
 * accepts and renders them as infix text.
 */
module Solver {
  import opened Wrappers
  import opened Tokens
  import opened Postfix
  import opened Infix
  import opened Patterns
  import opened Permutations
  import opened Enumerate
  import Reading

  /** What a call of `solve` ends with: a list of expressions, or a thrown error. */
  datatype Outcome = Solutions(expressions: seq<string>) | Thrown(message: string)

  const InvalidArray: string := "invalid parameter array"
  const InvalidNumber: string := "invalid parameter number"

  /** A card value the game accepts: an integer from 0 to 10. */
  predicate InRangeNumber(n: int) {
    0 <= n <= 10
  }

  /**
   * The two guards of lines 66-72, in order: the length first, then the
   * values. None when both pass.
   */
  function Guard(numbers: seq<int>): (error: Option<string>)
    ensures error == Some(InvalidArray) <==> |numbers| != 4
    ensures error == Some(InvalidNumber) <==> |numbers| == 4 && exists i :: 0 <= i < 4 && !InRangeNumber(numbers[i])
    ensures error.None? <==> |numbers| == 4 && forall i :: 0 <= i < 4 ==> InRangeNumber(numbers[i])
  {
    if |numbers| != 4 then Some(InvalidArray)
    else if exists i :: 0 <= i < |numbers| && !InRangeNumber(numbers[i]) then Some(InvalidNumber)
    else None
  }

  /** The guard on the inputs of src/solver.test.js:7-15 that are integers. */
  lemma GuardExamples()
    ensures Guard([1, 2, 3]) == Some(InvalidArray)
    ensures Guard([1, 2, 3, 4, 5]) == Some(InvalidArray)
    ensures Guard([1, 2, 3, 20]) == Some(InvalidNumber)
    ensures Guard([1, -2, 3, 4]) == Some(InvalidNumber)
    ensures Guard([1, 2, 3, 4]).None?
  {
    assert !InRangeNumber([1, 2, 3, 20][3]);
    assert !InRangeNumber([1, -2, 3, 4][1]);
  }

  /** `expressions.filter(isCorrectExpression)` (line 79), in order. */
  function Accepted(candidates: seq<seq<Token>>): (kept: seq<seq<Token>>)
    ensures forall t :: t in kept ==> WellFormed(t)
  {
    if |candidates| == 0 then []
    else
      (if Accepts(candidates[0]) then AcceptedIsWellFormed(candidates[0]); [candidates[0]] else []) +
      Accepted(candidates[1..])
  }

  /** `results.map(rpnToInfix)` (line 81), in order. */
  function Rendered(accepted: seq<seq<Token>>): (texts: seq<string>)
    requires forall t :: t in accepted ==> WellFormed(t)
    ensures |texts| == |accepted|
  {
    if |accepted| == 0 then [] else [InfixOf(accepted[0])] + Rendered(accepted[1..])
  }

  /** The candidates `solve` generates for four numbers, once they are sorted. */
  function AllCandidates(numbers: seq<int>): seq<seq<Token>>
    requires |numbers| == 4
  {
    ShapedInputs(numbers);
    Candidates(Arrangements(numbers), Triples(Operators))
  }

  /**
   * `solve`, as the source writes it. A rejected input throws and leaves the
   * array alone; otherwise the array ends sorted and the answer is the
   * rendering of every accepted candidate, in generation order. Line 83 only
   * copies the list: nothing is deduplicated.
   */
  method Solve(numbers: array<int>) returns (outcome: Outcome)
    modifies numbers
    ensures Guard(old(numbers[..])).Some? ==>
              outcome == Thrown(Guard(old(numbers[..])).value) && numbers[..] == old(numbers[..])
    ensures Guard(old(numbers[..])).None? ==>
              Sorted(numbers[..]) && multiset(numbers[..]) == multiset(old(numbers[..])) &&
              outcome == Solutions(Rendered(Accepted(AllCandidates(numbers[..]))))
  {
    if numbers.Length != 4 {
      return Thrown(InvalidArray);
    }
    if exists i :: 0 <= i < numbers.Length && !InRangeNumber(numbers[i]) {
      return Thrown(InvalidNumber);
    }
    var expressions := ExpressionPermutations(numbers);
    var results := Accepted(expressions);
    var texts := Rendered(results);
    texts := texts[..];
    return Solutions(texts);
  }

  // ---------------------------------------------------------------------------
  // What the pipeline keeps

  lemma {:induction false} AcceptedMembers(candidates: seq<seq<Token>>, t: seq<Token>)
    ensures t in Accepted(candidates) <==> t in candidates && Accepts(t)
    decreases |candidates|
  {
    if |candidates| > 0 {
      AcceptedMembers(candidates[1..], t);
      assert candidates == [candidates[0]] + candidates[1..];
    }
  }

  /** Filtering keeps the generation order: it distributes over concatenation. */
  lemma {:induction false} AcceptedAppend(xs: seq<seq<Token>>, ys: seq<seq<Token>>)
    ensures Accepted(xs + ys) == Accepted(xs) + Accepted(ys)
    decreases |xs|
  {
    if |xs| == 0 {
      assert xs + ys == ys;
    } else {
      var head := if Accepts(xs[0]) then [xs[0]] else [];
      assert (xs + ys)[0] == xs[0] && (xs + ys)[1..] == xs[1..] + ys;
      assert Accepted(xs + ys) == head + Accepted(xs[1..] + ys);
      assert Accepted(xs) == head + Accepted(xs[1..]);
      AcceptedAppend(xs[1..], ys);
    }
  }

  lemma {:induction false} RenderedMembers(accepted: seq<seq<Token>>, s: string)
    requires forall t :: t in accepted ==> WellFormed(t)
    ensures s in Rendered(accepted) <==> exists t :: t in accepted && InfixOf(t) == s
    decreases |accepted|
  {
    if |accepted| > 0 {
      var head, tail := accepted[0], accepted[1..];
      RenderedMembers(tail, s);
      assert accepted == [head] + tail;
      assert Rendered(accepted) == [InfixOf(head)] + Rendered(tail);
      if s in Rendered(accepted) && s != InfixOf(head) {
        var t :| t in tail && InfixOf(t) == s;
        assert t in accepted;
      }
      if exists t :: t in accepted && InfixOf(t) == s {
        var t :| t in accepted && InfixOf(t) == s;
        assert t == head || t in tail;
      }
    }
  }

  lemma {:induction false} RenderedAppend(xs: seq<seq<Token>>, ys: seq<seq<Token>>)
    requires forall t :: t in xs + ys ==> WellFormed(t)
    ensures Rendered(xs + ys) == Rendered(xs) + Rendered(ys)
    decreases |xs|
  {
    if |xs| == 0 {
      assert xs + ys == ys;
    } else {
      assert (xs + ys)[1..] == xs[1..] + ys;
      RenderedAppend(xs[1..], ys);
    }
  }

  /**
   * A string is among the answers exactly when it is the rendering of a
   * generated candidate the evaluator accepts; that candidate holds an
   * arrangement of the numbers and three operator keys, and its tree is
   * worth 24 within the tolerance and prints as the string.
   */
  lemma SolutionsAreAnswers(numbers: seq<int>, s: string)
    requires |numbers| == 4
    ensures s in Rendered(Accepted(AllCandidates(numbers))) <==>
            exists t :: t in AllCandidates(numbers) && Accepts(t) && WellFormed(t) && InfixOf(t) == s
    ensures s in Rendered(Accepted(AllCandidates(numbers))) ==>
            exists t :: t in AllCandidates(numbers) && Accepts(t) &&
              multiset(Numbers(t)) == multiset(numbers) && |Symbols(t)| == 3 &&
              Parse(t).Some? && Eval(Parse(t).value).Some? && Near24(Eval(Parse(t).value).value) &&
              s == Render(Parse(t).value, AsWritten)
  {
    var candidates := AllCandidates(numbers);
    RenderedMembers(Accepted(candidates), s);
    forall t ensures t in Accepted(candidates) <==> t in candidates && Accepts(t) {
      AcceptedMembers(candidates, t);
      if Accepts(t) {
        AcceptedIsWellFormed(t);
      }
    }
    if s in Rendered(Accepted(candidates)) {
      var t :| t in candidates && Accepts(t) && WellFormed(t) && InfixOf(t) == s;
      ShapedInputs(numbers);
      OperatorTriples();
      CandidatesWellFormed(Arrangements(numbers), Triples(Operators), t);
      ArrangementsOfNumbers(numbers);
      var u :| u in Triples(Operators) && multiset(Symbols(t)) == multiset(u);
      assert |Symbols(t)| == |multiset(Symbols(t))| == |multiset(u)| == 3;
      AcceptsIffTreeNear24(t);
      InfixOfRendersTree(t);
    }
  }

  // ---------------------------------------------------------------------------
  // Repeated answers

  /** `8 1 3 ÷ ÷ 1 ×`: the ordering 8, 1, 3, 1 with the triple ÷ ÷ × in the layout of line 45. */
  const EightOverAThirdTokens: seq<Token> := [Num(8), Num(1), Num(3), Sym('÷'), Sym('÷'), Num(1), Sym('×')]

  lemma EightOverAThirdAccepted()
    ensures WellFormed(EightOverAThirdTokens) && Accepts(EightOverAThirdTokens)
    ensures InfixOf(EightOverAThirdTokens) == "8 ÷ 1 ÷ 3 × 1"
  {
    var t := EightOverAThirdTokens;
    EightOverAThirdBuilds();
    assert Parse(t) == Some(Reading.EightOverAThird);
    WellFormedIffParses(t);
    Reading.AsWrittenMisreads();
    AcceptsIffTreeNear24(t);
    InfixOfRendersTree(t);
  }

  /** The sequence builds the tree `(8 ÷ (1 ÷ 3)) × 1`. */
  lemma EightOverAThirdBuilds()
    ensures Build(EightOverAThirdTokens, []) == Some([Reading.EightOverAThird])
  {
    var s3: seq<Token> := [Sym('÷'), Sym('÷'), Num(1), Sym('×')];
    NumbersPushed(s3);
    OperatorsApplied(s3);
  }

  lemma NumbersPushed(s3: seq<Token>)
    requires s3 == [Sym('÷'), Sym('÷'), Num(1), Sym('×')]
    ensures Build(EightOverAThirdTokens, []) == Build(s3, [Leaf(8), Leaf(1), Leaf(3)])
  {
    var t := EightOverAThirdTokens;
    assert t == [Num(8), Num(1), Num(3)] + s3;
    assert t[1..] == [Num(1), Num(3)] + s3 && t[1..][1..] == [Num(3)] + s3;
    assert ([Num(3)] + s3)[1..] == s3;
    var none: seq<Expr> := [];
    assert none + [Leaf(8)] == [Leaf(8)] && [Leaf(8)] + [Leaf(1)] == [Leaf(8), Leaf(1)];
    assert [Leaf(8), Leaf(1)] + [Leaf(3)] == [Leaf(8), Leaf(1), Leaf(3)];
    assert Build(t, none) == Build(t[1..], [Leaf(8)]);
    assert Build(t[1..], [Leaf(8)]) == Build([Num(3)] + s3, [Leaf(8), Leaf(1)]);
  }

  lemma OperatorsApplied(s3: seq<Token>)
    requires s3 == [Sym('÷'), Sym('÷'), Num(1), Sym('×')]
    ensures Build(s3, [Leaf(8), Leaf(1), Leaf(3)]) == Some([Reading.EightOverAThird])
  {
    var third := Node(Div, Leaf(1), Leaf(3));
    var quotient := Node(Div, Leaf(8), third);
    assert ParseOp('÷') == Some(Div) && ParseOp('×') == Some(Mul);
    var s4: seq<Token> := [Sym('÷'), Num(1), Sym('×')];
    var s6: seq<Token> := [Sym('×')];
    assert s3[1..] == s4 && s4[2..] == s6;
    assert [Leaf(8), Leaf(1), Leaf(3)][..1] + [third] == [Leaf(8), third];
    assert [Leaf(8), third][..0] + [quotient] == [quotient];
    assert [quotient, Leaf(1)][..0] + [Reading.EightOverAThird] == [Reading.EightOverAThird];
    assert Build(s3, [Leaf(8), Leaf(1), Leaf(3)]) == Build(s4, [Leaf(8), third]);
    assert Build(s4, [Leaf(8), third]) == Build(s4[1..], [quotient]);
    assert Build(s4[1..], [quotient]) == Build(s6, [quotient, Leaf(1)]);
    assert Build(s6, [quotient, Leaf(1)]) == Some([Reading.EightOverAThird]);
  }

  /** A string found at two positions of a candidate list is rendered at least twice. */
  lemma RepeatedCandidate(candidates: seq<seq<Token>>, i: nat, j: nat)
    requires i < j < |candidates| && candidates[i] == candidates[j] && Accepts(candidates[i])
    ensures WellFormed(candidates[i])
    ensures multiset(Rendered(Accepted(candidates)))[InfixOf(candidates[i])] >= 2
  {
    var t := candidates[i];
    AcceptedIsWellFormed(t);
    var front, back := candidates[..j], candidates[j..];
    assert candidates == front + back;
    AcceptedAppend(front, back);
    RenderedAppend(Accepted(front), Accepted(back));
    assert t in front && t in back;
    AcceptedMembers(front, t);
    AcceptedMembers(back, t);
    RenderedMembers(Accepted(front), InfixOf(t));
    RenderedMembers(Accepted(back), InfixOf(t));
  }

  /**
   * Line 83 copies the list and removes nothing, although the comment above
   * it speaks of deduplication: different candidates can be the same
   * sequence (with ÷ ÷ × the layouts of lines 43 and 45 coincide), and for
   * the numbers 1, 1, 3, 8 the answer "8 ÷ 1 ÷ 3 × 1" comes out at least twice.
   */
  lemma RepeatedAnswer()
    ensures multiset(Rendered(Accepted(AllCandidates([1, 1, 3, 8]))))["8 ÷ 1 ÷ 3 × 1"] >= 2
  {
    var i := TwinEightOverAThird();
    EightOverAThirdAccepted();
    RepeatedCandidate(AllCandidates([1, 1, 3, 8]), i, i + 2);
  }

  /** `8 1 3 ÷ ÷ 1 ×` is generated at two positions for the numbers 1, 1, 3, 8. */
  lemma TwinEightOverAThird() returns (i: nat)
    ensures i + 2 < |AllCandidates([1, 1, 3, 8])|
    ensures AllCandidates([1, 1, 3, 8])[i] == AllCandidates([1, 1, 3, 8])[i + 2] == EightOverAThirdTokens
  {
    var numbers := [1, 1, 3, 8];
    ShapedInputs(numbers);
    var perms := Arrangements(numbers);
    var triples := Triples(Operators);
    SameCards();
    var x := ArrangementIndex(numbers, [8, 1, 3, 1]);
    var y := DivDivMul();
    i := TwinCandidates(perms, triples, x, y);
    EightOverAThirdInstance();
  }

  lemma SameCards()
    ensures multiset([8, 1, 3, 1]) == multiset([1, 1, 3, 8])
  {
    assert multiset([8, 1, 3, 1]) == multiset{8, 1, 3, 1};
    assert multiset([1, 1, 3, 8]) == multiset{1, 1, 3, 8};
  }

  /** The triple ÷ ÷ × among the generated ones. */
  lemma DivDivMul() returns (y: nat)
    ensures y < |Triples(Operators)| && Triples(Operators)[y] == ['÷', '÷', '×']
  {
    TripleAt(Operators, 3, 3, 2);
    y := (3 * 4 + 3) * 4 + 2;
  }

  /** The sequence is the layout of line 45 filled with 8, 1, 3, 1 and ÷, ÷, ×. */
  lemma EightOverAThirdInstance()
    ensures InRange(RpnPatterns[14])
    ensures Instantiate(RpnPatterns[14], [8, 1, 3, 1], ['÷', '÷', '×']) == EightOverAThirdTokens
  {
    TableInRange();
  }

  /** The position of an arrangement among the generated ones. */
  lemma ArrangementIndex(numbers: seq<int>, perm: seq<int>) returns (x: nat)
    requires multiset(perm) == multiset(numbers)
    ensures x < |Arrangements(numbers)| && Arrangements(numbers)[x] == perm
  {
    ArrangementsOfNumbers(numbers);
    assert perm in Arrangements(numbers);
    x :| 0 <= x < |Arrangements(numbers)| && Arrangements(numbers)[x] == perm;
  }

  /**
   * An ordering with a triple whose first two operators agree, filled into
   * the layouts of lines 43 and 45, gives one sequence at two positions.
   */
  lemma TwinCandidates(perms: seq<seq<int>>, triples: seq<seq<char>>, x: nat, y: nat) returns (i: nat)
    requires Shaped(perms, triples) && x < |perms| && y < |triples|
    requires triples[y][0] == triples[y][1]
    ensures InRange(RpnPatterns[14])
    ensures i + 2 < |Candidates(perms, triples)|
    ensures Candidates(perms, triples)[i] == Candidates(perms, triples)[i + 2] == Instantiate(RpnPatterns[14], perms[x], triples[y])
  {
    CandidateAt(perms, triples, x, y, 12);
    CandidateAt(perms, triples, x, y, 14);
    var t := triples[y];
    InnerOperatorsSwapped(perms[x], t);
    assert [t[1], t[0], t[2]] == t;
    i := (x * |triples| + y) * 30 + 12;
  }

  // ---------------------------------------------------------------------------
  // The deduplication the comment at line 82 announces

  /**
   * `Array.from(new Set(texts))`: the list with every repeat after the first
   * occurrence dropped.
   */
  function Deduplicated(texts: seq<string>): (unique: seq<string>)
    ensures forall s :: s in unique <==> s in texts
    ensures forall i, j :: 0 <= i < j < |unique| ==> unique[i] != unique[j]
    ensures |unique| <= |texts|
  {
    if |texts| == 0 then []
    else
      var front := texts[..|texts| - 1];
      var last := texts[|texts| - 1];
      assert texts == front + [last];
      if last in front then Deduplicated(front) else Deduplicated(front) + [last]
  }

  /** The position of the first occurrence of `t` in `texts`. */
  function FirstIndex(texts: seq<string>, t: string): (k: nat)
    requires t in texts
    ensures k < |texts| && texts[k] == t && t !in texts[..k]
  {
    if texts[0] == t then 0
    else
      var k := FirstIndex(texts[1..], t);
      assert texts[..k + 1] == [texts[0]] + texts[1..][..k];
      k + 1
  }

  lemma FirstIndexUnique(texts: seq<string>, t: string, k: nat)
    requires k < |texts| && texts[k] == t && t !in texts[..k]
    ensures FirstIndex(texts, t) == k
  {
  }

  /**
   * The deduplicated texts come in the order in which they first occur, so
   * with its two ensures `Deduplicated` fixes its result completely.
   */
  lemma {:induction false} DeduplicatedInFirstOccurrenceOrder(texts: seq<string>)
    ensures forall i, j :: 0 <= i < j < |Deduplicated(texts)| ==>
              FirstIndex(texts, Deduplicated(texts)[i]) < FirstIndex(texts, Deduplicated(texts)[j])
  {
    if |texts| > 0 {
      var front := texts[..|texts| - 1];
      var last := texts[|texts| - 1];
      assert texts == front + [last];
      DeduplicatedInFirstOccurrenceOrder(front);
      var u := Deduplicated(front);
      forall x | x in front ensures FirstIndex(texts, x) == FirstIndex(front, x) < |front| {
        var k := FirstIndex(front, x);
        assert texts[..k] == front[..k];
        FirstIndexUnique(texts, x, k);
      }
      if last !in front {
        assert texts[..|texts| - 1] == front;
        FirstIndexUnique(texts, last, |texts| - 1);
        assert Deduplicated(texts) == u + [last];
      }
    }
  }

  /** A list without repeats is left as it is, so deduplicating twice changes nothing. */
  lemma {:induction false} DeduplicatedKeepsDistinct(texts: seq<string>)
    requires forall i, j :: 0 <= i < j < |texts| ==> texts[i] != texts[j]
    ensures Deduplicated(texts) == texts
  {
    if |texts| > 0 {
      var front := texts[..|texts| - 1];
      var last := texts[|texts| - 1];
      assert texts == front + [last];
      DeduplicatedKeepsDistinct(front);
    }
  }

  /** A text occurs once in a list without repeats that holds it. */
  lemma {:induction false} OccursOnce(texts: seq<string>, t: string)
    requires forall i, j :: 0 <= i < j < |texts| ==> texts[i] != texts[j]
    requires t in texts
    ensures multiset(texts)[t] == 1
  {
    var front := texts[..|texts| - 1];
    var last := texts[|texts| - 1];
    assert texts == front + [last];
    if last == t {
      assert t !in front;
    } else {
      OccursOnce(front, t);
    }
  }

  /** The answers `solve` gives once line 83 deduplicates. */
  function DistinctAnswers(numbers: seq<int>): seq<string>
    requires |numbers| == 4
  {
    Deduplicated(Rendered(Accepted(AllCandidates(numbers))))
  }

  /** With the deduplication, "8 ÷ 1 ÷ 3 × 1" is an answer for 1, 1, 3, 8 exactly once. */
  lemma RepeatRemoved()
    ensures multiset(DistinctAnswers([1, 1, 3, 8]))["8 ÷ 1 ÷ 3 × 1"] == 1
  {
    RepeatedAnswer();
    var texts := Rendered(Accepted(AllCandidates([1, 1, 3, 8])));
    assert "8 ÷ 1 ÷ 3 × 1" in texts;
    OccursOnce(Deduplicated(texts), "8 ÷ 1 ÷ 3 × 1");
  }
}
