/**
 * The candidate enumerators: `operatorPermutations` (src/solver.js:129-139)
 * and `expressionPermutations` (src/solver.js:88-102), three nested loops
 * each, proved equal to a flattening of three nested levels, whose index
 * formula fixes the order of the output.
 */
module Enumerate {
  import opened Tokens
  import opened Postfix
  import opened Patterns
  import opened Permutations

  // ---------------------------------------------------------------------------
  // Flattening

  /** The concatenation of a sequence of sequences. */
  function Flatten<T>(s: seq<seq<T>>): seq<T> {
    if |s| == 0 then [] else Flatten(s[..|s| - 1]) + s[|s| - 1]
  }

  lemma FlattenSnoc<T>(s: seq<seq<T>>, k: nat)
    requires k < |s|
    ensures Flatten(s[..k + 1]) == Flatten(s[..k]) + s[k]
  {
    assert s[..k + 1][..k] == s[..k];
  }

  lemma MulMonotonic(u: nat, v: nat, m: nat)
    requires u <= v
    ensures u * m <= v * m
  {
  }

  /** Flattening `|s|` pieces of length `m` gives `|s| * m` elements. */
  lemma {:induction false} FlattenLength<T>(s: seq<seq<T>>, m: nat)
    requires forall i :: 0 <= i < |s| ==> |s[i]| == m
    ensures |Flatten(s)| == |s| * m
    decreases |s|
  {
    if |s| > 0 {
      FlattenLength(s[..|s| - 1], m);
    }
  }

  /** Flattening pieces of length `m`: piece `i`, element `j` lands at position `i * m + j`. */
  lemma {:induction false} FlattenAt<T>(s: seq<seq<T>>, m: nat, i: nat, j: nat)
    requires forall k :: 0 <= k < |s| ==> |s[k]| == m
    requires i < |s| && j < m
    ensures i * m + j < |s| * m
    ensures i * m + j < |Flatten(s)| && Flatten(s)[i * m + j] == s[i][j]
    decreases |s|
  {
    var k := |s| - 1;
    var front := s[..k];
    FlattenLength(front, m);
    FlattenLength(s, m);
    MulMonotonic(i + 1, |s|, m);
    if i < k {
      FlattenAt(front, m, i, j);
    } else {
      assert i * m == |Flatten(front)|;
    }
  }

  // ---------------------------------------------------------------------------
  // operatorPermutations

  /** The triples whose first operator is `operators[x]` and second `operators[y]`. */
  function TripleBlock(operators: seq<char>, x: nat, y: nat): (block: seq<seq<char>>)
    requires x < |operators| && y < |operators|
    ensures |block| == |operators|
  {
    seq(|operators|, z requires 0 <= z < |operators| => [operators[x], operators[y], operators[z]])
  }

  /** The first `b` blocks of row `x`. */
  function TripleBlocks(operators: seq<char>, x: nat, b: nat): seq<seq<char>>
    requires x < |operators| && b <= |operators|
  {
    Flatten(seq(b, y requires 0 <= y < b => TripleBlock(operators, x, y)))
  }

  /** The triples whose first operator is `operators[x]`. */
  function TripleRow(operators: seq<char>, x: nat): seq<seq<char>>
    requires x < |operators|
  {
    TripleBlocks(operators, x, |operators|)
  }

  /** The first `a` rows. */
  function TripleRows(operators: seq<char>, a: nat): seq<seq<char>>
    requires a <= |operators|
  {
    Flatten(seq(a, x requires 0 <= x < a => TripleRow(operators, x)))
  }

  /** Every ordered choice of three operators, with repetition. */
  function Triples(operators: seq<char>): seq<seq<char>> {
    TripleRows(operators, |operators|)
  }

  lemma TripleBlocksGrow(operators: seq<char>, x: nat, b: nat)
    requires x < |operators| && b < |operators|
    ensures TripleBlocks(operators, x, b + 1) == TripleBlocks(operators, x, b) + TripleBlock(operators, x, b)
  {
    var s := seq(b + 1, y requires 0 <= y < b + 1 => TripleBlock(operators, x, y));
    assert s[..b] == seq(b, y requires 0 <= y < b => TripleBlock(operators, x, y));
    assert s[..b + 1] == s;
    FlattenSnoc(s, b);
  }

  lemma TripleRowsGrow(operators: seq<char>, a: nat)
    requires a < |operators|
    ensures TripleRows(operators, a + 1) == TripleRows(operators, a) + TripleRow(operators, a)
  {
    var s := seq(a + 1, x requires 0 <= x < a + 1 => TripleRow(operators, x));
    assert s[..a] == seq(a, x requires 0 <= x < a => TripleRow(operators, x));
    assert s[..a + 1] == s;
    FlattenSnoc(s, a);
  }

  /** `operatorPermutations`, as the source writes it: three nested loops. */
  method OperatorPermutations(operators: seq<char>) returns (permutations: seq<seq<char>>)
    ensures permutations == Triples(operators)
  {
    var n := |operators|;
    permutations := [];
    var x := 0;
    while x < n
      invariant 0 <= x <= n
      invariant permutations == TripleRows(operators, x)
    {
      ghost var rows := permutations;
      var y := 0;
      while y < n
        invariant 0 <= y <= n
        invariant permutations == rows + TripleBlocks(operators, x, y)
      {
        ghost var blocks := permutations;
        var z := 0;
        while z < n
          invariant 0 <= z <= n
          invariant permutations == blocks + TripleBlock(operators, x, y)[..z]
        {
          permutations := permutations + [[operators[x], operators[y], operators[z]]];
          assert TripleBlock(operators, x, y)[..z + 1] == TripleBlock(operators, x, y)[..z] + [[operators[x], operators[y], operators[z]]];
          z := z + 1;
        }
        assert TripleBlock(operators, x, y)[..n] == TripleBlock(operators, x, y);
        TripleBlocksGrow(operators, x, y);
        AppendAssociates(rows, TripleBlocks(operators, x, y), TripleBlock(operators, x, y));
        y := y + 1;
      }
      assert permutations == rows + TripleRow(operators, x);
      TripleRowsGrow(operators, x);
      x := x + 1;
    }
  }

  /** An element of a flattening comes from one of the pieces. */
  lemma {:induction false} FlattenMember<T>(s: seq<seq<T>>, t: T)
    requires t in Flatten(s)
    ensures exists i :: 0 <= i < |s| && t in s[i]
    decreases |s|
  {
    var k := |s| - 1;
    if t !in s[k] {
      FlattenMember(s[..k], t);
      var i :| 0 <= i < k && t in s[..k][i];
      assert t in s[i];
    }
  }

  lemma TripleRowLength(operators: seq<char>, x: nat)
    requires x < |operators|
    ensures |TripleRow(operators, x)| == |operators| * |operators|
  {
    var n := |operators|;
    FlattenLength(seq(n, y requires 0 <= y < n => TripleBlock(operators, x, y)), n);
  }

  /** `|operators|³` triples: 64 for the four operator keys. */
  lemma TriplesLength(operators: seq<char>)
    ensures |Triples(operators)| == |operators| * |operators| * |operators|
  {
    var n := |operators|;
    var rows := seq(n, x requires 0 <= x < n => TripleRow(operators, x));
    forall x | 0 <= x < n ensures |rows[x]| == n * n {
      TripleRowLength(operators, x);
    }
    FlattenLength(rows, n * n);
  }

  /**
   * The triple `(operators[x], operators[y], operators[z])` sits at position
   * `(x·n + y)·n + z`: the triples come in lexicographic order of the
   * positions of their operators.
   */
  lemma TripleAt(operators: seq<char>, x: nat, y: nat, z: nat)
    requires x < |operators| && y < |operators| && z < |operators|
    ensures (x * |operators| + y) * |operators| + z < |Triples(operators)|
    ensures Triples(operators)[(x * |operators| + y) * |operators| + z] == [operators[x], operators[y], operators[z]]
  {
    var n := |operators|;
    var blocks := seq(n, j requires 0 <= j < n => TripleBlock(operators, x, j));
    FlattenAt(blocks, n, y, z);
    var inner := y * n + z;
    assert TripleRow(operators, x)[inner] == [operators[x], operators[y], operators[z]];
    TripleRowLength(operators, x);
    var rows := seq(n, i requires 0 <= i < n => TripleRow(operators, i));
    forall i | 0 <= i < n ensures |rows[i]| == n * n {
      TripleRowLength(operators, i);
    }
    FlattenAt(rows, n * n, x, inner);
    Horner(x, y, z, n);
  }

  lemma Horner(x: nat, y: nat, z: nat, n: nat)
    ensures x * (n * n) + (y * n + z) == (x * n + y) * n + z
  {
  }

  /** The triples are exactly the sequences of three operators drawn from `operators`. */
  lemma TriplesMembers(operators: seq<char>, t: seq<char>)
    ensures t in Triples(operators) <==> |t| == 3 && t[0] in operators && t[1] in operators && t[2] in operators
  {
    if t in Triples(operators) {
      TripleDrawn(operators, t);
    }
    if |t| == 3 && t[0] in operators && t[1] in operators && t[2] in operators {
      TripleListed(operators, t);
    }
  }

  lemma TripleDrawn(operators: seq<char>, t: seq<char>)
    requires t in Triples(operators)
    ensures |t| == 3 && t[0] in operators && t[1] in operators && t[2] in operators
  {
    var n := |operators|;
    var rows := seq(n, i requires 0 <= i < n => TripleRow(operators, i));
    FlattenMember(rows, t);
    var x :| 0 <= x < n && t in rows[x];
    var blocks := seq(n, j requires 0 <= j < n => TripleBlock(operators, x, j));
    FlattenMember(blocks, t);
    var y :| 0 <= y < n && t in blocks[y];
    var z :| 0 <= z < n && blocks[y][z] == t;
    assert t == [operators[x], operators[y], operators[z]];
  }

  lemma TripleListed(operators: seq<char>, t: seq<char>)
    requires |t| == 3 && t[0] in operators && t[1] in operators && t[2] in operators
    ensures t in Triples(operators)
  {
    var x := IndexOf(operators, t[0]);
    var y := IndexOf(operators, t[1]);
    var z := IndexOf(operators, t[2]);
    TripleAt(operators, x, y, z);
    var n := |operators|;
    var triples := Triples(operators);
    var k := (x * n + y) * n + z;
    assert t == [operators[x], operators[y], operators[z]] == triples[k];
  }

  lemma IndexOf<T>(s: seq<T>, c: T) returns (i: nat)
    requires c in s
    ensures i < |s| && s[i] == c
  {
    i :| 0 <= i < |s| && s[i] == c;
  }

  /** For the operator keys: 64 triples, each a triple of keys. */
  lemma OperatorTriples()
    ensures |Triples(Operators)| == 64
    ensures forall t :: t in Triples(Operators) <==> |t| == 3 && t[0] in Precedence && t[1] in Precedence && t[2] in Precedence
  {
    TriplesLength(Operators);
    OperatorsAreTheKeys();
    forall t ensures t in Triples(Operators) <==> |t| == 3 && t[0] in Precedence && t[1] in Precedence && t[2] in Precedence {
      TriplesMembers(Operators, t);
    }
  }

  // ---------------------------------------------------------------------------
  // expressionPermutations

  /** Orderings of four numbers and triples of operators, as substitution needs them. */
  predicate Shaped(perms: seq<seq<int>>, triples: seq<seq<char>>) {
    (forall x :: 0 <= x < |perms| ==> |perms[x]| == 4) &&
    (forall y :: 0 <= y < |triples| ==> |triples[y]| == 3)
  }

  lemma TableInRange()
    ensures forall z :: 0 <= z < |RpnPatterns| ==> InRange(RpnPatterns[z])
  {
    TableIsValid();
    forall z | 0 <= z < |RpnPatterns| ensures InRange(RpnPatterns[z]) {
      ValidInRange(RpnPatterns[z]);
    }
  }

  /** The 30 layouts filled with one ordering and one triple (line 96), in table order. */
  function Fill(perm: seq<int>, triple: seq<char>): (block: seq<seq<Token>>)
    requires |perm| == 4 && |triple| == 3
    ensures |block| == |RpnPatterns|
  {
    TableInRange();
    seq(|RpnPatterns|, z requires 0 <= z < |RpnPatterns| => Instantiate(RpnPatterns[z], perm, triple))
  }

  function CandidateBlock(perms: seq<seq<int>>, triples: seq<seq<char>>, x: nat, y: nat): (block: seq<seq<Token>>)
    requires Shaped(perms, triples) && x < |perms| && y < |triples|
    ensures |block| == |RpnPatterns|
  {
    Fill(perms[x], triples[y])
  }

  /** The first `b` blocks of ordering `x`. */
  function CandidateBlocks(perms: seq<seq<int>>, triples: seq<seq<char>>, x: nat, b: nat): seq<seq<Token>>
    requires Shaped(perms, triples) && x < |perms| && b <= |triples|
  {
    Flatten(seq(b, y requires 0 <= y < b => CandidateBlock(perms, triples, x, y)))
  }

  /** Every candidate built from ordering `x`. */
  function CandidateRow(perms: seq<seq<int>>, triples: seq<seq<char>>, x: nat): seq<seq<Token>>
    requires Shaped(perms, triples) && x < |perms|
  {
    CandidateBlocks(perms, triples, x, |triples|)
  }

  /** The candidates of the first `a` orderings. */
  function CandidateRows(perms: seq<seq<int>>, triples: seq<seq<char>>, a: nat): seq<seq<Token>>
    requires Shaped(perms, triples) && a <= |perms|
  {
    Flatten(seq(a, x requires 0 <= x < a => CandidateRow(perms, triples, x)))
  }

  /** Every layout filled with every ordering and every triple: ordering, then triple, then layout. */
  function Candidates(perms: seq<seq<int>>, triples: seq<seq<char>>): seq<seq<Token>>
    requires Shaped(perms, triples)
  {
    CandidateRows(perms, triples, |perms|)
  }

  lemma CandidateBlocksGrow(perms: seq<seq<int>>, triples: seq<seq<char>>, x: nat, b: nat)
    requires Shaped(perms, triples) && x < |perms| && b < |triples|
    ensures CandidateBlocks(perms, triples, x, b + 1) == CandidateBlocks(perms, triples, x, b) + CandidateBlock(perms, triples, x, b)
  {
    var s := seq(b + 1, y requires 0 <= y < b + 1 => CandidateBlock(perms, triples, x, y));
    assert s[..b] == seq(b, y requires 0 <= y < b => CandidateBlock(perms, triples, x, y));
    assert s[..b + 1] == s;
    FlattenSnoc(s, b);
  }

  lemma CandidateRowsGrow(perms: seq<seq<int>>, triples: seq<seq<char>>, a: nat)
    requires Shaped(perms, triples) && a < |perms|
    ensures CandidateRows(perms, triples, a + 1) == CandidateRows(perms, triples, a) + CandidateRow(perms, triples, a)
  {
    var s := seq(a + 1, x requires 0 <= x < a + 1 => CandidateRow(perms, triples, x));
    assert s[..a] == seq(a, x requires 0 <= x < a => CandidateRow(perms, triples, x));
    assert s[..a + 1] == s;
    FlattenSnoc(s, a);
  }

  /**
   * `expressionPermutations` (lines 88-102): the orderings of the numbers,
   * the operator triples, then every layout filled with every pair of them.
   * Only `solve` calls it, after its guard, so the numbers are four.
   */
  method ExpressionPermutations(numbers: array<int>) returns (permutations: seq<seq<Token>>)
    requires numbers.Length == 4
    modifies numbers
    ensures Sorted(numbers[..]) && multiset(numbers[..]) == multiset(old(numbers[..]))
    ensures Shaped(Arrangements(numbers[..]), Triples(Operators))
    ensures permutations == Candidates(Arrangements(numbers[..]), Triples(Operators))
  {
    var numberPerms := NumberPermutations(numbers);
    ghost var sorted := numbers[..];
    var operatorPerms := OperatorPermutations(Operators);
    ShapedInputs(numbers[..]);
    permutations := Substitute(numberPerms, operatorPerms);
    assert numbers[..] == sorted;
  }

  /** The two outer loops of lines 93-101. */
  method Substitute(numberPerms: seq<seq<int>>, operatorPerms: seq<seq<char>>) returns (permutations: seq<seq<Token>>)
    requires Shaped(numberPerms, operatorPerms)
    ensures permutations == Candidates(numberPerms, operatorPerms)
  {
    permutations := [];
    var x := 0;
    while x < |numberPerms|
      invariant 0 <= x <= |numberPerms|
      invariant permutations == CandidateRows(numberPerms, operatorPerms, x)
    {
      ghost var rows := permutations;
      var y := 0;
      while y < |operatorPerms|
        invariant 0 <= y <= |operatorPerms|
        invariant permutations == rows + CandidateBlocks(numberPerms, operatorPerms, x, y)
      {
        ghost var blocks := permutations;
        permutations := FillLayouts(numberPerms[x], operatorPerms[y], permutations);
        assert permutations == blocks + CandidateBlock(numberPerms, operatorPerms, x, y);
        CandidateBlocksGrow(numberPerms, operatorPerms, x, y);
        AppendAssociates(rows, CandidateBlocks(numberPerms, operatorPerms, x, y), CandidateBlock(numberPerms, operatorPerms, x, y));
        y := y + 1;
      }
      assert permutations == rows + CandidateRow(numberPerms, operatorPerms, x);
      CandidateRowsGrow(numberPerms, operatorPerms, x);
      x := x + 1;
    }
  }

  lemma AppendAssociates<T>(a: seq<T>, b: seq<T>, c: seq<T>)
    ensures (a + b) + c == a + (b + c)
  {
  }

  /** The innermost loop of lines 95-99: every layout filled with one ordering and one triple, pushed in table order. */
  method FillLayouts(numberPerm: seq<int>, operatorPerm: seq<char>, permutations: seq<seq<Token>>) returns (grown: seq<seq<Token>>)
    requires |numberPerm| == 4 && |operatorPerm| == 3
    ensures grown == permutations + Fill(numberPerm, operatorPerm)
  {
    TableInRange();
    grown := permutations;
    var z := 0;
    while z < |RpnPatterns|
      invariant 0 <= z <= |RpnPatterns|
      invariant grown == permutations + Fill(numberPerm, operatorPerm)[..z]
    {
      var tokens := Instantiate(RpnPatterns[z], numberPerm, operatorPerm);
      grown := grown + [tokens];
      assert Fill(numberPerm, operatorPerm)[..z + 1] == Fill(numberPerm, operatorPerm)[..z] + [tokens];
      z := z + 1;
    }
    assert Fill(numberPerm, operatorPerm)[..z] == Fill(numberPerm, operatorPerm);
  }

  /** The orderings of four numbers have four elements; the operator triples three. */
  lemma ShapedInputs(numbers: seq<int>)
    requires |numbers| == 4
    ensures Shaped(Arrangements(numbers), Triples(Operators))
  {
    ArrangementsOfNumbers(numbers);
    OperatorTriples();
    forall x | 0 <= x < |Arrangements(numbers)| ensures |Arrangements(numbers)[x]| == 4 {
      var r := Arrangements(numbers)[x];
      assert r in Arrangements(numbers);
      assert |r| == |multiset(r)|;
    }
  }

  lemma CandidateRowLength(perms: seq<seq<int>>, triples: seq<seq<char>>, x: nat)
    requires Shaped(perms, triples) && x < |perms|
    ensures |CandidateRow(perms, triples, x)| == |triples| * |RpnPatterns|
  {
    var blocks := seq(|triples|, y requires 0 <= y < |triples| => CandidateBlock(perms, triples, x, y));
    FlattenLength(blocks, |RpnPatterns|);
  }

  /** One candidate per ordering, triple and layout: 46 080 for four distinct numbers. */
  lemma CandidatesLength(perms: seq<seq<int>>, triples: seq<seq<char>>)
    requires Shaped(perms, triples)
    ensures |Candidates(perms, triples)| == |perms| * |triples| * 30
  {
    var rows := seq(|perms|, x requires 0 <= x < |perms| => CandidateRow(perms, triples, x));
    forall x | 0 <= x < |perms| ensures |rows[x]| == |triples| * |RpnPatterns| {
      CandidateRowLength(perms, triples, x);
    }
    FlattenLength(rows, |triples| * |RpnPatterns|);
    assert |RpnPatterns| == 30;
  }

  /**
   * Ordering `x`, triple `y` and layout `z` give the candidate at position
   * `(x·|triples| + y)·30 + z`: orderings outermost, layouts innermost.
   */
  lemma CandidateAt(perms: seq<seq<int>>, triples: seq<seq<char>>, x: nat, y: nat, z: nat)
    requires Shaped(perms, triples) && x < |perms| && y < |triples| && z < 30
    ensures InRange(RpnPatterns[z])
    ensures (x * |triples| + y) * 30 + z < |Candidates(perms, triples)|
    ensures Candidates(perms, triples)[(x * |triples| + y) * 30 + z] == Instantiate(RpnPatterns[z], perms[x], triples[y])
  {
    TableInRange();
    var m := |RpnPatterns|;
    assert m == 30;
    var blocks := seq(|triples|, j requires 0 <= j < |triples| => CandidateBlock(perms, triples, x, j));
    FlattenAt(blocks, m, y, z);
    var inner := y * m + z;
    assert CandidateRow(perms, triples, x)[inner] == Instantiate(RpnPatterns[z], perms[x], triples[y]);
    var rows := seq(|perms|, i requires 0 <= i < |perms| => CandidateRow(perms, triples, i));
    forall i | 0 <= i < |perms| ensures |rows[i]| == |triples| * m {
      CandidateRowLength(perms, triples, i);
    }
    FlattenAt(rows, |triples| * m, x, inner);
    Horner2(x, y, z, |triples|, m);
  }

  lemma Horner2(x: nat, y: nat, z: nat, t: nat, m: nat)
    ensures x * (t * m) + (y * m + z) == (x * t + y) * m + z
  {
  }

  /** Every candidate is some layout filled with some ordering and some triple. */
  lemma CandidateSource(perms: seq<seq<int>>, triples: seq<seq<char>>, c: seq<Token>)
    returns (x: nat, y: nat, z: nat)
    requires Shaped(perms, triples) && c in Candidates(perms, triples)
    ensures x < |perms| && y < |triples| && z < |RpnPatterns| && InRange(RpnPatterns[z])
    ensures c == Instantiate(RpnPatterns[z], perms[x], triples[y])
  {
    TableInRange();
    var rows := seq(|perms|, i requires 0 <= i < |perms| => CandidateRow(perms, triples, i));
    FlattenMember(rows, c);
    x :| 0 <= x < |perms| && c in rows[x];
    var blocks := seq(|triples|, j requires 0 <= j < |triples| => CandidateBlock(perms, triples, x, j));
    FlattenMember(blocks, c);
    y :| 0 <= y < |triples| && c in blocks[y];
    z :| 0 <= z < |RpnPatterns| && blocks[y][z] == c;
  }

  /**
   * With operator keys for triples, every candidate is a well-formed postfix
   * sequence holding one ordering's four numbers in order and one triple's
   * operators, which the evaluator rejects only for a zero divisor or a value
   * away from 24, never for a stack underflow or a leftover stack.
   */
  lemma CandidatesWellFormed(perms: seq<seq<int>>, triples: seq<seq<char>>, c: seq<Token>)
    requires Shaped(perms, triples) && c in Candidates(perms, triples)
    requires forall t :: t in triples ==> t[0] in Precedence && t[1] in Precedence && t[2] in Precedence
    ensures WellFormed(c)
    ensures Numbers(c) in perms
    ensures exists t :: t in triples && multiset(Symbols(c)) == multiset(t)
    ensures Parse(c).Some? && (!Accepts(c) <==> Eval(Parse(c).value).None? || !Near24(Eval(Parse(c).value).value))
  {
    var x, y, z := CandidateSource(perms, triples, c);
    var t := triples[y];
    assert t in triples;
    RowRejection(z, perms[x], t);
  }
}
