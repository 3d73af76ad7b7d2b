/**
 * The duplicate-free permutation generator `numberPermutations`
 * (src/solver.js:104-127): the caller's array is sorted ascending in place,
 * then a backtracking search with a `used` array emits every distinct
 * arrangement of the numbers once, in ascending lexicographic order.
 */
module Permutations {

  predicate Sorted(s: seq<int>) {
    forall i, j :: 0 <= i < j < |s| ==> s[i] <= s[j]
  }

  // ---------------------------------------------------------------------------
  // numbers.sort((x, y) => x - y)

  /**
   * Line 124: sorts the array ascending in place, keeping its elements. The
   * engine's own algorithm is not modelled; an insertion sort by adjacent
   * swaps stands for it (the sorted result is the same).
   */
  method SortAscending(a: array<int>)
    modifies a
    ensures Sorted(a[..])
    ensures multiset(a[..]) == multiset(old(a[..]))
  {
    var i := 0;
    while i < a.Length
      invariant 0 <= i <= a.Length
      invariant Sorted(a[..i])
      invariant multiset(a[..]) == multiset(old(a[..]))
    {
      Sink(a, i);
      i := i + 1;
    }
  }

  /** One pass of the insertion sort: `a[i]` moves down into the sorted prefix `a[..i]`. */
  method Sink(a: array<int>, i: nat)
    requires i < a.Length && Sorted(a[..i])
    modifies a
    ensures Sorted(a[..i + 1])
    ensures multiset(a[..]) == multiset(old(a[..]))
    ensures a[i + 1..] == old(a[i + 1..])
  {
    var j := i;
    SinkStart(a[..], i);
    while j > 0 && a[j - 1] > a[j]
      invariant 0 <= j <= i
      invariant multiset(a[..]) == multiset(old(a[..]))
      invariant a[i + 1..] == old(a[i + 1..])
      invariant SortedApart(a[..], i, j) && BelowRest(a[..], i, j)
    {
      ghost var before := a[..];
      a[j - 1], a[j] := a[j], a[j - 1];
      assert a[..] == Swap(before, j);
      SinkStep(before, i, j);
      j := j - 1;
    }
    SinkDone(a[..], i, j);
  }

  /** `s[..i + 1]` is in order except possibly around position `j`. */
  predicate SortedApart(s: seq<int>, i: nat, j: nat)
    requires j <= i < |s|
  {
    forall p, q :: 0 <= p < q <= i && p != j && q != j ==> s[p] <= s[q]
  }

  /** `s[j]` is no larger than anything after it up to `i`. */
  predicate BelowRest(s: seq<int>, i: nat, j: nat)
    requires j <= i < |s|
  {
    forall q :: j < q <= i ==> s[j] <= s[q]
  }

  /** `s` with the elements at `j - 1` and `j` exchanged. */
  function Swap(s: seq<int>, j: nat): (t: seq<int>)
    requires 0 < j < |s|
    ensures |t| == |s| && multiset(t) == multiset(s)
  {
    s[j - 1 := s[j]][j := s[j - 1]]
  }

  lemma SinkStart(s: seq<int>, i: nat)
    requires i < |s| && Sorted(s[..i])
    ensures SortedApart(s, i, i) && BelowRest(s, i, i)
  {
    forall p, q | 0 <= p < q <= i && p != i && q != i ensures s[p] <= s[q] {
      assert s[p] == s[..i][p] && s[q] == s[..i][q];
    }
  }

  lemma SinkStep(s: seq<int>, i: nat, j: nat)
    requires 0 < j <= i < |s| && SortedApart(s, i, j) && BelowRest(s, i, j) && s[j - 1] > s[j]
    ensures SortedApart(Swap(s, j), i, j - 1) && BelowRest(Swap(s, j), i, j - 1)
  {
  }

  lemma SinkDone(s: seq<int>, i: nat, j: nat)
    requires j <= i < |s| && SortedApart(s, i, j) && BelowRest(s, i, j) && (j == 0 || s[j - 1] <= s[j])
    ensures Sorted(s[..i + 1])
  {
    var t := s[..i + 1];
    forall p, q | 0 <= p < q < |t| ensures t[p] <= t[q] {
      if q == j && p < j - 1 {
        assert s[p] <= s[j - 1];
      }
    }
  }

  // ---------------------------------------------------------------------------
  // The backtracking search as a function

  /**
   * The `continue` test of line 111: a number already placed, or the twin of
   * an equal left neighbour that is still free.
   */
  predicate Skipped(numbers: seq<int>, used: seq<bool>, i: nat)
    requires |used| == |numbers| && i < |numbers|
  {
    used[i] || (i > 0 && numbers[i] == numbers[i - 1] && !used[i - 1])
  }

  /**
   * What `backtrack(|result|, result)` appends to `permutations`: the partial
   * arrangement itself once it is complete, else the search from slot 0.
   */
  function Emit(numbers: seq<int>, used: seq<bool>, result: seq<int>): seq<seq<int>>
    requires |used| == |numbers| && |result| <= |numbers|
    decreases |numbers| - |result|, 2
  {
    if |result| == |numbers| then [result] else EmitFrom(numbers, used, result, 0)
  }

  /** What the `for` loop of lines 110-119 appends from slot `i` on. */
  function EmitFrom(numbers: seq<int>, used: seq<bool>, result: seq<int>, i: nat): seq<seq<int>>
    requires |used| == |numbers| && |result| < |numbers| && i <= |numbers|
    decreases |numbers| - |result|, 1, |numbers| - i
  {
    if i == |numbers| then []
    else Branch(numbers, used, result, i) + EmitFrom(numbers, used, result, i + 1)
  }

  /** What slot `i` contributes: nothing when skipped, else the search below `result + [numbers[i]]`. */
  function Branch(numbers: seq<int>, used: seq<bool>, result: seq<int>, i: nat): seq<seq<int>>
    requires |used| == |numbers| && |result| < |numbers| && i < |numbers|
    decreases |numbers| - |result|, 0
  {
    if Skipped(numbers, used, i) then [] else Emit(numbers, used[i := true], result + [numbers[i]])
  }

  /** No number placed yet: `new Array(numbers.length).fill(false)`. */
  function Free(n: nat): (used: seq<bool>)
    ensures |used| == n && forall i :: 0 <= i < n ==> !used[i]
  {
    seq(n, _ => false)
  }

  /** The arrangements the generator emits for an (already sorted) sequence. */
  function Arrangements(numbers: seq<int>): seq<seq<int>> {
    Emit(numbers, Free(|numbers|), [])
  }

  // ---------------------------------------------------------------------------
  // The search as the source writes it

  /**
   * The closure `backtrack` of lines 105-120: `used` is flipped and restored
   * around each recursive call, and `permutations` grows by what the search
   * below `result` emits.
   */
  method Backtrack(numbers: array<int>, used: array<bool>, index: nat, result: seq<int>, permutations: seq<seq<int>>)
    returns (grown: seq<seq<int>>)
    requires used.Length == numbers.Length && index == |result| <= numbers.Length
    modifies used
    ensures used[..] == old(used[..])
    ensures grown == permutations + Emit(numbers[..], old(used[..]), result)
    decreases numbers.Length - index
  {
    if index == numbers.Length {
      return permutations + [result];
    }
    grown := permutations;
    var i := 0;
    while i < numbers.Length
      invariant 0 <= i <= numbers.Length
      invariant used[..] == old(used[..])
      invariant permutations + Emit(numbers[..], used[..], result) == grown + EmitFrom(numbers[..], used[..], result, i)
    {
      if used[i] || (i > 0 && numbers[i] == numbers[i - 1] && !used[i - 1]) {
        i := i + 1;
        continue;
      }
      ghost var before := used[..];
      used[i] := true;
      assert used[..] == before[i := true];
      grown := Backtrack(numbers, used, index + 1, result + [numbers[i]], grown);
      used[i] := false;
      assert used[..] == before;
      i := i + 1;
    }
  }

  /**
   * `numberPermutations`: sorts the caller's array in place, then emits the
   * arrangements of the sorted numbers.
   */
  method NumberPermutations(numbers: array<int>) returns (permutations: seq<seq<int>>)
    modifies numbers
    ensures Sorted(numbers[..])
    ensures multiset(numbers[..]) == multiset(old(numbers[..]))
    ensures permutations == Arrangements(numbers[..])
  {
    permutations := [];
    var used := new bool[numbers.Length](_ => false);
    SortAscending(numbers);
    assert used[..] == Free(numbers.Length);
    permutations := Backtrack(numbers, used, 0, [], permutations);
  }

  // ---------------------------------------------------------------------------
  // What the search emits: each arrangement of the numbers

  /** The numbers at free slots from `k` on. */
  function Left(numbers: seq<int>, used: seq<bool>, k: nat): multiset<int>
    requires |used| == |numbers| && k <= |numbers|
    decreases |numbers| - k
  {
    if k == |numbers| then multiset{}
    else (if used[k] then multiset{} else multiset{numbers[k]}) + Left(numbers, used, k + 1)
  }

  lemma {:induction false} LeftAbove(numbers: seq<int>, used: seq<bool>, i: nat, b: bool, k: nat)
    requires |used| == |numbers| && i < k <= |numbers|
    ensures Left(numbers, used[i := b], k) == Left(numbers, used, k)
    decreases |numbers| - k
  {
    if k < |numbers| {
      LeftAbove(numbers, used, i, b, k + 1);
    }
  }

  /** Marking a free slot used removes its number from the free ones. */
  lemma {:induction false} LeftTake(numbers: seq<int>, used: seq<bool>, i: nat, k: nat)
    requires |used| == |numbers| && k <= i < |numbers| && !used[i]
    ensures Left(numbers, used, k) == Left(numbers, used[i := true], k) + multiset{numbers[i]}
    decreases i - k
  {
    if k < i {
      LeftTake(numbers, used, i, k + 1);
    } else {
      LeftAbove(numbers, used, i, true, i + 1);
    }
  }

  /**
   * Everything the search below `result` emits is `result` completed with the
   * free numbers, so an arrangement of all the numbers.
   */
  lemma {:induction false} EmitSound(numbers: seq<int>, used: seq<bool>, result: seq<int>)
    requires |used| == |numbers| && |result| <= |numbers|
    requires multiset(result) + Left(numbers, used, 0) == multiset(numbers)
    ensures forall r :: r in Emit(numbers, used, result) ==>
              |r| == |numbers| && r[..|result|] == result && multiset(r) == multiset(numbers)
    decreases |numbers| - |result|, 2
  {
    if |result| == |numbers| {
      assert |multiset(result)| == |multiset(numbers)|;
    } else {
      EmitFromSound(numbers, used, result, 0);
    }
  }

  lemma {:induction false} EmitFromSound(numbers: seq<int>, used: seq<bool>, result: seq<int>, i: nat)
    requires |used| == |numbers| && |result| < |numbers| && i <= |numbers|
    requires multiset(result) + Left(numbers, used, 0) == multiset(numbers)
    ensures forall r :: r in EmitFrom(numbers, used, result, i) ==>
              |r| == |numbers| && r[..|result|] == result && multiset(r) == multiset(numbers) &&
              exists j :: i <= j < |numbers| && !Skipped(numbers, used, j) && r[|result|] == numbers[j]
    decreases |numbers| - |result|, 1, |numbers| - i
  {
    if i < |numbers| {
      EmitFromSound(numbers, used, result, i + 1);
      var skipped := Skipped(numbers, used, i);
      if !skipped {
        BranchSound(numbers, used, result, i);
      }
      forall r | r in EmitFrom(numbers, used, result, i)
        ensures exists j :: i <= j < |numbers| && !Skipped(numbers, used, j) && r[|result|] == numbers[j]
      {
        if !skipped && r in Branch(numbers, used, result, i) {
          assert r[|result|] == numbers[i];
        } else {
          assert r in EmitFrom(numbers, used, result, i + 1);
        }
      }
    }
  }

  lemma {:induction false} BranchSound(numbers: seq<int>, used: seq<bool>, result: seq<int>, i: nat)
    requires |used| == |numbers| && |result| < |numbers| && i < |numbers| && !Skipped(numbers, used, i)
    requires multiset(result) + Left(numbers, used, 0) == multiset(numbers)
    ensures forall r :: r in Branch(numbers, used, result, i) ==>
              |r| == |numbers| && r[..|result|] == result && multiset(r) == multiset(numbers) &&
              r[|result|] == numbers[i]
    decreases |numbers| - |result|, 0
  {
    var next := result + [numbers[i]];
    LeftTake(numbers, used, i, 0);
    assert multiset(next) + Left(numbers, used[i := true], 0) == multiset(numbers);
    EmitSound(numbers, used[i := true], next);
    forall r | r in Branch(numbers, used, result, i)
      ensures r[..|result|] == result && r[|result|] == numbers[i]
    {
      assert r[..|next|][..|result|] == r[..|result|];
    }
  }

  /** `a` comes before `b` in lexicographic order. */
  predicate LexLess(a: seq<int>, b: seq<int>) {
    exists k :: 0 <= k < |a| && k < |b| && a[..k] == b[..k] && a[k] < b[k]
  }

  /** Strictly ascending in lexicographic order, hence free of repeats. */
  predicate Ascending(rs: seq<seq<int>>) {
    forall p, q :: 0 <= p < q < |rs| ==> LexLess(rs[p], rs[q])
  }

  /**
   * Equal numbers are placed left to right: a used slot whose left neighbour
   * holds the same number has that neighbour used too.
   */
  predicate Canonical(numbers: seq<int>, used: seq<bool>)
    requires |used| == |numbers|
  {
    forall k :: 0 < k < |numbers| && used[k] && numbers[k - 1] == numbers[k] ==> used[k - 1]
  }

  lemma {:induction false} UsedBelow(numbers: seq<int>, used: seq<bool>, i: nat, m: nat)
    requires |used| == |numbers| && Sorted(numbers) && Canonical(numbers, used)
    requires i <= m < |numbers| && used[m]
    ensures numbers[i] < numbers[m] || used[i]
    decreases m - i
  {
    if i < m && numbers[m - 1] == numbers[m] {
      UsedBelow(numbers, used, i, m - 1);
    }
  }

  /** Two slots the search does not skip hold different numbers, the left one smaller. */
  lemma ChosenAscend(numbers: seq<int>, used: seq<bool>, i: nat, j: nat)
    requires |used| == |numbers| && Sorted(numbers) && Canonical(numbers, used)
    requires i < j < |numbers| && !Skipped(numbers, used, i) && !Skipped(numbers, used, j)
    ensures numbers[i] < numbers[j]
  {
    if numbers[j - 1] == numbers[j] {
      UsedBelow(numbers, used, i, j - 1);
    }
  }

  lemma AscendingConcat(xs: seq<seq<int>>, ys: seq<seq<int>>)
    requires Ascending(xs) && Ascending(ys)
    requires forall x, y :: x in xs && y in ys ==> LexLess(x, y)
    ensures Ascending(xs + ys)
  {
    var zs := xs + ys;
    forall p, q | 0 <= p < q < |zs| ensures LexLess(zs[p], zs[q]) {
      if q < |xs| {
        assert zs[p] == xs[p] && zs[q] == xs[q];
      } else if p >= |xs| {
        assert zs[p] == ys[p - |xs|] && zs[q] == ys[q - |xs|];
      } else {
        assert zs[p] in xs && zs[q] in ys;
      }
    }
  }

  /** From sorted numbers the search emits in strictly ascending lexicographic order. */
  lemma {:induction false} EmitAscending(numbers: seq<int>, used: seq<bool>, result: seq<int>)
    requires |used| == |numbers| && |result| <= |numbers|
    requires Sorted(numbers) && Canonical(numbers, used)
    requires multiset(result) + Left(numbers, used, 0) == multiset(numbers)
    ensures Ascending(Emit(numbers, used, result))
    decreases |numbers| - |result|, 2
  {
    if |result| < |numbers| {
      EmitFromAscending(numbers, used, result, 0);
    }
  }

  lemma {:induction false} EmitFromAscending(numbers: seq<int>, used: seq<bool>, result: seq<int>, i: nat)
    requires |used| == |numbers| && |result| < |numbers| && i <= |numbers|
    requires Sorted(numbers) && Canonical(numbers, used)
    requires multiset(result) + Left(numbers, used, 0) == multiset(numbers)
    ensures Ascending(EmitFrom(numbers, used, result, i))
    decreases |numbers| - |result|, 1, |numbers| - i
  {
    if i < |numbers| {
      EmitFromAscending(numbers, used, result, i + 1);
      if !Skipped(numbers, used, i) {
        var next := result + [numbers[i]];
        var used' := used[i := true];
        PlaceKeepsCount(numbers, used, result, i);
        PlaceKeepsCanonical(numbers, used, i);
        EmitAscending(numbers, used', next);
        BranchBeforeLater(numbers, used, result, i);
        AscendingConcat(Branch(numbers, used, result, i), EmitFrom(numbers, used, result, i + 1));
      }
    }
  }

  /** Placing the number of a slot the search does not skip keeps the count of numbers. */
  lemma PlaceKeepsCount(numbers: seq<int>, used: seq<bool>, result: seq<int>, i: nat)
    requires |used| == |numbers| && |result| < |numbers| && i < |numbers| && !used[i]
    requires multiset(result) + Left(numbers, used, 0) == multiset(numbers)
    ensures multiset(result + [numbers[i]]) + Left(numbers, used[i := true], 0) == multiset(numbers)
  {
    LeftTake(numbers, used, i, 0);
  }

  /** Placing the number of a slot the search does not skip keeps equal numbers placed left to right. */
  lemma PlaceKeepsCanonical(numbers: seq<int>, used: seq<bool>, i: nat)
    requires |used| == |numbers| && i < |numbers| && Canonical(numbers, used) && !Skipped(numbers, used, i)
    ensures Canonical(numbers, used[i := true])
  {
  }

  /** Everything slot `i` contributes starts with `result + [numbers[i]]`. */
  lemma BranchShape(numbers: seq<int>, used: seq<bool>, result: seq<int>, i: nat)
    requires |used| == |numbers| && |result| < |numbers| && i < |numbers| && !Skipped(numbers, used, i)
    requires multiset(result) + Left(numbers, used, 0) == multiset(numbers)
    ensures forall r :: r in Branch(numbers, used, result, i) ==>
              |r| == |numbers| && r[..|result|] == result && r[|result|] == numbers[i]
  {
    var next := result + [numbers[i]];
    PlaceKeepsCount(numbers, used, result, i);
    EmitSound(numbers, used[i := true], next);
    forall r | r in Branch(numbers, used, result, i)
      ensures r[..|result|] == result && r[|result|] == numbers[i]
    {
      assert r[..|next|][..|result|] == r[..|result|];
    }
  }

  /** Everything slot `i` contributes comes before everything the later slots contribute. */
  lemma BranchBeforeLater(numbers: seq<int>, used: seq<bool>, result: seq<int>, i: nat)
    requires |used| == |numbers| && |result| < |numbers| && i < |numbers|
    requires Sorted(numbers) && Canonical(numbers, used) && !Skipped(numbers, used, i)
    requires multiset(result) + Left(numbers, used, 0) == multiset(numbers)
    ensures forall x, y :: x in Branch(numbers, used, result, i) && y in EmitFrom(numbers, used, result, i + 1) ==> LexLess(x, y)
  {
    BranchShape(numbers, used, result, i);
    EmitFromSound(numbers, used, result, i + 1);
    var later := EmitFrom(numbers, used, result, i + 1);
    forall x, y | x in Branch(numbers, used, result, i) && y in later
      ensures LexLess(x, y)
    {
      var j :| i + 1 <= j < |numbers| && !Skipped(numbers, used, j) && y[|result|] == numbers[j];
      ChosenAscend(numbers, used, i, j);
      var k := |result|;
      assert x[..k] == y[..k] && x[k] < y[k];
    }
  }

  /**
   * The leftmost free slot holding `x`, found by scanning from `k`: the search
   * does not skip it.
   */
  lemma {:induction false} FirstFree(numbers: seq<int>, used: seq<bool>, x: int, k: nat) returns (i: nat)
    requires |used| == |numbers| && k <= |numbers| && x in Left(numbers, used, k)
    requires forall j :: 0 <= j < k && numbers[j] == x ==> used[j]
    ensures k <= i < |numbers| && !used[i] && numbers[i] == x
    ensures !Skipped(numbers, used, i)
    decreases |numbers| - k
  {
    if !used[k] && numbers[k] == x {
      i := k;
    } else {
      i := FirstFree(numbers, used, x, k + 1);
    }
  }

  /** The search below `result` reaches every completion of `result` by the free numbers. */
  lemma {:induction false} EmitComplete(numbers: seq<int>, used: seq<bool>, result: seq<int>, p: seq<int>)
    requires |used| == |numbers| && |result| <= |numbers| == |p|
    requires p[..|result|] == result && multiset(p[|result|..]) == Left(numbers, used, 0)
    ensures p in Emit(numbers, used, result)
    decreases |numbers| - |result|
  {
    if |result| == |numbers| {
      assert p == p[..|result|];
    } else {
      var k := |result|;
      var x := p[k];
      assert p[k..] == [x] + p[k + 1..];
      var i := FirstFree(numbers, used, x, 0);
      LeftTake(numbers, used, i, 0);
      var next := result + [x];
      assert p[..k + 1] == next;
      assert multiset(p[k..]) == multiset{x} + multiset(p[k + 1..]);
      assert multiset(p[k + 1..]) == multiset(p[k..]) - multiset{x};
      assert Left(numbers, used[i := true], 0) == Left(numbers, used, 0) - multiset{x};
      EmitComplete(numbers, used[i := true], next, p);
      BranchInEmitFrom(numbers, used, result, i, 0);
    }
  }

  lemma {:induction false} BranchInEmitFrom(numbers: seq<int>, used: seq<bool>, result: seq<int>, i: nat, k: nat)
    requires |used| == |numbers| && |result| < |numbers| && k <= i < |numbers|
    ensures forall r :: r in Branch(numbers, used, result, i) ==> r in EmitFrom(numbers, used, result, k)
    decreases i - k
  {
    if k < i {
      BranchInEmitFrom(numbers, used, result, i, k + 1);
    }
  }

  lemma {:induction false} LeftAll(numbers: seq<int>, k: nat)
    requires k <= |numbers|
    ensures Left(numbers, Free(|numbers|), k) == multiset(numbers[k..])
    decreases |numbers| - k
  {
    if k < |numbers| {
      LeftAll(numbers, k + 1);
      assert numbers[k..] == [numbers[k]] + numbers[k + 1..];
    }
  }

  /**
   * The generator's output: exactly the arrangements of the numbers (each
   * sequence with the same multiset of elements) and, when the numbers are
   * sorted, in strictly ascending lexicographic order, so each one once.
   */
  lemma ArrangementsOfNumbers(numbers: seq<int>)
    ensures forall r :: r in Arrangements(numbers) <==> multiset(r) == multiset(numbers)
    ensures Sorted(numbers) ==> Ascending(Arrangements(numbers))
  {
    var free := Free(|numbers|);
    LeftAll(numbers, 0);
    assert numbers[0..] == numbers;
    assert multiset([]) + Left(numbers, free, 0) == multiset(numbers);
    EmitSound(numbers, free, []);
    forall r | multiset(r) == multiset(numbers) ensures r in Arrangements(numbers) {
      assert |r| == |multiset(r)| == |numbers|;
      assert r[0..] == r;
      EmitComplete(numbers, free, [], r);
    }
    if Sorted(numbers) {
      EmitAscending(numbers, free, []);
    }
  }

  /** Ascending sequences repeat nothing. */
  lemma AscendingDistinct(rs: seq<seq<int>>)
    requires Ascending(rs)
    ensures forall p, q :: 0 <= p < q < |rs| ==> rs[p] != rs[q]
  {
    forall p, q | 0 <= p < q < |rs| ensures rs[p] != rs[q] {
      var k :| 0 <= k < |rs[p]| && k < |rs[q]| && rs[p][..k] == rs[q][..k] && rs[p][k] < rs[q][k];
    }
  }
}
