/**
 * The table `RPN_PATTERNS` (src/solver.js:28-63): thirty postfix layouts of
 * four numbers and three operators, and the substitution of a number
 * ordering and an operator triple into a layout (line 96).
 */
module Patterns {
  import opened Tokens
  import opened Postfix

  /**
   * Slots 0-3 stand for the numbers a, b, c, d of a number ordering, slots
   * 4-6 for op1, op2, op3 of an operator triple. Five tree shapes, each with
   * six operator orders.
   */
  const RpnPatterns: seq<seq<nat>> := [
    [0, 1, 4, 2, 5, 3, 6], [0, 1, 4, 2, 6, 3, 5], [0, 1, 5, 2, 4, 3, 6],
    [0, 1, 5, 2, 6, 3, 4], [0, 1, 6, 2, 4, 3, 5], [0, 1, 6, 2, 5, 3, 4],

    [0, 1, 4, 2, 3, 6, 5], [0, 1, 4, 2, 3, 5, 6], [0, 1, 5, 2, 3, 6, 4],
    [0, 1, 5, 2, 3, 4, 6], [0, 1, 6, 2, 3, 5, 4], [0, 1, 6, 2, 3, 4, 5],

    [0, 1, 2, 5, 4, 3, 6], [0, 1, 2, 6, 4, 3, 5], [0, 1, 2, 4, 5, 3, 6],
    [0, 1, 2, 6, 5, 3, 4], [0, 1, 2, 4, 5, 3, 6], [0, 1, 2, 5, 6, 3, 4],

    [0, 1, 2, 5, 3, 6, 4], [0, 1, 2, 6, 3, 5, 4], [0, 1, 2, 4, 3, 6, 5],
    [0, 1, 2, 6, 3, 4, 5], [0, 1, 2, 4, 3, 5, 6], [0, 1, 2, 5, 3, 4, 6],

    [0, 1, 2, 3, 6, 5, 4], [0, 1, 2, 3, 5, 6, 4], [0, 1, 2, 3, 6, 4, 5],
    [0, 1, 2, 3, 4, 6, 5], [0, 1, 2, 3, 5, 4, 6], [0, 1, 2, 3, 4, 5, 6]
  ]

  // ---------------------------------------------------------------------------
  // What makes a layout valid

  /**
   * From position `k`, with `d` values on the stack, every operator slot finds
   * two operands and exactly one value remains at the end.
   */
  predicate DepthFrom(p: seq<nat>, k: nat, d: nat)
    requires k <= |p|
    decreases |p| - k
  {
    if k == |p| then d == 1
    else if p[k] < 4 then DepthFrom(p, k + 1, d + 1)
    else d >= 2 && DepthFrom(p, k + 1, d - 1)
  }

  /**
   * From position `k` on, the number slots are `n`, `n + 1`, .., 3 in this
   * order and the operator slots are the slots of `pending`, each once.
   */
  predicate SlotsFrom(p: seq<nat>, k: nat, n: nat, pending: set<nat>)
    requires k <= |p|
    decreases |p| - k
  {
    if k == |p| then n == 4 && pending == {}
    else if p[k] < 4 then p[k] == n && SlotsFrom(p, k + 1, n + 1, pending)
    else p[k] in pending && SlotsFrom(p, k + 1, n, pending - {p[k]})
  }

  /**
   * A layout of seven slots: a valid postfix shape with the numbers a, b, c, d
   * from left to right and each of op1, op2, op3 once.
   */
  predicate Valid(p: seq<nat>) {
    |p| == 7 && DepthFrom(p, 0, 0) && SlotsFrom(p, 0, 0, {4, 5, 6})
  }

  // Each row checked against its literal layout, three rows at a time, in
  // the table's five shapes: ((a b) c) d, (a b) (c d), (a (b c)) d,
  // a ((b c) d) and a (b (c d)).

  lemma ShapeLeftCombFirst(i: nat)
    requires 0 <= i < 3
    ensures Valid(RpnPatterns[i])
  {
    if i == 0 { assert RpnPatterns[0] == [0, 1, 4, 2, 5, 3, 6]; assert Valid([0, 1, 4, 2, 5, 3, 6]); }
    else if i == 1 { assert RpnPatterns[1] == [0, 1, 4, 2, 6, 3, 5]; assert Valid([0, 1, 4, 2, 6, 3, 5]); }
    else { assert RpnPatterns[2] == [0, 1, 5, 2, 4, 3, 6]; assert Valid([0, 1, 5, 2, 4, 3, 6]); }
  }

  lemma ShapeLeftCombLast(i: nat)
    requires 3 <= i < 6
    ensures Valid(RpnPatterns[i])
  {
    if i == 3 { assert RpnPatterns[3] == [0, 1, 5, 2, 6, 3, 4]; assert Valid([0, 1, 5, 2, 6, 3, 4]); }
    else if i == 4 { assert RpnPatterns[4] == [0, 1, 6, 2, 4, 3, 5]; assert Valid([0, 1, 6, 2, 4, 3, 5]); }
    else { assert RpnPatterns[5] == [0, 1, 6, 2, 5, 3, 4]; assert Valid([0, 1, 6, 2, 5, 3, 4]); }
  }

  lemma ShapeBalancedFirst(i: nat)
    requires 6 <= i < 9
    ensures Valid(RpnPatterns[i])
  {
    if i == 6 { assert RpnPatterns[6] == [0, 1, 4, 2, 3, 6, 5]; assert Valid([0, 1, 4, 2, 3, 6, 5]); }
    else if i == 7 { assert RpnPatterns[7] == [0, 1, 4, 2, 3, 5, 6]; assert Valid([0, 1, 4, 2, 3, 5, 6]); }
    else { assert RpnPatterns[8] == [0, 1, 5, 2, 3, 6, 4]; assert Valid([0, 1, 5, 2, 3, 6, 4]); }
  }

  lemma ShapeBalancedLast(i: nat)
    requires 9 <= i < 12
    ensures Valid(RpnPatterns[i])
  {
    if i == 9 { assert RpnPatterns[9] == [0, 1, 5, 2, 3, 4, 6]; assert Valid([0, 1, 5, 2, 3, 4, 6]); }
    else if i == 10 { assert RpnPatterns[10] == [0, 1, 6, 2, 3, 5, 4]; assert Valid([0, 1, 6, 2, 3, 5, 4]); }
    else { assert RpnPatterns[11] == [0, 1, 6, 2, 3, 4, 5]; assert Valid([0, 1, 6, 2, 3, 4, 5]); }
  }

  lemma ShapeInnerRightFirst(i: nat)
    requires 12 <= i < 15
    ensures Valid(RpnPatterns[i])
  {
    if i == 12 { assert RpnPatterns[12] == [0, 1, 2, 5, 4, 3, 6]; assert Valid([0, 1, 2, 5, 4, 3, 6]); }
    else if i == 13 { assert RpnPatterns[13] == [0, 1, 2, 6, 4, 3, 5]; assert Valid([0, 1, 2, 6, 4, 3, 5]); }
    else { assert RpnPatterns[14] == [0, 1, 2, 4, 5, 3, 6]; assert Valid([0, 1, 2, 4, 5, 3, 6]); }
  }

  lemma ShapeInnerRightLast(i: nat)
    requires 15 <= i < 18
    ensures Valid(RpnPatterns[i])
  {
    if i == 15 { assert RpnPatterns[15] == [0, 1, 2, 6, 5, 3, 4]; assert Valid([0, 1, 2, 6, 5, 3, 4]); }
    else if i == 16 { assert RpnPatterns[16] == [0, 1, 2, 4, 5, 3, 6]; assert Valid([0, 1, 2, 4, 5, 3, 6]); }
    else { assert RpnPatterns[17] == [0, 1, 2, 5, 6, 3, 4]; assert Valid([0, 1, 2, 5, 6, 3, 4]); }
  }

  lemma ShapeOuterRightFirst(i: nat)
    requires 18 <= i < 21
    ensures Valid(RpnPatterns[i])
  {
    if i == 18 { assert RpnPatterns[18] == [0, 1, 2, 5, 3, 6, 4]; assert Valid([0, 1, 2, 5, 3, 6, 4]); }
    else if i == 19 { assert RpnPatterns[19] == [0, 1, 2, 6, 3, 5, 4]; assert Valid([0, 1, 2, 6, 3, 5, 4]); }
    else { assert RpnPatterns[20] == [0, 1, 2, 4, 3, 6, 5]; assert Valid([0, 1, 2, 4, 3, 6, 5]); }
  }

  lemma ShapeOuterRightLast(i: nat)
    requires 21 <= i < 24
    ensures Valid(RpnPatterns[i])
  {
    if i == 21 { assert RpnPatterns[21] == [0, 1, 2, 6, 3, 4, 5]; assert Valid([0, 1, 2, 6, 3, 4, 5]); }
    else if i == 22 { assert RpnPatterns[22] == [0, 1, 2, 4, 3, 5, 6]; assert Valid([0, 1, 2, 4, 3, 5, 6]); }
    else { assert RpnPatterns[23] == [0, 1, 2, 5, 3, 4, 6]; assert Valid([0, 1, 2, 5, 3, 4, 6]); }
  }

  lemma ShapeRightCombFirst(i: nat)
    requires 24 <= i < 27
    ensures Valid(RpnPatterns[i])
  {
    if i == 24 { assert RpnPatterns[24] == [0, 1, 2, 3, 6, 5, 4]; assert Valid([0, 1, 2, 3, 6, 5, 4]); }
    else if i == 25 { assert RpnPatterns[25] == [0, 1, 2, 3, 5, 6, 4]; assert Valid([0, 1, 2, 3, 5, 6, 4]); }
    else { assert RpnPatterns[26] == [0, 1, 2, 3, 6, 4, 5]; assert Valid([0, 1, 2, 3, 6, 4, 5]); }
  }

  lemma ShapeRightCombLast(i: nat)
    requires 27 <= i < 30
    ensures Valid(RpnPatterns[i])
  {
    if i == 27 { assert RpnPatterns[27] == [0, 1, 2, 3, 4, 6, 5]; assert Valid([0, 1, 2, 3, 4, 6, 5]); }
    else if i == 28 { assert RpnPatterns[28] == [0, 1, 2, 3, 5, 4, 6]; assert Valid([0, 1, 2, 3, 5, 4, 6]); }
    else { assert RpnPatterns[29] == [0, 1, 2, 3, 4, 5, 6]; assert Valid([0, 1, 2, 3, 4, 5, 6]); }
  }

  /** Every row of the table is a valid layout. */
  lemma TableIsValid()
    ensures |RpnPatterns| == 30
    ensures forall i :: 0 <= i < |RpnPatterns| ==> Valid(RpnPatterns[i])
  {
    forall i | 0 <= i < |RpnPatterns|
      ensures Valid(RpnPatterns[i])
    {
      if i < 3 { ShapeLeftCombFirst(i); }
      else if i < 6 { ShapeLeftCombLast(i); }
      else if i < 9 { ShapeBalancedFirst(i); }
      else if i < 12 { ShapeBalancedLast(i); }
      else if i < 15 { ShapeInnerRightFirst(i); }
      else if i < 18 { ShapeInnerRightLast(i); }
      else if i < 21 { ShapeOuterRightFirst(i); }
      else if i < 24 { ShapeOuterRightLast(i); }
      else if i < 27 { ShapeRightCombFirst(i); }
      else { ShapeRightCombLast(i); }
    }
  }

  /**
   * The rows at lines 45 and 47 are the same layout, and no other two rows
   * coincide: the table holds 29 distinct layouts.
   */
  lemma OnlyDuplicateRows()
    ensures RpnPatterns[14] == RpnPatterns[16]
    ensures forall i, j :: 0 <= i < j < |RpnPatterns| && RpnPatterns[i] == RpnPatterns[j] ==> i == 14 && j == 16
  {
    RowsApart0To2();
    RowsApart3To5();
    RowsApart6To11();
    RowsApart12To17();
    RowsApart18To29();
  }

  // The pairwise comparison, split by the first row of the pair.

  lemma RowsApart0To2()
    ensures forall i, j :: 0 <= i < 3 && i < j < |RpnPatterns| && RpnPatterns[i] == RpnPatterns[j] ==> i == 14 && j == 16
  {
  }

  lemma RowsApart3To5()
    ensures forall i, j :: 3 <= i < 6 && i < j < |RpnPatterns| && RpnPatterns[i] == RpnPatterns[j] ==> i == 14 && j == 16
  {
  }

  lemma RowsApart6To11()
    ensures forall i, j :: 6 <= i < 12 && i < j < |RpnPatterns| && RpnPatterns[i] == RpnPatterns[j] ==> i == 14 && j == 16
  {
  }

  lemma RowsApart12To17()
    ensures forall i, j :: 12 <= i < 18 && i < j < |RpnPatterns| && RpnPatterns[i] == RpnPatterns[j] ==> i == 14 && j == 16
  {
  }

  lemma RowsApart18To29()
    ensures forall i, j :: 18 <= i < 30 && i < j < |RpnPatterns| && RpnPatterns[i] == RpnPatterns[j] ==> i == 14 && j == 16
  {
  }

  // ---------------------------------------------------------------------------
  // Each slot exactly once

  /** The number slots `n` .. 3. */
  function NumberSlotsFrom(n: nat): multiset<nat>
    decreases 4 - n
  {
    if n >= 4 then multiset{} else multiset{n} + NumberSlotsFrom(n + 1)
  }

  lemma {:induction false} SlotsCount(p: seq<nat>, k: nat, n: nat, pending: set<nat>)
    requires k <= |p| && SlotsFrom(p, k, n, pending)
    ensures multiset(p[k..]) == NumberSlotsFrom(n) + multiset(pending)
    decreases |p| - k
  {
    if k < |p| {
      assert p[k..] == [p[k]] + p[k + 1..];
      if p[k] < 4 {
        SlotsCount(p, k + 1, n + 1, pending);
      } else {
        SlotsCount(p, k + 1, n, pending - {p[k]});
        assert pending == (pending - {p[k]}) + {p[k]};
      }
    } else {
      assert p[k..] == [];
    }
  }

  /** A valid layout holds each of the slots 0 .. 6 exactly once. */
  lemma EachSlotOnce(p: seq<nat>)
    requires Valid(p)
    ensures multiset(p) == multiset{0, 1, 2, 3, 4, 5, 6}
  {
    SlotsCount(p, 0, 0, {4, 5, 6});
    assert p[0..] == p;
  }

  // ---------------------------------------------------------------------------
  // Substituting numbers and operators into a layout

  /** Every slot names a number of the ordering or an operator of the triple. */
  predicate InRange(p: seq<nat>) {
    forall k :: 0 <= k < |p| ==> p[k] < 7
  }

  /** Line 96: slot `i` becomes `perm[i]` below 4 and `triple[i - 4]` from 4 on. */
  function Instantiate(p: seq<nat>, perm: seq<int>, triple: seq<char>): (tokens: seq<Token>)
    requires InRange(p) && |perm| == 4 && |triple| == 3
    ensures |tokens| == |p|
  {
    seq(|p|, k requires 0 <= k < |p| => if p[k] < 4 then Num(perm[p[k]]) else Sym(triple[p[k] - 4]))
  }

  /** The numbers of a token sequence, in order. */
  function Numbers(tokens: seq<Token>): seq<int> {
    if |tokens| == 0 then []
    else (if tokens[0].Num? then [tokens[0].value] else []) + Numbers(tokens[1..])
  }

  /** The operator symbols of a token sequence, in order. */
  function Symbols(tokens: seq<Token>): seq<char> {
    if |tokens| == 0 then []
    else (if tokens[0].Sym? then [tokens[0].symbol] else []) + Symbols(tokens[1..])
  }

  lemma {:induction false} SlotsInRange(p: seq<nat>, k: nat, n: nat, pending: set<nat>)
    requires k <= |p| && SlotsFrom(p, k, n, pending) && pending <= {4, 5, 6}
    ensures forall j :: k <= j < |p| ==> p[j] < 7
    decreases |p| - k
  {
    if k < |p| {
      SlotsInRange(p, k + 1, if p[k] < 4 then n + 1 else n, if p[k] < 4 then pending else pending - {p[k]});
    }
  }

  lemma ValidInRange(p: seq<nat>)
    requires Valid(p)
    ensures InRange(p)
  {
    SlotsInRange(p, 0, 0, {4, 5, 6});
  }

  /** The operators of a triple named by a set of operator slots. */
  function OperatorsOf(triple: seq<char>, slots: set<nat>): multiset<char>
    requires |triple| == 3 && slots <= {4, 5, 6}
  {
    (if 4 in slots then multiset{triple[0]} else multiset{}) +
    (if 5 in slots then multiset{triple[1]} else multiset{}) +
    (if 6 in slots then multiset{triple[2]} else multiset{})
  }

  lemma OperatorsOfRemove(triple: seq<char>, slots: set<nat>, v: nat)
    requires |triple| == 3 && slots <= {4, 5, 6} && v in slots
    ensures OperatorsOf(triple, slots) == multiset{triple[v - 4]} + OperatorsOf(triple, slots - {v})
  {
    assert v == 4 || v == 5 || v == 6;
    var rest := slots - {v};
    var a := if 4 in slots then multiset{triple[0]} else multiset{};
    var b := if 5 in slots then multiset{triple[1]} else multiset{};
    var c := if 6 in slots then multiset{triple[2]} else multiset{};
    var none: multiset<char> := multiset{};
    assert OperatorsOf(triple, slots) == a + b + c;
    UnionMoved(a, b, c);
    if v == 4 {
      assert OperatorsOf(triple, rest) == none + b + c;
      assert a == multiset{triple[0]};
    } else if v == 5 {
      assert OperatorsOf(triple, rest) == a + none + c;
      assert b == multiset{triple[1]};
    } else {
      assert OperatorsOf(triple, rest) == a + b + none;
      assert c == multiset{triple[2]};
    }
  }

  /** Any one of three parts can be moved to the front of the union. */
  lemma UnionMoved<T>(x: multiset<T>, y: multiset<T>, z: multiset<T>)
    ensures x + y + z == x + (multiset{} + y + z)
    ensures x + y + z == y + (x + multiset{} + z)
    ensures x + y + z == z + (x + y + multiset{})
  {
  }

  /** All three operator slots name the whole triple. */
  lemma OperatorsOfAll(triple: seq<char>)
    requires |triple| == 3
    ensures OperatorsOf(triple, {4, 5, 6}) == multiset(triple)
  {
    assert 4 in {4, 5, 6} && 5 in {4, 5, 6} && 6 in {4, 5, 6};
    calc {
      multiset(triple);
      { assert triple == [triple[0]] + [triple[1]] + [triple[2]]; }
      multiset([triple[0]] + [triple[1]] + [triple[2]]);
      multiset{triple[0]} + multiset{triple[1]} + multiset{triple[2]};
    }
  }

  lemma {:induction false} InstanceNumbers(p: seq<nat>, perm: seq<int>, triple: seq<char>, k: nat, n: nat, pending: set<nat>)
    requires InRange(p) && |perm| == 4 && |triple| == 3 && k <= |p|
    requires SlotsFrom(p, k, n, pending)
    ensures n <= 4
    ensures Numbers(Instantiate(p, perm, triple)[k..]) == perm[n..]
    decreases |p| - k
  {
    var tokens := Instantiate(p, perm, triple);
    if k == |p| {
      assert tokens[k..] == [];
    } else {
      var tail := tokens[k..];
      assert tail[1..] == tokens[k + 1..];
      assert Numbers(tail) == (if tokens[k].Num? then [tokens[k].value] else []) + Numbers(tokens[k + 1..]);
      if p[k] < 4 {
        InstanceNumbers(p, perm, triple, k + 1, n + 1, pending);
        assert perm[n..] == [perm[n]] + perm[n + 1..];
      } else {
        InstanceNumbers(p, perm, triple, k + 1, n, pending - {p[k]});
      }
    }
  }

  lemma {:induction false} InstanceSymbols(p: seq<nat>, perm: seq<int>, triple: seq<char>, k: nat, n: nat, pending: set<nat>)
    requires InRange(p) && |perm| == 4 && |triple| == 3 && k <= |p|
    requires SlotsFrom(p, k, n, pending) && pending <= {4, 5, 6}
    ensures multiset(Symbols(Instantiate(p, perm, triple)[k..])) == OperatorsOf(triple, pending)
    decreases |p| - k
  {
    var tokens := Instantiate(p, perm, triple);
    if k == |p| {
      assert tokens[k..] == [];
    } else {
      var tail := tokens[k..];
      assert tail[1..] == tokens[k + 1..];
      assert Symbols(tail) == (if tokens[k].Sym? then [tokens[k].symbol] else []) + Symbols(tokens[k + 1..]);
      if p[k] < 4 {
        InstanceSymbols(p, perm, triple, k + 1, n + 1, pending);
      } else {
        var rest := pending - {p[k]};
        InstanceSymbols(p, perm, triple, k + 1, n, rest);
        OperatorsOfRemove(triple, pending, p[k]);
      }
    }
  }

  /**
   * Substituted into a valid layout, an ordering of four numbers and a triple
   * of operator keys give a well-formed postfix sequence that holds the four
   * numbers in the ordering's order and each operator of the triple once.
   */
  lemma {:induction false} InstanceOfValid(p: seq<nat>, perm: seq<int>, triple: seq<char>)
    requires Valid(p) && |perm| == 4 && |triple| == 3
    requires forall j :: 0 <= j < 3 ==> triple[j] in Precedence
    ensures InRange(p)
    ensures WellFormed(Instantiate(p, perm, triple))
    ensures Numbers(Instantiate(p, perm, triple)) == perm
    ensures multiset(Symbols(Instantiate(p, perm, triple))) == multiset(triple)
  {
    ValidInRange(p);
    var tokens := Instantiate(p, perm, triple);
    InstanceNumbers(p, perm, triple, 0, 0, {4, 5, 6});
    InstanceSymbols(p, perm, triple, 0, 0, {4, 5, 6});
    InstanceFits(p, perm, triple, 0, 0);
    OperatorsOfAll(triple);
    assert tokens[0..] == tokens;
  }

  lemma {:induction false} InstanceFits(p: seq<nat>, perm: seq<int>, triple: seq<char>, k: nat, d: nat)
    requires InRange(p) && |perm| == 4 && |triple| == 3 && k <= |p|
    requires forall j :: 0 <= j < 3 ==> triple[j] in Precedence
    requires DepthFrom(p, k, d)
    ensures FitsFrom(Instantiate(p, perm, triple)[k..], d)
    decreases |p| - k
  {
    var tokens := Instantiate(p, perm, triple);
    if k < |p| {
      assert tokens[k..][1..] == tokens[k + 1..];
      InstanceFits(p, perm, triple, k + 1, if p[k] < 4 then d + 1 else d - 1);
    }
  }

  /**
   * A substituted row is a well-formed sequence holding the ordering's
   * numbers in order and the triple's operators, and it is never rejected for
   * a stack underflow or a leftover stack: only for a zero divisor or a value
   * away from 24.
   */
  lemma RowRejection(i: nat, perm: seq<int>, triple: seq<char>)
    requires 0 <= i < |RpnPatterns| && |perm| == 4 && |triple| == 3
    requires forall j :: 0 <= j < 3 ==> triple[j] in Precedence
    ensures InRange(RpnPatterns[i])
    ensures var tokens := Instantiate(RpnPatterns[i], perm, triple);
            WellFormed(tokens) && Numbers(tokens) == perm && multiset(Symbols(tokens)) == multiset(triple) &&
            Parse(tokens).Some? &&
            (!Accepts(tokens) <==> Eval(Parse(tokens).value).None? || !Near24(Eval(Parse(tokens).value).value))
  {
    TableIsValid();
    InstanceOfValid(RpnPatterns[i], perm, triple);
    WellFormedRejection(Instantiate(RpnPatterns[i], perm, triple));
  }

  // ---------------------------------------------------------------------------
  // The repeated row

  /**
   * The layout the comment of line 47 names, `(a op3 (b op1 c)) op2 d`; the
   * table holds a second copy of line 45 in its place.
   */
  const IntendedRow: seq<nat> := [0, 1, 2, 4, 6, 3, 5]

  /** The table with line 47 holding the layout its comment names. */
  const CorrectedPatterns: seq<seq<nat>> := RpnPatterns[16 := IntendedRow]

  /** The corrected table holds 30 valid layouts, no two alike. */
  lemma CorrectedTableDistinct()
    ensures |CorrectedPatterns| == 30
    ensures forall i :: 0 <= i < 30 ==> Valid(CorrectedPatterns[i])
    ensures forall i, j :: 0 <= i < j < 30 ==> CorrectedPatterns[i] != CorrectedPatterns[j]
  {
    TableIsValid();
    assert Valid(IntendedRow);
    forall i | 0 <= i < 30 ensures Valid(CorrectedPatterns[i]) {
      if i != 16 {
        assert CorrectedPatterns[i] == RpnPatterns[i];
      }
    }
    OnlyDuplicateRows();
    IntendedRowNew();
    forall i, j | 0 <= i < j < 30 ensures CorrectedPatterns[i] != CorrectedPatterns[j] {
      if j == 16 {
        assert CorrectedPatterns[i] == RpnPatterns[i];
      } else if i == 16 {
        assert CorrectedPatterns[j] == RpnPatterns[j];
      } else {
        assert CorrectedPatterns[i] == RpnPatterns[i] && CorrectedPatterns[j] == RpnPatterns[j];
      }
    }
  }

  /** The layout the comment names appears nowhere in the table as written. */
  lemma IntendedRowNew()
    ensures forall k :: 0 <= k < |RpnPatterns| ==> RpnPatterns[k] != IntendedRow
  {
  }

  /**
   * The missing layout costs no candidate: filled with a triple it gives what
   * the layout of line 43 gives with the same operators rotated, and the
   * generator tries every triple.
   */
  lemma IntendedRowCovered(perm: seq<int>, triple: seq<char>)
    requires |perm| == 4 && |triple| == 3
    ensures InRange(IntendedRow) && InRange(RpnPatterns[12])
    ensures Instantiate(IntendedRow, perm, triple) == Instantiate(RpnPatterns[12], perm, [triple[2], triple[0], triple[1]])
  {
    ValidInRange(IntendedRow);
    TableIsValid();
    ValidInRange(RpnPatterns[12]);
  }

  /**
   * What line 47 changes is the order within a block: with the numbers
   * 1, 2, 3, 4 and the operators + - ×, the seventeenth sequence of the block
   * repeats the fifteenth, `1 2 3 + - 4 ×`, where the layout its comment names
   * gives `1 2 3 + × 4 -`.
   */
  lemma Line47Reorders()
    ensures InRange(RpnPatterns[14]) && InRange(RpnPatterns[16]) && InRange(IntendedRow)
    ensures Instantiate(RpnPatterns[16], [1, 2, 3, 4], ['+', '-', '×']) ==
            Instantiate(RpnPatterns[14], [1, 2, 3, 4], ['+', '-', '×']) ==
            [Num(1), Num(2), Num(3), Sym('+'), Sym('-'), Num(4), Sym('×')]
    ensures Instantiate(IntendedRow, [1, 2, 3, 4], ['+', '-', '×']) ==
            [Num(1), Num(2), Num(3), Sym('+'), Sym('×'), Num(4), Sym('-')]
  {
    TableIsValid();
    ValidInRange(RpnPatterns[14]);
    ValidInRange(RpnPatterns[16]);
    ValidInRange(IntendedRow);
    OnlyDuplicateRows();
  }

  /** The layouts of lines 43 and 45 differ only in the order of op1 and op2. */
  lemma InnerOperatorsSwapped(perm: seq<int>, triple: seq<char>)
    requires |perm| == 4 && |triple| == 3
    ensures InRange(RpnPatterns[12]) && InRange(RpnPatterns[14])
    ensures Instantiate(RpnPatterns[12], perm, triple) == Instantiate(RpnPatterns[14], perm, [triple[1], triple[0], triple[2]])
  {
    TableIsValid();
    ValidInRange(RpnPatterns[12]);
    ValidInRange(RpnPatterns[14]);
  }
}
