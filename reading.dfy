/**
 * What an infix text means to a reader who knows the usual conventions:
 * parentheses first, then '×' and '÷', then '+' and '-', each level grouping
 * from the left. With the intended grouping the unparser's text reads back as
 * the value of the tree it came from; with the grouping as written it can
 * read as a different number.
 */
module Reading {
  import opened Wrappers
  import opened Tokens
  import opened Numerals
  import opened Infix

  /** The pieces of an infix text. */
  datatype Lexeme = Open | Close | Number(n: int) | OpLex(op: Op)

  function Wrap(ls: seq<Lexeme>): seq<Lexeme> {
    [Open] + ls + [Close]
  }

  function LeftLayout(op: Op, l: Expr, grouped: set<Op>): seq<Lexeme>
    decreases l, 1
  {
    if LeftNeedsParens(op, l) then Wrap(Layout(l, grouped)) else Layout(l, grouped)
  }

  function RightLayout(op: Op, r: Expr, grouped: set<Op>): seq<Lexeme>
    decreases r, 1
  {
    if RightNeedsParens(op, r, grouped) then Wrap(Layout(r, grouped)) else Layout(r, grouped)
  }

  /** The lexemes of `Render(e, grouped)`. */
  function Layout(e: Expr, grouped: set<Op>): seq<Lexeme>
    decreases e, 0
  {
    match e
    case Leaf(n) => [Number(n)]
    case Node(op, l, r) => LeftLayout(op, l, grouped) + [OpLex(op)] + RightLayout(op, r, grouped)
  }

  // ---------------------------------------------------------------------------
  // Spelling lexemes as text

  function Piece(x: Lexeme): string {
    match x
    case Open => "("
    case Close => ")"
    case Number(n) => IntText(n)
    case OpLex(op) => " " + [Symbol(op)] + " "
  }

  function Spell(ls: seq<Lexeme>): string {
    if |ls| == 0 then "" else Piece(ls[0]) + Spell(ls[1..])
  }

  lemma {:induction false} SpellAppend(a: seq<Lexeme>, b: seq<Lexeme>)
    ensures Spell(a + b) == Spell(a) + Spell(b)
  {
    if |a| == 0 {
      assert a + b == b;
    } else {
      assert (a + b)[1..] == a[1..] + b;
      SpellAppend(a[1..], b);
    }
  }

  /** The lexemes spell exactly the text the renderer produces. */
  lemma {:induction false} SpellLayout(e: Expr, grouped: set<Op>)
    ensures Spell(Layout(e, grouped)) == Render(e, grouped)
  {
    match e
    case Leaf(n) =>
      assert Spell([Number(n)]) == IntText(n) + Spell([]);
    case Node(op, l, r) =>
      SpellLayout(l, grouped);
      SpellLayout(r, grouped);
      SpellWrap(Layout(l, grouped));
      SpellWrap(Layout(r, grouped));
      var ll, rl := LeftLayout(op, l, grouped), RightLayout(op, r, grouped);
      var lt := if LeftNeedsParens(op, l) then Paren(Render(l, grouped)) else Render(l, grouped);
      var rt := if RightNeedsParens(op, r, grouped) then Paren(Render(r, grouped)) else Render(r, grouped);
      assert Spell(ll) == lt;
      assert Spell(rl) == rt;
      SpellAppend(ll + [OpLex(op)], rl);
      SpellAppend(ll, [OpLex(op)]);
      OperatorPiece(op);
      InfixedPieces(lt, Symbol(op), rt);
      assert Render(e, grouped) == Infixed(lt, Symbol(op), rt);
  }

  lemma OperatorPiece(op: Op)
    ensures Spell([OpLex(op)]) == " " + [Symbol(op)] + " "
  {
    assert Spell([OpLex(op)]) == Piece(OpLex(op)) + Spell([]);
  }

  lemma InfixedPieces(lt: string, c: char, rt: string)
    ensures Infixed(lt, c, rt) == lt + (" " + [c] + " ") + rt
  {
  }

  lemma SpellWrap(ls: seq<Lexeme>)
    ensures Spell(Wrap(ls)) == Paren(Spell(ls))
  {
    SpellAppend([Open] + ls, [Close]);
    SpellAppend([Open], ls);
    assert Spell([Open]) == "(" + Spell([]);
    assert Spell([Close]) == ")" + Spell([]);
  }

  // ---------------------------------------------------------------------------
  // The reader

  /** A value read so far and the lexemes not yet read. */
  datatype Reading = Reading(value: Option<real>, rest: seq<Lexeme>)

  /** `x op y` when both sides have a value. */
  function Lift(op: Op, x: Option<real>, y: Option<real>): (r: Option<real>)
    ensures r.Some? ==> x.Some? && y.Some?
  {
    if x.Some? && y.Some? then Apply(op, x.value, y.value) else None
  }

  predicate IsOp(s: seq<Lexeme>, level: nat) {
    |s| > 0 && s[0].OpLex? && Prec(s[0].op) == level
  }

  /** A number, or a parenthesized sum. */
  function Atom(s: seq<Lexeme>): (r: Reading)
    ensures |r.rest| <= |s|
    decreases |s|, 0
  {
    if |s| == 0 then Reading(None, s)
    else match s[0]
      case Number(n) => Reading(Some(n as real), s[1..])
      case Open =>
        var inner := Sum(s[1..]);
        if |inner.rest| > 0 && inner.rest[0] == Close then Reading(inner.value, inner.rest[1..])
        else Reading(None, inner.rest)
      case _ => Reading(None, s)
  }

  /** Further `× atom` and `÷ atom`, folded into `acc` from the left. */
  function TermTail(acc: Option<real>, s: seq<Lexeme>): (r: Reading)
    ensures |r.rest| <= |s|
    decreases |s|, 0
  {
    if IsOp(s, 2) then
      var next := Atom(s[1..]);
      TermTail(Lift(s[0].op, acc, next.value), next.rest)
    else Reading(acc, s)
  }

  /** A product or quotient of atoms. */
  function Term(s: seq<Lexeme>): (r: Reading)
    ensures |r.rest| <= |s|
    decreases |s|, 1
  {
    var first := Atom(s);
    TermTail(first.value, first.rest)
  }

  /** Further `+ term` and `- term`, folded into `acc` from the left. */
  function SumTail(acc: Option<real>, s: seq<Lexeme>): (r: Reading)
    ensures |r.rest| <= |s|
    decreases |s|, 1
  {
    if IsOp(s, 1) then
      var next := Term(s[1..]);
      SumTail(Lift(s[0].op, acc, next.value), next.rest)
    else Reading(acc, s)
  }

  /** A sum or difference of terms. */
  function Sum(s: seq<Lexeme>): (r: Reading)
    ensures |r.rest| <= |s|
    decreases |s|, 2
  {
    var first := Term(s);
    SumTail(first.value, first.rest)
  }

  /** The value a whole text reads as; None when it is malformed or divides by zero. */
  function Read(s: seq<Lexeme>): Option<real> {
    var r := Sum(s);
    if r.rest == [] then r.value else None
  }

  // ---------------------------------------------------------------------------
  // Reading back the intended rendering

  /** An operator node of the lower precedence level. */
  predicate Additive(e: Expr) {
    e.Node? && Prec(e.op) == 1
  }

  lemma EvalNode(op: Op, l: Expr, r: Expr)
    ensures Eval(Node(op, l, r)) == Lift(op, Eval(l), Eval(r))
  {
  }

  /** `(a × b) op c == a × (b op c)` for `op` among '×' and '÷', division by zero included. */
  lemma MulRegroup(op: Op, a: Option<real>, b: Option<real>, c: Option<real>)
    requires Prec(op) == 2
    ensures Lift(op, Lift(Mul, a, b), c) == Lift(Mul, a, Lift(op, b, c))
  {
    if a.None? || b.None? || c.None? {
      assert Lift(op, Lift(Mul, a, b), c).None?;
    } else if op == Mul {
      ProductRegroup(a.value, b.value, c.value);
    } else if c.value == 0.0 {
      assert Lift(op, b, c).None?;
    } else {
      QuotientRegroup(a.value, b.value, c.value);
    }
  }

  // The real-number steps are kept in lemmas of their own: with several
  // products in one context the solver no longer finds even the unfolding of
  // `Apply`.

  lemma ProductLeft(x: real, y: real, z: real)
    ensures Apply(Mul, Apply(Mul, x, y).value, z).value == (x * y) * z
  {
  }

  lemma ProductRight(x: real, y: real, z: real)
    ensures Apply(Mul, x, Apply(Mul, y, z).value).value == x * (y * z)
  {
  }

  lemma ProductAssociates(x: real, y: real, z: real)
    ensures (x * y) * z == x * (y * z)
  {
  }

  lemma ProductRegroup(x: real, y: real, z: real)
    ensures Apply(Mul, Apply(Mul, x, y).value, z) == Apply(Mul, x, Apply(Mul, y, z).value)
  {
    ProductLeft(x, y, z);
    ProductRight(x, y, z);
    ProductAssociates(x, y, z);
  }

  lemma QuotientLeft(x: real, y: real, z: real)
    requires z != 0.0
    ensures Apply(Div, Apply(Mul, x, y).value, z).value == (x * y) / z
  {
  }

  lemma QuotientRight(x: real, y: real, z: real)
    requires z != 0.0
    ensures Apply(Mul, x, Apply(Div, y, z).value).value == x * (y / z)
  {
  }

  lemma QuotientOfProduct(x: real, y: real, z: real)
    requires z != 0.0
    ensures (x * y) / z == x * (y / z)
  {
  }

  lemma QuotientRegroup(x: real, y: real, z: real)
    requires z != 0.0
    ensures Apply(Div, Apply(Mul, x, y).value, z) == Apply(Mul, x, Apply(Div, y, z).value)
  {
    QuotientLeft(x, y, z);
    QuotientRight(x, y, z);
    QuotientOfProduct(x, y, z);
  }

  /** `(a + b) op c == a + (b op c)` for `op` among '+' and '-'. */
  lemma AddRegroup(op: Op, a: Option<real>, b: Option<real>, c: Option<real>)
    requires Prec(op) == 1
    ensures Lift(op, Lift(Add, a, b), c) == Lift(Add, a, Lift(op, b, c))
  {
  }

  /** A parenthesized sum is one atom. */
  lemma AtomOfWrap(e: Expr, rest: seq<Lexeme>)
    requires Sum(Layout(e, Intended) + ([Close] + rest)) == Reading(Eval(e), [Close] + rest)
    ensures Atom(Wrap(Layout(e, Intended)) + rest) == Reading(Eval(e), rest)
  {
    var s := Wrap(Layout(e, Intended)) + rest;
    assert s[1..] == Layout(e, Intended) + ([Close] + rest);
    assert ([Close] + rest)[1..] == rest;
  }

  /**
   * Read from the start of a sum, the layout of `e` contributes the value of
   * `e` as the first term, whatever sum follows.
   */
  lemma {:induction false} SumStart(e: Expr, rest: seq<Lexeme>)
    requires !IsOp(rest, 2)
    ensures Sum(Layout(e, Intended) + rest) == SumTail(Eval(e), rest)
    decreases e, if Additive(e) then 0 else 2
  {
    if Additive(e) {
      var Node(op, l, r) := e;
      var more := [OpLex(op)] + RightLayout(op, r, Intended) + rest;
      assert LeftLayout(op, l, Intended) == Layout(l, Intended);
      assert Layout(e, Intended) + rest == Layout(l, Intended) + more;
      SumStart(l, more);
      SumRight(op, r, Eval(l), rest);
      EvalNode(op, l, r);
    } else {
      assert LeftLayout(Mul, e, Intended) == Layout(e, Intended);
      TermStart(e, rest);
    }
  }

  /**
   * Read from the start of a term, the layout of `e` as a left operand of a
   * product contributes the value of `e` as the first factor.
   */
  lemma {:induction false} TermStart(e: Expr, rest: seq<Lexeme>)
    ensures Term(LeftLayout(Mul, e, Intended) + rest) == TermTail(Eval(e), rest)
    decreases e, if Additive(e) then 1 else 0
  {
    var s := LeftLayout(Mul, e, Intended) + rest;
    match e
    case Leaf(n) =>
      assert LeftLayout(Mul, e, Intended) == [Number(n)];
      assert s == [Number(n)] + rest;
      assert s[1..] == rest;
    case Node(op, l, r) =>
      if Additive(e) {
        SumStart(e, [Close] + rest);
        AtomOfWrap(e, rest);
      } else {
        var more := [OpLex(op)] + RightLayout(op, r, Intended) + rest;
        assert LeftLayout(op, l, Intended) == LeftLayout(Mul, l, Intended);
        assert s == LeftLayout(Mul, l, Intended) + more;
        TermStart(l, more);
        TermRight(op, r, Eval(l), rest);
        EvalNode(op, l, r);
      }
  }

  /**
   * After a '×' or '÷', the layout of a right operand `e` multiplies or
   * divides the accumulated value by the value of `e`.
   */
  lemma {:induction false} TermRight(o: Op, e: Expr, acc: Option<real>, rest: seq<Lexeme>)
    requires Prec(o) == 2
    ensures TermTail(acc, [OpLex(o)] + RightLayout(o, e, Intended) + rest) == TermTail(Lift(o, acc, Eval(e)), rest)
    decreases e, 3
  {
    var s := [OpLex(o)] + RightLayout(o, e, Intended) + rest;
    assert s[1..] == RightLayout(o, e, Intended) + rest;
    if RightNeedsParens(o, e, Intended) {
      SumStart(e, [Close] + rest);
      AtomOfWrap(e, rest);
    } else {
      match e
      case Leaf(n) =>
        assert s[1..][1..] == rest;
      case Node(op, l, r) =>
        assert Prec(op) == 2;
        TermRightNode(o, op, l, r, acc, rest);
    }
  }

  /** `TermRight` for a product or quotient written without parentheses. */
  lemma {:induction false} TermRightNode(o: Op, op: Op, l: Expr, r: Expr, acc: Option<real>, rest: seq<Lexeme>)
    requires Prec(o) == 2 && Prec(op) == 2 && !RightNeedsParens(o, Node(op, l, r), Intended)
    ensures TermTail(acc, [OpLex(o)] + RightLayout(o, Node(op, l, r), Intended) + rest) ==
            TermTail(Lift(o, acc, Eval(Node(op, l, r))), rest)
    decreases Node(op, l, r), 2
  {
    var s := [OpLex(o)] + RightLayout(o, Node(op, l, r), Intended) + rest;
    var more := [OpLex(op)] + RightLayout(op, r, Intended) + rest;
    assert o == Mul && Mul !in Intended && Prec(Mul) == 2;
    assert LeftNeedsParens(op, l) == RightNeedsParens(Mul, l, Intended);
    assert LeftLayout(op, l, Intended) == RightLayout(Mul, l, Intended);
    assert RightLayout(o, Node(op, l, r), Intended) ==
           LeftLayout(op, l, Intended) + [OpLex(op)] + RightLayout(op, r, Intended);
    assert s == [OpLex(Mul)] + RightLayout(Mul, l, Intended) + more;
    TermRight(Mul, l, acc, more);
    TermRight(op, r, Lift(Mul, acc, Eval(l)), rest);
    MulRegroup(op, acc, Eval(l), Eval(r));
    EvalNode(op, l, r);
  }

  /**
   * After a '+' or '-', the layout of a right operand `e` adds or subtracts
   * the value of `e`, provided no product continues after it.
   */
  lemma {:induction false} SumRight(o: Op, e: Expr, acc: Option<real>, rest: seq<Lexeme>)
    requires Prec(o) == 1 && !IsOp(rest, 2)
    ensures SumTail(acc, [OpLex(o)] + RightLayout(o, e, Intended) + rest) == SumTail(Lift(o, acc, Eval(e)), rest)
    decreases e, 3
  {
    var s := [OpLex(o)] + RightLayout(o, e, Intended) + rest;
    assert s[1..] == RightLayout(o, e, Intended) + rest;
    if RightNeedsParens(o, e, Intended) || !Additive(e) {
      assert RightLayout(o, e, Intended) == LeftLayout(Mul, e, Intended);
      TermStart(e, rest);
    } else {
      var Node(op, l, r) := e;
      var more := [OpLex(op)] + RightLayout(op, r, Intended) + rest;
      assert LeftLayout(op, l, Intended) == RightLayout(Add, l, Intended);
      assert s == [OpLex(Add)] + RightLayout(Add, l, Intended) + more;
      SumRight(Add, l, acc, more);
      SumRight(op, r, Lift(Add, acc, Eval(l)), rest);
      AddRegroup(op, acc, Eval(l), Eval(r));
      EvalNode(op, l, r);
    }
  }

  /**
   * With '-' and '÷' grouped, the rendering of every tree reads back, under
   * the usual precedence and left-to-right grouping, as the tree's own value
   * (and as no value exactly when the tree divides by zero).
   */
  lemma ReadsBackIntended(e: Expr)
    ensures Spell(Layout(e, Intended)) == Render(e, Intended)
    ensures Read(Layout(e, Intended)) == Eval(e)
  {
    SpellLayout(e, Intended);
    assert Layout(e, Intended) + [] == Layout(e, Intended);
    SumStart(e, []);
  }

  // ---------------------------------------------------------------------------
  // The grouping as written

  /** `(8 ÷ (1 ÷ 3)) × 1`, a solution for the numbers 1, 1, 3 and 8. */
  const EightOverAThird: Expr := Node(Mul, Node(Div, Leaf(8), Node(Div, Leaf(1), Leaf(3))), Leaf(1))

  /**
   * With only '-' grouped, the text printed for a tree worth 24 reads as
   * 8/3; with '÷' grouped as well it keeps its parentheses.
   */
  lemma AsWrittenMisreads()
    ensures Eval(EightOverAThird) == Some(24.0)
    ensures Render(EightOverAThird, AsWritten) == "8 ÷ 1 ÷ 3 × 1"
    ensures Layout(EightOverAThird, AsWritten) ==
            [Number(8), OpLex(Div), Number(1), OpLex(Div), Number(3), OpLex(Mul), Number(1)]
    ensures Read(Layout(EightOverAThird, AsWritten)) == Some(8.0 / 3.0)
    ensures Render(EightOverAThird, Intended) == "8 ÷ (1 ÷ 3) × 1"
  {
    EightOverAThirdValue();
    EightOverAThirdLayout();
    FlatReading();
    EightOverAThirdTexts();
  }

  lemma EightOverAThirdValue()
    ensures Eval(EightOverAThird) == Some(24.0)
  {
    var third := Node(Div, Leaf(1), Leaf(3));
    assert Eval(third) == Some(1.0 / 3.0);
    assert Eval(Node(Div, Leaf(8), third)) == Some(24.0);
  }

  lemma EightOverAThirdLayout()
    ensures Layout(EightOverAThird, AsWritten) ==
            [Number(8), OpLex(Div), Number(1), OpLex(Div), Number(3), OpLex(Mul), Number(1)]
  {
    var third := Node(Div, Leaf(1), Leaf(3));
    assert Layout(third, AsWritten) == [Number(1), OpLex(Div), Number(3)];
    assert Layout(Node(Div, Leaf(8), third), AsWritten) == [Number(8), OpLex(Div), Number(1), OpLex(Div), Number(3)];
  }

  /** `8 ÷ 1 ÷ 3 × 1` groups from the left. */
  lemma FlatReading()
    ensures Read([Number(8), OpLex(Div), Number(1), OpLex(Div), Number(3), OpLex(Mul), Number(1)]) == Some(8.0 / 3.0)
  {
    var ls := [Number(8), OpLex(Div), Number(1), OpLex(Div), Number(3), OpLex(Mul), Number(1)];
    assert TermTail(Some(8.0 / 3.0), ls[5..]) == Reading(Some(8.0 / 3.0), []);
    assert TermTail(Some(8.0), ls[3..]) == TermTail(Some(8.0 / 3.0), ls[5..]);
    assert TermTail(Some(8.0), ls[1..]) == TermTail(Some(8.0), ls[3..]);
    assert Term(ls) == Reading(Some(8.0 / 3.0), []);
    assert Sum(ls) == SumTail(Some(8.0 / 3.0), []) == Reading(Some(8.0 / 3.0), []);
  }

  lemma EightOverAThirdTexts()
    ensures Render(EightOverAThird, AsWritten) == "8 ÷ 1 ÷ 3 × 1"
    ensures Render(EightOverAThird, Intended) == "8 ÷ (1 ÷ 3) × 1"
  {
    Digits();
    var third := Node(Div, Leaf(1), Leaf(3));
    ThirdText(AsWritten);
    ThirdText(Intended);
    assert Render(Node(Div, Leaf(8), third), AsWritten) == Infixed("8", '÷', "1 ÷ 3") == "8 ÷ 1 ÷ 3";
    assert Render(Node(Div, Leaf(8), third), Intended) == Infixed("8", '÷', "(1 ÷ 3)") == "8 ÷ (1 ÷ 3)";
    TimesOneText(AsWritten, "8 ÷ 1 ÷ 3");
    TimesOneText(Intended, "8 ÷ (1 ÷ 3)");
  }

  lemma Digits()
    ensures IntText(1) == "1" && IntText(3) == "3" && IntText(8) == "8"
  {
  }

  lemma ThirdText(grouped: set<Op>)
    requires IntText(1) == "1" && IntText(3) == "3"
    ensures Render(Node(Div, Leaf(1), Leaf(3)), grouped) == "1 ÷ 3"
  {
    assert Infixed("1", '÷', "3") == "1 ÷ 3";
  }

  lemma TimesOneText(grouped: set<Op>, quotient: string)
    requires IntText(1) == "1" && IntText(3) == "3" && IntText(8) == "8"
    requires Render(Node(Div, Leaf(8), Node(Div, Leaf(1), Leaf(3))), grouped) == quotient
    ensures Render(EightOverAThird, grouped) == quotient + " × 1"
  {
    assert Infixed(quotient, '×', "1") == quotient + " × 1";
  }
}
