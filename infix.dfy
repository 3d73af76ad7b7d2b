/**
 * The unparser `rpnToInfix` (src/solver.js:185-217): a stack of
 * (text, operator, precedence) frames, proved equal to a recursive rendering
 * of the expression tree with minimal parentheses.
 */
module Infix {
  import opened Wrappers
  import opened Tokens
  import opened Postfix
  import opened Numerals

  /** A frame's precedence: an operator's level, or `Infinity` for a number. */
  datatype Rank = Level(n: nat) | Infinity

  /** `{ expression, operator, precedence }`; a number has operator `null`. */
  datatype Frame = Frame(expression: string, operator: Option<char>, precedence: Rank)

  /** `rank < p`; `Infinity` is below nothing. */
  predicate Lower(rank: Rank, p: nat) {
    rank.Level? && rank.n < p
  }

  function Paren(s: string): string {
    "(" + s + ")"
  }

  // ---------------------------------------------------------------------------
  // `[left, right].sort()` with no comparator

  /** JavaScript's `String(object)` for a plain object such as a frame. */
  function ObjectText(f: Frame): string {
    "[object Object]"
  }

  /** Comparison of strings by UTF-16 code units, as the default sort does. */
  predicate CodeUnitLess(a: string, b: string) {
    if |a| == 0 then |b| > 0
    else if |b| == 0 then false
    else if a[0] != b[0] then a[0] < b[0]
    else CodeUnitLess(a[1..], b[1..])
  }

  /** No string sorts strictly before itself. */
  lemma {:induction false} CodeUnitLessIrreflexive(s: string)
    ensures !CodeUnitLess(s, s)
  {
    if |s| > 0 {
      CodeUnitLessIrreflexive(s[1..]);
    }
  }

  /** The stable default sort of a two-element array of frames. */
  function SortPair(left: Frame, right: Frame): (Frame, Frame) {
    if CodeUnitLess(ObjectText(right), ObjectText(left)) then (right, left) else (left, right)
  }

  /**
   * Line 198 never reorders: both frames print as the same string, so the
   * stable sort keeps them where they are.
   */
  lemma SortPairKeepsOrder(left: Frame, right: Frame)
    ensures SortPair(left, right) == (left, right)
  {
    CodeUnitLessIrreflexive("[object Object]");
  }

  // ---------------------------------------------------------------------------
  // The frame machine

  /** Lines 195-213: the frame an operator token makes of the two popped frames. */
  function Combine(token: char, left: Frame, right: Frame): Frame
    requires token in Precedence
  {
    var (l, r) := if token == '+' || token == '*' then SortPair(left, right) else (left, right);
    var current := Precedence[token];
    var leftText :=
      if l.operator.Some? && Lower(l.precedence, current) then Paren(l.expression) else l.expression;
    var rightText :=
      if r.operator.Some? &&
         (Lower(r.precedence, current) || (r.precedence == Level(current) && (token == '-' || token == '/')))
      then Paren(r.expression) else r.expression;
    Frame(leftText + " " + [token] + " " + rightText, Some(token), Level(current))
  }

  /** The frame a number token pushes (lines 188-193). */
  function NumberFrame(n: int): Frame {
    Frame(IntText(n), None, Infinity)
  }

  /** One token on the frame stack (top at the end). */
  function FrameStep(frames: seq<Frame>, t: Token): seq<Frame>
    requires t.Num? || (t.symbol in Precedence && |frames| >= 2)
  {
    match t
    case Num(n) => frames + [NumberFrame(n)]
    case Sym(c) =>
      var k := |frames|;
      frames[..k - 2] + [Combine(c, frames[k - 2], frames[k - 1])]
  }

  /** The frame stack after `tokens`, from `frames` (top at the end). */
  function RunFrames(tokens: seq<Token>, frames: seq<Frame>): (r: seq<Frame>)
    requires FitsFrom(tokens, |frames|)
    ensures |r| == 1
  {
    if |tokens| == 0 then frames
    else RunFrames(tokens[1..], FrameStep(frames, tokens[0]))
  }

  /** The first token of a fitting sequence can be taken, and the rest still fits. */
  lemma RunFramesStep(tokens: seq<Token>, frames: seq<Frame>)
    requires |tokens| > 0 && FitsFrom(tokens, |frames|)
    ensures tokens[0].Num? || (tokens[0].symbol in Precedence && |frames| >= 2)
    ensures FitsFrom(tokens[1..], |FrameStep(frames, tokens[0])|)
    ensures RunFrames(tokens, frames) == RunFrames(tokens[1..], FrameStep(frames, tokens[0]))
  {
  }

  /** The string `rpnToInfix` returns. */
  function InfixOf(tokens: seq<Token>): string
    requires WellFormed(tokens)
  {
    RunFrames(tokens, [])[0].expression
  }

  /** The unparser, as the source writes it: a loop over a frame stack. */
  method RpnToInfix(tokens: seq<Token>) returns (s: string)
    requires WellFormed(tokens)
    ensures s == InfixOf(tokens)
  {
    var stack: seq<Frame> := [];
    var i := 0;
    while i < |tokens|
      invariant 0 <= i <= |tokens|
      invariant FitsFrom(tokens[i..], |stack|)
      invariant RunFrames(tokens, []) == RunFrames(tokens[i..], stack)
    {
      assert tokens[i..][1..] == tokens[i + 1..];
      RunFramesStep(tokens[i..], stack);
      ghost var before := stack;
      var token := tokens[i];
      if token.Num? {
        stack := stack + [Frame(IntText(token.value), None, Infinity)];
      } else {
        var right := stack[|stack| - 1];
        var left := stack[|stack| - 2];
        stack := stack[..|stack| - 2];
        var frame := CombineFrames(token.symbol, left, right);
        stack := stack + [frame];
      }
      assert stack == FrameStep(before, token);
      i := i + 1;
    }
    s := stack[0].expression;
  }

  /**
   * The operator branch of the loop (lines 195-213): sort, parenthesize, join,
   * step by step as the source does. `Combine` is the same computation as a
   * function, for use in `RunFrames` and the lemmas; the ensures ties the two.
   */
  method CombineFrames(token: char, left: Frame, right: Frame) returns (frame: Frame)
    requires token in Precedence
    ensures frame == Combine(token, left, right)
  {
    var left, right := left, right;
    if token == '+' || token == '*' {
      var sorted := SortPair(left, right);
      left, right := sorted.0, sorted.1;
    }
    var currentPrecedence := Precedence[token];
    var leftExpression := left.expression;
    var rightExpression := right.expression;
    if left.operator.Some? && Lower(left.precedence, currentPrecedence) {
      leftExpression := Paren(leftExpression);
    }
    if right.operator.Some? &&
       (Lower(right.precedence, currentPrecedence) ||
        (right.precedence == Level(currentPrecedence) && (token == '-' || token == '/'))) {
      rightExpression := Paren(rightExpression);
    }
    frame := Frame(leftExpression + " " + [token] + " " + rightExpression, Some(token), Level(currentPrecedence));
  }

  // ---------------------------------------------------------------------------
  // Rendering a tree

  /**
   * The operators whose right operand keeps its parentheses at equal
   * precedence. The source tests for '-' and '/', and '/' is not one of its
   * symbols, so in effect only subtraction groups to the right.
   */
  const AsWritten: set<Op> := {Sub}

  /**
   * The evident intent of the test for '-' and '/': both non-associative
   * operators keep a right operand of equal precedence in parentheses.
   */
  const Intended: set<Op> := {Sub, Div}

  /** A left operand is parenthesized iff it is an operator node of lower precedence. */
  predicate LeftNeedsParens(op: Op, l: Expr) {
    l.Node? && Prec(l.op) < Prec(op)
  }

  /**
   * A right operand is parenthesized iff it is an operator node of lower
   * precedence, or of equal precedence under an operator of `grouped`.
   */
  predicate RightNeedsParens(op: Op, r: Expr, grouped: set<Op>) {
    r.Node? && (Prec(r.op) < Prec(op) || (Prec(r.op) == Prec(op) && op in grouped))
  }

  /** Infix text of a tree, `"L op R"` at every node, left before right. */
  function Render(e: Expr, grouped: set<Op>): string {
    match e
    case Leaf(n) => IntText(n)
    case Node(op, l, r) =>
      var lt := Render(l, grouped);
      var rt := Render(r, grouped);
      Infixed(if LeftNeedsParens(op, l) then Paren(lt) else lt,
              Symbol(op),
              if RightNeedsParens(op, r, grouped) then Paren(rt) else rt)
  }

  /** Two operand texts joined by an operator symbol with a space on each side. */
  function Infixed(left: string, symbol: char, right: string): string {
    left + " " + [symbol] + " " + right
  }

  /** Without parentheses, `x o1 (y o2 z)` and `(x o1 y) o2 z` are the same text. */
  lemma InfixedAssociates(x: string, o1: char, y: string, o2: char, z: string)
    ensures Infixed(x, o1, Infixed(y, o2, z)) == Infixed(Infixed(x, o1, y), o2, z)
  {
  }

  /** The frame the source keeps for a subtree. */
  function FrameOf(e: Expr): Frame {
    match e
    case Leaf(n) => NumberFrame(n)
    case Node(op, _, _) => Frame(Render(e, AsWritten), Some(Symbol(op)), Level(Prec(op)))
  }

  function FramesOf(trees: seq<Expr>): (fs: seq<Frame>)
    ensures |fs| == |trees|
    ensures forall i :: 0 <= i < |trees| ==> fs[i] == FrameOf(trees[i])
  {
    seq(|trees|, i requires 0 <= i < |trees| => FrameOf(trees[i]))
  }

  /** Combining the frames of two subtrees gives the frame of the node. */
  lemma CombineMatchesNode(op: Op, l: Expr, r: Expr)
    ensures Combine(Symbol(op), FrameOf(l), FrameOf(r)) == FrameOf(Node(op, l, r))
  {
    var c := Symbol(op);
    var fl, fr := FrameOf(l), FrameOf(r);
    SortPairKeepsOrder(fl, fr);
    assert Precedence[c] == Prec(op);
    LeftFrameMatches(op, l);
    RightFrameMatches(op, r);
  }

  /** The source's test on a left frame is the renderer's test on the left subtree. */
  lemma LeftFrameMatches(op: Op, l: Expr)
    ensures FrameOf(l).expression == Render(l, AsWritten)
    ensures FrameOf(l).operator.Some? && Lower(FrameOf(l).precedence, Precedence[Symbol(op)]) <==> LeftNeedsParens(op, l)
  {
  }

  /** The source's test on a right frame is the renderer's test on the right subtree, grouping `-` only. */
  lemma RightFrameMatches(op: Op, r: Expr)
    ensures FrameOf(r).expression == Render(r, AsWritten)
    ensures var fr := FrameOf(r);
            var p := Precedence[Symbol(op)];
            var c := Symbol(op);
            fr.operator.Some? && (Lower(fr.precedence, p) || (fr.precedence == Level(p) && (c == '-' || c == '/')))
            <==> RightNeedsParens(op, r, AsWritten)
  {
    assert Symbol(op) == '-' || Symbol(op) == '/' <==> op in AsWritten;
  }

  /** One operator token on the frames of a stack of trees. */
  lemma FramesOfCombine(trees: seq<Expr>, c: char)
    requires |trees| >= 2 && c in Precedence
    ensures var k := |trees|;
            var fs := FramesOf(trees);
            FramesOf(trees[..k - 2] + [Node(ParseOp(c).value, trees[k - 2], trees[k - 1])]) ==
            fs[..k - 2] + [Combine(c, fs[k - 2], fs[k - 1])]
  {
    var k := |trees|;
    var op := ParseOp(c).value;
    var node := Node(op, trees[k - 2], trees[k - 1]);
    var next := trees[..k - 2] + [node];
    var fs := FramesOf(trees);
    var lhs := FramesOf(next);
    var rhs := fs[..k - 2] + [Combine(c, fs[k - 2], fs[k - 1])];
    CombineMatchesNode(op, trees[k - 2], trees[k - 1]);
    assert Symbol(op) == c;
    assert |lhs| == |rhs|;
    forall i | 0 <= i < |lhs| ensures lhs[i] == rhs[i] {
      if i < k - 2 {
        assert next[i] == trees[i];
      } else {
        assert next[i] == node;
      }
    }
  }

  /** One token on the frames of a stack of trees: the frame machine and tree building take the same step. */
  lemma FramesStep(tokens: seq<Token>, trees: seq<Expr>) returns (next: seq<Expr>)
    requires |tokens| > 0 && FitsFrom(tokens, |trees|)
    ensures FitsFrom(tokens[1..], |next|)
    ensures Build(tokens, trees) == Build(tokens[1..], next)
    ensures RunFrames(tokens, FramesOf(trees)) == RunFrames(tokens[1..], FramesOf(next))
  {
    var fs := FramesOf(trees);
    match tokens[0]
    case Num(n) =>
      next := trees + [Leaf(n)];
      assert FramesOf(next) == fs + [NumberFrame(n)];
    case Sym(c) =>
      var k := |trees|;
      next := trees[..k - 2] + [Node(ParseOp(c).value, trees[k - 2], trees[k - 1])];
      FramesOfCombine(trees, c);
    assert FramesOf(next) == FrameStep(fs, tokens[0]);
  }

  lemma {:induction false} RunFramesAgreesWithBuild(tokens: seq<Token>, trees: seq<Expr>)
    requires FitsFrom(tokens, |trees|)
    ensures Build(tokens, trees).Some?
    ensures RunFrames(tokens, FramesOf(trees)) == FramesOf(Build(tokens, trees).value)
    decreases |tokens|
  {
    if |tokens| > 0 {
      var next := FramesStep(tokens, trees);
      RunFramesAgreesWithBuild(tokens[1..], next);
    }
  }

  /**
   * `rpnToInfix` renders the tree of a well-formed sequence: operands in
   * their postfix order, parenthesized by precedence, with only subtraction
   * keeping a right operand of equal precedence in parentheses.
   */
  lemma InfixOfRendersTree(tokens: seq<Token>)
    requires WellFormed(tokens)
    ensures Parse(tokens).Some?
    ensures InfixOf(tokens) == Render(Parse(tokens).value, AsWritten)
  {
    assert FramesOf([]) == [];
    RunFramesAgreesWithBuild(tokens, []);
    WellFormedIffParses(tokens);
  }

  /**
   * As written, a quotient or a product on the right of a division loses its
   * parentheses: `a ÷ (b ÷ c)` is printed like `(a ÷ b) ÷ c`, and
   * `a ÷ (b × c)` like `(a ÷ b) × c`.
   */
  lemma DivisionDropsParentheses(a: Expr, b: Expr, c: Expr)
    ensures Render(Node(Div, a, Node(Div, b, c)), AsWritten) == Render(Node(Div, Node(Div, a, b), c), AsWritten)
    ensures Render(Node(Div, a, Node(Mul, b, c)), AsWritten) == Render(Node(Mul, Node(Div, a, b), c), AsWritten)
  {
    var la := if LeftNeedsParens(Div, a) then Paren(Render(a, AsWritten)) else Render(a, AsWritten);
    var lb := if LeftNeedsParens(Div, b) then Paren(Render(b, AsWritten)) else Render(b, AsWritten);
    var rc := if RightNeedsParens(Div, c, AsWritten) then Paren(Render(c, AsWritten)) else Render(c, AsWritten);
    InfixedAssociates(la, '÷', lb, '÷', rc);
    InfixedAssociates(la, '÷', lb, '×', rc);
  }
}
