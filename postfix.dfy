/**
 * The postfix evaluator `isCorrectExpression` (src/solver.js:141-183): a stack
 * machine over exact numbers, proved equal to a recursive functional
 * semantics, which in turn is proved to agree with evaluating the expression
 * tree the tokens describe.
 */
module Postfix {
  import opened Wrappers
  import opened Tokens

  /** The acceptance tolerance `1e-6` of line 182. */
  const Tolerance: real := 0.000001

  /** `|v - 24| <= 1e-6`. */
  predicate Near24(v: real) {
    -Tolerance <= v - 24.0 <= Tolerance
  }

  // ---------------------------------------------------------------------------
  // Well-formed postfix sequences

  /**
   * Starting with `depth` values on the stack, every token is a number or an
   * operator key, every operator finds two operands, and exactly one value
   * remains at the end.
   */
  predicate FitsFrom(tokens: seq<Token>, depth: nat) {
    if |tokens| == 0 then depth == 1
    else match tokens[0]
      case Num(_) => FitsFrom(tokens[1..], depth + 1)
      case Sym(c) => c in Precedence && depth >= 2 && FitsFrom(tokens[1..], depth - 1)
  }

  predicate WellFormed(tokens: seq<Token>) {
    FitsFrom(tokens, 0)
  }

  // ---------------------------------------------------------------------------
  // Tree semantics: the trees a postfix sequence builds

  /**
   * Reads `tokens` onto a stack of trees (top at the end). None when an
   * operator finds fewer than two operands or a token is not an operator key.
   */
  function Build(tokens: seq<Token>, trees: seq<Expr>): Option<seq<Expr>> {
    if |tokens| == 0 then Some(trees)
    else match tokens[0]
      case Num(n) => Build(tokens[1..], trees + [Leaf(n)])
      case Sym(c) =>
        if ParseOp(c).None? || |trees| < 2 then None
        else
          var n := |trees|;
          Build(tokens[1..], trees[..n - 2] + [Node(ParseOp(c).value, trees[n - 2], trees[n - 1])])
  }

  /** The single tree a sequence describes, if it describes exactly one. */
  function Parse(tokens: seq<Token>): Option<Expr> {
    match Build(tokens, [])
    case Some(ts) => if |ts| == 1 then Some(ts[0]) else None
    case None => None
  }

  lemma {:induction false} BuildFits(tokens: seq<Token>, trees: seq<Expr>)
    ensures FitsFrom(tokens, |trees|) <==> Build(tokens, trees).Some? && |Build(tokens, trees).value| == 1
    decreases |tokens|
  {
    if |tokens| > 0 {
      match tokens[0]
      case Num(n) => BuildFits(tokens[1..], trees + [Leaf(n)]);
      case Sym(c) =>
        if ParseOp(c).Some? && |trees| >= 2 {
          var n := |trees|;
          BuildFits(tokens[1..], trees[..n - 2] + [Node(ParseOp(c).value, trees[n - 2], trees[n - 1])]);
        }
    }
  }

  /** A sequence is well formed exactly when it describes one tree. */
  lemma WellFormedIffParses(tokens: seq<Token>)
    ensures WellFormed(tokens) <==> Parse(tokens).Some?
  {
    BuildFits(tokens, []);
  }

  // ---------------------------------------------------------------------------
  // Value semantics: the stack machine as a function

  /**
   * The `switch` of lines 154-172: `num2 op num1`, where `num1` was popped
   * first. None is a zero divisor or an operator the switch does not know.
   */
  function Arith(c: char, num2: real, num1: real): Option<real> {
    if c == '+' then Some(num2 + num1)
    else if c == '-' then Some(num2 - num1)
    else if c == '×' then Some(num2 * num1)
    else if c == '÷' then (if num1 == 0.0 then None else Some(num2 / num1))
    else None
  }

  /** The product case of the switch, stated apart so that the solver sees it without the loop's context. */
  lemma ArithMul(num2: real, num1: real)
    ensures Arith('×', num2, num1) == Some(num2 * num1)
  {
  }

  /** The switch computes the operator's `left op right`, the value a tree node has. */
  lemma ArithIsApply(c: char, left: real, right: real)
    requires c in Precedence
    ensures Arith(c, left, right) == Apply(ParseOp(c).value, left, right)
  {
  }

  /**
   * One token of the loop body of lines 143-177 (top of stack at the end).
   * None is an early `return false`: an unknown token, a missing operand or a
   * zero divisor.
   */
  function Step(stack: seq<real>, t: Token): Option<seq<real>> {
    match t
    case Num(n) => Some(stack + [n as real])
    case Sym(c) =>
      if c !in Precedence || |stack| < 2 then None
      else
        var n := |stack|;
        match Arith(c, stack[n - 2], stack[n - 1])
        case None => None
        case Some(result) => Some(stack[..n - 2] + [result])
  }

  /** The stack after all tokens, or None when the machine stops early. */
  function Run(tokens: seq<Token>, stack: seq<real>): Option<seq<real>> {
    if |tokens| == 0 then Some(stack)
    else match Step(stack, tokens[0])
      case None => None
      case Some(s) => Run(tokens[1..], s)
  }

  /** The answer of `isCorrectExpression`. */
  predicate Accepts(tokens: seq<Token>) {
    match Run(tokens, [])
    case Some(s) => |s| == 1 && Near24(s[0])
    case None => false
  }

  /** The evaluator, as the source writes it: a loop over a value stack. */
  method IsCorrectExpression(tokens: seq<Token>) returns (ok: bool)
    ensures ok == Accepts(tokens)
  {
    var stack: seq<real> := [];
    var i := 0;
    while i < |tokens|
      invariant 0 <= i <= |tokens|
      invariant Run(tokens, []) == Run(tokens[i..], stack)
    {
      assert tokens[i..][1..] == tokens[i + 1..];
      ghost var before := stack;
      var token := tokens[i];
      if token.Num? {
        stack := stack + [token.value as real];
      } else if token.symbol in Precedence {
        if |stack| < 2 {
          return false;  // fewer than two operands on the stack
        }
        var num1 := stack[|stack| - 1];
        var num2 := stack[|stack| - 2];
        stack := stack[..|stack| - 2];
        var result: real;
        if token.symbol == '+' {
          result := num2 + num1;
        } else if token.symbol == '-' {
          result := num2 - num1;
        } else if token.symbol == '×' {
          result := num2 * num1;
          ArithMul(num2, num1);
        } else if token.symbol == '÷' {
          if num1 == 0.0 {
            return false;  // a zero divisor
          }
          result := num2 / num1;
        } else {
          return false;  // a key with no arithmetic case
        }
        assert Arith(token.symbol, num2, num1) == Some(result);
        stack := stack + [result];
        assert Step(before, token) == Some(stack);
      } else {
        return false;  // neither a number nor a key
      }
      i := i + 1;
    }
    if |stack| != 1 {
      return false;
    }
    ok := Near24(stack[0]);
  }

  // ---------------------------------------------------------------------------
  // The stack machine agrees with the trees

  predicate Defined(trees: seq<Expr>) {
    forall i :: 0 <= i < |trees| ==> Eval(trees[i]).Some?
  }

  function Values(trees: seq<Expr>): (vs: seq<real>)
    requires Defined(trees)
    ensures |vs| == |trees|
    ensures forall i :: 0 <= i < |trees| ==> Eval(trees[i]) == Some(vs[i])
  {
    seq(|trees|, i requires 0 <= i < |trees| => Eval(trees[i]).value)
  }

  /** A subtree that divides by zero poisons every stack built on top of it. */
  lemma {:induction false} BuildKeepsUndefined(tokens: seq<Token>, trees: seq<Expr>)
    requires !Defined(trees) && Build(tokens, trees).Some?
    ensures !Defined(Build(tokens, trees).value)
    decreases |tokens|
  {
    if |tokens| > 0 {
      var k :| 0 <= k < |trees| && Eval(trees[k]).None?;
      match tokens[0]
      case Num(n) =>
        var next := trees + [Leaf(n)];
        assert Eval(next[k]).None?;
        BuildKeepsUndefined(tokens[1..], next);
      case Sym(c) =>
        var n := |trees|;
        var node := Node(ParseOp(c).value, trees[n - 2], trees[n - 1]);
        var next := trees[..n - 2] + [node];
        if k < n - 2 {
          assert Eval(next[k]).None?;
        } else {
          assert Eval(next[n - 2]).None?;
        }
        BuildKeepsUndefined(tokens[1..], next);
    }
  }

  /** One operator token: the machine combines the two top values as the tree node does. */
  lemma StepMatchesNode(trees: seq<Expr>, c: char)
    requires Defined(trees) && |trees| >= 2 && c in Precedence
    ensures var n := |trees|;
            var next := trees[..n - 2] + [Node(ParseOp(c).value, trees[n - 2], trees[n - 1])];
            if Defined(next) then Step(Values(trees), Sym(c)) == Some(Values(next))
            else Step(Values(trees), Sym(c)).None?
  {
    var n := |trees|;
    var vs := Values(trees);
    var op := ParseOp(c).value;
    var node := Node(op, trees[n - 2], trees[n - 1]);
    var next := trees[..n - 2] + [node];
    assert Eval(node) == Apply(op, vs[n - 2], vs[n - 1]);
    ArithIsApply(c, vs[n - 2], vs[n - 1]);
    if Eval(node).None? {
      assert Eval(next[n - 2]).None?;
    } else {
      assert Defined(next) by {
        forall i | 0 <= i < |next| ensures Eval(next[i]).Some? {
          if i < n - 2 { assert next[i] == trees[i]; }
        }
      }
      assert Values(next) == vs[..n - 2] + [Eval(node).value];
    }
  }

  /**
   * Running the machine on the values of a stack of trees gives the values of
   * the trees the same tokens build, and stops early exactly when reading the
   * tokens fails or some built tree divides by zero.
   */
  lemma {:induction false} RunAgreesWithBuild(tokens: seq<Token>, trees: seq<Expr>)
    requires Defined(trees)
    ensures Run(tokens, Values(trees)) ==
            match Build(tokens, trees)
            case None => None
            case Some(ts) => if Defined(ts) then Some(Values(ts)) else None
    decreases |tokens|
  {
    if |tokens| > 0 {
      match tokens[0]
      case Num(n) =>
        var next := trees + [Leaf(n)];
        assert Values(next) == Values(trees) + [n as real];
        RunAgreesWithBuild(tokens[1..], next);
      case Sym(c) =>
        if c in Precedence && |trees| >= 2 {
          var n := |trees|;
          var next := trees[..n - 2] + [Node(ParseOp(c).value, trees[n - 2], trees[n - 1])];
          StepMatchesNode(trees, c);
          if Defined(next) {
            RunAgreesWithBuild(tokens[1..], next);
          } else if Build(tokens[1..], next).Some? {
            BuildKeepsUndefined(tokens[1..], next);
          }
        }
    }
  }

  /**
   * The evaluator accepts a sequence exactly when it describes a single tree
   * whose value is defined and within the tolerance of 24.
   */
  lemma AcceptsIffTreeNear24(tokens: seq<Token>)
    ensures Accepts(tokens) <==>
            Parse(tokens).Some? && Eval(Parse(tokens).value).Some? && Near24(Eval(Parse(tokens).value).value)
  {
    assert Values([]) == [];
    RunAgreesWithBuild(tokens, []);
  }

  /** Whatever the evaluator accepts, the unparser may render. */
  lemma AcceptedIsWellFormed(tokens: seq<Token>)
    requires Accepts(tokens)
    ensures WellFormed(tokens)
  {
    AcceptsIffTreeNear24(tokens);
    WellFormedIffParses(tokens);
  }

  /**
   * A well-formed sequence is rejected exactly when its tree divides by zero
   * or its value is more than the tolerance away from 24: never for a stack
   * underflow or a leftover stack.
   */
  lemma WellFormedRejection(tokens: seq<Token>)
    requires WellFormed(tokens)
    ensures Parse(tokens).Some?
    ensures !Accepts(tokens) <==> Eval(Parse(tokens).value).None? || !Near24(Eval(Parse(tokens).value).value)
  {
    WellFormedIffParses(tokens);
    AcceptsIffTreeNear24(tokens);
  }
}
