/**
 * The vocabulary shared by the evaluator and the unparser: postfix tokens,
 * the operator table (`PRECEDENSE` in src/solver.js) and expression trees.
 */
module Tokens {
  import opened Wrappers

  /** A postfix token: a JavaScript number or an operator string. */
  datatype Token = Num(value: int) | Sym(symbol: char)

  /** The four arithmetic operators of the game. */
  datatype Op = Add | Sub | Mul | Div

  /** `Object.keys(PRECEDENSE)`: the operator symbols, in declaration order. */
  const Operators: seq<char> := ['+', '-', '×', '÷']

  /** `PRECEDENSE`: the binding strength of each operator symbol. */
  const Precedence: map<char, nat> := map['+' := 1, '-' := 1, '×' := 2, '÷' := 2]

  /** The display symbol of an operator. */
  function Symbol(op: Op): (c: char)
    ensures c in Precedence && c in Operators
  {
    match op
    case Add => '+'
    case Sub => '-'
    case Mul => '×'
    case Div => '÷'
  }

  /** The precedence of an operator, read from the table. */
  function Prec(op: Op): (p: nat)
    ensures p == 1 || p == 2
    ensures p == 2 <==> op == Mul || op == Div
  {
    Precedence[Symbol(op)]
  }

  /** The operator a symbol stands for, if it is a key of the table. */
  function ParseOp(c: char): (r: Option<Op>)
    ensures r.Some? <==> c in Precedence
    ensures r.Some? ==> Symbol(r.value) == c
  {
    if c == '+' then Some(Add)
    else if c == '-' then Some(Sub)
    else if c == '×' then Some(Mul)
    else if c == '÷' then Some(Div)
    else None
  }

  lemma {:induction false} OperatorsAreTheKeys()
    ensures |Operators| == 4
    ensures forall c :: c in Operators <==> c in Precedence
    ensures forall op: Op :: ParseOp(Symbol(op)) == Some(op)
  {
    forall op: Op ensures ParseOp(Symbol(op)) == Some(op) {
      match op
      case Add =>
      case Sub =>
      case Mul =>
      case Div =>
    }
  }

  /** An expression tree: a number, or an operator applied to a left and a right operand. */
  datatype Expr = Leaf(value: int) | Node(op: Op, left: Expr, right: Expr)

  /**
   * `left op right` in exact arithmetic; division by zero has no value.
   */
  function Apply(op: Op, left: real, right: real): (r: Option<real>)
    ensures r.None? <==> op == Div && right == 0.0
  {
    match op
    case Add => Some(left + right)
    case Sub => Some(left - right)
    case Mul => Some(left * right)
    case Div => if right == 0.0 then None else Some(left / right)
  }

  /** The value of a tree, or None when it divides by zero somewhere. */
  function Eval(e: Expr): Option<real> {
    match e
    case Leaf(n) => Some(n as real)
    case Node(op, l, r) =>
      match (Eval(l), Eval(r))
      case (Some(a), Some(b)) => Apply(op, a, b)
      case _ => None
  }
}
