/** Success/failure values for the operations whose C++ counterparts read an empty stack. */
module Results {
  datatype Result<+T, +E> = Ok(value: T) | Err(error: E)

  datatype Option<+T> = None | Some(value: T)
}

/** Character classification shared by the normalizer, the postfix converter and the NFA builder. */
module Syntax {

  /** The five operator characters; `.` is the explicit concatenation marker. */
  predicate IsRegexOperator(ch: char) {
    ch == '|' || ch == '.' || ch == '*' || ch == '+' || ch == '?'
  }

  /** The postfix unary operators: zero-or-more, one-or-more, optional. */
  predicate IsUnary(ch: char) {
    ch == '*' || ch == '+' || ch == '?'
  }

  /** A literal symbol: anything that is neither an operator nor a parenthesis.
      The normalizer's `isLiteral` test and the converter's operand test are this same set. */
  predicate IsLiteral(ch: char) {
    !IsRegexOperator(ch) && ch != '(' && ch != ')'
  }

  /** Operator precedence: unary 3, concatenation 2, union 1, anything else (including `(`) 0. */
  function Precedence(op: char): (p: nat)
    ensures p <= 3
    ensures p > 0 <==> IsRegexOperator(op)
    ensures p == 3 <==> IsUnary(op)
  {
    if op == '*' || op == '+' || op == '?' then 3
    else if op == '.' then 2
    else if op == '|' then 1
    else 0
  }

  /** Every character falls in exactly one class: literal, `(`, `)`, or operator;
      and the operators are ranked unary above concatenation above union above `(`. */
  lemma Classification(ch: char)
    ensures IsLiteral(ch) || ch == '(' || ch == ')' || IsRegexOperator(ch)
    ensures IsLiteral(ch) ==> ch != '(' && ch != ')' && !IsRegexOperator(ch)
    ensures ch == '(' || ch == ')' ==> !IsRegexOperator(ch)
    ensures IsUnary(ch) ==> IsRegexOperator(ch)
    ensures Precedence('.') == 2 && Precedence('|') == 1 && Precedence('(') == 0
    ensures IsUnary(ch) ==> Precedence('(') < Precedence('|') < Precedence('.') < Precedence(ch)
  {
  }
}
