/** The infix-to-postfix converter (shunting-yard): its step semantics as functions and
    the converter itself as a method with an explicit operator stack. */
module Postfix {
  import opened Syntax
  import opened Results

  /** A `)` found no `(` on the operator stack: the C++ code pops an empty stack here. */
  datatype ConvertError = UnmatchedClose

  /** The converter's working state: the output so far and the operator stack,
      bottom first, so the top is the last character. */
  datatype State = State(output: string, operators: string)

  const Start := State([], [])

  function Top(s: string): char
    requires s != []
  {
    s[|s| - 1]
  }

  function Pop(s: string): string
    requires s != []
  {
    s[..|s| - 1]
  }

  /** The stack read from the top down: the order in which popping emits it. */
  function Reversed(s: string): string {
    if s == [] then [] else [Top(s)] + Reversed(Pop(s))
  }

  /** Reversed really reverses: entry `k` from the front is entry `k` from the back. */
  lemma {:induction false} ReversedAt(s: string)
    ensures |Reversed(s)| == |s|
    ensures forall k :: 0 <= k < |s| ==> Reversed(s)[k] == s[|s| - 1 - k]
  {
    if s != [] {
      ReversedAt(Pop(s));
      assert Reversed(s) == [Top(s)] + Reversed(Pop(s));
    }
  }

  /** Whether `top` is popped before `ch` is pushed: a unary operator is right-associative
      and pops only strictly higher precedence, a binary one pops equal or higher. */
  predicate PopsBefore(top: char, ch: char) {
    if IsUnary(ch) then Precedence(top) > Precedence(ch) else Precedence(top) >= Precedence(ch)
  }

  /** The popping loop that precedes pushing the operator `ch`: it emits the operators
      on top of the stack for as long as they bind at least as tightly as `ch`. */
  function PopBound(s: State, ch: char): State
    decreases |s.operators|
  {
    if s.operators != [] && PopsBefore(Top(s.operators), ch) then
      PopBound(State(s.output + [Top(s.operators)], Pop(s.operators)), ch)
    else
      s
  }

  /** PopBound keeps a bottom part of the stack, emits the rest top first, pops only
      entries that `ch` does not outrank, and stops at the first entry that it does. */
  lemma {:induction false} PopBoundEffect(s: State, ch: char)
    decreases |s.operators|
    ensures var r := PopBound(s, ch);
            && |r.operators| <= |s.operators| && r.operators == s.operators[..|r.operators|]
            && r.output == s.output + Reversed(s.operators[|r.operators|..])
            && (forall j :: |r.operators| <= j < |s.operators| ==> PopsBefore(s.operators[j], ch))
            && (r.operators != [] ==> !PopsBefore(Top(r.operators), ch))
  {
    var ops := s.operators;
    if ops != [] && PopsBefore(Top(ops), ch) {
      var next := State(s.output + [Top(ops)], Pop(ops));
      PopBoundEffect(next, ch);
      var r := PopBound(next, ch);
      assert PopBound(s, ch) == r;
      var k := |r.operators|;
      assert Pop(ops)[k..] == Pop(ops[k..]);
      assert Top(ops[k..]) == Top(ops);
      assert Reversed(ops[k..]) == [Top(ops)] + Reversed(Pop(ops)[k..]);
      assert r.operators == ops[..k];
      assert r.output == s.output + Reversed(ops[k..]);
    } else {
      assert ops[|ops|..] == [];
      assert PopBound(s, ch) == s;
    }
  }

  /** The loop run on `)`: emit operators down to the nearest `(` and discard that `(`.
      With no `(` left the stack runs empty and the conversion fails. */
  function PopToOpen(s: State): Result<State, ConvertError>
    decreases |s.operators|
  {
    if s.operators == [] then Err(UnmatchedClose)
    else if Top(s.operators) == '(' then Ok(State(s.output, Pop(s.operators)))
    else PopToOpen(State(s.output + [Top(s.operators)], Pop(s.operators)))
  }

  /** PopToOpen succeeds exactly when the stack holds a `(`. */
  lemma {:induction false} PopToOpenSucceeds(s: State)
    decreases |s.operators|
    ensures PopToOpen(s).Ok? <==> '(' in s.operators
  {
    var ops := s.operators;
    if ops != [] && Top(ops) != '(' {
      PopToOpenSucceeds(State(s.output + [Top(ops)], Pop(ops)));
      assert ops == Pop(ops) + [Top(ops)];
    } else if ops != [] {
      assert Top(ops) in ops;
    }
  }

  /** On success PopToOpen stops at the topmost `(`, emits everything above it top first,
      and keeps everything below it. */
  lemma {:induction false} PopToOpenEffect(s: State)
    decreases |s.operators|
    requires PopToOpen(s).Ok?
    ensures var r := PopToOpen(s).value;
            var k := |r.operators|;
            && k < |s.operators| && s.operators[k] == '('
            && r.operators == s.operators[..k]
            && r.output == s.output + Reversed(s.operators[k + 1..])
            && forall j :: k < j < |s.operators| ==> s.operators[j] != '('
  {
    var ops := s.operators;
    if Top(ops) == '(' {
      assert ops[|ops|..] == [];
    } else {
      var next := State(s.output + [Top(ops)], Pop(ops));
      assert PopToOpen(s) == PopToOpen(next);
      PopToOpenEffect(next);
      var r := PopToOpen(next).value;
      var k := |r.operators|;
      assert Pop(ops)[k + 1..] == Pop(ops[k + 1..]);
      assert Top(ops[k + 1..]) == Top(ops);
      assert Reversed(ops[k + 1..]) == [Top(ops)] + Reversed(Pop(ops)[k + 1..]);
    }
  }

  /** The effect of one infix character on the state. */
  function Step(s: State, ch: char): Result<State, ConvertError> {
    if IsLiteral(ch) then Ok(State(s.output + [ch], s.operators))
    else if ch == '(' then Ok(State(s.output, s.operators + [ch]))
    else if ch == ')' then PopToOpen(s)
    else
      var p := PopBound(s, ch);
      Ok(State(p.output, p.operators + [ch]))
  }

  /** The state after the characters of `infix`, starting from `s`. */
  function RunFrom(s: State, infix: string): Result<State, ConvertError>
    decreases |infix|
  {
    if infix == [] then Ok(s)
    else
      match Step(s, infix[0])
      case Err(e) => Err(e)
      case Ok(next) => RunFrom(next, infix[1..])
  }

  /** The output once the operators left on the stack are popped and emitted. */
  function Flushed(s: State): string {
    s.output + Reversed(s.operators)
  }

  /** The postfix form of `infix`, or the error the conversion meets. */
  function ToPostfix(infix: string): Result<string, ConvertError> {
    match RunFrom(Start, infix)
    case Err(e) => Err(e)
    case Ok(s) => Ok(Flushed(s))
  }

  /** A unary operator is pushed without popping anything, so stacked unary operators
      stay on the stack until a binary operator, a `)` or the end of input pops them. */
  lemma UnaryPopsNothing(s: State, ch: char)
    requires IsUnary(ch)
    ensures PopBound(s, ch) == s
  {
  }

  /** Lines 193-197: on `)`, emit operators down to the nearest `(`, then pop that `(`;
      popping when the stack has run empty is the failure. */
  method CloseGroup(output0: string, operators0: string) returns (r: Result<State, ConvertError>)
    ensures r == PopToOpen(State(output0, operators0))
  {
    var output, operators := output0, operators0;
    while operators != [] && operators[|operators| - 1] != '('
      invariant PopToOpen(State(output, operators)) == PopToOpen(State(output0, operators0))
      decreases |operators|
    {
      output := output + [operators[|operators| - 1]];
      operators := operators[..|operators| - 1];
    }
    if operators == [] {
      return Err(UnmatchedClose);
    }
    operators := operators[..|operators| - 1];
    r := Ok(State(output, operators));
  }

  /** Lines 201-220: before the operator `ch` is pushed, emit the operators it does not
      bind more tightly than. The two C++ loops (lines 204-209 for a unary `ch`, lines
      214-219 for a binary one) differ only in the comparison, strictly higher precedence
      or equal-or-higher, so they are one loop here whose comparison follows `ch`. */
  method PopForOperator(output0: string, operators0: string, ch: char) returns (output: string, operators: string)
    ensures State(output, operators) == PopBound(State(output0, operators0), ch)
  {
    output, operators := output0, operators0;
    var unary := ch == '*' || ch == '+' || ch == '?';
    while operators != [] &&
          (if unary then Precedence(operators[|operators| - 1]) > Precedence(ch)
           else Precedence(operators[|operators| - 1]) >= Precedence(ch))
      invariant PopBound(State(output, operators), ch) == PopBound(State(output0, operators0), ch)
      decreases |operators|
    {
      output := output + [operators[|operators| - 1]];
      operators := operators[..|operators| - 1];
    }
  }

  /** convertToPostfix: one pass over the infix string with an explicit operator stack;
      literals go straight to the output, operators wait on the stack, and whatever is
      left on the stack is emitted at the end. */
  method ConvertToPostfix(infix: string) returns (r: Result<string, ConvertError>)
    ensures r == ToPostfix(infix)
  {
    var output := "";
    var operators := "";
    var i := 0;
    assert infix[0..] == infix;
    while i < |infix|
      invariant 0 <= i <= |infix|
      invariant RunFrom(State(output, operators), infix[i..]) == RunFrom(Start, infix)
    {
      var ch := infix[i];
      assert infix[i..][1..] == infix[i + 1..];
      ghost var s := State(output, operators);
      assert infix[i..][0] == ch;
      if !IsRegexOperator(ch) && ch != '(' && ch != ')' {
        output := output + [ch];
      } else if ch == '(' {
        operators := operators + [ch];
      } else if ch == ')' {
        var closed := CloseGroup(output, operators);
        if closed.Err? {
          assert RunFrom(s, infix[i..]) == Err(closed.error);
          assert ToPostfix(infix) == Err(closed.error);
          return Err(closed.error);
        }
        output, operators := closed.value.output, closed.value.operators;
      } else {
        output, operators := PopForOperator(output, operators, ch);
        operators := operators + [ch];
      }
      assert Step(s, ch) == Ok(State(output, operators));
      i := i + 1;
    }
    assert infix[|infix|..] == [];
    ghost var final := State(output, operators);
    assert RunFrom(Start, infix) == Ok(final);
    while !(operators == [])
      invariant output + Reversed(operators) == Flushed(final)
      decreases |operators|
    {
      output := output + [operators[|operators| - 1]];
      operators := operators[..|operators| - 1];
    }
    assert Reversed(operators) == [];
    assert output == Flushed(final);
    assert ToPostfix(infix) == Ok(Flushed(final));
    r := Ok(output);
  }
}
