/** Worked inputs for the normalizer and the converter, each fixing one documented behaviour. */
module Samples {
  import opened Results
  import opened Normalizer
  import opened Postfix

  /** A run takes its first character's step and continues from there. */
  lemma RunCons(s: State, ch: char, rest: string, next: State)
    requires Step(s, ch) == Ok(next)
    ensures RunFrom(s, [ch] + rest) == RunFrom(next, rest)
  {
    assert ([ch] + rest)[1..] == rest;
  }

  /** Normalizing takes one character, adds a marker when the rule fires, and goes on. */
  lemma NormalizedCons(ch: char, rest: string)
    ensures Normalized([ch] + rest) ==
              [ch] + (if rest != [] && NeedConcat(ch, rest[0]) then "." else "") + Normalized(rest)
  {
    assert ([ch] + rest)[1..] == rest;
  }

  /** Implied concatenation is made explicit after a literal, a `)` and a unary operator,
      and not after `(` or before `)` or an operator. */
  lemma NormalizeSample()
    ensures Normalized("a(b)*c") == "a.(b)*.c"
  {
    NormalizedCons('c', "");
    NormalizedCons('*', "c");
    NormalizedCons(')', "*c");
    NormalizedCons('b', ")*c");
    NormalizedCons('(', "b)*c");
    NormalizedCons('a', "(b)*c");
    assert ['c'] + "" == "c" && ['*'] + "c" == "*c" && [')'] + "*c" == ")*c";
    assert ['b'] + ")*c" == "b)*c" && ['('] + "b)*c" == "(b)*c" && ['a'] + "(b)*c" == "a(b)*c";
    assert Normalized("") == "";
    assert Normalized("*c") == "*.c";
    assert Normalized("b)*c") == "b)*.c";
    assert Normalized("a(b)*c") == "a.(b)*.c";
  }

  /** The run behind PrecedenceSample, from the `|` on: the `.` on the stack is popped. */
  lemma PrecedenceTail()
    ensures RunFrom(State("ab", "."), "|c") == Ok(State("ab.c", "|"))
  {
    assert "ab" + ['.'] == "ab." && "ab." + ['c'] == "ab.c" && [] + ['|'] == "|";
    assert PopBound(State("ab", "."), '|') == State("ab.", "");
    RunCons(State("ab.", "|"), 'c', "", State("ab.c", "|"));
    RunCons(State("ab", "."), '|', "c", State("ab.", "|"));
    assert "|c" == ['|'] + "c" && "c" == ['c'] + "";
  }

  /** The run behind PrecedenceSample, up to the `|`. */
  lemma PrecedenceHead()
    ensures RunFrom(Start, "a.b|c") == RunFrom(State("ab", "."), "|c")
  {
    assert "a" + ['b'] == "ab" && [] + ['a'] == "a" && [] + ['.'] == ".";
    RunCons(State("a", "."), 'b', "|c", State("ab", "."));
    RunCons(State("a", ""), '.', "b|c", State("a", "."));
    RunCons(Start, 'a', ".b|c", State("a", ""));
    assert "a.b|c" == ['a'] + ".b|c" && ".b|c" == ['.'] + "b|c" && "b|c" == ['b'] + "|c";
  }

  /** Concatenation binds tighter than union: the `.` waiting on the stack is emitted
      before the `|` is pushed. */
  lemma PrecedenceSample()
    ensures ToPostfix("a.b|c") == Ok("ab.c|")
  {
    PrecedenceHead();
    PrecedenceTail();
    assert Reversed("|") == "|";
    assert "ab.c" + "|" == "ab.c|";
  }

  /** Distinct stacked unary operators wait on the stack and come out in reverse order. */
  lemma StackedUnarySample()
    ensures ToPostfix("a*+") == Ok("a+*")
  {
    assert "*" + ['+'] == "*+" && [] + ['*'] == "*" && [] + ['a'] == "a";
    RunCons(State("a", "*"), '+', "", State("a", "*+"));
    RunCons(State("a", ""), '*', "+", State("a", "*"));
    RunCons(Start, 'a', "*+", State("a", ""));
    assert "a*+" == ['a'] + (['*'] + (['+'] + ""));
    assert RunFrom(Start, "a*+") == Ok(State("a", "*+"));
    assert Reversed("*+") == "+*" by {
      assert Reversed("*") == "*";
      assert Reversed("*+") == "+" + Reversed("*");
    }
    assert "a" + "+*" == "a+*";
  }

  /** A `(` that is never closed stays on the stack and is emitted at the end. */
  lemma UnclosedGroupSample()
    ensures ToPostfix("(a") == Ok("a(")
  {
    assert [] + ['a'] == "a" && [] + ['('] == "(";
    RunCons(State("", "("), 'a', "", State("a", "("));
    RunCons(Start, '(', "a", State("", "("));
    assert "(a" == ['('] + (['a'] + "");
    assert RunFrom(Start, "(a") == Ok(State("a", "("));
    assert Reversed("(") == "(";
    assert "a" + "(" == "a(";
  }

  /** A `)` with no open group is the one failure. */
  lemma UnmatchedCloseSample()
    ensures ToPostfix("a)") == Err(UnmatchedClose)
  {
  }
}
