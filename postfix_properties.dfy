/** What the postfix converter guarantees: when it fails, that literals keep their order,
    that its output is the input minus matched parenthesis pairs, and that the operator
    stack stays ordered by precedence between parentheses. */
module PostfixProperties {
  import opened Syntax
  import opened Results
  import opened Postfix

  /** The literal characters of `s`, in order. */
  function Literals(s: string): string {
    if s == [] then [] else (if IsLiteral(s[0]) then [s[0]] else []) + Literals(s[1..])
  }

  /** How often `c` occurs in `s`. */
  function Count(c: char, s: string): nat {
    multiset(s)[c]
  }

  /** `n` copies each of `(` and `)`: the parentheses a run with `n` closing groups discards. */
  function Pairs(n: nat): multiset<char> {
    if n == 0 then multiset{} else Pairs(n - 1) + multiset{'(', ')'}
  }

  /** The change one character makes to the nesting depth. */
  function Delta(c: char): int {
    if c == '(' then 1 else if c == ')' then -1 else 0
  }

  /** Starting at nesting depth `d`, every `)` of `w` closes an open group. */
  predicate MatchedFrom(d: int, w: string) {
    forall k :: 0 <= k < |w| && w[k] == ')' ==> d + Count('(', w[..k]) - Count(')', w[..k]) > 0
  }

  /** Every `)` of `w` has a `(` before it that no earlier `)` closed. */
  predicate Matched(w: string) {
    MatchedFrom(0, w)
  }

  predicate NoParens(s: string) {
    forall k :: 0 <= k < |s| ==> s[k] != '(' && s[k] != ')'
  }

  /** The operator stack only ever holds `(` and operators. */
  predicate StackShape(ops: string) {
    forall k :: 0 <= k < |ops| ==> ops[k] == '(' || IsRegexOperator(ops[k])
  }

  /** The entry at `k` is a `(` or ranks at least as high as the entry below it. */
  predicate OrderedAt(ops: string, k: nat)
    requires 0 < k < |ops|
  {
    ops[k] != '(' ==> Precedence(ops[k - 1]) <= Precedence(ops[k])
  }

  /** Between `(` entries, precedences never decrease from bottom to top. */
  predicate SegmentsSorted(ops: string) {
    forall k :: 0 < k < |ops| ==> OrderedAt(ops, k)
  }

  /** The shape of every state the converter reaches. */
  predicate WellShaped(s: State) {
    StackShape(s.operators) && NoParens(s.output) && SegmentsSorted(s.operators)
  }

  lemma {:induction false} LiteralsAppend(a: string, b: string)
    ensures Literals(a + b) == Literals(a) + Literals(b)
  {
    if a == [] {
      assert a + b == b;
    } else {
      assert (a + b)[1..] == a[1..] + b;
      assert Literals(a + b) == (if IsLiteral(a[0]) then [a[0]] else []) + Literals(a[1..] + b);
      LiteralsAppend(a[1..], b);
    }
  }

  lemma {:induction false} NoLiterals(s: string)
    requires forall k :: 0 <= k < |s| ==> !IsLiteral(s[k])
    ensures Literals(s) == []
  {
    if s != [] {
      NoLiterals(s[1..]);
    }
  }

  lemma {:induction false} ReversedMultiset(s: string)
    ensures multiset(Reversed(s)) == multiset(s)
  {
    if s != [] {
      ReversedMultiset(Pop(s));
      assert s == Pop(s) + [Top(s)];
    }
  }

  lemma {:induction false} PairsAdd(a: nat, b: nat)
    ensures Pairs(a + b) == Pairs(a) + Pairs(b)
  {
    if b > 0 {
      PairsAdd(a, b - 1);
      Regroup(Pairs(a), Pairs(b - 1), multiset{'(', ')'});
    }
  }

  lemma Regroup(x: multiset<char>, y: multiset<char>, z: multiset<char>)
    ensures x + y + z == x + (y + z)
  {
    var left, right := x + y + z, x + (y + z);
    forall c
      ensures left[c] == right[c]
    {
    }
    assert left == right;
  }

  /** On `)`: moving `popped` from above the matching `(` to the output, and dropping
      that `(` together with the `)`, keeps every other character. */
  lemma CloseMove(out: string, kept: string, popped: string)
    ensures multiset(out + Reversed(popped)) + multiset(kept) + multiset{'(', ')'}
            == multiset(out) + multiset(kept + ['('] + popped) + multiset{')'}
  {
    ReversedMultiset(popped);
    var left := multiset(out + Reversed(popped)) + multiset(kept) + multiset{'(', ')'};
    var right := multiset(out) + multiset(kept + ['('] + popped) + multiset{')'};
    forall c
      ensures left[c] == right[c]
    {
    }
    assert left == right;
  }

  /** On an operator `ch`: moving `popped` to the output and pushing `ch` keeps every
      character. */
  lemma PushMove(out: string, kept: string, popped: string, ch: char)
    ensures multiset(out + Reversed(popped)) + multiset(kept + [ch])
            == multiset(out) + multiset(kept + popped) + multiset{ch}
  {
    ReversedMultiset(popped);
    var left := multiset(out + Reversed(popped)) + multiset(kept + [ch]);
    var right := multiset(out) + multiset(kept + popped) + multiset{ch};
    forall c
      ensures left[c] == right[c]
    {
    }
    assert left == right;
  }

  /** A bottom part of a well-shaped stack is well-shaped. */
  lemma PrefixShape(ops: string, k: nat)
    requires k <= |ops| && StackShape(ops) && SegmentsSorted(ops)
    ensures StackShape(ops[..k]) && SegmentsSorted(ops[..k])
  {
    var kept := ops[..k];
    forall j | 0 < j < |kept|
      ensures OrderedAt(kept, j)
    {
      assert OrderedAt(ops, j);
    }
  }

  /** Pushing a `(`, or an operator that ranks at least as high as the top, keeps the
      stack well-shaped. */
  lemma PushShape(ops: string, ch: char)
    requires StackShape(ops) && SegmentsSorted(ops)
    requires ch == '(' || IsRegexOperator(ch)
    requires ch != '(' && ops != [] ==> Precedence(Top(ops)) <= Precedence(ch)
    ensures StackShape(ops + [ch]) && SegmentsSorted(ops + [ch])
  {
    var pushed := ops + [ch];
    forall j | 0 < j < |pushed|
      ensures OrderedAt(pushed, j)
    {
      if j < |ops| {
        assert OrderedAt(ops, j);
      }
    }
  }

  /** Emitting a run of stack entries adds no literal and no parenthesis to the output. */
  lemma EmitOperators(out: string, popped: string)
    requires forall k :: 0 <= k < |popped| ==> IsRegexOperator(popped[k])
    requires NoParens(out)
    ensures NoParens(out + Reversed(popped))
    ensures Literals(out + Reversed(popped)) == Literals(out)
    ensures multiset(out + Reversed(popped)) == multiset(out) + multiset(popped)
  {
    var rev := Reversed(popped);
    ReversedOperators(popped);
    LiteralsAppend(out, rev);
    NoLiterals(rev);
    ReversedMultiset(popped);
    var both := out + rev;
    forall k | 0 <= k < |both|
      ensures both[k] != '(' && both[k] != ')'
    {
      if k >= |out| {
        assert both[k] == rev[k - |out|];
      }
    }
  }

  lemma ReversedOperators(popped: string)
    requires forall k :: 0 <= k < |popped| ==> IsRegexOperator(popped[k])
    ensures forall k :: 0 <= k < |Reversed(popped)| ==> IsRegexOperator(Reversed(popped)[k])
  {
    var rev := Reversed(popped);
    ReversedAt(popped);
    forall k | 0 <= k < |rev|
      ensures IsRegexOperator(rev[k])
    {
      assert rev[k] == popped[|popped| - 1 - k];
    }
  }

  /** What one successful step from `s` on `ch` to `t` keeps: the state's shape, literals
      moved to the output in order, and the characters held by output and stack, up to
      the `(`/`)` pair a `)` drops. */
  predicate StepKeeps(s: State, ch: char, t: State) {
    && WellShaped(t)
    && Literals(t.output) == Literals(s.output) + Literals([ch])
    && multiset(t.output) + multiset(t.operators) + Pairs(Count(')', [ch]))
       == multiset(s.output) + multiset(s.operators) + multiset{ch}
  }

  lemma LiteralsOne(ch: char)
    ensures Literals([ch]) == (if IsLiteral(ch) then [ch] else [])
  {
    assert [ch][1..] == [];
  }

  lemma StepLiteral(s: State, ch: char)
    requires WellShaped(s) && IsLiteral(ch)
    ensures Step(s, ch) == Ok(State(s.output + [ch], s.operators))
    ensures StepKeeps(s, ch, Step(s, ch).value)
  {
    LiteralsOne(ch);
    LiteralsAppend(s.output, [ch]);
    assert Count(')', [ch]) == 0;
  }

  lemma StepOpen(s: State)
    requires WellShaped(s)
    ensures Step(s, '(') == Ok(State(s.output, s.operators + ['(']))
    ensures StepKeeps(s, '(', Step(s, '(').value)
  {
    LiteralsOne('(');
    assert Count(')', ['(']) == 0;
    PushShape(s.operators, '(');
  }

  lemma CloseShape(s: State)
    requires WellShaped(s) && PopToOpen(s).Ok?
    ensures WellShaped(PopToOpen(s).value)
    ensures Literals(PopToOpen(s).value.output) == Literals(s.output)
  {
    var ops := s.operators;
    PopToOpenEffect(s);
    var t := PopToOpen(s).value;
    var k := |t.operators|;
    var popped := ops[k + 1..];
    forall j | 0 <= j < |popped|
      ensures IsRegexOperator(popped[j])
    {
      assert popped[j] == ops[k + 1 + j];
    }
    PrefixShape(ops, k);
    EmitOperators(s.output, popped);
  }

  lemma CloseMultiset(s: State)
    requires PopToOpen(s).Ok?
    ensures var t := PopToOpen(s).value;
            multiset(t.output) + multiset(t.operators) + multiset{'(', ')'}
            == multiset(s.output) + multiset(s.operators) + multiset{')'}
  {
    var ops := s.operators;
    PopToOpenEffect(s);
    var t := PopToOpen(s).value;
    var k := |t.operators|;
    var popped := ops[k + 1..];
    assert ops == ops[..k] + ['('] + popped;
    CloseMove(s.output, ops[..k], popped);
  }

  lemma StepClose(s: State)
    requires WellShaped(s)
    ensures Step(s, ')').Err? <==> Count('(', s.operators) == 0
    ensures Step(s, ')').Ok? ==> StepKeeps(s, ')', Step(s, ')').value)
  {
    assert ('(' in s.operators) <==> Count('(', s.operators) > 0;
    PopToOpenSucceeds(s);
    if PopToOpen(s).Ok? {
      CloseShape(s);
      CloseMultiset(s);
      LiteralsOne(')');
      assert Count(')', [')']) == 1;
      assert Pairs(1) == multiset{'(', ')'} by {
        assert Pairs(1) == Pairs(0) + multiset{'(', ')'};
      }
    }
  }

  lemma OperatorShape(s: State, ch: char)
    requires WellShaped(s) && IsRegexOperator(ch)
    ensures var p := PopBound(s, ch);
            && WellShaped(State(p.output, p.operators + [ch]))
            && Literals(p.output) == Literals(s.output)
  {
    var ops := s.operators;
    PopBoundEffect(s, ch);
    var p := PopBound(s, ch);
    var k := |p.operators|;
    var popped := ops[k..];
    forall j | 0 <= j < |popped|
      ensures IsRegexOperator(popped[j])
    {
      assert popped[j] == ops[k + j];
      assert PopsBefore(ops[k + j], ch);
    }
    EmitOperators(s.output, popped);
    PrefixShape(ops, k);
    PushShape(p.operators, ch);
  }

  lemma OperatorMultiset(s: State, ch: char)
    ensures var p := PopBound(s, ch);
            multiset(p.output) + multiset(p.operators + [ch])
            == multiset(s.output) + multiset(s.operators) + multiset{ch}
  {
    var ops := s.operators;
    PopBoundEffect(s, ch);
    var p := PopBound(s, ch);
    var k := |p.operators|;
    var popped := ops[k..];
    assert ops == ops[..k] + popped;
    PushMove(s.output, ops[..k], popped, ch);
  }

  lemma StepOperator(s: State, ch: char)
    requires WellShaped(s) && IsRegexOperator(ch)
    ensures Step(s, ch).Ok? && StepKeeps(s, ch, Step(s, ch).value)
  {
    OperatorShape(s, ch);
    OperatorMultiset(s, ch);
    LiteralsOne(ch);
    assert Count(')', [ch]) == 0;
  }

  /** One character: the conversion fails exactly on a `)` with no `(` on the stack, and
      otherwise keeps what StepKeeps lists. */
  lemma StepPreserves(s: State, ch: char)
    requires WellShaped(s)
    ensures Step(s, ch).Err? <==> ch == ')' && Count('(', s.operators) == 0
    ensures Step(s, ch).Ok? ==> StepKeeps(s, ch, Step(s, ch).value)
  {
    if IsLiteral(ch) {
      StepLiteral(s, ch);
    } else if ch == '(' {
      StepOpen(s);
    } else if ch == ')' {
      StepClose(s);
    } else {
      StepOperator(s, ch);
    }
  }

  lemma {:induction false} MatchedFromStep(d: int, w: string)
    requires w != []
    ensures MatchedFrom(d, w) <==> (w[0] == ')' ==> d > 0) && MatchedFrom(d + Delta(w[0]), w[1..])
  {
    var w1 := w[1..];
    forall k | 1 <= k <= |w|
      ensures w[..k] == [w[0]] + w1[..k - 1]
      ensures Count('(', w[..k]) == Count('(', [w[0]]) + Count('(', w1[..k - 1])
      ensures Count(')', w[..k]) == Count(')', [w[0]]) + Count(')', w1[..k - 1])
    {
      assert w[..k] == [w[0]] + w1[..k - 1];
    }
    assert w[..0] == [];
    if MatchedFrom(d, w) {
      forall k | 0 <= k < |w1| && w1[k] == ')'
        ensures d + Delta(w[0]) + Count('(', w1[..k]) - Count(')', w1[..k]) > 0
      {
        assert w[k + 1] == ')';
      }
    }
    if (w[0] == ')' ==> d > 0) && MatchedFrom(d + Delta(w[0]), w1) {
      forall k | 0 <= k < |w| && w[k] == ')'
        ensures d + Count('(', w[..k]) - Count(')', w[..k]) > 0
      {
        if k > 0 {
          assert w1[k - 1] == ')';
        }
      }
    }
  }

  lemma NoParensCount(s: string)
    requires NoParens(s)
    ensures Count('(', s) == 0 && Count(')', s) == 0
  {
    assert '(' !in s && ')' !in s;
  }

  lemma NoParensFromCounts(s: string)
    requires Count('(', s) == 0 && Count(')', s) == 0
    ensures NoParens(s)
  {
    forall k | 0 <= k < |s|
      ensures s[k] != '(' && s[k] != ')'
    {
      assert s[k] in multiset(s);
    }
  }

  lemma {:induction false} PairsCount(n: nat)
    ensures Pairs(n)['('] == n && Pairs(n)[')'] == n
  {
    if n > 0 {
      PairsCount(n - 1);
    }
  }

  lemma {:induction false} PairsSize(n: nat)
    ensures |Pairs(n)| == 2 * n
  {
    if n > 0 {
      PairsSize(n - 1);
    }
  }

  /** A step changes the number of `(` on the stack by the nesting change of its character. */
  lemma OpenCount(s: State, ch: char, t: State)
    requires WellShaped(s) && StepKeeps(s, ch, t)
    ensures Count('(', t.operators) == Count('(', s.operators) + Delta(ch)
  {
    NoParensCount(s.output);
    NoParensCount(t.output);
    var closes := Count(')', [ch]);
    assert closes == (if ch == ')' then 1 else 0);
    PairsCount(closes);
    var left := multiset(t.output) + multiset(t.operators) + Pairs(closes);
    var right := multiset(s.output) + multiset(s.operators) + multiset{ch};
    assert left['('] == right['('];
  }

  /** What a successful run from `s` over `w` to `t` keeps: the shape, the literals of `w`
      appended in order, and every character except one `(`/`)` pair per `)` of `w`. */
  predicate RunKeeps(s: State, w: string, t: State) {
    && WellShaped(t)
    && Literals(t.output) == Literals(s.output) + Literals(w)
    && multiset(t.output) + multiset(t.operators) + Pairs(Count(')', w))
       == multiset(s.output) + multiset(s.operators) + multiset(w)
  }

  lemma ChainKeeps(s: State, ch: char, next: State, rest: string, t: State)
    requires StepKeeps(s, ch, next) && RunKeeps(next, rest, t)
    ensures RunKeeps(s, [ch] + rest, t)
  {
    ChainLiterals(Literals(s.output), Literals(next.output), Literals(t.output), ch, rest);
    ChainCounts(multiset(t.output), multiset(t.operators), multiset(next.output), multiset(next.operators),
                multiset(s.output), multiset(s.operators), ch, rest);
  }

  lemma ChainLiterals(before: string, middle: string, after: string, ch: char, rest: string)
    requires middle == before + Literals([ch]) && after == middle + Literals(rest)
    ensures after == before + Literals([ch] + rest)
  {
    LiteralsAppend([ch], rest);
  }

  /** Chaining the character balances of one step and of the run after it. */
  lemma ChainCounts(t1: multiset<char>, t2: multiset<char>, n1: multiset<char>, n2: multiset<char>,
                    s1: multiset<char>, s2: multiset<char>, ch: char, rest: string)
    requires t1 + t2 + Pairs(Count(')', rest)) == n1 + n2 + multiset(rest)
    requires n1 + n2 + Pairs(Count(')', [ch])) == s1 + s2 + multiset{ch}
    ensures t1 + t2 + Pairs(Count(')', [ch] + rest)) == s1 + s2 + multiset([ch] + rest)
  {
    var p1, p2 := Pairs(Count(')', [ch])), Pairs(Count(')', rest));
    CountAppend(')', [ch], rest);
    PairsAdd(Count(')', [ch]), Count(')', rest));
    assert multiset([ch] + rest) == multiset{ch} + multiset(rest);
    Rebalance(t1, t2, n1, n2, s1, s2, p1, p2, multiset{ch}, multiset(rest));
  }

  /** Chaining two balances, element by element. */
  lemma Rebalance(t1: multiset<char>, t2: multiset<char>, n1: multiset<char>, n2: multiset<char>,
                  s1: multiset<char>, s2: multiset<char>, p1: multiset<char>, p2: multiset<char>,
                  m1: multiset<char>, m2: multiset<char>)
    requires t1 + t2 + p2 == n1 + n2 + m2
    requires n1 + n2 + p1 == s1 + s2 + m1
    ensures t1 + t2 + (p1 + p2) == s1 + s2 + (m1 + m2)
  {
    var left := t1 + t2 + (p1 + p2);
    var right := s1 + s2 + (m1 + m2);
    forall c
      ensures left[c] == right[c]
    {
      assert (t1 + t2 + p2)[c] == (n1 + n2 + m2)[c];
      assert (n1 + n2 + p1)[c] == (s1 + s2 + m1)[c];
    }
    assert left == right;
  }

  lemma CountAppend(c: char, a: string, b: string)
    ensures Count(c, a + b) == Count(c, a) + Count(c, b)
  {
    assert multiset(a + b) == multiset(a) + multiset(b);
  }

  /** A run from a well-shaped state fails exactly when some `)` finds no open group;
      otherwise it keeps what RunKeeps lists. */
  lemma {:induction false} RunPreserves(s: State, w: string)
    requires WellShaped(s)
    ensures RunFrom(s, w).Err? <==> !MatchedFrom(Count('(', s.operators), w)
    ensures RunFrom(s, w).Ok? ==> RunKeeps(s, w, RunFrom(s, w).value)
    decreases |w|
  {
    if w == [] {
      assert Count(')', w) == 0;
      assert Literals(w) == [];
    } else {
      var ch := w[0];
      StepPreserves(s, ch);
      MatchedFromStep(Count('(', s.operators), w);
      assert w == [ch] + w[1..];
      match Step(s, ch)
      case Err(_) =>
      case Ok(next) =>
        RunPreserves(next, w[1..]);
        OpenCount(s, ch, next);
        if RunFrom(next, w[1..]).Ok? {
          ChainKeeps(s, ch, next, w[1..], RunFrom(next, w[1..]).value);
        }
    }
  }

  /** Emitting what is left on a well-shaped stack adds no literal and no `)`. */
  lemma FlushContents(t: State)
    requires WellShaped(t)
    ensures Literals(Flushed(t)) == Literals(t.output)
    ensures multiset(Flushed(t)) == multiset(t.output) + multiset(t.operators)
    ensures Count(')', Flushed(t)) == 0
    ensures Count('(', Flushed(t)) == Count('(', t.operators)
  {
    var rev := Reversed(t.operators);
    ReversedMultiset(t.operators);
    ReversedAt(t.operators);
    LiteralsAppend(t.output, rev);
    forall k | 0 <= k < |rev|
      ensures !IsLiteral(rev[k])
    {
      assert rev[k] == t.operators[|t.operators| - 1 - k];
    }
    NoLiterals(rev);
    NoParensCount(t.output);
    assert ')' !in t.operators;
  }

  /** convertToPostfix fails exactly on a `)` without a matching `(`. On success the
      literals come out in their input order, and the output holds the input's characters
      with each `)` and the `(` it matched removed; a `(` never closed is emitted at the end. */
  lemma ToPostfixContents(infix: string)
    ensures ToPostfix(infix).Err? <==> !Matched(infix)
    ensures ToPostfix(infix).Ok? ==>
              var r := ToPostfix(infix).value;
              && Literals(r) == Literals(infix)
              && multiset(r) + Pairs(Count(')', infix)) == multiset(infix)
              && Count(')', r) == 0
              && Count('(', r) == Count('(', infix) - Count(')', infix)
  {
    assert WellShaped(Start);
    RunPreserves(Start, infix);
    if RunFrom(Start, infix).Ok? {
      var t := RunFrom(Start, infix).value;
      FlushContents(t);
      NoParensCount(t.output);
      PairsCount(Count(')', infix));
      assert multiset(t.output) + multiset(t.operators) + Pairs(Count(')', infix)) == multiset(infix);
    }
  }

  /** For balanced input the output has no parentheses: it is a permutation of the input
      with the parentheses removed, and so that much shorter. */
  lemma BalancedPostfix(infix: string)
    requires Matched(infix) && Count('(', infix) == Count(')', infix)
    ensures ToPostfix(infix).Ok?
    ensures NoParens(ToPostfix(infix).value)
    ensures |ToPostfix(infix).value| == |infix| - Count('(', infix) - Count(')', infix)
    ensures multiset(ToPostfix(infix).value) == multiset(infix)['(' := 0][')' := 0]
  {
    ToPostfixContents(infix);
    var r := ToPostfix(infix).value;
    var closes := Count(')', infix);
    PairsSize(closes);
    NoParensFromCounts(r);
    assert |multiset(r) + Pairs(closes)| == |multiset(infix)|;
    NoParensCount(r);
    var stripped := multiset(infix)['(' := 0][')' := 0];
    forall c
      ensures multiset(r)[c] == stripped[c]
    {
      if c != '(' && c != ')' {
        PairsOnlyParens(closes, c);
        assert (multiset(r) + Pairs(closes))[c] == multiset(infix)[c];
      }
    }
    assert multiset(r) == stripped;
  }

  /** `Pairs(n)` holds nothing but parentheses. */
  lemma {:induction false} PairsOnlyParens(n: nat, c: char)
    requires c != '(' && c != ')'
    ensures Pairs(n)[c] == 0
  {
    if n > 0 {
      PairsOnlyParens(n - 1, c);
    }
  }

  /** Every state the converter reaches on a prefix of its input keeps the operator stack
      ordered: between `(` entries, precedences never decrease from bottom to top. */
  lemma OperatorStackOrdered(infix: string, k: nat)
    requires k <= |infix| && RunFrom(Start, infix[..k]).Ok?
    ensures SegmentsSorted(RunFrom(Start, infix[..k]).value.operators)
    ensures StackShape(RunFrom(Start, infix[..k]).value.operators)
  {
    RunPreserves(Start, infix[..k]);
  }
}
