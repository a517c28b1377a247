/** What Thompson's construction guarantees: the exact moves and states each token adds,
    that every index it stores names an existing state, when it fails, and how many
    states and fragments a run leaves. */
module ThompsonProperties {
  import opened Syntax
  import opened Results
  import opened Thompson

  /** The epsilon moves of state `i`, as (from, to) pairs. */
  function EdgesFrom(i: nat, moves: seq<nat>): multiset<(nat, nat)> {
    multiset(seq(|moves|, k requires 0 <= k < |moves| => (i, moves[k])))
  }

  /** One more epsilon move on state `i` is one more pair. */
  lemma EdgesFromAppend(i: nat, moves: seq<nat>, to: nat)
    ensures EdgesFrom(i, moves + [to]) == EdgesFrom(i, moves) + multiset{(i, to)}
  {
    var longer := moves + [to];
    var pairs := seq(|moves|, k requires 0 <= k < |moves| => (i, moves[k]));
    var more := seq(|longer|, k requires 0 <= k < |longer| => (i, longer[k]));
    assert more == pairs + [(i, to)];
  }

  /** The epsilon moves of the states below `n`, as (from, to) pairs. */
  function EdgesBelow(states: seq<AutomatonState>, n: nat): multiset<(nat, nat)>
    requires n <= |states|
  {
    if n == 0 then multiset{}
    else EdgesBelow(states, n - 1) + EdgesFrom(n - 1, states[n - 1].epsilonMoves)
  }

  /** Every epsilon move of the arena, as (from, to) pairs. */
  function EpsEdges(states: seq<AutomatonState>): multiset<(nat, nat)> {
    EdgesBelow(states, |states|)
  }

  lemma UnionAssoc<T>(a: multiset<T>, b: multiset<T>, c: multiset<T>)
    ensures a + b + c == a + (b + c)
  {
    var left, right := a + b + c, a + (b + c);
    forall x
      ensures left[x] == right[x]
    {
    }
    assert left == right;
  }

  lemma UnionSwap<T>(a: multiset<T>, b: multiset<T>, c: multiset<T>)
    ensures a + b + c == a + c + b
  {
    var left, right := a + b + c, a + c + b;
    forall x
      ensures left[x] == right[x]
    {
    }
    assert left == right;
  }

  /** Only the epsilon moves of the states below `n` matter. */
  lemma {:induction false} EdgesBelowSame(a: seq<AutomatonState>, b: seq<AutomatonState>, n: nat)
    requires n <= |a| && n <= |b|
    requires forall i :: 0 <= i < n ==> a[i].epsilonMoves == b[i].epsilonMoves
    ensures EdgesBelow(a, n) == EdgesBelow(b, n)
  {
    if n > 0 {
      EdgesBelowSame(a, b, n - 1);
    }
  }

  /** New states have no moves, so they add no epsilon move. */
  lemma {:induction false} FreshStatesEdges(states: seq<AutomatonState>)
    ensures EpsEdges(states + [EmptyState, EmptyState]) == EpsEdges(states)
  {
    var two := states + [EmptyState, EmptyState];
    var n := |states|;
    EdgesBelowSame(two, states, n);
    assert EdgesBelow(two, n + 1) == EdgesBelow(two, n) + EdgesFrom(n, []);
    assert EdgesBelow(two, n + 2) == EdgesBelow(two, n + 1) + EdgesFrom(n + 1, []);
  }

  /** Adding the epsilon move `from -> to` adds that pair to the moves of every prefix
      that contains state `from`. */
  lemma {:induction false} AddEpsilonBelow(states: seq<AutomatonState>, from: nat, to: nat, n: nat)
    requires from < n <= |states|
    ensures EdgesBelow(AddEpsilon(states, from, to), n) == EdgesBelow(states, n) + multiset{(from, to)}
  {
    var after := AddEpsilon(states, from, to);
    var moves := states[n - 1].epsilonMoves;
    if from == n - 1 {
      EdgesBelowSame(after, states, n - 1);
      assert after[n - 1].epsilonMoves == moves + [to];
      EdgesFromAppend(from, moves, to);
      UnionAssoc(EdgesBelow(states, n - 1), EdgesFrom(from, moves), multiset{(from, to)});
    } else {
      AddEpsilonBelow(states, from, to, n - 1);
      assert after[n - 1] == states[n - 1];
      UnionSwap(EdgesBelow(states, n - 1), multiset{(from, to)}, EdgesFrom(n - 1, moves));
    }
  }

  /** Adding the epsilon move `from -> to` adds exactly that pair. */
  lemma AddEpsilonEdges(states: seq<AutomatonState>, from: nat, to: nat)
    requires from < |states|
    ensures EpsEdges(AddEpsilon(states, from, to)) == EpsEdges(states) + multiset{(from, to)}
  {
    AddEpsilonBelow(states, from, to, |states|);
  }

  /** A symbol move changes no epsilon move. */
  lemma AddSymbolEdges(states: seq<AutomatonState>, from: nat, c: char, to: nat)
    requires from < |states|
    ensures EpsEdges(AddSymbol(states, from, c, to)) == EpsEdges(states)
  {
    EdgesBelowSame(AddSymbol(states, from, c, to), states, |states|);
  }

  /** Every epsilon move of the states below `n` starts at one of them: no move from
      state `n` or above is counted. */
  lemma {:induction false} EdgeSources(states: seq<AutomatonState>, n: nat, e: (nat, nat))
    requires n <= |states| && n <= e.0
    ensures EdgesBelow(states, n)[e] == 0
    decreases n
  {
    if n > 0 {
      EdgeSources(states, n - 1, e);
      EdgesFromSource(n - 1, states[n - 1].epsilonMoves, e);
    }
  }

  lemma EdgesFromSource(i: nat, moves: seq<nat>, e: (nat, nat))
    requires e.0 != i
    ensures EdgesFrom(i, moves)[e] == 0
  {
    var pairs := seq(|moves|, k requires 0 <= k < |moves| => (i, moves[k]));
    assert e !in pairs;
  }

  /** Every move of `moves` starts at a state below `n`. */
  predicate FromBelow(moves: seq<(nat, nat)>, n: nat) {
    forall k :: 0 <= k < |moves| ==> moves[k].0 < n
  }

  /** Every move of `moves` starts and ends at a state below `n`. */
  predicate Within(moves: seq<(nat, nat)>, n: nat) {
    forall k :: 0 <= k < |moves| ==> moves[k].0 < n && moves[k].1 < n
  }

  /** `states` with the epsilon moves `moves` appended one after the other, as a run of
      addEpsilonTransition calls does. */
  function AddMoves(states: seq<AutomatonState>, moves: seq<(nat, nat)>): seq<AutomatonState>
    requires FromBelow(moves, |states|)
    decreases |moves|
  {
    if moves == [] then states
    else AddMoves(AddEpsilon(states, moves[0].0, moves[0].1), moves[1..])
  }

  lemma AddMovesCons(states: seq<AutomatonState>, m: (nat, nat), rest: seq<(nat, nat)>)
    requires FromBelow([m] + rest, |states|)
    ensures m.0 < |states| && FromBelow(rest, |states|)
    ensures AddMoves(states, [m] + rest) == AddMoves(AddEpsilon(states, m.0, m.1), rest)
  {
    assert ([m] + rest)[0] == m;
    assert forall k :: 0 <= k < |rest| ==> rest[k] == ([m] + rest)[k + 1];
    assert ([m] + rest)[1..] == rest;
  }

  /** Appending a run of epsilon moves adds exactly those moves. */
  lemma {:induction false} AddMovesEdges(states: seq<AutomatonState>, moves: seq<(nat, nat)>)
    requires FromBelow(moves, |states|)
    ensures EpsEdges(AddMoves(states, moves)) == EpsEdges(states) + multiset(moves)
    decreases |moves|
  {
    if moves != [] {
      var next := AddEpsilon(states, moves[0].0, moves[0].1);
      AddEpsilonEdges(states, moves[0].0, moves[0].1);
      AddMovesEdges(next, moves[1..]);
      assert moves == [moves[0]] + moves[1..];
      UnionAssoc(EpsEdges(states), multiset{moves[0]}, multiset(moves[1..]));
    }
  }

  /** The arena `|` builds: two fresh states, then the epsilon moves from the new entry
      to both entries and from both exits to the new exit. */
  lemma {:induction false} UnionArena(b: Builder) returns (moves: seq<(nat, nat)>)
    requires InRange(b) && |b.fragments| >= 2
    ensures var first, second, n := BelowTop(b), TopFragment(b), |b.states|;
            && moves == [(n, first.startState), (n, second.startState), (first.endState, n + 1), (second.endState, n + 1)]
            && Within(moves, n + 2)
            && UnionStep(b).states == AddMoves(b.states + [EmptyState, EmptyState], moves)
  {
    var first, second, n := BelowTop(b), TopFragment(b), |b.states|;
    var a, c, d, e := (n, first.startState), (n, second.startState), (first.endState, n + 1), (second.endState, n + 1);
    moves := [a, c, d, e];
    var s0 := b.states + [EmptyState, EmptyState];
    var s1 := AddEpsilon(s0, a.0, a.1);
    var s2 := AddEpsilon(s1, c.0, c.1);
    var s3 := AddEpsilon(s2, d.0, d.1);
    assert moves == [a] + [c, d, e];
    AddMovesCons(s0, a, [c, d, e]);
    AddMovesCons(s1, c, [d, e]);
    AddMovesCons(s2, d, [e]);
    AddMovesCons(s3, e, []);
    assert UnionStep(b).states == AddEpsilon(s3, e.0, e.1);
  }

  /** The arena `*` builds: two fresh states, then the moves entering the fragment,
      skipping it, looping back over it and leaving it. */
  lemma {:induction false} StarArena(b: Builder) returns (moves: seq<(nat, nat)>)
    requires InRange(b) && |b.fragments| >= 1
    ensures var f, n := TopFragment(b), |b.states|;
            && moves == [(n, f.startState), (n, n + 1), (f.endState, f.startState), (f.endState, n + 1)]
            && Within(moves, n + 2)
            && RepeatStep(b, '*').states == AddMoves(b.states + [EmptyState, EmptyState], moves)
  {
    var f, n := TopFragment(b), |b.states|;
    var enter, skip, loop, leave := (n, f.startState), (n, n + 1), (f.endState, f.startState), (f.endState, n + 1);
    moves := [enter, skip, loop, leave];
    var s0 := b.states + [EmptyState, EmptyState];
    var s1 := AddEpsilon(s0, enter.0, enter.1);
    var s2 := AddEpsilon(s1, skip.0, skip.1);
    var s3 := AddEpsilon(s2, loop.0, loop.1);
    assert moves == [enter] + [skip, loop, leave];
    AddMovesCons(s0, enter, [skip, loop, leave]);
    AddMovesCons(s1, skip, [loop, leave]);
    AddMovesCons(s2, loop, [leave]);
    AddMovesCons(s3, leave, []);
    assert RepeatStep(b, '*').states == AddEpsilon(s3, leave.0, leave.1);
  }

  /** The arena `+` builds: like `*` without the move that skips the fragment. */
  lemma {:induction false} PlusArena(b: Builder) returns (moves: seq<(nat, nat)>)
    requires InRange(b) && |b.fragments| >= 1
    ensures var f, n := TopFragment(b), |b.states|;
            && moves == [(n, f.startState), (f.endState, f.startState), (f.endState, n + 1)]
            && Within(moves, n + 2)
            && RepeatStep(b, '+').states == AddMoves(b.states + [EmptyState, EmptyState], moves)
  {
    var f, n := TopFragment(b), |b.states|;
    var enter, loop, leave := (n, f.startState), (f.endState, f.startState), (f.endState, n + 1);
    moves := [enter, loop, leave];
    var s0 := b.states + [EmptyState, EmptyState];
    var s1 := AddEpsilon(s0, enter.0, enter.1);
    var s3 := AddEpsilon(s1, loop.0, loop.1);
    assert moves == [enter] + [loop, leave];
    AddMovesCons(s0, enter, [loop, leave]);
    AddMovesCons(s1, loop, [leave]);
    AddMovesCons(s3, leave, []);
    assert RepeatStep(b, '+').states == AddEpsilon(s3, leave.0, leave.1);
  }

  /** The arena `?` builds: like `*` without the move that loops back. */
  lemma {:induction false} OptionalArena(b: Builder) returns (moves: seq<(nat, nat)>)
    requires InRange(b) && |b.fragments| >= 1
    ensures var f, n := TopFragment(b), |b.states|;
            && moves == [(n, f.startState), (n, n + 1), (f.endState, n + 1)]
            && Within(moves, n + 2)
            && RepeatStep(b, '?').states == AddMoves(b.states + [EmptyState, EmptyState], moves)
  {
    var f, n := TopFragment(b), |b.states|;
    var enter, skip, leave := (n, f.startState), (n, n + 1), (f.endState, n + 1);
    moves := [enter, skip, leave];
    var s0 := b.states + [EmptyState, EmptyState];
    var s1 := AddEpsilon(s0, enter.0, enter.1);
    var s3 := AddEpsilon(s1, skip.0, skip.1);
    assert moves == [enter] + [skip, leave];
    AddMovesCons(s0, enter, [skip, leave]);
    AddMovesCons(s1, skip, [leave]);
    AddMovesCons(s3, leave, []);
    assert RepeatStep(b, '?').states == AddEpsilon(s3, leave.0, leave.1);
  }

  /** The arena any of `*`, `+`, `?` builds is two fresh states plus epsilon moves
      between states of the new arena. */
  lemma RepeatArena(b: Builder, token: char) returns (moves: seq<(nat, nat)>)
    requires InRange(b) && |b.fragments| >= 1 && IsUnary(token)
    ensures Within(moves, |b.states| + 2)
    ensures RepeatStep(b, token).states == AddMoves(b.states + [EmptyState, EmptyState], moves)
  {
    if token == '*' {
      moves := StarArena(b);
    } else if token == '+' {
      moves := PlusArena(b);
    } else {
      moves := OptionalArena(b);
    }
  }

  /** A literal adds two states, joined by one move on the literal and by no epsilon
      move, leaves every earlier state as it was, and pushes one fragment. */
  lemma {:induction false} LiteralEffect(b: Builder, token: char)
    ensures var n := |b.states|;
            var t := LiteralStep(b, token);
            && |t.states| == n + 2
            && t.states[..n] == b.states
            && t.states[n] == AutomatonState([], map[token := [n + 1]])
            && t.states[n + 1] == EmptyState
            && EpsEdges(t.states) == EpsEdges(b.states)
            && t.fragments == b.fragments + [NFASegment(n, n + 1)]
  {
    var n := |b.states|;
    var s0 := b.states + [EmptyState, EmptyState];
    FreshStatesEdges(b.states);
    AddSymbolEdges(s0, n, token, n + 1);
    assert Targets(EmptyState, token) == [];
    assert [] + [n + 1] == [n + 1];
    assert map[][token := [n + 1]] == map[token := [n + 1]];
    assert LiteralStep(b, token).states[..n] == s0[..n];
  }

  /** `.` adds no state and the single epsilon move from the first fragment's exit to the
      second's entry, and replaces the two fragments by one spanning both. */
  lemma {:induction false} ConcatEffect(b: Builder)
    requires InRange(b) && |b.fragments| >= 2
    ensures var first, second := BelowTop(b), TopFragment(b);
            var t := ConcatStep(b);
            && |t.states| == |b.states|
            && EpsEdges(t.states) == EpsEdges(b.states) + multiset{(first.endState, second.startState)}
            && (forall i :: 0 <= i < |b.states| ==> t.states[i].symbolMoves == b.states[i].symbolMoves)
            && t.fragments == b.fragments[..|b.fragments| - 2] + [NFASegment(first.startState, second.endState)]
  {
    var first, second := BelowTop(b), TopFragment(b);
    AddEpsilonEdges(b.states, first.endState, second.startState);
  }

  /** `|` adds two states without symbol moves and leaves the symbol moves of earlier
      states alone, and replaces the two top fragments by one. */
  lemma {:induction false} UnionShape(b: Builder)
    requires InRange(b) && |b.fragments| >= 2
    ensures var n := |b.states|;
            var t := UnionStep(b);
            && |t.states| == n + 2
            && (forall i :: 0 <= i < |b.states| ==> t.states[i].symbolMoves == b.states[i].symbolMoves)
            && t.states[n].symbolMoves == map[] && t.states[n + 1].symbolMoves == map[]
            && t.fragments == b.fragments[..|b.fragments| - 2] + [NFASegment(n, n + 1)]
  {
  }

  /** `|` adds four epsilon moves: from the new entry to both fragments' entries, and
      from both fragments' exits to the new exit. */
  lemma {:induction false} UnionEffect(b: Builder)
    requires InRange(b) && |b.fragments| >= 2
    ensures var first, second := BelowTop(b), TopFragment(b);
            var n := |b.states|;
            EpsEdges(UnionStep(b).states) == EpsEdges(b.states) +
              multiset{(n, first.startState), (n, second.startState), (first.endState, n + 1), (second.endState, n + 1)}
  {
    var moves := UnionArena(b);
    FreshStatesEdges(b.states);
    AddMovesEdges(b.states + [EmptyState, EmptyState], moves);
  }



  /** The part `*`, `+` and `?` share: two new states without symbol moves, earlier
      states keep their symbol moves, and the top fragment is replaced by the new one. */
  lemma {:induction false} RepeatShape(b: Builder, token: char)
    requires InRange(b) && |b.fragments| >= 1 && IsUnary(token)
    ensures var n := |b.states|;
            var t := RepeatStep(b, token);
            && |t.states| == n + 2
            && (forall i :: 0 <= i < |b.states| ==> t.states[i].symbolMoves == b.states[i].symbolMoves)
            && t.states[n].symbolMoves == map[] && t.states[n + 1].symbolMoves == map[]
            && t.fragments == b.fragments[..|b.fragments| - 1] + [NFASegment(n, n + 1)]
  {
  }

  /** `*` adds four epsilon moves: the new entry enters the fragment or skips to the new
      exit, and the fragment's exit loops back to its entry or leaves to the new exit. */
  lemma {:induction false} StarEffect(b: Builder)
    requires InRange(b) && |b.fragments| >= 1
    ensures var f, n := TopFragment(b), |b.states|;
            EpsEdges(RepeatStep(b, '*').states) == EpsEdges(b.states) +
              multiset{(n, f.startState), (n, n + 1), (f.endState, f.startState), (f.endState, n + 1)}
  {
    var moves := StarArena(b);
    FreshStatesEdges(b.states);
    AddMovesEdges(b.states + [EmptyState, EmptyState], moves);
  }



  /** `+` adds three epsilon moves: the new entry enters the fragment, whose exit loops
      back to its entry or leaves to the new exit. */
  lemma {:induction false} PlusEffect(b: Builder)
    requires InRange(b) && |b.fragments| >= 1
    ensures var f, n := TopFragment(b), |b.states|;
            EpsEdges(RepeatStep(b, '+').states) ==
              EpsEdges(b.states) + multiset{(n, f.startState), (f.endState, f.startState), (f.endState, n + 1)}
  {
    var moves := PlusArena(b);
    FreshStatesEdges(b.states);
    AddMovesEdges(b.states + [EmptyState, EmptyState], moves);
  }



  /** After `+` there is no epsilon move from the new entry straight to the new exit:
      the fragment must be passed at least once. */
  lemma {:induction false} PlusNeedsOnePass(b: Builder)
    requires InRange(b) && |b.fragments| >= 1
    ensures var n := |b.states|;
            (n, n + 1) !in EpsEdges(RepeatStep(b, '+').states)
  {
    var f, n := TopFragment(b), |b.states|;
    PlusEffect(b);
    if (n, n + 1) in EpsEdges(b.states) {
      EdgeSources(b.states, n, (n, n + 1));
    }
  }

  /** `?` adds three epsilon moves: the new entry enters the fragment or skips to the
      new exit, and the fragment's exit leaves to the new exit. */
  lemma {:induction false} OptionalEffect(b: Builder)
    requires InRange(b) && |b.fragments| >= 1
    ensures var f, n := TopFragment(b), |b.states|;
            EpsEdges(RepeatStep(b, '?').states) ==
              EpsEdges(b.states) + multiset{(n, f.startState), (n, n + 1), (f.endState, n + 1)}
  {
    var moves := OptionalArena(b);
    FreshStatesEdges(b.states);
    AddMovesEdges(b.states + [EmptyState, EmptyState], moves);
  }



  /** After `?` the fragment's exit has no more epsilon moves back to its entry than
      before: the fragment is passed at most once. */
  lemma {:induction false} OptionalAddsNoLoop(b: Builder)
    requires InRange(b) && |b.fragments| >= 1
    ensures var f := TopFragment(b);
            var loop := (f.endState, f.startState);
            EpsEdges(RepeatStep(b, '?').states)[loop] == EpsEdges(b.states)[loop]
  {
    OptionalEffect(b);
  }

  /** Every move of `st` leads to a state below `n`. */
  predicate TargetsBelow(st: AutomatonState, n: nat) {
    && (forall k :: 0 <= k < |st.epsilonMoves| ==> st.epsilonMoves[k] < n)
    && (forall c, k :: c in st.symbolMoves && 0 <= k < |st.symbolMoves[c]| ==> st.symbolMoves[c][k] < n)
  }

  /** Every move in the arena leads to a state of the arena. */
  predicate ValidMoves(states: seq<AutomatonState>) {
    forall i :: 0 <= i < |states| ==> TargetsBelow(states[i], |states|)
  }

  predicate WellFormed(b: Builder) {
    InRange(b) && ValidMoves(b.states)
  }

  lemma FreshStatesValid(states: seq<AutomatonState>)
    requires ValidMoves(states)
    ensures ValidMoves(states + [EmptyState, EmptyState])
  {
    var grown := states + [EmptyState, EmptyState];
    forall i | 0 <= i < |grown|
      ensures TargetsBelow(grown[i], |grown|)
    {
      if i < |states| {
        assert TargetsBelow(states[i], |states|);
      }
    }
  }

  lemma AddEpsilonValid(states: seq<AutomatonState>, from: nat, to: nat)
    requires ValidMoves(states) && from < |states| && to < |states|
    ensures ValidMoves(AddEpsilon(states, from, to))
  {
    var after := AddEpsilon(states, from, to);
    forall i | 0 <= i < |after|
      ensures TargetsBelow(after[i], |after|)
    {
      assert TargetsBelow(states[i], |states|);
    }
  }

  lemma AddSymbolValid(states: seq<AutomatonState>, from: nat, c: char, to: nat)
    requires ValidMoves(states) && from < |states| && to < |states|
    ensures ValidMoves(AddSymbol(states, from, c, to))
  {
    var after := AddSymbol(states, from, c, to);
    forall i | 0 <= i < |after|
      ensures TargetsBelow(after[i], |after|)
    {
      assert TargetsBelow(states[i], |states|);
      if i == from {
        var moves := Targets(states[i], c) + [to];
        forall k | 0 <= k < |moves|
          ensures moves[k] < |after|
        {
          if k < |moves| - 1 {
            assert moves[k] == states[i].symbolMoves[c][k];
          }
        }
      }
    }
  }

  /** Epsilon moves between existing states keep every move inside the arena. */
  lemma {:induction false} AddMovesValid(states: seq<AutomatonState>, moves: seq<(nat, nat)>)
    requires ValidMoves(states) && Within(moves, |states|)
    ensures |AddMoves(states, moves)| == |states| && ValidMoves(AddMoves(states, moves))
    decreases |moves|
  {
    if moves != [] {
      AddEpsilonValid(states, moves[0].0, moves[0].1);
      AddMovesValid(AddEpsilon(states, moves[0].0, moves[0].1), moves[1..]);
    }
  }

  lemma {:induction false} UnionValid(b: Builder)
    requires WellFormed(b) && |b.fragments| >= 2
    ensures WellFormed(UnionStep(b))
  {
    var moves := UnionArena(b);
    FreshStatesValid(b.states);
    AddMovesValid(b.states + [EmptyState, EmptyState], moves);
  }


  lemma {:induction false} RepeatValid(b: Builder, token: char)
    requires WellFormed(b) && |b.fragments| >= 1 && IsUnary(token)
    ensures WellFormed(RepeatStep(b, token))
  {
    var moves := RepeatArena(b, token);
    FreshStatesValid(b.states);
    AddMovesValid(b.states + [EmptyState, EmptyState], moves);
  }


  /** Each token keeps every stored index pointing at an existing state. */
  lemma {:induction false} StepWellFormed(b: Builder, token: char)
    requires WellFormed(b) && Step(b, token).Ok?
    ensures WellFormed(Step(b, token).value)
  {
    var n := |b.states|;
    if !IsRegexOperator(token) {
      FreshStatesValid(b.states);
      AddSymbolValid(b.states + [EmptyState, EmptyState], n, token, n + 1);
    } else if token == '.' {
      AddEpsilonValid(b.states, BelowTop(b).endState, TopFragment(b).startState);
    } else if token == '|' {
      UnionValid(b);
    } else {
      RepeatValid(b, token);
    }
  }

  /** A run keeps every stored index pointing at an existing state. */
  lemma {:induction false} RunWellFormed(b: Builder, postfix: string)
    requires WellFormed(b)
    ensures WellFormed(RunFrom(b, postfix).reached)
    decreases |postfix|
  {
    if postfix != [] {
      match Step(b, postfix[0])
      case Err(_) =>
      case Ok(next) =>
        StepWellFormed(b, postfix[0]);
        RunWellFormed(next, postfix[1..]);
    }
  }

  /** Built on an arena whose moves are valid, every move of the final arena and both
      ends of the returned fragment name states of that arena. */
  lemma ConstructValid(states: seq<AutomatonState>, postfix: string)
    requires ValidMoves(states)
    ensures var (arena, r) := Construct(states, postfix);
            && ValidMoves(arena)
            && (r.Ok? ==> r.value.startState < |arena| && r.value.endState < |arena|)
  {
    RunWellFormed(Builder(states, []), postfix);
  }

  /** Starting `depth` fragments deep, every token finds the operands it pops. */
  predicate Fits(depth: nat, postfix: string)
    decreases |postfix|
  {
    postfix == [] || (depth >= Arity(postfix[0]) && Fits(depth - Arity(postfix[0]) + 1, postfix[1..]))
  }

  /** Fragments pushed minus fragments popped by the tokens of `postfix`. */
  function NetFragments(postfix: string): int {
    if postfix == [] then 0 else 1 - Arity(postfix[0]) + NetFragments(postfix[1..])
  }

  /** How many states the tokens of `postfix` allocate: two for each token but `.`. */
  function Allocated(postfix: string): int {
    2 * (|postfix| - multiset(postfix)['.'])
  }

  lemma AllocatedCons(token: char, rest: string)
    ensures Allocated([token] + rest) == (if token == '.' then 0 else 2) + Allocated(rest)
  {
    assert multiset([token] + rest) == multiset{token} + multiset(rest);
  }

  /** One token fails exactly when the stack holds fewer fragments than it pops; otherwise
      it pops that many, pushes one, and allocates two states unless it is `.`. */
  lemma {:induction false} StepCounts(b: Builder, token: char)
    requires InRange(b)
    ensures Step(b, token).Ok? <==> |b.fragments| >= Arity(token)
    ensures Step(b, token).Err? ==> Step(b, token).error == MissingOperand(token)
    ensures Step(b, token).Ok? ==>
              var t := Step(b, token).value;
              && |t.fragments| == |b.fragments| - Arity(token) + 1
              && |t.states| == |b.states| + (if token == '.' then 0 else 2)
  {
  }

  /** A run stops exactly when some token finds too few fragments, and that token is the
      one reported; a full run changes the stack depth by NetFragments, allocates two
      states per token other than `.`, and leaves at least one fragment if any token ran. */
  lemma {:induction false} RunCounts(b: Builder, postfix: string)
    requires InRange(b)
    ensures var run := RunFrom(b, postfix);
            && (run.failure.None? <==> Fits(|b.fragments|, postfix))
            && (run.failure.Some? ==>
                  run.failure.value.MissingOperand? &&
                  |run.reached.fragments| < Arity(run.failure.value.token))
            && (run.failure.None? ==>
                  && |run.reached.fragments| == |b.fragments| + NetFragments(postfix)
                  && |run.reached.states| == |b.states| + Allocated(postfix)
                  && (postfix != [] ==> |run.reached.fragments| >= 1))
    decreases |postfix|
  {
    if postfix == [] {
      assert Allocated(postfix) == 0;
    } else {
      var token := postfix[0];
      StepCounts(b, token);
      assert postfix == [token] + postfix[1..];
      AllocatedCons(token, postfix[1..]);
      match Step(b, token)
      case Err(_) =>
      case Ok(next) =>
        RunCounts(next, postfix[1..]);
    }
  }

  /** constructFromPostfix fails with no fragment exactly on empty input, fails on a
      token short of operands exactly when the stack runs short, and otherwise returns
      the top fragment having allocated two states per token other than `.`. Leftover
      fragments below the top are not an error. */
  lemma ConstructOutcome(states: seq<AutomatonState>, postfix: string)
    ensures var (arena, r) := Construct(states, postfix);
            && (r == Err(NoFragment) <==> postfix == [])
            && (r.Ok? <==> postfix != [] && Fits(0, postfix))
            && (r.Ok? ==> |arena| == |states| + Allocated(postfix))
  {
    RunCounts(Builder(states, []), postfix);
  }

  /** `newer` keeps every state of `older`: the same symbol moves, and the same epsilon
      moves possibly followed by more. */
  predicate Extends(older: seq<AutomatonState>, newer: seq<AutomatonState>) {
    && |older| <= |newer|
    && forall i :: 0 <= i < |older| ==>
         newer[i].symbolMoves == older[i].symbolMoves && older[i].epsilonMoves <= newer[i].epsilonMoves
  }

  lemma ExtendsTrans(a: seq<AutomatonState>, b: seq<AutomatonState>, c: seq<AutomatonState>)
    requires Extends(a, b) && Extends(b, c)
    ensures Extends(a, c)
  {
    forall i | 0 <= i < |a|
      ensures c[i].symbolMoves == a[i].symbolMoves && a[i].epsilonMoves <= c[i].epsilonMoves
    {
      assert b[i].epsilonMoves <= c[i].epsilonMoves;
    }
  }

  /** Appending an epsilon move keeps everything an earlier arena had. */
  lemma AddEpsilonExtends(older: seq<AutomatonState>, states: seq<AutomatonState>, from: nat, to: nat)
    requires Extends(older, states) && from < |states|
    ensures Extends(older, AddEpsilon(states, from, to))
  {
    var after := AddEpsilon(states, from, to);
    forall i | 0 <= i < |older|
      ensures after[i].symbolMoves == older[i].symbolMoves && older[i].epsilonMoves <= after[i].epsilonMoves
    {
      assert states[i].epsilonMoves <= after[i].epsilonMoves;
    }
  }

  lemma {:induction false} AddMovesExtends(older: seq<AutomatonState>, states: seq<AutomatonState>, moves: seq<(nat, nat)>)
    requires Extends(older, states) && FromBelow(moves, |states|)
    ensures Extends(older, AddMoves(states, moves))
    decreases |moves|
  {
    if moves != [] {
      AddEpsilonExtends(older, states, moves[0].0, moves[0].1);
      AddMovesExtends(older, AddEpsilon(states, moves[0].0, moves[0].1), moves[1..]);
    }
  }

  lemma {:induction false} UnionExtends(b: Builder)
    requires InRange(b) && |b.fragments| >= 2
    ensures Extends(b.states, UnionStep(b).states)
  {
    var moves := UnionArena(b);
    var s0 := b.states + [EmptyState, EmptyState];
    assert Extends(b.states, s0);
    AddMovesExtends(b.states, s0, moves);
  }


  lemma {:induction false} RepeatExtends(b: Builder, token: char)
    requires InRange(b) && |b.fragments| >= 1 && IsUnary(token)
    ensures Extends(b.states, RepeatStep(b, token).states)
  {
    var moves := RepeatArena(b, token);
    var s0 := b.states + [EmptyState, EmptyState];
    assert Extends(b.states, s0);
    AddMovesExtends(b.states, s0, moves);
  }


  /** A token never removes a state or a move: states only get appended, and existing
      states only get epsilon moves appended. */
  lemma {:induction false} StepExtends(b: Builder, token: char)
    requires InRange(b) && Step(b, token).Ok?
    ensures Extends(b.states, Step(b, token).value.states)
  {
    if !IsRegexOperator(token) {
      var n := |b.states|;
      var t := LiteralStep(b, token);
      assert forall i :: 0 <= i < n ==> t.states[i] == b.states[i];
    } else if token == '.' {
      assert Extends(b.states, b.states);
      AddEpsilonExtends(b.states, b.states, BelowTop(b).endState, TopFragment(b).startState);
    } else if token == '|' {
      UnionExtends(b);
    } else {
      RepeatExtends(b, token);
    }
  }

  /** A run never removes a state or a move, even when it stops on an error. */
  lemma {:induction false} RunExtends(b: Builder, postfix: string)
    requires InRange(b)
    ensures Extends(b.states, RunFrom(b, postfix).reached.states)
    decreases |postfix|
  {
    if postfix == [] {
    } else {
      match Step(b, postfix[0])
      case Err(_) =>
      case Ok(next) =>
        StepExtends(b, postfix[0]);
        RunExtends(next, postfix[1..]);
        ExtendsTrans(b.states, next.states, RunFrom(next, postfix[1..]).reached.states);
    }
  }

  /** Constructing on an existing arena leaves its states as they were, up to appended
      epsilon moves, whether or not it succeeds. */
  lemma ConstructExtends(states: seq<AutomatonState>, postfix: string)
    ensures Extends(states, Construct(states, postfix).0)
  {
    RunExtends(Builder(states, []), postfix);
  }
}
