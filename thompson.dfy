/** Thompson's construction: a postfix regex becomes an arena of automaton states,
    built one token at a time on a stack of (start, end) fragments. */
module Thompson {
  import opened Syntax
  import opened Results

  /** One automaton state: its epsilon moves and, per symbol, its symbol moves, as
      indices into the state arena. */
  datatype AutomatonState = AutomatonState(epsilonMoves: seq<nat>, symbolMoves: map<char, seq<nat>>)

  const EmptyState := AutomatonState([], map[])

  /** A partial automaton: the indices of its entry and its exit state. */
  datatype NFASegment = NFASegment(startState: nat, endState: nat)

  /** An operator found fewer fragments than it combines, or the input left no fragment:
      in the C++ code both read the top of an empty stack. */
  datatype BuildError = MissingOperand(token: char) | NoFragment

  /** The construction's working state: the state arena and the fragment stack,
      bottom first, so the top is the last entry. */
  datatype Builder = Builder(states: seq<AutomatonState>, fragments: seq<NFASegment>)

  /** Where a run over postfix tokens got to, and the error that stopped it, if any. */
  datatype Run = Run(reached: Builder, failure: Option<BuildError>)

  /** Every fragment on the stack names states that exist. */
  predicate InRange(b: Builder) {
    forall k :: 0 <= k < |b.fragments| ==>
      b.fragments[k].startState < |b.states| && b.fragments[k].endState < |b.states|
  }

  /** The symbol moves of `st` on `c`; a symbol without moves has none. */
  function Targets(st: AutomatonState, c: char): seq<nat> {
    if c in st.symbolMoves then st.symbolMoves[c] else []
  }

  /** `states` with the epsilon move `from -> to` appended to state `from`. */
  function AddEpsilon(states: seq<AutomatonState>, from: nat, to: nat): seq<AutomatonState>
    requires from < |states|
  {
    states[from := AutomatonState(states[from].epsilonMoves + [to], states[from].symbolMoves)]
  }

  /** `states` with the move `from --c--> to` appended to state `from`'s moves on `c`. */
  function AddSymbol(states: seq<AutomatonState>, from: nat, c: char, to: nat): seq<AutomatonState>
    requires from < |states|
  {
    var st := states[from];
    states[from := AutomatonState(st.epsilonMoves, st.symbolMoves[c := Targets(st, c) + [to]])]
  }

  /** How many fragments a token pops. */
  function Arity(token: char): nat {
    if token == '.' || token == '|' then 2 else if IsUnary(token) then 1 else 0
  }

  function TopFragment(b: Builder): NFASegment
    requires b.fragments != []
  {
    b.fragments[|b.fragments| - 1]
  }

  function BelowTop(b: Builder): NFASegment
    requires |b.fragments| >= 2
  {
    b.fragments[|b.fragments| - 2]
  }

  /** A literal: two new states joined by a move on the literal. */
  function LiteralStep(b: Builder, token: char): Builder {
    var start := |b.states|;
    var end := start + 1;
    Builder(AddSymbol(b.states + [EmptyState, EmptyState], start, token, end),
            b.fragments + [NFASegment(start, end)])
  }

  /** `.`: the first fragment's exit gets an epsilon move to the second's entry. */
  function ConcatStep(b: Builder): Builder
    requires InRange(b) && |b.fragments| >= 2
  {
    var second := TopFragment(b);
    var first := BelowTop(b);
    Builder(AddEpsilon(b.states, first.endState, second.startState),
            b.fragments[..|b.fragments| - 2] + [NFASegment(first.startState, second.endState)])
  }

  /** `|`: a new entry branching to both fragments, both exits joining a new exit. */
  function UnionStep(b: Builder): Builder
    requires InRange(b) && |b.fragments| >= 2
  {
    var second := TopFragment(b);
    var first := BelowTop(b);
    var newStart := |b.states|;
    var newEnd := newStart + 1;
    var s0 := b.states + [EmptyState, EmptyState];
    var s1 := AddEpsilon(s0, newStart, first.startState);
    var s2 := AddEpsilon(s1, newStart, second.startState);
    var s3 := AddEpsilon(s2, first.endState, newEnd);
    var s4 := AddEpsilon(s3, second.endState, newEnd);
    Builder(s4, b.fragments[..|b.fragments| - 2] + [NFASegment(newStart, newEnd)])
  }

  /** `*`, `+` and `?`: a new entry and exit around the top fragment. The new entry
      enters the fragment; `*` and `?` also let it skip to the new exit; `*` and `+`
      let the fragment's exit loop back to its entry; the fragment's exit always
      reaches the new exit. */
  function RepeatStep(b: Builder, token: char): Builder
    requires InRange(b) && |b.fragments| >= 1 && IsUnary(token)
  {
    var frag := TopFragment(b);
    var newStart := |b.states|;
    var newEnd := newStart + 1;
    var s0 := b.states + [EmptyState, EmptyState];
    var s1 := AddEpsilon(s0, newStart, frag.startState);
    var s2 := if token == '+' then s1 else AddEpsilon(s1, newStart, newEnd);
    var s3 := if token == '?' then s2 else AddEpsilon(s2, frag.endState, frag.startState);
    var s4 := AddEpsilon(s3, frag.endState, newEnd);
    Builder(s4, b.fragments[..|b.fragments| - 1] + [NFASegment(newStart, newEnd)])
  }

  /** The effect of one postfix token; an operator short of operands is an error. */
  function Step(b: Builder, token: char): (r: Result<Builder, BuildError>)
    requires InRange(b)
    ensures r.Ok? ==> InRange(r.value)
  {
    if |b.fragments| < Arity(token) then Err(MissingOperand(token))
    else if !IsRegexOperator(token) then Ok(LiteralStep(b, token))
    else if token == '.' then Ok(ConcatStep(b))
    else if token == '|' then Ok(UnionStep(b))
    else Ok(RepeatStep(b, token))
  }

  /** The tokens of `postfix` from `b` on, up to the first error. */
  function RunFrom(b: Builder, postfix: string): Run
    requires InRange(b)
    decreases |postfix|
  {
    if postfix == [] then Run(b, None)
    else
      match Step(b, postfix[0])
      case Err(e) => Run(b, Some(e))
      case Ok(next) => RunFrom(next, postfix[1..])
  }

  /** The arena after constructing from `postfix` on top of `states`, and the fragment
      on top of the stack at the end, which stands for the whole expression. */
  function Construct(states: seq<AutomatonState>, postfix: string): (seq<AutomatonState>, Result<NFASegment, BuildError>) {
    var run := RunFrom(Builder(states, []), postfix);
    if run.failure.Some? then (run.reached.states, Err(run.failure.value))
    else if run.reached.fragments == [] then (run.reached.states, Err(NoFragment))
    else (run.reached.states, Ok(TopFragment(run.reached)))
  }

  /** The builder object: it owns the state arena, which only ever grows. */
  class NFABuilder {
    var stateList: seq<AutomatonState>

    constructor()
      ensures stateList == []
    {
      stateList := [];
    }

    /** createState: appends one state without moves and returns its index. */
    method CreateState() returns (index: nat)
      modifies this
      ensures stateList == old(stateList) + [EmptyState]
      ensures index == |old(stateList)| && index < |stateList|
    {
      stateList := stateList + [EmptyState];
      index := |stateList| - 1;
    }

    /** Appends the epsilon move `from -> to` to state `from`. */
    method AddEpsilonMove(from: nat, to: nat)
      requires from < |stateList|
      modifies this
      ensures stateList == AddEpsilon(old(stateList), from, to)
    {
      var st := stateList[from];
      stateList := stateList[from := AutomatonState(st.epsilonMoves + [to], st.symbolMoves)];
    }

    /** Appends `to` to state `from`'s moves on `c`; a symbol not yet in the map starts
        with no moves, as indexing a C++ map does. */
    method AddSymbolMove(from: nat, c: char, to: nat)
      requires from < |stateList|
      modifies this
      ensures stateList == AddSymbol(old(stateList), from, c, to)
    {
      var st := stateList[from];
      var moves := if c in st.symbolMoves then st.symbolMoves[c] else [];
      stateList := stateList[from := AutomatonState(st.epsilonMoves, st.symbolMoves[c := moves + [to]])];
    }

    /** Lines 44-51: a literal token. */
    method LiteralToken(fragments0: seq<NFASegment>, token: char) returns (fragments: seq<NFASegment>)
      modifies this
      ensures Builder(stateList, fragments) == LiteralStep(Builder(old(stateList), fragments0), token)
    {
      var start := CreateState();
      var end := CreateState();
      AddSymbolMove(start, token, end);
      fragments := fragments0 + [NFASegment(start, end)];
    }

    /** Lines 53-60: `.` joins the two top fragments. */
    method ConcatToken(fragments0: seq<NFASegment>) returns (fragments: seq<NFASegment>)
      requires InRange(Builder(stateList, fragments0)) && |fragments0| >= 2
      modifies this
      ensures Builder(stateList, fragments) == ConcatStep(Builder(old(stateList), fragments0))
    {
      fragments := fragments0;
      var second := fragments[|fragments| - 1];
      fragments := fragments[..|fragments| - 1];
      var first := fragments[|fragments| - 1];
      fragments := fragments[..|fragments| - 1];
      AddEpsilonMove(first.endState, second.startState);
      fragments := fragments + [NFASegment(first.startState, second.endState)];
    }

    /** Lines 62-77: `|` branches over the two top fragments. */
    method UnionToken(fragments0: seq<NFASegment>) returns (fragments: seq<NFASegment>)
      requires InRange(Builder(stateList, fragments0)) && |fragments0| >= 2
      modifies this
      ensures Builder(stateList, fragments) == UnionStep(Builder(old(stateList), fragments0))
    {
      fragments := fragments0;
      var second := fragments[|fragments| - 1];
      fragments := fragments[..|fragments| - 1];
      var first := fragments[|fragments| - 1];
      fragments := fragments[..|fragments| - 1];
      var newStart := CreateState();
      var newEnd := CreateState();
      AddEpsilonMove(newStart, first.startState);
      AddEpsilonMove(newStart, second.startState);
      AddEpsilonMove(first.endState, newEnd);
      AddEpsilonMove(second.endState, newEnd);
      fragments := fragments + [NFASegment(newStart, newEnd)];
    }

    /** Lines 79-129: `*`, `+` and `?` wrap the top fragment; the three C++ branches
        differ only in which of the four epsilon moves they add. */
    method RepeatToken(fragments0: seq<NFASegment>, token: char) returns (fragments: seq<NFASegment>)
      requires InRange(Builder(stateList, fragments0)) && |fragments0| >= 1 && IsUnary(token)
      modifies this
      ensures Builder(stateList, fragments) == RepeatStep(Builder(old(stateList), fragments0), token)
    {
      fragments := fragments0;
      var frag := fragments[|fragments| - 1];
      fragments := fragments[..|fragments| - 1];
      var newStart := CreateState();
      var newEnd := CreateState();
      AddEpsilonMove(newStart, frag.startState);
      if token != '+' {
        AddEpsilonMove(newStart, newEnd);
      }
      if token != '?' {
        AddEpsilonMove(frag.endState, frag.startState);
      }
      AddEpsilonMove(frag.endState, newEnd);
      fragments := fragments + [NFASegment(newStart, newEnd)];
    }

    /** constructFromPostfix: one pass over the postfix tokens with a local fragment
        stack; the fragment left on top at the end is the result. */
    method ConstructFromPostfix(postfix: string) returns (r: Result<NFASegment, BuildError>)
      modifies this
      ensures (stateList, r) == Construct(old(stateList), postfix)
    {
      var fragments: seq<NFASegment> := [];
      ghost var initial := Builder(stateList, fragments);
      var i := 0;
      assert postfix[0..] == postfix;
      while i < |postfix|
        invariant 0 <= i <= |postfix|
        invariant InRange(Builder(stateList, fragments))
        invariant RunFrom(Builder(stateList, fragments), postfix[i..]) == RunFrom(initial, postfix)
      {
        var token := postfix[i];
        ghost var b := Builder(stateList, fragments);
        assert postfix[i..][0] == token && postfix[i..][1..] == postfix[i + 1..];
        if |fragments| < Arity(token) {
          assert RunFrom(b, postfix[i..]) == Run(b, Some(MissingOperand(token)));
          return Err(MissingOperand(token));
        }
        if !IsRegexOperator(token) {
          fragments := LiteralToken(fragments, token);
        } else if token == '.' {
          fragments := ConcatToken(fragments);
        } else if token == '|' {
          fragments := UnionToken(fragments);
        } else {
          fragments := RepeatToken(fragments, token);
        }
        assert Step(b, token) == Ok(Builder(stateList, fragments));
        i := i + 1;
      }
      assert postfix[|postfix|..] == [];
      if fragments == [] {
        return Err(NoFragment);
      }
      r := Ok(fragments[|fragments| - 1]);
    }
  }
}
