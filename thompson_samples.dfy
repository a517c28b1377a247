/** Worked inputs for Thompson's construction, each fixing one documented behaviour. */
module ThompsonSamples {
  import opened Results
  import opened Thompson

  /** `ab.`: two literal fragments joined by one epsilon move, states 0 to 3. */
  lemma ConcatSample()
    ensures Construct([], "ab.") ==
              ([AutomatonState([], map['a' := [1]]), AutomatonState([2], map[]),
                AutomatonState([], map['b' := [3]]), EmptyState],
               Ok(NFASegment(0, 3)))
  {
    var b1 := LiteralStep(Builder([], []), 'a');
    var b2 := LiteralStep(b1, 'b');
    var b3 := ConcatStep(b2);
    assert [] + [1] == [1] && [] + [3] == [3] && [] + [2] == [2];
    assert map[]['a' := [1]] == map['a' := [1]] && map[]['b' := [3]] == map['b' := [3]];
    assert b1 == Builder([AutomatonState([], map['a' := [1]]), EmptyState], [NFASegment(0, 1)]);
    assert b2 == Builder([AutomatonState([], map['a' := [1]]), EmptyState,
                          AutomatonState([], map['b' := [3]]), EmptyState],
                         [NFASegment(0, 1), NFASegment(2, 3)]);
    assert b3.states == [AutomatonState([], map['a' := [1]]), AutomatonState([2], map[]),
                         AutomatonState([], map['b' := [3]]), EmptyState];
    assert b3.fragments == [NFASegment(0, 3)];
    assert "ab."[1..] == "b." && "b."[1..] == ".";
    assert RunFrom(Builder([], []), "ab.") == Run(b3, None);
  }

  /** Two fragments left on the stack are not an error: the top one is returned. */
  lemma LeftoverSample()
    ensures Construct([], "ab").1 == Ok(NFASegment(2, 3))
  {
    var b1 := LiteralStep(Builder([], []), 'a');
    var b2 := LiteralStep(b1, 'b');
    assert "ab"[1..] == "b";
    assert RunFrom(Builder([], []), "ab") == Run(b2, None);
  }

  /** A `.` with one operand reads past the fragment stack. */
  lemma MissingOperandSample()
    ensures Construct([], "a.").1 == Err(MissingOperand('.'))
  {
    var b1 := LiteralStep(Builder([], []), 'a');
    assert "a."[1..] == ".";
    assert RunFrom(Builder([], []), "a.") == Run(b1, Some(MissingOperand('.')));
  }

  /** Empty input leaves no fragment to return. */
  lemma EmptySample()
    ensures Construct([], "") == ([], Err(NoFragment))
  {
  }
}
