/** The regex normalizer: makes implied concatenation explicit with the `.` marker. */
module Normalizer {
  import opened Syntax

  /** Concatenation is implied between `curr` and the character `next` that follows it:
      `curr` ends an operand (a literal, `)` or a unary operator) and `next` starts one
      (a literal or `(`). */
  predicate NeedConcat(curr: char, next: char) {
    (IsLiteral(curr) || curr == ')' || curr == '*' || curr == '+' || curr == '?') &&
    (IsLiteral(next) || next == '(')
  }

  /** A marker goes right after position `i` of `s`; never after the last character. */
  predicate Fires(s: string, i: nat) {
    i + 1 < |s| && NeedConcat(s[i], s[i + 1])
  }

  /** The normalized string, one input character (and its possible marker) at a time. */
  function Normalized(s: string): string {
    if s == [] then [] else [s[0]] + (if Fires(s, 0) then "." else "") + Normalized(s[1..])
  }

  /** The number of markers inserted after positions `0 .. i-1`. */
  function MarkersBefore(s: string, i: nat): nat
    requires i <= |s|
  {
    if i == 0 then 0 else MarkersBefore(s, i - 1) + (if Fires(s, i - 1) then 1 else 0)
  }

  /** All characters except the `.` characters. */
  function WithoutMarkers(s: string): string {
    if s == [] then [] else (if s[0] == '.' then [] else [s[0]]) + WithoutMarkers(s[1..])
  }

  lemma {:induction false} MarkersBeforeTail(s: string, i: nat)
    requires 1 <= i <= |s|
    ensures MarkersBefore(s, i) == (if Fires(s, 0) then 1 else 0) + MarkersBefore(s[1..], i - 1)
  {
    if i > 1 {
      MarkersBeforeTail(s, i - 1);
      assert Fires(s, i - 1) == Fires(s[1..], i - 2);
    }
  }

  /** The output is the input plus one character per position where the marker rule fires. */
  lemma {:induction false} NormalizedLength(s: string)
    ensures |Normalized(s)| == |s| + MarkersBefore(s, |s|)
  {
    if s != [] {
      NormalizedLength(s[1..]);
      MarkersBeforeTail(s, |s|);
    }
  }

  /** Input character `i` lands at output position `i + MarkersBefore(s, i)`, and the next
      output character is a marker exactly when the rule fires at `i`: together with
      NormalizedLength this fixes every character of the output. */
  lemma {:induction false} NormalizedLayout(s: string, i: nat)
    requires i < |s|
    ensures i + MarkersBefore(s, i) < |Normalized(s)|
    ensures Normalized(s)[i + MarkersBefore(s, i)] == s[i]
    ensures Fires(s, i) ==>
              i + MarkersBefore(s, i) + 1 < |Normalized(s)| && Normalized(s)[i + MarkersBefore(s, i) + 1] == '.'
    ensures !Fires(s, i) && i + 1 < |s| ==> i + 1 + MarkersBefore(s, i + 1) == i + MarkersBefore(s, i) + 1
    ensures Fires(s, i) ==> i + 1 + MarkersBefore(s, i + 1) == i + MarkersBefore(s, i) + 2
  {
    NormalizedLength(s);
    var head := [s[0]] + (if Fires(s, 0) then "." else "");
    assert Normalized(s) == head + Normalized(s[1..]);
    if i > 0 {
      NormalizedLayout(s[1..], i - 1);
      MarkersBeforeTail(s, i);
      if i + 1 <= |s| {
        MarkersBeforeTail(s, i + 1);
      }
      assert Fires(s, i) == Fires(s[1..], i - 1);
    }
  }

  /** Removing the markers gives back the input, provided the input uses no `.` of its own
      (the marker character is reserved): every input character is copied once, in order. */
  lemma {:induction false} MarkersRemoved(s: string)
    requires forall k :: 0 <= k < |s| ==> s[k] != '.'
    ensures WithoutMarkers(Normalized(s)) == s
  {
    if s != [] {
      MarkersRemoved(s[1..]);
      WithoutMarkersAppend([s[0]] + (if Fires(s, 0) then "." else ""), Normalized(s[1..]));
      WithoutMarkersAppend([s[0]], if Fires(s, 0) then "." else "");
    }
  }

  lemma {:induction false} WithoutMarkersAppend(a: string, b: string)
    ensures WithoutMarkers(a + b) == WithoutMarkers(a) + WithoutMarkers(b)
  {
    if a != [] {
      assert (a + b)[1..] == a[1..] + b;
      WithoutMarkersAppend(a[1..], b);
    } else {
      assert a + b == b;
    }
  }

  lemma NormalizedSuffix(s: string, i: nat)
    requires i < |s|
    ensures Normalized(s[i..]) == [s[i]] + (if Fires(s, i) then "." else "") + Normalized(s[i + 1..])
  {
    assert s[i..][1..] == s[i + 1..];
  }

  lemma AppendPiece(before: string, piece: string, rest: string)
    ensures (before + piece) + rest == before + (piece + rest)
  {
  }

  /** Inputs of length 0 or 1 come back unchanged. */
  lemma ShortUnchanged(s: string)
    requires |s| <= 1
    ensures Normalized(s) == s
  {
    if s != [] {
      assert s[1..] == [];
    }
  }

  /** insertConcatenation: copies each character and, looking one character ahead,
      appends `.` where concatenation is implied. */
  method InsertConcatenation(regex: string) returns (result: string)
    ensures result == Normalized(regex)
    ensures |result| == |regex| + MarkersBefore(regex, |regex|)
  {
    result := "";
    var i := 0;
    assert regex[0..] == regex;
    while i < |regex|
      invariant 0 <= i <= |regex|
      invariant result + Normalized(regex[i..]) == Normalized(regex)
    {
      ghost var before := result;
      NormalizedSuffix(regex, i);
      result := result + [regex[i]];
      if i + 1 < |regex| {
        var curr := regex[i];
        var next := regex[i + 1];
        var needConcat :=
          (IsLiteral(curr) || curr == ')' || curr == '*' || curr == '+' || curr == '?') &&
          (IsLiteral(next) || next == '(');
        if needConcat {
          result := result + ".";
        }
      }
      assert result == before + [regex[i]] + (if Fires(regex, i) then "." else "");
      AppendPiece(before, [regex[i]] + (if Fires(regex, i) then "." else ""), Normalized(regex[i + 1..]));
      i := i + 1;
    }
    assert regex[|regex|..] == [];
    NormalizedLength(regex);
  }
}
