/** Longest common subsequence: what `sequence_ratio` of app/domain/matching.py computes. */
module Lcs {

  function Max(x: nat, y: nat): nat { if x >= y then x else y }

  /** `c` is left when some characters of `s` are deleted. */
  predicate IsSubsequence(c: string, s: string) {
    c == "" || (s != "" &&
      ((c[|c| - 1] == s[|s| - 1] && IsSubsequence(c[..|c| - 1], s[..|s| - 1]))
       || IsSubsequence(c, s[..|s| - 1])))
  }

  /** The length by the recurrence over the last characters. */
  function Length(a: string, b: string): nat
    decreases |a| + |b|
  {
    if a == "" || b == "" then 0
    else if a[|a| - 1] == b[|b| - 1] then Length(a[..|a| - 1], b[..|b| - 1]) + 1
    else Max(Length(a[..|a| - 1], b), Length(a, b[..|b| - 1]))
  }

  lemma {:induction false} ShorterIsSubsequence(c: string, s: string)
    requires c != "" && IsSubsequence(c, s)
    ensures IsSubsequence(c[..|c| - 1], s)
    decreases |s|
  {
    var s' := s[..|s| - 1];
    if IsSubsequence(c, s') {
      ShorterIsSubsequence(c, s');
    }
  }

  /** A subsequence ending anywhere loses its last character with its carrier's. */
  lemma DropBoth(c: string, s: string)
    requires c != "" && IsSubsequence(c, s)
    ensures IsSubsequence(c[..|c| - 1], s[..|s| - 1])
  {
    if IsSubsequence(c, s[..|s| - 1]) {
      ShorterIsSubsequence(c, s[..|s| - 1]);
    }
  }

  /** No common subsequence is longer than the recurrence says. */
  lemma {:induction false} NoneLonger(a: string, b: string, c: string)
    requires IsSubsequence(c, a) && IsSubsequence(c, b)
    ensures |c| <= Length(a, b)
    decreases |a| + |b|
  {
    if c != "" {
      var a', b' := a[..|a| - 1], b[..|b| - 1];
      if a[|a| - 1] == b[|b| - 1] {
        DropBoth(c, a);
        DropBoth(c, b);
        NoneLonger(a', b', c[..|c| - 1]);
      } else if c[|c| - 1] != a[|a| - 1] {
        NoneLonger(a', b, c);
      } else {
        NoneLonger(a, b', c);
      }
    }
  }

  /** A common subsequence of that length. */
  function Witness(a: string, b: string): (c: string)
    ensures |c| == Length(a, b) && IsSubsequence(c, a) && IsSubsequence(c, b)
    decreases |a| + |b|
  {
    if a == "" || b == "" then ""
    else
      var a', b' := a[..|a| - 1], b[..|b| - 1];
      if a[|a| - 1] == b[|b| - 1] then
        var c := Witness(a', b') + [a[|a| - 1]];
        assert c[..|c| - 1] == Witness(a', b');
        c
      else if Length(a', b) >= Length(a, b') then Witness(a', b)
      else Witness(a, b')
  }

  lemma LengthIsSymmetric(a: string, b: string)
    ensures Length(a, b) == Length(b, a)
  {
    NoneLonger(b, a, Witness(a, b));
    NoneLonger(a, b, Witness(b, a));
  }

  lemma {:induction false} SubsequenceLength(c: string, s: string)
    requires IsSubsequence(c, s)
    ensures |c| <= |s| && (|c| == |s| ==> c == s)
    decreases |s|
  {
    if c != "" {
      var s' := s[..|s| - 1];
      if c[|c| - 1] == s[|s| - 1] && IsSubsequence(c[..|c| - 1], s') {
        SubsequenceLength(c[..|c| - 1], s');
        assert c == c[..|c| - 1] + [c[|c| - 1]] && s == s' + [s[|s| - 1]];
      } else {
        SubsequenceLength(c, s');
      }
    }
  }

  lemma {:induction false} WholeIsSubsequence(s: string)
    ensures IsSubsequence(s, s)
  {
    if s != "" { WholeIsSubsequence(s[..|s| - 1]); }
  }

  /** The length is at most either string's, and reaches both only for equal strings. */
  lemma LengthBounds(a: string, b: string)
    ensures Length(a, b) <= |a| && Length(a, b) <= |b|
    ensures Length(a, b) == |a| == |b| <==> a == b
  {
    SubsequenceLength(Witness(a, b), a);
    SubsequenceLength(Witness(a, b), b);
    WholeIsSubsequence(a);
    if a == b { NoneLonger(a, b, a); }
  }

  /** The first `n` cells of row `i`: the lengths for `a[..i]` against the prefixes of `b`. */
  ghost predicate IsRow(row: seq<nat>, a: string, b: string, n: nat)
    requires n <= |b|
  {
    |row| == n + 1 && forall j :: 0 <= j <= n ==> row[j] == Length(a, b[..j])
  }

  /** Two rows at a time over the shorter axis. */
  method TwoRows(a: string, b: string) returns (n: nat)
    ensures n == Length(a, b)
  {
    var previous: seq<nat> := seq(|b| + 1, _ => 0);
    assert a[..0] == "";
    for i := 0 to |a|
      invariant IsRow(previous, a[..i], b, |b|)
    {
      var current: seq<nat> := [0];
      assert a[..i + 1][..i] == a[..i];
      for j := 0 to |b|
        invariant IsRow(current, a[..i + 1], b, j)
      {
        assert b[..j + 1][..j] == b[..j];
        if a[i] == b[j] {
          current := current + [previous[j] + 1];
        } else {
          current := current + [Max(previous[j + 1], current[j])];
        }
      }
      previous := current;
    }
    assert a[..|a|] == a && b[..|b|] == b;
    n := previous[|b|];
  }
}
