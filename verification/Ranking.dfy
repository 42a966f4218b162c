/** Python's stable sort with `reverse=True`: highest score first, equal scores in their old order. */
module Ranking {

  function Insert<T>(k: T, sorted: seq<T>, score: T -> real): seq<T> {
    if sorted == [] || score(sorted[0]) <= score(k) then [k] + sorted
    else [sorted[0]] + Insert(k, sorted[1..], score)
  }

  function SortDescending<T>(ks: seq<T>, score: T -> real): seq<T> {
    if ks == [] then [] else Insert(ks[0], SortDescending(ks[1..], score), score)
  }

  ghost predicate BestFirst<T>(ks: seq<T>, score: T -> real) {
    forall i, j :: 0 <= i < j < |ks| ==> score(ks[i]) >= score(ks[j])
  }

  lemma {:induction false} InsertKeepsMembers<T>(k: T, sorted: seq<T>, score: T -> real)
    ensures multiset(Insert(k, sorted, score)) == multiset{k} + multiset(sorted)
    ensures forall x :: x in Insert(k, sorted, score) <==> x == k || x in sorted
  {
    if sorted != [] && score(sorted[0]) > score(k) {
      InsertKeepsMembers(k, sorted[1..], score);
      assert sorted == [sorted[0]] + sorted[1..];
    }
  }

  /** Below what everything inserted into, and the inserted, are below. */
  lemma {:induction false} InsertStaysBelow<T>(k: T, sorted: seq<T>, score: T -> real, bound: real)
    requires score(k) <= bound && forall i :: 0 <= i < |sorted| ==> score(sorted[i]) <= bound
    ensures forall i :: 0 <= i < |Insert(k, sorted, score)| ==> score(Insert(k, sorted, score)[i]) <= bound
  {
    if sorted != [] && score(sorted[0]) > score(k) {
      InsertStaysBelow(k, sorted[1..], score, bound);
    }
  }

  lemma {:induction false} InsertSorts<T>(k: T, sorted: seq<T>, score: T -> real)
    requires BestFirst(sorted, score)
    ensures BestFirst(Insert(k, sorted, score), score)
  {
    if sorted != [] && score(sorted[0]) > score(k) {
      InsertSorts(k, sorted[1..], score);
      InsertStaysBelow(k, sorted[1..], score, score(sorted[0]));
    }
  }

  /** The ranking holds what it was given, all of it, best first. */
  lemma {:induction false} SortIsRanking<T>(ks: seq<T>, score: T -> real)
    ensures BestFirst(SortDescending(ks, score), score) && multiset(SortDescending(ks, score)) == multiset(ks)
    ensures |SortDescending(ks, score)| == |ks|
    ensures forall x :: x in SortDescending(ks, score) <==> x in ks
  {
    if ks != [] {
      SortIsRanking(ks[1..], score);
      InsertSorts(ks[0], SortDescending(ks[1..], score), score);
      InsertKeepsMembers(ks[0], SortDescending(ks[1..], score), score);
      assert ks == [ks[0]] + ks[1..];
      assert |multiset(SortDescending(ks, score))| == |SortDescending(ks, score)|;
      assert |multiset(ks)| == |ks|;
    }
  }

  function Equals<T>(ks: seq<T>, score: T -> real, value: real): seq<T> {
    if ks == [] then []
    else (if score(ks[0]) == value then [ks[0]] else []) + Equals(ks[1..], score, value)
  }

  lemma {:induction false} InsertIsStable<T>(k: T, sorted: seq<T>, score: T -> real, value: real)
    ensures Equals(Insert(k, sorted, score), score, value) == Equals([k] + sorted, score, value)
  {
    if sorted != [] && score(sorted[0]) > score(k) {
      InsertIsStable(k, sorted[1..], score, value);
      assert ([k] + sorted)[1..] == sorted && ([k] + sorted[1..])[1..] == sorted[1..];
    }
  }

  /** Equal scores keep the order in which they were supplied. */
  lemma {:induction false} SortIsStable<T>(ks: seq<T>, score: T -> real, value: real)
    ensures Equals(SortDescending(ks, score), score, value) == Equals(ks, score, value)
  {
    if ks != [] {
      SortIsStable(ks[1..], score, value);
      InsertIsStable(ks[0], SortDescending(ks[1..], score), score, value);
      assert ([ks[0]] + SortDescending(ks[1..], score))[1..] == SortDescending(ks[1..], score);
    }
  }
}
