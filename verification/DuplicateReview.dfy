/**
 * The possible duplicates stored against a notice and what an officer decided about them:
 * `DuplicateDetectionService` of app/services/fnol/matching.py, `upsert_duplicate` and
 * `prune_duplicates` of app/repositories/fnol.py, `resolve_duplicate` of
 * app/services/fnol/service.py.
 */
module DuplicateReview {
  import opened Wrappers
  import opened Duplicates
  import opened Ranking

  datatype Kind = OfNotice | OfClaim

  datatype Resolution = Unresolved | NewClaim | Linked | MarkedDuplicate

  datatype Row = Row(
    kind: Kind, score: real, resolution: Resolution, resolvedBy: Option<string>, note: Option<string>)

  datatype Assessment = Assessment(reference: string, kind: Kind, score: real)

  type Rows = map<string, Row>

  // ---------------------------------------------------------------------------
  // What scores, and what a rescan stores
  // ---------------------------------------------------------------------------

  function Assess(x: Loss, others: seq<Loss>, kind: Kind): (scored: seq<Assessment>)
    ensures |scored| == |others|
    ensures forall i :: 0 <= i < |others| ==> scored[i] == Assessment(others[i].reference, kind, Score(x, others[i]))
  {
    seq(|others|, i requires 0 <= i < |others| => Assessment(others[i].reference, kind, Score(x, others[i])))
  }

  /** The notice against recent notices and recent claims. */
  function Assessed(x: Loss, notices: seq<Loss>, claims: seq<Loss>): seq<Assessment> {
    Assess(x, notices, OfNotice) + Assess(x, claims, OfClaim)
  }

  /** Notices and claims each carry their own printed reference. */
  predicate DistinctReferences(all: seq<Assessment>) {
    forall i, j :: 0 <= i < j < |all| ==> all[i].reference != all[j].reference
  }

  function Scoring(all: seq<Assessment>, threshold: real): seq<Assessment> {
    if all == [] then []
    else (if all[0].score >= threshold then [all[0]] else []) + Scoring(all[1..], threshold)
  }

  /** What assessments are ranked by. */
  const BY_LIKENESS: Assessment -> real := (a: Assessment) => a.score

  /** The records that score, likeliest first. */
  function Likeliest(all: seq<Assessment>, threshold: real): seq<Assessment> {
    SortDescending(Scoring(all, threshold), BY_LIKENESS)
  }

  predicate Names(scoring: seq<Assessment>, r: string) {
    exists i :: 0 <= i < |scoring| && scoring[i].reference == r
  }

  predicate Decided(rows: Rows, r: string) { r in rows && rows[r].resolution != Unresolved }

  predicate Outstanding(rows: Rows, r: string) { r in rows && rows[r].resolution == Unresolved }

  /** A rescored candidate keeps whatever the officer already decided about it. */
  function Upserted(rows: Rows, a: Assessment): Row {
    if a.reference in rows then rows[a.reference].(score := a.score)
    else Row(a.kind, a.score, Unresolved, None, None)
  }

  /** The rows after a rescan: what scores now, and what was decided before. */
  ghost predicate Rescanned(before: Rows, scoring: seq<Assessment>, after: Rows) {
    && (forall r :: r in after <==> Names(scoring, r) || Decided(before, r))
    && (forall i :: 0 <= i < |scoring| ==>
          scoring[i].reference in after && after[scoring[i].reference] == Upserted(before, scoring[i]))
    && (forall r <- after :: !Names(scoring, r) ==> after[r] == before[r])
  }

  function AfterDecision(rows: Rows, r: string, d: Resolution, actor: string, note: Option<string>): Rows
    requires r in rows
  {
    rows[r := rows[r].(resolution := d, resolvedBy := Some(actor), note := note)]
  }

  lemma {:induction false} ScoringMembers(all: seq<Assessment>, threshold: real, a: Assessment)
    ensures a in Scoring(all, threshold) <==> a in all && a.score >= threshold
  {
    if all != [] { ScoringMembers(all[1..], threshold, a); }
  }

  lemma {:induction false} ScoringStaysDistinct(all: seq<Assessment>, threshold: real)
    requires DistinctReferences(all)
    ensures DistinctReferences(Scoring(all, threshold))
  {
    if all != [] {
      ScoringStaysDistinct(all[1..], threshold);
      var rest := Scoring(all[1..], threshold);
      forall j | 0 <= j < |rest| ensures rest[j].reference != all[0].reference {
        assert rest[j] in rest;
        ScoringMembers(all[1..], threshold, rest[j]);
        var i :| 0 <= i < |all[1..]| && all[1..][i] == rest[j];
        assert all[i + 1] == rest[j];
      }
    }
  }

  lemma {:induction false} InsertStaysDistinct(a: Assessment, sorted: seq<Assessment>)
    requires DistinctReferences(sorted) && forall x <- sorted :: x.reference != a.reference
    ensures DistinctReferences(Insert(a, sorted, BY_LIKENESS))
  {
    if sorted != [] && sorted[0].score > a.score {
      InsertStaysDistinct(a, sorted[1..]);
      InsertKeepsMembers(a, sorted[1..], BY_LIKENESS);
      var r := Insert(a, sorted[1..], BY_LIKENESS);
      forall j | 0 <= j < |r| ensures r[j].reference != sorted[0].reference {
        assert r[j] in r;
        if r[j] != a {
          var i :| 0 <= i < |sorted[1..]| && sorted[1..][i] == r[j];
          assert sorted[i + 1] == r[j];
        }
      }
    }
  }

  lemma {:induction false} SortStaysDistinct(scoring: seq<Assessment>)
    requires DistinctReferences(scoring)
    ensures DistinctReferences(SortDescending(scoring, BY_LIKENESS))
  {
    if scoring != [] {
      SortStaysDistinct(scoring[1..]);
      SortIsRanking(scoring[1..], BY_LIKENESS);
      forall x | x in SortDescending(scoring[1..], BY_LIKENESS) ensures x.reference != scoring[0].reference {
        var i :| 0 <= i < |scoring[1..]| && scoring[1..][i] == x;
        assert scoring[i + 1] == x;
      }
      InsertStaysDistinct(scoring[0], SortDescending(scoring[1..], BY_LIKENESS));
    }
  }

  /** Exactly the records at or above the threshold, each once, likeliest first. */
  lemma LikeliestAreRanked(all: seq<Assessment>, threshold: real, a: Assessment)
    requires DistinctReferences(all)
    ensures DistinctReferences(Likeliest(all, threshold)) && BestFirst(Likeliest(all, threshold), BY_LIKENESS)
    ensures a in Likeliest(all, threshold) <==> a in all && a.score >= threshold
  {
    ScoringStaysDistinct(all, threshold);
    SortStaysDistinct(Scoring(all, threshold));
    SortIsRanking(Scoring(all, threshold), BY_LIKENESS);
    ScoringMembers(all, threshold, a);
  }

  lemma {:induction false} ScoringSnoc(all: seq<Assessment>, a: Assessment, threshold: real)
    ensures Scoring(all + [a], threshold) == Scoring(all, threshold) + (if a.score >= threshold then [a] else [])
  {
    if all == [] {
      assert all + [a] == [a];
    } else {
      ScoringSnoc(all[1..], a, threshold);
      assert (all + [a])[1..] == all[1..] + [a];
    }
  }

  // ---------------------------------------------------------------------------
  // The service
  // ---------------------------------------------------------------------------

  /** The assessments at or above the threshold, in scan order. */
  method Keep(all: seq<Assessment>, threshold: real) returns (scoring: seq<Assessment>)
    ensures scoring == Scoring(all, threshold)
  {
    scoring := [];
    for i := 0 to |all|
      invariant scoring == Scoring(all[..i], threshold)
    {
      ScoringSnoc(all[..i], all[i], threshold);
      assert all[..i + 1] == all[..i] + [all[i]];
      if all[i].score >= threshold {
        scoring := scoring + [all[i]];
      }
    }
    assert all[..|all|] == all;
  }

  class CandidateList {
    var rows: Rows

    constructor ()
      ensures rows == map[]
    {
      rows := map[];
    }

    method Upsert(a: Assessment)
      modifies this
      ensures rows == old(rows)[a.reference := Upserted(old(rows), a)]
    {
      if a.reference in rows {
        rows := rows[a.reference := rows[a.reference].(score := a.score)];
      } else {
        rows := rows[a.reference := Row(a.kind, a.score, Unresolved, None, None)];
      }
    }

    /** Drop the outstanding candidates that no longer score. */
    method Prune(keep: set<string>)
      modifies this
      ensures forall r :: r in rows <==> r in old(rows) && (r in keep || Decided(old(rows), r))
      ensures forall r <- rows :: rows[r] == old(rows)[r]
    {
      ghost var before := rows;
      var left := rows.Keys;
      while left != {}
        invariant left <= before.Keys
        invariant forall r :: r in rows <==> r in before && (r in left || r in keep || Decided(before, r))
        invariant forall r <- rows :: rows[r] == before[r]
        decreases left
      {
        var r :| r in left;
        left := left - {r};
        if r !in keep && rows[r].resolution == Unresolved {
          rows := rows - {r};
        }
      }
    }

    method UpsertAll(scoring: seq<Assessment>)
      requires DistinctReferences(scoring)
      modifies this
      ensures forall r :: r in rows <==> r in old(rows) || Names(scoring, r)
      ensures forall i :: 0 <= i < |scoring| ==>
        scoring[i].reference in rows && rows[scoring[i].reference] == Upserted(old(rows), scoring[i])
      ensures forall r <- rows :: !Names(scoring, r) ==> r in old(rows) && rows[r] == old(rows)[r]
    {
      ghost var before := rows;
      for i := 0 to |scoring|
        invariant forall r :: r in rows ==> r in before || Names(scoring, r)
        invariant forall r <- before :: r in rows
        invariant forall j :: 0 <= j < i ==>
          scoring[j].reference in rows && rows[scoring[j].reference] == Upserted(before, scoring[j])
        invariant forall j :: i <= j < |scoring| ==>
          (scoring[j].reference in rows <==> scoring[j].reference in before)
        invariant forall j :: i <= j < |scoring| && scoring[j].reference in before ==>
          rows[scoring[j].reference] == before[scoring[j].reference]
        invariant forall r <- rows :: !Names(scoring, r) ==> r in before && rows[r] == before[r]
      {
        assert Names(scoring, scoring[i].reference);
        Upsert(scoring[i]);
      }
    }

    /** Compare against recent notices and claims, and record what scores, likeliest first. */
    method Detect(x: Loss, notices: seq<Loss>, claims: seq<Loss>, threshold: real) returns (scoring: seq<Assessment>)
      requires DistinctReferences(Assessed(x, notices, claims))
      modifies this
      ensures scoring == Likeliest(Assessed(x, notices, claims), threshold)
      ensures Rescanned(old(rows), scoring, rows)
    {
      scoring := Keep(Assessed(x, notices, claims), threshold);
      ScoringStaysDistinct(Assessed(x, notices, claims), threshold);
      SortStaysDistinct(scoring);
      scoring := SortDescending(scoring, BY_LIKENESS);
      UpsertAll(scoring);
      var keep := set i | 0 <= i < |scoring| :: scoring[i].reference;
      assert forall r :: r in keep <==> Names(scoring, r);
      Prune(keep);
    }

    /** Whether a candidate other than this one still awaits a decision. */
    method OthersOutstanding(r: string) returns (found: bool)
      ensures found <==> exists q <- rows :: q != r && Outstanding(rows, q)
    {
      var left := rows.Keys;
      while left != {}
        invariant left <= rows.Keys
        invariant forall q <- rows :: q !in left ==> q == r || !Outstanding(rows, q)
        decreases left
      {
        var q :| q in left;
        if q != r && rows[q].resolution == Unresolved {
          return true;
        }
        left := left - {q};
      }
      found := false;
    }

    /** Record an officer's decision; the candidate must be on the notice. */
    method Decide(r: string, d: Resolution, actor: string, note: Option<string>) returns (found: bool)
      modifies this
      ensures found <==> r in old(rows)
      ensures rows == if found then AfterDecision(old(rows), r, d, actor, note) else old(rows)
    {
      if r !in rows {
        return false;
      }
      rows := rows[r := rows[r].(resolution := d, resolvedBy := Some(actor), note := note)];
      found := true;
    }
  }

  // ---------------------------------------------------------------------------
  // Every sequence of rescans and decisions
  // ---------------------------------------------------------------------------

  /** After a rescan what awaits a decision is what scores now and was not decided before. */
  lemma OutstandingAfterRescan(before: Rows, scoring: seq<Assessment>, after: Rows, r: string)
    requires Rescanned(before, scoring, after)
    ensures Outstanding(after, r) <==> Names(scoring, r) && !Decided(before, r)
    ensures Decided(after, r) <==> Decided(before, r)
  {
    if Names(scoring, r) {
      var i :| 0 <= i < |scoring| && scoring[i].reference == r;
    }
  }

  /** A rescan leaves a decided row as the officer left it, its score apart. */
  lemma RescanKeepsDecision(before: Rows, scoring: seq<Assessment>, after: Rows, r: string)
    requires Rescanned(before, scoring, after) && Decided(before, r)
    ensures r in after && after[r].(score := before[r].score) == before[r]
  {
    if Names(scoring, r) {
      var i :| 0 <= i < |scoring| && scoring[i].reference == r;
    }
  }

  /** Rescanning against the same records again changes nothing. */
  lemma RescanIsIdempotent(before: Rows, scoring: seq<Assessment>, once: Rows, twice: Rows)
    requires Rescanned(before, scoring, once) && Rescanned(once, scoring, twice)
    ensures twice == once
  {
    forall r ensures r in twice <==> r in once {
      OutstandingAfterRescan(before, scoring, once, r);
    }
    forall r | r in once ensures twice[r] == once[r] {
      if Names(scoring, r) {
        var i :| 0 <= i < |scoring| && scoring[i].reference == r;
      }
    }
  }

  datatype Action =
    | Rescan(scoring: seq<Assessment>)
    | Resolve(reference: string, resolution: Resolution, actor: string, note: Option<string>)

  ghost predicate Moves(rows: Rows, a: Action, rows': Rows) {
    match a
    case Rescan(scoring) => Rescanned(rows, scoring, rows')
    case Resolve(r, d, actor, note) =>
      && d != Unresolved
      && rows' == if r in rows then AfterDecision(rows, r, d, actor, note) else rows
  }

  ghost predicate IsRun(states: seq<Rows>, actions: seq<Action>) {
    && |states| == |actions| + 1
    && forall i :: 0 <= i < |actions| ==> Moves(states[i], actions[i], states[i + 1])
  }

  /**
   * A decided candidate is never deleted, and its decision, author and note stand until an
   * officer decides the same candidate again.
   */
  lemma {:induction false} DecisionStands(states: seq<Rows>, actions: seq<Action>, r: string, i: nat, j: nat)
    requires IsRun(states, actions) && i <= j < |states| && Decided(states[i], r)
    requires forall k :: i <= k < j ==> !(actions[k].Resolve? && actions[k].reference == r)
    ensures Decided(states[j], r) && states[j][r].(score := states[i][r].score) == states[i][r]
    decreases j - i
  {
    if i < j {
      DecisionStands(states, actions, r, i, j - 1);
      assert Moves(states[j - 1], actions[j - 1], states[j]);
      if actions[j - 1].Rescan? {
        RescanKeepsDecision(states[j - 1], actions[j - 1].scoring, states[j], r);
      }
    }
  }

  /** Once decided, always decided: no action makes a candidate outstanding again. */
  lemma {:induction false} DecidedForGood(states: seq<Rows>, actions: seq<Action>, r: string, i: nat, j: nat)
    requires IsRun(states, actions) && i <= j < |states| && Decided(states[i], r)
    ensures Decided(states[j], r)
    decreases j - i
  {
    if i < j {
      DecidedForGood(states, actions, r, i, j - 1);
      assert Moves(states[j - 1], actions[j - 1], states[j]);
      if actions[j - 1].Rescan? {
        OutstandingAfterRescan(states[j - 1], actions[j - 1].scoring, states[j], r);
      }
    }
  }
}
