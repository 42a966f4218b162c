/**
 * The candidate policies stored against a notice and the one it is bound to:
 * `PolicyMatchingService` of app/services/fnol/matching.py and
 * `replace_policy_matches` of app/repositories/fnol.py.
 */
module PolicyBinding {
  import opened Wrappers
  import opened PolicyMatch
  import opened PolicyRanking
  import opened Ranking

  const SHOWN: nat := 5

  datatype Row = Row(strength: Strength, score: real, rank: nat, selected: bool, selectedBy: Option<string>)

  datatype Binding = Binding(rows: map<nat, Row>, policyId: Option<nat>, confirmed: bool)

  predicate DistinctIds(ks: seq<Candidate>) {
    forall i, j :: 0 <= i < j < |ks| ==> ks[i].policyId != ks[j].policyId
  }

  predicate DistinctPolicies(pool: seq<Policy>) {
    forall i, j :: 0 <= i < j < |pool| ==> pool[i].id != pool[j].id
  }

  /** At most one stored candidate is marked as chosen. */
  ghost predicate OneChosen(rows: map<nat, Row>) {
    forall p <- rows, q <- rows :: rows[p].selected && rows[q].selected ==> p == q
  }

  predicate Ranks(ks: seq<Candidate>, p: nat) { exists i :: 0 <= i < |ks| && ks[i].policyId == p }

  /**
   * The row a rescoring takes for the chosen one. A notice has at most one marked row as
   * long as its actions do not overlap; of several, the source takes the first it reads.
   */
  ghost predicate IsPick(rows: map<nat, Row>, chosen: Option<nat>) {
    match chosen
    case None => forall p <- rows :: !rows[p].selected
    case Some(p) => p in rows && rows[p].selected
  }

  /**
   * The rows after a rescoring: every candidate under its rank, plus the chosen row if it
   * dropped out; the mark and its author stay on the chosen policy and nowhere else.
   */
  ghost predicate RescoredAround(old_: map<nat, Row>, ks: seq<Candidate>, chosen: Option<nat>, rows: map<nat, Row>)
    requires IsPick(old_, chosen)
  {
    && (forall p :: p in rows <==> Ranks(ks, p) || chosen == Some(p))
    && (forall i :: 0 <= i < |ks| ==>
          var p := ks[i].policyId;
          && p in rows && rows[p].strength == ks[i].strength && rows[p].score == ks[i].score && rows[p].rank == i
          && (rows[p].selected <==> chosen == Some(p))
          && rows[p].selectedBy == if chosen == Some(p) then old_[p].selectedBy else None)
    && (forall p <- rows :: !Ranks(ks, p) ==> rows[p] == old_[p])
  }

  ghost predicate Rescored(old_: map<nat, Row>, ks: seq<Candidate>, rows: map<nat, Row>) {
    exists chosen :: IsPick(old_, chosen) && RescoredAround(old_, ks, chosen, rows)
  }

  class MatchList {
    var rows: map<nat, Row>
    var policyId: Option<nat>
    var confirmed: bool

    constructor ()
      ensures Contents() == Binding(map[], None, false)
    {
      rows, policyId, confirmed := map[], None, false;
    }

    ghost function Contents(): Binding
      reads this
    {
      Binding(rows, policyId, confirmed)
    }

    /** The stored candidate a human chose, if any. */
    method Chosen() returns (p: Option<nat>)
      ensures p.Some? ==> p.value in rows && rows[p.value].selected
      ensures p.None? ==> forall q <- rows :: !rows[q].selected
    {
      var left := rows.Keys;
      while left != {}
        invariant left <= rows.Keys
        invariant forall q <- rows :: q !in left ==> !rows[q].selected
        decreases left
      {
        var q :| q in left;
        if rows[q].selected {
          return Some(q);
        }
        left := left - {q};
      }
      p := None;
    }

    /** Rescore the list, preserving whichever candidate a human chose. */
    method ReplaceMatches(ks: seq<Candidate>)
      requires DistinctIds(ks)
      modifies this`rows
      ensures Rescored(old(rows), ks, rows)
      ensures OneChosen(rows)
    {
      ghost var before := rows;
      var chosen := Chosen();
      assert IsPick(before, chosen);
      var author := if chosen.Some? then rows[chosen.value].selectedBy else None;
      var incoming := set i | 0 <= i < |ks| :: ks[i].policyId;
      rows := map p <- rows | p in incoming || chosen == Some(p) :: rows[p];
      for index := 0 to |ks|
        invariant forall p :: p in rows ==> Ranks(ks, p) || chosen == Some(p)
        invariant chosen.Some? ==> chosen.value in rows
        invariant forall i :: 0 <= i < index ==>
          var p := ks[i].policyId;
          && p in rows && rows[p].strength == ks[i].strength && rows[p].score == ks[i].score && rows[p].rank == i
          && (rows[p].selected <==> chosen == Some(p))
          && rows[p].selectedBy == if chosen == Some(p) then before[p].selectedBy else None
        invariant forall p <- rows :: !Ranks(ks, p) ==> p in before && rows[p] == before[p]
      {
        var p := ks[index].policyId;
        assert Ranks(ks, p);
        var isChosen := chosen == Some(p);
        rows := rows[p := Row(ks[index].strength, ks[index].score, index, isChosen, if isChosen then author else None)];
      }
      forall p | Ranks(ks, p) ensures p in rows {
        var i :| 0 <= i < |ks| && ks[i].policyId == p;
      }
      assert RescoredAround(before, ks, chosen, rows);
      MarksStay(before, ks, chosen, rows);
    }

    /** Rank the pool, store the ranking, and bind an unambiguous exact match. */
    method Match(n: Notice, pool: seq<Policy>, c: Config) returns (ranked: seq<Candidate>, strength: Strength)
      requires DistinctPolicies(pool)
      modifies this
      ensures ranked == Ranked(Scores(n, pool, c), c, SHOWN) && strength == OverallStrength(ranked, c)
      ensures Rescored(old(rows), ranked, rows) && OneChosen(rows)
      ensures confirmed == old(confirmed)
      ensures policyId ==
        if strength == Exact && ranked != [] && !confirmed then Some(ranked[0].policyId) else old(policyId)
    {
      ranked := RankCandidates(n, pool, c, SHOWN);
      strength := OverallStrength(ranked, c);
      RankedIdsAreDistinct(n, pool, c);
      ReplaceMatches(ranked);
      if strength == Exact && ranked != [] && !confirmed {
        policyId := Some(ranked[0].policyId);
      }
    }

    /** Bind the policy an officer chose; it must be a stored candidate. */
    method Select(p: nat, actor: string) returns (found: bool)
      modifies this
      ensures found <==> p in old(rows)
      ensures !found ==> Contents() == old(Contents())
      ensures found ==> Contents() == AfterSelect(old(Contents()), p, actor)
    {
      if p !in rows {
        return false;
      }
      ghost var before := rows;
      var left := rows.Keys;
      while left != {}
        invariant rows.Keys == before.Keys && left <= rows.Keys
        invariant forall q <- rows :: rows[q] == if q in left then before[q] else Marked(before[q], q == p, actor)
        decreases left
      {
        var q :| q in left;
        rows := rows[q := Marked(rows[q], q == p, actor)];
        left := left - {q};
      }
      policyId := Some(p);
      confirmed := true;
      found := true;
    }
  }

  function Marked(r: Row, chosen: bool, actor: string): Row {
    r.(selected := chosen, selectedBy := if chosen then Some(actor) else None)
  }

  function AfterSelect(b: Binding, p: nat, actor: string): Binding
    requires p in b.rows
  {
    Binding(map q <- b.rows :: Marked(b.rows[q], q == p, actor), Some(p), true)
  }

  /** The mark stays on the chosen row and nowhere else. */
  lemma MarksStay(before: map<nat, Row>, ks: seq<Candidate>, chosen: Option<nat>, rows: map<nat, Row>)
    requires IsPick(before, chosen) && RescoredAround(before, ks, chosen, rows)
    ensures forall p <- rows :: rows[p].selected <==> chosen == Some(p)
    ensures OneChosen(rows) && IsPick(rows, chosen)
  {
    forall p <- rows ensures rows[p].selected <==> chosen == Some(p) {
      if Ranks(ks, p) {
        var i :| 0 <= i < |ks| && ks[i].policyId == p;
      }
    }
  }

  lemma ChosenStaysUnique(before: map<nat, Row>, ks: seq<Candidate>, rows: map<nat, Row>)
    requires OneChosen(before) && Rescored(before, ks, rows)
    ensures OneChosen(rows)
    ensures forall p <- rows :: rows[p].selected <==> p in before && before[p].selected
    ensures forall p <- before :: before[p].selected ==> p in rows
  {
    var chosen :| IsPick(before, chosen) && RescoredAround(before, ks, chosen, rows);
    MarksStay(before, ks, chosen, rows);
  }

  lemma {:induction false} ViableIdsAreDistinct(ks: seq<Candidate>, c: Config)
    requires DistinctIds(ks)
    ensures DistinctIds(Viable(ks, c))
  {
    if ks != [] {
      ViableIdsAreDistinct(ks[1..], c);
      forall k | k in Viable(ks[1..], c) ensures k.policyId != ks[0].policyId {
        ViableMembers(ks[1..], c, k);
        var i :| 0 <= i < |ks[1..]| && ks[1..][i] == k;
        assert ks[i + 1] == k;
      }
      var rest := Viable(ks[1..], c);
      assert forall j :: 0 <= j < |rest| ==> rest[j] in rest;
    }
  }

  lemma {:induction false} InsertKeepsDistinct(k: Candidate, sorted: seq<Candidate>)
    requires DistinctIds(sorted) && forall x <- sorted :: x.policyId != k.policyId
    ensures DistinctIds(Insert(k, sorted, BY_SCORE))
  {
    if sorted != [] && sorted[0].score > k.score {
      InsertKeepsDistinct(k, sorted[1..]);
      InsertKeepsMembers(k, sorted[1..], BY_SCORE);
      var r := Insert(k, sorted[1..], BY_SCORE);
      forall j | 0 <= j < |r| ensures r[j].policyId != sorted[0].policyId {
        assert r[j] in r;
        if r[j] != k {
          var i :| 0 <= i < |sorted[1..]| && sorted[1..][i] == r[j];
          assert sorted[i + 1] == r[j];
        }
      }
    }
  }

  lemma {:induction false} SortKeepsDistinct(ks: seq<Candidate>)
    requires DistinctIds(ks)
    ensures DistinctIds(SortDescending(ks, BY_SCORE))
  {
    if ks != [] {
      SortKeepsDistinct(ks[1..]);
      SortIsRanking(ks[1..], BY_SCORE);
      forall x | x in SortDescending(ks[1..], BY_SCORE) ensures x.policyId != ks[0].policyId {
        var i :| 0 <= i < |ks[1..]| && ks[1..][i] == x;
        assert ks[i + 1] == x;
      }
      InsertKeepsDistinct(ks[0], SortDescending(ks[1..], BY_SCORE));
    }
  }

  lemma RankedIdsAreDistinct(n: Notice, pool: seq<Policy>, c: Config)
    requires DistinctPolicies(pool)
    ensures DistinctIds(Ranked(Scores(n, pool, c), c, SHOWN))
  {
    ViableIdsAreDistinct(Scores(n, pool, c), c);
    SortKeepsDistinct(Viable(Scores(n, pool, c), c));
  }

  // ---------------------------------------------------------------------------
  // Every sequence of rescorings and choices
  // ---------------------------------------------------------------------------

  /** One rescoring against some pool and thresholds, or one choice of a stored candidate. */
  datatype Action =
    | Rescore(notice: Notice, pool: seq<Policy>, config: Config)
    | Choose(policy: nat, actor: string)

  /** How an action may change the binding, as `Match` and `Select` promise. */
  ghost predicate Moves(b: Binding, a: Action, b': Binding) {
    match a
    case Rescore(n, pool, c) =>
      var ranked := Ranked(Scores(n, pool, c), c, SHOWN);
      && DistinctPolicies(pool)
      && Rescored(b.rows, ranked, b'.rows) && b'.confirmed == b.confirmed
      && b'.policyId == if OverallStrength(ranked, c) == Exact && ranked != [] && !b.confirmed
                        then Some(ranked[0].policyId) else b.policyId
    case Choose(p, actor) => if p in b.rows then b' == AfterSelect(b, p, actor) else b' == b
  }

  ghost predicate IsRun(bs: seq<Binding>, actions: seq<Action>) {
    && |bs| == |actions| + 1 && bs[0] == Binding(map[], None, false)
    && forall i :: 0 <= i < |actions| ==> Moves(bs[i], actions[i], bs[i + 1])
  }

  lemma RowsAgain(rows: map<nat, Row>, ranked: seq<Candidate>, once: map<nat, Row>, twice: map<nat, Row>)
    requires Rescored(rows, ranked, once) && Rescored(once, ranked, twice)
    ensures twice == once
  {
    var chosen :| IsPick(rows, chosen) && RescoredAround(rows, ranked, chosen, once);
    MarksStay(rows, ranked, chosen, once);
    var again :| IsPick(once, again) && RescoredAround(once, ranked, again, twice);
    assert again == chosen;
    forall p: nat ensures p in twice <==> p in once ensures p in once ==> twice[p] == once[p] {
      if Ranks(ranked, p) {
        var i :| 0 <= i < |ranked| && ranked[i].policyId == p;
      }
    }
  }

  /** Rescoring against the same pool again changes nothing. */
  lemma RescoringIsIdempotent(b: Binding, a: Action, once: Binding, twice: Binding)
    requires a.Rescore? && Moves(b, a, once) && Moves(once, a, twice)
    ensures twice == once
  {
    RowsAgain(b.rows, Ranked(Scores(a.notice, a.pool, a.config), a.config, SHOWN), once.rows, twice.rows);
  }

  /** Confirmed means exactly one row is chosen, and it is the bound policy's. */
  ghost predicate Coherent(b: Binding) {
    && OneChosen(b.rows)
    && (b.confirmed <==> exists p <- b.rows :: b.rows[p].selected)
    && (b.confirmed ==> b.policyId.Some? && b.policyId.value in b.rows && b.rows[b.policyId.value].selected)
  }

  lemma MoveKeepsCoherent(b: Binding, a: Action, b': Binding)
    requires Coherent(b) && Moves(b, a, b')
    ensures Coherent(b')
  {
    match a
    case Rescore(n, pool, c) =>
      ChosenStaysUnique(b.rows, Ranked(Scores(n, pool, c), c, SHOWN), b'.rows);
      if b.confirmed {
        assert b'.rows[b.policyId.value].selected;
      }
    case Choose(p, actor) =>
      if p in b.rows { assert b'.rows[p].selected; }
  }

  /** Over every sequence of rescorings and choices the binding stays coherent. */
  lemma {:induction false} ConfirmedIsSelected(bs: seq<Binding>, actions: seq<Action>, i: nat)
    requires IsRun(bs, actions) && i < |bs|
    ensures Coherent(bs[i])
  {
    if i > 0 {
      ConfirmedIsSelected(bs, actions, i - 1);
      MoveKeepsCoherent(bs[i - 1], actions[i - 1], bs[i]);
    }
  }

  /**
   * A confirmed policy stays bound, stored and selected, under the officer's name, until an
   * officer chooses again, even while rescorings no longer rank it at all.
   */
  lemma {:induction false} ConfirmationSurvives(bs: seq<Binding>, actions: seq<Action>, i: nat, j: nat)
    requires IsRun(bs, actions) && i <= j < |bs| && bs[i].confirmed
    requires forall k :: i <= k < j ==> actions[k].Rescore?
    ensures bs[j].confirmed && bs[j].policyId == bs[i].policyId && bs[i].policyId.Some?
    ensures var p := bs[i].policyId.value;
      p in bs[i].rows && p in bs[j].rows && bs[j].rows[p].selected && bs[j].rows[p].selectedBy == bs[i].rows[p].selectedBy
    decreases j - i
  {
    ConfirmedIsSelected(bs, actions, i);
    if i < j {
      ConfirmationSurvives(bs, actions, i, j - 1);
      var p := bs[i].policyId.value;
      var ranked := Ranked(Scores(actions[j - 1].notice, actions[j - 1].pool, actions[j - 1].config),
                           actions[j - 1].config, SHOWN);
      var chosen :| IsPick(bs[j - 1].rows, chosen) && RescoredAround(bs[j - 1].rows, ranked, chosen, bs[j].rows);
      ConfirmedIsSelected(bs, actions, j - 1);
      MarksStay(bs[j - 1].rows, ranked, chosen, bs[j].rows);
      if Ranks(ranked, p) {
        var r :| 0 <= r < |ranked| && ranked[r].policyId == p;
      }
    }
  }

  /**
   * What binds without a human: an exact overall match, to the one policy in the pool that
   * is identified at or above the high threshold and carries the notice's number.
   */
  lemma AutomaticBindingIsUnambiguous(b: Binding, a: Action, b': Binding) returns (i: nat)
    requires Moves(b, a, b') && a.Rescore? && b'.policyId != b.policyId
    requires a.config.candidate <= a.config.high
    ensures !b.confirmed && i < |a.pool| && b'.policyId == Some(a.pool[i].id)
    ensures forall j :: 0 <= j < |a.pool| && j != i ==> !IsRival(ScorePolicy(a.notice, a.pool[j], a.config), a.config)
  {
    i := ExactIsUnambiguous(a.notice, a.pool, a.config, SHOWN);
  }
}
