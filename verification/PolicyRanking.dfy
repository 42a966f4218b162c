/** Ranking scored policies and binding one automatically: app/domain/policy_match.py. */
module PolicyRanking {
  import opened Wrappers
  import opened Matching
  import opened PolicyMatch
  import opened Ranking
  import References

  function Scores(n: Notice, pool: seq<Policy>, c: Config): (ks: seq<Candidate>)
    ensures |ks| == |pool|
    ensures forall i :: 0 <= i < |pool| ==> ks[i] == ScorePolicy(n, pool[i], c)
  {
    seq(|pool|, i requires 0 <= i < |pool| => ScorePolicy(n, pool[i], c))
  }

  predicate IsViable(k: Candidate, c: Config) { Identified(k) && k.score >= c.candidate }

  /** The candidates that survive both filters, in pool order. */
  function Viable(ks: seq<Candidate>, c: Config): seq<Candidate> {
    if ks == [] then []
    else (if IsViable(ks[0], c) then [ks[0]] else []) + Viable(ks[1..], c)
  }

  /** What candidates are ranked by. */
  const BY_SCORE: Candidate -> real := (k: Candidate) => k.score

  function Take<T>(s: seq<T>, limit: nat): seq<T> { if |s| <= limit then s else s[..limit] }

  function Ranked(ks: seq<Candidate>, c: Config, limit: nat): seq<Candidate> {
    Take(SortDescending(Viable(ks, c), BY_SCORE), limit)
  }

  lemma {:induction false} ViableSnoc(ks: seq<Candidate>, k: Candidate, c: Config)
    ensures Viable(ks + [k], c) == Viable(ks, c) + (if IsViable(k, c) then [k] else [])
  {
    if ks == [] {
      assert ks + [k] == [k];
    } else {
      ViableSnoc(ks[1..], k, c);
      assert (ks + [k])[1..] == ks[1..] + [k];
    }
  }

  method KeepViable(ks: seq<Candidate>, c: Config) returns (viable: seq<Candidate>)
    ensures viable == Viable(ks, c)
  {
    viable := [];
    for i := 0 to |ks|
      invariant viable == Viable(ks[..i], c)
    {
      assert ks[..i + 1] == ks[..i] + [ks[i]];
      ViableSnoc(ks[..i], ks[i], c);
      if Identified(ks[i]) && ks[i].score >= c.candidate {
        viable := viable + [ks[i]];
      }
    }
    assert ks[..|ks|] == ks;
  }

  /** The candidates worth showing, best first. */
  method RankCandidates(n: Notice, pool: seq<Policy>, c: Config, limit: nat) returns (ranked: seq<Candidate>)
    ensures ranked == Ranked(Scores(n, pool, c), c, limit)
  {
    var viable := KeepViable(Scores(n, pool, c), c);
    ranked := Take(SortDescending(viable, BY_SCORE), limit);
  }

  /** A second strong match means a human has a choice to make. */
  function OverallStrength(ranked: seq<Candidate>, c: Config): Strength {
    if ranked == [] then NoMatch
    else if exists i :: 1 <= i < |ranked| && ranked[i].score >= c.high then Possible
    else ranked[0].strength
  }

  // ---------------------------------------------------------------------------
  // Automatic binding
  // ---------------------------------------------------------------------------

  /** Identified, and at or above the high threshold. */
  predicate IsRival(k: Candidate, c: Config) { Identified(k) && k.score >= c.high }

  function Rivals(ks: seq<Candidate>, c: Config): nat {
    if ks == [] then 0 else (if IsRival(ks[0], c) then 1 else 0) + Rivals(ks[1..], c)
  }

  lemma {:induction false} FilterKeepsRivals(ks: seq<Candidate>, c: Config)
    requires c.candidate <= c.high
    ensures Rivals(Viable(ks, c), c) == Rivals(ks, c)
  {
    if ks != [] {
      FilterKeepsRivals(ks[1..], c);
      if IsViable(ks[0], c) {
        assert ([ks[0]] + Viable(ks[1..], c))[1..] == Viable(ks[1..], c);
      } else {
        assert [] + Viable(ks[1..], c) == Viable(ks[1..], c);
      }
    }
  }

  lemma {:induction false} InsertKeepsRivals(k: Candidate, sorted: seq<Candidate>, c: Config)
    ensures Rivals(Insert(k, sorted, BY_SCORE), c) == Rivals([k] + sorted, c)
  {
    if sorted != [] && sorted[0].score > k.score {
      InsertKeepsRivals(k, sorted[1..], c);
      assert ([k] + sorted)[1..] == sorted && ([k] + sorted[1..])[1..] == sorted[1..];
    }
  }

  lemma {:induction false} SortKeepsRivals(ks: seq<Candidate>, c: Config)
    ensures Rivals(SortDescending(ks, BY_SCORE), c) == Rivals(ks, c)
  {
    if ks != [] {
      SortKeepsRivals(ks[1..], c);
      InsertKeepsRivals(ks[0], SortDescending(ks[1..], BY_SCORE), c);
      assert ([ks[0]] + SortDescending(ks[1..], BY_SCORE))[1..] == SortDescending(ks[1..], BY_SCORE);
    }
  }

  lemma {:induction false} NoRivals(ks: seq<Candidate>, c: Config)
    requires forall i :: 0 <= i < |ks| ==> ks[i].score < c.high
    ensures Rivals(ks, c) == 0
  {
    if ks != [] { NoRivals(ks[1..], c); }
  }

  lemma {:induction false} RivalIsCounted(ks: seq<Candidate>, c: Config, i: nat)
    requires i < |ks| && IsRival(ks[i], c)
    ensures Rivals(ks, c) >= 1
  {
    if i > 0 { RivalIsCounted(ks[1..], c, i - 1); }
  }

  lemma {:induction false} TwoRivalsAreCounted(ks: seq<Candidate>, c: Config, i: nat, j: nat)
    requires i < j < |ks| && IsRival(ks[i], c) && IsRival(ks[j], c)
    ensures Rivals(ks, c) >= 2
  {
    if i > 0 {
      TwoRivalsAreCounted(ks[1..], c, i - 1, j - 1);
    } else {
      RivalIsCounted(ks[1..], c, j - 1);
    }
  }

  /** When nothing shown after the first is a contender, nothing in the whole ranking is. */
  lemma ShownIsEnough(sorted: seq<Candidate>, c: Config, limit: nat)
    requires BestFirst(sorted, BY_SCORE) && limit >= 2 && sorted != []
    requires forall i :: 1 <= i < |Take(sorted, limit)| ==> Take(sorted, limit)[i].score < c.high
    ensures Rivals(sorted, c) == if IsRival(sorted[0], c) then 1 else 0
  {
    var rest := sorted[1..];
    if rest != [] {
      assert Take(sorted, limit)[1] == sorted[1] == rest[0];
      assert forall i :: 0 <= i < |rest| ==> rest[i] == sorted[i + 1];
      assert forall i :: 1 <= i < |sorted| ==> sorted[i].score <= sorted[1].score;
    }
    NoRivals(rest, c);
  }

  lemma {:induction false} ViableMembers(ks: seq<Candidate>, c: Config, k: Candidate)
    ensures k in Viable(ks, c) <==> k in ks && IsViable(k, c)
  {
    if ks != [] { ViableMembers(ks[1..], c, k); }
  }

  /** The same, over candidates however they were scored. */
  lemma ExactLeavesNoRival(ks: seq<Candidate>, c: Config, limit: nat, i: nat, j: nat)
    requires c.candidate <= c.high && limit >= 2
    requires OverallStrength(Ranked(ks, c, limit), c) == Exact
    requires i < |ks| && ks[i] == Ranked(ks, c, limit)[0] && j < |ks| && j != i
    ensures !IsRival(ks[j], c)
  {
    var viable := Viable(ks, c);
    SortIsRanking(viable, BY_SCORE);
    SortKeepsRivals(viable, c);
    FilterKeepsRivals(ks, c);
    ShownIsEnough(SortDescending(viable, BY_SCORE), c, limit);
    if IsRival(ks[j], c) {
      RivalIsCounted(ks, c, j);
      if i < j { TwoRivalsAreCounted(ks, c, i, j); } else { TwoRivalsAreCounted(ks, c, j, i); }
    }
  }

  lemma BestComesFromPool(ks: seq<Candidate>, c: Config, limit: nat)
    requires limit >= 1 && Ranked(ks, c, limit) != []
    ensures Ranked(ks, c, limit)[0] in ks && IsViable(Ranked(ks, c, limit)[0], c)
  {
    SortIsRanking(Viable(ks, c), BY_SCORE);
    var best := SortDescending(Viable(ks, c), BY_SCORE)[0];
    assert best in SortDescending(Viable(ks, c), BY_SCORE);
    ViableMembers(ks, c, best);
  }

  lemma ExactMeans(n: Notice, p: Policy, c: Config)
    requires ScorePolicy(n, p, c).strength == Exact
    ensures NormaliseReference(n.policyNumber) == NormaliseReference(p.policyNumber) != ""
    ensures n.lossDay.Some? ==> p.effective <= n.lossDay.value <= p.expiry
  {
  }

  /**
   * Automatic binding is unambiguous. When the shown list as a whole reads as exact, its
   * first candidate carries the notice's own number and is not known to be out of force,
   * and no other policy anywhere in the scored pool is identified and at or above the
   * high threshold: filtering, sorting and truncation cannot hide a rival.
   */
  lemma ExactIsUnambiguous(n: Notice, pool: seq<Policy>, c: Config, limit: nat) returns (i: nat)
    requires c.candidate <= c.high && limit >= 2
    requires OverallStrength(Ranked(Scores(n, pool, c), c, limit), c) == Exact
    ensures i < |pool| && Ranked(Scores(n, pool, c), c, limit)[0] == ScorePolicy(n, pool[i], c)
    ensures NormaliseReference(n.policyNumber) == NormaliseReference(pool[i].policyNumber) != ""
    ensures n.lossDay.Some? ==> pool[i].effective <= n.lossDay.value <= pool[i].expiry
    ensures forall j :: 0 <= j < |pool| && j != i ==> !IsRival(ScorePolicy(n, pool[j], c), c)
  {
    var ks := Scores(n, pool, c);
    BestComesFromPool(ks, c, limit);
    i :| 0 <= i < |ks| && ks[i] == Ranked(ks, c, limit)[0];
    ExactMeans(n, pool[i], c);
    forall j | 0 <= j < |pool| && j != i ensures !IsRival(ScorePolicy(n, pool[j], c), c) {
      ExactLeavesNoRival(ks, c, limit, i, j);
    }
  }

  // ---------------------------------------------------------------------------
  // Where the promise stops
  // ---------------------------------------------------------------------------

  /** An exact overall match leaves no other contender, whatever candidates were scored. */
  ghost predicate Unambiguous(c: Config, limit: nat) {
    forall ks: seq<Candidate> :: OverallStrength(Ranked(ks, c, limit), c) == Exact ==> LeavesNoRival(ks, c, limit)
  }

  ghost predicate LeavesNoRival(ks: seq<Candidate>, c: Config, limit: nat) {
    && Ranked(ks, c, limit) != []
    && forall i, j :: 0 <= i < |ks| && 0 <= j < |ks| && i != j && ks[i] == Ranked(ks, c, limit)[0] ==> !IsRival(ks[j], c)
  }

  /** Signals of a policy number alone. */
  function NumberOnly(x: real): Signals {
    Signals(x, UNCOMPARED, UNCOMPARED, UNCOMPARED, UNCOMPARED, UNCOMPARED, UNCOMPARED, UNCOMPARED)
  }

  lemma BestAlone(best: Candidate, other: Candidate, c: Config, limit: nat)
    requires limit >= 1 && IsViable(best, c) && (!IsViable(other, c) || (limit == 1 && best.score >= other.score))
    ensures Ranked([best, other], c, limit) == [best]
  {
    assert [best, other][1..] == [other] && [other][1..] == [];
    assert Viable([other], c) == if IsViable(other, c) then [other] else [];
    assert SortDescending([other], BY_SCORE) == [other];
    if IsViable(other, c) {
      assert Viable([best, other], c) == [best, other];
      assert SortDescending([best, other], BY_SCORE) == [best, other];
    } else {
      assert Viable([best, other], c) == [best] && [best][1..] == [];
      assert SortDescending([best], BY_SCORE) == [best];
    }
  }

  lemma RivalIsMissed(best: Candidate, other: Candidate, c: Config, limit: nat)
    requires limit >= 1 && IsViable(best, c) && (!IsViable(other, c) || (limit == 1 && best.score >= other.score))
    requires best.strength == Exact && IsRival(other, c)
    ensures !Unambiguous(c, limit)
  {
    var ks := [best, other];
    BestAlone(best, other, c, limit);
    assert ks[0] == Ranked(ks, c, limit)[0] && IsRival(ks[1], c);
    assert !LeavesNoRival(ks, c, limit);
  }

  /**
   * Exactly when an exact overall match can be trusted, over every list of candidates: the
   * candidate filter must not be stricter than the high threshold, and at least two must be
   * shown. With none shown nothing reads as exact.
   */
  lemma UnambiguousExactlyWhen(c: Config, limit: nat)
    ensures Unambiguous(c, limit) <==> limit == 0 || (limit >= 2 && c.candidate <= c.high)
  {
    if limit == 1 {
      var score := Larger(c.candidate, c.high);
      var k := Candidate(1, "A1", score, Exact, NumberOnly(1.0));
      RivalIsMissed(k, k.(policyId := 2), c, limit);
    } else if limit >= 2 && c.candidate > c.high {
      var best := Candidate(1, "A1", c.candidate, Exact, NumberOnly(1.0));
      RivalIsMissed(best, Candidate(2, "A12", c.high, High, NumberOnly(0.8)), c, limit);
    } else if limit >= 2 {
      forall ks: seq<Candidate> | OverallStrength(Ranked(ks, c, limit), c) == Exact ensures LeavesNoRival(ks, c, limit) {
        forall i, j | 0 <= i < |ks| && 0 <= j < |ks| && i != j && ks[i] == Ranked(ks, c, limit)[0]
          ensures !IsRival(ks[j], c)
        {
          ExactLeavesNoRival(ks, c, limit, i, j);
        }
      }
    }
  }

  /** A notice that states a policy number and nothing else. */
  function Stating(number: string): Notice { Notice(number, "", "", "", "", "", "", None) }

  lemma NumberAloneScores(x: real)
    requires x >= 0.0
    ensures WeightedScore(Parts(NumberOnly(x))) == x
  {
    var s := NumberOnly(x);
    var others := OtherParts(s);
    assert Parts(s) == [] + [(x, 5.0)] + others && [] + others == others;
    NoneUsable(others);
    UsableSums([], (x, 5.0), others);
    assert Usable([(x, 5.0)]) == [(x, 5.0)] && Scored([(x, 5.0)]) == x * 5.0 && Weight([(x, 5.0)]) == 5.0;
    ScoreIsQuotient(Parts(s), x * 5.0, 5.0);
  }

  lemma NumberAlone(number: string, p: Policy, c: Config)
    requires NumberSignal(number, p.policyNumber) >= 0.0
    ensures var x := NumberSignal(number, p.policyNumber);
      ScorePolicy(Stating(number), p, c) == Candidate(p.id, p.policyNumber, Round4(x), StrengthOf(x, NumberOnly(x), c), NumberOnly(x))
  {
    var x := NumberSignal(number, p.policyNumber);
    assert SignalsOf(Stating(number), p) == NumberOnly(x);
    NumberAloneScores(x);
  }

  lemma {:induction false} NoneUsable(parts: seq<Part>)
    requires forall part <- parts :: part.0 < 0.0
    ensures Usable(parts) == []
  {
    if parts != [] { NoneUsable(parts[1..]); }
  }

  /** Two numbers, one continuing the other, as a renewal or an endorsement does. */
  lemma ContinuedNumber()
    ensures NumberSignal("A1", "A1") == 1.0 && NumberSignal("A1", "A12") == 0.8
  {
    assert References.Strip("A1") == "A1" && References.Strip("A12") == "A12";
    assert Lower("A1") == "a1" && Lower("A12") == "a12";
    assert "a1"[1..] == "1" && "a12"[1..] == "12" && "12"[1..] == "2" && "1"[1..] == "" && "2"[1..] == "";
    assert Collapse("a1") == "a1" && Collapse("a12") == "a12";
    assert KeepWordChars("a1") == "a1" && KeepWordChars("a12") == "a12";
    assert OccursAt("a12", "a1", 0);
  }

  lemma ContinuedScores(first: Policy, second: Policy, c: Config)
    requires first.policyNumber == "A1" && second.policyNumber == "A12"
    ensures ScorePolicy(Stating("A1"), first, c) ==
      Candidate(first.id, "A1", 1.0, StrengthOf(1.0, NumberOnly(1.0), c), NumberOnly(1.0))
    ensures ScorePolicy(Stating("A1"), second, c) ==
      Candidate(second.id, "A12", 0.8, StrengthOf(0.8, NumberOnly(0.8), c), NumberOnly(0.8))
  {
    ContinuedNumber();
    NumberAlone("A1", first, c);
    NumberAlone("A1", second, c);
    assert Round4(1.0) == 1.0 && Round4(0.8) == 0.8;
  }

  /**
   * The same failure from the scoring itself. A notice that states only "A1", against
   * policies "A1" and "A12": under every configuration that filters above 0.8 and calls 0.8
   * high, the overall match is exact although both policies are contenders.
   */
  lemma StricterFilterHidesRival(first: Policy, second: Policy, c: Config, limit: nat)
    requires first.policyNumber == "A1" && second.policyNumber == "A12"
    requires c.high <= 0.8 < c.candidate <= 1.0 && limit >= 1
    ensures var ks := Scores(Stating("A1"), [first, second], c);
      && OverallStrength(Ranked(ks, c, limit), c) == Exact && Ranked(ks, c, limit) == [ks[0]]
      && IsRival(ks[0], c) && IsRival(ks[1], c)
  {
    var ks := Scores(Stating("A1"), [first, second], c);
    ContinuedScores(first, second, c);
    assert ks == [ks[0], ks[1]];
    BestAlone(ks[0], ks[1], c, limit);
  }
}
