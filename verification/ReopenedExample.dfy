/**
 * A notice that reads ready although the question about duplicates is open again: one run
 * and one officer's decision of OverlappingRuns, written out.
 */
module ReopenedExample {
  import opened Wrappers
  import opened Lifecycle
  import opened Sessions
  import opened OverlappingRuns
  import Duplicates
  import Fraud
  import Ranking
  import FS = FieldStore
  import PB = PolicyBinding
  import PM = PolicyMatch
  import DR = DuplicateReview
  import ER = ExceptionReview
  import NP = NoticePipeline
  import NT = NoticeTheorems

  const QUESTION := ER.Row(ER.Critical, true, ER.Open, None, None)

  const WAIVED := ER.Row(ER.Critical, true, ER.Dismissed, None, None)

  /** Loaded by a run: one candidate awaits a decision, and an officer has waived the policy. */
  const HELD := NP.File(
    PossibleDuplicate, false, FS.Fields(map[], map[FS.DateOfLoss := FS.Number(0)], map[], "GBP"),
    PB.Binding(map[], None, false), map["7" := DR.Row(DR.OfNotice, 1.0, DR.Unresolved, None, None)],
    map[DuplicateSuspected := QUESTION, NoPolicyMatch := WAIVED])

  /** The run compares it with the candidate, of the same day, and finds nothing else. */
  const AGAIN := NP.Inputs(
    None, "", [], PM.DEFAULTS, "", "1", [Duplicates.BARE], [], Duplicates.CANDIDATE_THRESHOLD, map[],
    ER.Thresholds(Duplicates.STRONG_THRESHOLD, 0.5),
    NP.Facts(false, false, None, 0, 0, ER.BandLow, Fraud.Low, ER.LikelyCovered, false, false, None, 0))

  lemma SameDayScores(x: Duplicates.Loss)
    requires x == Duplicates.BARE.(reference := "1")
    ensures Duplicates.Score(x, Duplicates.BARE) == 1.0
  {
    Duplicates.EmptyReference();
    Duplicates.DatedBase(x, Duplicates.BARE);
    assert x.externalReference == "";
    Duplicates.UncomparedScoresBase(x, Duplicates.BARE);
  }

  lemma HeldAsLoss()
    ensures NP.LossOf(HELD.fields.values, AGAIN, None) == Duplicates.BARE.(reference := "1")
  {
    assert NP.NumberAt(HELD.fields.values, FS.DateOfLoss) == Some(0);
  }

  lemma OneScores(x: Duplicates.Loss, a: DR.Assessment)
    requires Duplicates.Score(x, Duplicates.BARE) == 1.0 && a == DR.Assessment("7", DR.OfNotice, 1.0)
    ensures DR.Likeliest(DR.Assessed(x, [Duplicates.BARE], []), Duplicates.CANDIDATE_THRESHOLD) == [a]
  {
    var all := DR.Assessed(x, [Duplicates.BARE], []);
    assert all == [a];
    assert all[1..] == [];
    assert DR.Scoring(all, Duplicates.CANDIDATE_THRESHOLD) == [a];
    assert Ranking.SortDescending([], DR.BY_LIKENESS) == [];
    assert Ranking.Insert(a, [], DR.BY_LIKENESS) == [a];
  }

  lemma CandidateScores()
    ensures NP.ScoringFor(HELD.fields.values, AGAIN, None) == [DR.Assessment("7", DR.OfNotice, 1.0)]
  {
    HeldAsLoss();
    var x := Duplicates.BARE.(reference := "1");
    SameDayScores(x);
    OneScores(x, DR.Assessment("7", DR.OfNotice, 1.0));
  }

  /** The one candidate unresolved or linked. */
  function Compared(d: DR.Resolution, officer: Option<string>): DR.Rows {
    map["7" := DR.Row(DR.OfNotice, 1.0, d, officer, None)]
  }

  lemma HeldFindings(x: ER.Findings, code: ExceptionCode)
    requires x == NP.FindingsFor(HELD.fields.values, AGAIN, HELD.binding, Compared(DR.Unresolved, None))
    ensures ER.Cause(x, AGAIN.thresholds, code) <==> code == NoPolicyMatch || code == DuplicateSuspected
    ensures ER.Cause(x, AGAIN.thresholds, code) ==> ER.LevelOf(x, AGAIN.thresholds, code) == ER.Critical
  {
    assert DR.Outstanding(x.duplicates, "7");
  }

  function HeldRaised(): seq<ER.Raised> { [ER.Raised(NoPolicyMatch, ER.Critical), ER.Raised(DuplicateSuspected, ER.Critical)] }

  lemma HeldReports(x: ER.Findings)
    requires x == NP.FindingsFor(HELD.fields.values, AGAIN, HELD.binding, Compared(DR.Unresolved, None))
    ensures ER.Reports(x, AGAIN.thresholds, HeldRaised())
  {
    var raised := HeldRaised();
    forall code ensures ER.Mentions(raised, code) <==> ER.Cause(x, AGAIN.thresholds, code) {
      HeldFindings(x, code);
      assert raised[0].code == NoPolicyMatch && raised[1].code == DuplicateSuspected;
    }
    forall k | 0 <= k < |raised| ensures raised[k].level == ER.LevelOf(x, AGAIN.thresholds, raised[k].code) {
      HeldFindings(x, raised[k].code);
    }
  }

  lemma HeldEvaluated()
    ensures ER.Evaluated(map[NoPolicyMatch := WAIVED], HeldRaised(), HELD.exceptions)
  {
    var raised := HeldRaised();
    assert raised[0].code == NoPolicyMatch && raised[1].code == DuplicateSuspected;
  }

  lemma HeldEvaluation(x: ER.Findings)
    requires x == NP.FindingsFor(HELD.fields.values, AGAIN, HELD.binding, Compared(DR.Unresolved, None))
    ensures ER.Moves(map[NoPolicyMatch := WAIVED], ER.Evaluation(x, AGAIN.thresholds), HELD.exceptions)
  {
    HeldReports(x);
    HeldEvaluated();
  }

  lemma OpenOnes()
    ensures ER.OpenCodes(HELD.exceptions) == {DuplicateSuspected} && ER.OpenCodes(map[NoPolicyMatch := WAIVED]) == {}
    ensures DuplicateSuspected in BlockingCodes({DuplicateSuspected})
  {
    assert DuplicateSuspected in BLOCKING_EXCEPTIONS;
  }

  lemma TheirStatus()
    ensures DeriveStatus(PossibleDuplicate, {DuplicateSuspected}, false) == PossibleDuplicate
    ensures DeriveStatus(PossibleDuplicate, {}, false) == ReadyForClaim
  {
    var t := STATUS_FOR_EXCEPTION;
    assert t[4].0 == DuplicateSuspected;
    FirstIsQuestion(t);
    FirstOpenIsReady(t, {});
  }

  lemma {:induction false} FirstIsQuestion(table: seq<(ExceptionCode, Status)>)
    requires forall k :: 0 <= k < |table| ==> (table[k].0 == DuplicateSuspected <==> table[k].1 == PossibleDuplicate)
    ensures FirstOpen(table, {DuplicateSuspected}) ==
      if exists k :: 0 <= k < |table| && table[k].0 == DuplicateSuspected then PossibleDuplicate else ReadyForClaim
  {
    if table != [] {
      FirstIsQuestion(table[1..]);
      assert forall k :: 1 <= k < |table| ==> table[k] == table[1..][k - 1];
    }
  }

  function Linked(officer: string): NP.File {
    HELD.(status := ReadyForClaim, duplicates := Compared(DR.Linked, Some(officer)), exceptions := map[NoPolicyMatch := WAIVED])
  }

  lemma LinkingCloses(officer: string)
    ensures DecidesLast(HELD, "7", DR.Linked)
    ensures NP.AfterDuplicate(HELD, "7", DR.Linked, officer, None) == Linked(officer)
  {
    var f := HELD;
    assert DR.Outstanding(f.duplicates, "7") && forall q <- f.duplicates :: q == "7";
    var decided := DR.AfterDecision(f.duplicates, "7", DR.Linked, officer, None);
    assert decided == Compared(DR.Linked, Some(officer));
    assert !NP.OthersOutstanding(decided, "7");
    assert ER.AfterClear(f.exceptions, DuplicateSuspected) == map[NoPolicyMatch := WAIVED];
    OpenOnes();
    TheirStatus();
  }

  lemma HeldMatches()
    ensures PB.Moves(HELD.binding, NP.Rescoring(HELD.fields.values, AGAIN), HELD.binding)
  {
    NothingIsRanked(NP.NoticeOf(HELD.fields.values, ""), [], PM.DEFAULTS);
    assert PB.IsPick(HELD.binding.rows, None) && PB.RescoredAround(HELD.binding.rows, [], None, HELD.binding.rows);
  }

  lemma SameCandidate(scoring: seq<DR.Assessment>)
    requires scoring == [DR.Assessment("7", DR.OfNotice, 1.0)]
    ensures DR.Rescanned(HELD.duplicates, scoring, HELD.duplicates)
  {
    assert scoring[0].reference == "7";
  }

  lemma HeldCandidates()
    ensures DR.Rescanned(HELD.duplicates, Scoring(AGAIN, HELD), HELD.duplicates)
  {
    CandidateScores();
    SameCandidate(Scoring(AGAIN, HELD));
  }

  lemma AgainStatus(exceptions: ER.Rows)
    requires exceptions == HELD.exceptions
    ensures StatusFound(PossibleDuplicate, AGAIN, NP.Completes, exceptions) == PossibleDuplicate
    ensures StatusWritten(PossibleDuplicate, PossibleDuplicate, ReadyForClaim) == ReadyForClaim
  {
    OpenOnes();
    TheirStatus();
  }

  lemma HeldStages(f: NP.File)
    requires f == HELD.(exceptions := map[NoPolicyMatch := WAIVED])
    ensures Stages(f, AGAIN, HELD)
  {
    HeldMatches();
    HeldCandidates();
    HeldEvaluation(Found(AGAIN, HELD));
    AgainStatus(HELD.exceptions);
    assert NP.FieldsRead(f.fields, AGAIN.reading) == HELD.fields;
  }

  lemma HeldLoads(met: NP.File)
    requires met.fields == HELD.fields && met.binding == HELD.binding && met.duplicates.Keys == HELD.duplicates.Keys
    requires met.exceptions == map[NoPolicyMatch := WAIVED]
    ensures Loaded(HELD, met) == HELD.(exceptions := map[NoPolicyMatch := WAIVED])
  {
    assert FieldsView(HELD.fields, met.fields) == HELD.fields;
    assert BindingView(HELD.binding, met.binding) == HELD.binding;
    assert View(HELD.duplicates, met.duplicates) == HELD.duplicates;
    assert View(HELD.exceptions, met.exceptions) == map[NoPolicyMatch := WAIVED];
  }

  lemma HeldFlushes(officer: string, met: NP.File)
    requires met == Linked(officer)
    ensures FieldsFlushed(HELD.fields, HELD.fields, met.fields, met.fields)
    ensures BindingFlushed(HELD.binding, HELD.binding, met.binding, met.binding)
    ensures Flushed(HELD.duplicates, HELD.duplicates, met.duplicates, CandidateColumns, met.duplicates)
    ensures Flushed(map[NoPolicyMatch := WAIVED], HELD.exceptions, met.exceptions, ExceptionColumns, HELD.exceptions)
  {
  }

  lemma AgainSession(officer: string, met: NP.File, g: NP.File)
    requires met == Linked(officer) && g == met.(exceptions := HELD.exceptions)
    ensures SessionRan(HELD, met, AGAIN, HELD, met, g)
  {
    HeldStages(HELD.(exceptions := map[NoPolicyMatch := WAIVED]));
    HeldLoads(met);
    HeldFlushes(officer, met);
    AgainStatus(g.exceptions);
  }

  lemma HeldIsSettled(officer: string)
    ensures NT.Settled(HELD) && NT.Quiet(Linked(officer))
  {
  }

  /**
   * The officer links the last candidate: the question is closed and the notice ready. The
   * run that had loaded it before then asks again, about a candidate everybody can see was
   * linked, and the notice still reads ready.
   */
  lemma AskedInVainExample(officer: string) returns (met: NP.File, g: NP.File)
    ensures NT.Settled(HELD) && DecidesLast(HELD, "7", DR.Linked)
    ensures met == NP.AfterDuplicate(HELD, "7", DR.Linked, officer, None) && met.status == ReadyForClaim && NT.Quiet(met)
    ensures RanOn(HELD, met, AGAIN, NP.Completes, HELD, met, g)
    ensures g.duplicates == met.duplicates && ER.IsOpen(g.exceptions, DuplicateSuspected)
    ensures g.status == ReadyForClaim && DuplicateSuspected in BlockingCodes(ER.OpenCodes(g.exceptions))
  {
    met := Linked(officer);
    g := met.(exceptions := HELD.exceptions);
    LinkingCloses(officer);
    HeldIsSettled(officer);
    OpenOnes();
    AgainSession(officer, met, g);
    SessionRuns(HELD, met, AGAIN, HELD, met, g);
  }
}
