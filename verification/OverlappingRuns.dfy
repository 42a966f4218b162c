/**
 * What stands after a run that had loaded the notice before another run, or any number of
 * other actions, were done with it. The notice's lock puts the runs one after the other,
 * but the later one still works on what it had loaded.
 */
module OverlappingRuns {
  import opened Wrappers
  import opened Lifecycle
  import opened Sessions
  import Matching
  import FS = FieldStore
  import PB = PolicyBinding
  import PM = PolicyMatch
  import PR = PolicyRanking
  import DR = DuplicateReview
  import ER = ExceptionReview
  import NP = NoticePipeline
  import NT = NoticeTheorems
  import IR = InterleavedRuns

  // ---------------------------------------------------------------------------
  // A completed run, stage by stage
  // ---------------------------------------------------------------------------

  function Scoring(i: NP.Inputs, h: NP.File): seq<DR.Assessment> {
    NP.ScoringFor(h.fields.values, i, h.binding.policyId)
  }

  function Found(i: NP.Inputs, h: NP.File): ER.Findings {
    NP.FindingsFor(h.fields.values, i, h.binding, h.duplicates)
  }

  /** The stages of a run that nobody interfered with. */
  ghost predicate Stages(f: NP.File, i: NP.Inputs, m: NP.File) {
    && m.fields == NP.FieldsRead(f.fields, i.reading) && m.converted == f.converted
    && PB.Moves(f.binding, NP.Rescoring(m.fields.values, i), m.binding)
    && DR.Rescanned(f.duplicates, Scoring(i, m), m.duplicates)
    && ER.Moves(f.exceptions, ER.Evaluation(Found(i, m), i.thresholds), m.exceptions)
    && m.status == StatusFound(f.status, i, NP.Completes, m.exceptions)
  }

  lemma StagesOf(f: NP.File, i: NP.Inputs, m: NP.File)
    ensures NP.Processed(f, i, NP.Completes, m) <==> Stages(f, i, m)
  {
  }

  /** The same run in a session: its stages on what it holds, and its flush. */
  ghost predicate SessionRan(seen: NP.File, looked: NP.File, i: NP.Inputs, h: NP.File, met: NP.File, g: NP.File) {
    && Stages(Loaded(seen, looked), i, h) && TablesFlushed(Loaded(seen, looked), h, met, g)
    && g.status == StatusWritten(seen.status, StatusFound(seen.status, i, NP.Completes, g.exceptions), met.status)
    && g.converted == met.converted
  }

  lemma SessionRuns(seen: NP.File, looked: NP.File, i: NP.Inputs, h: NP.File, met: NP.File, g: NP.File)
    ensures RanOn(seen, looked, i, NP.Completes, h, met, g) <==> SessionRan(seen, looked, i, h, met, g)
  {
    StagesOf(Loaded(seen, looked), i, h);
  }

  // ---------------------------------------------------------------------------
  // The last run decides what is asked
  // ---------------------------------------------------------------------------

  /** A completed run, and what the others may do about it. */
  ghost predicate Overlaps(
    seen: NP.File, looked: NP.File, i: NP.Inputs, h: NP.File, met: NP.File, g: NP.File)
  {
    RanOn(seen, looked, i, NP.Completes, h, met, g) && StillDecided(seen, looked) && OnlyDecided(looked, met)
  }

  lemma SessionStages(seen: NP.File, looked: NP.File, i: NP.Inputs, h: NP.File, met: NP.File, g: NP.File)
    requires RanOn(seen, looked, i, NP.Completes, h, met, g)
    ensures h.fields == NP.FieldsRead(FieldsView(seen.fields, looked.fields), i.reading)
    ensures PB.Moves(BindingView(seen.binding, looked.binding), NP.Rescoring(h.fields.values, i), h.binding)
    ensures IR.Rescanned(View(seen.duplicates, looked.duplicates), Scoring(i, h), h.duplicates, met.duplicates, g.duplicates)
    ensures IR.Evaluated(View(seen.exceptions, looked.exceptions), Found(i, h), i.thresholds, h.exceptions, met.exceptions, g.exceptions)
  {
  }

  lemma OpenAfterFlush(
    seen: ER.Rows, looked: ER.Rows, x: ER.Findings, t: ER.Thresholds, new_: ER.Rows, met: ER.Rows, after: ER.Rows, code: ExceptionCode)
    requires IR.Evaluated(View(seen, looked), x, t, new_, met, after) && ExceptionsDecided(looked, met)
    requires ER.Decided(seen, code) && code in looked ==> ER.Decided(looked, code)
    ensures ER.IsOpen(after, code) <==> ER.Cause(x, t, code) && (code in looked ==> ER.IsOpen(met, code))
  {
    ER.EvaluatedRow(View(seen, looked), x, t, new_, code);
  }

  /**
   * Whatever runs and officers did since the load, an exception is open afterwards exactly
   * when this run found a cause for it and nobody had decided or closed it under the run.
   */
  lemma OpenExactlyWhen(
    seen: NP.File, looked: NP.File, i: NP.Inputs, h: NP.File, met: NP.File, g: NP.File, code: ExceptionCode)
    requires Overlaps(seen, looked, i, h, met, g)
    ensures ER.IsOpen(g.exceptions, code) <==>
      ER.Cause(Found(i, h), i.thresholds, code) && (code in looked.exceptions ==> ER.IsOpen(met.exceptions, code))
  {
    SessionStages(seen, looked, i, h, met, g);
    OpenAfterFlush(seen.exceptions, looked.exceptions, Found(i, h), i.thresholds, h.exceptions, met.exceptions, g.exceptions, code);
  }

  lemma OutstandingAfterFlush(
    seen: DR.Rows, looked: DR.Rows, scoring: seq<DR.Assessment>, new_: DR.Rows, met: DR.Rows, after: DR.Rows, r: string)
    requires IR.Rescanned(View(seen, looked), scoring, new_, met, after) && CandidatesDecided(looked, met)
    requires DR.Decided(seen, r) && r in looked ==> DR.Decided(looked, r)
    ensures DR.Outstanding(after, r) <==> DR.Names(scoring, r) && (r in looked ==> DR.Outstanding(met, r))
  {
    IR.RescannedRow(View(seen, looked), scoring, new_, r);
  }

  /** And a candidate awaits a decision exactly when this run scored it and nobody had decided it. */
  lemma OutstandingExactlyWhen(
    seen: NP.File, looked: NP.File, i: NP.Inputs, h: NP.File, met: NP.File, g: NP.File, r: string)
    requires Overlaps(seen, looked, i, h, met, g)
    ensures DR.Outstanding(g.duplicates, r) <==>
      DR.Names(Scoring(i, h), r) && (r in looked.duplicates ==> DR.Outstanding(met.duplicates, r))
  {
    SessionStages(seen, looked, i, h, met, g);
    OutstandingAfterFlush(seen.duplicates, looked.duplicates, Scoring(i, h), h.duplicates, met.duplicates, g.duplicates, r);
  }

  /**
   * Of the stored policies it leaves those it ranks, and the one its session takes for the
   * chosen one. The bound policy is whichever stood unless the run binds one that is news
   * to its session, so it need not be among the stored ones.
   */
  lemma StoredExactlyWhen(
    seen: NP.File, looked: NP.File, i: NP.Inputs, h: NP.File, met: NP.File, g: NP.File) returns (chosen: Option<nat>)
    requires Overlaps(seen, looked, i, h, met, g)
    ensures PB.IsPick(View(seen.binding.rows, looked.binding.rows), chosen)
    ensures forall p :: p in g.binding.rows <==> PB.Ranks(NP.RankedFor(h.fields.values, i), p) || chosen == Some(p)
    ensures g.binding.policyId == met.binding.policyId <==>
      Harmless(h.binding.policyId, seen.binding.policyId, met.binding.policyId)
  {
    SessionStages(seen, looked, i, h, met, g);
    var view, ranked := View(seen.binding.rows, looked.binding.rows), NP.RankedFor(h.fields.values, i);
    chosen :| PB.IsPick(view, chosen) && PB.RescoredAround(view, ranked, chosen, h.binding.rows);
    IR.MarksAfterFlush(view, ranked, chosen, h.binding.rows, met.binding.rows, g.binding.rows);
  }

  /**
   * Nor do the values have to be the last run's: what it reads of an uncorrected field is
   * written exactly when its session had loaded another value, or it stands there already.
   */
  lemma ReadingStandsExactlyWhen(
    seen: NP.File, looked: NP.File, i: NP.Inputs, h: NP.File, met: NP.File, g: NP.File, p: FS.Path)
    requires Overlaps(seen, looked, i, h, met, g) && i.reading.Some? && i.reading.value.Of(p).parsed.Some?
    requires !FieldsView(seen.fields, looked.fields).Human(p)
    ensures var read := i.reading.value.Of(p).parsed;
      g.fields.Get(p) == read <==> seen.fields.Get(p) != read || met.fields.Get(p) == read
  {
    SessionStages(seen, looked, i, h, met, g);
    var view := FieldsView(seen.fields, looked.fields);
    IR.ReadThrough(view, i.reading.value, p);
    assert view.Get(p) == seen.fields.Get(p);
  }

  // ---------------------------------------------------------------------------
  // The question about duplicates
  // ---------------------------------------------------------------------------

  lemma QuestionOfSession(view: DR.Rows, scoring: seq<DR.Assessment>, x: ER.Findings, t: ER.Thresholds)
    requires DR.Rescanned(view, scoring, x.duplicates)
    ensures ER.Cause(x, t, DuplicateSuspected) <==> exists r :: DR.Names(scoring, r) && !DR.Decided(view, r)
  {
    forall r ensures DR.Outstanding(x.duplicates, r) <==> DR.Names(scoring, r) && !DR.Decided(view, r) {
      DR.OutstandingAfterRescan(view, scoring, x.duplicates, r);
    }
  }

  /**
   * The duplicate question is asked about candidates the session holds undecided, decided
   * since or not: exactly when one of them scores and the question was not there when the
   * run looked, or is still open.
   */
  lemma QuestionIsAskedExactlyWhen(
    seen: NP.File, looked: NP.File, i: NP.Inputs, h: NP.File, met: NP.File, g: NP.File)
    requires Overlaps(seen, looked, i, h, met, g)
    ensures ER.IsOpen(g.exceptions, DuplicateSuspected) <==>
      && (DuplicateSuspected in looked.exceptions ==> ER.IsOpen(met.exceptions, DuplicateSuspected))
      && exists r :: DR.Names(Scoring(i, h), r) && !DR.Decided(View(seen.duplicates, looked.duplicates), r)
  {
    SessionStages(seen, looked, i, h, met, g);
    QuestionOfSession(View(seen.duplicates, looked.duplicates), Scoring(i, h), Found(i, h), i.thresholds);
    OpenExactlyWhen(seen, looked, i, h, met, g, DuplicateSuspected);
  }

  /** The decision of the last outstanding candidate, which closes the open question. */
  ghost predicate DecidesLast(f: NP.File, r: string, d: DR.Resolution) {
    && f.status != ClaimCreated && d != DR.Unresolved && d != DR.MarkedDuplicate
    && DR.Outstanding(f.duplicates, r) && !NP.OthersOutstanding(f.duplicates, r) && ER.IsOpen(f.exceptions, DuplicateSuspected)
  }

  lemma QuestionCloses(f: NP.File, r: string, d: DR.Resolution, officer: string, note: Option<string>, met: NP.File)
    requires DecidesLast(f, r, d) && met == NP.AfterDuplicate(f, r, d, officer, note)
    ensures NT.Quiet(met) && StillDecided(f, met) && OnlyDecided(met, met)
    ensures DuplicateSuspected !in met.exceptions && View(f.duplicates, met.duplicates) == f.duplicates
    ensures r in met.duplicates && met.duplicates[r].resolution == d != DR.Unresolved
  {
    var decided := DR.AfterDecision(f.duplicates, r, d, officer, note);
    forall q | q in decided ensures DR.Decided(decided, q) {
      if q != r { assert !DR.Outstanding(f.duplicates, q); }
    }
    assert !NP.OthersOutstanding(decided, r);
    assert View(f.duplicates, decided) == f.duplicates;
  }

  lemma DecidedStaysWhileItScores(
    f: NP.File, met: NP.File, r: string, i: NP.Inputs, h: NP.File, g: NP.File)
    requires RanOn(f, met, i, NP.Completes, h, met, g) && DR.Decided(met.duplicates, r)
    requires DR.Names(Scoring(i, h), r)
    ensures r in g.duplicates && g.duplicates[r].resolution == met.duplicates[r].resolution
  {
    SessionStages(f, met, i, h, met, g);
    IR.ResolutionSurvivesExactlyWhen(
      View(f.duplicates, met.duplicates), Scoring(i, h), h.duplicates, met.duplicates, g.duplicates, r);
  }

  lemma Reopens(f: NP.File, met: NP.File, i: NP.Inputs, h: NP.File, g: NP.File)
    requires RanOn(f, met, i, NP.Completes, h, met, g) && StillDecided(f, met) && OnlyDecided(met, met)
    requires DuplicateSuspected !in met.exceptions && View(f.duplicates, met.duplicates) == f.duplicates
    ensures ER.IsOpen(g.exceptions, DuplicateSuspected) <==>
      exists q :: DR.Names(Scoring(i, h), q) && !DR.Decided(f.duplicates, q)
  {
    QuestionIsAskedExactlyWhen(f, met, i, h, met, g);
  }

  lemma ReopensBeside(f: NP.File, met: NP.File, r: string, i: NP.Inputs, h: NP.File, g: NP.File)
    requires RanOn(f, met, i, NP.Completes, h, met, g) && StillDecided(f, met) && OnlyDecided(met, met)
    requires DuplicateSuspected !in met.exceptions && View(f.duplicates, met.duplicates) == f.duplicates
    requires DR.Outstanding(f.duplicates, r) && DR.Decided(met.duplicates, r) && DR.Names(Scoring(i, h), r)
    ensures ER.IsOpen(g.exceptions, DuplicateSuspected)
    ensures r in g.duplicates && g.duplicates[r].resolution == met.duplicates[r].resolution
  {
    Reopens(f, met, i, h, g);
    DecidedStaysWhileItScores(f, met, r, i, h, g);
  }

  /**
   * Closing the question does not close it for a run that had loaded the notice before.
   * Every candidate is decided and stays so as long as it scores, but the question is open
   * again exactly when the run scores a record its session does not hold as decided, such
   * as the very one the officer had just dealt with.
   */
  lemma ClosedQuestionReopensExactlyWhen(
    f: NP.File, r: string, d: DR.Resolution, officer: string, note: Option<string>, met: NP.File, i: NP.Inputs, h: NP.File, g: NP.File)
    requires DecidesLast(f, r, d) && met == NP.AfterDuplicate(f, r, d, officer, note)
    requires RanOn(f, met, i, NP.Completes, h, met, g)
    ensures NT.Quiet(met)
    ensures ER.IsOpen(g.exceptions, DuplicateSuspected) <==>
      exists q :: DR.Names(Scoring(i, h), q) && !DR.Decided(f.duplicates, q)
    ensures DR.Names(Scoring(i, h), r) ==>
      ER.IsOpen(g.exceptions, DuplicateSuspected) && r in g.duplicates && g.duplicates[r].resolution == d
  {
    QuestionCloses(f, r, d, officer, note, met);
    Reopens(f, met, i, h, g);
    if DR.Names(Scoring(i, h), r) { ReopensBeside(f, met, r, i, h, g); }
  }

  // ---------------------------------------------------------------------------
  // The status
  // ---------------------------------------------------------------------------

  /** A status that the open exceptions bear out. */
  predicate Fits(status: Status, open: set<ExceptionCode>) { status == ReadyForClaim <==> BlockingCodes(open) == [] }

  lemma FitsExactlyWhen(seen: Status, open: set<ExceptionCode>, met: Status)
    requires NT.Working(seen)
    ensures var found := DeriveStatus(NP.Started(seen), open, false);
      Fits(StatusWritten(seen, found, met), open) <==>
        seen == Received || found != seen || (met == ReadyForClaim <==> seen == ReadyForClaim)
  {
    ReadyExactlyWhenUnblocked(NP.Started(seen), open);
    ProcessingNeverDerived(STATUS_FOR_EXCEPTION, open);
  }

  /**
   * The status is one column among others: written only if what the run found differs from
   * what it had loaded. So a working notice ends ready exactly when nothing blocks a claim,
   * unless the run found the status it had loaded while others moved the notice to ready or
   * away from it; and then never.
   */
  lemma ReadyExactlyWhenNothingBlocks(
    seen: NP.File, looked: NP.File, i: NP.Inputs, h: NP.File, met: NP.File, g: NP.File)
    requires RanOn(seen, looked, i, NP.Completes, h, met, g) && NT.Working(seen.status) && !i.facts.extractionFailed
    ensures Fits(g.status, ER.OpenCodes(g.exceptions)) <==>
      || seen.status == Received || StatusFound(seen.status, i, NP.Completes, g.exceptions) != seen.status
      || (met.status == ReadyForClaim <==> seen.status == ReadyForClaim)
  {
    IR.StatusOf(seen, looked, i, NP.Completes, h, met, g);
    FitsExactlyWhen(seen.status, ER.OpenCodes(g.exceptions), met.status);
  }

  // ---------------------------------------------------------------------------
  // Two runs on the same inputs
  // ---------------------------------------------------------------------------

  lemma TwinRow(f: FS.Fields, x: FS.Extraction, m: FS.Fields, p: FS.Path)
    requires m == FS.AfterReading(f, x)
    ensures FS.RowAfterReading(FieldsView(f, m), x, p) == m.rows[p]
    ensures FS.ValueAfterReading(FieldsView(f, m), x, p) == m.Get(p)
  {
    assert m.rows[p] == FS.RowAfterReading(f, x, p);
    assert m.Get(p) == FS.ValueAfterReading(f, x, p);
    assert FieldsView(f, m).Get(p) == f.Get(p);
  }

  lemma TwinFields(f: FS.Fields, reading: Option<FS.Extraction>, m: FS.Fields)
    requires m == NP.FieldsRead(f, reading)
    ensures NP.FieldsRead(FieldsView(f, m), reading) == m
  {
    if reading.Some? {
      var n := FS.AfterReading(FieldsView(f, m), reading.value);
      forall p: FS.Path ensures n.rows[p] == m.rows[p] && n.Get(p) == m.Get(p) {
        TwinRow(f, reading.value, m, p);
        assert n.Get(p) == FS.ValueAfterReading(FieldsView(f, m), reading.value, p);
      }
      TwinRow(f, reading.value, m, FS.EstimatedLoss);
      assert n.rows == m.rows;
      SameFields(n, m);
    } else {
      assert FieldsView(f, m) == f;
    }
  }

  lemma SameRescoring(rows: map<nat, PB.Row>, ranked: seq<PM.Candidate>, m: map<nat, PB.Row>, n: map<nat, PB.Row>)
    requires PB.OneChosen(rows) && PB.Rescored(rows, ranked, m) && PB.Rescored(rows, ranked, n)
    ensures n == m
  {
    var chosen :| PB.IsPick(rows, chosen) && PB.RescoredAround(rows, ranked, chosen, m);
    var again :| PB.IsPick(rows, again) && PB.RescoredAround(rows, ranked, again, n);
    assert again == chosen;
    forall p: nat ensures p in n <==> p in m ensures p in m ==> n[p] == m[p] {
      if PB.Ranks(ranked, p) {
        var k :| 0 <= k < |ranked| && ranked[k].policyId == p;
      }
    }
  }

  lemma TwinMatches(rows: map<nat, PB.Row>, ranked: seq<PM.Candidate>, m: map<nat, PB.Row>, n: map<nat, PB.Row>)
    requires PB.OneChosen(rows) && PB.Rescored(rows, ranked, m)
    ensures PB.Rescored(View(rows, m), ranked, n) <==> n == m
  {
    var view := View(rows, m);
    var chosen :| PB.IsPick(rows, chosen) && PB.RescoredAround(rows, ranked, chosen, m);
    PB.MarksStay(rows, ranked, chosen, m);
    assert PB.IsPick(view, chosen) && PB.OneChosen(view);
    assert PB.RescoredAround(view, ranked, chosen, m);
    if PB.Rescored(view, ranked, n) { SameRescoring(view, ranked, m, n); }
  }

  lemma TwinCandidates(rows: DR.Rows, scoring: seq<DR.Assessment>, m: DR.Rows, n: DR.Rows)
    requires DR.Rescanned(rows, scoring, m)
    ensures DR.Rescanned(View(rows, m), scoring, n) <==> n == m
  {
    forall r ensures DR.Decided(View(rows, m), r) <==> DR.Decided(rows, r) {
      DR.OutstandingAfterRescan(rows, scoring, m, r);
      IR.RescannedRow(rows, scoring, m, r);
    }
    forall k | 0 <= k < |scoring| ensures DR.Upserted(View(rows, m), scoring[k]) == m[scoring[k].reference] {
      assert m[scoring[k].reference] == DR.Upserted(rows, scoring[k]);
    }
    assert DR.Rescanned(View(rows, m), scoring, m);
    if DR.Rescanned(View(rows, m), scoring, n) {
      forall r ensures r in n <==> r in m ensures r in m ==> n[r] == m[r] {
        if DR.Names(scoring, r) {
          var k :| 0 <= k < |scoring| && scoring[k].reference == r;
        }
      }
    }
  }

  lemma TwinDecisions(rows: ER.Rows, x: ER.Findings, t: ER.Thresholds, m: ER.Rows, code: ExceptionCode)
    requires ER.Moves(rows, ER.Evaluation(x, t), m)
    ensures ER.Decided(View(rows, m), code) <==> ER.Decided(rows, code)
  {
    ER.EvaluatedRow(rows, x, t, m, code);
  }

  lemma TwinEvaluates(rows: ER.Rows, x: ER.Findings, t: ER.Thresholds, m: ER.Rows)
    requires ER.Moves(rows, ER.Evaluation(x, t), m)
    ensures ER.Moves(View(rows, m), ER.Evaluation(x, t), m)
  {
    var raised: seq<ER.Raised> :| ER.Reports(x, t, raised) && ER.Evaluated(rows, raised, m);
    forall code ensures ER.Decided(View(rows, m), code) <==> ER.Decided(rows, code) { TwinDecisions(rows, x, t, m, code); }
    assert ER.Evaluated(View(rows, m), raised, m);
  }

  lemma TwinExceptions(rows: ER.Rows, x: ER.Findings, t: ER.Thresholds, m: ER.Rows, n: ER.Rows)
    requires ER.Moves(rows, ER.Evaluation(x, t), m)
    ensures ER.Moves(View(rows, m), ER.Evaluation(x, t), n) <==> n == m
  {
    TwinEvaluates(rows, x, t, m);
    if ER.Moves(View(rows, m), ER.Evaluation(x, t), n) { SameEvaluation(View(rows, m), x, t, m, n); }
  }

  lemma SameEvaluation(rows: ER.Rows, x: ER.Findings, t: ER.Thresholds, m: ER.Rows, n: ER.Rows)
    requires ER.Moves(rows, ER.Evaluation(x, t), m) && ER.Moves(rows, ER.Evaluation(x, t), n)
    ensures n == m
  {
    forall code: ExceptionCode ensures code in n <==> code in m ensures code in m ==> n[code] == m[code] {
      ER.EvaluatedRow(rows, x, t, m, code);
      ER.EvaluatedRow(rows, x, t, n, code);
    }
  }

  lemma FieldsStand(view: FS.Fields, m: FS.Fields, g: FS.Fields)
    requires view.rows.Keys == m.rows.Keys
    ensures FieldsFlushed(view, m, m, g) <==> g == m
  {
    FlushingWhatStands(view.rows, m.rows, FieldColumns, g.rows);
    if FieldsFlushed(view, m, m, g) { SameFields(g, m); }
  }

  lemma TwinBinding(f: PB.Binding, a: PB.Action, m: PB.Binding, h: PB.Binding)
    requires PB.OneChosen(f.rows) && a.Rescore? && PB.Moves(f, a, m)
    ensures PB.Moves(BindingView(f, m), a, h) <==> h == m
  {
    TwinMatches(f.rows, IR.RankedBy(a), m.rows, h.rows);
  }

  /** Every table has the rows it had when the session looked. */
  predicate SameKeys(f: NP.File, m: NP.File) {
    && f.fields.rows.Keys == m.fields.rows.Keys && f.binding.rows.Keys == m.binding.rows.Keys
    && f.duplicates.Keys == m.duplicates.Keys && f.exceptions.Keys == m.exceptions.Keys
  }

  lemma TablesStand(f: NP.File, m: NP.File, g: NP.File)
    requires SameKeys(f, m)
    ensures TablesFlushed(f, m, m, g) <==>
      g.fields == m.fields && g.binding == m.binding && g.duplicates == m.duplicates && g.exceptions == m.exceptions
  {
    FieldsStand(f.fields, m.fields, g.fields);
    FlushingWhatStands(f.binding.rows, m.binding.rows, MatchColumns, g.binding.rows);
    FlushingWhatStands(f.duplicates, m.duplicates, CandidateColumns, g.duplicates);
    FlushingWhatStands(f.exceptions, m.exceptions, ExceptionColumns, g.exceptions);
  }

  lemma TwinStages(f: NP.File, i: NP.Inputs, m: NP.File, h: NP.File)
    requires PB.OneChosen(f.binding.rows) && Stages(f, i, m)
    ensures Stages(Loaded(f, m), i, h) <==> h == m
  {
    TwinFields(f.fields, i.reading, m.fields);
    TwinBinding(f.binding, NP.Rescoring(m.fields.values, i), m.binding, h.binding);
    TwinCandidates(f.duplicates, Scoring(i, m), m.duplicates, h.duplicates);
    TwinExceptions(f.exceptions, Found(i, m), i.thresholds, m.exceptions, h.exceptions);
  }

  lemma FlushStands(seen: Status, f: NP.File, i: NP.Inputs, m: NP.File, g: NP.File)
    requires SameKeys(f, m) && m.status == StatusFound(seen, i, NP.Completes, m.exceptions)
    ensures && TablesFlushed(f, m, m, g)
            && g.status == StatusWritten(seen, StatusFound(seen, i, NP.Completes, g.exceptions), m.status)
            && g.converted == m.converted
        <==> g == m
  {
    TablesStand(f, m, g);
  }

  lemma TwinsStand(f: NP.File, i: NP.Inputs, m: NP.File, h: NP.File, g: NP.File)
    requires PB.OneChosen(f.binding.rows) && Stages(f, i, m)
    ensures SessionRan(f, m, i, h, m, g) <==> h == m && g == m
  {
    TwinStages(f, i, m, h);
    assert SameKeys(Loaded(f, m), m);
    FlushStands(f.status, Loaded(f, m), i, m, g);
  }

  /**
   * Two runs on the same inputs that overlap, the second having loaded the notice before
   * the first wrote it: the second goes through and changes nothing the first one left.
   */
  lemma TwinsAreOneRun(f: NP.File, i: NP.Inputs, m: NP.File, h: NP.File, g: NP.File)
    requires PB.OneChosen(f.binding.rows) && NP.Processed(f, i, NP.Completes, m)
    ensures RanOn(f, m, i, NP.Completes, h, m, g) <==> h == m && g == m
  {
    StagesOf(f, i, m);
    SessionRuns(f, m, i, h, m, g);
    TwinsStand(f, i, m, h, g);
  }

  // ---------------------------------------------------------------------------
  // A second run that reuses the first one's reading
  // ---------------------------------------------------------------------------

  /** Nothing in the notice names a policy or an insured. */
  predicate NamesNothing(n: PM.Notice) {
    && n.policyNumber == "" && n.insuredName == "" && n.insuredOrganisation == "" && n.reporterOrganisation == ""
    && n.reporterEmail == ""
  }

  lemma NothingIsIdentified(n: PM.Notice, p: PM.Policy, c: PM.Config)
    requires NamesNothing(n)
    ensures !PM.Identified(PM.ScorePolicy(n, p, c))
  {
    assert Matching.Lower("") == "";
  }

  lemma {:induction false} NothingIsViable(n: PM.Notice, pool: seq<PM.Policy>, c: PM.Config, k: PM.Candidate)
    requires NamesNothing(n)
    ensures k !in PR.Viable(PR.Scores(n, pool, c), c)
  {
    PR.ViableMembers(PR.Scores(n, pool, c), c, k);
    if k in PR.Scores(n, pool, c) {
      var j :| 0 <= j < |pool| && PR.Scores(n, pool, c)[j] == k;
      NothingIsIdentified(n, pool[j], c);
    }
  }

  /** A notice that names nothing has no candidate policy, whatever the pool. */
  lemma NothingIsRanked(n: PM.Notice, pool: seq<PM.Policy>, c: PM.Config)
    requires NamesNothing(n)
    ensures PR.Ranked(PR.Scores(n, pool, c), c, PB.SHOWN) == []
  {
    var viable := PR.Viable(PR.Scores(n, pool, c), c);
    forall k ensures k !in viable { NothingIsViable(n, pool, c, k); }
    HasFirst(viable);
  }

  lemma HasFirst(ks: seq<PM.Candidate>)
    ensures ks != [] ==> exists k :: k in ks
  {
    if ks != [] { assert ks[0] in ks; }
  }

  lemma UnmarkedStaysUnmarked(rows: map<nat, PB.Row>, ranked: seq<PM.Candidate>, m: map<nat, PB.Row>)
    requires PB.IsPick(rows, None) && PB.Rescored(rows, ranked, m)
    ensures PB.IsPick(View(rows, m), None)
  {
    PB.ChosenStaysUnique(rows, ranked, m);
  }

  lemma ForgottenMatches(f: PB.Binding, ranked: seq<PM.Candidate>, m: PB.Binding, a: PB.Action, h: PB.Binding, g: PB.Binding)
    requires PB.IsPick(f.rows, None) && PB.Rescored(f.rows, ranked, m.rows)
    requires a.Rescore? && IR.RankedBy(a) == []
    requires PB.Moves(BindingView(f, m), a, h) && BindingFlushed(BindingView(f, m), h, m, g)
    ensures g.rows == map[] && g.policyId == m.policyId && h.confirmed == f.confirmed
  {
    UnmarkedStaysUnmarked(f.rows, ranked, m.rows);
    assert h.rows == map[];
  }

  lemma RunKeepsDecisions(f: NP.File, i: NP.Inputs, m: NP.File)
    requires NP.Processed(f, i, NP.Completes, m)
    ensures StillDecided(f, m) && OnlyDecided(m, m)
  {
    forall code | ER.Decided(f.exceptions, code) ensures ER.Decided(m.exceptions, code) {
      NT.ProcessedKeepsException(f, i, NP.Completes, m, code);
    }
    forall r | DR.Decided(f.duplicates, r) ensures DR.Decided(m.duplicates, r) {
      NT.ProcessedKeepsDuplicate(f, i, NP.Completes, m, r);
    }
  }

  /**
   * The twin of a first run need not be a twin: it finds the reading the first one stored
   * and, unless told to read again, reuses it, but works on the values it had loaded. Of a
   * notice that named no policy when both were started, it keeps what was read, deletes
   * every candidate policy the first run stored and reports that no policy matches.
   */
  lemma ReusedReadingForgets(f: NP.File, i: NP.Inputs, m: NP.File, h: NP.File, g: NP.File)
    requires NP.Processed(f, i, NP.Completes, m) && RanOn(f, m, i.(reading := None), NP.Completes, h, m, g)
    requires NamesNothing(NP.NoticeOf(f.fields.values, i.lineOfBusiness))
    requires PB.IsPick(f.binding.rows, None) && !f.binding.confirmed
    ensures g.fields == m.fields
    ensures g.binding.rows == map[] && g.binding.policyId == m.binding.policyId
    ensures ER.IsOpen(g.exceptions, NoPolicyMatch) <==> !ER.Decided(m.exceptions, NoPolicyMatch)
  {
    var again := i.(reading := None);
    StagesOf(f, i, m);
    RunKeepsDecisions(f, i, m);
    SessionStages(f, m, again, h, m, g);
    SessionRuns(f, m, again, h, m, g);
    NothingIsRanked(NP.NoticeOf(f.fields.values, i.lineOfBusiness), i.pool, i.config);
    ForgottenMatches(f.binding, NP.RankedFor(m.fields.values, i), m.binding, NP.Rescoring(h.fields.values, again), h.binding, g.binding);
    KeptFields(f.fields, m.fields, g.fields);
    OpenExactlyWhen(f, m, again, h, m, g, NoPolicyMatch);
  }

  lemma KeptFields(f: FS.Fields, m: FS.Fields, g: FS.Fields)
    requires FieldsFlushed(FieldsView(f, m), FieldsView(f, m), m, g)
    ensures g == m
  {
    SameFields(g, m);
  }

  /** So a new notice sent for processing twice at once does not end ready, whatever the first run made of it. */
  lemma SecondRunIsNotReady(f: NP.File, i: NP.Inputs, m: NP.File, h: NP.File, g: NP.File)
    requires NP.Processed(f, i, NP.Completes, m) && RanOn(f, m, i.(reading := None), NP.Completes, h, m, g)
    requires NamesNothing(NP.NoticeOf(f.fields.values, i.lineOfBusiness))
    requires PB.IsPick(f.binding.rows, None) && !f.binding.confirmed
    requires f.status == Received && !ER.Decided(m.exceptions, NoPolicyMatch) && !i.facts.extractionFailed
    ensures g.status != ReadyForClaim && NoPolicyMatch in BlockingCodes(ER.OpenCodes(g.exceptions))
  {
    ReusedReadingForgets(f, i, m, h, g);
    IR.StatusOf(f, m, i.(reading := None), NP.Completes, h, m, g);
    NewAndBlocked(ER.OpenCodes(g.exceptions), m.status);
  }

  lemma NewAndBlocked(open: set<ExceptionCode>, met: Status)
    requires NoPolicyMatch in open
    ensures StatusWritten(Received, DeriveStatus(Processing, open, false), met) != ReadyForClaim
    ensures NoPolicyMatch in BlockingCodes(open)
  {
    assert NoPolicyMatch in BLOCKING_EXCEPTIONS;
    assert NoPolicyMatch in BlockingCodes(open);
    FitsExactlyWhen(Received, open, met);
  }

  // ---------------------------------------------------------------------------
  // Columns of two runs side by side
  // ---------------------------------------------------------------------------

  /**
   * A ranked policy's place is stored exactly when it is news to the session: it had loaded
   * another place for it, or none, or nobody changed it.
   */
  lemma RankIsItsPlaceExactlyWhen(
    view: map<nat, PB.Row>, ranked: seq<PM.Candidate>, new_: map<nat, PB.Row>, met: map<nat, PB.Row>, g: map<nat, PB.Row>, k: nat)
    requires PB.Rescored(view, ranked, new_) && view.Keys == met.Keys && Flushed(view, new_, met, MatchColumns, g)
    requires k < |ranked|
    ensures var p := ranked[k].policyId;
      p in g && (g[p].rank == k <==> p !in view || view[p].rank != k || met[p].rank == k)
  {
    var chosen :| PB.IsPick(view, chosen) && PB.RescoredAround(view, ranked, chosen, new_);
  }

  function Contender(id: nat): PM.Candidate {
    PM.Candidate(id, "", 0.5, PM.Possible, PM.Signals(0.8, -1.0, -1.0, -1.0, -1.0, -1.0, -1.0, -1.0))
  }

  function Place(rank: nat): PB.Row { PB.Row(PM.Possible, 0.5, rank, false, None) }

  /** Two runs that each rank their candidates in order can leave two of them in one place. */
  lemma RanksCollide() returns (seen: map<nat, PB.Row>, m: map<nat, PB.Row>, new_: map<nat, PB.Row>, g: map<nat, PB.Row>)
    ensures PB.Rescored(map[], [Contender(1), Contender(2)], seen)
    ensures PB.Rescored(seen, [Contender(2), Contender(1)], m)
    ensures PB.Rescored(View(seen, m), [Contender(1), Contender(3)], new_) && Flushed(View(seen, m), new_, m, MatchColumns, g)
    ensures g.Keys == {1, 3} && g[1].rank == g[3].rank == 1
  {
    seen, m := map[1 := Place(0), 2 := Place(1)], map[2 := Place(0), 1 := Place(1)];
    new_, g := map[1 := Place(0), 3 := Place(1)], map[1 := Place(1), 3 := Place(1)];
    assert View(seen, m) == seen;
    assert Flushed(seen, new_, m, MatchColumns, g);
    Reranked(map[], 1, 2, seen);
    Reranked(seen, 2, 1, m);
    Reranked(seen, 1, 3, new_);
  }

  lemma Reranked(rows: map<nat, PB.Row>, first: nat, second: nat, new_: map<nat, PB.Row>)
    requires PB.IsPick(rows, None) && first != second && new_ == map[first := Place(0), second := Place(1)]
    ensures PB.Rescored(rows, [Contender(first), Contender(second)], new_)
  {
    var ranked := [Contender(first), Contender(second)];
    assert ranked[0].policyId == first && ranked[1].policyId == second;
    assert PB.RescoredAround(rows, ranked, None, new_);
  }
}
