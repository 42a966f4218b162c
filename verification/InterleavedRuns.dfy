/** Which of the officers' actions survive a run that had loaded the notice before them. */
module InterleavedRuns {
  import opened Wrappers
  import opened Lifecycle
  import opened Sessions
  import FS = FieldStore
  import FT = FieldTheorems
  import PB = PolicyBinding
  import PM = PolicyMatch
  import PR = PolicyRanking
  import DR = DuplicateReview
  import ER = ExceptionReview
  import NP = NoticePipeline
  import NT = NoticeTheorems

  // ---------------------------------------------------------------------------
  // Fields
  // ---------------------------------------------------------------------------

  /** The session holds the row as one nobody had corrected. A row entered since is read as it is. */
  predicate HeldUncorrected(seen: FS.Fields, p: FS.Path) { p in seen.rows && !seen.Human(p) }

  lemma ReadThrough(f: FS.Fields, x: FS.Extraction, p: FS.Path)
    ensures FS.AfterReading(f, x).Get(p) == FS.ValueAfterReading(f, x, p)
    ensures FS.AfterReading(f, x).rows[p] == FS.RowAfterReading(f, x, p)
  {
  }

  lemma CorrectedRow(f: FS.Fields, x: FS.Extraction, met: FS.Fields, g: FS.Fields, p: FS.Path)
    requires Flushed(f.rows, FS.AfterReading(f, x).rows, met.rows, FieldColumns, g.rows) && p in f.rows && met.Human(p)
    ensures g.Human(p)
    ensures FT.SameCorrection(g.rows[p], met.rows[p]) <==>
      || f.Human(p)
      || (&& Harmless(x.Of(p).value, f.rows[p].valueText, met.rows[p].valueText)
          && Harmless(x.Of(p).confidence, f.rows[p].confidence, met.rows[p].confidence)
          && Harmless(FS.FromAi, f.rows[p].source, met.rows[p].source))
  {
    ReadThrough(f, x, p);
  }

  /**
   * A correction survives a reading exactly when the session knew of it, or the reading
   * repeats what was loaded or says what the officer wrote. The value and the row are
   * separate columns and can part; the row stays marked as corrected in any case.
   */
  lemma CorrectionSurvivesReading(seen: FS.Fields, x: FS.Extraction, met: FS.Fields, g: FS.Fields, p: FS.Path)
    requires FieldsFlushed(FieldsView(seen, met), FS.AfterReading(FieldsView(seen, met), x), met, g) && met.Human(p)
    ensures g.Human(p)
    ensures g.Get(p) == met.Get(p) <==>
      !HeldUncorrected(seen, p) || x.Of(p).parsed.None? || Harmless(x.Of(p).parsed, seen.Get(p), met.Get(p))
    ensures FT.SameCorrection(g.rows[p], met.rows[p]) <==>
      || !HeldUncorrected(seen, p)
      || (&& Harmless(x.Of(p).value, seen.rows[p].valueText, met.rows[p].valueText)
          && Harmless(x.Of(p).confidence, seen.rows[p].confidence, met.rows[p].confidence)
          && Harmless(FS.FromAi, seen.rows[p].source, met.rows[p].source))
  {
    var view := FieldsView(seen, met);
    ReadThrough(view, x, p);
    CorrectedRow(view, x, met, g, p);
    assert view.Get(p) == seen.Get(p);
  }

  /** The run reads the notification, and its parser vouches for this field. */
  predicate ReadsField(i: NP.Inputs, outcome: NP.Outcome, p: FS.Path) {
    outcome != NP.FailsReading && i.reading.Some? && i.reading.value.Of(p).parsed.Some?
  }

  /**
   * So an officer's value survives a run exactly when the run reads none, or had loaded the
   * correction, or reads what it had loaded or what the officer wrote.
   */
  lemma CorrectionSurvivesExactlyWhen(
    seen: NP.File, looked: NP.File, i: NP.Inputs, outcome: NP.Outcome, h: NP.File, met: NP.File, g: NP.File, p: FS.Path)
    requires RanOn(seen, looked, i, outcome, h, met, g) && OnlyDecided(looked, met) && met.fields.Human(p)
    ensures g.fields.Human(p)
    ensures g.fields.Get(p) == met.fields.Get(p) <==>
      || !ReadsField(i, outcome, p) || !HeldUncorrected(seen.fields, p)
      || Harmless(i.reading.value.Of(p).parsed, seen.fields.Get(p), met.fields.Get(p))
  {
    if outcome != NP.FailsReading && i.reading.Some? {
      CorrectionSurvivesReading(seen.fields, i.reading.value, met.fields, g.fields, p);
    } else {
      assert h.fields == Loaded(seen, looked).fields;
    }
  }

  /**
   * What is lost then is lost for good: the machine's value stands in a row marked as the
   * officer's, and so is protected from every later reading.
   */
  lemma LostCorrectionIsProtected(
    seen: FS.Fields, x: FS.Extraction, met: FS.Fields, g: FS.Fields, p: FS.Path, y: FS.Extraction)
    requires FieldsFlushed(FieldsView(seen, met), FS.AfterReading(FieldsView(seen, met), x), met, g) && met.Human(p)
    requires g.Get(p) != met.Get(p)
    ensures FS.AfterReading(g, y).Get(p) == x.Of(p).parsed != met.Get(p)
  {
    CorrectionSurvivesReading(seen, x, met, g, p);
    var view := FieldsView(seen, met);
    assert FS.AfterReading(view, x).Get(p) == FS.ValueAfterReading(view, x, p);
    assert view.Get(p) == seen.Get(p);
    FT.StepKeepsCorrection(g, FT.Read(y), p);
  }

  /** A field read as "a", corrected to "c" before the lock of a run that had loaded it and reads "b". */
  lemma OverwrittenExample(p: FS.Path, officer: string)
    returns (seen: FS.Fields, x: FS.Extraction, met: FS.Fields, g: FS.Fields)
    ensures met == FS.AfterEdit(seen, p, Some(FS.Text("c")), Some("c"), officer, None) && met.Human(p)
    ensures FieldsFlushed(FieldsView(seen, met), FS.AfterReading(FieldsView(seen, met), x), met, g)
    ensures met.Get(p) == Some(FS.Text("c")) && g.Get(p) == Some(FS.Text("b")) && g.rows[p].valueText == Some("b")
  {
    seen := FS.Fields(map[p := FS.Row(Some("a"), None, FS.FromAi, None, false, None, None, None)], map[p := FS.Text("a")], map[], "GBP");
    x := FS.Extraction(map[p := FS.Reading(Some("b"), None, None, Some(FS.Text("b")))], map[], None);
    met := FS.AfterEdit(seen, p, Some(FS.Text("c")), Some("c"), officer, None);
    assert FieldsView(seen, met) == seen;
    var new_ := FS.AfterReading(seen, x);
    g := new_.(rows := new_.rows[p := FieldColumns(seen.rows[p], new_.rows[p], met.rows[p])]);
    forall q: FS.Path ensures new_.Get(q) == if q == p then Some(FS.Text("b")) else None {
      assert new_.Get(q) == FS.ValueAfterReading(seen, x, q);
    }
  }

  // ---------------------------------------------------------------------------
  // The bound policy
  // ---------------------------------------------------------------------------

  function RankedBy(a: PB.Action): seq<PM.Candidate>
    requires a.Rescore?
  {
    PR.Ranked(PR.Scores(a.notice, a.pool, a.config), a.config, PB.SHOWN)
  }

  /** After the flush a row is marked if it was, unless the session held it marked and took another for the chosen one. */
  lemma MarksAfterFlush(
    view: map<nat, PB.Row>, ranked: seq<PM.Candidate>, chosen: Option<nat>, new_: map<nat, PB.Row>, met: map<nat, PB.Row>,
    g: map<nat, PB.Row>)
    requires PB.IsPick(view, chosen) && PB.RescoredAround(view, ranked, chosen, new_) && view.Keys == met.Keys
    requires Flushed(view, new_, met, MatchColumns, g)
    ensures forall q :: q in g <==> PB.Ranks(ranked, q) || chosen == Some(q)
    ensures forall q <- g :: g[q].selected <==> q in met && met[q].selected && !(view[q].selected && chosen != Some(q))
  {
    PB.MarksStay(view, ranked, chosen, new_);
  }

  /**
   * A confirmation is left whole exactly when the session keeps the row it is on and binds
   * no other policy by itself. It keeps a row it holds as chosen if that is the one it
   * takes, and any other row if it ranks the policy. Otherwise the notice is confirmed, but
   * its chosen row is gone, or its bound policy is another than the chosen one.
   */
  lemma ConfirmationSurvivesExactlyWhen(
    seen: PB.Binding, a: PB.Action, new_: PB.Binding, met: PB.Binding, g: PB.Binding, p: nat) returns (chosen: Option<nat>)
    requires PB.Coherent(met) && met.confirmed && met.policyId == Some(p)
    requires a.Rescore? && PB.Moves(BindingView(seen, met), a, new_) && BindingFlushed(BindingView(seen, met), new_, met, g)
    ensures PB.IsPick(View(seen.rows, met.rows), chosen) && g.confirmed
    ensures PB.Coherent(g) <==>
      && (if View(seen.rows, met.rows)[p].selected then chosen == Some(p) else PB.Ranks(RankedBy(a), p))
      && Harmless(new_.policyId, seen.policyId, Some(p))
  {
    var view := View(seen.rows, met.rows);
    chosen :| PB.IsPick(view, chosen) && PB.RescoredAround(view, RankedBy(a), chosen, new_.rows);
    MarksAfterFlush(view, RankedBy(a), chosen, new_.rows, met.rows, g.rows);
    assert forall q <- met.rows :: met.rows[q].selected <==> q == p;
  }

  /** The policy is among the candidates, and the notice may still be changed. */
  predicate Selects(f: NP.File, a: NP.Action) { a.SelectPolicy? && NP.RunBy(f, a).Some? }

  lemma SelectionConfirms(f: NP.File, a: NP.Action, met: NP.File)
    requires NT.Settled(f) && Selects(f, a) && NP.Moves(f, a, met)
    ensures PB.Coherent(met.binding) && met.binding.confirmed && met.binding.policyId == Some(a.policy)
    ensures forall q <- met.binding.rows :: q !in f.binding.rows ==> !met.binding.rows[q].selected
  {
    NT.StepKeepsSettled(f, a, met);
  }

  /** A run that got as far as matching, its binding only. */
  lemma SessionRanks(
    seen: NP.File, looked: NP.File, i: NP.Inputs, outcome: NP.Outcome, h: NP.File, met: NP.File, g: NP.File)
    requires RanOn(seen, looked, i, outcome, h, met, g) && NP.Ranks(outcome)
    ensures PB.Moves(BindingView(seen.binding, looked.binding), NP.Rescoring(h.fields.values, i), h.binding)
    ensures BindingFlushed(BindingView(seen.binding, looked.binding), h.binding, met.binding, g.binding)
  {
  }

  lemma SelectionSurvivesRescoring(
    f: PB.Binding, a: PB.Action, new_: PB.Binding, met: PB.Binding, g: PB.Binding, p: nat)
    requires PB.Coherent(f) && p in f.rows && PB.Coherent(met) && met.confirmed && met.policyId == Some(p)
    requires forall q <- met.rows :: q !in f.rows ==> !met.rows[q].selected
    requires a.Rescore? && PB.Moves(BindingView(f, met), a, new_) && BindingFlushed(BindingView(f, met), new_, met, g)
    ensures g.confirmed
    ensures PB.Coherent(g) <==>
      (f.rows[p].selected || PB.Ranks(RankedBy(a), p)) && Harmless(new_.policyId, f.policyId, Some(p))
  {
    var view := View(f.rows, met.rows);
    var chosen := ConfirmationSurvivesExactlyWhen(f, a, new_, met, g, p);
    assert PB.OneChosen(view);
  }

  /**
   * An officer's selection, with the run that goes with it, survives a run that had loaded
   * the notice before exactly when that run still ranks the policy, or had loaded it as the
   * chosen one already, and binds none by itself, or that very one.
   */
  lemma SelectionSurvivesExactlyWhen(
    f: NP.File, a: NP.Action, looked: NP.File, i: NP.Inputs, outcome: NP.Outcome, h: NP.File, met: NP.File, g: NP.File)
    requires NT.Settled(f) && Selects(f, a) && NP.Moves(f, a, looked) && OnlyDecided(looked, met)
    requires RanOn(f, looked, i, outcome, h, met, g) && NP.Ranks(outcome)
    ensures g.binding.confirmed
    ensures PB.Coherent(g.binding) <==>
      && (f.binding.rows[a.policy].selected || PB.Ranks(NP.RankedFor(h.fields.values, i), a.policy))
      && Harmless(h.binding.policyId, f.binding.policyId, Some(a.policy))
  {
    SelectionConfirms(f, a, looked);
    SessionRanks(f, looked, i, outcome, h, met, g);
    SelectionSurvivesRescoring(f.binding, NP.Rescoring(h.fields.values, i), h.binding, met.binding, g.binding, a.policy);
  }

  /** Selected while a run was under way that no longer finds any policy: bound and confirmed, to a row that is gone. */
  lemma LostSelectionExample(n: PM.Notice, c: PM.Config, officer: string)
    returns (seen: PB.Binding, new_: PB.Binding, met: PB.Binding, g: PB.Binding)
    ensures var a := PB.Rescore(n, [], c);
      && PB.Coherent(seen) && 5 in seen.rows && met == PB.AfterSelect(seen, 5, officer) && PB.Moves(met, a, met)
      && PB.Moves(BindingView(seen, met), a, new_) && BindingFlushed(BindingView(seen, met), new_, met, g)
    ensures g == PB.Binding(map[], Some(5), true) && !PB.Coherent(g)
  {
    seen := PB.Binding(map[5 := PB.Row(PM.Possible, 0.5, 0, false, None)], None, false);
    met := PB.AfterSelect(seen, 5, officer);
    new_, g := PB.Binding(map[], None, false), PB.Binding(map[], Some(5), true);
    assert BindingView(seen, met) == seen;
    assert PB.IsPick(seen.rows, None) && PB.RescoredAround(seen.rows, [], None, new_.rows);
    assert met.rows[5].selected;
    assert PB.IsPick(met.rows, Some(5)) && PB.RescoredAround(met.rows, [], Some(5), met.rows);
  }

  /** The marks after the second of two selections. */
  lemma MarksAfterSelections(
    seen: map<nat, PB.Row>, p: nat, officer: string, ranked: seq<PM.Candidate>, marked: map<nat, PB.Row>, new_: map<nat, PB.Row>,
    met: map<nat, PB.Row>, g: map<nat, PB.Row>, first: nat)
    requires PB.IsPick(seen, None) && p in View(seen, met)
    requires marked == map q <- View(seen, met) :: PB.Marked(View(seen, met)[q], q == p, officer)
    requires PB.IsPick(marked, Some(p)) && PB.RescoredAround(marked, ranked, Some(p), new_)
    requires forall q <- met :: met[q].selected <==> q == first
    requires Flushed(View(seen, met), new_, met, MatchColumns, g)
    ensures forall q :: q in g <==> PB.Ranks(ranked, q) || q == p
    ensures forall q <- g :: g[q].selected <==> q == p || (q == first && q in met && q in seen)
  {
    PB.MarksStay(marked, ranked, Some(p), new_);
  }

  /** A rescoring of a confirmed notice. */
  lemma ConfirmedRescoring(b: PB.Binding, a: PB.Action, b': PB.Binding, p: nat)
    requires b.confirmed && p in b.rows && (forall q <- b.rows :: b.rows[q].selected <==> q == p) && a.Rescore? && PB.Moves(b, a, b')
    ensures PB.IsPick(b.rows, Some(p)) && PB.RescoredAround(b.rows, RankedBy(a), Some(p), b'.rows)
    ensures b'.confirmed && b'.policyId == b.policyId
  {
    var chosen :| PB.IsPick(b.rows, chosen) && PB.RescoredAround(b.rows, RankedBy(a), chosen, b'.rows);
    assert chosen == Some(p);
  }

  lemma CoherentExactlyWhen(g: PB.Binding, p: nat)
    requires g.confirmed && p in g.rows && g.rows[p].selected
    ensures PB.Coherent(g) <==> g.policyId == Some(p) && forall q <- g.rows :: g.rows[q].selected ==> q == p
  {
  }

  /**
   * Two officers select a policy for a notice that neither of them had loaded as confirmed,
   * the second with the run that goes with the selection. The notice is left coherent
   * exactly when both mean the same policy, or the second one's was not bound when loaded
   * and the first one's row is deleted, or was not there to be loaded. Otherwise two rows
   * are marked, or the chosen row is not the bound policy's.
   */
  lemma SecondSelectionExactlyWhen(
    seen: PB.Binding, p: nat, officer: string, a: PB.Action, new_: PB.Binding, met: PB.Binding, g: PB.Binding, first: nat)
    requires PB.Coherent(seen) && !seen.confirmed && p in View(seen.rows, met.rows)
    requires PB.Coherent(met) && met.confirmed && met.policyId == Some(first)
    requires a.Rescore? && PB.Moves(PB.AfterSelect(BindingView(seen, met), p, officer), a, new_)
    requires BindingFlushed(BindingView(seen, met), new_, met, g)
    ensures g.confirmed && p in g.rows && g.rows[p].selected
    ensures PB.Coherent(g) <==>
      p == first || (seen.policyId != Some(p) && !(first in seen.rows && PB.Ranks(RankedBy(a), first)))
  {
    var b := PB.AfterSelect(BindingView(seen, met), p, officer);
    assert PB.IsPick(seen.rows, None);
    ConfirmedRescoring(b, a, new_, p);
    MarksAfterSelections(seen.rows, p, officer, RankedBy(a), b.rows, new_.rows, met.rows, g.rows, first);
    CoherentExactlyWhen(g, p);
  }

  // ---------------------------------------------------------------------------
  // The status
  // ---------------------------------------------------------------------------

  lemma FoundStaysWorking(seen: Status, open: set<ExceptionCode>, failed: bool)
    requires !IsTerminal(seen)
    ensures !IsTerminal(DeriveStatus(NP.Started(seen), open, failed))
  {
    DerivedStaysWorking(STATUS_FOR_EXCEPTION, open);
  }

  lemma StatusOf(seen: NP.File, looked: NP.File, i: NP.Inputs, outcome: NP.Outcome, h: NP.File, met: NP.File, g: NP.File)
    requires RanOn(seen, looked, i, outcome, h, met, g)
    ensures g.status == StatusWritten(seen.status, StatusFound(seen.status, i, outcome, g.exceptions), met.status)
    ensures g.converted == met.converted
  {
  }

  /**
   * A notice rejected, cancelled or made a claim since the load stays so exactly when the
   * run had no status to write: it was not new, and what the run found is what it was.
   */
  lemma TerminalStaysExactlyWhen(
    seen: NP.File, looked: NP.File, i: NP.Inputs, outcome: NP.Outcome, h: NP.File, met: NP.File, g: NP.File)
    requires RanOn(seen, looked, i, outcome, h, met, g) && !IsTerminal(seen.status) && IsTerminal(met.status)
    ensures g.status == met.status <==>
      seen.status != Received && StatusFound(seen.status, i, outcome, g.exceptions) == seen.status
  {
    StatusOf(seen, looked, i, outcome, h, met, g);
    FoundStaysWorking(seen.status, ER.OpenCodes(g.exceptions), i.facts.extractionFailed);
  }

  // ---------------------------------------------------------------------------
  // Exceptions
  // ---------------------------------------------------------------------------

  /** Decided, by this officer, with this note. */
  predicate Stands(rows: ER.Rows, code: ExceptionCode, decision: ER.Row) {
    ER.Decided(rows, code) && ER.SameDecision(rows[code], decision)
  }

  /** The evaluation of a session that held `view`, and what its flush leaves. */
  ghost predicate Evaluated(view: ER.Rows, x: ER.Findings, t: ER.Thresholds, new_: ER.Rows, met: ER.Rows, after: ER.Rows) {
    ER.Moves(view, ER.Evaluation(x, t), new_) && Flushed(view, new_, met, ExceptionColumns, after)
  }

  lemma KeptDecision(view: ER.Rows, cause: bool, r: ER.Raised, new_: ER.Rows, met: ER.Rows, after: ER.Rows)
    requires Flushed(view, new_, met, ExceptionColumns, after) && r.code in view && ER.Decided(met, r.code)
    requires r.code in new_ <==> cause || ER.Decided(view, r.code)
    requires cause ==> new_[r.code] == ER.Refreshed(view, r)
    requires !cause && ER.Decided(view, r.code) ==> new_[r.code] == view[r.code]
    ensures Stands(after, r.code, met[r.code]) <==> !ER.IsOpen(view, r.code) || cause
    ensures !Stands(after, r.code, met[r.code]) ==> r.code !in after
  {
  }

  /**
   * A decision that stands when the run's flush comes survives it exactly when the session
   * does not hold the exception open, or still finds a cause for it. Otherwise it is deleted.
   */
  lemma DecisionSurvivesExactlyWhen(
    view: ER.Rows, x: ER.Findings, t: ER.Thresholds, new_: ER.Rows, met: ER.Rows, after: ER.Rows, code: ExceptionCode)
    requires Evaluated(view, x, t, new_, met, after) && code in view && ER.Decided(met, code)
    ensures Stands(after, code, met[code]) <==> !ER.IsOpen(view, code) || ER.Cause(x, t, code)
    ensures !Stands(after, code, met[code]) ==> code !in after
  {
    ER.EvaluatedRow(view, x, t, new_, code);
    KeptDecision(view, ER.Cause(x, t, code), ER.Raised(code, ER.LevelOf(x, t, code)), new_, met, after);
  }

  /** The flush deletes a decision it did not know of, or fails to ask again what was closed under it. */
  ghost predicate Loses(view: ER.Rows, x: ER.Findings, t: ER.Thresholds, met: ER.Rows, code: ExceptionCode) {
    && ER.IsOpen(view, code)
    && if code in met then ER.Decided(met, code) && !ER.Cause(x, t, code) else ER.Cause(x, t, code)
  }

  /** One row after the flush, by whether it was raised. */
  lemma RaisedRow(view: ER.Rows, cause: bool, r: ER.Raised, new_: ER.Rows, met: ER.Rows, after: ER.Rows)
    requires ExceptionsDecided(view, met) && Flushed(view, new_, met, ExceptionColumns, after)
    requires r.code in new_ <==> cause || ER.Decided(view, r.code)
    requires cause ==> new_[r.code] == ER.Refreshed(view, r)
    requires !cause && ER.Decided(view, r.code) ==> new_[r.code] == view[r.code]
    ensures r.code in after <==> if r.code in view then r.code in met && (cause || !ER.IsOpen(view, r.code)) else cause
    ensures r.code in after ==> after[r.code] == if cause then ER.Refreshed(met, r) else met[r.code]
  {
  }

  lemma FlushedRow(
    view: ER.Rows, x: ER.Findings, t: ER.Thresholds, new_: ER.Rows, met: ER.Rows, after: ER.Rows, code: ExceptionCode)
    requires Evaluated(view, x, t, new_, met, after) && ExceptionsDecided(view, met)
    ensures code in after <==>
      if code in view then code in met && (ER.Cause(x, t, code) || !ER.IsOpen(view, code)) else ER.Cause(x, t, code)
    ensures code in after ==>
      after[code] == if ER.Cause(x, t, code) then ER.Refreshed(met, ER.Raised(code, ER.LevelOf(x, t, code))) else met[code]
  {
    ER.EvaluatedRow(view, x, t, new_, code);
    RaisedRow(view, ER.Cause(x, t, code), ER.Raised(code, ER.LevelOf(x, t, code)), new_, met, after);
  }

  lemma SerialRow(
    view: ER.Rows, x: ER.Findings, t: ER.Thresholds, new_: ER.Rows, met: ER.Rows, after: ER.Rows, atOnce: ER.Rows, code: ExceptionCode)
    requires ExceptionsDecided(view, met) && Evaluated(view, x, t, new_, met, after) && ER.Moves(met, ER.Evaluation(x, t), atOnce)
    ensures code in after ==> code in atOnce && after[code] == atOnce[code]
    ensures code in atOnce && code !in after <==> Loses(view, x, t, met, code)
    ensures Loses(view, x, t, met, code) && ER.IsOpen(atOnce, code) ==> code in view.Keys - met.Keys
    ensures code in view.Keys - met.Keys ==> code !in after
  {
    FlushedRow(view, x, t, new_, met, after, code);
    ER.EvaluatedRow(met, x, t, atOnce, code);
  }

  /**
   * When officers have only decided and closed exceptions since the load, the list is the
   * one an evaluation of the same findings would have left after them, exactly when nothing
   * is lost that way. What is open is the same but for rows closed under the session.
   */
  lemma SerialExactlyWhen(
    view: ER.Rows, x: ER.Findings, t: ER.Thresholds, new_: ER.Rows, met: ER.Rows, after: ER.Rows, atOnce: ER.Rows)
    requires ExceptionsDecided(view, met) && Evaluated(view, x, t, new_, met, after) && ER.Moves(met, ER.Evaluation(x, t), atOnce)
    ensures after == atOnce <==> forall code :: !Loses(view, x, t, met, code)
    ensures ER.OpenCodes(after) == ER.OpenCodes(atOnce) - (view.Keys - met.Keys)
  {
    forall code: ExceptionCode
      ensures code in after ==> code in atOnce && after[code] == atOnce[code]
      ensures code in atOnce && code !in after <==> Loses(view, x, t, met, code)
      ensures Loses(view, x, t, met, code) && ER.IsOpen(atOnce, code) ==> code in view.Keys - met.Keys
      ensures code in view.Keys - met.Keys ==> code !in after
    {
      SerialRow(view, x, t, new_, met, after, atOnce, code);
    }
  }

  /** A lost decision comes back as an open question with the next run that finds a cause. */
  lemma LostDecisionReopens(
    view: ER.Rows, x: ER.Findings, t: ER.Thresholds, new_: ER.Rows, met: ER.Rows, after: ER.Rows, code: ExceptionCode,
    y: ER.Findings, later: ER.Rows)
    requires Evaluated(view, x, t, new_, met, after) && ER.Moves(after, ER.Evaluation(y, t), later)
    requires ER.IsOpen(view, code) && ER.Decided(met, code) && !Stands(after, code, met[code])
    ensures ER.IsOpen(later, code) <==> ER.Cause(y, t, code)
    ensures !ER.Decided(later, code)
  {
    DecisionSurvivesExactlyWhen(view, x, t, new_, met, after, code);
    ER.EvaluatedRow(after, y, t, later, code);
  }

  /**
   * It takes one click: an open exception whose cause the run no longer finds, dismissed
   * before the run's flush, is gone with its dismissal after it.
   */
  lemma DismissedInVain(
    seen: ER.Rows, x: ER.Findings, t: ER.Thresholds, new_: ER.Rows, code: ExceptionCode, officer: string, note: Option<string>,
    after: ER.Rows)
    requires ER.IsOpen(seen, code) && !ER.Cause(x, t, code)
    requires Evaluated(seen, x, t, new_, ER.AfterDecision(seen, code, ER.Dismissed, officer, note), after)
    ensures code !in after
  {
    DecisionSurvivesExactlyWhen(seen, x, t, new_, ER.AfterDecision(seen, code, ER.Dismissed, officer, note), after, code);
  }

  /**
   * Two officers decide one exception, the second on a page loaded before the first was
   * done. The second is not refused, as it would have been afterwards: it replaces the
   * decision and its author, and the first one's note stays unless it brings one of its own.
   */
  lemma SecondDecisionReplaces(
    view: ER.Rows, code: ExceptionCode, standing: ER.Standing, officer: string, note: Option<string>, met: ER.Rows, after: ER.Rows)
    requires ER.IsOpen(view, code) && view[code].resolvedBy == None && view[code].note == None && standing != ER.Open
    requires ER.Decided(met, code)
    requires Flushed(view, ER.AfterDecision(view, code, standing, officer, note), met, ExceptionColumns, after)
    ensures code in after
    ensures after[code] == met[code].(standing := standing, resolvedBy := Some(officer), note := FS.OrElse(note, met[code].note))
    ensures Stands(after, code, met[code]) <==>
      standing == met[code].standing && met[code].resolvedBy == Some(officer) && (note == None || note == met[code].note)
  {
  }

  // ---------------------------------------------------------------------------
  // Duplicate candidates
  // ---------------------------------------------------------------------------

  ghost predicate Rescanned(view: DR.Rows, scoring: seq<DR.Assessment>, new_: DR.Rows, met: DR.Rows, after: DR.Rows) {
    DR.Rescanned(view, scoring, new_) && Flushed(view, new_, met, CandidateColumns, after)
  }

  /** A rescan's row, seen from its reference. */
  lemma RescannedRow(before: DR.Rows, scoring: seq<DR.Assessment>, after: DR.Rows, r: string)
    requires DR.Rescanned(before, scoring, after)
    ensures r in before && r in after ==> after[r] == before[r].(score := after[r].score)
    ensures r in after && !DR.Names(scoring, r) ==> r in before && after[r] == before[r]
    ensures r in after && r !in before ==> DR.Outstanding(after, r)
  {
    if DR.Names(scoring, r) {
      var i :| 0 <= i < |scoring| && scoring[i].reference == r;
    }
  }

  /** A decision on a candidate survives exactly when the session does not hold it undecided, or the record still scores. */
  lemma ResolutionSurvivesExactlyWhen(
    view: DR.Rows, scoring: seq<DR.Assessment>, new_: DR.Rows, met: DR.Rows, after: DR.Rows, r: string)
    requires Rescanned(view, scoring, new_, met, after) && r in view && DR.Decided(met, r)
    ensures (r in after && after[r].(score := met[r].score) == met[r]) <==> !DR.Outstanding(view, r) || DR.Names(scoring, r)
    ensures DR.Outstanding(view, r) && !DR.Names(scoring, r) ==> r !in after
  {
    RescannedRow(view, scoring, new_, r);
  }

  ghost predicate LosesResolution(view: DR.Rows, scoring: seq<DR.Assessment>, met: DR.Rows) {
    exists r :: DR.Outstanding(view, r) && DR.Decided(met, r) && !DR.Names(scoring, r)
  }

  lemma RescanSerialRow(
    view: DR.Rows, scoring: seq<DR.Assessment>, new_: DR.Rows, met: DR.Rows, after: DR.Rows, atOnce: DR.Rows, r: string)
    requires CandidatesDecided(view, met) && Rescanned(view, scoring, new_, met, after) && DR.Rescanned(met, scoring, atOnce)
    ensures r in after <==> r in atOnce && !(DR.Outstanding(view, r) && DR.Decided(met, r) && !DR.Names(scoring, r))
    ensures r in after ==> after[r] == atOnce[r]
    ensures r in atOnce && r !in after ==> !DR.Outstanding(atOnce, r)
  {
    if DR.Names(scoring, r) {
      var i :| 0 <= i < |scoring| && scoring[i].reference == r;
    }
  }

  /** With decisions only since the load, the candidates are those of a scan after them, exactly when none is lost. */
  lemma RescanSerialExactlyWhen(
    view: DR.Rows, scoring: seq<DR.Assessment>, new_: DR.Rows, met: DR.Rows, after: DR.Rows, atOnce: DR.Rows)
    requires CandidatesDecided(view, met) && Rescanned(view, scoring, new_, met, after) && DR.Rescanned(met, scoring, atOnce)
    ensures after == atOnce <==> !LosesResolution(view, scoring, met)
    ensures forall r :: DR.Outstanding(after, r) <==> DR.Outstanding(atOnce, r)
  {
    forall r
      ensures r in after <==> r in atOnce && !(DR.Outstanding(view, r) && DR.Decided(met, r) && !DR.Names(scoring, r))
      ensures r in after ==> after[r] == atOnce[r]
      ensures r in atOnce && r !in after ==> !DR.Outstanding(atOnce, r)
    {
      RescanSerialRow(view, scoring, new_, met, after, atOnce, r);
    }
  }

  /** Linked by an officer while a run was under way that no longer scores it: the record forgets that anyone looked. */
  lemma LostResolutionExample(r: string, officer: string) returns (seen: DR.Rows, met: DR.Rows, after: DR.Rows)
    ensures DR.Outstanding(seen, r) && met == DR.AfterDecision(seen, r, DR.Linked, officer, Some("same loss"))
    ensures DR.Decided(met, r) && Rescanned(View(seen, met), [], map[], met, after) && after == map[]
  {
    seen := map[r := DR.Row(DR.OfNotice, 0.9, DR.Unresolved, None, None)];
    met := DR.AfterDecision(seen, r, DR.Linked, officer, Some("same loss"));
    after := map[];
    assert View(seen, met) == seen;
  }
}
