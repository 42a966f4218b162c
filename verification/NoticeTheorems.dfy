/** What holds of a notice over every sequence of runs and officer actions. */
module NoticeTheorems {
  import opened Wrappers
  import opened Lifecycle
  import opened NoticePipeline
  import Matching
  import FS = FieldStore
  import FT = FieldTheorems
  import PM = PolicyMatch
  import PR = PolicyRanking
  import PB = PolicyBinding
  import DR = DuplicateReview
  import ER = ExceptionReview

  ghost predicate IsRun(files: seq<File>, actions: seq<Action>) {
    && |files| == |actions| + 1 && files[0] == NewNotice(files[0].fields)
    && forall k :: 0 <= k < |actions| ==> Moves(files[k], actions[k], files[k + 1])
  }

  /** What stands once an officer decided it, in both lists. */
  ghost predicate Settled(f: File) {
    PB.Coherent(f.binding) && ER.Marked(f.exceptions)
  }

  lemma ProcessedKeepsSettled(f: File, i: Inputs, outcome: Outcome, g: File)
    requires Settled(f) && Processed(f, i, outcome, g)
    ensures Settled(g)
  {
    if Ranks(outcome) {
      PB.MoveKeepsCoherent(f.binding, Rescoring(g.fields.values, i), g.binding);
    }
    if outcome == Completes {
      var a := ER.Evaluation(FindingsFor(g.fields.values, i, g.binding, g.duplicates), i.thresholds);
      EvaluationKeepsMarks(f.exceptions, a, g.exceptions);
    }
  }

  lemma EvaluationKeepsMarks(rows: ER.Rows, a: ER.Action, rows': ER.Rows)
    requires ER.Marked(rows) && ER.Moves(rows, a, rows')
    ensures ER.Marked(rows')
  {
    assert ER.IsRun([rows, rows'], [a]);
    ER.MarksAreRight([rows, rows'], [a], 1);
  }

  lemma SelectionIsCoherent(b: PB.Binding, p: nat, officer: string)
    requires PB.Coherent(b) && p in b.rows
    ensures PB.Coherent(PB.AfterSelect(b, p, officer))
  {
    PB.MoveKeepsCoherent(b, PB.Choose(p, officer), PB.AfterSelect(b, p, officer));
  }

  /** What an action does before its run touches neither list of decisions, nor the status. */
  lemma RunStartsFrom(f: File, a: Action)
    requires RunBy(f, a).Some?
    ensures var from := RunBy(f, a).value.from;
      && from.duplicates == f.duplicates && from.exceptions == f.exceptions
      && from.status == f.status && from.converted == f.converted
      && (!a.SelectPolicy? ==> from.binding == f.binding)
      && (PB.Coherent(f.binding) ==> PB.Coherent(from.binding))
  {
    if a.SelectPolicy? && PB.Coherent(f.binding) { SelectionIsCoherent(f.binding, a.policy, a.officer); }
  }

  lemma StepKeepsSettled(f: File, a: Action, g: File)
    requires Settled(f) && Moves(f, a, g)
    ensures Settled(g)
  {
    if RunBy(f, a).Some? {
      var r := RunBy(f, a).value;
      RunStartsFrom(f, a);
      ProcessedKeepsSettled(r.from, r.inputs, r.outcome, g);
    } else {
      DirectKeepsSettled(f, a);
    }
  }

  lemma DirectKeepsSettled(f: File, a: Action)
    requires Settled(f)
    ensures Settled(Direct(f, a))
  {
  }

  /**
   * Over every sequence of actions a confirmed notice has exactly one selected row, its
   * bound policy's, and every stored exception is marked blocking exactly when its code is.
   */
  lemma {:induction false} AlwaysSettled(files: seq<File>, actions: seq<Action>, k: nat)
    requires IsRun(files, actions) && k < |files|
    ensures Settled(files[k])
  {
    if k > 0 {
      AlwaysSettled(files, actions, k - 1);
      StepKeepsSettled(files[k - 1], actions[k - 1], files[k]);
    }
  }

  // ---------------------------------------------------------------------------
  // Human decisions
  // ---------------------------------------------------------------------------

  lemma ProcessedKeepsException(f: File, i: Inputs, outcome: Outcome, g: File, code: ExceptionCode)
    requires Processed(f, i, outcome, g) && ER.Decided(f.exceptions, code)
    ensures ER.Decided(g.exceptions, code) && ER.SameDecision(g.exceptions[code], f.exceptions[code])
  {
    if outcome == Completes {
      var a := ER.Evaluation(FindingsFor(g.fields.values, i, g.binding, g.duplicates), i.thresholds);
      assert ER.IsRun([f.exceptions, g.exceptions], [a]);
      ER.DecidedNeverReopens([f.exceptions, g.exceptions], [a], code, 0, 1);
    }
  }

  lemma ProcessedKeepsDuplicate(f: File, i: Inputs, outcome: Outcome, g: File, r: string)
    requires Processed(f, i, outcome, g) && DR.Decided(f.duplicates, r)
    ensures DR.Decided(g.duplicates, r) && g.duplicates[r].(score := f.duplicates[r].score) == f.duplicates[r]
  {
    if Scans(outcome) {
      DR.RescanKeepsDecision(f.duplicates, ScoringFor(g.fields.values, i, g.binding.policyId), g.duplicates, r);
    }
  }

  lemma DirectKeepsException(f: File, a: Action, code: ExceptionCode)
    requires WellPosed(a) && ER.Decided(f.exceptions, code)
    ensures code in Direct(f, a).exceptions && Direct(f, a).exceptions[code] == f.exceptions[code]
  {
  }

  lemma StepKeepsException(f: File, a: Action, g: File, code: ExceptionCode, row: ER.Row)
    requires Moves(f, a, g) && ER.Decided(f.exceptions, code) && ER.SameDecision(f.exceptions[code], row)
    ensures ER.Decided(g.exceptions, code) && ER.SameDecision(g.exceptions[code], row)
  {
    if RunBy(f, a).Some? {
      var r := RunBy(f, a).value;
      RunStartsFrom(f, a);
      ProcessedKeepsException(r.from, r.inputs, r.outcome, g, code);
    } else {
      DirectKeepsException(f, a, code);
    }
  }

  /** The action is an officer's own decision on this very record. */
  predicate Redecides(a: Action, r: string) { a.DecideDuplicate? && a.reference == r }

  lemma DirectKeepsDuplicate(f: File, a: Action, r: string)
    requires WellPosed(a) && DR.Decided(f.duplicates, r)
    ensures DR.Decided(Direct(f, a).duplicates, r)
    ensures !Redecides(a, r) ==> Direct(f, a).duplicates[r] == f.duplicates[r]
  {
  }

  lemma StepKeepsDuplicate(f: File, a: Action, g: File, r: string)
    requires Moves(f, a, g) && DR.Decided(f.duplicates, r)
    ensures DR.Decided(g.duplicates, r)
    ensures !Redecides(a, r) ==> g.duplicates[r].(score := f.duplicates[r].score) == f.duplicates[r]
  {
    if RunBy(f, a).Some? {
      var run := RunBy(f, a).value;
      RunStartsFrom(f, a);
      ProcessedKeepsDuplicate(run.from, run.inputs, run.outcome, g, r);
    } else {
      DirectKeepsDuplicate(f, a, r);
    }
  }

  lemma StepKeepsConfirmation(f: File, a: Action, g: File)
    requires Moves(f, a, g) && f.binding.confirmed && !a.SelectPolicy?
    ensures g.binding.confirmed && g.binding.policyId == f.binding.policyId
  {
    if RunBy(f, a).Some? { RunStartsFrom(f, a); }
  }

  lemma RunStep(files: seq<File>, actions: seq<Action>, k: nat)
    requires IsRun(files, actions) && k < |actions|
    ensures Moves(files[k], actions[k], files[k + 1])
  {
  }

  lemma ExceptionStep(files: seq<File>, actions: seq<Action>, k: nat, code: ExceptionCode, row: ER.Row)
    requires IsRun(files, actions) && k < |actions|
    requires ER.Decided(files[k].exceptions, code) && ER.SameDecision(files[k].exceptions[code], row)
    ensures ER.Decided(files[k + 1].exceptions, code) && ER.SameDecision(files[k + 1].exceptions[code], row)
  {
    RunStep(files, actions, k);
    StepKeepsException(files[k], actions[k], files[k + 1], code, row);
  }

  /** A resolved or dismissed exception never reopens, whatever is run or done afterwards. */
  lemma {:induction false} ExceptionDecisionStands(
    files: seq<File>, actions: seq<Action>, code: ExceptionCode, j: nat, k: nat)
    requires IsRun(files, actions) && j <= k < |files| && ER.Decided(files[j].exceptions, code)
    ensures ER.Decided(files[k].exceptions, code)
    ensures ER.SameDecision(files[k].exceptions[code], files[j].exceptions[code])
    decreases k - j
  {
    if j < k {
      ExceptionDecisionStands(files, actions, code, j, k - 1);
      ExceptionStep(files, actions, k - 1, code, files[j].exceptions[code]);
    }
  }

  lemma DuplicateStep(files: seq<File>, actions: seq<Action>, k: nat, r: string)
    requires IsRun(files, actions) && k < |actions| && DR.Decided(files[k].duplicates, r)
    ensures DR.Decided(files[k + 1].duplicates, r)
    ensures !Redecides(actions[k], r) ==>
      files[k + 1].duplicates[r].(score := files[k].duplicates[r].score) == files[k].duplicates[r]
  {
    RunStep(files, actions, k);
    StepKeepsDuplicate(files[k], actions[k], files[k + 1], r);
  }

  /** A decided duplicate stays decided, as it was until the same record is decided again. */
  lemma {:induction false} DuplicateDecisionStands(files: seq<File>, actions: seq<Action>, r: string, j: nat, k: nat)
    requires IsRun(files, actions) && j <= k < |files| && DR.Decided(files[j].duplicates, r)
    ensures DR.Decided(files[k].duplicates, r)
    ensures (forall m :: j <= m < k ==> !Redecides(actions[m], r)) ==>
      files[k].duplicates[r].(score := files[j].duplicates[r].score) == files[j].duplicates[r]
    decreases k - j
  {
    if j < k {
      DuplicateDecisionStands(files, actions, r, j, k - 1);
      DuplicateStep(files, actions, k - 1, r);
    }
  }

  lemma ConfirmationStep(files: seq<File>, actions: seq<Action>, k: nat)
    requires IsRun(files, actions) && k < |actions| && files[k].binding.confirmed && !actions[k].SelectPolicy?
    ensures files[k + 1].binding.confirmed && files[k + 1].binding.policyId == files[k].binding.policyId
  {
    RunStep(files, actions, k);
    StepKeepsConfirmation(files[k], actions[k], files[k + 1]);
  }

  lemma {:induction false} ConfirmationStands(files: seq<File>, actions: seq<Action>, j: nat, k: nat)
    requires IsRun(files, actions) && j <= k < |files| && files[j].binding.confirmed
    requires forall m :: j <= m < k ==> !actions[m].SelectPolicy?
    ensures files[k].binding.confirmed && files[k].binding.policyId == files[j].binding.policyId
    decreases k - j
  {
    if j < k {
      ConfirmationStands(files, actions, j, k - 1);
      ConfirmationStep(files, actions, k - 1);
    }
  }

  /** A confirmed policy stays bound, stored and selected until an officer selects again. */
  lemma ConfirmedPolicyStands(files: seq<File>, actions: seq<Action>, j: nat, k: nat)
    requires IsRun(files, actions) && j <= k < |files| && files[j].binding.confirmed
    requires forall m :: j <= m < k ==> !actions[m].SelectPolicy?
    ensures var b := files[k].binding;
      && b.confirmed && b.policyId == files[j].binding.policyId && b.policyId.Some?
      && b.policyId.value in b.rows && b.rows[b.policyId.value].selected
  {
    ConfirmationStands(files, actions, j, k);
    AlwaysSettled(files, actions, k);
  }

  // ---------------------------------------------------------------------------
  // Corrected fields
  // ---------------------------------------------------------------------------

  /** The path is corrected, and stands so. */
  predicate Stands(f: FS.Fields, p: FS.Path, row: FS.Row, value: Option<FS.Value>) {
    f.Human(p) && FT.SameCorrection(f.rows[p], row) && f.Get(p) == value
  }

  /** An officer sets this very path, or selects a policy, which sets the number and may set the name. */
  predicate Rewrites(a: Action, p: FS.Path) {
    || (a.EditFields? && Mentions(a.updates, p))
    || (a.SelectPolicy? && FT.SetByPolicy(p))
  }

  predicate Mentions(updates: seq<FS.Update>, p: FS.Path) { exists u <- updates :: u.Typed? && u.path == p }

  lemma {:induction false} UpdatesKeepCorrection(f: FS.Fields, updates: seq<FS.Update>, actor: string,
                                                 reason: Option<string>, p: FS.Path)
    requires f.Human(p) && !Mentions(updates, p)
    ensures Stands(FS.AfterUpdates(f, updates, actor, reason), p, f.rows[p], f.Get(p))
  {
    if updates != [] {
      var front, last := updates[..|updates| - 1], updates[|updates| - 1];
      assert last in updates && forall u <- front :: u in updates;
      UpdatesKeepCorrection(f, front, actor, reason, p);
      var g := FS.AfterUpdates(f, front, actor, reason);
      match last
      case Typed(q, parsed, display) => FT.StepKeepsCorrection(g, FT.Edit(q, parsed, display, actor, reason), p);
      case Toggle(flag, on) => FT.StepKeepsCorrection(g, FT.Switch(flag, on), p);
      case Refused =>
    }
  }

  lemma ReadingKeepsCorrection(f: FS.Fields, reading: Option<FS.Extraction>, p: FS.Path)
    requires f.Human(p)
    ensures Stands(FieldsRead(f, reading), p, f.rows[p], f.Get(p))
  {
    if reading.Some? { FT.StepKeepsCorrection(f, FT.Read(reading.value), p); }
  }

  lemma RunStartKeepsCorrection(f: File, a: Action, p: FS.Path)
    requires RunBy(f, a).Some? && f.fields.Human(p) && !Rewrites(a, p)
    ensures Stands(RunBy(f, a).value.from.fields, p, f.fields.rows[p], f.fields.Get(p))
  {
    match a
    case Process(_, _) =>
    case SelectPolicy(q, officer, i, _) => FT.StepKeepsCorrection(f.fields, FT.ConfirmPolicy(i.book[q].number, i.book[q].insured), p);
    case EditFields(updates, officer, reason, _) => UpdatesKeepCorrection(f.fields, updates, officer, reason, p);
  }

  lemma DirectKeepsCorrection(f: File, a: Action, p: FS.Path)
    requires f.fields.Human(p) && !Rewrites(a, p)
    ensures Stands(Direct(f, a).fields, p, f.fields.rows[p], f.fields.Get(p))
  {
    match a
    case EditFields(updates, officer, reason, _) => UpdatesKeepCorrection(f.fields, updates, officer, reason, p);
    case _ =>
  }

  lemma FieldStep(files: seq<File>, actions: seq<Action>, k: nat, p: FS.Path)
    requires IsRun(files, actions) && k < |actions| && files[k].fields.Human(p) && !Rewrites(actions[k], p)
    ensures Stands(files[k + 1].fields, p, files[k].fields.rows[p], files[k].fields.Get(p))
  {
    RunStep(files, actions, k);
    if RunBy(files[k], actions[k]).Some? {
      RunStartKeepsCorrection(files[k], actions[k], p);
      var run := RunBy(files[k], actions[k]).value;
      ReadingKeepsCorrection(run.from.fields, run.inputs.reading, p);
    } else {
      DirectKeepsCorrection(files[k], actions[k], p);
    }
  }

  /**
   * A corrected field keeps the officer's value, author and original through every run and
   * every action, until an officer corrects that field again or, for the policy number and
   * the insured's name, selects a policy.
   */
  lemma {:induction false} FieldCorrectionStands(files: seq<File>, actions: seq<Action>, p: FS.Path, j: nat, k: nat)
    requires IsRun(files, actions) && j <= k < |files| && files[j].fields.Human(p)
    requires forall m :: j <= m < k ==> !Rewrites(actions[m], p)
    ensures Stands(files[k].fields, p, files[j].fields.rows[p], files[j].fields.Get(p))
    decreases k - j
  {
    if j < k {
      FieldCorrectionStands(files, actions, p, j, k - 1);
      FieldStep(files, actions, k - 1, p);
    }
  }

  /** A run that gets as far as matching ranks the pool against the notice's values as they then stand. */
  lemma RunRanksByValues(f: File, a: Action, g: File)
    requires Moves(f, a, g) && RunBy(f, a).Some? && Ranks(RunBy(f, a).value.outcome)
    ensures PB.Moves(RunBy(f, a).value.from.binding, Rescoring(g.fields.values, RunBy(f, a).value.inputs), g.binding)
  {
  }

  /**
   * So an officer's policy number decides what the notice can be bound to without a human.
   * As long as nobody sets the number again, any later run that binds another policy binds
   * one that carries that very number, and no other policy of its pool contends with it.
   */
  lemma CorrectedNumberBinds(files: seq<File>, actions: seq<Action>, j: nat, k: nat) returns (m: nat)
    requires IsRun(files, actions) && j <= k < |actions| && files[j].fields.Human(FS.PolicyNumber)
    requires forall n :: j <= n <= k ==> !Rewrites(actions[n], FS.PolicyNumber)
    requires files[k + 1].binding.policyId != files[k].binding.policyId
    requires var run := RunBy(files[k], actions[k]); run.Some? ==> run.value.inputs.config.candidate <= run.value.inputs.config.high
    ensures RunBy(files[k], actions[k]).Some?
    ensures var i, number := RunBy(files[k], actions[k]).value.inputs, TextAt(files[j].fields.values, FS.PolicyNumber);
      && m < |i.pool| && files[k + 1].binding.policyId == Some(i.pool[m].id)
      && Matching.NormaliseReference(i.pool[m].policyNumber) == Matching.NormaliseReference(number) != ""
      && forall n :: 0 <= n < |i.pool| && n != m ==>
           !PR.IsRival(PM.ScorePolicy(NoticeOf(files[k + 1].fields.values, i.lineOfBusiness), i.pool[n], i.config), i.config)
  {
    RunStep(files, actions, k);
    OnlyRunsBind(files[k], actions[k], files[k + 1]);
    RunRanksByValues(files[k], actions[k], files[k + 1]);
    FieldCorrectionStands(files, actions, FS.PolicyNumber, j, k + 1);
    SameText(files[j].fields, files[k + 1].fields, FS.PolicyNumber);
    var i := RunBy(files[k], actions[k]).value.inputs;
    m := PR.ExactIsUnambiguous(NoticeOf(files[k + 1].fields.values, i.lineOfBusiness), i.pool, i.config, PB.SHOWN);
  }

  lemma SameText(f: FS.Fields, g: FS.Fields, p: FS.Path)
    requires f.Get(p) == g.Get(p)
    ensures TextAt(f.values, p) == TextAt(g.values, p)
  {
  }

  /** Short of a selection, the bound policy changes only in a run that ranked the pool. */
  lemma OnlyRunsBind(f: File, a: Action, g: File)
    requires Moves(f, a, g) && !a.SelectPolicy? && g.binding.policyId != f.binding.policyId
    ensures RunBy(f, a).Some? && Ranks(RunBy(f, a).value.outcome) && RunBy(f, a).value.from.binding == f.binding
  {
    if RunBy(f, a).Some? { RunStartsFrom(f, a); }
  }

  // ---------------------------------------------------------------------------
  // Readiness
  // ---------------------------------------------------------------------------

  /** The action recomputed the status from the open exceptions, its reading having succeeded. */
  ghost predicate Recomputes(f: File, a: Action) {
    match RunBy(f, a)
    case Some(r) => r.outcome == Completes && !r.inputs.facts.extractionFailed
    case None =>
      match a
      case EditFields(updates, officer, reason, _) => Corrects(f, updates, officer, reason)
      case DecideCatastrophe(eventExists) => f.status != ClaimCreated && eventExists
      case DecideException(code, _, _, _) => ER.IsOpen(f.exceptions, code)
      case DecideDuplicate(r, d, _, _) => f.status != ClaimCreated && r in f.duplicates && d != DR.MarkedDuplicate
      case _ => false
  }

  predicate Working(s: Status) { !IsTerminal(s) && s != Referred }

  /**
   * After every action that recomputes the status, a working notice is ready for a claim
   * exactly when no exception that blocks claim creation is open.
   */
  lemma ReadyExactlyWhenNothingBlocks(f: File, a: Action, g: File)
    requires Moves(f, a, g) && Recomputes(f, a) && Working(f.status)
    ensures g.status == ReadyForClaim <==> BlockingCodes(ER.OpenCodes(g.exceptions)) == []
  {
    if RunBy(f, a).Some? {
      RunStartsFrom(f, a);
      ReadyExactlyWhenUnblocked(Started(f.status), ER.OpenCodes(g.exceptions));
    } else {
      ReadyAfterDirect(f, a);
    }
  }

  lemma ReadyAfterDirect(f: File, a: Action)
    requires RunBy(f, a).None? && Recomputes(f, a) && Working(f.status)
    ensures var g := Direct(f, a); g.status == ReadyForClaim <==> BlockingCodes(ER.OpenCodes(g.exceptions)) == []
  {
    ReadyExactlyWhenUnblocked(f.status, ER.OpenCodes(Direct(f, a).exceptions));
  }

  // ---------------------------------------------------------------------------
  // Running again
  // ---------------------------------------------------------------------------

  /** The same inputs, the reading taken again or reused. */
  predicate SameInputs(i: Inputs, again: Inputs) {
    again == i.(reading := again.reading) && (again.reading == i.reading || again.reading == None)
  }

  lemma ReadAgain(f: FS.Fields, reading: Option<FS.Extraction>, again: Option<FS.Extraction>)
    requires again == reading || again == None
    ensures FieldsRead(FieldsRead(f, reading), again) == FieldsRead(f, reading)
  {
    if again.Some? { FT.RereadingIsIdempotent(f, reading.value); }
  }

  /** The stages after the reading, run twice over the same values. */
  lemma StagesAgain(f: File, i: Inputs, again: Inputs, once: File, twice: File)
    requires SameInputs(i, again) && StagesRan(f, i, Completes, once) && StagesRan(once, again, Completes, twice)
    ensures twice == once
  {
    var v := f.fields.values;
    PB.RescoringIsIdempotent(f.binding, Rescoring(v, i), once.binding, twice.binding);
    DR.RescanIsIdempotent(f.duplicates, ScoringFor(v, i, once.binding.policyId), once.duplicates, twice.duplicates);
    ER.EvaluationIsIdempotent(f.exceptions, FindingsFor(v, i, once.binding, once.duplicates), i.thresholds,
                              once.exceptions, twice.exceptions);
    DeriveIsIdempotent(f.status, ER.OpenCodes(once.exceptions), i.facts.extractionFailed);
  }

  lemma DerivedIsStarted(s: Status, open: set<ExceptionCode>, failed: bool)
    requires s != Received
    ensures DeriveStatus(s, open, failed) != Received
  {
    DerivedStaysWorking(STATUS_FOR_EXCEPTION, open);
  }

  /**
   * A completed run repeated with the same inputs, its reading taken again or reused,
   * leaves the whole notice as the first one left it.
   */
  lemma RunningAgainChangesNothing(f: File, i: Inputs, again: Inputs, once: File, twice: File)
    requires SameInputs(i, again) && Processed(f, i, Completes, once) && Processed(once, again, Completes, twice)
    ensures twice == once
  {
    var read := f.(status := Started(f.status), fields := FieldsRead(f.fields, i.reading));
    ReadAgain(f.fields, i.reading, again.reading);
    DerivedIsStarted(Started(f.status), ER.OpenCodes(once.exceptions), i.facts.extractionFailed);
    assert once.(status := Started(once.status), fields := FieldsRead(once.fields, again.reading)) == once;
    StagesAgain(read, i, again, once, twice);
  }

  // ---------------------------------------------------------------------------
  // Duplicates that were dealt with
  // ---------------------------------------------------------------------------

  /** Every stored candidate was decided, and nothing asks about duplicates. */
  ghost predicate Quiet(f: File) {
    && (forall r <- f.duplicates :: DR.Decided(f.duplicates, r))
    && !ER.IsOpen(f.exceptions, DuplicateSuspected)
  }

  /** A run of this action scores only records the officer already decided. */
  ghost predicate FindsNothingNew(f: File, a: Action, g: File) {
    RunBy(f, a).Some? ==> ScoresOnlyDecided(f, RunBy(f, a).value.inputs, g)
  }

  ghost predicate ScoresOnlyDecided(f: File, i: Inputs, g: File) {
    forall r :: DR.Names(ScoringFor(g.fields.values, i, g.binding.policyId), r) ==> DR.Decided(f.duplicates, r)
  }

  lemma ProcessedKeepsQuiet(f: File, i: Inputs, outcome: Outcome, g: File)
    requires Processed(f, i, outcome, g) && Quiet(f)
    requires ScoresOnlyDecided(f, i, g)
    ensures Quiet(g)
  {
    forall r | r in g.duplicates ensures DR.Decided(g.duplicates, r) {
      if Scans(outcome) {
        DR.OutstandingAfterRescan(f.duplicates, ScoringFor(g.fields.values, i, g.binding.policyId), g.duplicates, r);
      }
    }
    if outcome == Completes {
      NothingOutstandingNothingOpen(f.exceptions, FindingsFor(g.fields.values, i, g.binding, g.duplicates), i.thresholds, g.exceptions);
    }
  }

  lemma NothingOutstandingNothingOpen(before: ER.Rows, x: ER.Findings, t: ER.Thresholds, after: ER.Rows)
    requires ER.Moves(before, ER.Evaluation(x, t), after)
    requires forall r <- x.duplicates :: DR.Decided(x.duplicates, r)
    ensures !ER.IsOpen(after, DuplicateSuspected)
  {
    var raised: seq<ER.Raised> :| ER.Reports(x, t, raised) && ER.Evaluated(before, raised, after);
    ER.OpenAfterEvaluation(before, x, t, raised, after);
    assert !ER.AnyOutstanding(x.duplicates);
    assert DuplicateSuspected !in ER.OpenCodes(after);
  }

  lemma DirectKeepsQuiet(f: File, a: Action)
    requires WellPosed(a) && Quiet(f)
    ensures Quiet(Direct(f, a))
  {
  }

  lemma StepKeepsQuiet(f: File, a: Action, g: File)
    requires Moves(f, a, g) && Quiet(f) && FindsNothingNew(f, a, g)
    ensures Quiet(g)
  {
    if RunBy(f, a).Some? {
      var r := RunBy(f, a).value;
      RunStartsFrom(f, a);
      ProcessedKeepsQuiet(r.from, r.inputs, r.outcome, g);
    } else {
      DirectKeepsQuiet(f, a);
    }
  }

  lemma QuietStep(files: seq<File>, actions: seq<Action>, k: nat)
    requires IsRun(files, actions) && k < |actions| && Quiet(files[k]) && FindsNothingNew(files[k], actions[k], files[k + 1])
    ensures Quiet(files[k + 1])
  {
    RunStep(files, actions, k);
    StepKeepsQuiet(files[k], actions[k], files[k + 1]);
  }

  /**
   * Once every candidate is decided and the question is closed, it is never asked again:
   * no run that scores no new record, and no officer action, raises a possible duplicate.
   */
  lemma {:induction false} DecidedDuplicatesStayQuiet(files: seq<File>, actions: seq<Action>, j: nat, k: nat)
    requires IsRun(files, actions) && j <= k < |files| && Quiet(files[j])
    requires forall m :: j <= m < k ==> FindsNothingNew(files[m], actions[m], files[m + 1])
    ensures Quiet(files[k])
    decreases k - j
  {
    if j < k {
      DecidedDuplicatesStayQuiet(files, actions, j, k - 1);
      QuietStep(files, actions, k - 1);
    }
  }

  lemma QuestionAfterRescan(
    before: DR.Rows, scoring: seq<DR.Assessment>, x: ER.Findings, t: ER.Thresholds, rows: ER.Rows, rows': ER.Rows)
    requires DR.Rescanned(before, scoring, x.duplicates)
    requires ER.Moves(rows, ER.Evaluation(x, t), rows')
    ensures ER.IsOpen(rows', DuplicateSuspected) <==>
      !ER.Decided(rows, DuplicateSuspected) && exists r :: DR.Names(scoring, r) && !DR.Decided(before, r)
  {
    var raised: seq<ER.Raised> :| ER.Reports(x, t, raised) && ER.Evaluated(rows, raised, rows');
    ER.OpenAfterEvaluation(rows, x, t, raised, rows');
    assert DuplicateSuspected in ER.OpenCodes(rows') <==> ER.IsOpen(rows', DuplicateSuspected);
    forall r ensures DR.Outstanding(x.duplicates, r) <==> DR.Names(scoring, r) && !DR.Decided(before, r) {
      DR.OutstandingAfterRescan(before, scoring, x.duplicates, r);
    }
  }

  /** What a completed run leaves asked: exactly whether something undecided scored. */
  lemma QuestionAfterRun(f: File, i: Inputs, g: File)
    requires Processed(f, i, Completes, g)
    ensures ER.IsOpen(g.exceptions, DuplicateSuspected) <==>
      && !ER.Decided(f.exceptions, DuplicateSuspected)
      && exists r :: DR.Names(ScoringFor(g.fields.values, i, g.binding.policyId), r) && !DR.Decided(f.duplicates, r)
  {
    QuestionAfterRescan(f.duplicates, ScoringFor(g.fields.values, i, g.binding.policyId), FindingsFor(g.fields.values, i, g.binding, g.duplicates),
                        i.thresholds, f.exceptions, g.exceptions);
  }

  // ---------------------------------------------------------------------------
  // What a clear run says about the policy
  // ---------------------------------------------------------------------------

  predicate PolicyQuestionDecided(rows: ER.Rows) {
    ER.Decided(rows, NoPolicyMatch) || ER.Decided(rows, MultiplePolicyMatches) || ER.Decided(rows, UnconfirmedPolicyMatch)
  }

  lemma NoPolicyQuestionOpen(before: ER.Rows, x: ER.Findings, t: ER.Thresholds, after: ER.Rows)
    requires ER.Moves(before, ER.Evaluation(x, t), after)
    requires !PolicyQuestionDecided(before)
    requires BlockingCodes(ER.OpenCodes(after)) == []
    ensures x.policyConfirmed || x.strength == PM.Exact
  {
    var raised: seq<ER.Raised> :| ER.Reports(x, t, raised) && ER.Evaluated(before, raised, after);
    ER.OpenAfterEvaluation(before, x, t, raised, after);
    NothingOpenBlocks(ER.OpenCodes(after), NoPolicyMatch);
    NothingOpenBlocks(ER.OpenCodes(after), MultiplePolicyMatches);
    NothingOpenBlocks(ER.OpenCodes(after), UnconfirmedPolicyMatch);
  }

  lemma NothingOpenBlocks(open: set<ExceptionCode>, code: ExceptionCode)
    requires BlockingCodes(open) == [] && IsBlocking(code)
    ensures code !in open
  {
    assert code !in BlockingCodes(open);
  }

  /**
   * When a completed run leaves nothing blocking and no officer waved a policy question
   * through, the policy is settled: confirmed by an officer and selected, or bound to the
   * one policy of the pool that matches exactly, with no rival identified at or above the
   * high threshold.
   */
  lemma ClearRunSettlesPolicy(f: File, i: Inputs, g: File) returns (k: nat)
    requires Processed(f, i, Completes, g) && Settled(f)
    requires !PolicyQuestionDecided(f.exceptions) && i.config.candidate <= i.config.high
    requires BlockingCodes(ER.OpenCodes(g.exceptions)) == []
    ensures g.binding.policyId.Some?
    ensures g.binding.confirmed ==>
      g.binding.policyId.value in g.binding.rows && g.binding.rows[g.binding.policyId.value].selected
    ensures !g.binding.confirmed ==>
      && k < |i.pool| && g.binding.policyId == Some(i.pool[k].id)
      && forall m :: 0 <= m < |i.pool| && m != k ==> !PR.IsRival(PM.ScorePolicy(NoticeOf(g.fields.values, i.lineOfBusiness), i.pool[m], i.config), i.config)
  {
    ProcessedKeepsSettled(f, i, Completes, g);
    NoPolicyQuestionOpen(f.exceptions, FindingsFor(g.fields.values, i, g.binding, g.duplicates), i.thresholds, g.exceptions);
    k := 0;
    if !g.binding.confirmed {
      k := PR.ExactIsUnambiguous(NoticeOf(g.fields.values, i.lineOfBusiness), i.pool, i.config, PB.SHOWN);
    }
  }

  // ---------------------------------------------------------------------------
  // Terminal statuses
  // ---------------------------------------------------------------------------

  /** A run of this action that stops on an error. */
  predicate FailsIn(f: File, a: Action) { RunBy(f, a).Some? && RunBy(f, a).value.outcome != Completes }

  /** A claim is made of this notice. */
  predicate Converts(f: File, a: Action) { a.BecomeClaim? && BecomesClaim(f, a.otherFactsPresent) }

  /**
   * Terminal statuses are not absorbing, and this is exactly how one is left: a run that
   * fails, a cancelled notice marked a duplicate, or a rejected or cancelled one made into
   * a claim.
   */
  lemma HowTerminalIsLeft(f: File, a: Action, g: File)
    requires Moves(f, a, g) && IsTerminal(f.status)
    ensures g.status != f.status <==>
      || FailsIn(f, a)
      || Converts(f, a)
      || (f.status == Cancelled && a.DecideDuplicate? && a.resolution == DR.MarkedDuplicate && a.reference in f.duplicates)
  {
    if RunBy(f, a).Some? {
      RunStartsFrom(f, a);
    } else {
      HowDirectLeaves(f, a);
    }
  }

  lemma HowDirectLeaves(f: File, a: Action)
    requires IsTerminal(f.status) && RunBy(f, a).None?
    ensures Direct(f, a).status != f.status <==>
      || Converts(f, a)
      || (f.status == Cancelled && a.DecideDuplicate? && a.resolution == DR.MarkedDuplicate && a.reference in f.duplicates)
  {
  }

  lemma ConvertedStep(files: seq<File>, actions: seq<Action>, k: nat)
    requires IsRun(files, actions) && k < |actions| && files[k].converted
    ensures files[k + 1].converted
  {
    RunStep(files, actions, k);
    if RunBy(files[k], actions[k]).Some? { RunStartsFrom(files[k], actions[k]); }
  }

  /** A converted notice is never converted again, even after a failed run moved its status. */
  lemma {:induction false} ConvertedOnce(files: seq<File>, actions: seq<Action>, j: nat, k: nat)
    requires IsRun(files, actions) && j <= k < |files| && files[j].converted
    ensures files[k].converted && (k < |actions| ==> !Converts(files[k], actions[k]))
    decreases k - j
  {
    if j < k {
      ConvertedOnce(files, actions, j, k - 1);
      ConvertedStep(files, actions, k - 1);
    }
  }
}
