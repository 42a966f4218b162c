/**
 * A pipeline run as its session carries it out, while others act on the same notice.
 *
 * Loading a notice loads its fields, matches, candidates and exceptions with it
 * (app/models/fnol.py). The session locks nothing before its first flush and flushes only
 * when told to (app/db/session.py). From that first flush, which always writes the notice,
 * it holds the notice's lock until it commits. Its later queries find the rows there are by
 * then, but a row it has loaded before stays as it was loaded. A flush writes the columns
 * whose value the session changed, and inserts and deletes rows by key; what it cannot
 * write rolls the whole run back.
 *
 * So a run meets the notice at three moments: as loaded, `seen`; as looked up under the
 * lock, `looked`; and as its flush finds it, `met`. Everything may have happened between
 * the first two, other runs included. Between the last two come only decisions that leave
 * the notice itself as it is.
 */
module Sessions {
  import opened Wrappers
  import opened Lifecycle
  import FS = FieldStore
  import FT = FieldTheorems
  import PB = PolicyBinding
  import DR = DuplicateReview
  import ER = ExceptionReview
  import NP = NoticePipeline
  import NT = NoticeTheorems

  // ---------------------------------------------------------------------------
  // One table
  // ---------------------------------------------------------------------------

  /** A column after the flush: written if the session changed it, and otherwise as it stood. */
  function Written<T(==)>(held: T, new_: T, met: T): T { if new_ == held then met else new_ }

  /** What the session puts into a column repeats what it held, or what stands there. */
  predicate Harmless<T(==)>(new_: T, held: T, met: T) { new_ == held || new_ == met }

  lemma WrittenAsMetExactlyWhen<T>(held: T, new_: T, met: T)
    ensures Written(held, new_, met) == met <==> Harmless(new_, held, met)
    ensures Written(held, new_, met) == new_ <==> new_ != held || met == new_
  {
  }

  /**
   * What the session's queries return: the rows there are, those it had loaded as it had
   * loaded them. A row that was deleted and entered anew counts as not loaded.
   */
  function View<K, R>(seen: map<K, R>, looked: map<K, R>): map<K, R> {
    map k <- looked :: if k in seen then seen[k] else looked[k]
  }

  /**
   * A table after the flush of a session that held `view` and made `new_` of it. The first
   * clause says the flush goes through: a changed row is still there, and a new one was
   * entered by nobody else.
   */
  ghost predicate Flushed<K(!new), R>(view: map<K, R>, new_: map<K, R>, met: map<K, R>, columns: (R, R, R) -> R, after: map<K, R>) {
    && (forall k <- new_ :: if k in view then k in met || new_[k] == view[k] else k !in met)
    && (forall k :: k in after <==> if k in view then k in new_ && k in met else k in new_ || k in met)
    && (forall k <- after ::
          after[k] == if k in view then columns(view[k], new_[k], met[k]) else if k in met then met[k] else new_[k])
  }

  /** These columns are left as they stand by a session that would write what stands there. */
  ghost predicate Columnwise<R(!new)>(columns: (R, R, R) -> R) {
    forall held, row :: columns(held, row, row) == row && columns(row, held, row) == held
  }

  /** A session that makes of the table what it has become meanwhile leaves it so. */
  lemma FlushingWhatStands<K(!new), R(!new)>(view: map<K, R>, met: map<K, R>, columns: (R, R, R) -> R, after: map<K, R>)
    requires Columnwise(columns) && view.Keys == met.Keys
    ensures Flushed(view, met, met, columns, after) <==> after == met
  {
  }

  /** And one whose table nobody else touched leaves what it made of it. */
  lemma FlushingAlone<K(!new), R(!new)>(rows: map<K, R>, new_: map<K, R>, columns: (R, R, R) -> R, after: map<K, R>)
    requires Columnwise(columns)
    ensures Flushed(rows, new_, rows, columns, after) <==> after == new_
  {
  }

  // ---------------------------------------------------------------------------
  // The tables of a notice
  // ---------------------------------------------------------------------------

  function FieldColumns(held: FS.Row, new_: FS.Row, met: FS.Row): FS.Row {
    FS.Row(
      Written(held.valueText, new_.valueText, met.valueText), Written(held.confidence, new_.confidence, met.confidence),
      Written(held.source, new_.source, met.source), Written(held.evidence, new_.evidence, met.evidence),
      Written(held.humanModified, new_.humanModified, met.humanModified),
      Written(held.originalValue, new_.originalValue, met.originalValue),
      Written(held.modifiedBy, new_.modifiedBy, met.modifiedBy), Written(held.reason, new_.reason, met.reason))
  }

  function MatchColumns(held: PB.Row, new_: PB.Row, met: PB.Row): PB.Row {
    PB.Row(
      Written(held.strength, new_.strength, met.strength), Written(held.score, new_.score, met.score),
      Written(held.rank, new_.rank, met.rank), Written(held.selected, new_.selected, met.selected),
      Written(held.selectedBy, new_.selectedBy, met.selectedBy))
  }

  function CandidateColumns(held: DR.Row, new_: DR.Row, met: DR.Row): DR.Row {
    DR.Row(
      Written(held.kind, new_.kind, met.kind), Written(held.score, new_.score, met.score),
      Written(held.resolution, new_.resolution, met.resolution), Written(held.resolvedBy, new_.resolvedBy, met.resolvedBy),
      Written(held.note, new_.note, met.note))
  }

  function ExceptionColumns(held: ER.Row, new_: ER.Row, met: ER.Row): ER.Row {
    ER.Row(
      Written(held.level, new_.level, met.level), Written(held.blocking, new_.blocking, met.blocking),
      Written(held.standing, new_.standing, met.standing), Written(held.resolvedBy, new_.resolvedBy, met.resolvedBy),
      Written(held.note, new_.note, met.note))
  }

  function FlagIn(f: FS.Fields, flag: FS.Flag): Option<bool> { if flag in f.flags then Some(f.flags[flag]) else None }

  /** Rows of their own for the texts; the values are columns of the notice itself. */
  ghost predicate FieldsFlushed(view: FS.Fields, new_: FS.Fields, met: FS.Fields, g: FS.Fields) {
    && Flushed(view.rows, new_.rows, met.rows, FieldColumns, g.rows)
    && (forall p: FS.Path :: g.Get(p) == Written(view.Get(p), new_.Get(p), met.Get(p)))
    && (forall flag: FS.Flag :: FlagIn(g, flag) == Written(FlagIn(view, flag), FlagIn(new_, flag), FlagIn(met, flag)))
    && g.currency == Written(view.currency, new_.currency, met.currency)
  }

  ghost predicate BindingFlushed(view: PB.Binding, new_: PB.Binding, met: PB.Binding, g: PB.Binding) {
    && Flushed(view.rows, new_.rows, met.rows, MatchColumns, g.rows)
    && g.policyId == Written(view.policyId, new_.policyId, met.policyId)
    && g.confirmed == Written(view.confirmed, new_.confirmed, met.confirmed)
  }

  function FieldsView(seen: FS.Fields, looked: FS.Fields): FS.Fields { seen.(rows := View(seen.rows, looked.rows)) }

  function BindingView(seen: PB.Binding, looked: PB.Binding): PB.Binding { seen.(rows := View(seen.rows, looked.rows)) }

  // ---------------------------------------------------------------------------
  // A whole run
  // ---------------------------------------------------------------------------

  /** The notice as the session works on it. */
  function Loaded(seen: NP.File, looked: NP.File): NP.File {
    NP.File(
      seen.status, seen.converted, FieldsView(seen.fields, looked.fields), BindingView(seen.binding, looked.binding),
      View(seen.duplicates, looked.duplicates), View(seen.exceptions, looked.exceptions))
  }

  /** Written at the start if the notice was new, and at the end if the found status is another. */
  function StatusWritten(seen: Status, found: Status, met: Status): Status {
    Written(NP.Started(seen), found, Written(seen, NP.Started(seen), met))
  }

  /** The status a run ends with, from the open exceptions it reads from the table itself. */
  function StatusFound(seen: Status, i: NP.Inputs, outcome: NP.Outcome, exceptions: ER.Rows): Status {
    if outcome != NP.Completes then AiProcessingFailed
    else DeriveStatus(NP.Started(seen), ER.OpenCodes(exceptions), i.facts.extractionFailed)
  }

  /** A session that worked on `f` and made `h` of it flushes its tables onto `met`. */
  ghost predicate TablesFlushed(f: NP.File, h: NP.File, met: NP.File, g: NP.File) {
    && FieldsFlushed(f.fields, h.fields, met.fields, g.fields)
    && BindingFlushed(f.binding, h.binding, met.binding, g.binding)
    && Flushed(f.duplicates, h.duplicates, met.duplicates, CandidateColumns, g.duplicates)
    && Flushed(f.exceptions, h.exceptions, met.exceptions, ExceptionColumns, g.exceptions)
  }

  /** The run makes `h` of the notice as its session has it, its status apart, and its flush leaves `g`. */
  ghost predicate RanOn(
    seen: NP.File, looked: NP.File, i: NP.Inputs, outcome: NP.Outcome, h: NP.File, met: NP.File, g: NP.File)
  {
    && NP.Processed(Loaded(seen, looked), i, outcome, h)
    && TablesFlushed(Loaded(seen, looked), h, met, g)
    && g.status == StatusWritten(seen.status, StatusFound(seen.status, i, outcome, g.exceptions), met.status)
    && g.converted == met.converted
  }

  // ---------------------------------------------------------------------------
  // What the others may have done
  // ---------------------------------------------------------------------------

  /** What had been decided when the session loaded it still is, if it is still there. */
  ghost predicate StillDecided(seen: NP.File, looked: NP.File) {
    && (forall code <- looked.exceptions :: ER.Decided(seen.exceptions, code) ==> ER.Decided(looked.exceptions, code))
    && (forall r <- looked.duplicates :: DR.Decided(seen.duplicates, r) ==> DR.Decided(looked.duplicates, r))
  }

  ghost predicate CandidatesDecided(before: DR.Rows, after: DR.Rows) {
    && after.Keys == before.Keys
    && forall r <- after ::
         && after[r].kind == before[r].kind && after[r].score == before[r].score
         && (after[r] == before[r] || DR.Decided(after, r))
  }

  /** Open rows were decided, or the question about duplicates closed, which deletes its row. */
  ghost predicate ExceptionsDecided(before: ER.Rows, after: ER.Rows) {
    && after.Keys <= before.Keys
    && (forall code <- before :: code !in after ==> ER.IsOpen(before, code))
    && (forall code <- after ::
          && after[code].level == before[code].level && after[code].blocking == before[code].blocking
          && (after[code] == before[code] || (ER.IsOpen(before, code) && ER.Decided(after, code))))
  }

  /** Decisions only, none of which moved the notice. */
  ghost predicate OnlyDecided(looked: NP.File, met: NP.File) {
    && met == looked.(duplicates := met.duplicates, exceptions := met.exceptions)
    && CandidatesDecided(looked.duplicates, met.duplicates)
    && ExceptionsDecided(looked.exceptions, met.exceptions)
  }

  predicate IsDecision(a: NP.Action) { a.DecideException? || a.DecideDuplicate? }

  lemma DecidingDecides(rows: ER.Rows, code: ExceptionCode, standing: ER.Standing, officer: string, note: Option<string>)
    requires standing != ER.Open && ER.IsOpen(rows, code)
    ensures ExceptionsDecided(rows, ER.AfterDecision(rows, code, standing, officer, note))
  {
  }

  lemma ExceptionDecides(f: NP.File, code: ExceptionCode, standing: ER.Standing, officer: string, note: Option<string>, g: NP.File)
    requires standing != ER.Open && g == NP.AfterException(f, code, standing, officer, note)
    ensures g.duplicates == f.duplicates && ExceptionsDecided(f.exceptions, g.exceptions)
    ensures g == f.(status := g.status, exceptions := g.exceptions)
  {
    if ER.IsOpen(f.exceptions, code) {
      var decided := f.(exceptions := ER.AfterDecision(f.exceptions, code, standing, officer, note));
      assert g == NP.Refresh(decided);
      DecidingDecides(f.exceptions, code, standing, officer, note);
    }
  }

  lemma ResolvingDecides(rows: DR.Rows, r: string, d: DR.Resolution, officer: string, note: Option<string>)
    requires r in rows && d != DR.Unresolved
    ensures CandidatesDecided(rows, DR.AfterDecision(rows, r, d, officer, note))
  {
  }

  lemma ClearingDecides(rows: ER.Rows, code: ExceptionCode)
    ensures ExceptionsDecided(rows, rows) && ExceptionsDecided(rows, ER.AfterClear(rows, code))
  {
  }

  lemma DuplicateDecides(f: NP.File, r: string, d: DR.Resolution, officer: string, note: Option<string>, g: NP.File)
    requires d != DR.Unresolved && g == NP.AfterDuplicate(f, r, d, officer, note)
    ensures CandidatesDecided(f.duplicates, g.duplicates) && ExceptionsDecided(f.exceptions, g.exceptions)
    ensures g == f.(status := g.status, duplicates := g.duplicates, exceptions := g.exceptions)
  {
    ClearingDecides(f.exceptions, DuplicateSuspected);
    if f.status != ClaimCreated && r in f.duplicates {
      ResolvingDecides(f.duplicates, r, d, officer, note);
      var decided := f.(duplicates := DR.AfterDecision(f.duplicates, r, d, officer, note));
      var closed := decided.(exceptions := ER.AfterClear(f.exceptions, DuplicateSuspected));
      assert g == NP.Refresh(decided.(status := Rejected)) || g == NP.Refresh(decided) || g == NP.Refresh(closed);
    }
  }

  /** An officer's decision decides a row, and may close the question about duplicates and move the notice. */
  lemma DecisionDecides(f: NP.File, a: NP.Action, g: NP.File)
    requires NP.Moves(f, a, g) && IsDecision(a)
    ensures CandidatesDecided(f.duplicates, g.duplicates) && ExceptionsDecided(f.exceptions, g.exceptions)
    ensures g.status == f.status ==> OnlyDecided(f, g)
  {
    match a
    case DecideException(code, standing, officer, note) => ExceptionDecides(f, code, standing, officer, note, g);
    case DecideDuplicate(r, d, officer, note) => DuplicateDecides(f, r, d, officer, note, g);
  }

  lemma DecisionsCompose(f: NP.File, g: NP.File, h: NP.File)
    ensures CandidatesDecided(f.duplicates, g.duplicates) && CandidatesDecided(g.duplicates, h.duplicates) ==>
      CandidatesDecided(f.duplicates, h.duplicates)
    ensures ExceptionsDecided(f.exceptions, g.exceptions) && ExceptionsDecided(g.exceptions, h.exceptions) ==>
      ExceptionsDecided(f.exceptions, h.exceptions)
    ensures OnlyDecided(f, g) && OnlyDecided(g, h) ==> OnlyDecided(f, h)
  {
  }

  /** What the session holds is then as old as what it loaded. */
  lemma ViewOfDecided(seen: NP.File, looked: NP.File, met: NP.File)
    ensures CandidatesDecided(seen.duplicates, looked.duplicates) && CandidatesDecided(looked.duplicates, met.duplicates) ==>
      CandidatesDecided(View(seen.duplicates, looked.duplicates), met.duplicates)
    ensures ExceptionsDecided(seen.exceptions, looked.exceptions) && ExceptionsDecided(looked.exceptions, met.exceptions) ==>
      ExceptionsDecided(View(seen.exceptions, looked.exceptions), met.exceptions)
  {
  }

  /** Nor does any action whatever, run or not, undo what had been decided. */
  lemma {:induction false} ActionsKeepDecisions(files: seq<NP.File>, actions: seq<NP.Action>, j: nat, k: nat)
    requires NT.IsRun(files, actions) && j <= k < |files|
    ensures StillDecided(files[j], files[k])
  {
    forall code | code in files[k].exceptions && ER.Decided(files[j].exceptions, code) ensures ER.Decided(files[k].exceptions, code) {
      NT.ExceptionDecisionStands(files, actions, code, j, k);
    }
    forall r | r in files[k].duplicates && DR.Decided(files[j].duplicates, r) ensures DR.Decided(files[k].duplicates, r) {
      NT.DuplicateDecisionStands(files, actions, r, j, k);
    }
  }

  // ---------------------------------------------------------------------------
  // A run nobody interferes with
  // ---------------------------------------------------------------------------

  lemma SameFields(f: FS.Fields, g: FS.Fields)
    requires f.rows == g.rows && f.currency == g.currency
    requires forall p: FS.Path :: f.Get(p) == g.Get(p)
    requires forall flag: FS.Flag :: FlagIn(f, flag) == FlagIn(g, flag)
    ensures f == g
  {
    assert forall p: FS.Path :: p in f.values <==> f.Get(p).Some?;
    assert forall p: FS.Path :: p in g.values <==> g.Get(p).Some?;
    assert forall p <- f.values :: f.Get(p) == Some(f.values[p]) && g.Get(p) == Some(g.values[p]);
    assert forall flag: FS.Flag :: flag in f.flags <==> FlagIn(f, flag).Some?;
    assert forall flag: FS.Flag :: flag in g.flags <==> FlagIn(g, flag).Some?;
    assert forall flag <- f.flags :: FlagIn(f, flag) == Some(f.flags[flag]) && FlagIn(g, flag) == Some(g.flags[flag]);
    assert f.values == g.values && f.flags == g.flags;
  }

  lemma FieldsAlone(f: FS.Fields, new_: FS.Fields, g: FS.Fields)
    ensures FieldsFlushed(f, new_, f, g) <==> g == new_
  {
    FlushingAlone(f.rows, new_.rows, FieldColumns, g.rows);
    if FieldsFlushed(f, new_, f, g) { SameFields(g, new_); }
  }

  lemma BindingAlone(f: PB.Binding, new_: PB.Binding, g: PB.Binding)
    ensures BindingFlushed(f, new_, f, g) <==> g == new_
  {
    FlushingAlone(f.rows, new_.rows, MatchColumns, g.rows);
  }

  lemma StatusAlone(f: NP.File, i: NP.Inputs, outcome: NP.Outcome, h: NP.File)
    requires NP.Processed(f, i, outcome, h)
    ensures h.status == StatusWritten(f.status, StatusFound(f.status, i, outcome, h.exceptions), f.status)
    ensures h.converted == f.converted
  {
  }

  /** When nobody else acts, writing back what the session changed is the run as one action. */
  lemma AloneItIsOneAction(f: NP.File, i: NP.Inputs, outcome: NP.Outcome, h: NP.File, g: NP.File)
    ensures RanOn(f, f, i, outcome, h, f, g) <==> NP.Processed(f, i, outcome, h) && g == h
  {
    assert Loaded(f, f) == f;
    FieldsAlone(f.fields, h.fields, g.fields);
    BindingAlone(f.binding, h.binding, g.binding);
    FlushingAlone(f.duplicates, h.duplicates, CandidateColumns, g.duplicates);
    FlushingAlone(f.exceptions, h.exceptions, ExceptionColumns, g.exceptions);
    if NP.Processed(f, i, outcome, h) { StatusAlone(f, i, outcome, h); }
  }
}
