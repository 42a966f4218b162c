/**
 * Claim creation, intake and revision as concurrent transactions under READ COMMITTED.
 *
 * One step is one statement of one transaction. A statement sees the committed tables
 * and its own transaction's uncommitted writes, which live in the transaction's phase.
 * A row lock is held from the statement that takes it until the transaction ends, so
 * the set of held locks is read off the phases.
 *
 * Create follows ClaimCreationService.create, Ingest follows FNOLIngestionService.ingest.
 * Revise is a pipeline run or an officer's edit as far as the notice's own row goes: it
 * locks that row and may commit any new contents except the link to a claim. The rows a
 * revision locks beside it are the subject of RevisionLocks.
 *
 * CloseException is the commit of a decision on an exception, which reads and writes no
 * column of the notice; a decision that moves the status besides is also a revision.
 *
 * A create loads the notice before it locks it, and its session keeps the columns it
 * loaded: the locking read does not refresh them.
 */
module ClaimProtocol {
  import opened Wrappers
  import opened References
  import opened Lifecycle
  import opened ClaimTables

  type TxId = nat

  datatype Job =
    | Create(notice: NoticeId, year: nat, actor: string)
    | Ingest(draft: Draft, year: nat)
    | Revise(notice: NoticeId)

  datatype Outcome =
    | Created(id: nat)
    | Existing(id: nat)
    | Revised
    | Refused
    | RolledBack

  datatype Phase =
    | Begun
    | NoticeLocked                      // SELECT ... FOR UPDATE, or the first flush
    | NoClaimFound                      // the notice is not converted yet
    | Cleared                           // nothing blocks; or no earlier delivery was found
    | CounterPresent(inserted: bool)    // INSERT ... ON CONFLICT DO NOTHING
    | Numbered(seqNo: nat, inserted: bool)   // counter row locked and incremented
    | Written(seqNo: nat, inserted: bool, id: nat)  // rows flushed, not committed
    | Finished(outcome: Outcome)

  /** `seen` is the notice as a create's first read found it. */
  datatype Tx = Tx(job: Job, phase: Phase, seen: Option<Notice>)

  function FirstRead(db: Db, job: Job): Option<Notice> {
    if job.Create? && job.notice in db.notices then Some(db.notices[job.notice]) else None
  }

  datatype System = System(db: Db, txs: map<TxId, Tx>)

  /** The counter row a job allocates from. */
  function Counter(job: Job): CounterKey
    requires !job.Revise?
  {
    if job.Create? then CounterKey(CLAIM_PREFIX, job.year) else CounterKey(FNOL_PREFIX, job.year)
  }

  predicate HoldsNotice(tx: Tx, n: NoticeId) {
    !tx.job.Ingest? && tx.job.notice == n && !tx.phase.Begun? && !tx.phase.Finished?
  }

  /** Inserting the counter row locks it, and so does selecting it for update. */
  predicate HoldsCounter(tx: Tx, k: CounterKey) {
    && !tx.job.Revise? && Counter(tx.job) == k
    && ((tx.phase.CounterPresent? && tx.phase.inserted) || tx.phase.Numbered? || tx.phase.Written?)
  }

  predicate NoticeFree(s: System, n: NoticeId) {
    forall t <- s.txs :: !HoldsNotice(s.txs[t], n)
  }

  /** Free to transaction `t`: nobody else holds the row. */
  predicate CounterFree(s: System, t: TxId, k: CounterKey) {
    forall u <- s.txs :: u != t ==> !HoldsCounter(s.txs[u], k)
  }

  /** Another transaction's uncommitted notice has a key this one is about to insert. */
  predicate InsertWaits(s: System, t: TxId) {
    && t in s.txs && s.txs[t].job.Ingest?
    && exists u <- s.txs :: u != t && s.txs[u].job.Ingest? && s.txs[u].phase.Written?
        && Clash(s.txs[t].job.draft, s.txs[u].job.draft)
  }

  predicate Clash(d: Draft, e: Draft) {
    SameDelivery(d.idempotencyKey, e.idempotencyKey, d.messageId, e.messageId)
  }

  /** A unique constraint would reject the insert against the committed tables. */
  predicate ClaimConstraintFires(db: Db, n: NoticeId, r: Reference) {
    exists c <- db.claims :: db.claims[c].noticeId == n || db.claims[c].reference.Text() == r.Text()
  }

  predicate NoticeConstraintFires(db: Db, d: Draft, r: Reference) {
    exists n <- db.notices :: Redelivers(d, db.notices[n]) || db.notices[n].reference.Text() == r.Text()
  }

  datatype Step =
    | Begin(t: TxId, job: Job)
    | LockNotice(t: TxId)
    | LookForClaim(t: TxId)
    | CheckBlockers(t: TxId)
    | LookForDelivery(t: TxId)
    | EnsureCounter(t: TxId)
    | TakeNumber(t: TxId)
    | Write(t: TxId, id: nat)
    | Commit(t: TxId)
    | CommitRevision(t: TxId, contents: Notice)
    | Rollback(t: TxId)
    | CloseException(notice: NoticeId, code: ExceptionCode)

  /** Revisions never touch the row's identity or its link to a claim. */
  predicate IsRevisionOf(before: Notice, after: Notice) {
    && after.reference == before.reference && after.claimId == before.claimId
    && after.idempotencyKey == before.idempotencyKey && after.messageId == before.messageId
  }

  /** An id drawn at random collides with nothing, committed or not. */
  predicate Fresh(s: System, id: nat) {
    && id !in s.db.claims && id !in s.db.notices
    && forall t <- s.txs :: s.txs[t].phase.Written? ==> s.txs[t].phase.id != id
  }

  predicate Enabled(s: System, step: Step) {
    match step
    case Begin(t, _) => t !in s.txs
    case CloseException(n, _) => n in s.db.notices
    case LockNotice(t) =>
      && t in s.txs && !s.txs[t].job.Ingest? && s.txs[t].phase.Begun?
      && NoticeFree(s, s.txs[t].job.notice)
    case LookForClaim(t) =>
      && t in s.txs && s.txs[t].job.Create? && s.txs[t].phase.NoticeLocked?
      && s.txs[t].seen.Some?
    case CheckBlockers(t) =>
      && t in s.txs && s.txs[t].job.Create? && s.txs[t].phase.NoClaimFound?
      && s.txs[t].job.notice in s.db.notices && s.txs[t].seen.Some?
    case LookForDelivery(t) => t in s.txs && s.txs[t].job.Ingest? && s.txs[t].phase.Begun?
    case EnsureCounter(t) =>
      && t in s.txs && !s.txs[t].job.Revise? && s.txs[t].phase.Cleared?
      && var k := Counter(s.txs[t].job); (k in s.db.counters || CounterFree(s, t, k))
    case TakeNumber(t) =>
      && t in s.txs && !s.txs[t].job.Revise? && s.txs[t].phase.CounterPresent?
      && CounterFree(s, t, Counter(s.txs[t].job))
    case Write(t, id) =>
      && t in s.txs && !s.txs[t].job.Revise? && s.txs[t].phase.Numbered?
      && Fresh(s, id) && !InsertWaits(s, t)
    case Commit(t) =>
      && t in s.txs && !s.txs[t].job.Revise? && s.txs[t].phase.Written?
      && (s.txs[t].job.Create? ==> s.txs[t].job.notice in s.db.notices && s.txs[t].seen.Some?)
    case CommitRevision(t, contents) =>
      && t in s.txs && s.txs[t].job.Revise? && s.txs[t].phase.NoticeLocked?
      && s.txs[t].job.notice in s.db.notices
      && IsRevisionOf(s.db.notices[s.txs[t].job.notice], contents)
    case Rollback(t) => t in s.txs && !s.txs[t].phase.Finished?
  }

  function At(s: System, t: TxId, phase: Phase): System
    requires t in s.txs
  {
    s.(txs := s.txs[t := s.txs[t].(phase := phase)])
  }

  ghost function AfterLookForClaim(db: Db, n: NoticeId, seen: Notice): Phase
  {
    if exists c <- db.claims :: db.claims[c].noticeId == n then
      var c :| c in db.claims && db.claims[c].noticeId == n;
      Finished(Existing(c))
    else if seen.status == ClaimCreated then Finished(Refused)
    else NoClaimFound
  }

  /** `find_existing`: the idempotency key first, then the message id; empty keys find nothing. */
  predicate Finds(key: Option<string>, stored: Option<string>) {
    key.Some? && key.value != "" && key == stored
  }

  ghost function AfterLookForDelivery(db: Db, d: Draft): Phase {
    if exists n <- db.notices :: Finds(d.idempotencyKey, db.notices[n].idempotencyKey) then
      var n :| n in db.notices && Finds(d.idempotencyKey, db.notices[n].idempotencyKey);
      Finished(Existing(n))
    else if exists n <- db.notices :: Finds(d.messageId, db.notices[n].messageId) then
      var n :| n in db.notices && Finds(d.messageId, db.notices[n].messageId);
      Finished(Existing(n))
    else Cleared
  }

  function AfterWrite(db: Db, job: Job, seqNo: nat, inserted: bool, id: nat): Phase
    requires !job.Revise?
  {
    var r := ClaimTables.Numbered(Counter(job), seqNo);
    if job.Create? && ClaimConstraintFires(db, job.notice, r) then Finished(RolledBack)
    else if job.Ingest? && NoticeConstraintFires(db, job.draft, r) then Finished(RolledBack)
    else Written(seqNo, inserted, id)
  }

  function AfterCommit(db: Db, job: Job, seen: Option<Notice>, seqNo: nat, id: nat): Db
    requires !job.Revise? && (job.Create? ==> job.notice in db.notices && seen.Some?)
  {
    match job
    case Create(n, _, actor) => ConvertAs(db, n, seen.value, Counter(job), seqNo, id, actor)
    case Ingest(d, _) => Admit(db, d, Counter(job), seqNo, id)
  }

  /** The state after an enabled step. */
  ghost function Apply(s: System, step: Step): System
    requires Enabled(s, step)
  {
    match step
    case Begin(t, job) => s.(txs := s.txs[t := Tx(job, Begun, FirstRead(s.db, job))])
    case CloseException(n, code) =>
      var row := s.db.notices[n];
      s.(db := s.db.(notices := s.db.notices[n := row.(open := row.open - {code})]))
    case LockNotice(t) =>
      var tx := s.txs[t];
      At(s, t, if tx.job.notice in s.db.notices && (tx.job.Create? ==> tx.seen.Some?) then NoticeLocked else Finished(Refused))
    case LookForClaim(t) => At(s, t, AfterLookForClaim(s.db, s.txs[t].job.notice, s.txs[t].seen.value))
    case CheckBlockers(t) =>
      At(s, t, if Ready(AsSeen(s.txs[t].seen.value, s.db.notices[s.txs[t].job.notice])) then Cleared else Finished(Refused))
    case LookForDelivery(t) => At(s, t, AfterLookForDelivery(s.db, s.txs[t].job.draft))
    case EnsureCounter(t) => At(s, t, CounterPresent(Counter(s.txs[t].job) !in s.db.counters))
    case TakeNumber(t) =>
      At(s, t, Numbered(s.db.LastValue(Counter(s.txs[t].job)) + 1, s.txs[t].phase.inserted))
    case Write(t, id) =>
      At(s, t, AfterWrite(s.db, s.txs[t].job, s.txs[t].phase.seqNo, s.txs[t].phase.inserted, id))
    case Commit(t) =>
      var p := s.txs[t].phase;
      At(s, t, Finished(Created(p.id))).(db := AfterCommit(s.db, s.txs[t].job, s.txs[t].seen, p.seqNo, p.id))
    case CommitRevision(t, contents) =>
      At(s, t, Finished(Revised)).(db := s.db.(notices := s.db.notices[s.txs[t].job.notice := contents]))
    case Rollback(t) => At(s, t, Finished(RolledBack))
  }

  const EMPTY := System(Db(map[], map[], map[], []), map[])

  /** A run: every state follows from the one before by an enabled step. */
  ghost predicate IsRun(states: seq<System>, steps: seq<Step>) {
    && |states| == |steps| + 1
    && states[0] == EMPTY
    && forall i :: 0 <= i < |steps| ==> Enabled(states[i], steps[i]) && states[i + 1] == Apply(states[i], steps[i])
  }
}
