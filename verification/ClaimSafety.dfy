/** The inductive invariant of the claim protocol, and what it says about every run. */
module ClaimSafety {
  import opened Wrappers
  import opened References
  import opened Lifecycle
  import opened ClaimTables
  import opened ClaimProtocol

  // ---------------------------------------------------------------------------
  // What the committed tables always satisfy
  // ---------------------------------------------------------------------------

  /** The claim and the notice point at each other. */
  ghost predicate Linked(db: Db) {
    && (forall c <- db.claims ::
          db.claims[c].noticeId in db.notices && db.notices[db.claims[c].noticeId].claimId == Some(c))
    && (forall n <- db.notices ::
          db.notices[n].claimId.Some? ==>
            db.notices[n].claimId.value in db.claims && db.claims[db.notices[n].claimId.value].noticeId == n)
  }

  /** Some committed row carries the number `n` of counter `k`. */
  ghost predicate Issued(db: Db, k: CounterKey, n: nat) {
    || (exists c <- db.claims :: db.claims[c].reference == ClaimTables.Numbered(k, n))
    || (exists m <- db.notices :: db.notices[m].reference == ClaimTables.Numbered(k, n))
  }

  /** Every committed reference lies in its counter's range, and no two rows share one. */
  ghost predicate NumbersUsedOnce(db: Db) {
    && (forall c <- db.claims ::
          var r := db.claims[c].reference;
          r.prefix == CLAIM_PREFIX && 1 <= r.sequence <= db.LastValue(KeyOf(r)))
    && (forall n <- db.notices ::
          var r := db.notices[n].reference;
          r.prefix == FNOL_PREFIX && 1 <= r.sequence <= db.LastValue(KeyOf(r)))
    && (forall c <- db.claims, c' <- db.claims :: db.claims[c].reference == db.claims[c'].reference ==> c == c')
    && (forall n <- db.notices, n' <- db.notices :: db.notices[n].reference == db.notices[n'].reference ==> n == n')
  }

  /** No number up to a counter's last value is missing. */
  ghost predicate NoGaps(db: Db) {
    forall k <- db.counters, i: nat :: 1 <= i <= db.counters[k] ==> Issued(db, k, i)
  }

  function CreatedCount(audit: seq<AuditEvent>, c: ClaimId): nat {
    if audit == [] then 0
    else (if audit[0].ClaimWasCreated? && audit[0].claim == c then 1 else 0) + CreatedCount(audit[1..], c)
  }

  /** One creation event for each claim, none for anything else. */
  ghost predicate AuditedOnce(db: Db) {
    forall c: ClaimId :: CreatedCount(db.audit, c) == if c in db.claims then 1 else 0
  }

  ghost predicate KeysUnique(db: Db) {
    forall n <- db.notices, n' <- db.notices :: n != n' ==>
      !SameDelivery(db.notices[n].idempotencyKey, db.notices[n'].idempotencyKey,
                    db.notices[n].messageId, db.notices[n'].messageId)
  }

  ghost predicate DbOk(db: Db) {
    Linked(db) && NumbersUsedOnce(db) && NoGaps(db) && AuditedOnce(db) && KeysUnique(db)
  }

  // ---------------------------------------------------------------------------
  // What a transaction in flight always satisfies
  // ---------------------------------------------------------------------------

  predicate PastLookup(p: Phase) {
    p.NoClaimFound? || p.Cleared? || p.CounterPresent? || p.Numbered? || p.Written?
  }

  predicate PastCheck(p: Phase) { p.Cleared? || p.CounterPresent? || p.Numbered? || p.Written? }

  ghost predicate TxOk(db: Db, tx: Tx) {
    && (!tx.job.Ingest? && !tx.phase.Begun? && !tx.phase.Finished? ==> tx.job.notice in db.notices)
    && (tx.job.Create? && PastLookup(tx.phase) ==> db.notices[tx.job.notice].claimId == None)
    && (tx.seen.Some? ==> tx.job.Create? && tx.job.notice in db.notices)
    && (tx.job.Create? && (tx.phase.NoticeLocked? || PastLookup(tx.phase)) ==> tx.seen.Some?)
    && (tx.job.Create? && PastCheck(tx.phase) ==> Ready(AsSeen(tx.seen.value, db.notices[tx.job.notice])))
    && (tx.job.Revise? ==> tx.phase.Begun? || tx.phase.NoticeLocked? || tx.phase.Finished?)
    && (tx.job.Ingest? ==> !tx.phase.NoticeLocked? && !tx.phase.NoClaimFound?)
    && (!tx.job.Revise? && (tx.phase.CounterPresent? || tx.phase.Numbered? || tx.phase.Written?) ==>
          tx.phase.inserted == (Counter(tx.job) !in db.counters))
    && (!tx.job.Revise? && (tx.phase.Numbered? || tx.phase.Written?) ==>
          tx.phase.seqNo == db.LastValue(Counter(tx.job)) + 1)
    && (tx.phase.Written? ==> tx.phase.id !in db.claims && tx.phase.id !in db.notices)
    && (tx.job.Ingest? && tx.phase.Written? ==>
          forall n <- db.notices :: !Redelivers(tx.job.draft, db.notices[n]))
    && (tx.job.Create? && tx.phase.Finished? && tx.phase.outcome.Created? ==>
          tx.phase.outcome.id in db.claims && db.claims[tx.phase.outcome.id].noticeId == tx.job.notice)
    && (tx.job.Create? && tx.phase.Finished? && tx.phase.outcome.Existing? ==>
          tx.phase.outcome.id in db.claims && db.claims[tx.phase.outcome.id].noticeId == tx.job.notice)
    && (tx.job.Ingest? && tx.phase.Finished? && (tx.phase.outcome.Existing? || tx.phase.outcome.Created?) ==>
          tx.phase.outcome.id in db.notices && Redelivered(tx.job.draft, tx.phase.outcome, db))
  }

  /** A delivery answered with an existing notice was answered with one carrying its key. */
  ghost predicate Redelivered(d: Draft, o: Outcome, db: Db) {
    o.Existing? && o.id in db.notices ==> Redelivers(d, db.notices[o.id])
  }

  /** Locks exclude, drawn ids differ, and pending intakes do not clash. */
  ghost predicate Exclusive(tx: Tx, ux: Tx) {
    && (!tx.job.Ingest? ==> !(HoldsNotice(tx, tx.job.notice) && HoldsNotice(ux, tx.job.notice)))
    && (!tx.job.Revise? ==> !(HoldsCounter(tx, Counter(tx.job)) && HoldsCounter(ux, Counter(tx.job))))
    && !(tx.phase.Written? && ux.phase.Written? && tx.phase.id == ux.phase.id)
    && !(tx.job.Ingest? && ux.job.Ingest? && tx.phase.Written? && ux.phase.Written?
         && Clash(tx.job.draft, ux.job.draft))
    && !(tx.job.Create? && ux.job.Create? && tx.phase == ux.phase && tx.phase.Finished? && tx.phase.outcome.Created?)
  }

  ghost predicate Inv(s: System) {
    && DbOk(s.db)
    && (forall t <- s.txs :: TxOk(s.db, s.txs[t]))
    && (forall t <- s.txs, u <- s.txs :: t != u ==> Exclusive(s.txs[t], s.txs[u]))
  }

  // ---------------------------------------------------------------------------
  // The invariant is kept by every step
  // ---------------------------------------------------------------------------

  /** A step that only moves one transaction forward. */
  lemma LocalStep(s: System, t: TxId, phase: Phase)
    requires Inv(s) && t in s.txs
    requires TxOk(s.db, s.txs[t].(phase := phase))
    requires forall u <- s.txs :: u != t ==>
      Exclusive(s.txs[t].(phase := phase), s.txs[u]) && Exclusive(s.txs[u], s.txs[t].(phase := phase))
    ensures Inv(At(s, t, phase))
  {
  }

  lemma LockNoticeKeepsInv(s: System, t: TxId)
    requires Inv(s) && Enabled(s, LockNotice(t))
    ensures Inv(Apply(s, LockNotice(t)))
  {
    LocalStep(s, t, Apply(s, LockNotice(t)).txs[t].phase);
  }

  lemma ExclusiveIsMutual(tx: Tx, ux: Tx)
    requires Exclusive(tx, ux)
    ensures Exclusive(ux, tx)
  {
  }

  lemma LookupIsOk(db: Db, tx: Tx)
    requires Linked(db) && TxOk(db, tx) && tx.job.Create? && tx.phase.NoticeLocked?
    ensures TxOk(db, tx.(phase := AfterLookForClaim(db, tx.job.notice, tx.seen.value)))
  {
  }

  lemma LookupIsExclusive(db: Db, tx: Tx, ux: Tx)
    requires Exclusive(tx, ux) && tx.job.Create? && tx.phase.NoticeLocked? && tx.seen.Some?
    ensures Exclusive(tx.(phase := AfterLookForClaim(db, tx.job.notice, tx.seen.value)), ux)
  {
  }

  lemma LookForClaimKeepsInv(s: System, t: TxId)
    requires Inv(s) && Enabled(s, LookForClaim(t))
    ensures Inv(Apply(s, LookForClaim(t)))
  {
    var tx := s.txs[t];
    var phase := AfterLookForClaim(s.db, tx.job.notice, tx.seen.value);
    LookupIsOk(s.db, tx);
    forall u <- s.txs | u != t
      ensures Exclusive(tx.(phase := phase), s.txs[u]) && Exclusive(s.txs[u], tx.(phase := phase))
    {
      LookupIsExclusive(s.db, tx, s.txs[u]);
      ExclusiveIsMutual(tx.(phase := phase), s.txs[u]);
    }
    LocalStep(s, t, phase);
  }

  lemma CheckBlockersKeepsInv(s: System, t: TxId)
    requires Inv(s) && Enabled(s, CheckBlockers(t))
    ensures Inv(Apply(s, CheckBlockers(t)))
  {
    LocalStep(s, t, Apply(s, CheckBlockers(t)).txs[t].phase);
  }

  lemma LookForDeliveryKeepsInv(s: System, t: TxId)
    requires Inv(s) && Enabled(s, LookForDelivery(t))
    ensures Inv(Apply(s, LookForDelivery(t)))
  {
    LocalStep(s, t, Apply(s, LookForDelivery(t)).txs[t].phase);
  }

  lemma EnsureCounterKeepsInv(s: System, t: TxId)
    requires Inv(s) && Enabled(s, EnsureCounter(t))
    ensures Inv(Apply(s, EnsureCounter(t)))
  {
    LocalStep(s, t, Apply(s, EnsureCounter(t)).txs[t].phase);
  }

  lemma TakeNumberKeepsInv(s: System, t: TxId)
    requires Inv(s) && Enabled(s, TakeNumber(t))
    ensures Inv(Apply(s, TakeNumber(t)))
  {
    LocalStep(s, t, Apply(s, TakeNumber(t)).txs[t].phase);
  }

  /** Written rows are in order with the tables, or the constraints rolled them back. */
  lemma WriteIsOk(db: Db, tx: Tx, id: nat)
    requires TxOk(db, tx) && !tx.job.Revise? && tx.phase.Numbered?
    requires id !in db.claims && id !in db.notices
    ensures TxOk(db, tx.(phase := AfterWrite(db, tx.job, tx.phase.seqNo, tx.phase.inserted, id)))
  {
  }

  lemma WriteIsExclusive(db: Db, tx: Tx, ux: Tx, id: nat)
    requires Exclusive(tx, ux) && !tx.job.Revise? && tx.phase.Numbered?
    requires ux.phase.Written? ==> ux.phase.id != id
    requires !(tx.job.Ingest? && ux.job.Ingest? && ux.phase.Written? && Clash(tx.job.draft, ux.job.draft))
    ensures Exclusive(tx.(phase := AfterWrite(db, tx.job, tx.phase.seqNo, tx.phase.inserted, id)), ux)
  {
  }

  lemma WriteKeepsInv(s: System, t: TxId, id: nat)
    requires Inv(s) && Enabled(s, Write(t, id))
    ensures Inv(Apply(s, Write(t, id)))
  {
    var tx := s.txs[t];
    var phase := AfterWrite(s.db, tx.job, tx.phase.seqNo, tx.phase.inserted, id);
    WriteIsOk(s.db, tx, id);
    forall u <- s.txs | u != t
      ensures Exclusive(tx.(phase := phase), s.txs[u]) && Exclusive(s.txs[u], tx.(phase := phase))
    {
      WriteIsExclusive(s.db, tx, s.txs[u], id);
      ExclusiveIsMutual(tx.(phase := phase), s.txs[u]);
    }
    LocalStep(s, t, phase);
  }

  lemma RollbackKeepsInv(s: System, t: TxId)
    requires Inv(s) && Enabled(s, Rollback(t))
    ensures Inv(Apply(s, Rollback(t)))
  {
    LocalStep(s, t, Finished(RolledBack));
  }

  lemma BeginKeepsInv(s: System, t: TxId, job: Job)
    requires Inv(s) && Enabled(s, Begin(t, job))
    ensures Inv(Apply(s, Begin(t, job)))
  {
    var tx := Tx(job, Begun, FirstRead(s.db, job));
    assert TxOk(s.db, tx);
    forall u <- s.txs ensures Exclusive(tx, s.txs[u]) && Exclusive(s.txs[u], tx) {
      BegunIsExclusive(tx, s.txs[u]);
    }
  }

  lemma BegunIsExclusive(tx: Tx, ux: Tx)
    requires tx.phase.Begun?
    ensures Exclusive(tx, ux) && Exclusive(ux, tx)
  {
  }

  /** Rows of `db` are still there in `db'`, under the same references. */
  ghost predicate KeepsReferences(db: Db, db': Db) {
    && (forall c <- db.claims :: c in db'.claims && db'.claims[c].reference == db.claims[c].reference)
    && (forall n <- db.notices :: n in db'.notices && db'.notices[n].reference == db.notices[n].reference)
  }

  lemma IssuedIsKept(db: Db, db': Db, k: CounterKey, i: nat)
    requires KeepsReferences(db, db') && Issued(db, k, i)
    ensures Issued(db', k, i)
  {
    if m :| m in db.notices && db.notices[m].reference == ClaimTables.Numbered(k, i) {
      assert db'.notices[m].reference == ClaimTables.Numbered(k, i);
    } else {
      var c :| c in db.claims && db.claims[c].reference == ClaimTables.Numbered(k, i);
      assert db'.claims[c].reference == ClaimTables.Numbered(k, i);
    }
  }

  function Replace(db: Db, n: NoticeId, row: Notice): Db { db.(notices := db.notices[n := row]) }

  /** Replacing a notice by a revision of itself keeps every property of the tables. */
  lemma ReplaceKeepsDb(db: Db, n: NoticeId, row: Notice)
    requires DbOk(db) && n in db.notices && IsRevisionOf(db.notices[n], row)
    ensures DbOk(Replace(db, n, row))
  {
    var db' := Replace(db, n, row);
    assert Linked(db');
    assert NumbersUsedOnce(db') by { ReplaceKeepsNumbers(db, n, row); }
    forall k <- db'.counters, i: nat | 1 <= i <= db'.counters[k] ensures Issued(db', k, i) {
      IssuedIsKept(db, db', k, i);
    }
    assert KeysUnique(db');
  }

  lemma ReplaceKeepsNumbers(db: Db, n: NoticeId, row: Notice)
    requires NumbersUsedOnce(db) && n in db.notices && row.reference == db.notices[n].reference
    ensures NumbersUsedOnce(Replace(db, n, row))
  {
  }

  /** A transaction that does not hold the notice does not notice the replacement. */
  lemma TxOkAfterReplace(db: Db, tx: Tx, n: NoticeId, row: Notice)
    requires TxOk(db, tx) && n in db.notices && IsRevisionOf(db.notices[n], row)
    requires HoldsNotice(tx, n) && tx.seen.Some? ==>
      (Ready(AsSeen(tx.seen.value, db.notices[n])) ==> Ready(AsSeen(tx.seen.value, row)))
    ensures TxOk(Replace(db, n, row), tx)
  {
  }

  lemma CloseExceptionKeepsInv(s: System, n: NoticeId, code: ExceptionCode)
    requires Inv(s) && Enabled(s, CloseException(n, code))
    ensures Inv(Apply(s, CloseException(n, code)))
  {
    var row := s.db.notices[n].(open := s.db.notices[n].open - {code});
    ReplaceKeepsDb(s.db, n, row);
    forall t <- s.txs ensures TxOk(Replace(s.db, n, row), s.txs[t]) {
      TxOkAfterReplace(s.db, s.txs[t], n, row);
    }
  }

  lemma CommitRevisionKeepsInv(s: System, t: TxId, row: Notice)
    requires Inv(s) && Enabled(s, CommitRevision(t, row))
    ensures Inv(Apply(s, CommitRevision(t, row)))
  {
    var n := s.txs[t].job.notice;
    ReplaceKeepsDb(s.db, n, row);
    forall u <- s.txs | u != t ensures TxOk(Replace(s.db, n, row), s.txs[u]) {
      assert Exclusive(s.txs[t], s.txs[u]);
      TxOkAfterReplace(s.db, s.txs[u], n, row);
    }
    var s0 := s.(db := Replace(s.db, n, row), txs := s.txs - {t});
    assert Apply(s, CommitRevision(t, row)).txs == s.txs[t := s.txs[t].(phase := Finished(Revised))];
  }

  lemma {:induction false} CreatedCountConcat(a: seq<AuditEvent>, b: seq<AuditEvent>, c: ClaimId)
    ensures CreatedCount(a + b, c) == CreatedCount(a, c) + CreatedCount(b, c)
  {
    if a == [] {
      assert a + b == b;
    } else {
      CreatedCountConcat(a[1..], b, c);
      assert (a + b)[1..] == a[1..] + b;
    }
  }

  lemma {:induction false} NoCreationCountsZero(events: seq<AuditEvent>, c: ClaimId)
    requires forall e <- events :: !e.ClaimWasCreated?
    ensures CreatedCount(events, c) == 0
  {
    if events != [] { NoCreationCountsZero(events[1..], c); }
  }

  lemma CreationCountsOnce(n: NoticeId, claim: ClaimId, actor: string, c: ClaimId)
    ensures CreatedCount(CreationEvents(n, claim, actor), c) == if c == claim then 1 else 0
  {
    NoCreationCountsZero(CreationEvents(n, claim, actor)[1..], c);
  }

  /** Adding one row that carries the next number leaves no gap. */
  lemma NextNumberLeavesNoGap(db: Db, db': Db, k: CounterKey)
    requires NoGaps(db) && db'.counters == db.counters[k := db.LastValue(k) + 1]
    requires Issued(db', k, db.LastValue(k) + 1) && KeepsReferences(db, db')
    ensures NoGaps(db')
  {
    forall j <- db'.counters, i: nat | 1 <= i <= db'.counters[j] ensures Issued(db', j, i) {
      if !(j == k && i == db.LastValue(k) + 1) {
        IssuedIsKept(db, db', j, i);
      }
    }
  }

  lemma ConvertKeepsNumbers(db: Db, n: NoticeId, seen: Notice, k: CounterKey, id: ClaimId, actor: string)
    requires NumbersUsedOnce(db) && n in db.notices && id !in db.claims && k.prefix == CLAIM_PREFIX
    ensures NumbersUsedOnce(ConvertAs(db, n, seen, k, db.LastValue(k) + 1, id, actor))
  {
    var db' := ConvertAs(db, n, seen, k, db.LastValue(k) + 1, id, actor);
    assert forall j :: db.LastValue(j) <= db'.LastValue(j);
    forall c <- db'.claims, c' <- db'.claims | db'.claims[c].reference == db'.claims[c'].reference
      ensures c == c'
    {
      assert c != id ==> db.claims[c].reference.sequence <= db.LastValue(KeyOf(db.claims[c].reference));
      assert c' != id ==> db.claims[c'].reference.sequence <= db.LastValue(KeyOf(db.claims[c'].reference));
    }
  }

  lemma ConvertKeepsGaps(db: Db, n: NoticeId, seen: Notice, k: CounterKey, id: ClaimId, actor: string)
    requires NoGaps(db) && n in db.notices && id !in db.claims
    ensures NoGaps(ConvertAs(db, n, seen, k, db.LastValue(k) + 1, id, actor))
  {
    var db' := ConvertAs(db, n, seen, k, db.LastValue(k) + 1, id, actor);
    assert db'.claims[id].reference == ClaimTables.Numbered(k, db.LastValue(k) + 1);
    NextNumberLeavesNoGap(db, db', k);
  }

  lemma ConvertKeepsAudit(db: Db, n: NoticeId, seen: Notice, k: CounterKey, seqNo: nat, id: ClaimId, actor: string)
    requires AuditedOnce(db) && n in db.notices && id !in db.claims
    ensures AuditedOnce(ConvertAs(db, n, seen, k, seqNo, id, actor))
  {
    var db' := ConvertAs(db, n, seen, k, seqNo, id, actor);
    forall c: ClaimId ensures CreatedCount(db'.audit, c) == if c in db'.claims then 1 else 0 {
      CreatedCountConcat(db.audit, CreationEvents(n, id, actor), c);
      CreationCountsOnce(n, id, actor, c);
    }
  }

  lemma ConvertKeepsLinks(db: Db, n: NoticeId, seen: Notice, k: CounterKey, seqNo: nat, id: ClaimId, actor: string)
    requires Linked(db) && KeysUnique(db) && n in db.notices && db.notices[n].claimId == None && id !in db.claims
    ensures Linked(ConvertAs(db, n, seen, k, seqNo, id, actor)) && KeysUnique(ConvertAs(db, n, seen, k, seqNo, id, actor))
  {
  }

  /** Converting an unclaimed notice under a fresh id and the next number. */
  lemma ConvertKeepsDb(db: Db, n: NoticeId, seen: Notice, k: CounterKey, id: ClaimId, actor: string)
    requires DbOk(db) && n in db.notices && db.notices[n].claimId == None && id !in db.claims
    requires k.prefix == CLAIM_PREFIX
    ensures DbOk(ConvertAs(db, n, seen, k, db.LastValue(k) + 1, id, actor))
  {
    ConvertKeepsNumbers(db, n, seen, k, id, actor);
    ConvertKeepsGaps(db, n, seen, k, id, actor);
    ConvertKeepsAudit(db, n, seen, k, db.LastValue(k) + 1, id, actor);
    ConvertKeepsLinks(db, n, seen, k, db.LastValue(k) + 1, id, actor);
  }

  lemma AdmitKeepsNumbers(db: Db, d: Draft, k: CounterKey, id: NoticeId)
    requires NumbersUsedOnce(db) && id !in db.notices && k.prefix == FNOL_PREFIX
    ensures NumbersUsedOnce(Admit(db, d, k, db.LastValue(k) + 1, id))
  {
    var db' := Admit(db, d, k, db.LastValue(k) + 1, id);
    assert forall j :: db.LastValue(j) <= db'.LastValue(j);
    forall n <- db'.notices, n' <- db'.notices | db'.notices[n].reference == db'.notices[n'].reference
      ensures n == n'
    {
      assert n != id ==> db.notices[n].reference.sequence <= db.LastValue(KeyOf(db.notices[n].reference));
      assert n' != id ==> db.notices[n'].reference.sequence <= db.LastValue(KeyOf(db.notices[n'].reference));
    }
  }

  lemma AdmitKeepsGaps(db: Db, d: Draft, k: CounterKey, id: NoticeId)
    requires NoGaps(db) && id !in db.notices
    ensures NoGaps(Admit(db, d, k, db.LastValue(k) + 1, id))
  {
    var db' := Admit(db, d, k, db.LastValue(k) + 1, id);
    assert db'.notices[id].reference == ClaimTables.Numbered(k, db.LastValue(k) + 1);
    NextNumberLeavesNoGap(db, db', k);
  }

  lemma AdmitKeepsAudit(db: Db, d: Draft, k: CounterKey, seqNo: nat, id: NoticeId)
    requires AuditedOnce(db)
    ensures AuditedOnce(Admit(db, d, k, seqNo, id))
  {
    forall c: ClaimId ensures CreatedCount(db.audit + [NoticeReceived(id)], c) == CreatedCount(db.audit, c) {
      CreatedCountConcat(db.audit, [NoticeReceived(id)], c);
    }
  }

  lemma AdmitKeepsLinks(db: Db, d: Draft, k: CounterKey, seqNo: nat, id: NoticeId)
    requires Linked(db) && KeysUnique(db) && id !in db.notices
    requires forall n <- db.notices :: !Redelivers(d, db.notices[n])
    ensures Linked(Admit(db, d, k, seqNo, id)) && KeysUnique(Admit(db, d, k, seqNo, id))
  {
  }

  /** Admitting a delivery no committed notice carries, under a fresh id and the next number. */
  lemma AdmitKeepsDb(db: Db, d: Draft, k: CounterKey, id: NoticeId)
    requires DbOk(db) && id !in db.notices && k.prefix == FNOL_PREFIX
    requires forall n <- db.notices :: !Redelivers(d, db.notices[n])
    ensures DbOk(Admit(db, d, k, db.LastValue(k) + 1, id))
  {
    AdmitKeepsNumbers(db, d, k, id);
    AdmitKeepsGaps(db, d, k, id);
    AdmitKeepsAudit(db, d, k, db.LastValue(k) + 1, id);
    AdmitKeepsLinks(db, d, k, db.LastValue(k) + 1, id);
  }

  lemma TxOkAfterConvert(db: Db, tx: Tx, ux: Tx)
    requires TxOk(db, tx) && TxOk(db, ux) && Exclusive(tx, ux)
    requires tx.job.Create? && tx.phase.Written?
    ensures TxOk(AfterCommit(db, tx.job, tx.seen, tx.phase.seqNo, tx.phase.id), ux)
  {
  }

  lemma TxOkAfterAdmit(db: Db, tx: Tx, ux: Tx)
    requires TxOk(db, tx) && TxOk(db, ux) && Exclusive(tx, ux) && Exclusive(ux, tx)
    requires tx.job.Ingest? && tx.phase.Written?
    ensures TxOk(AfterCommit(db, tx.job, tx.seen, tx.phase.seqNo, tx.phase.id), ux)
  {
  }

  lemma AfterCreateKeepsDb(db: Db, n: NoticeId, seen: Notice, k: CounterKey, seqNo: nat, id: ClaimId, actor: string)
    requires DbOk(db) && n in db.notices && db.notices[n].claimId == None && id !in db.claims
    requires k.prefix == CLAIM_PREFIX && seqNo == db.LastValue(k) + 1
    ensures DbOk(ConvertAs(db, n, seen, k, seqNo, id, actor))
  {
    ConvertKeepsDb(db, n, seen, k, id, actor);
  }

  lemma AfterIngestKeepsDb(db: Db, d: Draft, k: CounterKey, seqNo: nat, id: NoticeId)
    requires DbOk(db) && id !in db.notices && k.prefix == FNOL_PREFIX
    requires forall n <- db.notices :: !Redelivers(d, db.notices[n])
    requires seqNo == db.LastValue(k) + 1
    ensures DbOk(Admit(db, d, k, seqNo, id))
  {
    AdmitKeepsDb(db, d, k, id);
  }

  lemma AfterCommitKeepsDb(db: Db, tx: Tx)
    requires DbOk(db) && TxOk(db, tx) && !tx.job.Revise? && tx.phase.Written?
    ensures DbOk(AfterCommit(db, tx.job, tx.seen, tx.phase.seqNo, tx.phase.id))
  {
    match tx.job
    case Create(n, year, actor) =>
      AfterCreateKeepsDb(db, n, tx.seen.value, CounterKey(CLAIM_PREFIX, year), tx.phase.seqNo, tx.phase.id, actor);
    case Ingest(d, year) =>
      AfterIngestKeepsDb(db, d, CounterKey(FNOL_PREFIX, year), tx.phase.seqNo, tx.phase.id);
  }

  lemma CommitKeepsTxOk(s: System, t: TxId, u: TxId)
    requires Inv(s) && Enabled(s, Commit(t)) && u in s.txs
    ensures TxOk(Apply(s, Commit(t)).db, Apply(s, Commit(t)).txs[u])
  {
    if u != t {
      assert Exclusive(s.txs[t], s.txs[u]) && Exclusive(s.txs[u], s.txs[t]);
      if s.txs[t].job.Create? { TxOkAfterConvert(s.db, s.txs[t], s.txs[u]); }
      else { TxOkAfterAdmit(s.db, s.txs[t], s.txs[u]); }
    }
  }

  lemma CommitKeepsExclusive(s: System, t: TxId)
    requires Inv(s) && Enabled(s, Commit(t))
    ensures var s' := Apply(s, Commit(t));
      forall u <- s'.txs, v <- s'.txs :: u != v ==> Exclusive(s'.txs[u], s'.txs[v])
  {
    var s' := Apply(s, Commit(t));
    forall u <- s'.txs, v <- s'.txs | u != v ensures Exclusive(s'.txs[u], s'.txs[v]) {
      assert Exclusive(s.txs[u], s.txs[v]);
    }
  }

  lemma CommitKeepsInv(s: System, t: TxId)
    requires Inv(s) && Enabled(s, Commit(t))
    ensures Inv(Apply(s, Commit(t)))
  {
    AfterCommitKeepsDb(s.db, s.txs[t]);
    CommitKeepsExclusive(s, t);
    forall u <- Apply(s, Commit(t)).txs ensures TxOk(Apply(s, Commit(t)).db, Apply(s, Commit(t)).txs[u]) {
      CommitKeepsTxOk(s, t, u);
    }
  }

  /** Every step of every transaction keeps the invariant. */
  lemma StepKeepsInv(s: System, step: Step)
    requires Inv(s) && Enabled(s, step)
    ensures Inv(Apply(s, step))
  {
    match step
    case Begin(t, job) => BeginKeepsInv(s, t, job);
    case LockNotice(t) => LockNoticeKeepsInv(s, t);
    case LookForClaim(t) => LookForClaimKeepsInv(s, t);
    case CheckBlockers(t) => CheckBlockersKeepsInv(s, t);
    case LookForDelivery(t) => LookForDeliveryKeepsInv(s, t);
    case EnsureCounter(t) => EnsureCounterKeepsInv(s, t);
    case TakeNumber(t) => TakeNumberKeepsInv(s, t);
    case Write(t, id) => WriteKeepsInv(s, t, id);
    case Commit(t) => CommitKeepsInv(s, t);
    case CommitRevision(t, row) => CommitRevisionKeepsInv(s, t, row);
    case Rollback(t) => RollbackKeepsInv(s, t);
    case CloseException(n, code) => CloseExceptionKeepsInv(s, n, code);
  }
}
