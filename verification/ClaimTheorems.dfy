/** What the claim protocol guarantees over every run, for any mix of transactions. */
module ClaimTheorems {
  import opened Wrappers
  import opened References
  import opened Lifecycle
  import opened ClaimTables
  import opened ClaimProtocol
  import opened ClaimSafety

  lemma EmptyIsOk()
    ensures Inv(EMPTY)
  {
  }

  lemma {:induction false} RunKeepsInv(states: seq<System>, steps: seq<Step>, i: nat)
    requires IsRun(states, steps) && i < |states|
    ensures Inv(states[i])
  {
    if i == 0 {
      EmptyIsOk();
    } else {
      RunKeepsInv(states, steps, i - 1);
      StepKeepsInv(states[i - 1], steps[i - 1]);
    }
  }

  /** At most one claim per notice, and the two links are mutual inverses. */
  lemma OneClaimPerNotice(states: seq<System>, steps: seq<Step>, i: nat)
    requires IsRun(states, steps) && i < |states|
    ensures var db := states[i].db;
      && (forall c <- db.claims, c' <- db.claims :: db.claims[c].noticeId == db.claims[c'].noticeId ==> c == c')
      && (forall n <- db.notices, c: ClaimId ::
            db.notices[n].claimId == Some(c) <==> c in db.claims && db.claims[c].noticeId == n)
  {
    RunKeepsInv(states, steps, i);
  }

  /** The trail holds exactly one creation event per claim and none for anything else. */
  lemma OneCreationEventPerClaim(states: seq<System>, steps: seq<Step>, i: nat, c: ClaimId)
    requires IsRun(states, steps) && i < |states|
    ensures CreatedCount(states[i].db.audit, c) == if c in states[i].db.claims then 1 else 0
  {
    RunKeepsInv(states, steps, i);
  }

  // ---------------------------------------------------------------------------
  // What a claim is made of
  // ---------------------------------------------------------------------------

  /**
   * A claim becomes visible only in a commit at which its notice has no claim and no
   * blocking exception open, whatever other transactions did since the checklist was read.
   * Its policy, date, description and insured are those of the notice as the create loaded
   * it, all present; nothing else of the notice changes with it.
   */
  lemma ConversionIsClean(states: seq<System>, steps: seq<Step>, i: nat, c: ClaimId)
    requires IsRun(states, steps) && i < |steps|
    requires c in states[i + 1].db.claims && c !in states[i].db.claims
    ensures steps[i].Commit? && steps[i].t in states[i].txs && states[i].txs[steps[i].t].seen.Some?
    ensures var claim, seen := states[i + 1].db.claims[c], states[i].txs[steps[i].t].seen.value;
      && claim.noticeId in states[i].db.notices
      && var n := states[i].db.notices[claim.noticeId];
      && n.claimId == None && (forall code <- n.open :: !IsBlocking(code))
      && claim.policyId == seen.policyId && claim.policyId.Some?
      && claim.dateOfLoss == seen.dateOfLoss && claim.dateOfLoss.Some?
      && claim.lossDescription == seen.lossDescription != "" && claim.insuredName == seen.insuredName
      && claim.claimantName == (if n.partyName != "" then n.partyName else seen.insuredName) && claim.claimantName != ""
      && states[i + 1].db.notices[claim.noticeId] == n.(claimId := Some(c), status := ClaimCreated)
  {
    RunKeepsInv(states, steps, i);
    OnlyCreatesMakeClaims(states[i], steps[i], c);
    assert TxOk(states[i].db, states[i].txs[steps[i].t]);
  }

  lemma OnlyCreatesMakeClaims(s: System, step: Step, c: ClaimId)
    requires Enabled(s, step) && c in Apply(s, step).db.claims && c !in s.db.claims
    ensures step.Commit? && s.txs[step.t].job.Create? && s.txs[step.t].phase.id == c
  {
  }

  /** A session never refreshes what it loaded. */
  lemma StepKeepsSeen(s: System, step: Step, t: TxId)
    requires Enabled(s, step) && t in Apply(s, step).txs && t !in s.txs
    ensures step.Begin? && step.t == t && Apply(s, step).txs[t] == Tx(step.job, Begun, FirstRead(s.db, step.job))
  {
  }

  lemma SeenStays(s: System, step: Step, t: TxId)
    requires Enabled(s, step) && t in s.txs
    ensures t in Apply(s, step).txs
    ensures Apply(s, step).txs[t].job == s.txs[t].job && Apply(s, step).txs[t].seen == s.txs[t].seen
  {
  }

  /** What a create loaded is the notice exactly as it was committed when the create began. */
  lemma {:induction false} SeenWasCommitted(states: seq<System>, steps: seq<Step>, i: nat, t: TxId) returns (j: nat)
    requires IsRun(states, steps) && i < |states| && t in states[i].txs
    ensures j < i && steps[j] == Begin(t, states[i].txs[t].job)
    ensures states[i].txs[t].seen == FirstRead(states[j].db, states[i].txs[t].job)
  {
    if t in states[i - 1].txs {
      SeenStays(states[i - 1], steps[i - 1], t);
      j := SeenWasCommitted(states, steps, i - 1, t);
    } else {
      StepKeepsSeen(states[i - 1], steps[i - 1], t);
      j := i - 1;
    }
  }

  predicate SameFacts(a: Notice, b: Notice) {
    a.policyId == b.policyId && a.dateOfLoss == b.dateOfLoss && a.lossDescription == b.lossDescription
    && a.insuredName == b.insuredName
  }

  /** Another transaction's revision of this notice commits in this step. */
  predicate Revises(s: System, step: Step, n: NoticeId) {
    step.CommitRevision? && step.t in s.txs && s.txs[step.t].job.Revise? && s.txs[step.t].job.notice == n
  }

  lemma CommitKeepsFacts(s: System, t: TxId, n: NoticeId)
    requires Inv(s) && Enabled(s, Commit(t)) && n in s.db.notices
    ensures n in Apply(s, Commit(t)).db.notices && SameFacts(Apply(s, Commit(t)).db.notices[n], s.db.notices[n])
  {
    assert TxOk(s.db, s.txs[t]);
  }

  lemma OnlyRevisionsChangeFacts(s: System, step: Step, n: NoticeId)
    requires Inv(s) && Enabled(s, step) && n in s.db.notices && !Revises(s, step, n)
    ensures n in Apply(s, step).db.notices && SameFacts(Apply(s, step).db.notices[n], s.db.notices[n])
  {
    if step.Commit? { CommitKeepsFacts(s, step.t, n); }
  }

  lemma {:induction false} FactsStand(states: seq<System>, steps: seq<Step>, j: nat, i: nat, n: NoticeId)
    requires IsRun(states, steps) && j <= i < |states| && n in states[j].db.notices
    requires forall k :: j <= k < i ==> !Revises(states[k], steps[k], n)
    ensures n in states[i].db.notices && SameFacts(states[i].db.notices[n], states[j].db.notices[n])
    decreases i - j
  {
    if j < i {
      FactsStand(states, steps, j, i - 1, n);
      RunKeepsInv(states, steps, i - 1);
      OnlyRevisionsChangeFacts(states[i - 1], steps[i - 1], n);
    }
  }

  /**
   * So a claim carries its notice's facts as committed at that moment unless a revision of
   * the notice committed between the create's first read and its own commit.
   */
  lemma ClaimIsCurrent(states: seq<System>, steps: seq<Step>, j: nat, i: nat, c: ClaimId)
    requires IsRun(states, steps) && i < |steps| && c in states[i + 1].db.claims && c !in states[i].db.claims
    requires j < i && steps[j].Begin? && steps[i].Commit? && steps[j].t == steps[i].t
    requires forall k :: j < k < i ==> !Revises(states[k], steps[k], states[i + 1].db.claims[c].noticeId)
    ensures var claim := states[i + 1].db.claims[c];
      && claim.noticeId in states[i].db.notices
      && var n := states[i].db.notices[claim.noticeId];
         claim.policyId == n.policyId && claim.dateOfLoss == n.dateOfLoss
         && claim.lossDescription == n.lossDescription && claim.insuredName == n.insuredName
  {
    ConversionIsClean(states, steps, i, c);
    OnlyCreatesMakeClaims(states[i], steps[i], c);
    var t, n := steps[i].t, states[i + 1].db.claims[c].noticeId;
    var b := SeenWasCommitted(states, steps, i, t);
    BeginsOnce(states, steps, j, b, t);
    FactsStand(states, steps, j, i, n);
  }

  lemma {:induction false} StaysBegun(states: seq<System>, steps: seq<Step>, j: nat, i: nat, t: TxId)
    requires IsRun(states, steps) && j <= i < |states| && t in states[j].txs
    ensures t in states[i].txs
    decreases i - j
  {
    if j < i {
      StaysBegun(states, steps, j, i - 1, t);
      SeenStays(states[i - 1], steps[i - 1], t);
    }
  }

  lemma BeginsOnce(states: seq<System>, steps: seq<Step>, j: nat, b: nat, t: TxId)
    requires IsRun(states, steps) && j < |steps| && b < |steps|
    requires steps[j].Begin? && steps[j].t == t && steps[b].Begin? && steps[b].t == t
    ensures j == b
  {
    if j < b {
      StaysBegun(states, steps, j + 1, b, t);
    } else if b < j {
      StaysBegun(states, steps, b + 1, j, t);
    }
  }

  /** A committed claim, and the link to it, outlive every later step. */
  lemma {:induction false} ClaimsAreForever(states: seq<System>, steps: seq<Step>, i: nat, j: nat, c: ClaimId)
    requires IsRun(states, steps) && i <= j < |states| && c in states[i].db.claims
    ensures c in states[j].db.claims && states[j].db.claims[c] == states[i].db.claims[c]
    decreases j - i
  {
    if i < j {
      ClaimsAreForever(states, steps, i, j - 1, c);
      RunKeepsInv(states, steps, j - 1);
      StepKeepsClaim(states[j - 1], steps[j - 1], c);
    }
  }

  lemma OnlyCommitsTouchClaims(s: System, step: Step)
    requires Enabled(s, step) && !step.Commit?
    ensures Apply(s, step).db.claims == s.db.claims
  {
  }

  lemma CommitKeepsClaim(s: System, t: TxId, c: ClaimId)
    requires Enabled(s, Commit(t)) && c in s.db.claims && s.txs[t].phase.id != c
    ensures var claims := Apply(s, Commit(t)).db.claims; c in claims && claims[c] == s.db.claims[c]
  {
  }

  lemma WrittenIdIsNew(s: System, t: TxId)
    requires Inv(s) && t in s.txs && s.txs[t].phase.Written?
    ensures s.txs[t].phase.id !in s.db.claims
  {
    assert TxOk(s.db, s.txs[t]);
  }

  lemma StepKeepsClaim(s: System, step: Step, c: ClaimId)
    requires Inv(s) && Enabled(s, step) && c in s.db.claims
    ensures c in Apply(s, step).db.claims && Apply(s, step).db.claims[c] == s.db.claims[c]
  {
    if step.Commit? {
      WrittenIdIsNew(s, step.t);
      CommitKeepsClaim(s, step.t, c);
    } else {
      OnlyCommitsTouchClaims(s, step);
    }
  }

  /**
   * Any two finished creates on one notice that report a claim report the same claim,
   * and at most one of them reports having made it.
   */
  lemma CreatesAgree(states: seq<System>, steps: seq<Step>, i: nat, t: TxId, u: TxId)
    requires IsRun(states, steps) && i < |states|
    requires t in states[i].txs && u in states[i].txs
    requires var x, y := states[i].txs[t], states[i].txs[u];
      && x.job.Create? && y.job.Create? && x.job.notice == y.job.notice
      && x.phase.Finished? && y.phase.Finished?
      && (x.phase.outcome.Created? || x.phase.outcome.Existing?)
      && (y.phase.outcome.Created? || y.phase.outcome.Existing?)
    ensures var x, y := states[i].txs[t].phase.outcome, states[i].txs[u].phase.outcome;
      x.id == y.id && (x.Created? && y.Created? ==> t == u)
  {
    RunKeepsInv(states, steps, i);
    assert TxOk(states[i].db, states[i].txs[t]) && TxOk(states[i].db, states[i].txs[u]);
    assert t != u ==> Exclusive(states[i].txs[t], states[i].txs[u]);
  }

  /** How far a create that starts after the conversion can have got. */
  predicate RetryPhase(p: Phase, c: ClaimId) {
    p.Begun? || p.NoticeLocked? || p == Finished(Existing(c)) || p == Finished(RolledBack)
  }

  /** The claim is there, and a create of `t` on its notice is no further than a retry can be. */
  ghost predicate Retrying(s: System, c: ClaimId, row: Claim, t: TxId) {
    && c in s.db.claims && s.db.claims[c] == row
    && (t in s.txs && s.txs[t].job.Create? && s.txs[t].job.notice == row.noticeId ==>
          RetryPhase(s.txs[t].phase, c) && s.txs[t].seen.Some?)
  }

  /** The one claim of a notice, and the notice itself, as the links have it. */
  lemma ClaimOfNotice(db: Db, c: ClaimId, d: ClaimId)
    requires Linked(db) && c in db.claims && d in db.claims && db.claims[c].noticeId == db.claims[d].noticeId
    ensures c == d && db.claims[c].noticeId in db.notices
  {
  }

  lemma RetryLooks(s: System, c: ClaimId, row: Claim, t: TxId)
    requires Linked(s.db) && Enabled(s, LookForClaim(t)) && c in s.db.claims && s.db.claims[c] == row
    requires s.txs[t].job.notice == row.noticeId
    ensures Apply(s, LookForClaim(t)).txs[t].phase == Finished(Existing(c))
  {
    assert s.db.claims[c].noticeId == row.noticeId;
    var phase := AfterLookForClaim(s.db, row.noticeId, s.txs[t].seen.value);
    ClaimOfNotice(s.db, c, phase.outcome.id);
  }

  /** Where a retry's own next statement takes it. */
  lemma RetryMoves(s: System, step: Step, c: ClaimId, row: Claim, t: TxId)
    requires Linked(s.db) && Enabled(s, step) && !step.CloseException? && step.t == t
    requires c in s.db.claims && s.db.claims[c] == row && row.noticeId in s.db.notices
    requires t in s.txs && s.txs[t].job.Create? && s.txs[t].job.notice == row.noticeId
    requires RetryPhase(s.txs[t].phase, c) && s.txs[t].seen.Some?
    ensures RetryPhase(Apply(s, step).txs[t].phase, c)
  {
    if step.LookForClaim? {
      RetryLooks(s, c, row, t);
    }
  }

  lemma OthersStayPut(s: System, step: Step, t: TxId)
    requires Enabled(s, step) && (step.CloseException? || step.t != t)
    ensures t in Apply(s, step).txs <==> t in s.txs
    ensures t in s.txs ==> Apply(s, step).txs[t] == s.txs[t]
  {
  }

  lemma RetryStep(s: System, step: Step, c: ClaimId, row: Claim, t: TxId)
    requires Inv(s) && Enabled(s, step) && Retrying(s, c, row, t)
    ensures Retrying(Apply(s, step), c, row, t)
  {
    StepKeepsClaim(s, step, c);
    ClaimOfNotice(s.db, c, c);
    if step.CloseException? || step.t != t {
      OthersStayPut(s, step, t);
    } else if t in s.txs {
      SeenStays(s, step, t);
      if s.txs[t].job.Create? && s.txs[t].job.notice == row.noticeId {
        RetryMoves(s, step, c, row, t);
      }
    }
  }

  /**
   * A create that begins once its notice is converted ends by returning that claim, or
   * by being rolled back from outside. It is never refused and never makes a second
   * claim, even if a revision has since moved the notice's status elsewhere.
   */
  lemma {:induction false} RetriesReturnTheClaim(
      states: seq<System>, steps: seq<Step>, i: nat, j: nat, c: ClaimId, t: TxId)
    requires IsRun(states, steps) && i <= j < |states|
    requires c in states[i].db.claims && t !in states[i].txs
    ensures Retrying(states[j], c, states[i].db.claims[c], t)
    decreases j - i
  {
    if j > i {
      RetriesReturnTheClaim(states, steps, i, j - 1, c, t);
      RunKeepsInv(states, steps, j - 1);
      RetryStep(states[j - 1], steps[j - 1], c, states[i].db.claims[c], t);
    }
  }

  /** Each counter's committed references carry exactly the numbers 1 to its last value, once each. */
  lemma NumbersAreDense(states: seq<System>, steps: seq<Step>, i: nat, k: CounterKey, n: nat)
    requires IsRun(states, steps) && i < |states| && k.prefix in {CLAIM_PREFIX, FNOL_PREFIX}
    ensures 1 <= n <= states[i].db.LastValue(k) <==> Issued(states[i].db, k, n)
    ensures var db := states[i].db;
      && (forall c <- db.claims, c' <- db.claims :: db.claims[c].reference == db.claims[c'].reference ==> c == c')
      && (forall m <- db.notices, m' <- db.notices :: db.notices[m].reference == db.notices[m'].reference ==> m == m')
  {
    RunKeepsInv(states, steps, i);
    assert NumbersUsedOnce(states[i].db) && NoGaps(states[i].db);
    assert KeyOf(ClaimTables.Numbered(k, n)) == k;
  }

  /** As printed text too, no two rows share a reference, within a table or across the two. */
  lemma PrintedReferencesAreDistinct(states: seq<System>, steps: seq<Step>, i: nat)
    requires IsRun(states, steps) && i < |states|
    ensures var db := states[i].db;
      && (forall c <- db.claims, c' <- db.claims ::
            db.claims[c].reference.Text() == db.claims[c'].reference.Text() ==> c == c')
      && (forall n <- db.notices, n' <- db.notices ::
            db.notices[n].reference.Text() == db.notices[n'].reference.Text() ==> n == n')
      && (forall c <- db.claims, n <- db.notices ::
            db.claims[c].reference.Text() != db.notices[n].reference.Text())
  {
    RunKeepsInv(states, steps, i);
    var db := states[i].db;
    forall r: Reference, r': Reference
      | r.prefix in {CLAIM_PREFIX, FNOL_PREFIX} && r'.prefix in {CLAIM_PREFIX, FNOL_PREFIX}
      ensures r.Text() == r'.Text() <==> r == r'
    {
      assert HyphenFree(CLAIM_PREFIX) && HyphenFree(FNOL_PREFIX);
      TextIsInjective(r, r');
    }
    DistinctTexts(db);
  }

  lemma DistinctTexts(db: Db)
    requires NumbersUsedOnce(db)
    requires forall r: Reference, r': Reference ::
      r.prefix in {CLAIM_PREFIX, FNOL_PREFIX} && r'.prefix in {CLAIM_PREFIX, FNOL_PREFIX} ==>
        (r.Text() == r'.Text() <==> r == r')
    ensures forall c <- db.claims, c' <- db.claims ::
      db.claims[c].reference.Text() == db.claims[c'].reference.Text() ==> c == c'
    ensures forall n <- db.notices, n' <- db.notices ::
      db.notices[n].reference.Text() == db.notices[n'].reference.Text() ==> n == n'
    ensures forall c <- db.claims, n <- db.notices ::
      db.claims[c].reference.Text() != db.notices[n].reference.Text()
  {
  }

  lemma NextNumberIsNew(db: Db, c: ClaimId, year: nat, seqNo: nat)
    requires NumbersUsedOnce(db) && c in db.claims && seqNo == db.LastValue(CounterKey(CLAIM_PREFIX, year)) + 1
    ensures db.claims[c].reference.Text() != ClaimTables.Numbered(CounterKey(CLAIM_PREFIX, year), seqNo).Text()
  {
    assert HyphenFree(CLAIM_PREFIX);
    TextIsInjective(db.claims[c].reference, ClaimTables.Numbered(CounterKey(CLAIM_PREFIX, year), seqNo));
  }

  lemma NumberedCreate(s: System, t: TxId)
    requires Inv(s) && t in s.txs && s.txs[t].job.Create? && s.txs[t].phase.Numbered?
    ensures s.txs[t].phase.seqNo == s.db.LastValue(CounterKey(CLAIM_PREFIX, s.txs[t].job.year)) + 1
    ensures NumbersUsedOnce(s.db) && forall c <- s.db.claims :: s.db.claims[c].noticeId != s.txs[t].job.notice
  {
    assert TxOk(s.db, s.txs[t]) && Linked(s.db);
  }

  /** The unique constraints on claims never reject a create: the locks come first. */
  lemma ClaimConstraintsNeverFire(states: seq<System>, steps: seq<Step>, i: nat, t: TxId)
    requires IsRun(states, steps) && i < |states| && t in states[i].txs
    requires states[i].txs[t].job.Create? && states[i].txs[t].phase.Numbered?
    ensures var tx := states[i].txs[t];
      !ClaimConstraintFires(states[i].db, tx.job.notice, ClaimTables.Numbered(Counter(tx.job), tx.phase.seqNo))
  {
    RunKeepsInv(states, steps, i);
    NumberedCreate(states[i], t);
    var db, tx := states[i].db, states[i].txs[t];
    forall c <- db.claims
      ensures db.claims[c].reference.Text() != ClaimTables.Numbered(Counter(tx.job), tx.phase.seqNo).Text()
    {
      NextNumberIsNew(db, c, tx.job.year, tx.phase.seqNo);
    }
  }

  /** The constraints on notices reject an intake only for being a redelivery. */
  lemma NoticeConstraintsFireOnRedelivery(states: seq<System>, steps: seq<Step>, i: nat, t: TxId)
    requires IsRun(states, steps) && i < |states| && t in states[i].txs
    requires states[i].txs[t].job.Ingest? && states[i].txs[t].phase.Numbered?
    ensures var db, tx := states[i].db, states[i].txs[t];
      NoticeConstraintFires(db, tx.job.draft, ClaimTables.Numbered(Counter(tx.job), tx.phase.seqNo))
      <==> exists n <- db.notices :: Redelivers(tx.job.draft, db.notices[n])
  {
    RunKeepsInv(states, steps, i);
    var db, tx := states[i].db, states[i].txs[t];
    var r := ClaimTables.Numbered(Counter(tx.job), tx.phase.seqNo);
    assert TxOk(db, tx) && NumbersUsedOnce(db);
    forall n <- db.notices ensures db.notices[n].reference.Text() != r.Text() {
      TextIsInjective(db.notices[n].reference, r);
    }
  }

  /** One committed notice per idempotency key and per message id, however often it is redelivered. */
  lemma OneNoticePerDelivery(states: seq<System>, steps: seq<Step>, i: nat, n: NoticeId, m: NoticeId)
    requires IsRun(states, steps) && i < |states|
    requires n in states[i].db.notices && m in states[i].db.notices
    requires var a, b := states[i].db.notices[n], states[i].db.notices[m];
      SameDelivery(a.idempotencyKey, b.idempotencyKey, a.messageId, b.messageId)
    ensures n == m
  {
    RunKeepsInv(states, steps, i);
    assert KeysUnique(states[i].db);
  }
}
