/**
 * Run without interference, the protocol does what the service's own code does; and what a
 * revision between a create's first read and its lock does to the claim.
 */
module ClaimRefinement {
  import opened Wrappers
  import opened References
  import opened Lifecycle
  import opened ClaimTables
  import opened ClaimProtocol
  import opened ClaimSafety
  import opened ClaimProgress
  import opened ClaimCreation

  /** `steps`, each enabled in turn, lead from `s` to `last`. */
  ghost predicate Follows(s: System, steps: seq<Step>, last: System)
    decreases |steps|
  {
    if steps == [] then s == last
    else Enabled(s, steps[0]) && Follows(Apply(s, steps[0]), steps[1..], last)
  }

  lemma {:induction false} FollowsConcat(s: System, a: seq<Step>, mid: System, b: seq<Step>, last: System)
    requires Follows(s, a, mid) && Follows(mid, b, last)
    ensures Follows(s, a + b, last)
    decreases |a|
  {
    if a == [] {
      assert a + b == b;
    } else {
      FollowsConcat(Apply(s, a[0]), a[1..], mid, b, last);
      assert (a + b)[1..] == a[1..] + b;
    }
  }

  lemma FollowsOne(s: System, step: Step)
    requires Enabled(s, step)
    ensures Follows(s, [step], Apply(s, step))
  {
    assert [step][1..] == [];
  }

  lemma FollowsTwo(s: System, step: Step, next: Step)
    requires Enabled(s, step) && Enabled(Apply(s, step), next)
    ensures Follows(s, [step, next], Apply(Apply(s, step), next))
  {
    FollowsOne(s, step);
    FollowsOne(Apply(s, step), next);
    FollowsConcat(s, [step], Apply(s, step), [next], Apply(Apply(s, step), next));
    assert [step] + [next] == [step, next];
  }

  function Loaded(job: Job, phase: Phase, seen: Notice): Tx { Tx(job, phase, Some(seen)) }

  /** A create that loaded its notice as `seen` meets nobody from here on. */
  ghost predicate Alone(s: System, t: TxId, job: Job, phase: Phase, seen: Notice) {
    && t in s.txs && s.txs[t] == Loaded(job, phase, seen) && job.Create? && job.notice in s.db.notices
    && forall u <- s.txs :: u != t ==> s.txs[u].phase.Finished?
  }

  lemma LockStep(s: System, t: TxId, job: Job, seen: Notice)
    requires Alone(s, t, job, Begun, seen)
    ensures Follows(s, [LockNotice(t)], At(s, t, NoticeLocked))
  {
    FollowsOne(s, LockNotice(t));
  }

  lemma CheckSteps(s: System, t: TxId, job: Job, seen: Notice)
    requires Alone(s, t, job, NoticeLocked, seen) && !Converted(s.db, job.notice)
    requires seen.status != ClaimCreated && Ready(AsSeen(seen, s.db.notices[job.notice]))
    ensures Follows(s, [LookForClaim(t), CheckBlockers(t)], At(s, t, Cleared))
  {
    assert Apply(s, LookForClaim(t)) == At(s, t, NoClaimFound);
    FollowsTwo(s, LookForClaim(t), CheckBlockers(t));
    assert Apply(Apply(s, LookForClaim(t)), CheckBlockers(t)) == At(s, t, Cleared);
  }

  lemma AllocateSteps(s: System, t: TxId, job: Job, seen: Notice)
    requires Alone(s, t, job, Cleared, seen)
    ensures Follows(s, [EnsureCounter(t), TakeNumber(t)],
      At(s, t, Phase.Numbered(s.db.LastValue(Counter(job)) + 1, Counter(job) !in s.db.counters)))
  {
    assert Enabled(Apply(s, EnsureCounter(t)), TakeNumber(t));
    FollowsTwo(s, EnsureCounter(t), TakeNumber(t));
    assert Apply(Apply(s, EnsureCounter(t)), TakeNumber(t))
        == At(s, t, Phase.Numbered(s.db.LastValue(Counter(job)) + 1, Counter(job) !in s.db.counters));
  }

  lemma SoloConstraints(db: Db, notice: NoticeId, k: CounterKey)
    requires NumbersUsedOnce(db) && k.prefix == CLAIM_PREFIX
    requires forall c <- db.claims :: db.claims[c].noticeId != notice
    ensures !ClaimConstraintFires(db, notice, ClaimTables.Numbered(k, db.LastValue(k) + 1))
  {
    var r := ClaimTables.Numbered(k, db.LastValue(k) + 1);
    forall c <- db.claims ensures db.claims[c].reference.Text() != r.Text() {
      TextIsInjective(db.claims[c].reference, r);
    }
  }

  lemma WriteSteps(s: System, t: TxId, job: Job, seen: Notice, seqNo: nat, inserted: bool, id: ClaimId)
    requires Alone(s, t, job, Phase.Numbered(seqNo, inserted), seen) && Fresh(s, id)
    requires !ClaimConstraintFires(s.db, job.notice, ClaimTables.Numbered(Counter(job), seqNo))
    ensures Follows(s, [Write(t, id), Commit(t)],
      At(s, t, Finished(Created(id))).(db := ConvertAs(s.db, job.notice, seen, Counter(job), seqNo, id, job.actor)))
  {
    assert Apply(s, Write(t, id)).txs[t] == Loaded(job, Written(seqNo, inserted, id), seen);
    FollowsTwo(s, Write(t, id), Commit(t));
    assert Apply(Apply(s, Write(t, id)), Commit(t))
        == At(s, t, Finished(Created(id))).(db := ConvertAs(s.db, job.notice, seen, Counter(job), seqNo, id, job.actor));
  }

  /** The system once a create that loaded its notice as `seen` has committed claim `id`. */
  function After(s: System, t: TxId, job: Job, seen: Notice, id: ClaimId): System
    requires job.Create? && job.notice in s.db.notices
  {
    var k := Counter(job);
    System(ConvertAs(s.db, job.notice, seen, k, s.db.LastValue(k) + 1, id, job.actor),
           s.txs[t := Loaded(job, Finished(Created(id)), seen)])
  }

  lemma FirstHalf(s: System, t: TxId, job: Job, seen: Notice) returns (steps: seq<Step>)
    requires Alone(s, t, job, Begun, seen) && !Converted(s.db, job.notice)
    requires seen.status != ClaimCreated && Ready(AsSeen(seen, s.db.notices[job.notice]))
    ensures Follows(s, steps, At(s, t, Cleared))
  {
    var s1 := At(s, t, NoticeLocked);
    LockStep(s, t, job, seen);
    CheckSteps(s1, t, job, seen);
    assert At(s1, t, Cleared) == At(s, t, Cleared);
    FollowsConcat(s, [LockNotice(t)], s1, [LookForClaim(t), CheckBlockers(t)], At(s, t, Cleared));
    steps := [LockNotice(t)] + [LookForClaim(t), CheckBlockers(t)];
  }

  lemma SecondHalf(s: System, t: TxId, job: Job, seen: Notice, id: ClaimId) returns (steps: seq<Step>)
    requires NumbersUsedOnce(s.db) && Alone(s, t, job, Cleared, seen) && !Converted(s.db, job.notice) && Fresh(s, id)
    ensures Follows(s, steps, After(s, t, job, seen, id))
  {
    var k := Counter(job);
    var n, absent := s.db.LastValue(k) + 1, k !in s.db.counters;
    var s1 := At(s, t, Phase.Numbered(n, absent));
    AllocateSteps(s, t, job, seen);
    SoloConstraints(s.db, job.notice, k);
    assert Fresh(s1, id);
    WriteSteps(s1, t, job, seen, n, absent, id);
    var s2 := At(s1, t, Finished(Created(id))).(db := ConvertAs(s.db, job.notice, seen, k, n, id, job.actor));
    assert s2.txs == After(s, t, job, seen, id).txs;
    FollowsConcat(s, [EnsureCounter(t), TakeNumber(t)], s1, [Write(t, id), Commit(t)], s2);
    steps := [EnsureCounter(t), TakeNumber(t)] + [Write(t, id), Commit(t)];
  }

  /** Moving the create forward leaves it alone, its tables and its end as they were. */
  lemma StillAlone(s: System, t: TxId, job: Job, seen: Notice, phase: Phase, id: ClaimId)
    requires Alone(s, t, job, Begun, seen) && Fresh(s, id) && !phase.Written?
    ensures Alone(At(s, t, phase), t, job, phase, seen) && Fresh(At(s, t, phase), id) && At(s, t, phase).db == s.db
    ensures After(At(s, t, phase), t, job, seen, id) == After(s, t, job, seen, id)
  {
    assert After(At(s, t, phase), t, job, seen, id).txs == After(s, t, job, seen, id).txs;
  }

  /** From its lock on, a create that meets nobody makes its claim of what it had loaded. */
  lemma CreateCompletes(s: System, t: TxId, job: Job, seen: Notice, id: ClaimId) returns (steps: seq<Step>)
    requires NumbersUsedOnce(s.db) && Alone(s, t, job, Begun, seen) && !Converted(s.db, job.notice) && Fresh(s, id)
    requires seen.status != ClaimCreated && Ready(AsSeen(seen, s.db.notices[job.notice]))
    ensures Follows(s, steps, After(s, t, job, seen, id))
  {
    var checks := FirstHalf(s, t, job, seen);
    StillAlone(s, t, job, seen, Cleared, id);
    var writes := SecondHalf(At(s, t, Cleared), t, job, seen, id);
    FollowsConcat(s, checks, At(s, t, Cleared), writes, After(s, t, job, seen, id));
    steps := checks + writes;
  }

  function WithBegun(s: System, t: TxId, job: Job): System { s.(txs := s.txs[t := Tx(job, Begun, FirstRead(s.db, job))]) }

  // ---------------------------------------------------------------------------
  // Alone from the start: what the service's own code does
  // ---------------------------------------------------------------------------

  /**
   * A create that meets nobody commits exactly the tables that the service's `Create`
   * leaves behind when it makes a claim.
   */
  lemma SoloCreateMatchesService(s: System, t: TxId, job: Job, id: ClaimId) returns (steps: seq<Step>)
    requires NumbersUsedOnce(s.db) && AllFinished(s) && t !in s.txs && Fresh(s, id)
    requires job.Create? && Convertible(s.db, job.notice)
    ensures var k, row := Counter(job), s.db.notices[job.notice];
      Follows(s, steps, System(Convert(s.db, job.notice, k, s.db.LastValue(k) + 1, id, job.actor),
                               s.txs[t := Loaded(job, Finished(Created(id)), row)]))
  {
    var row, begun := s.db.notices[job.notice], WithBegun(s, t, job);
    FollowsOne(s, Begin(t, job));
    assert Fresh(begun, id);
    var rest := CreateCompletes(begun, t, job, row, id);
    assert After(begun, t, job, row, id).txs == s.txs[t := Loaded(job, Finished(Created(id)), row)];
    FollowsConcat(s, [Begin(t, job)], begun, rest, After(begun, t, job, row, id));
    steps := [Begin(t, job)] + rest;
  }

  /** How the protocol reports an answer that makes nothing. */
  function Reported(a: Answer): Outcome
    requires !a.Made?
  {
    match a
    case AlreadyMade(c) => Existing(c)
    case _ => Refused
  }

  lemma LookEnds(s: System, t: TxId, job: Job, seen: Notice, a: Answer)
    requires Linked(s.db) && Alone(s, t, job, NoticeLocked, seen) && seen == s.db.notices[job.notice]
    requires Explains(s.db, a, job.notice) && (a.AlreadyMade? || a.MarkedButUnlinked?)
    ensures Follows(s, [LookForClaim(t)], At(s, t, Finished(Reported(a))))
  {
    FollowsOne(s, LookForClaim(t));
    if a.AlreadyMade? {
      assert s.db.claims[a.claim].noticeId == job.notice;
      var phase := AfterLookForClaim(s.db, job.notice, seen);
      assert phase.outcome.id == a.claim;
    }
  }

  lemma BlockersEnd(s: System, t: TxId, job: Job, seen: Notice, a: Answer)
    requires Alone(s, t, job, NoticeLocked, seen) && seen == s.db.notices[job.notice]
    requires Explains(s.db, a, job.notice) && a.Blocked?
    ensures Follows(s, [LookForClaim(t), CheckBlockers(t)], At(s, t, Finished(Refused)))
  {
    EmptyChecklistMeansReady(seen);
    assert AsSeen(seen, seen) == seen;
    assert Apply(s, LookForClaim(t)) == At(s, t, NoClaimFound);
    FollowsTwo(s, LookForClaim(t), CheckBlockers(t));
    assert Apply(Apply(s, LookForClaim(t)), CheckBlockers(t)) == At(s, t, Finished(Refused));
  }

  lemma AnswerAfterLock(s: System, t: TxId, job: Job, a: Answer) returns (steps: seq<Step>)
    requires Linked(s.db) && AllFinished(s) && t !in s.txs && job.Create?
    requires Explains(s.db, a, job.notice) && !a.NoSuchNotice?
    ensures Follows(s, steps, s.(txs := s.txs[t := Loaded(job, Finished(Reported(a)), s.db.notices[job.notice])]))
  {
    var row, begun := s.db.notices[job.notice], WithBegun(s, t, job);
    var locked := At(begun, t, NoticeLocked);
    FollowsOne(s, Begin(t, job));
    LockStep(begun, t, job, row);
    FollowsConcat(s, [Begin(t, job)], begun, [LockNotice(t)], locked);
    var last := if a.Blocked? then [LookForClaim(t), CheckBlockers(t)] else [LookForClaim(t)];
    if a.Blocked? { BlockersEnd(locked, t, job, row, a); } else { LookEnds(locked, t, job, row, a); }
    var end := s.(txs := s.txs[t := Loaded(job, Finished(Reported(a)), row)]);
    assert At(locked, t, Finished(Reported(a))) == end;
    FollowsConcat(s, [Begin(t, job)] + [LockNotice(t)], locked, last, end);
    steps := [Begin(t, job)] + [LockNotice(t)] + last;
  }

  /**
   * And where the service's `Create` makes nothing, the create that meets nobody ends with
   * the very answer the service gives, the existing claim or a refusal, and no table moves.
   */
  lemma SoloAnswerMatchesService(s: System, t: TxId, job: Job, a: Answer) returns (steps: seq<Step>)
    requires Linked(s.db) && AllFinished(s) && t !in s.txs && job.Create? && Explains(s.db, a, job.notice)
    ensures Follows(s, steps, s.(txs := s.txs[t := Tx(job, Finished(Reported(a)), FirstRead(s.db, job))]))
  {
    if a.NoSuchNotice? {
      var begun := WithBegun(s, t, job);
      FollowsTwo(s, Begin(t, job), LockNotice(t));
      steps := [Begin(t, job), LockNotice(t)];
      assert At(begun, t, Finished(Refused)) == s.(txs := s.txs[t := Tx(job, Finished(Refused), None)]);
    } else {
      steps := AnswerAfterLock(s, t, job, a);
    }
  }

  // ---------------------------------------------------------------------------
  // A revision in between
  // ---------------------------------------------------------------------------

  lemma RevisionBetween(s: System, t: TxId, r: TxId, job: Job, contents: Notice) returns (steps: seq<Step>)
    requires AllFinished(s) && t !in s.txs && r !in s.txs && t != r && job.Create? && job.notice in s.db.notices
    requires IsRevisionOf(s.db.notices[job.notice], contents)
    ensures Follows(s, steps, System(
      s.db.(notices := s.db.notices[job.notice := contents]),
      s.txs[t := Tx(job, Begun, FirstRead(s.db, job))][r := Tx(Revise(job.notice), Finished(Revised), None)]))
  {
    var revise := Revise(job.notice);
    var s1 := WithBegun(s, t, job);
    var s2 := WithBegun(s1, r, revise);
    FollowsTwo(s, Begin(t, job), Begin(r, revise));
    assert Enabled(s2, LockNotice(r)) && Enabled(Apply(s2, LockNotice(r)), CommitRevision(r, contents));
    FollowsTwo(s2, LockNotice(r), CommitRevision(r, contents));
    var s4 := Apply(Apply(s2, LockNotice(r)), CommitRevision(r, contents));
    FollowsConcat(s, [Begin(t, job), Begin(r, revise)], s2, [LockNotice(r), CommitRevision(r, contents)], s4);
    steps := [Begin(t, job), Begin(r, revise)] + [LockNotice(r), CommitRevision(r, contents)];
    assert s4.txs == s.txs[t := Tx(job, Begun, FirstRead(s.db, job))][r := Tx(revise, Finished(Revised), None)];
  }

  /**
   * The session's copy does go stale. Whenever a notice can be converted, a revision that
   * commits between the create's first read and its lock, whatever it changes short of
   * raising a blocking exception or taking away the only claimant, leaves a claim made of
   * the notice as it was before.
   */
  lemma StaleClaimIsReachable(s: System, t: TxId, r: TxId, job: Job, contents: Notice, id: ClaimId)
    returns (steps: seq<Step>, last: System)
    requires NumbersUsedOnce(s.db) && AllFinished(s) && t !in s.txs && r !in s.txs && t != r && Fresh(s, id)
    requires job.Create? && Convertible(s.db, job.notice) && IsRevisionOf(s.db.notices[job.notice], contents)
    requires Ready(AsSeen(s.db.notices[job.notice], contents))
    ensures Follows(s, steps, last) && id in last.db.claims && job.notice in last.db.notices
    ensures last.db.claims[id].policyId == s.db.notices[job.notice].policyId
    ensures last.db.claims[id].dateOfLoss == s.db.notices[job.notice].dateOfLoss
    ensures last.db.notices[job.notice] == contents.(claimId := Some(id), status := ClaimCreated)
  {
    var row := s.db.notices[job.notice];
    var before := RevisionBetween(s, t, r, job, contents);
    var mid := System(
      s.db.(notices := s.db.notices[job.notice := contents]),
      s.txs[t := Tx(job, Begun, FirstRead(s.db, job))][r := Tx(Revise(job.notice), Finished(Revised), None)]);
    assert NumbersUsedOnce(mid.db) by { ReplaceKeepsNumbers(s.db, job.notice, contents); }
    assert Fresh(mid, id) && !Converted(mid.db, job.notice);
    var after := CreateCompletes(mid, t, job, row, id);
    last := After(mid, t, job, row, id);
    FollowsConcat(s, before, mid, after, last);
    steps := before + after;
  }
}
