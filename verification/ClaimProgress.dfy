/**
 * No mix of creates and intakes can block itself, nor with revisions that lock nothing but
 * the notice, which is all ClaimProtocol knows of a revision. What revisions lock beside it,
 * and which of them can deadlock, is in RevisionLocks.
 */
module ClaimProgress {
  import opened Wrappers
  import opened References
  import opened Lifecycle
  import opened ClaimTables
  import opened ClaimProtocol
  import opened ClaimSafety
  import opened ClaimTheorems

  /** Statements a transaction still has ahead of it, at most. */
  function Rank(p: Phase): nat {
    match p
    case Begun => 7
    case NoticeLocked => 6
    case NoClaimFound => 5
    case Cleared => 4
    case CounterPresent(_) => 3
    case Numbered(_, _) => 2
    case Written(_, _, _) => 1
    case Finished(_) => 0
  }

  ghost predicate AllFinished(s: System) { forall t <- s.txs :: s.txs[t].phase.Finished? }

  /** A statement of a running transaction: not an arrival, an abort or an officer's edit. */
  predicate IsProgress(step: Step) {
    !step.Begin? && !step.Rollback? && !step.CloseException?
  }

  ghost function Above(ids: set<nat>): (b: nat)
    ensures forall i <- ids :: i < b
  {
    if ids == {} then 0
    else
      var x :| x in ids;
      var rest := Above(ids - {x});
      assert forall i <- ids :: i == x || i in ids - {x};
      if x < rest then rest else x + 1
  }

  /** An id nobody has drawn. */
  ghost function FreshId(s: System): (id: nat)
    ensures Fresh(s, id)
  {
    var drawn := set t <- s.txs | s.txs[t].phase.Written? :: s.txs[t].phase.id;
    Above(s.db.claims.Keys + s.db.notices.Keys + drawn)
  }

  ghost predicate NoneAt(s: System, rank: nat) {
    forall t <- s.txs :: Rank(s.txs[t].phase) == 0 || Rank(s.txs[t].phase) >= rank
  }

  /** Nobody who is nearer the end holds the counter, so nobody does. */
  lemma CounterIsFree(s: System, t: TxId)
    requires Inv(s) && t in s.txs && !s.txs[t].job.Revise? && s.txs[t].phase.CounterPresent?
    requires NoneAt(s, 3)
    ensures CounterFree(s, t, Counter(s.txs[t].job))
  {
    forall u <- s.txs | u != t ensures !HoldsCounter(s.txs[u], Counter(s.txs[t].job)) {
      OneInserter(s, t, u);
    }
  }

  lemma OneInserter(s: System, t: TxId, u: TxId)
    requires Inv(s) && t in s.txs && u in s.txs && u != t && NoneAt(s, 3)
    requires !s.txs[t].job.Revise? && s.txs[t].phase.CounterPresent?
    ensures !HoldsCounter(s.txs[u], Counter(s.txs[t].job))
  {
    assert Exclusive(s.txs[t], s.txs[u]) && TxOk(s.db, s.txs[u]) && TxOk(s.db, s.txs[t]);
    assert Rank(s.txs[u].phase) == 0 || Rank(s.txs[u].phase) >= 3;
  }

  lemma NothingWaitsToInsert(s: System, t: TxId)
    requires NoneAt(s, 2)
    ensures !InsertWaits(s, t)
  {
    forall u <- s.txs ensures !s.txs[u].phase.Written? {
      assert Rank(s.txs[u].phase) == 0 || Rank(s.txs[u].phase) >= 2;
    }
  }

  lemma NoticeIsFree(s: System, n: NoticeId)
    requires Inv(s) && NoneAt(s, 7)
    ensures NoticeFree(s, n)
  {
    forall u <- s.txs ensures !HoldsNotice(s.txs[u], n) {
      assert Rank(s.txs[u].phase) == 0 || Rank(s.txs[u].phase) >= 7;
    }
  }

  lemma CounterCanBeEnsured(s: System, t: TxId)
    requires Inv(s) && t in s.txs && !s.txs[t].job.Revise? && s.txs[t].phase.Cleared? && NoneAt(s, 4)
    ensures Enabled(s, EnsureCounter(t))
  {
    forall u <- s.txs ensures !HoldsCounter(s.txs[u], Counter(s.txs[t].job)) {
      assert Rank(s.txs[u].phase) == 0 || Rank(s.txs[u].phase) >= 4;
    }
  }

  /**
   * The next statement of a transaction with the fewest left to go is never blocked:
   * whoever is closest to its commit waits for nobody.
   */
  lemma ClosestCanStep(s: System, t: TxId) returns (step: Step)
    requires Inv(s) && t in s.txs && !s.txs[t].phase.Finished?
    requires NoneAt(s, Rank(s.txs[t].phase))
    ensures Enabled(s, step) && IsProgress(step) && step.t == t
  {
    var tx := s.txs[t];
    assert TxOk(s.db, tx);
    match tx.phase
    case Begun =>
      if tx.job.Ingest? {
        step := LookForDelivery(t);
      } else {
        NoticeIsFree(s, tx.job.notice);
        step := LockNotice(t);
      }
    case NoticeLocked =>
      step := if tx.job.Create? then LookForClaim(t) else CommitRevision(t, s.db.notices[tx.job.notice]);
    case NoClaimFound => step := CheckBlockers(t);
    case Cleared =>
      CounterCanBeEnsured(s, t);
      step := EnsureCounter(t);
    case CounterPresent(inserted) =>
      CounterIsFree(s, t);
      step := TakeNumber(t);
    case Numbered(_, _) =>
      NothingWaitsToInsert(s, t);
      step := Write(t, FreshId(s));
    case Written(_, _, _) => step := Commit(t);
  }

  lemma {:induction false} ClosestExists(s: System, t: TxId, rank: nat) returns (closest: TxId)
    requires t in s.txs && !s.txs[t].phase.Finished? && rank >= Rank(s.txs[t].phase)
    ensures closest in s.txs && !s.txs[closest].phase.Finished?
    ensures NoneAt(s, Rank(s.txs[closest].phase))
    decreases rank
  {
    if NoneAt(s, Rank(s.txs[t].phase)) {
      closest := t;
    } else {
      var u :| u in s.txs && 0 < Rank(s.txs[u].phase) < Rank(s.txs[t].phase);
      closest := ClosestExists(s, u, Rank(s.txs[u].phase));
    }
  }

  /** Statements all transactions together still have ahead of them. */
  ghost function Work(txs: map<TxId, Tx>): nat
    decreases |txs|
  {
    if txs == map[] then 0
    else
      var t :| t in txs;
      assert |(txs - {t}).Keys| < |txs.Keys| by { assert (txs - {t}).Keys == txs.Keys - {t}; }
      Rank(txs[t].phase) + Work(txs - {t})
  }

  lemma {:induction false} WorkSplits(txs: map<TxId, Tx>, t: TxId)
    requires t in txs
    ensures Work(txs) == Rank(txs[t].phase) + Work(txs - {t})
    decreases |txs|
  {
    var u :| u in txs && Work(txs) == Rank(txs[u].phase) + Work(txs - {u});
    if u != t {
      assert (txs - {u}).Keys == txs.Keys - {u} && (txs - {t}).Keys == txs.Keys - {t};
      WorkSplits(txs - {u}, t);
      WorkSplits(txs - {t}, u);
      assert txs - {u} - {t} == txs - {t} - {u};
    }
  }

  lemma ProgressLowersRank(s: System, step: Step)
    requires Enabled(s, step) && IsProgress(step)
    ensures var s' := Apply(s, step);
      && step.t in s.txs && step.t in s'.txs
      && s'.txs == s.txs[step.t := s'.txs[step.t]]
      && Rank(s'.txs[step.t].phase) < Rank(s.txs[step.t].phase)
  {
  }

  lemma ProgressReducesWork(s: System, step: Step)
    requires Enabled(s, step) && IsProgress(step)
    ensures Work(Apply(s, step).txs) < Work(s.txs)
  {
    ProgressLowersRank(s, step);
    var before, after, t := s.txs, Apply(s, step).txs, step.t;
    WorkSplits(before, t);
    WorkSplits(after, t);
    assert after - {t} == before - {t};
  }

  /** The states a list of steps leads through. */
  ghost predicate Leads(states: seq<System>, steps: seq<Step>) {
    && |states| == |steps| + 1
    && forall i :: 0 <= i < |steps| ==>
         Enabled(states[i], steps[i]) && IsProgress(steps[i]) && states[i + 1] == Apply(states[i], steps[i])
  }

  lemma LeadsFrom(s: System, step: Step, rest: seq<System>, more: seq<Step>)
    requires Enabled(s, step) && IsProgress(step) && Leads(rest, more) && rest[0] == Apply(s, step)
    ensures Leads([s] + rest, [step] + more)
  {
    var states, steps := [s] + rest, [step] + more;
    forall i | 0 <= i < |steps|
      ensures Enabled(states[i], steps[i]) && IsProgress(steps[i]) && states[i + 1] == Apply(states[i], steps[i])
    {
      if i > 0 {
        assert states[i] == rest[i - 1] && steps[i] == more[i - 1] && states[i + 1] == rest[i];
      }
    }
  }

  /** Some transaction can step, without any being aborted. */
  lemma CanProgress(s: System) returns (step: Step)
    requires Inv(s) && !AllFinished(s)
    ensures Enabled(s, step) && IsProgress(step)
  {
    var t :| t in s.txs && !s.txs[t].phase.Finished?;
    var closest := ClosestExists(s, t, Rank(s.txs[t].phase));
    step := ClosestCanStep(s, closest);
  }

  /** No reachable state of the protocol is deadlocked: while anything is unfinished, some transaction can step. */
  lemma NeverDeadlocked(states: seq<System>, steps: seq<Step>, i: nat) returns (step: Step)
    requires IsRun(states, steps) && i < |states| && !AllFinished(states[i])
    ensures Enabled(states[i], step) && IsProgress(step)
  {
    RunKeepsInv(states, steps, i);
    step := CanProgress(states[i]);
  }

  /**
   * From any state the protocol can reach, every transaction in flight can be run to its
   * end without aborting a single one.
   */
  lemma {:induction false} Drains(s: System) returns (states: seq<System>, steps: seq<Step>)
    requires Inv(s)
    ensures Leads(states, steps) && states[0] == s && AllFinished(states[|steps|])
    decreases Work(s.txs)
  {
    if AllFinished(s) {
      states, steps := [s], [];
    } else {
      var step := CanProgress(s);
      StepKeepsInv(s, step);
      ProgressReducesWork(s, step);
      var rest, more := Drains(Apply(s, step));
      LeadsFrom(s, step, rest, more);
      states, steps := [s] + rest, [step] + more;
    }
  }
}
