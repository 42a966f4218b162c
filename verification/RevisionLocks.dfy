/**
 * The row locks of everything that writes to a notice, and when it can deadlock.
 *
 * A transaction takes row locks one after another, as its flushes reach the rows, and holds
 * them to its end. Claim creation locks the notice and then a counter; an intake locks a
 * counter; a pipeline run flushes the notice first (processing_started_at always changes),
 * then the rows its stages rewrite, and after those the exceptions. An officer's decision
 * flushes the row that was decided, and the notice only afterwards, if its status moved.
 * These are exclusive locks; SharedLocks has the shared ones.
 */
module RevisionLocks {
  import opened Wrappers
  import opened Lifecycle
  import opened ClaimTables
  import DR = DuplicateReview
  import ER = ExceptionReview
  import NP = NoticePipeline

  /** Reviewed rows are fields, policy matches and duplicate candidates; raised ones exceptions. */
  datatype Row =
    | CaseRow(notice: NoticeId)
    | ReviewedRow(notice: NoticeId, id: nat)
    | RaisedRow(notice: NoticeId, id: nat)
    | CounterRow(counter: CounterKey)

  /** The rows a transaction locks, in the order it locks them. */
  type Program = seq<Row>

  datatype Tx = Tx(program: Program, taken: nat)

  type TxId = nat

  /** The transactions in flight. */
  type System = map<TxId, Tx>

  datatype Step = Begin(t: TxId, program: Program) | Take(t: TxId) | End(t: TxId)

  predicate Waiting(tx: Tx) { tx.taken < |tx.program| }

  predicate Holds(tx: Tx, r: Row) { exists i: nat :: i < tx.taken && i < |tx.program| && tx.program[i] == r }

  /** Ending is a commit once every row is taken, and an abort before that. */
  ghost predicate Enabled(jobs: iset<Program>, s: System, step: Step) {
    match step
    case Begin(t, p) => t !in s && p in jobs
    case Take(t) =>
      t in s && Waiting(s[t]) && forall u <- s :: u != t ==> !Holds(s[u], s[t].program[s[t].taken])
    case End(t) => t in s
  }

  function Apply(s: System, step: Step): System
    requires !step.Begin? ==> step.t in s
  {
    match step
    case Begin(t, p) => s[t := Tx(p, 0)]
    case Take(t) => s[t := s[t].(taken := s[t].taken + 1)]
    case End(t) => s - {t}
  }

  ghost predicate IsRun(jobs: iset<Program>, states: seq<System>, steps: seq<Step>) {
    && |states| == |steps| + 1 && states[0] == map[]
    && forall i :: 0 <= i < |steps| ==> Enabled(jobs, states[i], steps[i]) && states[i + 1] == Apply(states[i], steps[i])
  }

  ghost predicate Reachable(jobs: iset<Program>, s: System) {
    exists states: seq<System>, steps: seq<Step> :: IsRun(jobs, states, steps) && states[|steps|] == s
  }

  predicate WaitsFor(s: System, t: TxId, u: TxId) {
    t in s && u in s && t != u && Waiting(s[t]) && Holds(s[u], s[t].program[s[t].taken])
  }

  ghost predicate WaitsIn(s: System, t: TxId, group: set<TxId>) { exists u <- group :: WaitsFor(s, t, u) }

  /** Everyone in the group waits for someone in it: nobody moves until the database aborts one. */
  ghost predicate Deadlocked(s: System, group: set<TxId>) {
    group != {} && forall t {:trigger WaitsIn(s, t, group)} :: t in group ==> WaitsIn(s, t, group)
  }

  ghost predicate DeadlockFree(jobs: iset<Program>) {
    forall s: System, group: set<TxId> :: Reachable(jobs, s) ==> !Deadlocked(s, group)
  }

  /** While something is in flight and nothing is deadlocked, some transaction can go on. */
  lemma SomeoneGoesOn(jobs: iset<Program>, s: System) returns (t: TxId)
    requires DeadlockFree(jobs) && Reachable(jobs, s) && s != map[]
    ensures t in s && (Waiting(s[t]) ==> Enabled(jobs, s, Take(t)))
  {
    assert !Deadlocked(s, s.Keys);
    assert s.Keys != {} by { var u :| u in s; assert u in s.Keys; }
    t :| t in s.Keys && !WaitsIn(s, t, s.Keys);
    if Waiting(s[t]) {
      forall u <- s | u != t ensures !Holds(s[u], s[t].program[s[t].taken]) {
        assert !WaitsFor(s, t, u);
      }
    }
  }

  // ---------------------------------------------------------------------------
  // What runs against the tables
  // ---------------------------------------------------------------------------

  predicate Distinct(p: Program) { forall i, j :: 0 <= i < j < |p| ==> p[i] != p[j] }

  predicate IsChild(r: Row) { r.ReviewedRow? || r.RaisedRow? }

  predicate OnNotice(p: Program, n: NoticeId) { forall r <- p :: !r.CounterRow? && r.notice == n }

  /** In the order a run's flushes reach them. */
  function Rank(r: Row): nat {
    match r case CaseRow(_) => 0 case ReviewedRow(_, _) => 1 case RaisedRow(_, _) => 2 case CounterRow(_) => 3
  }

  predicate NeverFalls(p: Program) { forall i, j :: 0 <= i < j < |p| ==> Rank(p[i]) <= Rank(p[j]) }

  predicate AlwaysRises(p: Program) { forall i, j :: 0 <= i < j < |p| ==> Rank(p[i]) < Rank(p[j]) }

  predicate CaseFirst(p: Program) { p != [] && p[0].CaseRow? }

  predicate IsCreate(p: Program) { |p| == 2 && p[0].CaseRow? && p[1].CounterRow? }

  predicate IsIntake(p: Program) { |p| == 1 && p[0].CounterRow? }

  /** The notice, then whatever the stages change, then whatever exceptions change. */
  predicate IsPipelineRun(p: Program) {
    CaseFirst(p) && Distinct(p) && OnNotice(p, p[0].notice) && NeverFalls(p)
  }

  /** A decision that leaves the status where it is. */
  predicate IsQuietDecision(p: Program) {
    || (|p| == 1 && IsChild(p[0]))
    || (|p| == 2 && p[0].ReviewedRow? && p[1].RaisedRow? && p[0].notice == p[1].notice)
  }

  predicate IsBase(p: Program) { IsCreate(p) || IsIntake(p) || IsPipelineRun(p) || IsQuietDecision(p) }

  /** Rows of one notice, each locked once. */
  ghost predicate IsEdit(p: Program) { Distinct(p) && exists n: NoticeId :: OnNotice(p, n) }

  /** Creates, intakes, runs, quiet decisions, and these edits besides. */
  ghost function With(edits: iset<Program>): iset<Program> { iset p: Program | IsBase(p) || p in edits }

  /** The rows in a run's order, and no two of one kind unless the notice is locked first. */
  predicate Polite(p: Program) { NeverFalls(p) && (CaseFirst(p) || AlwaysRises(p)) }

  // ---------------------------------------------------------------------------
  // Polite transactions never deadlock
  // ---------------------------------------------------------------------------

  /** What the argument needs of a program, creates and intakes included. */
  ghost predicate Orderly(p: Program) {
    && Distinct(p) && Polite(p)
    && (forall i, j :: 0 <= i < j < |p| ==> !(p[i].CounterRow? && p[j].CounterRow?))
    && exists n: NoticeId :: AllOf(p, n)
  }

  predicate AllOf(p: Program, n: NoticeId) { forall r <- p :: r.CounterRow? || r.notice == n }

  lemma BaseIsOrderly(p: Program)
    requires IsBase(p)
    ensures Orderly(p)
  {
    assert AllOf(p, if p[0].CounterRow? then 0 else p[0].notice);
  }

  lemma PoliteIsOrderly(p: Program)
    requires IsEdit(p) && Polite(p)
    ensures Orderly(p)
  {
    var n: NoticeId :| OnNotice(p, n);
    assert AllOf(p, n);
  }

  /** No row has two holders, and everyone runs an orderly program. */
  ghost predicate Sound(s: System) {
    && (forall t <- s :: Orderly(s[t].program) && s[t].taken <= |s[t].program|)
    && (forall t <- s, u <- s, r: Row :: t != u && Holds(s[t], r) ==> !Holds(s[u], r))
  }

  lemma HoldsOneMore(tx: Tx, r: Row)
    requires Waiting(tx)
    ensures Holds(tx.(taken := tx.taken + 1), r) <==> Holds(tx, r) || r == tx.program[tx.taken]
  {
    var more := tx.(taken := tx.taken + 1);
    if r == tx.program[tx.taken] { assert more.program[tx.taken] == r; }
  }

  lemma StepKeepsSound(jobs: iset<Program>, s: System, step: Step)
    requires Sound(s) && Enabled(jobs, s, step) && forall p <- jobs :: Orderly(p)
    ensures Sound(Apply(s, step))
  {
    match step
    case Begin(t, p) =>
    case End(t) =>
    case Take(t) =>
      forall r: Row ensures Holds(Apply(s, step)[t], r) <==> Holds(s[t], r) || r == s[t].program[s[t].taken] {
        HoldsOneMore(s[t], r);
      }
  }

  lemma {:induction false} RunKeepsSound(jobs: iset<Program>, states: seq<System>, steps: seq<Step>, i: nat)
    requires IsRun(jobs, states, steps) && i < |states| && forall p <- jobs :: Orderly(p)
    ensures Sound(states[i])
  {
    if i > 0 {
      RunKeepsSound(jobs, states, steps, i - 1);
      StepKeepsSound(jobs, states[i - 1], steps[i - 1]);
    }
  }

  function NextRank(s: System, t: TxId): nat
    requires t in s && Waiting(s[t])
  {
    Rank(s[t].program[s[t].taken])
  }

  ghost predicate Highest(s: System, group: set<TxId>, rank: nat) {
    forall t <- group :: t in s && Waiting(s[t]) && NextRank(s, t) <= rank
  }

  lemma {:induction false} HighestExists(s: System, group: set<TxId>, t: TxId) returns (top: TxId)
    requires t in group && forall u <- group :: u in s && Waiting(s[u])
    ensures top in group && Highest(s, group, NextRank(s, top))
    decreases 3 - NextRank(s, t)
  {
    if Highest(s, group, NextRank(s, t)) {
      top := t;
    } else {
      var u :| u in group && NextRank(s, u) > NextRank(s, t);
      top := HighestExists(s, group, u);
    }
  }

  /** Who holds a row of the highest rank waited for and waits too, holds the row's notice. */
  lemma HolderHoldsCase(s: System, group: set<TxId>, u: TxId, r: Row)
    requires Sound(s) && u in group && Highest(s, group, Rank(r)) && Holds(s[u], r)
    ensures IsChild(r) && Holds(s[u], CaseRow(r.notice))
    ensures var next := s[u].program[s[u].taken]; Rank(next) == Rank(r) && IsChild(next) && next.notice == r.notice
  {
    var p, k := s[u].program, s[u].taken;
    var i: nat :| i < k && p[i] == r;
    var n: NoticeId :| AllOf(p, n);
    assert Rank(p[i]) <= Rank(p[k]);
    assert p[i] in p && p[k] in p && p[0] in p;
    assert p[i] != p[k];
    assert CaseFirst(p);
    assert p[0] == CaseRow(n);
  }

  /** Following the waits from the highest row would lead to two holders of one notice. */
  lemma NoWaitFromTheTop(s: System, group: set<TxId>, t: TxId, u: TxId, v: TxId)
    requires Sound(s) && u in group && v in group && WaitsFor(s, t, u)
    requires Highest(s, group, NextRank(s, t))
    ensures !WaitsFor(s, u, v)
  {
    if WaitsFor(s, u, v) {
      HolderHoldsCase(s, group, u, s[t].program[s[t].taken]);
      HolderHoldsCase(s, group, v, s[u].program[s[u].taken]);
    }
  }

  lemma OrderlyNeverDeadlocks(s: System, group: set<TxId>)
    requires Sound(s)
    ensures !Deadlocked(s, group)
  {
    if Deadlocked(s, group) {
      forall v | v in group ensures v in s && Waiting(s[v]) {
        assert WaitsIn(s, v, group);
      }
      var any :| any in group;
      var t := HighestExists(s, group, any);
      assert WaitsIn(s, t, group);
      var u :| u in group && WaitsFor(s, t, u);
      assert WaitsIn(s, u, group);
      var v :| v in group && WaitsFor(s, u, v);
      NoWaitFromTheTop(s, group, t, u, v);
    }
  }

  lemma PoliteIsEnough(edits: iset<Program>)
    requires forall p <- edits :: IsEdit(p) && Polite(p)
    ensures DeadlockFree(With(edits))
  {
    forall p | p in With(edits) ensures Orderly(p) {
      if IsBase(p) { BaseIsOrderly(p); } else { PoliteIsOrderly(p); }
    }
    forall s: System, group: set<TxId> | Reachable(With(edits), s) ensures !Deadlocked(s, group) {
      var states: seq<System>, steps: seq<Step> :| IsRun(With(edits), states, steps) && states[|steps|] == s;
      RunKeepsSound(With(edits), states, steps, |steps|);
      OrderlyNeverDeadlocks(s, group);
    }
  }

  // ---------------------------------------------------------------------------
  // Any other edit can
  // ---------------------------------------------------------------------------

  lemma OneMoreStep(jobs: iset<Program>, s: System, step: Step)
    requires Reachable(jobs, s) && Enabled(jobs, s, step)
    ensures Reachable(jobs, Apply(s, step))
  {
    var states: seq<System>, steps: seq<Step> :| IsRun(jobs, states, steps) && states[|steps|] == s;
    var longer, more := states + [Apply(s, step)], steps + [step];
    forall i | 0 <= i < |more| ensures Enabled(jobs, longer[i], more[i]) && longer[i + 1] == Apply(longer[i], more[i]) {
      if i < |steps| {
        assert longer[i] == states[i] && longer[i + 1] == states[i + 1] && more[i] == steps[i];
      }
    }
    assert IsRun(jobs, longer, more) && longer[|more|] == Apply(s, step);
  }

  /** A transaction takes its next rows when nobody else holds any of them. */
  lemma {:induction false} TakeMany(jobs: iset<Program>, s: System, t: TxId, p: Program, k: nat)
    requires t !in s && p in jobs && k <= |p| && Reachable(jobs, s)
    requires forall u <- s, i: nat :: i < k ==> !Holds(s[u], p[i])
    ensures Reachable(jobs, s[t := Tx(p, k)])
  {
    if k == 0 {
      OneMoreStep(jobs, s, Begin(t, p));
    } else {
      TakeMany(jobs, s, t, p, k - 1);
      var before := s[t := Tx(p, k - 1)];
      OneMoreStep(jobs, before, Take(t));
      assert Apply(before, Take(t)) == s[t := Tx(p, k)];
    }
  }

  lemma EmptyIsReachable(jobs: iset<Program>)
    ensures Reachable(jobs, map[])
  {
    var states: seq<System>, steps: seq<Step> := [map[]], [];
    assert IsRun(jobs, states, steps) && states[|steps|] == map[];
  }

  /** Two programs that reach for each other's row. */
  predicate Cross(p: Program, i: nat, q: Program, j: nat) {
    && i < |p| && j < |q| && p[i] in q[..j] && q[j] in p[..i]
    && forall r <- p[..i] :: r !in q[..j]
  }

  lemma BothWait(p: Program, i: nat, q: Program, j: nat)
    requires Cross(p, i, q, j)
    ensures var s: System := map[0 := Tx(p, i), 1 := Tx(q, j)];
      WaitsFor(s, 0, 1) && WaitsFor(s, 1, 0)
  {
    var a: nat :| a < j && q[a] == p[i];
    var b: nat :| b < i && p[b] == q[j];
  }

  lemma HeldAreTaken(p: Program, i: nat, r: Row)
    requires i <= |p|
    ensures Holds(Tx(p, i), r) <==> r in p[..i]
  {
    if Holds(Tx(p, i), r) {
      var h: nat :| h < i && p[h] == r;
      assert p[..i][h] == r;
    }
  }

  lemma CrossingIsReachable(jobs: iset<Program>, p: Program, i: nat, q: Program, j: nat)
    requires p in jobs && q in jobs && Cross(p, i, q, j)
    ensures Reachable(jobs, map[0 := Tx(p, i), 1 := Tx(q, j)])
  {
    EmptyIsReachable(jobs);
    TakeMany(jobs, map[], 0, p, i);
    var first: System := map[0 := Tx(p, i)];
    assert map[][0 := Tx(p, i)] == first;
    forall k: nat | k < j ensures !Holds(first[0], q[k]) {
      assert q[..j][k] == q[k];
      HeldAreTaken(p, i, q[k]);
    }
    TakeMany(jobs, first, 1, q, j);
    assert first[1 := Tx(q, j)] == map[0 := Tx(p, i), 1 := Tx(q, j)];
  }

  lemma CrossingDeadlocks(jobs: iset<Program>, p: Program, i: nat, q: Program, j: nat)
    requires p in jobs && q in jobs && Cross(p, i, q, j)
    ensures !DeadlockFree(jobs)
  {
    CrossingIsReachable(jobs, p, i, q, j);
    BothWait(p, i, q, j);
    var s: System := map[0 := Tx(p, i), 1 := Tx(q, j)];
    assert Deadlocked(s, {0, 1});
  }

  /** A run or a quiet decision. */
  predicate IsRival(q: Program) { IsPipelineRun(q) || IsQuietDecision(q) }

  /** The three ways an edit can fail to be polite, and what crosses it each time. */
  lemma ImpoliteIsCrossed(e: Program) returns (i: nat, q: Program, j: nat)
    requires IsEdit(e) && !Polite(e)
    ensures IsRival(q) && Cross(e, i, q, j)
  {
    var n: NoticeId :| OnNotice(e, n);
    assert forall r <- e :: !r.CounterRow? && r.notice == n;
    if b: nat :| 0 < b < |e| && e[b].CaseRow? {
      q := CaseTakenLate(e, b);
      i, j := b, 1;
    } else if CaseFirst(e) {
      var a: nat, b: nat :| a < b < |e| && Rank(e[a]) > Rank(e[b]);
      assert e[a] in e && e[b] in e;
      assert IsChild(e[a]) && IsChild(e[b]);
      q := CrossesDecision(e, a, b);
      i, j := b, 1;
    } else {
      var a: nat, b: nat :| a < b < |e| && Rank(e[a]) >= Rank(e[b]);
      assert e[a] in e && e[b] in e;
      q := NoticeNeverTaken(e, a, b);
      i, j := b, 2;
    }
  }

  /** The notice is locked after a row of its own: a run that changes that row crosses it. */
  lemma CaseTakenLate(e: Program, b: nat) returns (run: Program)
    requires IsEdit(e) && 0 < b < |e| && e[b].CaseRow?
    ensures IsPipelineRun(run) && Cross(e, b, run, 1)
  {
    var n: NoticeId :| OnNotice(e, n);
    assert e[0] in e && e[b] in e && e[0] != e[b];
    run := [e[b], e[0]];
    assert run[..1] == [e[b]];
    assert e[b] in run[..1] && run[1] in e[..b];
    forall r | r in e[..b] ensures r !in run[..1] {
      var k :| 0 <= k < b && e[k] == r;
      assert e[k] != e[b];
    }
  }

  /** The notice is first but an exception comes before a reviewed row: a quiet decision crosses it. */
  lemma CrossesDecision(e: Program, a: nat, b: nat) returns (decision: Program)
    requires IsEdit(e) && a < b < |e| && e[a].RaisedRow? && e[b].ReviewedRow?
    ensures IsQuietDecision(decision) && Cross(e, b, decision, 1)
  {
    var n: NoticeId :| OnNotice(e, n);
    assert e[a] in e && e[b] in e;
    decision := [e[b], e[a]];
    assert decision[..1] == [e[b]];
    assert e[b] in decision[..1] && decision[1] in e[..b];
    forall r | r in e[..b] ensures r !in decision[..1] {
      var k :| 0 <= k < b && e[k] == r;
      assert e[k] != e[b];
    }
  }

  /** Two rows out of order without the notice: a run that changes both crosses it. */
  lemma NoticeNeverTaken(e: Program, a: nat, b: nat) returns (run: Program)
    requires IsEdit(e) && a < b < |e| && Rank(e[a]) >= Rank(e[b])
    requires forall r <- e :: IsChild(r)
    ensures IsPipelineRun(run) && Cross(e, b, run, 2)
  {
    var n: NoticeId :| OnNotice(e, n);
    assert e[a] in e && e[b] in e && e[a] != e[b];
    run := [CaseRow(n), e[b], e[a]];
    assert run[..2] == [CaseRow(n), e[b]];
    assert e[b] in run[..2] && run[2] in e[..b];
    forall r | r in e[..b] ensures r !in run[..2] {
      var k :| 0 <= k < b && e[k] == r;
      assert e[k] != e[b] && e[k] in e;
    }
  }

  /**
   * Beside creates, intakes, runs and quiet decisions, edits are free of deadlock exactly
   * when each is polite: it locks rows in a run's order, and either locks the notice first
   * or no two rows of one kind.
   */
  lemma DeadlockFreeExactlyWhen(edits: iset<Program>)
    requires forall p <- edits :: IsEdit(p)
    ensures DeadlockFree(With(edits)) <==> forall p <- edits :: Polite(p)
  {
    if forall p <- edits :: Polite(p) {
      PoliteIsEnough(edits);
    } else {
      var e :| e in edits && !Polite(e);
      var i, q, j := ImpoliteIsCrossed(e);
      CrossingDeadlocks(With(edits), e, i, q, j);
    }
  }

  // ---------------------------------------------------------------------------
  // The decisions officers make
  // ---------------------------------------------------------------------------

  /** The notice is written at the commit, if its status is another. */
  function IfMoved(n: NoticeId, before: Status, after: Status): Program {
    if after == before then [] else [CaseRow(n)]
  }

  /** `resolve_exception`: the decided row is flushed before the status is derived. A refusal locks nothing. */
  function ExceptionDecision(
    n: NoticeId, id: nat, f: NP.File, code: ExceptionCode, standing: ER.Standing, officer: string, note: Option<string>): Program
  {
    if !ER.IsOpen(f.exceptions, code) then []
    else [RaisedRow(n, id)] + IfMoved(n, f.status, NP.AfterException(f, code, standing, officer, note).status)
  }

  /** The decision takes the row of the duplicate question with it. */
  ghost predicate ClosesQuestion(f: NP.File, r: string) {
    !NP.OthersOutstanding(f.duplicates, r) && ER.IsOpen(f.exceptions, DuplicateSuspected)
  }

  /**
   * `resolve_duplicate`: a marked duplicate rejects the notice in the same flush, which
   * writes the notice first; any other decision is flushed with the question it closes,
   * if it closes it, and the notice only after that.
   */
  ghost function DuplicateDecision(
    n: NoticeId, id: nat, question: nat, f: NP.File, r: string, d: DR.Resolution, officer: string, note: Option<string>): Program
  {
    var after := NP.AfterDuplicate(f, r, d, officer, note).status;
    if f.status == ClaimCreated || r !in f.duplicates then []
    else if d == DR.MarkedDuplicate then IfMoved(n, f.status, after) + [ReviewedRow(n, id)]
    else [ReviewedRow(n, id)] + (if ClosesQuestion(f, r) then [RaisedRow(n, question)] else []) + IfMoved(n, f.status, after)
  }

  /** With these codes open the notice would have the status it has. */
  predicate StatusFits(f: NP.File, open: set<ExceptionCode>) { DeriveStatus(f.status, open, false) == f.status }

  /** What a decision on this exception leaves open. */
  function OpenWithout(f: NP.File, code: ExceptionCode, standing: ER.Standing): set<ExceptionCode> {
    ER.OpenCodes(f.exceptions) - (if standing == ER.Open then {} else {code})
  }

  /** What a decision on this candidate, short of marking it a duplicate, leaves open. */
  ghost function OpenBeside(f: NP.File, r: string): set<ExceptionCode> {
    ER.OpenCodes(f.exceptions) - (if NP.OthersOutstanding(f.duplicates, r) then {} else {DuplicateSuspected})
  }

  lemma ExceptionLeavesOpen(
    f: NP.File, code: ExceptionCode, standing: ER.Standing, officer: string, note: Option<string>)
    requires ER.IsOpen(f.exceptions, code)
    ensures NP.AfterException(f, code, standing, officer, note).status == DeriveStatus(f.status, OpenWithout(f, code, standing), false)
  {
    assert ER.OpenCodes(ER.AfterDecision(f.exceptions, code, standing, officer, note)) == OpenWithout(f, code, standing);
  }

  /**
   * Deciding an exception cannot deadlock exactly when it is refused, or the notice already
   * has the status that what else is open implies.
   */
  lemma ExceptionDecisionSafeExactlyWhen(
    n: NoticeId, id: nat, f: NP.File, code: ExceptionCode, standing: ER.Standing, officer: string, note: Option<string>)
    ensures DeadlockFree(With(iset{ExceptionDecision(n, id, f, code, standing, officer, note)})) <==>
      !ER.IsOpen(f.exceptions, code) || StatusFits(f, OpenWithout(f, code, standing))
  {
    var p := ExceptionDecision(n, id, f, code, standing, officer, note);
    assert OnNotice(p, n);
    DeadlockFreeExactlyWhen(iset{p});
    assert p in iset{p};
    if ER.IsOpen(f.exceptions, code) {
      ExceptionLeavesOpen(f, code, standing, officer, note);
      if |p| == 2 { assert p[0].RaisedRow? && p[1].CaseRow?; }
    }
  }

  lemma DuplicateLeavesOpen(f: NP.File, r: string, d: DR.Resolution, officer: string, note: Option<string>)
    requires f.status != ClaimCreated && r in f.duplicates && d != DR.MarkedDuplicate
    ensures NP.AfterDuplicate(f, r, d, officer, note).status == DeriveStatus(f.status, OpenBeside(f, r), false)
  {
    var decided := DR.AfterDecision(f.duplicates, r, d, officer, note);
    assert forall q :: q != r ==> (DR.Outstanding(decided, q) <==> DR.Outstanding(f.duplicates, q));
    assert NP.OthersOutstanding(decided, r) <==> NP.OthersOutstanding(f.duplicates, r);
    var g := NP.AfterDuplicate(f, r, d, officer, note);
    assert ER.OpenCodes(ER.AfterClear(f.exceptions, DuplicateSuspected)) == ER.OpenCodes(f.exceptions) - {DuplicateSuspected};
    assert ER.OpenCodes(g.exceptions) == OpenBeside(f, r);
  }

  lemma DuplicateShape(
    n: NoticeId, id: nat, question: nat, f: NP.File, r: string, d: DR.Resolution, officer: string, note: Option<string>)
    ensures var p := DuplicateDecision(n, id, question, f, r, d, officer, note);
      && IsEdit(p)
      && (Polite(p) <==> || f.status == ClaimCreated || r !in f.duplicates || d == DR.MarkedDuplicate
                         || NP.AfterDuplicate(f, r, d, officer, note).status == f.status)
  {
    var p := DuplicateDecision(n, id, question, f, r, d, officer, note);
    assert OnNotice(p, n);
    if |p| > 1 && p[|p| - 1].CaseRow? { assert p[0].ReviewedRow?; }
  }

  /**
   * Nor can deciding a duplicate, exactly when it is refused, or marks one, or the notice
   * already has the status that what stays open implies: everything, while another
   * candidate is outstanding, and otherwise everything but the duplicate question.
   */
  lemma DuplicateDecisionSafeExactlyWhen(
    n: NoticeId, id: nat, question: nat, f: NP.File, r: string, d: DR.Resolution, officer: string, note: Option<string>)
    ensures DeadlockFree(With(iset{DuplicateDecision(n, id, question, f, r, d, officer, note)})) <==>
      || f.status == ClaimCreated || r !in f.duplicates || d == DR.MarkedDuplicate
      || StatusFits(f, OpenBeside(f, r))
  {
    var p := DuplicateDecision(n, id, question, f, r, d, officer, note);
    DuplicateShape(n, id, question, f, r, d, officer, note);
    DeadlockFreeExactlyWhen(iset{p});
    assert p in iset{p};
    if f.status != ClaimCreated && r in f.duplicates && d != DR.MarkedDuplicate {
      DuplicateLeavesOpen(f, r, d, officer, note);
    }
  }

  /** The question's row is locked exactly when the decision deletes it. */
  lemma QuestionIsDeleted(f: NP.File, r: string, d: DR.Resolution, officer: string, note: Option<string>)
    requires f.status != ClaimCreated && r in f.duplicates && d != DR.MarkedDuplicate
    ensures ClosesQuestion(f, r) <==>
      DuplicateSuspected in f.exceptions && DuplicateSuspected !in NP.AfterDuplicate(f, r, d, officer, note).exceptions
  {
    var decided := DR.AfterDecision(f.duplicates, r, d, officer, note);
    assert forall q :: q != r ==> (DR.Outstanding(decided, q) <==> DR.Outstanding(f.duplicates, q));
    assert NP.OthersOutstanding(decided, r) <==> NP.OthersOutstanding(f.duplicates, r);
    var g := NP.AfterDuplicate(f, r, d, officer, note);
    assert g.exceptions == if NP.OthersOutstanding(decided, r) then f.exceptions else ER.AfterClear(f.exceptions, DuplicateSuspected);
  }

  lemma HasFirst(codes: seq<ExceptionCode>)
    ensures codes != [] ==> exists code :: code in codes
  {
    if codes != [] { assert codes[0] in codes; }
  }

  lemma NothingBlocks(open: set<ExceptionCode>)
    requires forall code <- open :: !IsBlocking(code)
    ensures BlockingCodes(open) == []
  {
    HasFirst(BlockingCodes(open));
  }

  /**
   * It is the everyday decision that can: clearing the last exception in the way of a claim
   * makes the notice ready, so it locks the exception and then the notice.
   */
  lemma ClearingTheLastBlockerCanDeadlock(
    n: NoticeId, id: nat, f: NP.File, code: ExceptionCode, standing: ER.Standing, officer: string, note: Option<string>)
    requires !IsTerminal(f.status) && f.status != Referred && f.status != ReadyForClaim
    requires standing != ER.Open && ER.IsOpen(f.exceptions, code)
    requires forall other <- ER.OpenCodes(f.exceptions) :: other != code ==> !IsBlocking(other)
    ensures NP.AfterException(f, code, standing, officer, note).status == ReadyForClaim
    ensures !DeadlockFree(With(iset{ExceptionDecision(n, id, f, code, standing, officer, note)}))
  {
    NothingBlocks(OpenWithout(f, code, standing));
    ReadyExactlyWhenUnblocked(f.status, OpenWithout(f, code, standing));
    ExceptionLeavesOpen(f, code, standing, officer, note);
    ExceptionDecisionSafeExactlyWhen(n, id, f, code, standing, officer, note);
  }

  /** A decision on an exception or a duplicate that locked the notice before anything else. */
  predicate NoticeFirst(p: Program, n: NoticeId, id: nat, question: nat) {
    || p == [CaseRow(n), RaisedRow(n, id)]
    || p == [CaseRow(n), ReviewedRow(n, id)]
    || p == [CaseRow(n), ReviewedRow(n, id), RaisedRow(n, question)]
  }

  /** Locking the notice first, as claim creation does, would make every decision safe. */
  lemma LockingFirstIsSafe(decisions: iset<Program>)
    requires forall p <- decisions :: exists n: NoticeId, id: nat, question: nat :: NoticeFirst(p, n, id, question)
    ensures DeadlockFree(With(decisions))
  {
    forall p | p in decisions ensures IsEdit(p) && Polite(p) {
      var n: NoticeId, id: nat, question: nat :| NoticeFirst(p, n, id, question);
      assert OnNotice(p, n);
    }
    DeadlockFreeExactlyWhen(decisions);
  }
}
