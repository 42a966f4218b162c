/**
 * The shared locks of foreign keys beside the exclusive ones of RevisionLocks.
 *
 * Inserting a row that refers to a notice locks the notice for share: a run that finds a
 * possible duplicate does so to another notice, a note to its own. Updating a notice does
 * not conflict with that; only the lock that claim creation takes with its locking read
 * does. These locks neither make nor prevent a deadlock.
 */
module SharedLocks {
  import opened Wrappers
  import opened ClaimTables
  import RL = RevisionLocks

  datatype Lock = Update(row: RL.Row) | ForUpdate(notice: NoticeId) | Share(notice: NoticeId)

  type Program = seq<Lock>

  datatype Tx = Tx(program: Program, taken: nat)

  type System = map<RL.TxId, Tx>

  datatype Step = Begin(t: RL.TxId, program: Program) | Take(t: RL.TxId) | End(t: RL.TxId)

  predicate Conflict(a: Lock, b: Lock) {
    match a
    case Update(r) => b == Update(r) || (r.CaseRow? && b == ForUpdate(r.notice))
    case ForUpdate(n) => b == ForUpdate(n) || b == Share(n) || b == Update(RL.CaseRow(n))
    case Share(n) => b == ForUpdate(n)
  }

  predicate Waiting(tx: Tx) { tx.taken < |tx.program| }

  function Next(tx: Tx): Lock
    requires Waiting(tx)
  {
    tx.program[tx.taken]
  }

  /** The transaction holds a lock that conflicts with this one. */
  predicate Blocks(tx: Tx, a: Lock) { exists i: nat :: i < tx.taken && i < |tx.program| && Conflict(a, tx.program[i]) }

  ghost predicate Enabled(jobs: iset<Program>, s: System, step: Step) {
    match step
    case Begin(t, p) => t !in s && p in jobs
    case Take(t) => t in s && Waiting(s[t]) && forall u <- s :: u != t ==> !Blocks(s[u], Next(s[t]))
    case End(t) => t in s
  }

  function Apply(s: System, step: Step): System
    requires !step.Begin? ==> step.t in s
  {
    match step
    case Begin(t, p) => s[t := Tx(p, 0)]
    case Take(t) => s[t := s[t].(taken := s[t].taken + 1)]
    case End(t) => s - {t}
  }

  ghost predicate IsRun(jobs: iset<Program>, states: seq<System>, steps: seq<Step>) {
    && |states| == |steps| + 1 && states[0] == map[]
    && forall i :: 0 <= i < |steps| ==> Enabled(jobs, states[i], steps[i]) && states[i + 1] == Apply(states[i], steps[i])
  }

  ghost predicate Reachable(jobs: iset<Program>, s: System) {
    exists states: seq<System>, steps: seq<Step> :: IsRun(jobs, states, steps) && states[|steps|] == s
  }

  predicate WaitsFor(s: System, t: RL.TxId, u: RL.TxId) {
    t in s && u in s && t != u && Waiting(s[t]) && Blocks(s[u], Next(s[t]))
  }

  ghost predicate WaitsIn(s: System, t: RL.TxId, group: set<RL.TxId>) { exists u <- group :: WaitsFor(s, t, u) }

  ghost predicate Deadlocked(s: System, group: set<RL.TxId>) {
    group != {} && forall t {:trigger WaitsIn(s, t, group)} :: t in group ==> WaitsIn(s, t, group)
  }

  ghost predicate DeadlockFree(jobs: iset<Program>) {
    forall s: System, group: set<RL.TxId> :: Reachable(jobs, s) ==> !Deadlocked(s, group)
  }

  // ---------------------------------------------------------------------------
  // The rows locked exclusively
  // ---------------------------------------------------------------------------

  function RowOf(a: Lock): seq<RL.Row> {
    match a
    case Update(r) => [r]
    case ForUpdate(n) => [RL.CaseRow(n)]
    case Share(_) => []
  }

  function Rows(p: Program): RL.Program {
    if p == [] then [] else Rows(p[..|p| - 1]) + RowOf(p[|p| - 1])
  }

  lemma RowsNext(p: Program, k: nat)
    requires k < |p|
    ensures Rows(p[..k + 1]) == Rows(p[..k]) + RowOf(p[k])
  {
    assert p[..k + 1][..k] == p[..k];
  }

  lemma {:induction false} RowsPrefix(p: Program, k: nat)
    requires k <= |p|
    ensures Rows(p[..k]) <= Rows(p)
    decreases |p| - k
  {
    if k < |p| {
      RowsPrefix(p, k + 1);
      RowsNext(p, k);
    } else {
      assert p[..k] == p;
    }
  }

  lemma {:induction false} RowsTaken(p: Program, k: nat, r: RL.Row)
    requires k <= |p|
    ensures r in Rows(p[..k]) <==> exists i: nat :: i < k && RowOf(p[i]) == [r]
  {
    if k > 0 {
      RowsTaken(p, k - 1, r);
      RowsNext(p, k - 1);
    }
  }

  function Erased(tx: Tx): RL.Tx
    requires tx.taken <= |tx.program|
  {
    RL.Tx(Rows(tx.program), |Rows(tx.program[..tx.taken])|)
  }

  ghost predicate Sound(s: System) { forall t <- s :: s[t].taken <= |s[t].program| }

  ghost function ErasedSystem(s: System): RL.System
    requires Sound(s)
  {
    map t <- s :: Erased(s[t])
  }

  /** Who holds a row once the shared locks are erased. */
  lemma ErasedHolds(tx: Tx, r: RL.Row)
    requires tx.taken <= |tx.program|
    ensures RL.Holds(Erased(tx), r) <==> exists i: nat :: i < tx.taken && RowOf(tx.program[i]) == [r]
  {
    var held := Rows(tx.program[..tx.taken]);
    RowsPrefix(tx.program, tx.taken);
    RowsTaken(tx.program, tx.taken, r);
    assert Rows(tx.program)[..|held|] == held;
    RL.HeldAreTaken(Rows(tx.program), |held|, r);
  }

  /** What it waits for next, if that is no shared lock. */
  lemma ErasedNext(tx: Tx)
    requires Waiting(tx) && !Next(tx).Share?
    ensures RL.Waiting(Erased(tx)) && RowOf(Next(tx)) == [Erased(tx).program[Erased(tx).taken]]
  {
    RowsNext(tx.program, tx.taken);
    RowsPrefix(tx.program, tx.taken + 1);
    var before, after := Rows(tx.program[..tx.taken]), Rows(tx.program[..tx.taken + 1]);
    assert Rows(tx.program)[|before|] == after[|before|];
  }

  // ---------------------------------------------------------------------------
  // Erasing them is a simulation
  // ---------------------------------------------------------------------------

  lemma ShareErased(s: System, t: RL.TxId)
    requires Sound(s) && t in s && Waiting(s[t]) && Next(s[t]).Share?
    ensures Sound(Apply(s, Take(t))) && ErasedSystem(Apply(s, Take(t))) == ErasedSystem(s)
  {
    RowsNext(s[t].program, s[t].taken);
  }

  lemma OneMoreErased(tx: Tx)
    requires Waiting(tx) && !Next(tx).Share?
    ensures Erased(tx.(taken := tx.taken + 1)) == Erased(tx).(taken := Erased(tx).taken + 1)
  {
    RowsNext(tx.program, tx.taken);
  }

  lemma TakeErased(s: System, t: RL.TxId)
    requires Sound(s) && t in s && Waiting(s[t]) && !Next(s[t]).Share?
    ensures Sound(Apply(s, Take(t))) && ErasedSystem(Apply(s, Take(t))) == RL.Apply(ErasedSystem(s), RL.Take(t))
  {
    OneMoreErased(s[t]);
    var after, erased := Apply(s, Take(t)), ErasedSystem(s);
    forall u | u in after ensures u in s && Erased(after[u]) == RL.Apply(erased, RL.Take(t))[u] {
    }
  }

  lemma BeginErased(s: System, t: RL.TxId, p: Program)
    requires Sound(s) && t !in s
    ensures Sound(Apply(s, Begin(t, p))) && ErasedSystem(Apply(s, Begin(t, p))) == RL.Apply(ErasedSystem(s), RL.Begin(t, Rows(p)))
  {
    assert p[..0] == [];
  }

  lemma TakeEnabled(jobs: iset<Program>, s: System, t: RL.TxId, erased: iset<RL.Program>)
    requires Sound(s) && Enabled(jobs, s, Take(t)) && !Next(s[t]).Share?
    ensures RL.Enabled(erased, ErasedSystem(s), RL.Take(t))
  {
    var e := ErasedSystem(s);
    ErasedNext(s[t]);
    var r := e[t].program[e[t].taken];
    forall u <- e | u != t ensures !RL.Holds(e[u], r) {
      NotHeld(s[u], Next(s[t]), r);
    }
  }

  lemma NotHeld(tx: Tx, a: Lock, r: RL.Row)
    requires tx.taken <= |tx.program| && !Blocks(tx, a) && RowOf(a) == [r]
    ensures !RL.Holds(Erased(tx), r)
  {
    ErasedHolds(tx, r);
    forall i: nat | i < tx.taken ensures RowOf(tx.program[i]) != [r] {
      assert !Conflict(a, tx.program[i]);
    }
  }

  lemma StepErases(jobs: iset<Program>, s: System, step: Step, erased: iset<RL.Program>)
    requires Sound(s) && Enabled(jobs, s, step) && forall p <- jobs :: Rows(p) in erased
    requires RL.Reachable(erased, ErasedSystem(s))
    ensures Sound(Apply(s, step)) && RL.Reachable(erased, ErasedSystem(Apply(s, step)))
  {
    match step
    case Begin(t, p) =>
      BeginErased(s, t, p);
      RL.OneMoreStep(erased, ErasedSystem(s), RL.Begin(t, Rows(p)));
    case Take(t) =>
      if Next(s[t]).Share? {
        ShareErased(s, t);
      } else {
        TakeErased(s, t);
        TakeEnabled(jobs, s, t, erased);
        RL.OneMoreStep(erased, ErasedSystem(s), RL.Take(t));
      }
    case End(t) =>
      assert ErasedSystem(Apply(s, step)) == RL.Apply(ErasedSystem(s), RL.End(t));
      RL.OneMoreStep(erased, ErasedSystem(s), RL.End(t));
  }

  ghost predicate FromJobs(jobs: iset<Program>, s: System) { forall t <- s :: s[t].program in jobs }

  lemma {:induction false} RunErases(
    jobs: iset<Program>, states: seq<System>, steps: seq<Step>, i: nat, erased: iset<RL.Program>)
    requires IsRun(jobs, states, steps) && i < |states| && forall p <- jobs :: Rows(p) in erased
    ensures Sound(states[i]) && FromJobs(jobs, states[i]) && RL.Reachable(erased, ErasedSystem(states[i]))
  {
    if i == 0 {
      RL.EmptyIsReachable(erased);
      assert ErasedSystem(states[0]) == map[];
    } else {
      RunErases(jobs, states, steps, i - 1, erased);
      StepErases(jobs, states[i - 1], steps[i - 1], erased);
    }
  }

  // ---------------------------------------------------------------------------
  // What runs against the tables
  // ---------------------------------------------------------------------------

  predicate IsCreate(p: Program) { |p| == 2 && p[0].ForUpdate? && p[1].Update? && p[1].row.CounterRow? }

  predicate IsIntake(p: Program) { |p| == 1 && p[0].Update? && p[0].row.CounterRow? }

  predicate NoForUpdate(p: Program) { forall a <- p :: !a.ForUpdate? }

  /** Runs and quiet decisions with any shared locks in between. */
  predicate IsRival(p: Program) { NoForUpdate(p) && RL.IsRival(Rows(p)) }

  ghost predicate IsEdit(p: Program) { NoForUpdate(p) && RL.IsEdit(Rows(p)) }

  ghost function With(edits: iset<Program>): iset<Program> {
    iset p: Program | IsCreate(p) || IsIntake(p) || IsRival(p) || p in edits
  }

  ghost function RowsOfAll(edits: iset<Program>): iset<RL.Program> { iset p: Program | p in edits :: Rows(p) }

  lemma JobsErase(edits: iset<Program>, p: Program)
    requires p in With(edits)
    ensures Rows(p) in RL.With(RowsOfAll(edits))
  {
    if IsCreate(p) || IsIntake(p) {
      assert p[..1][..0] == [] && (|p| == 2 ==> p == p[..1] + [p[1]]);
      assert Rows(p[..1]) == RowOf(p[0]);
    }
  }

  /** Only creates lock for update, first of all; counters come last, and only there and in intakes. */
  ghost predicate Shaped(p: Program) {
    && (forall i: nat :: i < |p| && p[i].ForUpdate? ==> i == 0 && IsCreate(p))
    && (forall i: nat :: i < |p| && p[i].Update? && p[i].row.CounterRow? ==> i == |p| - 1)
  }

  lemma JobsAreShaped(edits: iset<Program>, p: Program)
    requires p in With(edits) && forall e <- edits :: IsEdit(e)
    ensures Shaped(p)
  {
    if !IsCreate(p) && !IsIntake(p) {
      forall i: nat | i < |p| && p[i].Update? ensures !p[i].row.CounterRow? {
        RowsTaken(p, |p|, p[i].row);
        assert p[..|p|] == p;
        assert RowOf(p[i]) == [p[i].row];
      }
    }
  }

  // ---------------------------------------------------------------------------
  // Shared locks make no deadlock
  // ---------------------------------------------------------------------------

  ghost predicate AllShaped(s: System) { forall t <- s :: Shaped(s[t].program) }

  lemma NobodyBlocksACreate(s: System, u: RL.TxId, v: RL.TxId, group: set<RL.TxId>)
    requires AllShaped(s) && u in s && IsCreate(s[u].program) && Waiting(s[u]) && s[u].taken > 0
    requires Deadlocked(s, group) && v in group
    ensures !WaitsFor(s, u, v)
  {
    assert WaitsIn(s, v, group);
  }

  /** Who holds what a shared lock waits for is a create, and that waits for nothing but a counter. */
  lemma NobodyWaitsToShare(s: System, group: set<RL.TxId>, t: RL.TxId)
    requires AllShaped(s) && Deadlocked(s, group) && t in group
    ensures t in s && Waiting(s[t]) && !Next(s[t]).Share?
  {
    assert WaitsIn(s, t, group);
    var u :| u in group && WaitsFor(s, t, u);
    if Next(s[t]).Share? {
      assert WaitsIn(s, u, group);
      var v :| v in group && WaitsFor(s, u, v);
      NobodyBlocksACreate(s, u, v, group);
    }
  }

  /** Members that hold something: not creates at their first lock. */
  ghost function Holders(s: System, group: set<RL.TxId>): set<RL.TxId> {
    set t <- group | t in s && Waiting(s[t]) && !Next(s[t]).ForUpdate?
  }

  lemma BlockerHolds(s: System, group: set<RL.TxId>, t: RL.TxId) returns (u: RL.TxId)
    requires Sound(s) && AllShaped(s) && Deadlocked(s, group) && t in group
    ensures u in Holders(s, group) && WaitsFor(s, t, u)
  {
    assert WaitsIn(s, t, group);
    u :| u in group && WaitsFor(s, t, u);
    assert WaitsIn(s, u, group);
    var i: nat :| i < s[u].taken && Conflict(Next(s[t]), s[u].program[i]);
  }

  lemma HolderWaitsErased(s: System, group: set<RL.TxId>, t: RL.TxId)
    requires Sound(s) && AllShaped(s) && Deadlocked(s, group) && t in Holders(s, group)
    ensures RL.WaitsIn(ErasedSystem(s), t, Holders(s, group))
  {
    NobodyWaitsToShare(s, group, t);
    var u := BlockerHolds(s, group, t);
    var i: nat :| i < s[u].taken && Conflict(Next(s[t]), s[u].program[i]);
    var r := Next(s[t]).row;
    ErasedNext(s[t]);
    assert RowOf(s[u].program[i]) == [r];
    ErasedHolds(s[u], r);
    assert RL.WaitsFor(ErasedSystem(s), t, u);
  }

  lemma DeadlockErases(s: System, group: set<RL.TxId>)
    requires Sound(s) && AllShaped(s) && Deadlocked(s, group)
    ensures RL.Deadlocked(ErasedSystem(s), Holders(s, group))
  {
    var t :| t in group;
    var u := BlockerHolds(s, group, t);
    forall v | v in Holders(s, group) ensures RL.WaitsIn(ErasedSystem(s), v, Holders(s, group)) {
      HolderWaitsErased(s, group, v);
    }
  }

  lemma PoliteIsEnough(edits: iset<Program>)
    requires forall p <- edits :: IsEdit(p) && RL.Polite(Rows(p))
    ensures DeadlockFree(With(edits))
  {
    var erased := RL.With(RowsOfAll(edits));
    RL.DeadlockFreeExactlyWhen(RowsOfAll(edits));
    forall p | p in With(edits) ensures Rows(p) in erased && Shaped(p) {
      JobsErase(edits, p);
      JobsAreShaped(edits, p);
    }
    forall s: System, group: set<RL.TxId> | Reachable(With(edits), s) ensures !Deadlocked(s, group) {
      var states: seq<System>, steps: seq<Step> :| IsRun(With(edits), states, steps) && states[|steps|] == s;
      RunErases(With(edits), states, steps, |steps|, erased);
      if Deadlocked(s, group) { DeadlockErases(s, group); }
    }
  }

  // ---------------------------------------------------------------------------
  // And prevent none
  // ---------------------------------------------------------------------------

  lemma OneMoreStep(jobs: iset<Program>, s: System, step: Step)
    requires Reachable(jobs, s) && Enabled(jobs, s, step)
    ensures Reachable(jobs, Apply(s, step))
  {
    var states: seq<System>, steps: seq<Step> :| IsRun(jobs, states, steps) && states[|steps|] == s;
    var longer, more := states + [Apply(s, step)], steps + [step];
    forall i | 0 <= i < |more| ensures Enabled(jobs, longer[i], more[i]) && longer[i + 1] == Apply(longer[i], more[i]) {
      if i < |steps| {
        assert longer[i] == states[i] && longer[i + 1] == states[i + 1] && more[i] == steps[i];
      }
    }
    assert IsRun(jobs, longer, more) && longer[|more|] == Apply(s, step);
  }

  lemma {:induction false} TakeMany(jobs: iset<Program>, s: System, t: RL.TxId, p: Program, k: nat)
    requires t !in s && p in jobs && k <= |p| && Reachable(jobs, s)
    requires forall u <- s, i: nat :: i < k ==> !Blocks(s[u], p[i])
    ensures Reachable(jobs, s[t := Tx(p, k)])
  {
    if k == 0 {
      OneMoreStep(jobs, s, Begin(t, p));
    } else {
      TakeMany(jobs, s, t, p, k - 1);
      var before := s[t := Tx(p, k - 1)];
      OneMoreStep(jobs, before, Take(t));
      assert Apply(before, Take(t)) == s[t := Tx(p, k)];
    }
  }

  /** Where in a program its `n`th exclusive lock stands. */
  lemma {:induction false} PlaceOf(p: Program, k: nat, n: nat) returns (i: nat)
    requires k <= |p| && n < |Rows(p[..k])|
    ensures i < k && |Rows(p[..i])| == n && !p[i].Share?
  {
    RowsNext(p, k - 1);
    if n < |Rows(p[..k - 1])| {
      i := PlaceOf(p, k - 1, n);
    } else {
      i := k - 1;
    }
  }

  function Plain(q: RL.Program): (p: Program)
    ensures |p| == |q| && forall i :: 0 <= i < |q| ==> p[i] == Update(q[i])
  {
    seq(|q|, i requires 0 <= i < |q| => Update(q[i]))
  }

  lemma {:induction false} PlainRows(q: RL.Program, k: nat)
    requires k <= |q|
    ensures Rows(Plain(q)[..k]) == q[..k]
  {
    if k > 0 {
      PlainRows(q, k - 1);
      RowsNext(Plain(q), k - 1);
    }
  }

  lemma NoConflict(p: Program, i: nat, q: RL.Program, n: nat, j: nat, k: nat)
    requires NoForUpdate(p) && i < |p| && n == |Rows(p[..i])| && RL.Cross(Rows(p), n, q, j) && k < j
    ensures !Blocks(Tx(p, i), Update(q[k]))
  {
    RowsPrefix(p, i);
    assert Rows(p)[..n] == Rows(p[..i]);
    assert q[k] in q[..j];
    RowsTaken(p, i, q[k]);
    forall h: nat | h < i ensures !Conflict(Update(q[k]), p[h]) {
      assert p[h] in p;
      assert RowOf(p[h]) != [q[k]];
    }
  }

  lemma CrossingIsReachable(jobs: iset<Program>, p: Program, i: nat, q: RL.Program, j: nat)
    requires p in jobs && Plain(q) in jobs && NoForUpdate(p) && i < |p| && RL.Cross(Rows(p), |Rows(p[..i])|, q, j)
    ensures Reachable(jobs, map[0 := Tx(p, i), 1 := Tx(Plain(q), j)])
  {
    var states: seq<System>, steps: seq<Step> := [map[]], [];
    assert IsRun(jobs, states, steps) && states[|steps|] == map[];
    TakeMany(jobs, map[], 0, p, i);
    var first: System := map[0 := Tx(p, i)];
    assert map[][0 := Tx(p, i)] == first;
    forall k: nat | k < j ensures !Blocks(first[0], Plain(q)[k]) {
      NoConflict(p, i, q, |Rows(p[..i])|, j, k);
    }
    TakeMany(jobs, first, 1, Plain(q), j);
    assert first[1 := Tx(Plain(q), j)] == map[0 := Tx(p, i), 1 := Tx(Plain(q), j)];
  }

  lemma BothWait(p: Program, i: nat, q: RL.Program, j: nat)
    requires i < |p| && !p[i].Share? && !p[i].ForUpdate? && RL.Cross(Rows(p), |Rows(p[..i])|, q, j)
    ensures var s: System := map[0 := Tx(p, i), 1 := Tx(Plain(q), j)];
      WaitsFor(s, 0, 1) && WaitsFor(s, 1, 0)
  {
    var n := |Rows(p[..i])|;
    ErasedNext(Tx(p, i));
    RowsPrefix(p, i);
    assert Rows(p)[..n] == Rows(p[..i]);
    var a: nat :| a < j && q[a] == Rows(p)[n];
    assert Plain(q)[a] == p[i];
    RowsTaken(p, i, q[j]);
    var b: nat :| b < i && RowOf(p[b]) == [q[j]];
    assert Conflict(Plain(q)[j], p[b]);
  }

  lemma TwoDeadlock(jobs: iset<Program>, s: System, t: RL.TxId, u: RL.TxId)
    requires Reachable(jobs, s) && WaitsFor(s, t, u) && WaitsFor(s, u, t)
    ensures !DeadlockFree(jobs)
  {
    assert WaitsIn(s, t, {t, u}) && WaitsIn(s, u, {t, u});
    assert Deadlocked(s, {t, u});
  }

  lemma PlainIsJob(edits: iset<Program>, q: RL.Program)
    requires RL.IsRival(q)
    ensures Plain(q) in With(edits)
  {
    PlainRows(q, |q|);
    assert Plain(q)[..|q|] == Plain(q) && q[..|q|] == q;
  }

  lemma PlaceOfNext(p: Program, n: nat) returns (i: nat)
    requires n < |Rows(p)| && NoForUpdate(p)
    ensures i < |p| && |Rows(p[..i])| == n && !p[i].Share? && !p[i].ForUpdate?
  {
    assert p[..|p|] == p;
    i := PlaceOf(p, |p|, n);
    assert p[i] in p;
  }

  lemma ImpoliteDeadlocks(edits: iset<Program>, p: Program)
    requires p in edits && IsEdit(p) && !RL.Polite(Rows(p))
    ensures !DeadlockFree(With(edits))
  {
    var n, q, j := RL.ImpoliteIsCrossed(Rows(p));
    var i := PlaceOfNext(p, n);
    PlainIsJob(edits, q);
    CrossingIsReachable(With(edits), p, i, q, j);
    BothWait(p, i, q, j);
    TwoDeadlock(With(edits), map[0 := Tx(p, i), 1 := Tx(Plain(q), j)], 0, 1);
  }

  /**
   * With foreign keys' shared locks taken anywhere by anyone, a set of edits beside creates,
   * intakes, runs and quiet decisions never deadlocks exactly when the rows each locks
   * exclusively are polite, as without them.
   */
  lemma DeadlockFreeExactlyWhen(edits: iset<Program>)
    requires forall p <- edits :: IsEdit(p)
    ensures DeadlockFree(With(edits)) <==> forall p <- edits :: RL.Polite(Rows(p))
  {
    if forall p <- edits :: RL.Polite(Rows(p)) {
      PoliteIsEnough(edits);
    } else {
      var p :| p in edits && !RL.Polite(Rows(p));
      ImpoliteDeadlocks(edits, p);
    }
  }
}
