/**
 * The services one request runs: app/services/fnol/claims.py and
 * app/repositories/reference.py, with the session's rows as fields.
 */
module ClaimCreation {
  import opened Wrappers
  import opened References
  import opened Lifecycle
  import opened ClaimTables

  datatype Blocker =
    | OpenBlocker(code: ExceptionCode)
    | PolicyRequired
    | DateOfLossRequired
    | LossDescriptionRequired
    | ClaimantRequired

  datatype Answer =
    | Made(claim: ClaimId)
    | AlreadyMade(claim: ClaimId)
    | NoSuchNotice
    | MarkedButUnlinked
    | Blocked(blockers: seq<Blocker>)

  function Checklist(n: Notice): seq<Blocker> {
    AsBlockers(BlockingCodes(n.open)) + MissingFacts(n)
  }

  function AsBlockers(codes: seq<ExceptionCode>): (r: seq<Blocker>)
    ensures |r| == |codes|
    ensures forall i :: 0 <= i < |codes| ==> r[i] == OpenBlocker(codes[i])
  {
    seq(|codes|, i requires 0 <= i < |codes| => OpenBlocker(codes[i]))
  }

  function MissingFacts(n: Notice): seq<Blocker> {
    (if n.policyId.None? then [PolicyRequired] else [])
    + (if n.dateOfLoss.None? then [DateOfLossRequired] else [])
    + (if n.lossDescription == "" then [LossDescriptionRequired] else [])
    + (if n.insuredName == "" && n.partyName == "" then [ClaimantRequired] else [])
  }

  /** The checklist is empty exactly when nothing stands between the notice and a claim. */
  lemma EmptyChecklistMeansReady(n: Notice)
    ensures Checklist(n) == [] <==> Ready(n)
  {
    var codes := BlockingCodes(n.open);
    assert |Checklist(n)| == |codes| + |MissingFacts(n)|;
    assert MissingFacts(n) == [] <==>
      n.policyId.Some? && n.dateOfLoss.Some? && n.lossDescription != "" && (n.insuredName != "" || n.partyName != "");
    assert codes == [] <==> forall code :: code !in codes by {
      if codes != [] { assert codes[0] in codes; }
    }
  }

  /** The notice exists and already became a claim. */
  ghost predicate Converted(db: Db, n: NoticeId) {
    n in db.notices && exists c <- db.claims :: db.claims[c].noticeId == n
  }

  /** A create on this notice makes a claim. */
  ghost predicate Convertible(db: Db, n: NoticeId) {
    && n in db.notices && !Converted(db, n)
    && db.notices[n].status != ClaimCreated && Ready(db.notices[n])
  }

  /** An answer that made nothing says what is the case. */
  ghost predicate Explains(db: Db, a: Answer, n: NoticeId) {
    match a
    case Made(_) => false
    case AlreadyMade(c) => n in db.notices && c in db.claims && db.claims[c].noticeId == n
    case NoSuchNotice => n !in db.notices
    case MarkedButUnlinked => n in db.notices && db.notices[n].status == ClaimCreated && !Converted(db, n)
    case Blocked(list) =>
      && n in db.notices && db.notices[n].status != ClaimCreated && !Converted(db, n)
      && list == Checklist(db.notices[n]) && list != []
  }

  class ReferenceRepository {
    var counters: map<CounterKey, nat>

    constructor ()
      ensures counters == map[]
    {
      counters := map[];
    }

    /** Inserts the counter row if it is absent, then increments it. */
    method NextReference(prefix: string, year: nat) returns (r: Reference)
      modifies this
      ensures var k := CounterKey(prefix, year);
        var last := if k in old(counters) then old(counters)[k] else 0;
        counters == old(counters)[k := last + 1] && r == Numbered(k, last + 1)
    {
      var k := CounterKey(prefix, year);
      if k !in counters {
        counters := counters[k := 0];
      }
      counters := counters[k := counters[k] + 1];
      r := Numbered(k, counters[k]);
    }
  }

  class ClaimCreationService {
    var notices: map<NoticeId, Notice>
    var claims: map<ClaimId, Claim>
    var audit: seq<AuditEvent>
    const references: ReferenceRepository

    constructor (references: ReferenceRepository)
      ensures this.references == references
      ensures notices == map[] && claims == map[] && audit == []
    {
      this.references := references;
      notices, claims, audit := map[], map[], [];
    }

    ghost function Tables(): Db
      reads this, references
    {
      Db(notices, claims, references.counters, audit)
    }

    method OpenBlockers(open: set<ExceptionCode>) returns (found: seq<Blocker>)
      ensures found == AsBlockers(BlockingCodes(open))
    {
      found := [];
      for i := 0 to |BLOCKING_EXCEPTIONS|
        invariant found == AsBlockers(Retain(BLOCKING_EXCEPTIONS[..i], open))
      {
        var code := BLOCKING_EXCEPTIONS[i];
        RetainSnoc(BLOCKING_EXCEPTIONS[..i], code, open);
        assert BLOCKING_EXCEPTIONS[..i + 1] == BLOCKING_EXCEPTIONS[..i] + [code];
        if code in open {
          found := found + [OpenBlocker(code)];
        }
      }
      assert BLOCKING_EXCEPTIONS[..|BLOCKING_EXCEPTIONS|] == BLOCKING_EXCEPTIONS;
    }

    /** What stands between a notice and a claim, in the order to fix it. */
    method Blockers(n: Notice) returns (found: seq<Blocker>)
      ensures found == Checklist(n)
    {
      found := OpenBlockers(n.open);
      if n.policyId.None? { found := found + [PolicyRequired]; }
      if n.dateOfLoss.None? { found := found + [DateOfLossRequired]; }
      if n.lossDescription == "" { found := found + [LossDescriptionRequired]; }
      if n.insuredName == "" && n.partyName == "" { found := found + [ClaimantRequired]; }
    }

    /** `get_by_fnol`: the claim a notice already became. */
    method ClaimOf(id: NoticeId) returns (c: Option<ClaimId>)
      ensures c.Some? ==> c.value in claims && claims[c.value].noticeId == id
      ensures c.None? ==> forall x <- claims :: claims[x].noticeId != id
    {
      var left := claims.Keys;
      while left != {}
        invariant left <= claims.Keys
        invariant forall x <- claims :: x !in left ==> claims[x].noticeId != id
        decreases left
      {
        var x :| x in left;
        if claims[x].noticeId == id {
          return Some(x);
        }
        left := left - {x};
      }
      c := None;
    }

    /** The answer when no claim is to be made: an existing claim, or a refusal. */
    method Answered(notice: NoticeId) returns (a: Option<Answer>)
      ensures a.None? <==> Convertible(Tables(), notice)
      ensures a.Some? ==> Explains(Tables(), a.value, notice)
    {
      if notice !in notices {
        return Some(NoSuchNotice);
      }
      var existing := ClaimOf(notice);
      if existing.Some? {
        return Some(AlreadyMade(existing.value));
      }
      if notices[notice].status == ClaimCreated {
        return Some(MarkedButUnlinked);
      }
      var found := Blockers(notices[notice]);
      EmptyChecklistMeansReady(notices[notice]);
      if found != [] {
        return Some(Blocked(found));
      }
      a := None;
    }

    /** Number, write and link the claim, with its trail. */
    method WriteClaim(notice: NoticeId, year: nat, actor: string, id: ClaimId)
      requires notice in notices
      modifies this, references
      ensures var k := CounterKey(CLAIM_PREFIX, year);
        Tables() == Convert(old(Tables()), notice, k, old(Tables()).LastValue(k) + 1, id, actor)
    {
      if !CanTransition(notices[notice].status, ClaimCreated) {
        notices := notices[notice := notices[notice].(status := ReadyForClaim)];
      }
      var reference := references.NextReference(CLAIM_PREFIX, year);
      var row := notices[notice];
      claims := claims[id := ClaimFrom(row, notice, reference, actor)];
      notices := notices[notice := row.(claimId := Some(id), status := ClaimCreated)];
      audit := audit + [ClaimWasCreated(id, actor)] + [NoticeConverted(notice, id)]
        + [ClaimTriaged(id)] + [HandlerRecommended(id)];
    }

    /**
     * Create the claim, or return the one the notice already became. `id` is the key the
     * database draws for the new row.
     */
    method Create(notice: NoticeId, year: nat, actor: string, id: ClaimId) returns (a: Answer)
      modifies this, references
      ensures a.Made? <==> Convertible(old(Tables()), notice)
      ensures a.Made? ==>
        && a.claim == id
        && var k := CounterKey(CLAIM_PREFIX, year);
           Tables() == Convert(old(Tables()), notice, k, old(Tables()).LastValue(k) + 1, id, actor)
      ensures !a.Made? ==> Tables() == old(Tables()) && Explains(Tables(), a, notice)
    {
      var answer := Answered(notice);
      if answer.Some? {
        return answer.value;
      }
      WriteClaim(notice, year, actor, id);
      a := Made(id);
    }
  }

  lemma {:induction false} RetainSnoc(codes: seq<ExceptionCode>, code: ExceptionCode, open: set<ExceptionCode>)
    ensures Retain(codes + [code], open) == Retain(codes, open) + (if code in open then [code] else [])
  {
    if codes == [] {
      assert codes + [code] == [code];
    } else {
      RetainSnoc(codes[1..], code, open);
      assert (codes + [code])[0] == codes[0] && (codes + [code])[1..] == codes[1..] + [code];
      Regroup(if codes[0] in open then [codes[0]] else [], Retain(codes[1..], open), if code in open then [code] else []);
    }
  }
}
