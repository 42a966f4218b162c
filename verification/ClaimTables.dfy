/** The rows claim creation reads and writes: app/models/fnol.py, app/models/claim.py. */
module ClaimTables {
  import opened Wrappers
  import opened References
  import opened Lifecycle

  type NoticeId = nat
  type ClaimId = nat
  type PolicyId = nat

  /** A missing text column and an empty one read alike, so both are the empty string. */
  datatype Notice = Notice(
    reference: Reference,
    idempotencyKey: Option<string>,
    messageId: Option<string>,
    status: Status,
    policyId: Option<PolicyId>,
    claimId: Option<ClaimId>,
    dateOfLoss: Option<int>,
    lossDescription: string,
    insuredName: string,
    partyName: string,
    open: set<ExceptionCode>)

  datatype Claim = Claim(
    reference: Reference,
    noticeId: NoticeId,
    policyId: Option<PolicyId>,
    dateOfLoss: Option<int>,
    lossDescription: string,
    insuredName: string,
    claimantName: string,
    createdBy: string)

  datatype AuditEvent =
    | ClaimWasCreated(claim: ClaimId, actor: string)
    | NoticeConverted(notice: NoticeId, claim: ClaimId)
    | ClaimTriaged(claim: ClaimId)
    | HandlerRecommended(claim: ClaimId)
    | NoticeReceived(notice: NoticeId)

  /** What a structured channel states outright about a new notice. */
  datatype Draft = Draft(
    idempotencyKey: Option<string>,
    messageId: Option<string>,
    dateOfLoss: Option<int>,
    lossDescription: string,
    insuredName: string)

  datatype CounterKey = CounterKey(prefix: string, year: nat)

  datatype Db = Db(
    notices: map<NoticeId, Notice>,
    claims: map<ClaimId, Claim>,
    counters: map<CounterKey, nat>,
    audit: seq<AuditEvent>)
  {
    function LastValue(k: CounterKey): nat {
      if k in counters then counters[k] else 0
    }
  }

  function Numbered(k: CounterKey, n: nat): Reference { Reference(k.prefix, k.year, n) }

  function KeyOf(r: Reference): CounterKey { CounterKey(r.prefix, r.year) }

  /** Nothing stands between this notice and a claim: the empty checklist. */
  predicate Ready(n: Notice) {
    && (forall code <- n.open :: !IsBlocking(code))
    && n.policyId.Some?
    && n.dateOfLoss.Some?
    && n.lossDescription != ""
    && (n.insuredName != "" || n.partyName != "")
  }

  /** The claim a notice turns into. */
  function ClaimFrom(n: Notice, id: NoticeId, reference: Reference, actor: string): Claim {
    Claim(reference, id, n.policyId, n.dateOfLoss, n.lossDescription, n.insuredName,
          if n.partyName != "" then n.partyName else n.insuredName, actor)
  }

  function CreationEvents(notice: NoticeId, claim: ClaimId, actor: string): seq<AuditEvent> {
    [ClaimWasCreated(claim, actor), NoticeConverted(notice, claim),
     ClaimTriaged(claim), HandlerRecommended(claim)]
  }

  /**
   * A notice as a session sees it that loaded the row some time before: open exceptions and
   * parties are queried anew, the columns of the row itself are not.
   */
  function AsSeen(seen: Notice, row: Notice): Notice { seen.(open := row.open, partyName := row.partyName) }

  /** The tables after a create transaction commits that had loaded the notice as `seen`. */
  function ConvertAs(db: Db, id: NoticeId, seen: Notice, k: CounterKey, seqNo: nat, claim: ClaimId, actor: string): Db
    requires id in db.notices
  {
    var n := db.notices[id];
    Db(db.notices[id := n.(claimId := Some(claim), status := ClaimCreated)],
       db.claims[claim := ClaimFrom(AsSeen(seen, n), id, Numbered(k, seqNo), actor)],
       db.counters[k := seqNo],
       db.audit + CreationEvents(id, claim, actor))
  }

  /** The same of a session that has the notice as it is. */
  function Convert(db: Db, id: NoticeId, k: CounterKey, seqNo: nat, claim: ClaimId, actor: string): Db
    requires id in db.notices
  {
    ConvertAs(db, id, db.notices[id], k, seqNo, claim, actor)
  }

  function NoticeFrom(d: Draft, reference: Reference): Notice {
    Notice(reference, d.idempotencyKey, d.messageId, Received, None, None,
           d.dateOfLoss, d.lossDescription, d.insuredName, "", {})
  }

  /** The tables after an ingest transaction commits. */
  function Admit(db: Db, d: Draft, k: CounterKey, seqNo: nat, id: NoticeId): Db {
    Db(db.notices[id := NoticeFrom(d, Numbered(k, seqNo))],
       db.claims,
       db.counters[k := seqNo],
       db.audit + [NoticeReceived(id)])
  }

  /** The same delivery, by either of the two keys a channel supplies. */
  predicate SameDelivery(a: Option<string>, b: Option<string>, c: Option<string>, d: Option<string>) {
    (a.Some? && a == b) || (c.Some? && c == d)
  }

  predicate Redelivers(d: Draft, n: Notice) {
    SameDelivery(d.idempotencyKey, n.idempotencyKey, d.messageId, n.messageId)
  }
}
