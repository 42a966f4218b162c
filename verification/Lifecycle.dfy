/** The notice state machine: app/domain/lifecycle.py and app/domain/enums.py. */
module Lifecycle {

  datatype Status =
    | Received | Processing | NeedsReview | Incomplete | PossibleDuplicate
    | PolicyMatchRequired | AiProcessingFailed | Referred | ReadyForClaim
    | ClaimCreated | Rejected | Cancelled

  datatype ExceptionCode =
    | NoPolicyMatch | MultiplePolicyMatches | UnconfirmedPolicyMatch | DuplicateSuspected
    | MissingCriticalInformation | HighSeverity | FraudIndicator | CoverageIssue | CatMatch
    | LowExtractionConfidence | ConflictingDates | FutureLossDate | OutsidePolicyPeriod
    | ExceedsPolicyLimit | ReadingFailed | DocumentUnreadable

  /** Exceptions that stop a claim, in the order an officer clears them. */
  const BLOCKING_EXCEPTIONS: seq<ExceptionCode> := [
    NoPolicyMatch, MultiplePolicyMatches, UnconfirmedPolicyMatch,
    MissingCriticalInformation, DuplicateSuspected, FutureLossDate
  ]

  /** The status each blocking exception implies; the first open one decides. */
  const STATUS_FOR_EXCEPTION: seq<(ExceptionCode, Status)> := [
    (MissingCriticalInformation, Incomplete),
    (NoPolicyMatch, PolicyMatchRequired),
    (MultiplePolicyMatches, PolicyMatchRequired),
    (UnconfirmedPolicyMatch, PolicyMatchRequired),
    (DuplicateSuspected, PossibleDuplicate),
    (FutureLossDate, Incomplete)
  ]

  const EVERY_WORKING_STATUS: set<Status> := {
    Processing, NeedsReview, Incomplete, PossibleDuplicate, PolicyMatchRequired, ReadyForClaim
  }

  predicate IsBlocking(code: ExceptionCode) { code in BLOCKING_EXCEPTIONS }

  predicate IsTerminal(s: Status) { s in {ClaimCreated, Rejected, Cancelled} }

  /** `_ALLOWED`. */
  function AllowedFrom(current: Status): set<Status> {
    match current
    case Received => {Processing, NeedsReview, Incomplete, AiProcessingFailed, Cancelled, Rejected}
    case Processing => {NeedsReview, Incomplete, PossibleDuplicate, PolicyMatchRequired,
                        ReadyForClaim, AiProcessingFailed, Cancelled}
    case NeedsReview => {Processing, Incomplete, PossibleDuplicate, PolicyMatchRequired,
                         ReadyForClaim, Referred, Rejected, Cancelled}
    case Incomplete => {Processing, NeedsReview, PossibleDuplicate, PolicyMatchRequired,
                        ReadyForClaim, Referred, Rejected, Cancelled}
    case PossibleDuplicate => {Processing, NeedsReview, Incomplete, PolicyMatchRequired,
                               ReadyForClaim, Referred, Rejected, Cancelled}
    case PolicyMatchRequired => {Processing, NeedsReview, Incomplete, PossibleDuplicate,
                                 ReadyForClaim, Referred, Rejected, Cancelled}
    case AiProcessingFailed => {Processing, NeedsReview, Incomplete, Rejected, Cancelled}
    case Referred => {Processing, NeedsReview, ReadyForClaim, Rejected, Cancelled}
    case ReadyForClaim => {Processing, NeedsReview, Incomplete, PossibleDuplicate,
                           PolicyMatchRequired, Referred, ClaimCreated, Rejected, Cancelled}
    case _ => {}
  }

  predicate CanTransition(current: Status, target: Status) {
    current == target || target in AllowedFrom(current)
  }

  /** The open blocking exceptions, in checklist order. */
  function BlockingCodes(open: set<ExceptionCode>): seq<ExceptionCode> {
    Retain(BLOCKING_EXCEPTIONS, open)
  }

  function Retain(codes: seq<ExceptionCode>, open: set<ExceptionCode>): (kept: seq<ExceptionCode>)
    ensures forall c :: c in kept <==> c in codes && c in open
  {
    if codes == [] then []
    else (if codes[0] in open then [codes[0]] else []) + Retain(codes[1..], open)
  }

  function FirstOpen(table: seq<(ExceptionCode, Status)>, open: set<ExceptionCode>): Status {
    if table == [] then ReadyForClaim
    else if table[0].0 in open then table[0].1
    else FirstOpen(table[1..], open)
  }

  function DeriveStatus(current: Status, open: set<ExceptionCode>, extractionFailed: bool): Status {
    if IsTerminal(current) || current == Referred then current
    else if extractionFailed then AiProcessingFailed
    else FirstOpen(STATUS_FOR_EXCEPTION, open)
  }

  lemma {:induction false} FirstOpenIsReady(table: seq<(ExceptionCode, Status)>, open: set<ExceptionCode>)
    requires forall i :: 0 <= i < |table| ==> table[i].1 != ReadyForClaim
    ensures FirstOpen(table, open) == ReadyForClaim
        <==> forall i :: 0 <= i < |table| ==> table[i].0 !in open
  {
    if table != [] {
      FirstOpenIsReady(table[1..], open);
      assert forall i :: 1 <= i < |table| ==> table[i] == table[1..][i - 1];
    }
  }

  /**
   * The two tables agree: a working notice is ready for a claim exactly when nothing
   * that blocks claim creation is open.
   */
  lemma ReadyExactlyWhenUnblocked(current: Status, open: set<ExceptionCode>)
    requires !IsTerminal(current) && current != Referred
    ensures DeriveStatus(current, open, false) == ReadyForClaim <==> BlockingCodes(open) == []
  {
    var t := STATUS_FOR_EXCEPTION;
    FirstOpenIsReady(t, open);
    assert t[0].0 == MissingCriticalInformation && t[1].0 == NoPolicyMatch
        && t[2].0 == MultiplePolicyMatches && t[3].0 == UnconfirmedPolicyMatch
        && t[4].0 == DuplicateSuspected && t[5].0 == FutureLossDate;
    if BlockingCodes(open) != [] {
      assert BlockingCodes(open)[0] in BlockingCodes(open);
    }
  }

  /** Deriving again from the derived status changes nothing. */
  lemma DeriveIsIdempotent(current: Status, open: set<ExceptionCode>, failed: bool)
    ensures var once := DeriveStatus(current, open, failed);
      DeriveStatus(once, open, failed) == once
  {
    DerivedStaysWorking(STATUS_FOR_EXCEPTION, open);
  }

  lemma {:induction false} DerivedStaysWorking(table: seq<(ExceptionCode, Status)>, open: set<ExceptionCode>)
    requires forall i :: 0 <= i < |table| ==> table[i].1 in EVERY_WORKING_STATUS
    ensures FirstOpen(table, open) in EVERY_WORKING_STATUS
  {
    if table != [] { DerivedStaysWorking(table[1..], open); }
  }

  /**
   * The status the pipeline writes is one an explicit transition would accept exactly
   * when the notice is terminal, referred or already working; otherwise the reading
   * must have failed, or have left the notice incomplete when nothing was read before.
   */
  lemma DerivedMoveIsLegal(current: Status, open: set<ExceptionCode>, failed: bool)
    ensures CanTransition(current, DeriveStatus(current, open, failed)) <==>
        || IsTerminal(current) || current == Referred
        || (failed && current in {Received, Processing, AiProcessingFailed})
        || (!failed && current in EVERY_WORKING_STATUS)
        || (!failed && current in {Received, AiProcessingFailed}
            && FirstOpen(STATUS_FOR_EXCEPTION, open) == Incomplete)
  {
    DerivedStaysWorking(STATUS_FOR_EXCEPTION, open);
    ProcessingNeverDerived(STATUS_FOR_EXCEPTION, open);
  }

  lemma {:induction false} ProcessingNeverDerived(table: seq<(ExceptionCode, Status)>, open: set<ExceptionCode>)
    requires forall i :: 0 <= i < |table| ==> table[i].1 !in {Processing, NeedsReview}
    ensures FirstOpen(table, open) !in {Processing, NeedsReview}
  {
    if table != [] { ProcessingNeverDerived(table[1..], open); }
  }
}
