/**
 * The list of things that need a person: `ExceptionService` of
 * app/services/fnol/exceptions.py, `upsert_exception` and `clear_exception` of
 * app/repositories/fnol.py, `resolve_exception` of app/services/fnol/service.py.
 */
module ExceptionReview {
  import opened Wrappers
  import opened Lifecycle
  import Fraud
  import PolicyMatch
  import DR = DuplicateReview

  datatype Level = Info | Warning | Critical

  datatype Band = BandLow | BandMedium | BandHigh | BandCritical

  datatype Coverage = LikelyCovered | ReviewRequired | PossibleExclusion | InsufficientInformation | PolicyNotLocated

  /** The terms of the policy the notice is reasoned against, in days and minor units. */
  datatype Terms = Terms(effective: int, expiry: int, limitMinor: Option<int>)

  datatype Thresholds = Thresholds(strongDuplicate: real, lowConfidence: real)

  /** Everything one run knows when it raises exceptions; moments are in seconds. */
  datatype Findings = Findings(
    extractionFailed: bool,
    policyConfirmed: bool, strength: PolicyMatch.Strength, candidates: nat,
    reportedInFuture: bool, dateOfLoss: Option<int>, receivedAt: Option<int>,
    conflicting: nat, policy: Option<Terms>, estimateMinor: Option<int>,
    missingCritical: nat, duplicates: DR.Rows,
    severity: Band, fraud: Fraud.Risk, coverage: Coverage, catMatched: bool, catConfirmed: bool,
    confidence: Option<real>, unreadable: nat)

  datatype Raised = Raised(code: ExceptionCode, level: Level)

  datatype Standing = Open | Resolved | Dismissed

  datatype Row = Row(level: Level, blocking: bool, standing: Standing, resolvedBy: Option<string>, note: Option<string>)

  type Rows = map<ExceptionCode, Row>

  /** Every code, in the order the source declares them. */
  const ALL_CODES: seq<ExceptionCode> := [
    NoPolicyMatch, MultiplePolicyMatches, UnconfirmedPolicyMatch, DuplicateSuspected,
    MissingCriticalInformation, HighSeverity, FraudIndicator, CoverageIssue, CatMatch,
    LowExtractionConfidence, ConflictingDates, FutureLossDate, OutsidePolicyPeriod,
    ExceedsPolicyLimit, ReadingFailed, DocumentUnreadable
  ]

  // ---------------------------------------------------------------------------
  // When a code is raised, and how seriously
  // ---------------------------------------------------------------------------

  predicate OutsidePeriod(f: Findings) {
    && f.policy.Some? && f.dateOfLoss.Some?
    && var day := f.dateOfLoss.value / Fraud.DAY;
       !(f.policy.value.effective <= day <= f.policy.value.expiry)
  }

  predicate AboveLimit(f: Findings) {
    && f.policy.Some? && f.policy.value.limitMinor.Some? && f.policy.value.limitMinor.value != 0
    && f.estimateMinor.Some? && f.estimateMinor.value != 0
    && f.estimateMinor.value > f.policy.value.limitMinor.value
  }

  ghost predicate AnyOutstanding(rows: DR.Rows) { exists r :: DR.Outstanding(rows, r) }

  ghost predicate AnyStrong(rows: DR.Rows, strong: real) {
    exists r :: DR.Outstanding(rows, r) && rows[r].score >= strong
  }

  /** The condition behind each code. */
  ghost predicate Cause(f: Findings, t: Thresholds, code: ExceptionCode) {
    match code
    case ReadingFailed => f.extractionFailed
    case NoPolicyMatch => !f.policyConfirmed && f.strength == PolicyMatch.NoMatch
    case MultiplePolicyMatches => !f.policyConfirmed && f.strength == PolicyMatch.Possible && f.candidates > 1
    case UnconfirmedPolicyMatch =>
      && !f.policyConfirmed
      && (f.strength == PolicyMatch.High || (f.strength == PolicyMatch.Possible && f.candidates <= 1))
    case FutureLossDate =>
      f.reportedInFuture || (f.dateOfLoss.Some? && f.receivedAt.Some? && f.dateOfLoss.value > f.receivedAt.value)
    case ConflictingDates => f.conflicting > 0
    case OutsidePolicyPeriod => OutsidePeriod(f)
    case ExceedsPolicyLimit => AboveLimit(f)
    case MissingCriticalInformation => f.missingCritical > 0
    case DuplicateSuspected => AnyOutstanding(f.duplicates)
    case HighSeverity => f.severity == BandHigh || f.severity == BandCritical
    case FraudIndicator => f.fraud == Fraud.Medium || f.fraud == Fraud.High
    case CoverageIssue => f.coverage == PossibleExclusion || f.coverage == ReviewRequired
    case CatMatch => f.catMatched && !f.catConfirmed
    case LowExtractionConfidence =>
      f.confidence.Some? && f.confidence.value < t.lowConfidence && !f.extractionFailed
    case DocumentUnreadable => f.unreadable > 0
  }

  ghost function LevelOf(f: Findings, t: Thresholds, code: ExceptionCode): Level {
    match code
    case ReadingFailed => Critical
    case NoPolicyMatch => Critical
    case FutureLossDate => Critical
    case OutsidePolicyPeriod => Critical
    case MissingCriticalInformation => Critical
    case DuplicateSuspected => if AnyStrong(f.duplicates, t.strongDuplicate) then Critical else Warning
    case CoverageIssue => if f.coverage == ReviewRequired then Warning else Critical
    case CatMatch => Info
    case DocumentUnreadable => Info
    case _ => Warning
  }

  predicate DistinctCodes(raised: seq<Raised>) {
    forall i, j :: 0 <= i < j < |raised| ==> raised[i].code != raised[j].code
  }

  predicate Mentions(raised: seq<Raised>, code: ExceptionCode) {
    exists i :: 0 <= i < |raised| && raised[i].code == code
  }

  /** Among the codes considered so far, exactly those with a cause were raised, once each. */
  ghost predicate Reflects(f: Findings, t: Thresholds, raised: seq<Raised>, considered: set<ExceptionCode>) {
    && DistinctCodes(raised)
    && (forall i :: 0 <= i < |raised| ==>
          raised[i].code in considered && raised[i].level == LevelOf(f, t, raised[i].code))
    && (forall code <- considered :: Mentions(raised, code) <==> Cause(f, t, code))
  }

  function Add(raised: seq<Raised>, condition: bool, r: Raised): seq<Raised> {
    if condition then raised + [r] else raised
  }

  lemma AddMentions(raised: seq<Raised>, condition: bool, r: Raised, code: ExceptionCode)
    ensures Mentions(Add(raised, condition, r), code) <==> Mentions(raised, code) || (condition && r.code == code)
  {
    var next := Add(raised, condition, r);
    if Mentions(raised, code) {
      var i :| 0 <= i < |raised| && raised[i].code == code;
      assert next[i].code == code;
    } else if condition && r.code == code {
      assert next[|raised|].code == code;
    }
  }

  lemma AddReflects(
    f: Findings, t: Thresholds, raised: seq<Raised>, considered: set<ExceptionCode>, condition: bool, r: Raised)
    requires Reflects(f, t, raised, considered) && r.code !in considered
    requires condition <==> Cause(f, t, r.code)
    requires condition ==> r.level == LevelOf(f, t, r.code)
    ensures Reflects(f, t, Add(raised, condition, r), considered + {r.code})
  {
    assert !Mentions(raised, r.code);
    forall code | code in considered + {r.code}
      ensures Mentions(Add(raised, condition, r), code) <==> Cause(f, t, code)
    {
      AddMentions(raised, condition, r, code);
    }
  }

  // ---------------------------------------------------------------------------
  // Collecting
  // ---------------------------------------------------------------------------

  /** The highest score among the candidates that await a decision. */
  method StrongestOutstanding(rows: DR.Rows) returns (best: Option<real>)
    ensures best.None? <==> !AnyOutstanding(rows)
    ensures best.Some? ==> forall strong: real :: best.value >= strong <==> AnyStrong(rows, strong)
  {
    best := None;
    ghost var at := "";
    var left := rows.Keys;
    while left != {}
      invariant left <= rows.Keys
      invariant best.Some? ==> DR.Outstanding(rows, at) && rows[at].score == best.value
      invariant forall r :: DR.Outstanding(rows, r) && r !in left ==> best.Some? && rows[r].score <= best.value
      decreases left
    {
      var r :| r in left;
      left := left - {r};
      if rows[r].resolution == DR.Unresolved && (best.None? || rows[r].score > best.value) {
        best, at := Some(rows[r].score), r;
      }
    }
  }

  method CollectPolicy(f: Findings, ghost t: Thresholds, soFar: seq<Raised>, ghost seen: set<ExceptionCode>)
    returns (raised: seq<Raised>)
    requires Reflects(f, t, soFar, seen)
    requires seen == {ReadingFailed}
    ensures Reflects(f, t, raised, seen + {NoPolicyMatch, MultiplePolicyMatches, UnconfirmedPolicyMatch})
  {
    raised := soFar;
    if !f.policyConfirmed {
      if f.strength == PolicyMatch.NoMatch {
        raised := raised + [Raised(NoPolicyMatch, Critical)];
      } else if f.strength == PolicyMatch.Possible && f.candidates > 1 {
        raised := raised + [Raised(MultiplePolicyMatches, Warning)];
      } else if f.strength == PolicyMatch.High || f.strength == PolicyMatch.Possible {
        raised := raised + [Raised(UnconfirmedPolicyMatch, Warning)];
      }
    }
    ghost var none := Raised(NoPolicyMatch, Critical);
    ghost var many := Raised(MultiplePolicyMatches, Warning);
    ghost var one := Raised(UnconfirmedPolicyMatch, Warning);
    ghost var first := Add(soFar, Cause(f, t, NoPolicyMatch), none);
    ghost var second := Add(first, Cause(f, t, MultiplePolicyMatches), many);
    AddReflects(f, t, soFar, seen, Cause(f, t, NoPolicyMatch), none);
    AddReflects(f, t, first, seen + {none.code}, Cause(f, t, MultiplePolicyMatches), many);
    AddReflects(f, t, second, seen + {none.code} + {many.code}, Cause(f, t, UnconfirmedPolicyMatch), one);
    assert seen + {none.code} + {many.code} + {one.code}
        == seen + {NoPolicyMatch, MultiplePolicyMatches, UnconfirmedPolicyMatch};
  }

  /** One independent check: raise the code when its condition holds. */
  method Consider(f: Findings, ghost t: Thresholds, soFar: seq<Raised>, ghost seen: set<ExceptionCode>,
                  condition: bool, code: ExceptionCode, level: Level)
    returns (raised: seq<Raised>)
    requires Reflects(f, t, soFar, seen) && code !in seen
    requires condition <==> Cause(f, t, code)
    requires condition ==> level == LevelOf(f, t, code)
    ensures Reflects(f, t, raised, seen + {code})
  {
    raised := soFar;
    if condition {
      raised := raised + [Raised(code, level)];
    }
    AddReflects(f, t, soFar, seen, condition, Raised(code, level));
  }

  method CollectDates(f: Findings, ghost t: Thresholds, soFar: seq<Raised>, ghost seen: set<ExceptionCode>)
    returns (raised: seq<Raised>)
    requires Reflects(f, t, soFar, seen)
    requires seen !! {FutureLossDate, ConflictingDates, OutsidePolicyPeriod, ExceedsPolicyLimit}
    ensures Reflects(f, t, raised, seen + {FutureLossDate, ConflictingDates, OutsidePolicyPeriod, ExceedsPolicyLimit})
  {
    var future :=
      f.reportedInFuture || (f.dateOfLoss.Some? && f.receivedAt.Some? && f.dateOfLoss.value > f.receivedAt.value);
    raised := Consider(f, t, soFar, seen, future, FutureLossDate, Critical);
    ghost var s := seen + {FutureLossDate};
    raised := Consider(f, t, raised, s, f.conflicting > 0, ConflictingDates, Warning);
    s := s + {ConflictingDates};
    raised := Consider(f, t, raised, s, OutsidePeriod(f), OutsidePolicyPeriod, Critical);
    s := s + {OutsidePolicyPeriod};
    raised := Consider(f, t, raised, s, AboveLimit(f), ExceedsPolicyLimit, Warning);
    assert s + {ExceedsPolicyLimit}
        == seen + {FutureLossDate, ConflictingDates, OutsidePolicyPeriod, ExceedsPolicyLimit};
  }

  method CollectRecords(f: Findings, t: Thresholds, soFar: seq<Raised>, ghost seen: set<ExceptionCode>)
    returns (raised: seq<Raised>)
    requires Reflects(f, t, soFar, seen)
    requires seen !! {MissingCriticalInformation, DuplicateSuspected}
    ensures Reflects(f, t, raised, seen + {MissingCriticalInformation, DuplicateSuspected})
  {
    raised := Consider(f, t, soFar, seen, f.missingCritical > 0, MissingCriticalInformation, Critical);
    ghost var s := seen + {MissingCriticalInformation};
    var best := StrongestOutstanding(f.duplicates);
    var level := if best.Some? && best.value >= t.strongDuplicate then Critical else Warning;
    raised := Consider(f, t, raised, s, best.Some?, DuplicateSuspected, level);
    assert s + {DuplicateSuspected} == seen + {MissingCriticalInformation, DuplicateSuspected};
  }

  method CollectRisks(f: Findings, ghost t: Thresholds, soFar: seq<Raised>, ghost seen: set<ExceptionCode>)
    returns (raised: seq<Raised>)
    requires Reflects(f, t, soFar, seen)
    requires seen !! {HighSeverity, FraudIndicator, CoverageIssue, CatMatch}
    ensures Reflects(f, t, raised, seen + {HighSeverity, FraudIndicator, CoverageIssue, CatMatch})
  {
    raised := Consider(f, t, soFar, seen, f.severity == BandHigh || f.severity == BandCritical, HighSeverity, Warning);
    ghost var s := seen + {HighSeverity};
    raised := Consider(f, t, raised, s, f.fraud == Fraud.Medium || f.fraud == Fraud.High, FraudIndicator, Warning);
    s := s + {FraudIndicator};
    var doubtful := f.coverage == PossibleExclusion || f.coverage == ReviewRequired;
    raised := Consider(f, t, raised, s, doubtful, CoverageIssue, if f.coverage == ReviewRequired then Warning else Critical);
    s := s + {CoverageIssue};
    raised := Consider(f, t, raised, s, f.catMatched && !f.catConfirmed, CatMatch, Info);
    assert s + {CatMatch} == seen + {HighSeverity, FraudIndicator, CoverageIssue, CatMatch};
  }

  method CollectReading(f: Findings, t: Thresholds, soFar: seq<Raised>, ghost seen: set<ExceptionCode>)
    returns (raised: seq<Raised>)
    requires Reflects(f, t, soFar, seen)
    requires seen !! {LowExtractionConfidence, DocumentUnreadable}
    ensures Reflects(f, t, raised, seen + {LowExtractionConfidence, DocumentUnreadable})
  {
    var low := f.confidence.Some? && f.confidence.value < t.lowConfidence && !f.extractionFailed;
    raised := Consider(f, t, soFar, seen, low, LowExtractionConfidence, Warning);
    ghost var s := seen + {LowExtractionConfidence};
    raised := Consider(f, t, raised, s, f.unreadable > 0, DocumentUnreadable, Info);
    assert s + {DocumentUnreadable} == seen + {LowExtractionConfidence, DocumentUnreadable};
  }

  /** What a run raises: every code with a cause, once, at its level, and no other. */
  ghost predicate Reports(f: Findings, t: Thresholds, raised: seq<Raised>) {
    && DistinctCodes(raised)
    && (forall i :: 0 <= i < |raised| ==> raised[i].level == LevelOf(f, t, raised[i].code))
    && (forall code :: Mentions(raised, code) <==> Cause(f, t, code))
  }

  /** Nothing is left unconsidered. */
  lemma EverythingConsidered(f: Findings, t: Thresholds, raised: seq<Raised>, considered: set<ExceptionCode>)
    requires Reflects(f, t, raised, considered)
    requires considered == set code | code in ALL_CODES
    ensures Reports(f, t, raised)
  {
    forall code: ExceptionCode ensures code in considered { EveryCodeIsListed(code); }
  }

  /** The checks whose findings decide whether the notice can become a claim, and the dates. */
  method CollectBlocking(f: Findings, t: Thresholds) returns (raised: seq<Raised>)
    ensures Reflects(f, t, raised, {ReadingFailed, NoPolicyMatch, MultiplePolicyMatches, UnconfirmedPolicyMatch,
                                    FutureLossDate, ConflictingDates, OutsidePolicyPeriod, ExceedsPolicyLimit,
                                    MissingCriticalInformation, DuplicateSuspected})
  {
    raised := Consider(f, t, [], {}, f.extractionFailed, ReadingFailed, Critical);
    raised := CollectPolicy(f, t, raised, {ReadingFailed});
    raised := CollectDates(f, t, raised, {ReadingFailed, NoPolicyMatch, MultiplePolicyMatches, UnconfirmedPolicyMatch});
    raised := CollectRecords(f, t, raised, {ReadingFailed, NoPolicyMatch, MultiplePolicyMatches, UnconfirmedPolicyMatch,
                                            FutureLossDate, ConflictingDates, OutsidePolicyPeriod, ExceedsPolicyLimit});
  }

  method Collect(f: Findings, t: Thresholds) returns (raised: seq<Raised>)
    ensures Reports(f, t, raised)
  {
    raised := CollectBlocking(f, t);
    ghost var s := {ReadingFailed, NoPolicyMatch, MultiplePolicyMatches, UnconfirmedPolicyMatch,
                    FutureLossDate, ConflictingDates, OutsidePolicyPeriod, ExceedsPolicyLimit,
                    MissingCriticalInformation, DuplicateSuspected};
    raised := CollectRisks(f, t, raised, s);
    s := s + {HighSeverity, FraudIndicator, CoverageIssue, CatMatch};
    raised := CollectReading(f, t, raised, s);
    s := s + {LowExtractionConfidence, DocumentUnreadable};
    EverythingConsidered(f, t, raised, s);
  }

  // ---------------------------------------------------------------------------
  // The stored list
  // ---------------------------------------------------------------------------

  predicate IsOpen(rows: Rows, code: ExceptionCode) { code in rows && rows[code].standing == Open }

  predicate Decided(rows: Rows, code: ExceptionCode) { code in rows && rows[code].standing != Open }

  function OpenCodes(rows: Rows): set<ExceptionCode> { set code <- rows | rows[code].standing == Open }

  /** Raising refreshes a stored row but leaves its standing to the officer. */
  function Refreshed(rows: Rows, r: Raised): Row {
    if r.code in rows then rows[r.code].(level := r.level, blocking := IsBlocking(r.code))
    else Row(r.level, IsBlocking(r.code), Open, None, None)
  }

  function AfterClear(rows: Rows, code: ExceptionCode): Rows {
    if IsOpen(rows, code) then rows - {code} else rows
  }

  /** The rows after an evaluation: every raised code, and every decided one. */
  ghost predicate Evaluated(before: Rows, raised: seq<Raised>, after: Rows) {
    && (forall code :: code in after <==> Mentions(raised, code) || Decided(before, code))
    && (forall i :: 0 <= i < |raised| ==>
          raised[i].code in after && after[raised[i].code] == Refreshed(before, raised[i]))
    && (forall code <- after :: !Mentions(raised, code) ==> after[code] == before[code])
  }

  function AfterDecision(rows: Rows, code: ExceptionCode, standing: Standing, actor: string, note: Option<string>): Rows
    requires code in rows
  {
    rows[code := rows[code].(standing := standing, resolvedBy := Some(actor), note := note)]
  }

  datatype Reply = Done | NotOnNotice | AlreadyDealtWith

  class ExceptionList {
    var rows: Rows

    constructor ()
      ensures rows == map[]
    {
      rows := map[];
    }

    method Upsert(r: Raised)
      modifies this
      ensures rows == old(rows)[r.code := Refreshed(old(rows), r)]
    {
      if r.code !in rows {
        rows := rows[r.code := Row(r.level, IsBlocking(r.code), Open, None, None)];
      } else {
        rows := rows[r.code := rows[r.code].(level := r.level, blocking := IsBlocking(r.code))];
      }
    }

    /** Remove an exception whose cause has gone away, unless it was decided. */
    method Clear(code: ExceptionCode)
      modifies this
      ensures rows == AfterClear(old(rows), code)
    {
      if code in rows && rows[code].standing == Open {
        rows := rows - {code};
      }
    }

    method UpsertAll(raised: seq<Raised>)
      requires DistinctCodes(raised)
      modifies this
      ensures forall code :: code in rows <==> code in old(rows) || Mentions(raised, code)
      ensures forall i :: 0 <= i < |raised| ==>
        raised[i].code in rows && rows[raised[i].code] == Refreshed(old(rows), raised[i])
      ensures forall code <- rows :: !Mentions(raised, code) ==> code in old(rows) && rows[code] == old(rows)[code]
    {
      ghost var before := rows;
      for i := 0 to |raised|
        invariant forall code :: code in rows ==> code in before || Mentions(raised, code)
        invariant forall code <- before :: code in rows
        invariant forall j :: 0 <= j < i ==>
          raised[j].code in rows && rows[raised[j].code] == Refreshed(before, raised[j])
        invariant forall j :: i <= j < |raised| ==> (raised[j].code in rows <==> raised[j].code in before)
        invariant forall j :: i <= j < |raised| && raised[j].code in before ==>
          rows[raised[j].code] == before[raised[j].code]
        invariant forall code <- rows :: !Mentions(raised, code) ==> code in before && rows[code] == before[code]
      {
        assert Mentions(raised, raised[i].code);
        Upsert(raised[i]);
      }
    }

    /** Clear every open exception a run did not raise. */
    method ClearOthers(keep: set<ExceptionCode>)
      modifies this
      ensures forall code :: code in rows <==> code in old(rows) && (code in keep || Decided(old(rows), code))
      ensures forall code <- rows :: rows[code] == old(rows)[code]
    {
      ghost var before := rows;
      for i := 0 to |ALL_CODES|
        invariant forall code :: code in rows <==>
          code in before && (code !in ALL_CODES[..i] || code in keep || Decided(before, code))
        invariant forall code <- rows :: rows[code] == before[code]
      {
        assert ALL_CODES[..i + 1] == ALL_CODES[..i] + [ALL_CODES[i]];
        if ALL_CODES[i] !in keep {
          Clear(ALL_CODES[i]);
        }
      }
      assert ALL_CODES[..|ALL_CODES|] == ALL_CODES;
      forall code: ExceptionCode ensures code in ALL_CODES { EveryCodeIsListed(code); }
    }

    /** Recompute the whole list and persist the difference. */
    method Evaluate(f: Findings, t: Thresholds) returns (raised: seq<Raised>)
      modifies this
      ensures Reports(f, t, raised)
      ensures Evaluated(old(rows), raised, rows)
    {
      raised := Collect(f, t);
      UpsertAll(raised);
      var keep := set i | 0 <= i < |raised| :: raised[i].code;
      assert forall code :: code in keep <==> Mentions(raised, code);
      ClearOthers(keep);
    }

    /** An officer marks an open exception resolved or dismissed. */
    method Decide(code: ExceptionCode, standing: Standing, actor: string, note: Option<string>) returns (reply: Reply)
      modifies this
      ensures reply == if code !in old(rows) then NotOnNotice else if !IsOpen(old(rows), code) then AlreadyDealtWith else Done
      ensures rows == if reply == Done then AfterDecision(old(rows), code, standing, actor, note) else old(rows)
    {
      if code !in rows {
        return NotOnNotice;
      }
      if rows[code].standing != Open {
        return AlreadyDealtWith;
      }
      rows := rows[code := rows[code].(standing := standing, resolvedBy := Some(actor), note := note)];
      reply := Done;
    }
  }

  lemma EveryCodeIsListed(code: ExceptionCode)
    ensures code in ALL_CODES
  {
    var i := match code
      case NoPolicyMatch => 0 case MultiplePolicyMatches => 1 case UnconfirmedPolicyMatch => 2
      case DuplicateSuspected => 3 case MissingCriticalInformation => 4 case HighSeverity => 5
      case FraudIndicator => 6 case CoverageIssue => 7 case CatMatch => 8
      case LowExtractionConfidence => 9 case ConflictingDates => 10 case FutureLossDate => 11
      case OutsidePolicyPeriod => 12 case ExceedsPolicyLimit => 13 case ReadingFailed => 14
      case DocumentUnreadable => 15;
    assert ALL_CODES[i] == code;
  }

  // ---------------------------------------------------------------------------
  // Every sequence of evaluations, clearings and decisions
  // ---------------------------------------------------------------------------

  /** The open codes after an evaluation are the raised ones minus those already decided. */
  lemma OpenAfterEvaluation(before: Rows, f: Findings, t: Thresholds, raised: seq<Raised>, after: Rows)
    requires Reports(f, t, raised) && Evaluated(before, raised, after)
    ensures forall code :: code in OpenCodes(after) <==> Cause(f, t, code) && !Decided(before, code)
    ensures forall code :: Decided(after, code) <==> Decided(before, code)
  {
    forall code ensures IsOpen(after, code) <==> Cause(f, t, code) && !Decided(before, code)
      ensures Decided(after, code) <==> Decided(before, code)
    {
      if Mentions(raised, code) {
        var i :| 0 <= i < |raised| && raised[i].code == code;
      }
    }
  }

  /** An evaluation leaves a decided row decided, with its author and note. */
  lemma EvaluationKeepsDecision(before: Rows, raised: seq<Raised>, after: Rows, code: ExceptionCode)
    requires Evaluated(before, raised, after) && Decided(before, code)
    ensures code in after
    ensures after[code].(level := before[code].level, blocking := before[code].blocking) == before[code]
  {
    if Mentions(raised, code) {
      var i :| 0 <= i < |raised| && raised[i].code == code;
    }
  }

  datatype Action =
    | Evaluation(findings: Findings, thresholds: Thresholds)
    | Clearing(code: ExceptionCode)
    | Decision(code: ExceptionCode, standing: Standing, actor: string, note: Option<string>)

  ghost predicate Moves(rows: Rows, a: Action, rows': Rows) {
    match a
    case Evaluation(f, t) =>
      exists raised :: Reports(f, t, raised) && Evaluated(rows, raised, rows')
    case Clearing(code) => rows' == AfterClear(rows, code)
    case Decision(code, standing, actor, note) =>
      && standing != Open
      && rows' == if IsOpen(rows, code) then AfterDecision(rows, code, standing, actor, note) else rows
  }

  ghost predicate IsRun(states: seq<Rows>, actions: seq<Action>) {
    && |states| == |actions| + 1
    && forall i :: 0 <= i < |actions| ==> Moves(states[i], actions[i], states[i + 1])
  }

  /** The same of the rows themselves: what caused each, and what it was before. */
  lemma EvaluatedRow(before: Rows, x: Findings, t: Thresholds, after: Rows, code: ExceptionCode)
    requires Moves(before, Evaluation(x, t), after)
    ensures code in after <==> Cause(x, t, code) || Decided(before, code)
    ensures Cause(x, t, code) ==> after[code] == Refreshed(before, Raised(code, LevelOf(x, t, code)))
    ensures !Cause(x, t, code) && Decided(before, code) ==> after[code] == before[code]
  {
    var raised: seq<Raised> :| Reports(x, t, raised) && Evaluated(before, raised, after);
    if Mentions(raised, code) {
      var i :| 0 <= i < |raised| && raised[i].code == code;
      assert raised[i] == Raised(code, LevelOf(x, t, code));
    }
  }

  /** Evaluating the same findings again changes no row. */
  lemma EvaluationIsIdempotent(before: Rows, x: Findings, t: Thresholds, once: Rows, twice: Rows)
    requires Moves(before, Evaluation(x, t), once) && Moves(once, Evaluation(x, t), twice)
    ensures twice == once
  {
    forall code: ExceptionCode
      ensures code in twice <==> code in once
      ensures code in once ==> twice[code] == once[code]
    {
      EvaluatedRow(before, x, t, once, code);
      EvaluatedRow(once, x, t, twice, code);
    }
  }

  predicate SameDecision(a: Row, b: Row) {
    a.standing == b.standing && a.resolvedBy == b.resolvedBy && a.note == b.note
  }

  /**
   * A decided exception is never reopened, deleted or decided again: over every sequence
   * of evaluations, clearings and decisions its standing, author and note stay as they are.
   */
  lemma {:induction false} DecidedNeverReopens(states: seq<Rows>, actions: seq<Action>, code: ExceptionCode, i: nat, j: nat)
    requires IsRun(states, actions) && i <= j < |states| && Decided(states[i], code)
    ensures Decided(states[j], code) && SameDecision(states[j][code], states[i][code])
    decreases j - i
  {
    if i < j {
      DecidedNeverReopens(states, actions, code, i, j - 1);
      var a := actions[j - 1];
      assert Moves(states[j - 1], a, states[j]);
      if a.Evaluation? {
        var raised: seq<Raised> :| Reports(a.findings, a.thresholds, raised) && Evaluated(states[j - 1], raised, states[j]);
        EvaluationKeepsDecision(states[j - 1], raised, states[j], code);
      }
    }
  }

  /** The stored mark says exactly whether the code stops a claim. */
  ghost predicate Marked(rows: Rows) { forall code <- rows :: rows[code].blocking <==> IsBlocking(code) }

  lemma {:induction false} MarksAreRight(states: seq<Rows>, actions: seq<Action>, i: nat)
    requires IsRun(states, actions) && i < |states| && Marked(states[0])
    ensures Marked(states[i])
  {
    if i > 0 {
      MarksAreRight(states, actions, i - 1);
      var a := actions[i - 1];
      assert Moves(states[i - 1], a, states[i]);
      if a.Evaluation? {
        var raised: seq<Raised> :| Reports(a.findings, a.thresholds, raised) && Evaluated(states[i - 1], raised, states[i]);
        forall code | code in states[i] ensures states[i][code].blocking <==> IsBlocking(code) {
          if Mentions(raised, code) {
            var k :| 0 <= k < |raised| && raised[k].code == code;
          }
        }
      }
    }
  }
}
