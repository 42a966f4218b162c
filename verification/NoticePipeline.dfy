/**
 * One notice under every action on its fields, its three reviewed lists and its status: the
 * pipeline of app/services/fnol/pipeline.py and the officer actions of
 * app/services/fnol/service.py and app/api/v1/routes/fnol.py.
 */
module NoticePipeline {
  import opened Wrappers
  import opened Lifecycle
  import Duplicates
  import Fraud
  import FS = FieldStore
  import PM = PolicyMatch
  import PR = PolicyRanking
  import PB = PolicyBinding
  import DR = DuplicateReview
  import ER = ExceptionReview

  /** What the stages before and beside the three lists found. */
  datatype Facts = Facts(
    extractionFailed: bool, reportedInFuture: bool, receivedAt: Option<int>, conflicting: nat, missingCritical: nat,
    severity: ER.Band, fraud: Fraud.Risk, coverage: ER.Coverage, catMatched: bool, catConfirmed: bool,
    confidence: Option<real>, unreadable: nat)

  /** A policy on the books: what a confirmation copies from it, and its terms. */
  datatype PolicyRecord = PolicyRecord(number: string, insured: string, terms: ER.Terms)

  /**
   * Everything one run reads beside the notice's own fields; no reading when it is reused
   * or failed. The notice's line of business and references are not among its fields.
   */
  datatype Inputs = Inputs(
    reading: Option<FS.Extraction>, lineOfBusiness: string, pool: seq<PM.Policy>, config: PM.Config,
    externalReference: string, reference: string, notices: seq<Duplicates.Loss>, claims: seq<Duplicates.Loss>, similarity: real,
    book: map<nat, PolicyRecord>, thresholds: ER.Thresholds, facts: Facts)

  /** Where a stage raised, if one did; what was written before it stays written. */
  datatype Outcome = FailsReading | FailsClassifying | FailsMatching | FailsAssessing | Completes

  predicate Ranks(outcome: Outcome) { outcome !in {FailsReading, FailsClassifying} }

  predicate Scans(outcome: Outcome) { outcome in {FailsAssessing, Completes} }

  datatype File = File(
    status: Status, converted: bool, fields: FS.Fields, binding: PB.Binding, duplicates: DR.Rows, exceptions: ER.Rows)

  /** What a field correction asks for once it changed something. */
  datatype FollowUp = RunAgain(inputs: Inputs, outcome: Outcome) | OnlyRefresh

  datatype Action =
    | Process(inputs: Inputs, outcome: Outcome)
    | SelectPolicy(policy: nat, officer: string, inputs: Inputs, outcome: Outcome)
    | EditFields(updates: seq<FS.Update>, officer: string, reason: Option<string>, then_: FollowUp)
    | DecideCatastrophe(eventExists: bool)
    | DecideException(code: ExceptionCode, standing: ER.Standing, officer: string, note: Option<string>)
    | DecideDuplicate(reference: string, resolution: DR.Resolution, officer: string, note: Option<string>)
    | Move(target: Status)
    | BecomeClaim(otherFactsPresent: bool)

  /** A notice as it arrives, with whatever values its channel supplied. */
  function NewNotice(fields: FS.Fields): File {
    File(Received, false, fields, PB.Binding(map[], None, false), map[], map[])
  }

  function FieldsRead(f: FS.Fields, reading: Option<FS.Extraction>): FS.Fields {
    if reading.Some? then FS.AfterReading(f, reading.value) else f
  }

  function Started(s: Status): Status { if s == Received then Processing else s }

  type Values = map<FS.Path, FS.Value>

  /** A text column; a missing one reads as empty. */
  function TextAt(v: Values, p: FS.Path): string { if p in v && v[p].Text? then v[p].text else "" }

  function NumberAt(v: Values, p: FS.Path): Option<int> { if p in v && v[p].Number? then Some(v[p].number) else None }

  /** The notice as the policy matcher reads it: its values as they stand. */
  function NoticeOf(v: Values, lineOfBusiness: string): PM.Notice {
    var moment := NumberAt(v, FS.DateOfLoss);
    PM.Notice(
      TextAt(v, FS.PolicyNumber), TextAt(v, FS.InsuredName), TextAt(v, FS.InsuredOrganisation),
      TextAt(v, FS.ReporterOrganisation), TextAt(v, FS.ReporterEmail), TextAt(v, FS.LossLocation),
      lineOfBusiness, if moment.Some? then Some(moment.value / Fraud.DAY) else None)
  }

  /** The notice as it is compared with other records: under the policy it is bound to by now. */
  function LossOf(v: Values, i: Inputs, policyId: Option<nat>): Duplicates.Loss {
    Duplicates.Loss(
      TextAt(v, FS.PolicyNumber), policyId, NumberAt(v, FS.DateOfLoss), TextAt(v, FS.InsuredName), "",
      TextAt(v, FS.LossLocation), TextAt(v, FS.LossDescription), TextAt(v, FS.AffectedAssets),
      i.externalReference, i.reference)
  }

  function RankedFor(v: Values, i: Inputs): seq<PM.Candidate> {
    PR.Ranked(PR.Scores(NoticeOf(v, i.lineOfBusiness), i.pool, i.config), i.config, PB.SHOWN)
  }

  function StrengthFor(v: Values, i: Inputs): PM.Strength { PR.OverallStrength(RankedFor(v, i), i.config) }

  function Rescoring(v: Values, i: Inputs): PB.Action { PB.Rescore(NoticeOf(v, i.lineOfBusiness), i.pool, i.config) }

  function AssessedFor(v: Values, i: Inputs, policyId: Option<nat>): seq<DR.Assessment> {
    DR.Assessed(LossOf(v, i, policyId), i.notices, i.claims)
  }

  function ScoringFor(v: Values, i: Inputs, policyId: Option<nat>): seq<DR.Assessment> {
    DR.Likeliest(AssessedFor(v, i, policyId), i.similarity)
  }

  /** The bound policy when there is one, otherwise the strongest candidate. */
  function ResolvedPolicy(policyId: Option<nat>, ranked: seq<PM.Candidate>, book: map<nat, PolicyRecord>): Option<ER.Terms> {
    if policyId.Some? then (if policyId.value in book then Some(book[policyId.value].terms) else None)
    else if ranked != [] && ranked[0].policyId in book then Some(book[ranked[0].policyId].terms)
    else None
  }

  function FindingsFor(v: Values, i: Inputs, b: PB.Binding, duplicates: DR.Rows): ER.Findings {
    var x := i.facts;
    ER.Findings(
      x.extractionFailed, b.confirmed, StrengthFor(v, i), |RankedFor(v, i)|,
      x.reportedInFuture, NumberAt(v, FS.DateOfLoss), x.receivedAt, x.conflicting,
      ResolvedPolicy(b.policyId, RankedFor(v, i), i.book), NumberAt(v, FS.EstimatedLoss), x.missingCritical, duplicates,
      x.severity, x.fraud, x.coverage, x.catMatched, x.catConfirmed, x.confidence, x.unreadable)
  }

  /** Rows are keyed by identity and by printed reference. */
  ghost predicate Distinct(i: Inputs) {
    && PB.DistinctPolicies(i.pool)
    && forall v: Values, p: Option<nat> :: DR.DistinctReferences(AssessedFor(v, i, p))
  }

  // ---------------------------------------------------------------------------
  // What each action does to the whole file
  // ---------------------------------------------------------------------------

  /** The stages after the reading, from a notice that was already started. */
  ghost predicate StagesRan(f: File, i: Inputs, outcome: Outcome, g: File) {
    && g.converted == f.converted && g.fields == f.fields
    && PB.Moves(f.binding, Rescoring(f.fields.values, i), g.binding)
    && (if Scans(outcome) then DR.Rescanned(f.duplicates, ScoringFor(f.fields.values, i, g.binding.policyId), g.duplicates)
        else g.duplicates == f.duplicates)
    && (if outcome != Completes then g.exceptions == f.exceptions
        else ER.Moves(f.exceptions, ER.Evaluation(FindingsFor(f.fields.values, i, g.binding, g.duplicates), i.thresholds), g.exceptions))
    && g.status == (
         if outcome != Completes then AiProcessingFailed
         else DeriveStatus(f.status, ER.OpenCodes(g.exceptions), i.facts.extractionFailed))
  }

  /** The reading as far as it got, then the stages after it. */
  ghost predicate Processed(f: File, i: Inputs, outcome: Outcome, g: File) {
    var read := if outcome == FailsReading then f.fields else FieldsRead(f.fields, i.reading);
    if Ranks(outcome) then StagesRan(f.(status := Started(f.status), fields := read), i, outcome, g)
    else g == f.(status := AiProcessingFailed, fields := read)
  }

  function Refresh(f: File): File { f.(status := DeriveStatus(f.status, ER.OpenCodes(f.exceptions), false)) }

  function AfterException(f: File, code: ExceptionCode, standing: ER.Standing, officer: string, note: Option<string>): File {
    if !ER.IsOpen(f.exceptions, code) then f
    else Refresh(f.(exceptions := ER.AfterDecision(f.exceptions, code, standing, officer, note)))
  }

  ghost predicate OthersOutstanding(rows: DR.Rows, r: string) { exists q :: q != r && DR.Outstanding(rows, q) }

  ghost function AfterDuplicate(f: File, r: string, d: DR.Resolution, officer: string, note: Option<string>): File {
    if f.status == ClaimCreated || r !in f.duplicates then f
    else
      var decided := f.(duplicates := DR.AfterDecision(f.duplicates, r, d, officer, note));
      Refresh(
        if d == DR.MarkedDuplicate then decided.(status := Rejected)
        else if OthersOutstanding(decided.duplicates, r) then decided
        else decided.(exceptions := ER.AfterClear(f.exceptions, DuplicateSuspected)))
  }

  /** The chosen policy is bound, and becomes the authority on its number. */
  function AfterChoice(f: File, p: nat, officer: string, record: PolicyRecord): File
    requires p in f.binding.rows
  {
    f.(binding := PB.AfterSelect(f.binding, p, officer),
       fields := FS.AfterSelection(f.fields, record.number, record.insured))
  }

  /** Accepted, and at least one value really changed. */
  predicate Corrects(f: File, updates: seq<FS.Update>, officer: string, reason: Option<string>) {
    f.status != ClaimCreated && FS.Refused !in updates && FS.Changes(f.fields, updates, officer, reason) > 0
  }

  function AfterCorrection(f: File, updates: seq<FS.Update>, officer: string, reason: Option<string>): File {
    f.(fields := FS.AfterUpdates(f.fields, updates, officer, reason))
  }

  /** A run of the pipeline: what it starts from, what it reads, and where it stops. */
  datatype PipelineRun = PipelineRun(from: File, inputs: Inputs, outcome: Outcome)

  /** The run an action ends in, if it ends in one. */
  function RunBy(f: File, a: Action): Option<PipelineRun> {
    match a
    case Process(i, outcome) => Some(PipelineRun(f, i, outcome))
    case SelectPolicy(p, officer, i, outcome) =>
      if f.status != ClaimCreated && p in f.binding.rows && p in i.book
      then Some(PipelineRun(AfterChoice(f, p, officer, i.book[p]), i, outcome)) else None
    case EditFields(updates, officer, reason, RunAgain(i, outcome)) =>
      if Corrects(f, updates, officer, reason)
      then Some(PipelineRun(AfterCorrection(f, updates, officer, reason), i, outcome)) else None
    case _ => None
  }

  predicate BecomesClaim(f: File, othersPresent: bool) {
    !f.converted && f.status != ClaimCreated && BlockingCodes(ER.OpenCodes(f.exceptions)) == []
    && f.binding.policyId.Some? && othersPresent
  }

  /** What an action does by itself when it starts no run. */
  ghost function Direct(f: File, a: Action): File {
    match a
    case EditFields(updates, officer, reason, _) =>
      if Corrects(f, updates, officer, reason) then Refresh(AfterCorrection(f, updates, officer, reason)) else f
    case DecideCatastrophe(eventExists) => if f.status == ClaimCreated || !eventExists then f else Refresh(f)
    case DecideException(code, standing, officer, note) => AfterException(f, code, standing, officer, note)
    case DecideDuplicate(r, d, officer, note) => AfterDuplicate(f, r, d, officer, note)
    case Move(target) => if target != ClaimCreated && CanTransition(f.status, target) then f.(status := target) else f
    case BecomeClaim(others) => if BecomesClaim(f, others) then f.(status := ClaimCreated, converted := true) else f
    case _ => f
  }

  /** What the requests can say at all. */
  ghost predicate WellPosed(a: Action) {
    match a
    case Process(i, _) => Distinct(i)
    case SelectPolicy(_, _, i, _) => Distinct(i)
    case EditFields(_, _, _, RunAgain(i, _)) => Distinct(i)
    case DecideException(_, standing, _, _) => standing != ER.Open
    case DecideDuplicate(_, d, _, _) => d != DR.Unresolved
    case _ => true
  }

  ghost predicate Moves(f: File, a: Action, g: File) {
    && WellPosed(a)
    && match RunBy(f, a)
       case Some(r) => Processed(r.from, r.inputs, r.outcome, g)
       case None => g == Direct(f, a)
  }

  // ---------------------------------------------------------------------------
  // The services over one notice
  // ---------------------------------------------------------------------------

  class CaseFile {
    var status: Status
    var converted: bool
    const desk: FS.Desk
    const matches: PB.MatchList
    const duplicates: DR.CandidateList
    const exceptions: ER.ExceptionList

    constructor (currency: string)
      ensures fresh(desk) && fresh(matches) && fresh(duplicates) && fresh(exceptions)
      ensures Contents() == NewNotice(FS.Fields(map[], map[], map[], currency))
    {
      status, converted := Received, false;
      desk := new FS.Desk(currency);
      matches := new PB.MatchList();
      duplicates := new DR.CandidateList();
      exceptions := new ER.ExceptionList();
    }

    ghost function Contents(): File
      reads this, desk, matches, duplicates, exceptions
    {
      File(status, converted, desk.Contents(), matches.Contents(), duplicates.rows, exceptions.rows)
    }

    method Fail()
      modifies this`status
      ensures status == AiProcessingFailed
    {
      status := AiProcessingFailed;
    }

    /** Recompute the status from the currently open exceptions. */
    method RefreshStatus(extractionFailed: bool)
      modifies this`status
      ensures status == DeriveStatus(old(status), ER.OpenCodes(exceptions.rows), extractionFailed)
    {
      var rows := exceptions.rows;
      var open := set code <- rows | rows[code].standing == ER.Open;
      status := DeriveStatus(status, open, extractionFailed);
    }

    method MatchPolicies(i: Inputs)
      requires Distinct(i)
      modifies matches
      ensures PB.Moves(old(matches.Contents()), Rescoring(desk.values, i), matches.Contents())
    {
      var ranked, strength := matches.Match(NoticeOf(desk.values, i.lineOfBusiness), i.pool, i.config);
    }

    method ScanDuplicates(i: Inputs)
      requires Distinct(i)
      modifies duplicates
      ensures DR.Rescanned(old(duplicates.rows), ScoringFor(desk.values, i, matches.policyId), duplicates.rows)
    {
      assert DR.DistinctReferences(AssessedFor(desk.values, i, matches.policyId));
      var scoring := duplicates.Detect(LossOf(desk.values, i, matches.policyId), i.notices, i.claims, i.similarity);
    }

    method RaiseExceptions(i: Inputs)
      modifies exceptions
      ensures ER.Moves(old(exceptions.rows),
                       ER.Evaluation(FindingsFor(desk.values, i, matches.Contents(), duplicates.rows), i.thresholds), exceptions.rows)
    {
      var binding := PB.Binding(matches.rows, matches.policyId, matches.confirmed);
      var raised := exceptions.Evaluate(FindingsFor(desk.values, i, binding, duplicates.rows), i.thresholds);
    }

    method ReadNotice(reading: Option<FS.Extraction>)
      modifies desk
      ensures desk.Contents() == FieldsRead(old(desk.Contents()), reading)
    {
      if reading.Some? {
        desk.Apply(reading.value);
      }
    }

    /** Raise exceptions and derive the status, unless an assessment stage raised first. */
    method Conclude(i: Inputs, outcome: Outcome)
      requires Scans(outcome)
      modifies this`status, exceptions
      ensures exceptions.rows == old(exceptions.rows) || outcome == Completes
      ensures outcome == Completes ==>
        ER.Moves(old(exceptions.rows),
                 ER.Evaluation(FindingsFor(desk.values, i, matches.Contents(), duplicates.rows), i.thresholds), exceptions.rows)
      ensures status == if outcome != Completes then AiProcessingFailed
                        else DeriveStatus(old(status), ER.OpenCodes(exceptions.rows), i.facts.extractionFailed)
    {
      if outcome == FailsAssessing {
        Fail();
      } else {
        RaiseExceptions(i);
        RefreshStatus(i.facts.extractionFailed);
      }
    }

    /** The stages from matching on; a stage that raises leaves what was written before it. */
    method RunStages(i: Inputs, outcome: Outcome)
      requires Distinct(i) && Ranks(outcome)
      modifies this`status, matches, duplicates, exceptions
      ensures StagesRan(old(Contents()), i, outcome, Contents())
    {
      ghost var f := Contents();
      MatchPolicies(i);
      ghost var b := matches.Contents();
      if outcome == FailsMatching {
        Fail();
        assert Contents() == f.(status := AiProcessingFailed, binding := b);
        return;
      }
      ScanDuplicates(i);
      ghost var d := duplicates.rows;
      Conclude(i, outcome);
      assert Contents() == f.(status := status, binding := b, duplicates := d, exceptions := exceptions.rows);
    }

    /** Process the notice end to end. */
    method Run(i: Inputs, outcome: Outcome)
      requires Distinct(i)
      modifies this`status, desk, matches, duplicates, exceptions
      ensures Processed(old(Contents()), i, outcome, Contents())
    {
      ghost var f := Contents();
      if status == Received {
        status := Processing;
      }
      if outcome == FailsReading {
        Fail();
        assert Contents() == f.(status := AiProcessingFailed);
        return;
      }
      ReadNotice(i.reading);
      ghost var read := f.(status := Started(f.status), fields := FieldsRead(f.fields, i.reading));
      assert Contents() == read;
      if outcome == FailsClassifying {
        Fail();
        assert Contents() == read.(status := AiProcessingFailed);
        return;
      }
      RunStages(i, outcome);
    }

    /** An officer's choice of policy, and the run that follows it. */
    method Select(p: nat, officer: string, i: Inputs, outcome: Outcome) returns (accepted: bool)
      requires Distinct(i)
      modifies this, desk, matches, duplicates, exceptions
      ensures Moves(old(Contents()), SelectPolicy(p, officer, i, outcome), Contents())
      ensures accepted <==>
        old(status) != ClaimCreated && p in old(matches.rows) && p in i.book
    {
      if status == ClaimCreated || p !in i.book {
        return false;
      }
      accepted := matches.Select(p, officer);
      if accepted {
        desk.Select(i.book[p].number, i.book[p].insured);
        Run(i, outcome);
      }
    }

    /**
     * An officer's corrections, and the run or the refresh they ask for. A request that
     * meets a refusal is rolled back, so its updates are looked at before any is applied.
     */
    method Correct(updates: seq<FS.Update>, officer: string, reason: Option<string>, then_: FollowUp) returns (accepted: bool)
      requires then_.RunAgain? ==> Distinct(then_.inputs)
      modifies this, desk, matches, duplicates, exceptions
      ensures Moves(old(Contents()), EditFields(updates, officer, reason, then_), Contents())
      ensures accepted <==> old(status) != ClaimCreated && FS.Refused !in updates
    {
      if status == ClaimCreated || FS.Refused in updates {
        return false;
      }
      var changed: nat;
      accepted, changed := desk.UpdateFields(updates, officer, reason);
      if changed > 0 {
        match then_
        case RunAgain(i, outcome) => Run(i, outcome);
        case OnlyRefresh => RefreshStatus(false);
      }
    }

    /** A catastrophe attribution is confirmed or removed; an event that does not exist is refused. */
    method ConfirmCatastrophe(eventExists: bool) returns (accepted: bool)
      modifies this`status
      ensures Moves(old(Contents()), DecideCatastrophe(eventExists), Contents())
      ensures accepted <==> old(status) != ClaimCreated && eventExists
    {
      accepted := status != ClaimCreated && eventExists;
      if accepted {
        RefreshStatus(false);
      }
    }

    method ResolveException(code: ExceptionCode, standing: ER.Standing, officer: string, note: Option<string>)
      returns (reply: ER.Reply)
      modifies this`status, exceptions
      ensures Contents() == AfterException(old(Contents()), code, standing, officer, note)
      ensures reply.Done? <==> ER.IsOpen(old(exceptions.rows), code)
    {
      reply := exceptions.Decide(code, standing, officer, note);
      if reply.Done? {
        RefreshStatus(false);
      }
    }

    /** The duplicate question no longer stands once every other candidate is decided. */
    method CloseQuestion(r: string)
      modifies exceptions
      ensures exceptions.rows ==
        if OthersOutstanding(duplicates.rows, r) then old(exceptions.rows)
        else ER.AfterClear(old(exceptions.rows), DuplicateSuspected)
    {
      var others := duplicates.OthersOutstanding(r);
      if !others {
        exceptions.Clear(DuplicateSuspected);
      }
    }

    method ResolveDuplicate(r: string, d: DR.Resolution, officer: string, note: Option<string>) returns (accepted: bool)
      requires d != DR.Unresolved
      modifies this`status, duplicates, exceptions
      ensures Contents() == AfterDuplicate(old(Contents()), r, d, officer, note)
      ensures accepted <==> old(status) != ClaimCreated && r in old(duplicates.rows)
    {
      if status == ClaimCreated {
        return false;
      }
      ghost var f := Contents();
      accepted := duplicates.Decide(r, d, officer, note);
      if !accepted {
        return;
      }
      ghost var decided := f.(duplicates := DR.AfterDecision(f.duplicates, r, d, officer, note));
      assert Contents() == decided;
      if d == DR.MarkedDuplicate {
        status := Rejected;
      } else {
        CloseQuestion(r);
      }
      ghost var closed := Contents();
      RefreshStatus(false);
      assert Contents() == Refresh(closed);
    }

    method Transition(target: Status) returns (accepted: bool)
      modifies this`status
      ensures Moves(old(Contents()), Move(target), Contents())
      ensures accepted <==> target != ClaimCreated && CanTransition(old(status), target)
    {
      accepted := target != ClaimCreated && CanTransition(status, target);
      if accepted {
        status := target;
      }
    }
  }
}
