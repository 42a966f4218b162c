/**
 * What one claim's knowledge graph holds, said of its records alone: the entities and
 * relationships of app/domain/knowledge_graph.py.
 */
module ClaimGraph {
  import opened Wrappers
  import opened Digits
  import References
  import Matching

  /**
   * A node's identifier: a fixed name, or a namespace and what follows it. The notice and
   * the documents share one namespace.
   */
  datatype NodeId =
    | Claim | Policy | Insured | Incident | Location | Broker | Handler | Adjuster
    | Asset(index: nat) | Coverage(key: string) | Evidence(key: string) | Cat(reference: string)
    | FraudRisk(index: nat) | ExceptionRisk(code: string) | SeededRisk(key: string) | Related(reference: string)

  datatype NodeType =
    | ClaimType | PolicyType | InsuredType | IncidentType | LocationType | AssetType | CoverageType
    | EvidenceType | BrokerType | HandlerType | AdjusterType | CatType | RiskType | RelatedType

  datatype Provenance = Record | Derived | Seeded

  datatype Flag = Unflagged | Issue | Watch

  datatype Node = Node(id: NodeId, kind: NodeType, provenance: Provenance, flag: Flag)

  datatype Relationship =
    | CoveredBy | IssuedTo | ReportedBy | CausedBy | OccurredAt | Damaged | CoveredUnder | SupportedBy
    | AssignedTo | InspectedBy | RelatedTo | Matches | Considered | HasIndicator | Schedules | Evidences | Insures

  datatype Edge = Edge(source: NodeId, relationship: Relationship, target: NodeId, provenance: Provenance)

  // ---------------------------------------------------------------------------
  // The records
  // ---------------------------------------------------------------------------

  datatype ClaimRow = ClaimRow(
    policyNumber: string, insuredName: string, lossType: string, lossDescription: string,
    lossLocation: string, handlerName: string, lossYear: nat)

  datatype CaseRow = CaseRow(
    insuredName: string, causeOfLoss: string, lossDescription: string, lossLocation: string,
    reporterOrganisation: string, reporterName: string, policyConfirmed: bool)

  datatype PolicyRow = PolicyRow(policyNumber: string, insuredName: string, brokerName: string, primaryLocation: string)

  datatype MatchRow = MatchRow(exact: bool, selected: bool, score: real)

  datatype Party = Party(role: string, name: string, organisation: string)

  datatype Document = Document(id: string, failed: bool)

  datatype FieldRow = FieldRow(valueText: string, documentId: Option<string>)

  datatype Check = Check(key: string, state: string)

  datatype Severity = HighSeverity | MediumSeverity | LowSeverity

  datatype ExceptionRow = ExceptionRow(code: string, open: bool, blocking: bool)

  datatype DuplicateRow = DuplicateRow(reference: string, score: real, resolution: string)

  datatype Candidate = Candidate(reference: string, perilMatches: bool)

  datatype Assignment = Assignment(handlerName: string, accepted: bool)

  /** Everything the builder reads; a malformed entry of an assessment is `None`. */
  datatype Input = Input(
    claim: ClaimRow, case_: Option<CaseRow>, policy: Option<PolicyRow>, matches: seq<MatchRow>,
    parties: seq<Party>, documents: seq<Document>, fields: seq<FieldRow>, assets: seq<string>,
    checks: seq<Option<Check>>, indicators: seq<Option<Severity>>, exceptions: seq<ExceptionRow>,
    duplicates: seq<DuplicateRow>, samePolicy: seq<string>, catEvent: Option<string>,
    catCandidates: seq<Candidate>, assignment: Option<Assignment>,
    coverageConfidence: Option<real>, extractionConfidence: Option<real>, includeSeeded: bool)

  function Or(a: string, b: string): string { if a != "" then a else b }

  function Number(x: Input): string {
    Or(if x.policy.Some? then x.policy.value.policyNumber else "", x.claim.policyNumber)
  }

  function InsuredName(x: Input): string {
    Or(Or(if x.policy.Some? then x.policy.value.insuredName else "", x.claim.insuredName),
       if x.case_.Some? then x.case_.value.insuredName else "")
  }

  function Cause(x: Input): string {
    Or(if x.case_.Some? then x.case_.value.causeOfLoss else "", x.claim.lossType)
  }

  function Description(x: Input): string {
    Or(x.claim.lossDescription, if x.case_.Some? then x.case_.value.lossDescription else "")
  }

  function Address(x: Input): string {
    Or(x.claim.lossLocation, if x.case_.Some? then x.case_.value.lossLocation else "")
  }

  function SameText(a: string, b: string): bool {
    Matching.Lower(References.Strip(a)) == Matching.Lower(References.Strip(b))
  }

  /** The first party in a role, roles compared without regard to case. */
  function PartyIn(parties: seq<Party>, role: string): Option<Party> {
    if parties == [] then None
    else if Matching.Lower(parties[0].role) == role then Some(parties[0])
    else PartyIn(parties[1..], role)
  }

  function Organisation(x: Input): string {
    var broker := PartyIn(x.parties, "broker");
    Or(Or(if broker.Some? then broker.value.organisation else "",
          if x.case_.Some? then x.case_.value.reporterOrganisation else ""),
       if x.policy.Some? then x.policy.value.brokerName else "")
  }

  function Contact(x: Input): string {
    var broker := PartyIn(x.parties, "broker");
    Or(if broker.Some? then broker.value.name else "", if x.case_.Some? then x.case_.value.reporterName else "")
  }

  function HandlerName(x: Input): string {
    Or(if x.assignment.Some? then x.assignment.value.handlerName else "", x.claim.handlerName)
  }

  predicate HasPolicy(x: Input) { Number(x) != "" }

  predicate HasInsured(x: Input) { InsuredName(x) != "" }

  predicate HasIncident(x: Input) { Cause(x) != "" || Description(x) != "" }

  predicate HasLocation(x: Input) { HasIncident(x) && Address(x) != "" }

  predicate HasBroker(x: Input) { Organisation(x) != "" || Contact(x) != "" }

  predicate HasHandler(x: Input) { HandlerName(x) != "" }

  predicate HasAdjuster(x: Input) {
    PartyIn(x.parties, "adjuster").Some? || PartyIn(x.parties, "loss_adjuster").Some?
  }

  /** One of the first `n` checks is well formed and carries this key. */
  predicate SeenCheck(checks: seq<Option<Check>>, n: nat, key: string) {
    exists i: nat :: i < n <= |checks| && CheckAt(checks, i, key)
  }

  predicate CheckAt(checks: seq<Option<Check>>, i: nat, key: string)
    requires i < |checks|
  {
    checks[i].Some? && checks[i].value.key == key
  }

  predicate HasCheck(x: Input, key: string) { SeenCheck(x.checks, |x.checks|, key) }

  predicate SeenDocument(documents: seq<Document>, n: nat, id: string) {
    exists i: nat :: i < n <= |documents| && documents[i].id == id
  }

  predicate HasDocument(x: Input, id: string) { SeenDocument(x.documents, |x.documents|, id) }

  /** A value was read out of this document. */
  predicate Cited(x: Input, id: string) {
    exists i :: 0 <= i < |x.fields| && x.fields[i].documentId == Some(id) && x.fields[i].valueText != ""
  }

  predicate HasFraud(x: Input) { exists i :: 0 <= i < |x.indicators| && x.indicators[i].Some? }

  predicate SeenOpen(exceptions: seq<ExceptionRow>, n: nat, code: string) {
    exists i: nat :: i < n <= |exceptions| && OpenAt(exceptions, i, code)
  }

  predicate OpenAt(exceptions: seq<ExceptionRow>, i: nat, code: string)
    requires i < |exceptions|
  {
    exceptions[i].open && exceptions[i].code == code
  }

  predicate HasOpen(x: Input, code: string) { SeenOpen(x.exceptions, |x.exceptions|, code) }

  predicate SeenDuplicate(duplicates: seq<DuplicateRow>, n: nat, r: string) {
    exists i: nat :: i < n <= |duplicates| && duplicates[i].reference == r
  }

  predicate HasDuplicate(x: Input, r: string) { SeenDuplicate(x.duplicates, |x.duplicates|, r) }

  predicate HasRelated(x: Input) { x.duplicates != [] || x.samePolicy != [] }

  const NOTIFICATION := "notification"

  const AMENDMENT := "amendment_before_loss"

  const REPEAT_CAUSE := "repeat_cause_at_site"

  function SeededReference(x: Input): string { "CLM-" + SignedDecimal(x.claim.lossYear - 1) + "-88721" }

  function SignedDecimal(n: int): string { if n < 0 then "-" + Decimal(-n) else Decimal(n) }

  // ---------------------------------------------------------------------------
  // The entities, section by section
  // ---------------------------------------------------------------------------

  predicate ContractNode(x: Input, id: NodeId) {
    (id == Policy && HasPolicy(x)) || (id == Insured && HasInsured(x))
  }

  predicate IncidentNode(x: Input, id: NodeId) {
    (id == Incident && HasIncident(x)) || (id == Location && HasLocation(x))
  }

  predicate AssetNode(x: Input, id: NodeId) { id.Asset? && id.index < |x.assets| }

  predicate CoverageNode(x: Input, id: NodeId) { id.Coverage? && HasCheck(x, id.key) }

  predicate EvidenceNode(x: Input, id: NodeId) {
    id.Evidence? && ((x.case_.Some? && id.key == NOTIFICATION) || HasDocument(x, id.key))
  }

  predicate PersonNode(x: Input, id: NodeId) {
    (id == Broker && HasBroker(x)) || (id == Handler && HasHandler(x)) || (id == Adjuster && HasAdjuster(x))
  }

  predicate CatNode(x: Input, id: NodeId) {
    && id.Cat?
    && if x.catEvent.Some? then id.reference == x.catEvent.value
       else x.catCandidates != [] && id.reference == x.catCandidates[0].reference
  }

  predicate RiskNode(x: Input, id: NodeId) {
    || (id.FraudRisk? && id.index < |x.indicators| && x.indicators[id.index].Some?)
    || (id.ExceptionRisk? && HasOpen(x, id.code))
  }

  predicate RelatedNode(x: Input, id: NodeId) {
    id.Related? && (HasDuplicate(x, id.reference) || id.reference in x.samePolicy)
  }

  predicate SeededNode(x: Input, id: NodeId) {
    && x.includeSeeded
    && (|| (id == Adjuster && !HasAdjuster(x))
        || (id.SeededRisk? && !HasFraud(x) && (id.key == AMENDMENT || id.key == REPEAT_CAUSE))
        || (id.Related? && !HasRelated(x) && id.reference == SeededReference(x)))
  }

  /** The graph has this entity. */
  predicate Expected(x: Input, id: NodeId) {
    || id == Claim
    || ContractNode(x, id) || IncidentNode(x, id) || AssetNode(x, id) || CoverageNode(x, id)
    || EvidenceNode(x, id) || PersonNode(x, id) || CatNode(x, id) || RiskNode(x, id)
    || RelatedNode(x, id) || SeededNode(x, id)
  }

  // ---------------------------------------------------------------------------
  // The relationships, section by section
  // ---------------------------------------------------------------------------

  predicate ContractEdge(x: Input, e: Edge) {
    || (HasPolicy(x) && e == Edge(Claim, CoveredBy, Policy, Derived))
    || (HasPolicy(x) && HasInsured(x) && e == Edge(Policy, IssuedTo, Insured, Record))
    || (!HasPolicy(x) && HasInsured(x) && e == Edge(Claim, IssuedTo, Insured, Record))
  }

  predicate IncidentEdge(x: Input, e: Edge) {
    || (HasIncident(x) && e == Edge(Claim, CausedBy, Incident, Record))
    || (HasLocation(x) && e == Edge(Incident, OccurredAt, Location, Record))
    || (HasLocation(x) && HasPolicy(x) && e == Edge(Policy, Schedules, Location, Derived))
  }

  predicate AssetEdge(x: Input, e: Edge) {
    AssetNode(x, e.target) && e == Edge(if HasIncident(x) then Incident else Claim, Damaged, e.target, Derived)
  }

  predicate CoverageEdge(x: Input, e: Edge) {
    || (CoverageNode(x, e.target) && e == Edge(Claim, CoveredUnder, e.target, Derived))
    || (CoverageNode(x, e.target) && HasPolicy(x) && e == Edge(Policy, CoveredUnder, e.target, Derived))
    || (HasCheck(x, "limit") && AssetNode(x, e.source) && e == Edge(e.source, CoveredUnder, Coverage("limit"), Derived))
  }

  predicate EvidenceEdge(x: Input, e: Edge) {
    || (EvidenceNode(x, e.target) && e == Edge(Claim, SupportedBy, e.target, Record))
    || (e.source.Evidence? && HasDocument(x, e.source.key) && Cited(x, e.source.key) && HasIncident(x)
        && e == Edge(e.source, Evidences, Incident, Derived))
  }

  predicate PersonEdge(x: Input, e: Edge) {
    || (HasBroker(x) && e == Edge(Claim, ReportedBy, Broker, Record))
    || (HasBroker(x) && HasInsured(x) && e == Edge(Broker, Insures, Insured, Derived))
    || (HasHandler(x) && e == Edge(Claim, AssignedTo, Handler, Derived))
    || (HasAdjuster(x) && e == Edge(Claim, InspectedBy, Adjuster, Record))
  }

  predicate CatEdge(x: Input, e: Edge) {
    && CatNode(x, e.target)
    && if x.catEvent.Some? then
         || e == Edge(Claim, Matches, e.target, Derived)
         || (HasIncident(x) && e == Edge(Incident, Matches, e.target, Derived))
       else e == Edge(Claim, Considered, e.target, Derived)
  }

  predicate RiskEdge(x: Input, e: Edge) {
    RiskNode(x, e.target) && e == Edge(Claim, HasIndicator, e.target, Derived)
  }

  predicate RelatedEdge(x: Input, e: Edge) {
    RelatedNode(x, e.target) && e == Edge(Claim, RelatedTo, e.target, Derived)
  }

  predicate SeededEdge(x: Input, e: Edge) {
    || (e.target == Adjuster && SeededNode(x, e.target) && e == Edge(Claim, InspectedBy, e.target, Seeded))
    || (e.target.SeededRisk? && SeededNode(x, e.target) && e == Edge(Claim, HasIndicator, e.target, Seeded))
    || (e.target.SeededRisk? && SeededNode(x, e.target) && HasPolicy(x)
        && e == Edge(Policy, HasIndicator, e.target, Seeded))
    || (e.target.Related? && SeededNode(x, e.target) && e == Edge(Claim, RelatedTo, e.target, Seeded))
    || (e.source.Related? && SeededNode(x, e.source) && HasLocation(x)
        && e == Edge(e.source, OccurredAt, Location, Seeded))
    || (e.source.Related? && SeededNode(x, e.source) && !HasFraud(x)
        && e == Edge(e.source, Evidences, SeededRisk(REPEAT_CAUSE), Seeded))
  }

  /** The graph has this relationship. */
  predicate ExpectedEdge(x: Input, e: Edge) {
    || ContractEdge(x, e) || IncidentEdge(x, e) || AssetEdge(x, e) || CoverageEdge(x, e) || EvidenceEdge(x, e)
    || PersonEdge(x, e) || CatEdge(x, e) || RiskEdge(x, e) || RelatedEdge(x, e) || SeededEdge(x, e)
  }

  // ---------------------------------------------------------------------------
  // What an entity looks like
  // ---------------------------------------------------------------------------

  function KindOf(id: NodeId): NodeType {
    match id
    case Claim => ClaimType
    case Policy => PolicyType
    case Insured => InsuredType
    case Incident => IncidentType
    case Location => LocationType
    case Broker => BrokerType
    case Handler => HandlerType
    case Adjuster => AdjusterType
    case Asset(_) => AssetType
    case Coverage(_) => CoverageType
    case Evidence(_) => EvidenceType
    case Cat(_) => CatType
    case FraudRisk(_) => RiskType
    case ExceptionRisk(_) => RiskType
    case SeededRisk(_) => RiskType
    case Related(_) => RelatedType
  }

  function ProvenanceOf(x: Input, id: NodeId): Provenance {
    match id
    case Policy => if x.policy.Some? then Record else Derived
    case Handler => if x.assignment.Some? then Derived else Record
    case Adjuster => if HasAdjuster(x) then Record else Seeded
    case Asset(_) => Derived
    case Coverage(_) => Derived
    case Cat(_) => if x.catEvent.Some? then Record else Derived
    case FraudRisk(_) => Derived
    case ExceptionRisk(_) => Derived
    case SeededRisk(_) => Seeded
    case Related(r) => if HasDuplicate(x, r) then Derived else if r in x.samePolicy then Record else Seeded
    case _ => Record
  }

  /** The policy match the graph speaks of: the selected one, else the best. */
  function ChosenMatch(matches: seq<MatchRow>): Option<MatchRow> {
    var selected := FirstSelected(matches);
    if selected.Some? then selected else if matches != [] then Some(matches[0]) else None
  }

  function FirstSelected(matches: seq<MatchRow>): Option<MatchRow> {
    if matches == [] then None else if matches[0].selected then Some(matches[0]) else FirstSelected(matches[1..])
  }

  predicate Scheduled(x: Input) {
    x.policy.Some? && x.policy.value.primaryLocation != "" && SameText(x.policy.value.primaryLocation, Address(x))
  }

  predicate OnPolicy(x: Input) {
    && x.policy.Some? && x.policy.value.brokerName != "" && Organisation(x) != ""
    && SameText(x.policy.value.brokerName, Organisation(x))
  }

  function CheckFlag(state: string): Flag {
    if state == "fail" then Issue else if state == "attention" || state == "warn" then Watch else Unflagged
  }

  /** The first well-formed check under a key; later ones with the same key add nothing. */
  function FirstCheck(checks: seq<Option<Check>>, key: string): Option<Check> {
    if checks == [] then None
    else if checks[0].Some? && checks[0].value.key == key then checks[0]
    else FirstCheck(checks[1..], key)
  }

  function FirstDocument(documents: seq<Document>, id: string): Option<Document> {
    if documents == [] then None else if documents[0].id == id then Some(documents[0]) else FirstDocument(documents[1..], id)
  }

  function FirstOpen(exceptions: seq<ExceptionRow>, code: string): Option<ExceptionRow> {
    if exceptions == [] then None
    else if exceptions[0].open && exceptions[0].code == code then Some(exceptions[0])
    else FirstOpen(exceptions[1..], code)
  }

  function FirstDuplicate(duplicates: seq<DuplicateRow>, r: string): Option<DuplicateRow> {
    if duplicates == [] then None else if duplicates[0].reference == r then Some(duplicates[0]) else FirstDuplicate(duplicates[1..], r)
  }

  function PolicyFlag(x: Input): Flag {
    var m := ChosenMatch(x.matches);
    if (m.Some? && !m.value.exact) || (x.case_.Some? && !x.case_.value.policyConfirmed) then Watch else Unflagged
  }

  function SeverityFlag(s: Severity): Flag {
    match s case HighSeverity => Issue case MediumSeverity => Watch case LowSeverity => Unflagged
  }

  function DuplicateFlag(d: DuplicateRow): Flag {
    if d.score >= 0.8 && d.resolution == "open" then Issue else Watch
  }

  function EvidenceFlag(x: Input, key: string): Flag {
    if x.case_.Some? && key == NOTIFICATION then Unflagged
    else
      var d := FirstDocument(x.documents, key);
      if d.Some? && d.value.failed then Issue else Unflagged
  }

  function RelatedFlag(x: Input, r: string): Flag {
    var d := FirstDuplicate(x.duplicates, r);
    if d.Some? then DuplicateFlag(d.value) else if r in x.samePolicy then Unflagged else Watch
  }

  function FlagOf(x: Input, id: NodeId): Flag {
    match id
    case Policy => PolicyFlag(x)
    case Location => if Scheduled(x) then Unflagged else Watch
    case Broker => if OnPolicy(x) then Unflagged else Watch
    case Handler => if x.assignment.Some? && !x.assignment.value.accepted then Watch else Unflagged
    case Coverage(key) =>
      var c := FirstCheck(x.checks, key);
      if c.Some? then CheckFlag(c.value.state) else Unflagged
    case Evidence(key) => EvidenceFlag(x, key)
    case Cat(_) =>
      if x.catEvent.None? && x.catCandidates != [] && x.catCandidates[0].perilMatches then Watch else Unflagged
    case FraudRisk(i) =>
      if i < |x.indicators| && x.indicators[i].Some? then SeverityFlag(x.indicators[i].value) else Unflagged
    case ExceptionRisk(code) =>
      var e := FirstOpen(x.exceptions, code);
      if e.Some? && e.value.blocking then Issue else Watch
    case SeededRisk(key) => if key == AMENDMENT then Issue else Watch
    case Related(r) => RelatedFlag(x, r)
    case _ => Unflagged
  }

  /** The entity as the graph shows it. */
  function NodeFor(x: Input, id: NodeId): Node { Node(id, KindOf(id), ProvenanceOf(x, id), FlagOf(x, id)) }

  // ---------------------------------------------------------------------------
  // First rows under a key
  // ---------------------------------------------------------------------------

  lemma {:induction false} FirstCheckIs(checks: seq<Option<Check>>, k: nat)
    requires k < |checks| && checks[k].Some? && !SeenCheck(checks, k, checks[k].value.key)
    ensures FirstCheck(checks, checks[k].value.key) == checks[k]
  {
    if k > 0 {
      var key := checks[k].value.key;
      assert !CheckAt(checks, 0, key);
      assert forall i: nat :: i < k - 1 && CheckAt(checks[1..], i, key) ==> CheckAt(checks, i + 1, key);
      FirstCheckIs(checks[1..], k - 1);
    }
  }

  lemma {:induction false} FirstDocumentIs(documents: seq<Document>, k: nat)
    requires k < |documents| && !SeenDocument(documents, k, documents[k].id)
    ensures FirstDocument(documents, documents[k].id) == Some(documents[k])
  {
    if k > 0 {
      assert forall i :: 0 <= i < k - 1 ==> documents[1..][i] == documents[i + 1];
      FirstDocumentIs(documents[1..], k - 1);
    }
  }

  lemma {:induction false} FirstOpenIs(exceptions: seq<ExceptionRow>, k: nat)
    requires k < |exceptions| && exceptions[k].open && !SeenOpen(exceptions, k, exceptions[k].code)
    ensures FirstOpen(exceptions, exceptions[k].code) == Some(exceptions[k])
  {
    if k > 0 {
      var code := exceptions[k].code;
      assert !OpenAt(exceptions, 0, code);
      assert forall i: nat :: i < k - 1 && OpenAt(exceptions[1..], i, code) ==> OpenAt(exceptions, i + 1, code);
      FirstOpenIs(exceptions[1..], k - 1);
    }
  }

  lemma {:induction false} FirstDuplicateIs(duplicates: seq<DuplicateRow>, k: nat)
    requires k < |duplicates| && !SeenDuplicate(duplicates, k, duplicates[k].reference)
    ensures FirstDuplicate(duplicates, duplicates[k].reference) == Some(duplicates[k])
  {
    if k > 0 {
      assert forall i :: 0 <= i < k - 1 ==> duplicates[1..][i] == duplicates[i + 1];
      FirstDuplicateIs(duplicates[1..], k - 1);
    }
  }

  lemma {:induction false} NoDuplicate(duplicates: seq<DuplicateRow>, r: string)
    requires !SeenDuplicate(duplicates, |duplicates|, r)
    ensures FirstDuplicate(duplicates, r) == None
  {
    if duplicates != [] {
      assert duplicates[0].reference != r;
      assert forall i :: 0 <= i < |duplicates| - 1 ==> duplicates[1..][i] == duplicates[i + 1];
      NoDuplicate(duplicates[1..], r);
    }
  }

  // ---------------------------------------------------------------------------
  // Identifiers as text
  // ---------------------------------------------------------------------------

  /** The fixed part of an identifier: all of it, or its namespace. */
  function Space(id: NodeId): string {
    match id
    case Claim => "claim"
    case Policy => "policy"
    case Insured => "insured"
    case Incident => "incident"
    case Location => "location"
    case Broker => "broker"
    case Handler => "handler"
    case Adjuster => "adjuster"
    case Asset(_) => "asset:"
    case Coverage(_) => "coverage:"
    case Evidence(_) => "evidence:"
    case Cat(_) => "cat:"
    case FraudRisk(_) => "risk:fraud:"
    case ExceptionRisk(_) => "risk:exception:"
    case SeededRisk(_) => "risk:seeded:"
    case Related(_) => "related:"
  }

  function Rest(id: NodeId): string {
    match id
    case Asset(index) => Decimal(index)
    case Coverage(key) => key
    case Evidence(key) => key
    case Cat(reference) => reference
    case FraudRisk(index) => Decimal(index)
    case ExceptionRisk(code) => code
    case SeededRisk(key) => key
    case Related(reference) => reference
    case _ => ""
  }

  function Text(id: NodeId): string { Space(id) + Rest(id) }

  /** Which sort of identifier a text is, read off its first characters. */
  function SortOf(t: string): nat
    requires |t| >= 4 && (t[0] == 'r' && t[1] != 'e' ==> |t| >= 6)
  {
    if t[0] == 'i' then (if t[2] == 's' then 0 else 1)
    else if t[0] == 'r' then
      if t[1] == 'e' then 2 else if t[5] == 'f' then 3 else if t[5] == 'e' then 4 else 5
    else if t[0] == 'c' then (if t[1] == 'l' then 6 else if t[1] == 'o' then 7 else 8)
    else if t[0] == 'a' then (if t[1] == 'd' then 9 else 10)
    else if t[0] == 'p' then 11 else if t[0] == 'l' then 12 else if t[0] == 'b' then 13
    else if t[0] == 'h' then 14 else 15
  }

  function Sort(id: NodeId): nat {
    match id
    case Insured => 0 case Incident => 1 case Related(_) => 2 case FraudRisk(_) => 3 case ExceptionRisk(_) => 4
    case SeededRisk(_) => 5 case Claim => 6 case Coverage(_) => 7 case Cat(_) => 8 case Adjuster => 9
    case Asset(_) => 10 case Policy => 11 case Location => 12 case Broker => 13 case Handler => 14 case Evidence(_) => 15
  }

  lemma TextShowsSort(id: NodeId)
    ensures |Text(id)| >= 4 && (Text(id)[0] == 'r' && Text(id)[1] != 'e' ==> |Text(id)| >= 6)
    ensures SortOf(Text(id)) == Sort(id)
  {
    var t, s := Text(id), Space(id);
    assert forall k :: 0 <= k < |s| ==> t[k] == s[k];
  }

  lemma RestIsInjective(a: NodeId, b: NodeId)
    requires Sort(a) == Sort(b) && Rest(a) == Rest(b)
    ensures a == b
  {
    if a.Asset? || a.FraudRisk? {
      ValueDecimal(a.index);
      ValueDecimal(b.index);
    }
  }

  /** Two identifiers are the same text only when they are the same: no namespace hides another. */
  lemma TextIsInjective(a: NodeId, b: NodeId)
    ensures Text(a) == Text(b) <==> a == b
  {
    if Text(a) == Text(b) {
      TextShowsSort(a);
      TextShowsSort(b);
      assert Space(a) == Space(b);
      assert Rest(a) == Text(a)[|Space(a)|..] && Rest(b) == Text(b)[|Space(b)|..];
      RestIsInjective(a, b);
    }
  }
}
