/** Building the graph: `_Builder`, its sections and `build_claim_graph` of app/domain/knowledge_graph.py. */
module GraphBuilder {
  import opened Wrappers
  import opened ClaimGraph

  predicate UniqueIds(nodes: seq<Node>) { forall i, j :: 0 <= i < j < |nodes| ==> nodes[i].id != nodes[j].id }

  predicate Lists(nodes: seq<Node>, id: NodeId) { exists i :: 0 <= i < |nodes| && nodes[i].id == id }

  predicate LocationEdge(x: Input, e: Edge) {
    || (HasLocation(x) && e == Edge(Incident, OccurredAt, Location, Record))
    || (HasLocation(x) && HasPolicy(x) && e == Edge(Policy, Schedules, Location, Derived))
  }

  function DamageEdge(x: Input, asset: NodeId): Edge {
    Edge(if HasIncident(x) then Incident else Claim, Damaged, asset, Derived)
  }

  /** An entity's tie to the claim. */
  function Tie(relationship: Relationship, id: NodeId, provenance: Provenance): Edge {
    Edge(Claim, relationship, id, provenance)
  }

  class Builder {
    const data: Input
    var nodes: seq<Node>
    var edges: seq<Edge>
    var ids: set<NodeId>

    constructor (data: Input)
      ensures this.data == data && nodes == [] && edges == [] && ids == {}
      ensures Valid()
    {
      this.data := data;
      nodes, edges, ids := [], [], {};
    }

    /**
     * Every node stands once, as its records describe it; the identifiers kept beside the
     * list are those of the list; and every edge joins two different nodes of it.
     */
    ghost predicate Valid()
      reads this
    {
      && UniqueIds(nodes)
      && (forall n <- nodes :: n.id in ids && n == NodeFor(data, n.id))
      && (forall id <- ids :: Lists(nodes, id))
      && (forall e <- edges :: e.source in ids && e.target in ids && e.source != e.target)
    }

    /** Both ends exist and differ. */
    ghost predicate Joins(source: Option<NodeId>, target: NodeId)
      reads this
    {
      source.Some? && source.value in ids && target in ids && source.value != target
    }

    /** Adds the node unless one with its identifier is there already. */
    method Add(n: Node)
      requires Valid() && (n.id !in ids ==> n == NodeFor(data, n.id))
      modifies this`nodes, this`ids
      ensures Valid() && ids == old(ids) + {n.id}
    {
      if n.id in ids {
        assert ids == ids + {n.id};
        return;
      }
      ghost var before := nodes;
      nodes := nodes + [n];
      ids := ids + {n.id};
      assert nodes[|before|].id == n.id;
      forall id | id in old(ids) ensures Lists(nodes, id) {
        var i :| 0 <= i < |before| && before[i].id == id;
        assert nodes[i].id == id;
      }
    }

    /** Joins two entities, silently skipping an end that does not exist. */
    method Link(source: Option<NodeId>, relationship: Relationship, target: NodeId, provenance: Provenance)
      requires Valid()
      modifies this`edges
      ensures Valid()
      ensures old(edges) <= edges
      ensures forall e :: e in edges <==>
        e in old(edges) || (Joins(source, target) && e == Edge(source.value, relationship, target, provenance))
    {
      if source.None? || source.value !in ids || target !in ids || source.value == target {
        return;
      }
      edges := edges + [Edge(source.value, relationship, target, provenance)];
    }

    /** The claim is in, and the contract and the incident exactly when the records have them. */
    ghost predicate Grounded()
      reads this
    {
      && Valid() && Claim in ids
      && (Policy in ids <==> HasPolicy(data)) && (Insured in ids <==> HasInsured(data))
      && (Incident in ids <==> HasIncident(data)) && (Location in ids <==> HasLocation(data))
    }

    method AddClaim()
      requires Valid() && ids == {} && edges == []
      modifies this`nodes, this`ids
      ensures Valid() && ids == {Claim}
    {
      Add(Node(Claim, ClaimType, Record, Unflagged));
    }

    method AddPolicy()
      requires Valid() && ids == {Claim} && edges == []
      modifies this`nodes, this`edges, this`ids
      ensures Valid() && ids == if HasPolicy(data) then {Claim, Policy} else {Claim}
      ensures forall e :: e in edges <==> HasPolicy(data) && e == Edge(Claim, CoveredBy, Policy, Derived)
    {
      if Number(data) != "" {
        Add(Node(Policy, PolicyType, if data.policy.Some? then Record else Derived, PolicyFlag(data)));
        Link(Some(Claim), CoveredBy, Policy, Derived);
      }
    }

    method AddContract()
      requires Valid() && ids == {Claim} && edges == []
      modifies this`nodes, this`edges, this`ids
      ensures Valid()
      ensures forall id :: id in ids <==> id == Claim || ContractNode(data, id)
      ensures forall e :: e in edges <==> ContractEdge(data, e)
    {
      AddPolicy();
      if InsuredName(data) != "" {
        Add(Node(Insured, InsuredType, Record, Unflagged));
        Link(Some(Policy), IssuedTo, Insured, Record);
        if Policy !in ids {
          Link(Some(Claim), IssuedTo, Insured, Record);
        }
      }
    }

    method AddLocation()
      requires Valid() && Incident in ids && HasIncident(data)
      requires Location !in ids && (Policy in ids <==> HasPolicy(data))
      modifies this`nodes, this`edges, this`ids
      ensures Valid() && ids == if HasLocation(data) then old(ids) + {Location} else old(ids)
      ensures forall e :: e in edges <==> e in old(edges) || LocationEdge(data, e)
    {
      if Address(data) != "" {
        Add(Node(Location, LocationType, Record, if Scheduled(data) then Unflagged else Watch));
        Link(Some(Incident), OccurredAt, Location, Record);
        Link(Some(Policy), Schedules, Location, Derived);
      }
    }

    method AddIncident() returns (incident: Option<NodeId>)
      requires Valid() && Claim in ids && Incident !in ids && Location !in ids
      requires Policy in ids <==> HasPolicy(data)
      modifies this`nodes, this`edges, this`ids
      ensures Valid()
      ensures forall id :: id in ids <==> id in old(ids) || IncidentNode(data, id)
      ensures forall e :: e in edges <==> e in old(edges) || IncidentEdge(data, e)
      ensures incident == if HasIncident(data) then Some(Incident) else None
    {
      if Cause(data) == "" && Description(data) == "" {
        return None;
      }
      Add(Node(Incident, IncidentType, Record, Unflagged));
      Link(Some(Claim), CausedBy, Incident, Record);
      AddLocation();
      incident := Some(Incident);
    }

    /** Adds an entity and its tie to the claim. */
    method Attach(n: Node, relationship: Relationship, provenance: Provenance)
      requires Grounded() && n.id != Claim && (n.id !in ids ==> n == NodeFor(data, n.id))
      requires n.id != Policy && n.id != Insured && n.id != Incident && n.id != Location
      modifies this`nodes, this`edges, this`ids
      ensures Grounded() && ids == old(ids) + {n.id}
      ensures forall e :: e in edges <==> e in old(edges) || e == Tie(relationship, n.id, provenance)
    {
      Add(n);
      Link(Some(Claim), relationship, n.id, provenance);
    }

    method AddAsset(k: nat, incident: Option<NodeId>)
      requires Grounded() && k < |data.assets|
      requires incident == if HasIncident(data) then Some(Incident) else None
      modifies this`nodes, this`edges, this`ids
      ensures Grounded() && ids == old(ids) + {Asset(k)}
      ensures forall e :: e in edges <==> e in old(edges) || e == DamageEdge(data, Asset(k))
    {
      Add(Node(Asset(k), AssetType, Derived, Unflagged));
      Link(incident, Damaged, Asset(k), Derived);
      if incident.None? || incident.value !in ids {
        Link(Some(Claim), Damaged, Asset(k), Derived);
      }
    }

    method AddAssets(incident: Option<NodeId>)
      requires Grounded() && incident == if HasIncident(data) then Some(Incident) else None
      modifies this`nodes, this`edges, this`ids
      ensures Grounded()
      ensures forall id :: id in ids <==> id in old(ids) || AssetNode(data, id)
      ensures forall e :: e in edges <==> e in old(edges) || AssetEdge(data, e)
    {
      for k := 0 to |data.assets|
        invariant Grounded()
        invariant forall id :: id in ids <==> id in old(ids) || (id.Asset? && id.index < k)
        invariant forall e :: e in edges <==>
          e in old(edges) || (e.target.Asset? && e.target.index < k && e == DamageEdge(data, e.target))
      {
        AddAsset(k, incident);
      }
    }

    method AddCheck(check: Check)
      requires Grounded()
      requires Coverage(check.key) !in ids ==> FirstCheck(data.checks, check.key) == Some(check)
      modifies this`nodes, this`edges, this`ids
      ensures Grounded() && ids == old(ids) + {Coverage(check.key)}
      ensures forall e :: e in edges <==> e in old(edges) || KeyEdge(data, check.key, e)
    {
      var id := Coverage(check.key);
      Attach(Node(id, CoverageType, Derived, CheckFlag(check.state)), CoveredUnder, Derived);
      Link(Some(Policy), CoveredUnder, id, Derived);
    }

    /** One entry of the assessment; a malformed one is skipped. */
    method AddEntry(k: nat)
      requires Grounded() && k < |data.checks|
      requires forall id: NodeId :: id.Coverage? ==> (id in ids <==> SeenCheck(data.checks, k, id.key))
      modifies this`nodes, this`edges, this`ids
      ensures Grounded()
      ensures forall id :: id in ids <==> id in old(ids) || (id.Coverage? && CheckAt(data.checks, k, id.key))
      ensures forall e :: e in edges <==>
        e in old(edges) || (e.target.Coverage? && CheckAt(data.checks, k, e.target.key) && KeyEdge(data, e.target.key, e))
    {
      if data.checks[k].Some? {
        if Coverage(data.checks[k].value.key) !in ids {
          FirstCheckIs(data.checks, k);
        }
        AddCheck(data.checks[k].value);
      }
    }

    method AddChecks()
      requires Grounded() && forall id <- ids :: !id.Coverage?
      modifies this`nodes, this`edges, this`ids
      ensures Grounded()
      ensures forall id :: id in ids <==> id in old(ids) || CoverageNode(data, id)
      ensures forall e :: e in edges <==> e in old(edges) || CheckEdge(data, |data.checks|, e)
    {
      for k := 0 to |data.checks|
        invariant Grounded()
        invariant forall id :: id in ids <==> id in old(ids) || (id.Coverage? && SeenCheck(data.checks, k, id.key))
        invariant forall e :: e in edges <==> e in old(edges) || CheckEdge(data, k, e)
      {
        SeenCheckStep(data.checks, k);
        AddEntry(k);
      }
    }

    method CoverNode(n: Node)
      requires Grounded() && n in nodes && Coverage("limit") in ids && HasCheck(data, "limit")
      requires n.id.Asset? ==> AssetNode(data, n.id)
      modifies this`edges
      ensures Grounded()
      ensures forall e :: e in edges <==> e in old(edges) || (LimitEdge(data, e) && e.source == n.id)
    {
      if n.kind == AssetType {
        Link(Some(n.id), CoveredUnder, Coverage("limit"), Derived);
      }
    }

    /** Every asset node sits under the limit check, when there is one. */
    method CoverAssets()
      requires Grounded() && (Coverage("limit") in ids <==> HasCheck(data, "limit"))
      requires forall id: NodeId :: id.Asset? ==> (id in ids <==> AssetNode(data, id))
      modifies this`edges
      ensures Grounded()
      ensures forall e :: e in edges <==> e in old(edges) || LimitEdge(data, e)
    {
      if Coverage("limit") !in ids {
        return;
      }
      for k := 0 to |nodes|
        invariant Grounded()
        invariant forall e :: e in edges <==> e in old(edges) || (LimitEdge(data, e) && ListedBefore(nodes, k, e.source))
      {
        ListedStep(nodes, k);
        CoverNode(nodes[k]);
      }
      AssetsAreListed();
    }

    lemma AssetsAreListed()
      requires Valid() && forall id: NodeId :: id.Asset? ==> (id in ids <==> AssetNode(data, id))
      ensures forall id :: AssetNode(data, id) ==> ListedBefore(nodes, |nodes|, id)
    {
      forall id | AssetNode(data, id) ensures ListedBefore(nodes, |nodes|, id) {
        assert Lists(nodes, id);
      }
    }

    method AddCoverage()
      requires Grounded() && forall id <- ids :: !id.Coverage?
      requires forall id: NodeId :: id.Asset? ==> (id in ids <==> AssetNode(data, id))
      modifies this`nodes, this`edges, this`ids
      ensures Grounded()
      ensures forall id :: id in ids <==> id in old(ids) || CoverageNode(data, id)
      ensures forall e :: e in edges <==> e in old(edges) || CoverageEdge(data, e)
    {
      AddChecks();
      CoverAssets();
    }

    method AddNotification()
      requires Grounded() && forall id <- ids :: !id.Evidence?
      modifies this`nodes, this`edges, this`ids
      ensures Grounded()
      ensures ids == if data.case_.Some? then old(ids) + {Evidence(NOTIFICATION)} else old(ids)
      ensures forall e :: e in edges <==>
        e in old(edges) || (data.case_.Some? && e == Tie(SupportedBy, Evidence(NOTIFICATION), Record))
    {
      if data.case_.Some? {
        Attach(Node(Evidence(NOTIFICATION), EvidenceType, Record, Unflagged), SupportedBy, Record);
      }
    }

    method AddDocument(k: nat)
      requires Grounded() && k < |data.documents|
      requires data.case_.Some? ==> Evidence(NOTIFICATION) in ids
      requires forall key :: Evidence(key) !in ids ==> !SeenDocument(data.documents, k, key)
      modifies this`nodes, this`edges, this`ids
      ensures Grounded() && ids == old(ids) + {Evidence(data.documents[k].id)}
      ensures forall e :: e in edges <==> e in old(edges) || DocumentEdge(data, data.documents[k].id, e)
    {
      var document := data.documents[k];
      var id := Evidence(document.id);
      if id !in ids {
        FirstDocumentIs(data.documents, k);
      }
      Attach(Node(id, EvidenceType, Record, if document.failed then Issue else Unflagged), SupportedBy, Record);
      if Cited(data, document.id) {
        Link(Some(id), Evidences, Incident, Derived);
      }
    }

    method AddDocuments()
      requires Grounded() && forall id: NodeId :: id.Evidence? ==> (id in ids <==> NoticeNode(data, id))
      modifies this`nodes, this`edges, this`ids
      ensures Grounded()
      ensures forall id :: id in ids <==> id in old(ids) || (id.Evidence? && HasDocument(data, id.key))
      ensures forall e :: e in edges <==> e in old(edges) || SomeDocumentEdge(data, |data.documents|, e)
    {
      for k := 0 to |data.documents|
        invariant Grounded()
        invariant forall id :: id in ids <==> id in old(ids) || (id.Evidence? && SeenDocument(data.documents, k, id.key))
        invariant forall e :: e in edges <==> e in old(edges) || SomeDocumentEdge(data, k, e)
      {
        SeenDocumentStep(data, k);
        AddDocument(k);
      }
    }

    method AddEvidence()
      requires Grounded() && forall id <- ids :: !id.Evidence?
      modifies this`nodes, this`edges, this`ids
      ensures Grounded()
      ensures forall id :: id in ids <==> id in old(ids) || EvidenceNode(data, id)
      ensures forall e :: e in edges <==> e in old(edges) || EvidenceEdge(data, e)
    {
      AddNotification();
      AddDocuments();
      DocumentEdges(data);
    }

    method AddBroker()
      requires Grounded()
      modifies this`nodes, this`edges, this`ids
      ensures Grounded() && ids == if HasBroker(data) then old(ids) + {Broker} else old(ids)
      ensures forall e :: e in edges <==> e in old(edges) || BrokerEdge(data, e)
    {
      if Organisation(data) != "" || Contact(data) != "" {
        Attach(Node(Broker, BrokerType, Record, if OnPolicy(data) then Unflagged else Watch), ReportedBy, Record);
        Link(Some(Broker), Insures, Insured, Derived);
      }
    }

    method AddHandler()
      requires Grounded()
      modifies this`nodes, this`edges, this`ids
      ensures Grounded() && ids == if HasHandler(data) then old(ids) + {Handler} else old(ids)
      ensures forall e :: e in edges <==> e in old(edges) || (HasHandler(data) && e == Tie(AssignedTo, Handler, Derived))
    {
      if HandlerName(data) != "" {
        var recommended := data.assignment.Some? && !data.assignment.value.accepted;
        Attach(Node(Handler, HandlerType, if data.assignment.Some? then Derived else Record,
                    if recommended then Watch else Unflagged), AssignedTo, Derived);
      }
    }

    method AddAdjuster()
      requires Grounded()
      modifies this`nodes, this`edges, this`ids
      ensures Grounded() && ids == if HasAdjuster(data) then old(ids) + {Adjuster} else old(ids)
      ensures forall e :: e in edges <==> e in old(edges) || (HasAdjuster(data) && e == Tie(InspectedBy, Adjuster, Record))
    {
      var adjuster := PartyIn(data.parties, "adjuster");
      if adjuster.None? {
        adjuster := PartyIn(data.parties, "loss_adjuster");
      }
      if adjuster.Some? {
        Attach(Node(Adjuster, AdjusterType, Record, Unflagged), InspectedBy, Record);
      }
    }

    method AddStaff()
      requires Grounded()
      modifies this`nodes, this`edges, this`ids
      ensures Grounded()
      ensures ids == old(ids) + (if HasHandler(data) then {Handler} else {}) + (if HasAdjuster(data) then {Adjuster} else {})
      ensures forall e :: e in edges <==> e in old(edges) || StaffEdge(data, e)
    {
      AddHandler();
      AddAdjuster();
    }

    method AddPeople()
      requires Grounded()
      modifies this`nodes, this`edges, this`ids
      ensures Grounded()
      ensures forall id :: id in ids <==> id in old(ids) || PersonNode(data, id)
      ensures forall e :: e in edges <==> e in old(edges) || PersonEdge(data, e)
    {
      AddBroker();
      AddStaff();
      PeopleByPart(data);
    }

    method AddCatastrophe(incident: Option<NodeId>)
      requires Grounded() && incident == if HasIncident(data) then Some(Incident) else None
      modifies this`nodes, this`edges, this`ids
      ensures Grounded()
      ensures forall id :: id in ids <==> id in old(ids) || CatNode(data, id)
      ensures forall e :: e in edges <==> e in old(edges) || CatEdge(data, e)
    {
      if data.catEvent.Some? {
        var id := Cat(data.catEvent.value);
        Attach(Node(id, CatType, Record, Unflagged), Matches, Derived);
        Link(incident, Matches, id, Derived);
      } else if data.catCandidates != [] {
        var candidate := data.catCandidates[0];
        var flag := if candidate.perilMatches then Watch else Unflagged;
        Attach(Node(Cat(candidate.reference), CatType, Derived, flag), Considered, Derived);
      }
    }

    method AddIndicator(k: nat)
      requires Grounded() && k < |data.indicators|
      modifies this`nodes, this`edges, this`ids
      ensures Grounded() && ids == if data.indicators[k].Some? then old(ids) + {FraudRisk(k)} else old(ids)
      ensures forall e :: e in edges <==>
        e in old(edges) || (data.indicators[k].Some? && e == Tie(HasIndicator, FraudRisk(k), Derived))
    {
      if data.indicators[k].Some? {
        Attach(Node(FraudRisk(k), RiskType, Derived, SeverityFlag(data.indicators[k].value)), HasIndicator, Derived);
      }
    }

    method AddIndicators()
      requires Grounded()
      modifies this`nodes, this`edges, this`ids
      ensures Grounded()
      ensures forall id :: id in ids <==> id in old(ids) || FraudSoFar(data, |data.indicators|, id)
      ensures forall e :: e in edges <==>
        e in old(edges) || (FraudSoFar(data, |data.indicators|, e.target) && e == Tie(HasIndicator, e.target, Derived))
    {
      for k := 0 to |data.indicators|
        invariant Grounded()
        invariant forall id :: id in ids <==> id in old(ids) || FraudSoFar(data, k, id)
        invariant forall e :: e in edges <==>
          e in old(edges) || (FraudSoFar(data, k, e.target) && e == Tie(HasIndicator, e.target, Derived))
      {
        AddIndicator(k);
      }
    }

    method AddException(k: nat)
      requires Grounded() && k < |data.exceptions|
      requires forall code :: ExceptionRisk(code) !in ids ==> !SeenOpen(data.exceptions, k, code)
      modifies this`nodes, this`edges, this`ids
      ensures Grounded()
      ensures forall id :: id in ids <==> id in old(ids) || (id.ExceptionRisk? && OpenAt(data.exceptions, k, id.code))
      ensures forall e :: e in edges <==> e in old(edges) || OpenEdge(data, k, e)
    {
      var row := data.exceptions[k];
      if row.open {
        if ExceptionRisk(row.code) !in ids {
          FirstOpenIs(data.exceptions, k);
        }
        Attach(Node(ExceptionRisk(row.code), RiskType, Derived, if row.blocking then Issue else Watch), HasIndicator, Derived);
      }
    }

    method AddExceptions()
      requires Grounded() && forall id <- ids :: !id.ExceptionRisk?
      modifies this`nodes, this`edges, this`ids
      ensures Grounded()
      ensures forall id :: id in ids <==> id in old(ids) || OpenSoFar(data, |data.exceptions|, id)
      ensures forall e :: e in edges <==>
        e in old(edges) || (OpenSoFar(data, |data.exceptions|, e.target) && e == Tie(HasIndicator, e.target, Derived))
    {
      for k := 0 to |data.exceptions|
        invariant Grounded()
        invariant forall id :: id in ids <==> id in old(ids) || OpenSoFar(data, k, id)
        invariant forall e :: e in edges <==>
          e in old(edges) || (OpenSoFar(data, k, e.target) && e == Tie(HasIndicator, e.target, Derived))
      {
        SeenOpenStep(data.exceptions, k);
        AddException(k);
      }
    }

    method AddRisk()
      requires Grounded() && forall id <- ids :: !id.ExceptionRisk?
      modifies this`nodes, this`edges, this`ids
      ensures Grounded()
      ensures forall id :: id in ids <==> id in old(ids) || RiskNode(data, id)
      ensures forall e :: e in edges <==> e in old(edges) || RiskEdge(data, e)
    {
      AddIndicators();
      AddExceptions();
    }

    method AddDuplicate(k: nat)
      requires Grounded() && k < |data.duplicates|
      requires forall r :: Related(r) !in ids ==> !SeenDuplicate(data.duplicates, k, r)
      modifies this`nodes, this`edges, this`ids
      ensures Grounded() && ids == old(ids) + {Related(data.duplicates[k].reference)}
      ensures forall e :: e in edges <==>
        e in old(edges) || e == Tie(RelatedTo, Related(data.duplicates[k].reference), Derived)
    {
      var row := data.duplicates[k];
      if Related(row.reference) !in ids {
        FirstDuplicateIs(data.duplicates, k);
      }
      Attach(Node(Related(row.reference), RelatedType, Derived, DuplicateFlag(row)), RelatedTo, Derived);
    }

    method AddDuplicates()
      requires Grounded() && forall id <- ids :: !id.Related?
      modifies this`nodes, this`edges, this`ids
      ensures Grounded()
      ensures forall id :: id in ids <==> id in old(ids) || (id.Related? && HasDuplicate(data, id.reference))
      ensures forall e :: e in edges <==> e in old(edges) || DuplicateEdge(data, |data.duplicates|, e)
    {
      for k := 0 to |data.duplicates|
        invariant Grounded()
        invariant forall id :: id in ids <==>
          id in old(ids) || (id.Related? && SeenDuplicate(data.duplicates, k, id.reference))
        invariant forall e :: e in edges <==> e in old(edges) || DuplicateEdge(data, k, e)
      {
        SeenDuplicateStep(data.duplicates, k);
        AddDuplicate(k);
      }
    }

    method AddOther(k: nat)
      requires Grounded() && k < |data.samePolicy|
      requires forall r :: HasDuplicate(data, r) ==> Related(r) in ids
      modifies this`nodes, this`edges, this`ids
      ensures Grounded() && ids == old(ids) + {Related(data.samePolicy[k])}
      ensures forall e :: e in edges <==> e in old(edges) || e == Tie(RelatedTo, Related(data.samePolicy[k]), Derived)
    {
      var r := data.samePolicy[k];
      if Related(r) !in ids {
        NoDuplicate(data.duplicates, r);
      }
      Attach(Node(Related(r), RelatedType, Record, Unflagged), RelatedTo, Derived);
    }

    method AddSamePolicy()
      requires Grounded() && forall r :: HasDuplicate(data, r) ==> Related(r) in ids
      modifies this`nodes, this`edges, this`ids
      ensures Grounded()
      ensures forall id :: id in ids <==> id in old(ids) || (id.Related? && id.reference in data.samePolicy)
      ensures forall e :: e in edges <==> e in old(edges) || HistoryEdge(data.samePolicy, e)
    {
      for k := 0 to |data.samePolicy|
        invariant Grounded()
        invariant forall id :: id in ids <==> id in old(ids) || (id.Related? && id.reference in data.samePolicy[..k])
        invariant forall e :: e in edges <==> e in old(edges) || HistoryEdge(data.samePolicy[..k], e)
      {
        assert data.samePolicy[..k + 1] == data.samePolicy[..k] + [data.samePolicy[k]];
        AddOther(k);
      }
      assert data.samePolicy[..|data.samePolicy|] == data.samePolicy;
    }

    method AddRelated()
      requires Grounded() && forall id <- ids :: !id.Related?
      modifies this`nodes, this`edges, this`ids
      ensures Grounded()
      ensures forall id :: id in ids <==> id in old(ids) || RelatedNode(data, id)
      ensures forall e :: e in edges <==> e in old(edges) || RelatedEdge(data, e)
    {
      AddDuplicates();
      AddSamePolicy();
    }

    /** Whether some node is of this kind. */
    method AnyOf(kind: NodeType) returns (found: bool)
      requires Valid()
      ensures found <==> exists id <- ids :: KindOf(id) == kind
    {
      found := exists n <- nodes :: n.kind == kind;
      if !found {
        forall id | id in ids ensures KindOf(id) != kind {
          var i :| 0 <= i < |nodes| && nodes[i].id == id;
          assert nodes[i] in nodes;
        }
      }
    }

    /** Whether fraud screening raised anything of its own. */
    method AnyFraud() returns (found: bool)
      requires Valid() && forall id: NodeId :: id.FraudRisk? ==> (id in ids <==> RiskNode(data, id))
      ensures found <==> HasFraud(data)
    {
      found := exists n <- nodes :: n.id.FraudRisk?;
      if found {
        var n :| n in nodes && n.id.FraudRisk?;
        assert RiskNode(data, n.id);
      } else {
        forall id | id in ids ensures !id.FraudRisk? {
          var i :| 0 <= i < |nodes| && nodes[i].id == id;
          assert nodes[i] in nodes;
        }
        forall k: nat | k < |data.indicators| ensures data.indicators[k].None? {
          assert !RiskNode(data, FraudRisk(k));
        }
      }
    }

    method SeedAdjuster()
      requires Grounded() && data.includeSeeded && (Adjuster in ids <==> HasAdjuster(data))
      modifies this`nodes, this`edges, this`ids
      ensures Grounded() && ids == old(ids) + {Adjuster}
      ensures forall e :: e in edges <==> e in old(edges) || SeededAdjusterEdge(data, e)
    {
      if Adjuster !in ids {
        Attach(Node(Adjuster, AdjusterType, Seeded, Unflagged), InspectedBy, Seeded);
      }
      assert ids == ids + {Adjuster};
    }

    method SeedRisk(key: string)
      requires Grounded() && (key == AMENDMENT || key == REPEAT_CAUSE)
      modifies this`nodes, this`edges, this`ids
      ensures Grounded() && ids == old(ids) + {SeededRisk(key)}
      ensures forall e :: e in edges <==> e in old(edges) || SeededRiskEdge(data, key, e)
    {
      var id := SeededRisk(key);
      Attach(Node(id, RiskType, Seeded, if key == AMENDMENT then Issue else Watch), HasIndicator, Seeded);
      Link(Some(Policy), HasIndicator, id, Seeded);
    }

    method SeedRisks()
      requires Grounded() && forall id: NodeId :: id.FraudRisk? ==> (id in ids <==> RiskNode(data, id))
      modifies this`nodes, this`edges, this`ids
      ensures Grounded()
      ensures ids == old(ids) + SeededRisks(data)
      ensures forall e :: e in edges <==> e in old(edges) || SeededRiskEdges(data, e)
    {
      var screened := AnyFraud();
      if !screened {
        SeedRisk(AMENDMENT);
        SeedRisk(REPEAT_CAUSE);
      }
    }

    method TieHistory(id: NodeId)
      requires Grounded() && id in ids && id.Related? && (SeededRisk(REPEAT_CAUSE) in ids <==> !HasFraud(data))
      modifies this`edges
      ensures Grounded()
      ensures forall e :: e in edges <==> e in old(edges) || HistoryTie(data, id, e)
    {
      Link(Some(id), OccurredAt, Location, Seeded);
      Link(Some(id), Evidences, SeededRisk(REPEAT_CAUSE), Seeded);
    }

    method AddHistory(id: NodeId)
      requires Grounded() && (SeededRisk(REPEAT_CAUSE) in ids <==> !HasFraud(data))
      requires id.Related? && Node(id, RelatedType, Seeded, Watch) == NodeFor(data, id)
      modifies this`nodes, this`edges, this`ids
      ensures Grounded() && ids == old(ids) + {id}
      ensures forall e :: e in edges <==> e in old(edges) || HistoryOf(data, id, e)
    {
      Attach(Node(id, RelatedType, Seeded, Watch), RelatedTo, Seeded);
      TieHistory(id);
    }

    method SeedHistory()
      requires Grounded() && (SeededRisk(REPEAT_CAUSE) in ids <==> !HasFraud(data))
      requires forall id: NodeId :: id.Related? ==> (id in ids <==> RelatedNode(data, id))
      modifies this`nodes, this`edges, this`ids
      ensures Grounded()
      ensures ids == old(ids) + SeededHistory(data)
      ensures forall e :: e in edges <==>
        e in old(edges) || (!HasRelated(data) && HistoryOf(data, Related(SeededReference(data)), e))
    {
      var known := AnyOf(RelatedType);
      RelatedIffListed(data, ids);
      if !known {
        SeededHistoryNode(data);
        AddHistory(Related(SeededReference(data)));
      }
    }

    method SeedPeopleAndRisks()
      requires Grounded() && data.includeSeeded && (Adjuster in ids <==> HasAdjuster(data))
      requires forall id: NodeId :: id.FraudRisk? ==> (id in ids <==> RiskNode(data, id))
      modifies this`nodes, this`edges, this`ids
      ensures Grounded() && ids == old(ids) + {Adjuster} + SeededRisks(data)
      ensures forall e :: e in edges <==> e in old(edges) || SeededAdjusterEdge(data, e) || SeededRiskEdges(data, e)
    {
      SeedAdjuster();
      SeedRisks();
    }

    method Seed()
      requires Grounded() && data.includeSeeded && (Adjuster in ids <==> HasAdjuster(data))
      requires forall id: NodeId :: id.FraudRisk? ==> (id in ids <==> RiskNode(data, id))
      requires forall id: NodeId :: id.Related? ==> (id in ids <==> RelatedNode(data, id))
      requires forall id <- ids :: !id.SeededRisk?
      modifies this`nodes, this`edges, this`ids
      ensures Grounded()
      ensures forall id :: id in ids <==> id in old(ids) || SeededNode(data, id)
      ensures forall e :: e in edges <==> e in old(edges) || SeededEdge(data, e)
    {
      SeedPeopleAndRisks();
      RoomForHistory(data, old(ids));
      SeedHistory();
      SeededIds(data, old(ids));
      SeededEdges(data);
    }

    method BuildFoundation() returns (incident: Option<NodeId>)
      requires Valid() && ids == {} && edges == []
      modifies this`nodes, this`edges, this`ids
      ensures Grounded() && incident == if HasIncident(data) then Some(Incident) else None
      ensures forall id :: id in ids <==> FoundationNode(data, id)
      ensures forall e :: e in edges <==> FoundationEdge(data, e)
    {
      AddClaim();
      AddContract();
      incident := AddIncident();
    }

    method BuildMiddle(incident: Option<NodeId>)
      requires Grounded() && incident == if HasIncident(data) then Some(Incident) else None
      requires forall id <- ids :: !id.Asset? && !id.Coverage? && !id.Evidence?
      modifies this`nodes, this`edges, this`ids
      ensures Grounded()
      ensures forall id :: id in ids <==> id in old(ids) || MiddleNode(data, id)
      ensures forall e :: e in edges <==> e in old(edges) || MiddleEdge(data, e)
    {
      AddAssets(incident);
      AddCoverage();
      AddEvidence();
    }

    method BuildLast(incident: Option<NodeId>)
      requires Grounded() && incident == if HasIncident(data) then Some(Incident) else None
      requires forall id <- ids :: !id.ExceptionRisk? && !id.Related?
      modifies this`nodes, this`edges, this`ids
      ensures Grounded()
      ensures forall id :: id in ids <==> id in old(ids) || LastNode(data, id)
      ensures forall e :: e in edges <==> e in old(edges) || LastEdge(data, e)
    {
      AddPeople();
      AddCatastrophe(incident);
      AddRisk();
      AddRelated();
    }

    method BuildRecords()
      requires Valid() && ids == {} && edges == []
      modifies this`nodes, this`edges, this`ids
      ensures Grounded()
      ensures forall id :: id in ids <==> RecordNode(data, id)
      ensures forall e :: e in edges <==> RecordEdge(data, e)
    {
      var incident := BuildFoundation();
      BuildMiddle(incident);
      BuildLast(incident);
    }

    /** Every section in order, and the scaffolding when it is asked for. */
    method Build()
      requires Valid() && ids == {} && edges == []
      modifies this`nodes, this`edges, this`ids
      ensures Valid()
      ensures forall id :: id in ids <==> Expected(data, id)
      ensures forall e :: e in edges <==> ExpectedEdge(data, e)
    {
      BuildRecords();
      RecordsLeaveRoom(data, ids);
      if data.includeSeeded {
        Seed();
      }
      NodesByPart(data);
      EdgesByPart(data);
    }
  }

  predicate RecordNode(x: Input, id: NodeId) { FoundationNode(x, id) || MiddleNode(x, id) || LastNode(x, id) }

  predicate RecordEdge(x: Input, e: Edge) { FoundationEdge(x, e) || MiddleEdge(x, e) || LastEdge(x, e) }

  /** What the scaffolding looks for is there exactly when the records have it. */
  lemma RecordsLeaveRoom(x: Input, ids: set<NodeId>)
    requires forall id :: id in ids <==> RecordNode(x, id)
    ensures Adjuster in ids <==> HasAdjuster(x)
    ensures forall id: NodeId :: id.FraudRisk? ==> (id in ids <==> RiskNode(x, id))
    ensures forall id: NodeId :: id.Related? ==> (id in ids <==> RelatedNode(x, id))
    ensures forall id <- ids :: !id.SeededRisk?
  {
  }

  lemma NodesByPart(x: Input)
    ensures forall id :: Expected(x, id) <==> RecordNode(x, id) || (x.includeSeeded && SeededNode(x, id))
  {
  }

  lemma EdgesByPart(x: Input)
    ensures forall e :: ExpectedEdge(x, e) <==> RecordEdge(x, e) || (x.includeSeeded && SeededEdge(x, e))
  {
  }

  predicate FoundationNode(x: Input, id: NodeId) { id == Claim || ContractNode(x, id) || IncidentNode(x, id) }

  predicate FoundationEdge(x: Input, e: Edge) { ContractEdge(x, e) || IncidentEdge(x, e) }

  predicate MiddleNode(x: Input, id: NodeId) { AssetNode(x, id) || CoverageNode(x, id) || EvidenceNode(x, id) }

  predicate MiddleEdge(x: Input, e: Edge) { AssetEdge(x, e) || CoverageEdge(x, e) || EvidenceEdge(x, e) }

  predicate LastNode(x: Input, id: NodeId) {
    PersonNode(x, id) || CatNode(x, id) || RiskNode(x, id) || RelatedNode(x, id)
  }

  predicate LastEdge(x: Input, e: Edge) {
    PersonEdge(x, e) || CatEdge(x, e) || RiskEdge(x, e) || RelatedEdge(x, e)
  }

  predicate SeededAdjusterEdge(x: Input, e: Edge) { !HasAdjuster(x) && e == Tie(InspectedBy, Adjuster, Seeded) }

  function SeededRisks(x: Input): set<NodeId> {
    if HasFraud(x) then {} else {SeededRisk(AMENDMENT), SeededRisk(REPEAT_CAUSE)}
  }

  function SeededHistory(x: Input): set<NodeId> { if HasRelated(x) then {} else {Related(SeededReference(x))} }

  lemma RoomForHistory(x: Input, before: set<NodeId>)
    requires forall id: NodeId :: id.Related? ==> (id in before <==> RelatedNode(x, id))
    requires forall id <- before :: !id.SeededRisk?
    ensures var ids := before + {Adjuster} + SeededRisks(x);
      && (SeededRisk(REPEAT_CAUSE) in ids <==> !HasFraud(x))
      && forall id: NodeId :: id.Related? ==> (id in ids <==> RelatedNode(x, id))
  {
  }

  lemma SeededIds(x: Input, before: set<NodeId>)
    requires x.includeSeeded && (Adjuster in before <==> HasAdjuster(x))
    ensures forall id :: id in before + {Adjuster} + SeededRisks(x) + SeededHistory(x) <==> id in before || SeededNode(x, id)
  {
  }

  predicate SeededRiskEdges(x: Input, e: Edge) {
    !HasFraud(x) && (SeededRiskEdge(x, AMENDMENT, e) || SeededRiskEdge(x, REPEAT_CAUSE, e))
  }

  predicate SeededRiskEdge(x: Input, key: string, e: Edge) {
    || e == Tie(HasIndicator, SeededRisk(key), Seeded)
    || (HasPolicy(x) && e == Edge(Policy, HasIndicator, SeededRisk(key), Seeded))
  }

  predicate HistoryTie(x: Input, id: NodeId, e: Edge) {
    || (HasLocation(x) && e == Edge(id, OccurredAt, Location, Seeded))
    || (!HasFraud(x) && e == Edge(id, Evidences, SeededRisk(REPEAT_CAUSE), Seeded))
  }

  predicate HistoryOf(x: Input, id: NodeId, e: Edge) { e == Tie(RelatedTo, id, Seeded) || HistoryTie(x, id, e) }

  lemma SeededHistoryNode(x: Input)
    requires !HasRelated(x)
    ensures var id := Related(SeededReference(x)); Node(id, RelatedType, Seeded, Watch) == NodeFor(x, id)
  {
    NoDuplicate(x.duplicates, SeededReference(x));
  }

  lemma SeededEdges(x: Input)
    requires x.includeSeeded
    ensures forall e :: SeededEdge(x, e) <==>
      || SeededAdjusterEdge(x, e)
      || SeededRiskEdges(x, e)
      || (!HasRelated(x) && HistoryOf(x, Related(SeededReference(x)), e))
  {
  }

  lemma RelatedIffListed(x: Input, ids: set<NodeId>)
    requires forall id: NodeId :: id.Related? ==> (id in ids <==> RelatedNode(x, id))
    ensures (exists id <- ids :: KindOf(id) == RelatedType) <==> HasRelated(x)
  {
    if x.duplicates != [] {
      assert HasDuplicate(x, x.duplicates[0].reference);
      assert Related(x.duplicates[0].reference) in ids;
    }
    if x.samePolicy != [] {
      assert Related(x.samePolicy[0]) in ids;
    }
  }

  predicate NoticeNode(x: Input, id: NodeId) { x.case_.Some? && id == Evidence(NOTIFICATION) }

  predicate DocumentEdge(x: Input, id: string, e: Edge) {
    || e == Tie(SupportedBy, Evidence(id), Record)
    || (Cited(x, id) && HasIncident(x) && e == Edge(Evidence(id), Evidences, Incident, Derived))
  }

  predicate SomeDocumentEdge(x: Input, k: nat, e: Edge) {
    exists i: nat :: i < k <= |x.documents| && DocumentEdge(x, x.documents[i].id, e)
  }

  lemma SeenDocumentStep(x: Input, k: nat)
    requires k < |x.documents|
    ensures forall key :: SeenDocument(x.documents, k + 1, key) <==>
      SeenDocument(x.documents, k, key) || key == x.documents[k].id
    ensures forall e :: SomeDocumentEdge(x, k + 1, e) <==>
      SomeDocumentEdge(x, k, e) || DocumentEdge(x, x.documents[k].id, e)
  {
    forall key | SeenDocument(x.documents, k, key) || key == x.documents[k].id
      ensures SeenDocument(x.documents, k + 1, key)
    {
      if key != x.documents[k].id {
        var i: nat :| i < k && x.documents[i].id == key;
        assert x.documents[i].id == key;
      }
    }
    forall key | SeenDocument(x.documents, k + 1, key) && key != x.documents[k].id ensures SeenDocument(x.documents, k, key) {
      var i: nat :| i < k + 1 && x.documents[i].id == key;
      assert i != k;
    }
    forall e | SomeDocumentEdge(x, k, e) || DocumentEdge(x, x.documents[k].id, e) ensures SomeDocumentEdge(x, k + 1, e) {
      if !DocumentEdge(x, x.documents[k].id, e) {
        var i: nat :| i < k && DocumentEdge(x, x.documents[i].id, e);
        assert DocumentEdge(x, x.documents[i].id, e);
      }
    }
    forall e | SomeDocumentEdge(x, k + 1, e) && !DocumentEdge(x, x.documents[k].id, e) ensures SomeDocumentEdge(x, k, e) {
      var i: nat :| i < k + 1 && DocumentEdge(x, x.documents[i].id, e);
      assert i != k;
    }
  }

  lemma DocumentEdges(x: Input)
    ensures forall e :: EvidenceEdge(x, e) <==>
      (x.case_.Some? && e == Tie(SupportedBy, Evidence(NOTIFICATION), Record)) || SomeDocumentEdge(x, |x.documents|, e)
  {
    forall e | EvidenceEdge(x, e)
      ensures (x.case_.Some? && e == Tie(SupportedBy, Evidence(NOTIFICATION), Record))
           || SomeDocumentEdge(x, |x.documents|, e)
    {
      if e.source == Claim && HasDocument(x, e.target.key) {
        var i: nat :| i < |x.documents| && x.documents[i].id == e.target.key;
        assert DocumentEdge(x, x.documents[i].id, e);
      } else if e.source.Evidence? {
        var i: nat :| i < |x.documents| && x.documents[i].id == e.source.key;
        assert DocumentEdge(x, x.documents[i].id, e);
      }
    }
    forall e | SomeDocumentEdge(x, |x.documents|, e) ensures EvidenceEdge(x, e) {
      var i: nat :| i < |x.documents| && DocumentEdge(x, x.documents[i].id, e);
      assert HasDocument(x, x.documents[i].id);
    }
  }

  predicate BrokerEdge(x: Input, e: Edge) {
    || (HasBroker(x) && e == Tie(ReportedBy, Broker, Record))
    || (HasBroker(x) && HasInsured(x) && e == Edge(Broker, Insures, Insured, Derived))
  }

  lemma PeopleByPart(x: Input)
    ensures forall e :: PersonEdge(x, e) <==> BrokerEdge(x, e) || StaffEdge(x, e)
  {
  }

  predicate StaffEdge(x: Input, e: Edge) {
    || (HasHandler(x) && e == Tie(AssignedTo, Handler, Derived))
    || (HasAdjuster(x) && e == Tie(InspectedBy, Adjuster, Record))
  }

  predicate FraudSoFar(x: Input, k: nat, id: NodeId) {
    id.FraudRisk? && id.index < k <= |x.indicators| && x.indicators[id.index].Some?
  }

  predicate OpenSoFar(x: Input, k: nat, id: NodeId) { id.ExceptionRisk? && SeenOpen(x.exceptions, k, id.code) }

  predicate OpenEdge(x: Input, k: nat, e: Edge)
    requires k < |x.exceptions|
  {
    e.target.ExceptionRisk? && OpenAt(x.exceptions, k, e.target.code) && e == Tie(HasIndicator, e.target, Derived)
  }

  predicate DuplicateEdge(x: Input, k: nat, e: Edge) {
    e.target.Related? && SeenDuplicate(x.duplicates, k, e.target.reference) && e == Tie(RelatedTo, e.target, Derived)
  }

  predicate HistoryEdge(references: seq<string>, e: Edge) {
    e.target.Related? && e.target.reference in references && e == Tie(RelatedTo, e.target, Derived)
  }

  lemma SeenDuplicateStep(duplicates: seq<DuplicateRow>, k: nat)
    requires k < |duplicates|
    ensures forall r :: SeenDuplicate(duplicates, k + 1, r) <==>
      SeenDuplicate(duplicates, k, r) || r == duplicates[k].reference
  {
    forall r | SeenDuplicate(duplicates, k, r) ensures SeenDuplicate(duplicates, k + 1, r) {
      var i: nat :| i < k && duplicates[i].reference == r;
      assert duplicates[i].reference == r;
    }
  }

  lemma SeenOpenStep(exceptions: seq<ExceptionRow>, k: nat)
    requires k < |exceptions|
    ensures forall code :: SeenOpen(exceptions, k + 1, code) <==> SeenOpen(exceptions, k, code) || OpenAt(exceptions, k, code)
  {
  }

  lemma SeenCheckStep(checks: seq<Option<Check>>, k: nat)
    requires k < |checks|
    ensures forall key :: SeenCheck(checks, k + 1, key) <==> SeenCheck(checks, k, key) || CheckAt(checks, k, key)
  {
  }

  predicate KeyEdge(x: Input, key: string, e: Edge) {
    || e == Tie(CoveredUnder, Coverage(key), Derived)
    || (HasPolicy(x) && e == Edge(Policy, CoveredUnder, Coverage(key), Derived))
  }

  predicate CheckEdge(x: Input, n: nat, e: Edge) {
    e.target.Coverage? && SeenCheck(x.checks, n, e.target.key) && KeyEdge(x, e.target.key, e)
  }

  predicate LimitEdge(x: Input, e: Edge) {
    && HasCheck(x, "limit") && AssetNode(x, e.source)
    && e == Edge(e.source, CoveredUnder, Coverage("limit"), Derived)
  }

  lemma ListedStep(nodes: seq<Node>, k: nat)
    requires k < |nodes|
    ensures forall id :: ListedBefore(nodes, k + 1, id) <==> ListedBefore(nodes, k, id) || id == nodes[k].id
  {
    forall id | ListedBefore(nodes, k, id) || id == nodes[k].id ensures ListedBefore(nodes, k + 1, id) {
      if id != nodes[k].id {
        var i :| 0 <= i < k && nodes[i].id == id;
        assert nodes[i].id == id;
      }
    }
    forall id | ListedBefore(nodes, k + 1, id) && id != nodes[k].id ensures ListedBefore(nodes, k, id) {
      var i :| 0 <= i < k + 1 && nodes[i].id == id;
      assert i != k;
    }
  }

  predicate ListedBefore(nodes: seq<Node>, k: nat, id: NodeId) {
    exists i :: 0 <= i < k <= |nodes| && nodes[i].id == id
  }

  // ---------------------------------------------------------------------------
  // The whole graph
  // ---------------------------------------------------------------------------

  datatype Tone = OkTone | AccentTone | NeutralTone | BadTone

  /** What the summary draws attention to. */
  datatype Signal =
    | CoverageSignal(issues: nat, checks: nat, tone: Tone)
    | MatchSignal(tone: Tone)
    | ExtractionSignal(values: nat, tone: Tone)
    | CatSignal(tone: Tone)
    | RiskSignal(count: nat, tone: Tone)
    | RelatedSignal(count: nat)

  datatype Summary = Summary(
    entities: nat, relationships: nat, evidence: nat, coverageIssues: nat, risks: nat, related: nat, seeded: nat,
    signals: seq<Signal>)

  datatype Graph = Graph(nodes: seq<Node>, edges: seq<Edge>, summary: Summary)

  datatype Tile =
    | EvidenceTile | CoverageTile | CoverageIssueTile | RiskTile | RiskIssueTile | RelatedTile | CatTile | SeededTile

  /** What a tile of the summary counts. */
  predicate Counts(t: Tile, n: Node) {
    match t
    case EvidenceTile => n.kind == EvidenceType
    case CoverageTile => n.kind == CoverageType
    case CoverageIssueTile => n.kind == CoverageType && n.flag != Unflagged
    case RiskTile => n.kind == RiskType
    case RiskIssueTile => n.kind == RiskType && n.flag == Issue
    case RelatedTile => n.kind == RelatedType
    case CatTile => n.kind == CatType
    case SeededTile => n.provenance == Seeded
  }

  function CountOf(t: Tile, nodes: seq<Node>): nat {
    if nodes == [] then 0
    else CountOf(t, nodes[..|nodes| - 1]) + (if Counts(t, nodes[|nodes| - 1]) then 1 else 0)
  }

  method Count(t: Tile, nodes: seq<Node>) returns (n: nat)
    ensures n == CountOf(t, nodes)
  {
    n := 0;
    for k := 0 to |nodes|
      invariant n == CountOf(t, nodes[..k])
    {
      assert nodes[..k + 1][..k] == nodes[..k];
      if Counts(t, nodes[k]) {
        n := n + 1;
      }
    }
    assert nodes[..|nodes|] == nodes;
  }

  function ValuesRead(fields: seq<FieldRow>): nat {
    if fields == [] then 0
    else ValuesRead(fields[..|fields| - 1]) + (if fields[|fields| - 1].valueText != "" then 1 else 0)
  }

  function CoverageSignals(x: Input, nodes: seq<Node>): seq<Signal> {
    var issues := CountOf(CoverageIssueTile, nodes);
    if x.coverageConfidence.None? then []
    else [CoverageSignal(issues, CountOf(CoverageTile, nodes),
                         if issues == 0 && x.coverageConfidence.value >= 0.7 then OkTone else AccentTone)]
  }

  function ReadingSignals(x: Input): seq<Signal> {
    var m := ChosenMatch(x.matches);
    (if m.Some? then [MatchSignal(if m.value.score >= 0.85 then OkTone else AccentTone)] else [])
    + (if x.case_.Some? && x.extractionConfidence.Some?
       then [ExtractionSignal(ValuesRead(x.fields), if x.extractionConfidence.value >= 0.75 then OkTone else AccentTone)] else [])
  }

  function CatSignals(x: Input, nodes: seq<Node>): seq<Signal> {
    if CountOf(CatTile, nodes) == 0 then [] else [CatSignal(if x.catEvent.Some? then AccentTone else NeutralTone)]
  }

  function RiskSignals(nodes: seq<Node>): seq<Signal> {
    var risks := CountOf(RiskTile, nodes);
    if risks == 0 then [] else [RiskSignal(risks, if CountOf(RiskIssueTile, nodes) > 0 then BadTone else AccentTone)]
  }

  function RelatedSignals(nodes: seq<Node>): seq<Signal> {
    var related := CountOf(RelatedTile, nodes);
    if related == 0 then [] else [RelatedSignal(related)]
  }

  function SignalsOf(x: Input, nodes: seq<Node>): seq<Signal> {
    CoverageSignals(x, nodes) + ReadingSignals(x) + CatSignals(x, nodes) + RiskSignals(nodes) + RelatedSignals(nodes)
  }

  method CountValues(fields: seq<FieldRow>) returns (n: nat)
    ensures n == ValuesRead(fields)
  {
    n := 0;
    for k := 0 to |fields|
      invariant n == ValuesRead(fields[..k])
    {
      assert fields[..k + 1][..k] == fields[..k];
      if fields[k].valueText != "" {
        n := n + 1;
      }
    }
    assert fields[..|fields|] == fields;
  }

  /** The signals, from the records and from what was counted. */
  method Signals(x: Input, nodes: seq<Node>, issues: nat, risks: nat, related: nat) returns (signals: seq<Signal>)
    requires issues == CountOf(CoverageIssueTile, nodes) && risks == CountOf(RiskTile, nodes)
    requires related == CountOf(RelatedTile, nodes)
    ensures signals == SignalsOf(x, nodes)
  {
    signals := [];
    if x.coverageConfidence.Some? {
      var checks := Count(CoverageTile, nodes);
      var tone := if issues == 0 && x.coverageConfidence.value >= 0.7 then OkTone else AccentTone;
      signals := signals + [CoverageSignal(issues, checks, tone)];
    }
    assert signals == CoverageSignals(x, nodes);
    var m := ChosenMatch(x.matches);
    var reading: seq<Signal> := [];
    if m.Some? {
      reading := reading + [MatchSignal(if m.value.score >= 0.85 then OkTone else AccentTone)];
    }
    if x.case_.Some? && x.extractionConfidence.Some? {
      var values := CountValues(x.fields);
      reading := reading + [ExtractionSignal(values, if x.extractionConfidence.value >= 0.75 then OkTone else AccentTone)];
    }
    assert reading == ReadingSignals(x);
    signals := signals + reading;
    var cats := Count(CatTile, nodes);
    signals := signals + if cats == 0 then [] else [CatSignal(if x.catEvent.Some? then AccentTone else NeutralTone)];
    var bad := Count(RiskIssueTile, nodes);
    signals := signals + if risks == 0 then [] else [RiskSignal(risks, if bad > 0 then BadTone else AccentTone)];
    signals := signals + if related == 0 then [] else [RelatedSignal(related)];
  }

  /** Every figure is counted from the graph that was just built, and so is every signal. */
  method Summarise(x: Input, nodes: seq<Node>, edges: seq<Edge>) returns (s: Summary)
    ensures s == SummaryOf(x, nodes, edges)
  {
    var evidence := Count(EvidenceTile, nodes);
    var issues := Count(CoverageIssueTile, nodes);
    var risks := Count(RiskTile, nodes);
    var related := Count(RelatedTile, nodes);
    var seeded := Count(SeededTile, nodes);
    var signals := Signals(x, nodes, issues, risks, related);
    s := Summary(|nodes|, |edges|, evidence, issues, risks, related, seeded, signals);
  }

  function SummaryOf(x: Input, nodes: seq<Node>, edges: seq<Edge>): Summary {
    Summary(|nodes|, |edges|, CountOf(EvidenceTile, nodes), CountOf(CoverageIssueTile, nodes),
            CountOf(RiskTile, nodes), CountOf(RelatedTile, nodes), CountOf(SeededTile, nodes), SignalsOf(x, nodes))
  }

  /**
   * The graph of a claim: each expected entity once, as its records describe it, and no
   * other; the expected relationships and no other; and the figures of that very graph.
   */
  method BuildClaimGraph(x: Input) returns (g: Graph)
    ensures UniqueIds(g.nodes)
    ensures forall id :: Lists(g.nodes, id) <==> Expected(x, id)
    ensures forall n <- g.nodes :: n == NodeFor(x, n.id)
    ensures forall e :: e in g.edges <==> ExpectedEdge(x, e)
    ensures g.summary == SummaryOf(x, g.nodes, g.edges)
  {
    var builder := new Builder(x);
    builder.Build();
    var summary := Summarise(x, builder.nodes, builder.edges);
    g := Graph(builder.nodes, builder.edges, summary);
    forall id | Lists(g.nodes, id) ensures Expected(x, id) {
      var i :| 0 <= i < |g.nodes| && g.nodes[i].id == id;
      assert g.nodes[i] in builder.nodes;
    }
  }
}
