/** What holds of every knowledge graph, for any combination of records. */
module GraphTheorems {
  import opened Wrappers
  import opened ClaimGraph
  import opened GraphBuilder
  import DR = DuplicateReview

  /** The two collections are the entities and relationships of these records. */
  ghost predicate IsGraphOf(nodes: seq<Node>, edges: seq<Edge>, x: Input) {
    && UniqueIds(nodes)
    && (forall id :: Lists(nodes, id) <==> Expected(x, id))
    && (forall n <- nodes :: n == NodeFor(x, n.id))
    && (forall e :: e in edges <==> ExpectedEdge(x, e))
  }

  // ---------------------------------------------------------------------------
  // Closed and reachable
  // ---------------------------------------------------------------------------

  lemma SeededEndsExist(x: Input, e: Edge)
    requires SeededEdge(x, e)
    ensures Expected(x, e.source) && Expected(x, e.target) && e.source != e.target
  {
  }

  lemma LastEndsExist(x: Input, e: Edge)
    requires LastEdge(x, e)
    ensures Expected(x, e.source) && Expected(x, e.target) && e.source != e.target
  {
  }

  lemma MiddleEndsExist(x: Input, e: Edge)
    requires MiddleEdge(x, e)
    ensures Expected(x, e.source) && Expected(x, e.target) && e.source != e.target
  {
  }

  /** Every relationship joins two different entities that are both in the graph. */
  lemma EdgesAreClosed(x: Input, e: Edge)
    requires ExpectedEdge(x, e)
    ensures Expected(x, e.source) && Expected(x, e.target) && e.source != e.target
  {
    EdgesByPart(x);
    if SeededEdge(x, e) {
      SeededEndsExist(x, e);
    } else if MiddleEdge(x, e) {
      MiddleEndsExist(x, e);
    } else if LastEdge(x, e) {
      LastEndsExist(x, e);
    }
  }

  predicate Joined(edges: seq<Edge>, a: NodeId, b: NodeId) { exists e <- edges :: e.source == a && e.target == b }

  /** A walk along directed edges. */
  predicate IsWalk(edges: seq<Edge>, walk: seq<NodeId>) {
    walk != [] && forall i :: 0 <= i < |walk| - 1 ==> Joined(edges, walk[i], walk[i + 1])
  }

  /** The edge by which an entity other than the claim hangs from what is above it. */
  function Above(x: Input, id: NodeId): Edge
    requires id != Claim
  {
    match id
    case Policy => Edge(Claim, CoveredBy, Policy, Derived)
    case Insured => if HasPolicy(x) then Edge(Policy, IssuedTo, Insured, Record) else Tie(IssuedTo, Insured, Record)
    case Incident => Tie(CausedBy, Incident, Record)
    case Location => Edge(Incident, OccurredAt, Location, Record)
    case Broker => Tie(ReportedBy, Broker, Record)
    case Handler => Tie(AssignedTo, Handler, Derived)
    case Adjuster => Tie(InspectedBy, Adjuster, if HasAdjuster(x) then Record else Seeded)
    case Asset(_) => DamageEdge(x, id)
    case Coverage(_) => Tie(CoveredUnder, id, Derived)
    case Evidence(_) => Tie(SupportedBy, id, Record)
    case Cat(_) => Tie(if x.catEvent.Some? then Matches else Considered, id, Derived)
    case FraudRisk(_) => Tie(HasIndicator, id, Derived)
    case ExceptionRisk(_) => Tie(HasIndicator, id, Derived)
    case SeededRisk(_) => Tie(HasIndicator, id, Seeded)
    case Related(r) => Tie(RelatedTo, id, if HasDuplicate(x, r) || r in x.samePolicy then Derived else Seeded)
  }

  lemma AboveIsExpected(x: Input, id: NodeId)
    requires Expected(x, id) && id != Claim
    ensures ExpectedEdge(x, Above(x, id)) && Above(x, id).target == id
  {
    NodesByPart(x);
  }

  /** The way down to an entity. */
  function Route(x: Input, id: NodeId): seq<NodeId> {
    if id == Claim then [Claim]
    else
      var up := Above(x, id).source;
      if up == Claim then [Claim, id] else [Claim, up, id]
  }

  /** Whatever records a claim has or lacks, each entity is reached from the claim. */
  lemma EveryEntityIsReached(nodes: seq<Node>, edges: seq<Edge>, x: Input, id: NodeId)
    requires IsGraphOf(nodes, edges, x) && Lists(nodes, id)
    ensures exists walk :: IsWalk(edges, walk) && walk[0] == Claim && walk[|walk| - 1] == id
  {
    var walk := Route(x, id);
    if id != Claim {
      AboveIsExpected(x, id);
      var e := Above(x, id);
      assert e in edges;
      assert Joined(edges, e.source, id);
      if e.source != Claim {
        UpperIsTied(x, id);
        var up := Above(x, e.source);
        assert up in edges;
        assert Joined(edges, Claim, e.source);
      }
    }
    assert IsWalk(edges, walk);
  }

  lemma UpperIsTied(x: Input, id: NodeId)
    requires Expected(x, id) && id != Claim && Above(x, id).source != Claim
    ensures var up := Above(x, id).source;
      Expected(x, up) && up != Claim && Above(x, up).source == Claim
      && ExpectedEdge(x, Above(x, up)) && Above(x, up).target == up
  {
    AboveIsExpected(x, id);
    EdgesAreClosed(x, Above(x, id));
    AboveIsExpected(x, Above(x, id).source);
  }

  // ---------------------------------------------------------------------------
  // The scaffolding
  // ---------------------------------------------------------------------------

  function RecordsOnly(x: Input): Input { x.(includeSeeded := false) }

  lemma SameDescription(x: Input, id: NodeId)
    ensures NodeFor(RecordsOnly(x), id) == NodeFor(x, id)
  {
  }

  lemma SameFacts(x: Input)
    ensures var r := RecordsOnly(x);
      && HasPolicy(r) == HasPolicy(x) && HasInsured(r) == HasInsured(x) && HasIncident(r) == HasIncident(x)
      && HasLocation(r) == HasLocation(x) && HasBroker(r) == HasBroker(x) && HasHandler(r) == HasHandler(x)
      && HasAdjuster(r) == HasAdjuster(x)
  {
  }

  lemma SameMiddle(x: Input, id: NodeId)
    ensures MiddleNode(RecordsOnly(x), id) <==> MiddleNode(x, id)
  {
  }

  lemma SameLast(x: Input, id: NodeId)
    ensures LastNode(RecordsOnly(x), id) <==> LastNode(x, id)
  {
    SameFacts(x);
  }

  lemma SameRecordNodes(x: Input, id: NodeId)
    ensures RecordNode(RecordsOnly(x), id) <==> RecordNode(x, id)
  {
    SameFacts(x);
    SameMiddle(x, id);
    SameLast(x, id);
  }

  lemma SameFoundationEdges(x: Input, e: Edge)
    ensures FoundationEdge(RecordsOnly(x), e) <==> FoundationEdge(x, e)
  {
    SameFacts(x);
  }

  lemma SameMiddleEdges(x: Input, e: Edge)
    ensures MiddleEdge(RecordsOnly(x), e) <==> MiddleEdge(x, e)
  {
    SameFacts(x);
  }

  lemma SameLastEdges(x: Input, e: Edge)
    ensures LastEdge(RecordsOnly(x), e) <==> LastEdge(x, e)
  {
    SameFacts(x);
  }

  lemma SameRecordEdges(x: Input, e: Edge)
    ensures RecordEdge(RecordsOnly(x), e) <==> RecordEdge(x, e)
  {
    SameFoundationEdges(x, e);
    SameMiddleEdges(x, e);
    SameLastEdges(x, e);
  }

  lemma RecordsAreNotSeeded(x: Input, id: NodeId)
    ensures RecordNode(x, id) ==> ProvenanceOf(x, id) != Seeded
    ensures SeededNode(x, id) ==> ProvenanceOf(x, id) == Seeded
  {
  }

  /**
   * Turning the scaffolding on changes nothing the records say: the same entities, as they
   * were, and beside them only entities marked as seeded.
   */
  lemma ScaffoldingOnlyAddsNodes(x: Input, id: NodeId)
    ensures Expected(RecordsOnly(x), id) ==> Expected(x, id) && NodeFor(x, id) == NodeFor(RecordsOnly(x), id)
    ensures Expected(x, id) ==> (NodeFor(x, id).provenance == Seeded <==> !Expected(RecordsOnly(x), id))
  {
    NodesByPart(x);
    NodesByPart(RecordsOnly(x));
    SameRecordNodes(x, id);
    SameDescription(x, id);
    RecordsAreNotSeeded(x, id);
  }

  lemma RecordEdgesAreNotSeeded(x: Input, e: Edge)
    ensures RecordEdge(x, e) ==> e.provenance != Seeded
    ensures SeededEdge(x, e) ==> e.provenance == Seeded
  {
  }

  /** The same of relationships. */
  lemma ScaffoldingOnlyAddsEdges(x: Input, e: Edge)
    ensures ExpectedEdge(RecordsOnly(x), e) ==> ExpectedEdge(x, e)
    ensures ExpectedEdge(x, e) ==> (e.provenance == Seeded <==> !ExpectedEdge(RecordsOnly(x), e))
  {
    EdgesByPart(x);
    EdgesByPart(RecordsOnly(x));
    SameRecordEdges(x, e);
    RecordEdgesAreNotSeeded(x, e);
  }

  /** No seeded entity ever stands beside a real one of its sort. */
  lemma NothingRealIsShadowed(x: Input, id: NodeId)
    requires Expected(x, id) && ProvenanceOf(x, id) == Seeded
    ensures id == Adjuster ==> !HasAdjuster(x)
    ensures id.SeededRisk? ==> forall k :: !Expected(x, FraudRisk(k))
    ensures id.Related? ==> forall r :: Expected(x, Related(r)) ==> r == id.reference
  {
    NodesByPart(x);
    RecordsAreNotSeeded(x, id);
    if id.Related? {
      forall r | Expected(x, Related(r)) ensures r == id.reference {
        assert !HasDuplicate(x, r);
      }
    }
  }

  // ---------------------------------------------------------------------------
  // The figures
  // ---------------------------------------------------------------------------

  predicate DistinctIds(ids: seq<NodeId>) { forall i, j :: 0 <= i < j < |ids| ==> ids[i] != ids[j] }

  /** The counted nodes are exactly these. */
  ghost predicate CountedAre(t: Tile, nodes: seq<Node>, ids: seq<NodeId>) {
    forall id :: id in ids <==> exists n <- nodes :: n.id == id && Counts(t, n)
  }

  lemma DropOne(ids: seq<NodeId>, k: nat)
    requires DistinctIds(ids) && k < |ids|
    ensures var rest := ids[..k] + ids[k + 1..];
      DistinctIds(rest) && forall id :: id in rest <==> id in ids && id != ids[k]
  {
    var rest := ids[..k] + ids[k + 1..];
    forall id | id in ids && id != ids[k] ensures id in rest {
      var i :| 0 <= i < |ids| && ids[i] == id;
      assert rest[if i < k then i else i - 1] == id;
    }
  }

  lemma HasFirst(ids: seq<NodeId>)
    ensures ids != [] ==> exists id :: id in ids
  {
    if ids != [] { assert ids[0] in ids; }
  }

  /** Without its last node, a list counts the same but for that node. */
  lemma CountedBefore(t: Tile, nodes: seq<Node>, ids: seq<NodeId>, rest: seq<NodeId>)
    requires nodes != [] && UniqueIds(nodes) && CountedAre(t, nodes, ids)
    requires forall id :: id in rest <==> id in ids && id != nodes[|nodes| - 1].id
    ensures UniqueIds(nodes[..|nodes| - 1]) && CountedAre(t, nodes[..|nodes| - 1], rest)
  {
    var before, last := nodes[..|nodes| - 1], nodes[|nodes| - 1];
    assert nodes == before + [last];
    assert forall n <- before :: n.id != last.id;
  }

  /** A figure is the length of any list of the entities it counts. */
  lemma {:induction false} FigureIsLength(t: Tile, nodes: seq<Node>, ids: seq<NodeId>)
    requires UniqueIds(nodes) && DistinctIds(ids) && CountedAre(t, nodes, ids)
    ensures CountOf(t, nodes) == |ids|
  {
    if nodes == [] {
      HasFirst(ids);
    } else {
      var last := nodes[|nodes| - 1];
      assert last in nodes;
      if Counts(t, last) {
        assert last.id in ids;
        var k :| 0 <= k < |ids| && ids[k] == last.id;
        DropOne(ids, k);
        CountedBefore(t, nodes, ids, ids[..k] + ids[k + 1..]);
        FigureIsLength(t, nodes[..|nodes| - 1], ids[..k] + ids[k + 1..]);
      } else {
        assert last.id !in ids;
        CountedBefore(t, nodes, ids, ids);
        FigureIsLength(t, nodes[..|nodes| - 1], ids);
      }
    }
  }

  lemma CountedByKind(t: Tile, nodes: seq<Node>, edges: seq<Edge>, x: Input, ids: seq<NodeId>)
    requires IsGraphOf(nodes, edges, x)
    requires forall id :: id in ids <==> Expected(x, id) && Counts(t, NodeFor(x, id))
    ensures CountedAre(t, nodes, ids)
  {
    forall id ensures id in ids <==> exists n <- nodes :: n.id == id && Counts(t, n) {
      if id in ids {
        var i :| 0 <= i < |nodes| && nodes[i].id == id;
        assert nodes[i] in nodes;
      }
      if n :| n in nodes && n.id == id && Counts(t, n) {
        assert Lists(nodes, id);
      }
    }
  }

  function SeededIdsOf(x: Input): seq<NodeId> {
    var adjuster := if HasAdjuster(x) then [] else [Adjuster];
    var risks := if HasFraud(x) then [] else [SeededRisk(AMENDMENT), SeededRisk(REPEAT_CAUSE)];
    var history := if HasRelated(x) then [] else [Related(SeededReference(x))];
    if x.includeSeeded then adjuster + risks + history else []
  }

  /** How much of the graph is scaffolding, from the records alone. */
  lemma SeededFigure(nodes: seq<Node>, edges: seq<Edge>, x: Input)
    requires IsGraphOf(nodes, edges, x)
    ensures CountOf(SeededTile, nodes) ==
      if x.includeSeeded then
        (if HasAdjuster(x) then 0 else 1) + (if HasFraud(x) then 0 else 2) + (if HasRelated(x) then 0 else 1)
      else 0
  {
    var ids := SeededIdsOf(x);
    NodesByPart(x);
    forall id ensures id in ids <==> Expected(x, id) && Counts(SeededTile, NodeFor(x, id)) {
      RecordsAreNotSeeded(x, id);
      SeededListed(x, id);
    }
    CountedByKind(SeededTile, nodes, edges, x, ids);
    FigureIsLength(SeededTile, nodes, ids);
  }

  lemma SeededListed(x: Input, id: NodeId)
    ensures id in SeededIdsOf(x) <==> SeededNode(x, id)
  {
  }

  function DocumentIds(documents: seq<Document>): (ids: seq<NodeId>)
    ensures |ids| == |documents|
    ensures forall i :: 0 <= i < |documents| ==> ids[i] == Evidence(documents[i].id)
  {
    seq(|documents|, i requires 0 <= i < |documents| => Evidence(documents[i].id))
  }

  /** Every document once, and the notice when there is one. */
  lemma EvidenceFigure(nodes: seq<Node>, edges: seq<Edge>, x: Input)
    requires IsGraphOf(nodes, edges, x)
    requires forall i, j :: 0 <= i < j < |x.documents| ==> x.documents[i].id != x.documents[j].id
    requires forall d <- x.documents :: d.id != NOTIFICATION
    ensures CountOf(EvidenceTile, nodes) == |x.documents| + (if x.case_.Some? then 1 else 0)
  {
    var ids := DocumentIds(x.documents) + (if x.case_.Some? then [Evidence(NOTIFICATION)] else []);
    forall id ensures id in ids <==> Expected(x, id) && Counts(EvidenceTile, NodeFor(x, id)) {
      EvidenceListed(x, id);
    }
    CountedByKind(EvidenceTile, nodes, edges, x, ids);
    FigureIsLength(EvidenceTile, nodes, ids);
  }

  lemma EvidenceListed(x: Input, id: NodeId)
    ensures id in DocumentIds(x.documents) + (if x.case_.Some? then [Evidence(NOTIFICATION)] else [])
        <==> Expected(x, id) && Counts(EvidenceTile, NodeFor(x, id))
  {
    var documents := DocumentIds(x.documents);
    if id.Evidence? && HasDocument(x, id.key) {
      var i: nat :| i < |x.documents| && x.documents[i].id == id.key;
      assert documents[i] == id;
    }
    if id in documents {
      var i :| 0 <= i < |documents| && documents[i] == id;
      assert HasDocument(x, x.documents[i].id);
    }
  }

  // ---------------------------------------------------------------------------
  // Which possible duplicates are issues
  // ---------------------------------------------------------------------------

  /** The row describes its reference: no row before it names the same one. */
  predicate Describes(x: Input, k: nat, r: string) {
    k < |x.duplicates| && x.duplicates[k].reference == r && !SeenDuplicate(x.duplicates, k, r)
  }

  /** An issue exactly when the row that describes the record scores at least 0.8 and reads "open". */
  lemma RelatedIssueExactlyWhen(nodes: seq<Node>, edges: seq<Edge>, x: Input, n: Node)
    requires IsGraphOf(nodes, edges, x) && n in nodes && n.id.Related?
    ensures n.flag == Issue <==>
      exists k: nat :: Describes(x, k, n.id.reference) && x.duplicates[k].score >= 0.8 && x.duplicates[k].resolution == "open"
  {
    var r := n.id.reference;
    forall k: nat | Describes(x, k, r) ensures FirstDuplicate(x.duplicates, r) == Some(x.duplicates[k]) {
      FirstDuplicateIs(x.duplicates, k);
    }
    if FirstDuplicate(x.duplicates, r).Some? {
      var k := FirstDuplicateAt(x.duplicates, r);
      assert Describes(x, k, r);
    }
  }

  lemma {:induction false} FirstDuplicateAt(duplicates: seq<DuplicateRow>, r: string) returns (k: nat)
    requires FirstDuplicate(duplicates, r).Some?
    ensures k < |duplicates| && duplicates[k].reference == r && !SeenDuplicate(duplicates, k, r)
  {
    k := 0;
    if duplicates[0].reference != r {
      k := FirstDuplicateAt(duplicates[1..], r);
      assert forall i :: 0 <= i < k ==> duplicates[1..][i] == duplicates[i + 1];
      k := k + 1;
    }
  }

  /** The word stored for what was decided about a possible duplicate. */
  function Word(d: DR.Resolution): string {
    match d
    case Unresolved => "unresolved"
    case NewClaim => "new_claim"
    case Linked => "linked"
    case MarkedDuplicate => "duplicate"
  }

  /** The rows are the ones duplicate review keeps. */
  ghost predicate FromReview(duplicates: seq<DuplicateRow>, rows: DR.Rows) {
    forall d <- duplicates :: d.reference in rows && d.score == rows[d.reference].score
      && d.resolution == Word(rows[d.reference].resolution)
  }

  /** So a stored duplicate is never an issue, however it scores and whether or not it was decided. */
  lemma StoredDuplicatesAreNeverIssues(nodes: seq<Node>, edges: seq<Edge>, x: Input, rows: DR.Rows, n: Node)
    requires IsGraphOf(nodes, edges, x) && FromReview(x.duplicates, rows)
    requires n in nodes && n.id.Related?
    ensures n.flag != Issue
  {
    RelatedIssueExactlyWhen(nodes, edges, x, n);
    forall d: DR.Resolution ensures Word(d) != "open" {
      assert Word(d)[0] != "open"[0];
    }
  }

  // ---------------------------------------------------------------------------
  // What the signals mean
  // ---------------------------------------------------------------------------

  lemma {:induction false} NoneCounted(t: Tile, nodes: seq<Node>)
    ensures CountOf(t, nodes) == 0 <==> forall n <- nodes :: !Counts(t, n)
  {
    if nodes != [] {
      var before, last := nodes[..|nodes| - 1], nodes[|nodes| - 1];
      NoneCounted(t, before);
      assert nodes == before + [last];
    }
  }

  /** A tile is at nothing exactly when the records call for none of what it counts. */
  lemma NoneCalledFor(t: Tile, nodes: seq<Node>, edges: seq<Edge>, x: Input)
    requires IsGraphOf(nodes, edges, x)
    ensures CountOf(t, nodes) == 0 <==> forall id :: Expected(x, id) ==> !Counts(t, NodeFor(x, id))
  {
    NoneCounted(t, nodes);
    forall id | Expected(x, id) ensures exists n <- nodes :: n == NodeFor(x, id) {
      assert Lists(nodes, id);
      var i :| 0 <= i < |nodes| && nodes[i].id == id;
      assert nodes[i] in nodes;
    }
    forall n | n in nodes ensures Expected(x, n.id) && n == NodeFor(x, n.id) {
      assert Lists(nodes, n.id);
    }
  }

  /** A check that needs a decision: the first under its key failed or wants attention. */
  predicate NeedsDecision(x: Input, key: string) {
    var c := FirstCheck(x.checks, key);
    c.Some? && CheckFlag(c.value.state) != Unflagged
  }

  lemma {:induction false} FirstCheckExists(checks: seq<Option<Check>>, key: string)
    ensures FirstCheck(checks, key).Some? <==> SeenCheck(checks, |checks|, key)
  {
    if checks != [] && !CheckAt(checks, 0, key) {
      FirstCheckExists(checks[1..], key);
      if SeenCheck(checks, |checks|, key) {
        var i: nat :| i < |checks| && CheckAt(checks, i, key);
        assert CheckAt(checks[1..], i - 1, key);
      }
      if SeenCheck(checks[1..], |checks[1..]|, key) {
        var i: nat :| i < |checks[1..]| && CheckAt(checks[1..], i, key);
        assert CheckAt(checks, i + 1, key);
      }
    } else if checks != [] {
      assert CheckAt(checks, 0, key);
    }
  }

  lemma {:induction false} FirstOpenExists(exceptions: seq<ExceptionRow>, code: string)
    ensures FirstOpen(exceptions, code).Some? <==> SeenOpen(exceptions, |exceptions|, code)
  {
    if exceptions != [] && !OpenAt(exceptions, 0, code) {
      FirstOpenExists(exceptions[1..], code);
      if SeenOpen(exceptions, |exceptions|, code) {
        var i: nat :| i < |exceptions| && OpenAt(exceptions, i, code);
        assert OpenAt(exceptions[1..], i - 1, code);
      }
      if SeenOpen(exceptions[1..], |exceptions[1..]|, code) {
        var i: nat :| i < |exceptions[1..]| && OpenAt(exceptions[1..], i, code);
        assert OpenAt(exceptions, i + 1, code);
      }
    } else if exceptions != [] {
      assert OpenAt(exceptions, 0, code);
    }
  }

  lemma CoverageIssueOfCheck(x: Input, id: NodeId)
    ensures Expected(x, id) && Counts(CoverageIssueTile, NodeFor(x, id)) <==> id.Coverage? && NeedsDecision(x, id.key)
  {
    if id.Coverage? { FirstCheckExists(x.checks, id.key); }
  }

  predicate IsOk(signals: seq<Signal>) { exists s <- signals :: s.CoverageSignal? && s.tone == OkTone }

  /** The coverage signal is reassuring exactly when coverage was read with 70% confidence and no check needs a decision. */
  lemma CoverageIsOkExactlyWhen(nodes: seq<Node>, edges: seq<Edge>, x: Input)
    requires IsGraphOf(nodes, edges, x)
    ensures IsOk(SignalsOf(x, nodes)) <==>
      x.coverageConfidence.Some? && x.coverageConfidence.value >= 0.7 && forall key :: !NeedsDecision(x, key)
  {
    NoneCalledFor(CoverageIssueTile, nodes, edges, x);
    forall id: NodeId ensures Expected(x, id) && Counts(CoverageIssueTile, NodeFor(x, id)) <==> id.Coverage? && NeedsDecision(x, id.key) {
      CoverageIssueOfCheck(x, id);
    }
    forall key ensures NeedsDecision(x, key) <==> Expected(x, Coverage(key)) && Counts(CoverageIssueTile, NodeFor(x, Coverage(key))) {
      CoverageIssueOfCheck(x, Coverage(key));
    }
    OnlyCoverageSpeaks(x, nodes);
  }

  lemma OnlyCoverageSpeaks(x: Input, nodes: seq<Node>)
    ensures IsOk(SignalsOf(x, nodes)) <==>
      x.coverageConfidence.Some? && x.coverageConfidence.value >= 0.7 && CountOf(CoverageIssueTile, nodes) == 0
  {
    var all := SignalsOf(x, nodes);
    if CoverageSignals(x, nodes) != [] { assert all[0] in all; }
    forall s <- all ensures s.CoverageSignal? ==> s in CoverageSignals(x, nodes) { }
  }

  predicate IsBad(signals: seq<Signal>) { exists s <- signals :: s.RiskSignal? && s.tone == BadTone }

  predicate Grave(x: Input, i: nat) { i < |x.indicators| && x.indicators[i] == Some(HighSeverity) }

  /** An exception of this code is open, and the first such row blocks. */
  predicate Blocks(x: Input, code: string) {
    var e := FirstOpen(x.exceptions, code);
    e.Some? && e.value.blocking
  }

  lemma RiskIssueOfRecord(x: Input, id: NodeId)
    ensures Expected(x, id) && Counts(RiskIssueTile, NodeFor(x, id)) <==>
      || (id.FraudRisk? && Grave(x, id.index))
      || (id.ExceptionRisk? && Blocks(x, id.code))
      || (id == SeededRisk(AMENDMENT) && x.includeSeeded && !HasFraud(x))
  {
    if id.ExceptionRisk? { FirstOpenExists(x.exceptions, id.code); }
  }

  lemma OnlyRiskSpeaks(x: Input, nodes: seq<Node>)
    ensures IsBad(SignalsOf(x, nodes)) <==> CountOf(RiskIssueTile, nodes) > 0
  {
    var all := SignalsOf(x, nodes);
    var front := CoverageSignals(x, nodes) + ReadingSignals(x) + CatSignals(x, nodes);
    NoneCounted(RiskIssueTile, nodes);
    NoneCounted(RiskTile, nodes);
    if RiskSignals(nodes) != [] { assert all[|front|] == RiskSignals(nodes)[0] && all[|front|] in all; }
    forall s | s in all && s.RiskSignal? ensures s in RiskSignals(nodes) { }
  }

  /**
   * The risk signal is bad exactly when an indicator is of high severity, an open exception
   * blocks, or the scaffolding stands in for indicators the claim does not have: its
   * placeholder for an amended policy is an issue by itself.
   */
  lemma RiskIsBadExactlyWhen(nodes: seq<Node>, edges: seq<Edge>, x: Input)
    requires IsGraphOf(nodes, edges, x)
    ensures IsBad(SignalsOf(x, nodes)) <==>
      || (exists i: nat :: Grave(x, i))
      || (exists code :: Blocks(x, code))
      || (x.includeSeeded && !HasFraud(x))
  {
    NoneCalledFor(RiskIssueTile, nodes, edges, x);
    OnlyRiskSpeaks(x, nodes);
    if id: NodeId :| Expected(x, id) && Counts(RiskIssueTile, NodeFor(x, id)) {
      RiskIssueOfRecord(x, id);
    }
    forall i: nat | Grave(x, i) ensures Expected(x, FraudRisk(i)) && Counts(RiskIssueTile, NodeFor(x, FraudRisk(i))) {
      RiskIssueOfRecord(x, FraudRisk(i));
    }
    forall code | Blocks(x, code) ensures Expected(x, ExceptionRisk(code)) && Counts(RiskIssueTile, NodeFor(x, ExceptionRisk(code))) {
      RiskIssueOfRecord(x, ExceptionRisk(code));
    }
    RiskIssueOfRecord(x, SeededRisk(AMENDMENT));
  }
}
