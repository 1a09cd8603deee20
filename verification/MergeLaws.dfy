/** What a merge means: one edge per identity, strongest trust, and no dependence on order or repetition. */
module MergeLaws {
  import opened Basics
  import opened LineageGraph
  import opened Ordering
  import opened EdgeIdentity
  import opened TextLines
  import opened Merge

  // ---------------------------------------------------------------------------
  // Edge identity

  ghost predicate Injective(digest: string -> string) {
    forall x, y :: digest(x) == digest(y) ==> x == y
  }

  ghost predicate Clean(atts: seq<Attestation>) {
    forall a :: a in atts ==> Admissible(a) && NewlineFree(a.source) && NewlineFree(a.target)
  }

  /** Which attestations a merge takes. */
  lemma AdmissibleIff(a: Attestation)
    ensures Admissible(a) <==>
              && (a.evidence.tier == "pipeline-tool" || a.evidence.tier == "sql-parse" || a.evidence.tier == "human")
              && (|| a.operation == "ingest" || a.operation == "join" || a.operation == "filter" || a.operation == "aggregate"
                  || a.operation == "derive" || a.operation == "cast" || a.operation == "rename" || a.operation == "dedupe"
                  || a.operation == "business-rule")
  {
  }

  lemma OperationsNewlineFree(o: string)
    requires o in OPERATIONS
    ensures NewlineFree(o)
  {
  }

  /** The edge id of admissible attestations identifies source, target and operation. */
  lemma EdgeIdIdentifies(n: Naming, atts: seq<Attestation>, a: Attestation, b: Attestation)
    requires Injective(n.digest) && Clean(atts) && a in atts && b in atts
    ensures EdgeId(n, a) == EdgeId(n, b) <==> a.source == b.source && a.target == b.target && a.operation == b.operation
  {
    OperationsNewlineFree(a.operation);
    OperationsNewlineFree(b.operation);
    hide NewlineFree, Payload;
    PayloadInjective(a.source, a.target, a.operation, b.source, b.target, b.operation);
  }

  lemma {:induction false} IdsOfEdges(edges: seq<Edge>)
    ensures |EdgeIds(edges)| == |edges| && forall k :: 0 <= k < |edges| ==> EdgeIds(edges)[k] == edges[k].id
  {
    if edges != [] { IdsOfEdges(edges[..|edges| - 1]); }
  }

  lemma {:induction false} IdsOfNodes(nodes: seq<Node>)
    ensures |NodeIds(nodes)| == |nodes| && forall k :: 0 <= k < |nodes| ==> NodeIds(nodes)[k] == nodes[k].id
  {
    if nodes != [] { IdsOfNodes(nodes[..|nodes| - 1]); }
  }

  lemma {:induction false} TargetsOf(columns: seq<Mapping>)
    ensures |Targets(columns)| == |columns| && forall k :: 0 <= k < |columns| ==> Targets(columns)[k] == columns[k].to
  {
    if columns != [] { TargetsOf(columns[..|columns| - 1]); }
  }

  predicate About(a: Attestation, e: Edge) {
    a.source == e.source && a.target == e.target && a.operation == e.operation
  }

  lemma AboutIffId(n: Naming, atts: seq<Attestation>, e: Edge, a: Attestation)
    requires Injective(n.digest) && Clean(atts) && Claimed(n, atts, e.id, e.source, e.target, e.operation) && a in atts
    ensures EdgeId(n, a) == e.id <==> About(a, e)
  {
    hide EdgeId, Clean, Injective;
    var b :| b in atts && EdgeId(n, b) == e.id && b.source == e.source && b.target == e.target && b.operation == e.operation;
    EdgeIdIdentifies(n, atts, a, b);
  }

  /** Some attestation about the edge has evidence of that tier. */
  ghost predicate Vouched(atts: seq<Attestation>, e: Edge, tier: string) {
    exists a :: a in atts && About(a, e) && a.evidence.tier == tier
  }

  /** The trust of a merged edge is the strongest tier among the attestations about it. */
  lemma TrustOf(n: Naming, atts: seq<Attestation>, g: Graph, e: Edge)
    requires Injective(n.digest) && Clean(atts) && IsMerge(n, atts, g) && e in g.edges
    ensures e.trust == "pipeline-tool" <==> Vouched(atts, e, "pipeline-tool")
    ensures e.trust == "sql-parse" <==> Vouched(atts, e, "sql-parse") && !Vouched(atts, e, "pipeline-tool")
    ensures e.trust == "human" <==> !Vouched(atts, e, "sql-parse") && !Vouched(atts, e, "pipeline-tool")
  {
    hide EdgeId, Injective, IsColumns, IsEvidence, StrLe, About;
    forall a | a in atts ensures EdgeId(n, a) == e.id <==> About(a, e) { AboutIffId(n, atts, e, a); }
    assert forall tier :: Vouched(atts, e, tier) <==> Attested(n, atts, e.id, tier);
    hide IsEdge, Vouched, Attested, StrongestFirst;
    TrustIsStrongest(n, atts, e);
  }

  /** The first tier is at least as strong as the second. */
  predicate AsTrusted(trust: string, tier: string) {
    trust in {"pipeline-tool", "sql-parse", "human"} && (trust == "sql-parse" ==> tier != "pipeline-tool") && (trust == "human" ==> tier == "human")
  }

  /**
   Every attestation is about exactly one merged edge, which carries its evidence, is trusted
   at least as much, and maps each of its columns.
   */
  lemma OneEdgePerIdentity(n: Naming, atts: seq<Attestation>, g: Graph, a: Attestation) returns (k: nat)
    requires Injective(n.digest) && Clean(atts) && IsMerge(n, atts, g) && a in atts
    ensures k < |g.edges| && About(a, g.edges[k])
    ensures forall j :: 0 <= j < |g.edges| && About(a, g.edges[j]) ==> j == k
    ensures a.evidence in g.edges[k].evidence && AsTrusted(g.edges[k].trust, a.evidence.tier)
    ensures forall m, c :: m in a.columns && c in m.from ==> exists x :: x in g.edges[k].columns && x.to == m.to && c in x.from
  {
    hide EdgeId, Clean, Injective, StrLe, IsColumns, IsEvidence, Claimed, Sorted;
    IdsOfEdges(g.edges);
    k :| 0 <= k < |g.edges| && EdgeIds(g.edges)[k] == EdgeId(n, a);
    forall j | 0 <= j < |g.edges| ensures EdgeId(n, a) == g.edges[j].id <==> About(a, g.edges[j]) {
      assert g.edges[j] in g.edges;
      AboutIffId(n, atts, g.edges[j], a);
    }
    forall j | 0 <= j < |g.edges| && About(a, g.edges[j]) ensures j == k {
      assert EdgeIds(g.edges)[j] == EdgeIds(g.edges)[k];
    }
    var e := g.edges[k];
    assert e in g.edges;
    EvidenceCarried(n, atts, e, a);
    TrustOf(n, atts, g, e);
    assert Vouched(atts, e, a.evidence.tier);
    assert a.evidence.tier in TIERS by { ClearTier(atts, a); }
    forall m, c | m in a.columns && c in m.from ensures exists x :: x in e.columns && x.to == m.to && c in x.from {
      ColumnCarried(n, atts, e, a, m, c);
    }
  }

  lemma EvidenceCarried(n: Naming, atts: seq<Attestation>, e: Edge, a: Attestation)
    requires IsEdge(n, atts, e) && a in atts && EdgeId(n, a) == e.id
    ensures a.evidence in e.evidence
  {
    hide EdgeId, EvidenceLe, IsColumns, Claimed;
    assert a.evidence in EvidenceFor(n, atts, e.id);
  }

  lemma ClearTier(atts: seq<Attestation>, a: Attestation)
    requires Clean(atts) && a in atts
    ensures a.evidence.tier in TIERS
  {
  }

  lemma ColumnCarried(n: Naming, atts: seq<Attestation>, e: Edge, a: Attestation, m: Mapping, c: string)
    requires IsColumns(n, atts, e.id, e.columns) && a in atts && EdgeId(n, a) == e.id && m in a.columns && c in m.from
    ensures exists x :: x in e.columns && x.to == m.to && c in x.from
  {
    hide EdgeId, StrLe, Sorted, Distinct, Targets;
    assert MapsTo(n, atts, e.id, m.to) && Maps(n, atts, e.id, m.to, c);
    TargetsOf(e.columns);
    var i :| 0 <= i < |e.columns| && Targets(e.columns)[i] == m.to;
    assert e.columns[i] in e.columns;
  }

  // ---------------------------------------------------------------------------
  // Order and repetition

  ghost predicate SameSet(a: seq<Attestation>, b: seq<Attestation>) {
    forall x :: x in a <==> x in b
  }

  lemma EdgeOfSameSet(n: Naming, atts: seq<Attestation>, atts': seq<Attestation>, e: Edge)
    requires SameSet(atts, atts') && IsEdge(n, atts, e)
    ensures IsEdge(n, atts', e)
  {
    hide EdgeId;
    assert EvidenceFor(n, atts, e.id) == EvidenceFor(n, atts', e.id);
    forall to ensures MapsTo(n, atts, e.id, to) <==> MapsTo(n, atts', e.id, to) {}
    forall to, c ensures Maps(n, atts, e.id, to, c) <==> Maps(n, atts', e.id, to, c) {}
    assert Claimed(n, atts', e.id, e.source, e.target, e.operation);
    hide MapsTo, Maps, EvidenceFor, Sorted, Distinct, Targets, EvidenceLe, StrLe, Claimed;
  }

  lemma EvidenceTieFree(n: Naming, atts: seq<Attestation>, id: string, evidence: seq<Evidence>)
    requires Clean(atts) && IsEvidence(n, atts, id, evidence)
    ensures TieFree(EvidenceLe, evidence)
  {
    StrLeOrders();
    hide EdgeId, StrLe, NewlineFree;
    forall x, y | x in evidence && y in evidence && EvidenceLe(x, y) && EvidenceLe(y, x) ensures x == y {
      assert x.tier in TIERS && y.tier in TIERS;
      RankInjective(x.tier, y.tier);
    }
  }

  lemma RankInjective(a: string, b: string)
    requires a in TIERS && b in TIERS
    ensures TierRank(a) == TierRank(b) ==> a == b
  {
  }

  lemma StringsTieFree(s: seq<string>)
    ensures TieFree(StrLe, s)
  {
    StrLeOrders();
  }

  lemma SameColumns(n: Naming, atts: seq<Attestation>, id: string, a: seq<Mapping>, b: seq<Mapping>)
    requires IsColumns(n, atts, id, a) && IsColumns(n, atts, id, b)
    ensures a == b
  {
    StrLeOrders();
    hide StrLe, MapsTo, Maps, Targets;
    StringsTieFree(Targets(a));
    SortedSetUnique(StrLe, Targets(a), Targets(b));
    TargetsOf(a);
    TargetsOf(b);
    forall k | 0 <= k < |a| ensures a[k] == b[k] {
      assert a[k] in a && b[k] in b && a[k].to == b[k].to;
      SameMapping(n, atts, id, a[k], b[k]);
    }
  }

  lemma SameMapping(n: Naming, atts: seq<Attestation>, id: string, a: Mapping, b: Mapping)
    requires IsMapping(n, atts, id, a) && IsMapping(n, atts, id, b) && a.to == b.to
    ensures a == b
  {
    StrLeOrders();
    hide StrLe, MapsTo, Maps;
    StringsTieFree(a.from);
    SortedSetUnique(StrLe, a.from, b.from);
  }

  lemma SameEdge(n: Naming, atts: seq<Attestation>, e: Edge, f: Edge)
    requires Injective(n.digest) && Clean(atts) && IsEdge(n, atts, e) && IsEdge(n, atts, f) && e.id == f.id
    ensures e == f
  {
    hide EdgeId, Clean, Injective, StrLe, EvidenceLe, IsColumns;
    var a :| a in atts && EdgeId(n, a) == e.id && a.source == e.source && a.target == e.target && a.operation == e.operation;
    AboutIffId(n, atts, f, a);
    EvidenceTieFree(n, atts, e.id, e.evidence);
    EvidenceOrder();
    SortedSetUnique(EvidenceLe, e.evidence, f.evidence);
    SameColumns(n, atts, e.id, e.columns, f.columns);
  }

  // ---------------------------------------------------------------------------
  // Names

  /** A resolved claim about a name. */
  ghost predicate Claim(atts: seq<Attestation>, name: string, m: Meta) {
    m.resolved && exists a :: a in atts && (ClaimFor(name, a.source, a.sourceMeta) == Some(m) || ClaimFor(name, a.target, a.targetMeta) == Some(m))
  }

  lemma ClaimNext(atts: seq<Attestation>, a: Attestation, name: string, m: Meta)
    ensures Claim(atts + [a], name, m) <==>
              Claim(atts, name, m) || (m.resolved && (ClaimFor(name, a.source, a.sourceMeta) == Some(m) || ClaimFor(name, a.target, a.targetMeta) == Some(m)))
  {
    assert forall x :: x in atts + [a] <==> x in atts || x == a;
  }

  /** The kept facts are a resolved claim if there is one. */
  lemma {:induction false} FirstMetaIsClaim(atts: seq<Attestation>, name: string)
    ensures FirstMeta(atts, name).resolved ==> Claim(atts, name, FirstMeta(atts, name))
    ensures !FirstMeta(atts, name).resolved ==> FirstMeta(atts, name) == EXTERNAL && forall m :: !Claim(atts, name, m)
  {
    if atts != [] {
      var front, a := atts[..|atts| - 1], atts[|atts| - 1];
      FirstMetaIsClaim(front, name);
      assert atts == front + [a];
      MetaNext(front, a, name);
      hide FirstMeta, Claim;
      forall m ensures Claim(atts, name, m) <==>
          Claim(front, name, m) || (m.resolved && (ClaimFor(name, a.source, a.sourceMeta) == Some(m) || ClaimFor(name, a.target, a.targetMeta) == Some(m)))
      {
        ClaimNext(front, a, name, m);
      }
      hide ClaimFor;
    }
  }

  /** What one attestation says of a name when nothing else is known: its source claim before its target claim. */
  function Lead(a: Attestation, name: string): Meta {
    Improve(Improve(EXTERNAL, ClaimFor(name, a.source, a.sourceMeta)), ClaimFor(name, a.target, a.targetMeta))
  }

  /** The attestations that resolve a name give it the same node. */
  ghost predicate Agree(n: Naming, atts: seq<Attestation>) {
    forall a, b, name :: a in atts && b in atts && Lead(a, name).resolved && Lead(b, name).resolved ==>
      NodeOf(n, name, Lead(a, name)) == NodeOf(n, name, Lead(b, name))
  }

  lemma LeadNext(m: Meta, a: Attestation, name: string)
    requires m.resolved || m == EXTERNAL
    ensures var r := Improve(Improve(m, ClaimFor(name, a.source, a.sourceMeta)), ClaimFor(name, a.target, a.targetMeta));
            r == if m.resolved then m else Lead(a, name)
    ensures Lead(a, name).resolved || Lead(a, name) == EXTERNAL
  {
  }

  /** The facts kept about a name are the lead of some attestation, if any resolves it. */
  lemma {:induction false} FirstMetaIsLead(atts: seq<Attestation>, name: string)
    ensures FirstMeta(atts, name).resolved ==> exists a :: a in atts && Lead(a, name) == FirstMeta(atts, name)
    ensures !FirstMeta(atts, name).resolved ==> FirstMeta(atts, name) == EXTERNAL && forall a :: a in atts ==> !Lead(a, name).resolved
  {
    if atts != [] {
      var front, a := atts[..|atts| - 1], atts[|atts| - 1];
      FirstMetaIsLead(front, name);
      assert atts == front + [a];
      MetaNext(front, a, name);
      hide FirstMeta, Lead;
      LeadNext(FirstMeta(front, name), a, name);
      assert forall x :: x in atts <==> x in front || x == a;
    }
  }

  /** An attestation in front decides the names it resolves. */
  lemma {:induction false} FrontDecides(a: Attestation, rest: seq<Attestation>, name: string)
    requires Lead(a, name).resolved
    ensures FirstMeta([a] + rest, name) == Lead(a, name)
  {
    if rest == [] {
      assert [a] + rest == [a];
      MetaNext([], a, name);
      assert [] + [a] == [a];
    } else {
      var front, b := rest[..|rest| - 1], rest[|rest| - 1];
      FrontDecides(a, front, name);
      assert [a] + rest == ([a] + front) + [b];
      MetaNext([a] + front, b, name);
      hide FirstMeta, Lead;
      LeadNext(FirstMeta([a] + front, name), b, name);
    }
  }

  lemma SameNode(n: Naming, atts: seq<Attestation>, atts': seq<Attestation>, name: string)
    requires SameSet(atts, atts') && Agree(n, atts)
    ensures NodeOf(n, name, FirstMeta(atts, name)) == NodeOf(n, name, FirstMeta(atts', name))
  {
    hide FirstMeta, Lead, NodeOf;
    FirstMetaIsLead(atts, name);
    FirstMetaIsLead(atts', name);
    if FirstMeta(atts, name).resolved {
      var a :| a in atts && Lead(a, name) == FirstMeta(atts, name);
      assert a in atts';
      var b :| b in atts' && Lead(b, name) == FirstMeta(atts', name);
      assert b in atts;
    } else {
      assert forall a :: a in atts' ==> !Lead(a, name).resolved;
    }
  }

  lemma SameNodes(n: Naming, atts: seq<Attestation>, atts': seq<Attestation>, g: Graph, g': Graph)
    requires SameSet(atts, atts') && Agree(n, atts) && IsMerge(n, atts, g) && IsMerge(n, atts', g')
    ensures g.nodes == g'.nodes
  {
    StrLeOrders();
    assert forall name :: Endpoint(atts, name) <==> Endpoint(atts', name);
    hide StrLe, IsEdge, FirstMeta, Endpoint, EdgeId, NodeIds, EdgeIds, NodeOf;
    StringsTieFree(NodeIds(g.nodes));
    SortedSetUnique(StrLe, NodeIds(g.nodes), NodeIds(g'.nodes));
    IdsOfNodes(g.nodes);
    IdsOfNodes(g'.nodes);
    forall k | 0 <= k < |g.nodes| ensures g.nodes[k] == g'.nodes[k] {
      assert g.nodes[k] in g.nodes && g'.nodes[k] in g'.nodes && g.nodes[k].id == g'.nodes[k].id;
      SameNode(n, atts, atts', g.nodes[k].id);
    }
  }

  lemma EdgeIdsExact(n: Naming, atts: seq<Attestation>, g: Graph, id: string)
    requires IsMerge(n, atts, g)
    ensures id in EdgeIds(g.edges) <==> exists a :: a in atts && EdgeId(n, a) == id
  {
    hide EdgeId, StrLe, EdgeIds, NodeIds, Sorted, Distinct, FirstMeta, IsEvidence, IsColumns;
    IdsOfEdges(g.edges);
    if id in EdgeIds(g.edges) {
      var k :| 0 <= k < |g.edges| && EdgeIds(g.edges)[k] == id;
      assert g.edges[k] in g.edges;
    }
  }

  lemma SameEdges(n: Naming, atts: seq<Attestation>, atts': seq<Attestation>, g: Graph, g': Graph)
    requires Injective(n.digest) && Clean(atts) && SameSet(atts, atts') && IsMerge(n, atts, g) && IsMerge(n, atts', g')
    ensures g.edges == g'.edges
  {
    StrLeOrders();
    forall id ensures id in EdgeIds(g.edges) <==> id in EdgeIds(g'.edges) {
      EdgeIdsExact(n, atts, g, id);
      EdgeIdsExact(n, atts', g', id);
    }
    hide StrLe, IsEdge, FirstMeta, EdgeId, EdgeIds, NodeIds, Clean, Injective;
    StringsTieFree(EdgeIds(g.edges));
    SortedSetUnique(StrLe, EdgeIds(g.edges), EdgeIds(g'.edges));
    IdsOfEdges(g.edges);
    IdsOfEdges(g'.edges);
    forall k | 0 <= k < |g.edges| ensures g.edges[k] == g'.edges[k] {
      assert g.edges[k] in g.edges && g'.edges[k] in g'.edges && g.edges[k].id == g'.edges[k].id;
      EdgeOfSameSet(n, atts', atts, g'.edges[k]);
      SameEdge(n, atts, g.edges[k], g'.edges[k]);
    }
  }

  /** Merging attestations that agree depends only on which there are, not on their order or repetition. */
  lemma MergeDetermined(n: Naming, atts: seq<Attestation>, atts': seq<Attestation>, g: Graph, g': Graph)
    requires Injective(n.digest) && Clean(atts) && Agree(n, atts) && SameSet(atts, atts')
    requires IsMerge(n, atts, g) && IsMerge(n, atts', g')
    ensures g == g'
  {
    hide IsMerge, SameSet, Clean, Injective, Agree;
    SameNodes(n, atts, atts', g, g');
    SameEdges(n, atts, atts', g, g');
  }

  lemma NodeIn(n: Naming, atts: seq<Attestation>, g: Graph, name: string)
    requires IsMerge(n, atts, g) && Endpoint(atts, name)
    ensures NodeOf(n, name, FirstMeta(atts, name)) in g.nodes
    ensures forall x :: x in g.nodes && x.id == name ==> x == NodeOf(n, name, FirstMeta(atts, name))
  {
    hide StrLe, IsEdge, FirstMeta, Endpoint, EdgeId, NodeIds, EdgeIds, NodeOf, Sorted, Distinct;
    IdsOfNodes(g.nodes);
    var k :| 0 <= k < |g.nodes| && NodeIds(g.nodes)[k] == name;
    assert g.nodes[k] in g.nodes;
  }

  lemma LeadIsEndpoint(a: Attestation, atts: seq<Attestation>, name: string)
    requires a in atts && Lead(a, name).resolved
    ensures Endpoint(atts, name)
  {
  }

  /**
   Attestations that disagree about a name can be listed in two orders that never merge to the
   same graph, so agreement is exactly what order-independence needs.
   */
  lemma DisagreementShows(n: Naming, atts: seq<Attestation>) returns (x: seq<Attestation>, y: seq<Attestation>)
    requires !Agree(n, atts)
    ensures SameSet(x, atts) && SameSet(y, atts)
    ensures forall g, h :: IsMerge(n, x, g) && IsMerge(n, y, h) ==> g.nodes != h.nodes
  {
    var a, b, name :| a in atts && b in atts && Lead(a, name).resolved && Lead(b, name).resolved
      && NodeOf(n, name, Lead(a, name)) != NodeOf(n, name, Lead(b, name));
    x, y := [a] + atts, [b] + atts;
    FrontDecides(a, atts, name);
    FrontDecides(b, atts, name);
    LeadIsEndpoint(a, x, name);
    LeadIsEndpoint(b, y, name);
    assert NodeOf(n, name, Lead(b, name)).id == name;
    hide IsMerge, FirstMeta, Lead, NodeOf, Endpoint;
    forall g, h | IsMerge(n, x, g) && IsMerge(n, y, h) ensures g.nodes != h.nodes {
      NodeIn(n, x, g, name);
      NodeIn(n, y, h, name);
    }
  }
}
