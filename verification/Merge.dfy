/** `merge_attestations` of `lineage/graph.py`: attestations merged into nodes and edges. */
module Merge {
  import opened Basics
  import opened LineageGraph
  import opened Ordering
  import opened EdgeIdentity
  import P = DocPaths

  const OPERATIONS := {"ingest", "join", "filter", "aggregate", "derive", "cast", "rename", "dedupe", "business-rule"}

  const TIERS := {"pipeline-tool", "sql-parse", "human"}

  /** Position in the tier order, strongest first. */
  function TierRank(tier: string): nat {
    match tier case "pipeline-tool" => 0 case "sql-parse" => 1 case "human" => 2 case _ => 3
  }

  datatype Meta = Meta(resolved: bool, kind: string, schema: Option<string>, name: string)

  const EXTERNAL := Meta(false, "external", None, "")

  datatype Attestation = Attestation(
    source: string, target: string, operation: string, evidence: Evidence, columns: seq<Mapping>,
    sourceMeta: Option<Meta>, targetMeta: Option<Meta>)

  /** The digest and lower case are given. */
  datatype Naming = Naming(digest: string -> string, lower: string -> string)

  function EdgeId(n: Naming, a: Attestation): string {
    n.digest(Payload(a.source, a.target, a.operation))
  }

  // ---------------------------------------------------------------------------
  // What the attestations say, in any order

  ghost function EvidenceFor(n: Naming, atts: seq<Attestation>, id: string): set<Evidence> {
    set a | a in atts && EdgeId(n, a) == id :: a.evidence
  }

  /** Some attestation of the edge maps `c` into the target column `to`. */
  ghost predicate Maps(n: Naming, atts: seq<Attestation>, id: string, to: string, c: string) {
    exists a, m :: a in atts && EdgeId(n, a) == id && m in a.columns && m.to == to && c in m.from
  }

  ghost predicate MapsTo(n: Naming, atts: seq<Attestation>, id: string, to: string) {
    exists a, m :: a in atts && EdgeId(n, a) == id && m in a.columns && m.to == to
  }

  ghost predicate Claimed(n: Naming, atts: seq<Attestation>, id: string, source: string, target: string, operation: string) {
    exists a :: a in atts && EdgeId(n, a) == id && a.source == source && a.target == target && a.operation == operation
  }

  function Improve(m: Meta, claim: Option<Meta>): Meta {
    if claim.Some? && claim.value.resolved && !m.resolved then claim.value else m
  }

  function ClaimFor(name: string, endpoint: string, claim: Option<Meta>): Option<Meta> {
    if endpoint == name then claim else None
  }

  /** The first resolved claim about a name, sources before targets; external without one. */
  function FirstMeta(atts: seq<Attestation>, name: string): Meta {
    if atts == [] then EXTERNAL else
    var a := atts[|atts| - 1];
    Improve(Improve(FirstMeta(atts[..|atts| - 1], name), ClaimFor(name, a.source, a.sourceMeta)), ClaimFor(name, a.target, a.targetMeta))
  }

  predicate Endpoint(atts: seq<Attestation>, name: string) {
    exists a :: a in atts && (a.source == name || a.target == name)
  }

  // ---------------------------------------------------------------------------
  // The merged documents

  predicate EvidenceLe(a: Evidence, b: Evidence) {
    TierRank(a.tier) < TierRank(b.tier) || (TierRank(a.tier) == TierRank(b.tier) && StrLe(a.ref, b.ref))
  }

  ghost predicate IsEvidence(n: Naming, atts: seq<Attestation>, id: string, evidence: seq<Evidence>) {
    Sorted(EvidenceLe, evidence) && Distinct(evidence) && forall x :: x in evidence <==> x in EvidenceFor(n, atts, id)
  }

  ghost predicate IsMapping(n: Naming, atts: seq<Attestation>, id: string, m: Mapping) {
    MapsTo(n, atts, id, m.to) && Sorted(StrLe, m.from) && Distinct(m.from) && forall c :: c in m.from <==> Maps(n, atts, id, m.to, c)
  }

  function Targets(columns: seq<Mapping>): seq<string> {
    if columns == [] then [] else Targets(columns[..|columns| - 1]) + [columns[|columns| - 1].to]
  }

  ghost predicate IsColumns(n: Naming, atts: seq<Attestation>, id: string, columns: seq<Mapping>) {
    && Sorted(StrLe, Targets(columns)) && Distinct(Targets(columns))
    && (forall to :: to in Targets(columns) <==> MapsTo(n, atts, id, to))
    && (forall m :: m in columns ==> IsMapping(n, atts, id, m))
  }

  /** The merged edge: deduplicated evidence strongest first, its first tier as trust, united mappings. */
  ghost predicate IsEdge(n: Naming, atts: seq<Attestation>, e: Edge) {
    && Claimed(n, atts, e.id, e.source, e.target, e.operation)
    && IsEvidence(n, atts, e.id, e.evidence) && e.evidence != [] && e.trust == e.evidence[0].tier
    && IsColumns(n, atts, e.id, e.columns)
  }

  /** Some attestation of the edge has evidence of that tier. */
  ghost predicate Attested(n: Naming, atts: seq<Attestation>, id: string, tier: string) {
    exists a :: a in atts && EdgeId(n, a) == id && a.evidence.tier == tier
  }

  /** A pipeline tool is trusted before a parsed statement, and that before a person. */
  ghost predicate TrustsStrongest(n: Naming, atts: seq<Attestation>, e: Edge) {
    e.trust == if Attested(n, atts, e.id, "pipeline-tool") then "pipeline-tool"
               else if Attested(n, atts, e.id, "sql-parse") then "sql-parse"
               else "human"
  }

  /** Evidence by tier name, the strongest first, and by reference within a tier. */
  ghost predicate StrongestFirst(evidence: seq<Evidence>) {
    forall i, j :: 0 <= i < j < |evidence| ==>
      && (evidence[j].tier == "pipeline-tool" ==> evidence[i].tier == "pipeline-tool")
      && (evidence[i].tier == "human" ==> evidence[j].tier == "human")
      && (evidence[i].tier == evidence[j].tier ==> StrLe(evidence[i].ref, evidence[j].ref))
  }

  function EdgeIds(edges: seq<Edge>): seq<string> {
    if edges == [] then [] else EdgeIds(edges[..|edges| - 1]) + [edges[|edges| - 1].id]
  }

  function SystemOf(name: string): string {
    if name == "" || name[0] == '.' then "" else [name[0]] + SystemOf(name[1..])
  }

  /** The machine doc of an object, by the generator's naming rule. */
  function DocOf(n: Naming, system: string, schema: string, name: string): string {
    P.SchemaDoc(P.In(P.SystemDir(P.Mangle(n.lower, system)), P.Mangle(n.lower, schema)), P.Mangle(n.lower, name))
  }

  function NodeOf(n: Naming, name: string, m: Meta): Node {
    Node(name, m.kind, m.resolved,
         if m.resolved && m.schema.Some? && m.schema.value != ""
         then Some(DocOf(n, SystemOf(name), m.schema.value, m.name)) else None)
  }

  function NodeIds(nodes: seq<Node>): seq<string> {
    if nodes == [] then [] else NodeIds(nodes[..|nodes| - 1]) + [nodes[|nodes| - 1].id]
  }

  ghost predicate IsMerge(n: Naming, atts: seq<Attestation>, g: Graph) {
    && Sorted(StrLe, EdgeIds(g.edges)) && Distinct(EdgeIds(g.edges))
    && (forall a :: a in atts ==> EdgeId(n, a) in EdgeIds(g.edges))
    && (forall e :: e in g.edges ==> IsEdge(n, atts, e))
    && Sorted(StrLe, NodeIds(g.nodes)) && Distinct(NodeIds(g.nodes))
    && (forall name :: name in NodeIds(g.nodes) <==> Endpoint(atts, name))
    && (forall x :: x in g.nodes ==> x == NodeOf(n, x.id, FirstMeta(atts, x.id)))
  }

  // ---------------------------------------------------------------------------
  // Accumulation

  datatype Pending = Pending(source: string, target: string, operation: string, evidence: set<Evidence>, columns: map<string, set<string>>)

  function AddMapping(columns: map<string, set<string>>, m: Mapping): map<string, set<string>> {
    columns[m.to := (if m.to in columns then columns[m.to] else {}) + set c | c in m.from]
  }

  method AddMappings(columns: map<string, set<string>>, more: seq<Mapping>) returns (r: map<string, set<string>>)
    ensures forall to :: to in r <==> to in columns || exists m :: m in more && m.to == to
    ensures forall to, c :: to in r ==> (c in r[to] <==> (to in columns && c in columns[to]) || exists m :: m in more && m.to == to && c in m.from)
  {
    r := columns;
    for i := 0 to |more|
      invariant forall to :: to in r <==> to in columns || exists m :: m in more[..i] && m.to == to
      invariant forall to, c :: to in r ==> (c in r[to] <==> (to in columns && c in columns[to]) || exists m :: m in more[..i] && m.to == to && c in m.from)
    {
      r := AddMapping(r, more[i]);
      assert more[..i + 1] == more[..i] + [more[i]];
    }
    assert more[..|more|] == more;
  }

  ghost predicate PendingFor(n: Naming, atts: seq<Attestation>, id: string, p: Pending) {
    && Claimed(n, atts, id, p.source, p.target, p.operation)
    && p.evidence == EvidenceFor(n, atts, id)
    && (forall to :: to in p.columns <==> MapsTo(n, atts, id, to))
    && (forall to, c :: to in p.columns ==> (c in p.columns[to] <==> Maps(n, atts, id, to, c)))
  }

  ghost predicate AllPending(n: Naming, atts: seq<Attestation>, edges: map<string, Pending>) {
    && (forall a :: a in atts ==> EdgeId(n, a) in edges)
    && (forall id :: id in edges ==> PendingFor(n, atts, id, edges[id]))
  }

  predicate SendsTo(a: Attestation, to: string) {
    exists m :: m in a.columns && m.to == to
  }

  predicate Sends(a: Attestation, to: string, c: string) {
    exists m :: m in a.columns && m.to == to && c in m.from
  }

  lemma EvidenceNext(n: Naming, atts: seq<Attestation>, a: Attestation, id: string)
    ensures EvidenceFor(n, atts + [a], id) == EvidenceFor(n, atts, id) + (if EdgeId(n, a) == id then {a.evidence} else {})
  {
    hide EdgeId;
    assert forall x :: x in atts + [a] <==> x in atts || x == a;
  }

  lemma ColumnsNext(n: Naming, atts: seq<Attestation>, a: Attestation, id: string, to: string, c: string)
    ensures MapsTo(n, atts + [a], id, to) <==> MapsTo(n, atts, id, to) || (EdgeId(n, a) == id && SendsTo(a, to))
    ensures Maps(n, atts + [a], id, to, c) <==> Maps(n, atts, id, to, c) || (EdgeId(n, a) == id && Sends(a, to, c))
  {
    hide EdgeId;
    assert forall x :: x in atts + [a] <==> x in atts || x == a;
  }

  lemma ClaimedNext(n: Naming, atts: seq<Attestation>, a: Attestation, id: string, s: string, t: string, o: string)
    ensures Claimed(n, atts, id, s, t, o) ==> Claimed(n, atts + [a], id, s, t, o)
    ensures Claimed(n, atts + [a], EdgeId(n, a), a.source, a.target, a.operation)
  {
    hide EdgeId;
    assert forall x :: x in atts + [a] <==> x in atts || x == a;
  }

  /** An edge that the attestation is not about stays as it is. */
  lemma OtherPending(n: Naming, atts: seq<Attestation>, a: Attestation, id: string, p: Pending)
    requires PendingFor(n, atts, id, p) && EdgeId(n, a) != id
    ensures PendingFor(n, atts + [a], id, p)
  {
    hide EdgeId, Claimed, EvidenceFor, MapsTo, Maps;
    ClaimedNext(n, atts, a, id, p.source, p.target, p.operation);
    EvidenceNext(n, atts, a, id);
    forall to ensures MapsTo(n, atts + [a], id, to) <==> MapsTo(n, atts, id, to) { ColumnsNext(n, atts, a, id, to, ""); }
    forall to, c ensures Maps(n, atts + [a], id, to, c) <==> Maps(n, atts, id, to, c) { ColumnsNext(n, atts, a, id, to, c); }
  }

  /** The columns after one more attestation of the edge. */
  ghost predicate Extended(before: map<string, set<string>>, a: Attestation, after: map<string, set<string>>) {
    && (forall to :: to in after <==> to in before || SendsTo(a, to))
    && (forall to, c :: to in after ==> (c in after[to] <==> (to in before && c in before[to]) || Sends(a, to, c)))
  }

  lemma MapsNeedsTo(n: Naming, atts: seq<Attestation>, id: string, to: string, c: string)
    requires Maps(n, atts, id, to, c)
    ensures MapsTo(n, atts, id, to)
  {
    hide EdgeId;
  }

  lemma SamePending(n: Naming, atts: seq<Attestation>, a: Attestation, p: Pending, after: map<string, set<string>>)
    requires PendingFor(n, atts, EdgeId(n, a), p) && Extended(p.columns, a, after)
    ensures PendingFor(n, atts + [a], EdgeId(n, a), p.(evidence := p.evidence + {a.evidence}, columns := after))
  {
    var id := EdgeId(n, a);
    hide EdgeId, Claimed, EvidenceFor, MapsTo, Maps, Sends, SendsTo;
    ClaimedNext(n, atts, a, id, p.source, p.target, p.operation);
    EvidenceNext(n, atts, a, id);
    forall to ensures MapsTo(n, atts + [a], id, to) <==> MapsTo(n, atts, id, to) || SendsTo(a, to) { ColumnsNext(n, atts, a, id, to, ""); }
    forall to, c
      ensures Maps(n, atts + [a], id, to, c) <==> Maps(n, atts, id, to, c) || Sends(a, to, c)
      ensures Maps(n, atts, id, to, c) ==> MapsTo(n, atts, id, to)
    {
      ColumnsNext(n, atts, a, id, to, c);
      if Maps(n, atts, id, to, c) { MapsNeedsTo(n, atts, id, to, c); }
    }
  }

  lemma NewPending(n: Naming, atts: seq<Attestation>, a: Attestation, after: map<string, set<string>>)
    requires (forall x :: x in atts ==> EdgeId(n, x) != EdgeId(n, a)) && Extended(map[], a, after)
    ensures PendingFor(n, atts + [a], EdgeId(n, a), Pending(a.source, a.target, a.operation, {a.evidence}, after))
  {
    var id := EdgeId(n, a);
    assert EvidenceFor(n, atts, id) == {};
    assert forall to :: !MapsTo(n, atts, id, to);
    assert forall to, c :: !Maps(n, atts, id, to, c);
    hide EdgeId, Claimed, EvidenceFor, MapsTo, Maps, Sends, SendsTo;
    ClaimedNext(n, atts, a, id, a.source, a.target, a.operation);
    EvidenceNext(n, atts, a, id);
    forall to ensures MapsTo(n, atts + [a], id, to) <==> SendsTo(a, to) { ColumnsNext(n, atts, a, id, to, ""); }
    forall to, c ensures Maps(n, atts + [a], id, to, c) <==> Sends(a, to, c) { ColumnsNext(n, atts, a, id, to, c); }
  }

  method Absorb(n: Naming, ghost atts: seq<Attestation>, edges: map<string, Pending>, a: Attestation) returns (r: map<string, Pending>)
    requires AllPending(n, atts, edges)
    ensures AllPending(n, atts + [a], r)
  {
    hide PendingFor, EdgeId;
    var id := EdgeId(n, a);
    var known := id in edges;
    var p := if known then edges[id] else Pending(a.source, a.target, a.operation, {}, map[]);
    var columns := AddMappings(p.columns, a.columns);
    assert Extended(p.columns, a, columns);
    var q := p.(evidence := p.evidence + {a.evidence}, columns := columns);
    r := edges[id := q];
    if known {
      SamePending(n, atts, a, p, columns);
    } else {
      assert forall x :: x in atts ==> EdgeId(n, x) in edges;
      NewPending(n, atts, a, columns);
      assert q == Pending(a.source, a.target, a.operation, {a.evidence}, columns);
    }
    forall i | i in r ensures PendingFor(n, atts + [a], i, r[i]) {
      if i != id { OtherPending(n, atts, a, i, edges[i]); }
    }
  }

  // ---------------------------------------------------------------------------
  // Names

  ghost predicate AllMetas(atts: seq<Attestation>, metas: map<string, Meta>) {
    && (forall name :: name in metas <==> Endpoint(atts, name))
    && (forall name :: name in metas ==> metas[name] == FirstMeta(atts, name))
  }

  lemma {:induction false} StrangerIsExternal(atts: seq<Attestation>, name: string)
    requires !Endpoint(atts, name)
    ensures FirstMeta(atts, name) == EXTERNAL
  {
    if atts != [] {
      var front := atts[..|atts| - 1];
      assert atts[|atts| - 1] in atts;
      assert forall a :: a in front ==> a in atts;
      StrangerIsExternal(front, name);
    }
  }

  /** `setdefault` and the conditional update for one endpoint. */
  function Learn(metas: map<string, Meta>, name: string, claim: Option<Meta>): map<string, Meta> {
    metas[name := Improve(if name in metas then metas[name] else EXTERNAL, claim)]
  }

  lemma EndpointNext(atts: seq<Attestation>, a: Attestation, name: string)
    ensures Endpoint(atts + [a], name) <==> Endpoint(atts, name) || a.source == name || a.target == name
  {
    assert forall x :: x in atts + [a] <==> x in atts || x == a;
  }

  lemma MetaNext(atts: seq<Attestation>, a: Attestation, name: string)
    ensures FirstMeta(atts + [a], name) ==
              Improve(Improve(FirstMeta(atts, name), ClaimFor(name, a.source, a.sourceMeta)), ClaimFor(name, a.target, a.targetMeta))
  {
    assert (atts + [a])[..|atts|] == atts;
  }

  lemma Learned(atts: seq<Attestation>, metas: map<string, Meta>, a: Attestation)
    requires AllMetas(atts, metas)
    ensures AllMetas(atts + [a], Learn(Learn(metas, a.source, a.sourceMeta), a.target, a.targetMeta))
  {
    hide Endpoint, FirstMeta;
    var r := Learn(Learn(metas, a.source, a.sourceMeta), a.target, a.targetMeta);
    forall name ensures name in r <==> Endpoint(atts + [a], name) { EndpointNext(atts, a, name); }
    forall name | name in r ensures r[name] == FirstMeta(atts + [a], name) {
      MetaNext(atts, a, name);
      if name !in metas { StrangerIsExternal(atts, name); }
    }
  }

  // ---------------------------------------------------------------------------
  // The merge

  lemma EvidenceOrder()
    ensures TotalPreorder(EvidenceLe)
  {
    StrLeOrders();
    hide StrLe, TierRank;
    forall x, y ensures EvidenceLe(x, y) || EvidenceLe(y, x) {}
    forall x, y, z | EvidenceLe(x, y) && EvidenceLe(y, z) ensures EvidenceLe(x, z) {}
  }

  lemma TargetsSnoc(columns: seq<Mapping>, m: Mapping)
    ensures Targets(columns + [m]) == Targets(columns) + [m.to]
  {
    assert (columns + [m])[..|columns|] == columns;
  }

  lemma EdgeIdsSnoc(edges: seq<Edge>, e: Edge)
    ensures EdgeIds(edges + [e]) == EdgeIds(edges) + [e.id]
  {
    assert (edges + [e])[..|edges|] == edges;
  }

  lemma NodeIdsSnoc(nodes: seq<Node>, x: Node)
    ensures NodeIds(nodes + [x]) == NodeIds(nodes) + [x.id]
  {
    assert (nodes + [x])[..|nodes|] == nodes;
  }

  method FinishColumns(n: Naming, ghost atts: seq<Attestation>, ghost id: string, p: Pending) returns (columns: seq<Mapping>)
    requires PendingFor(n, atts, id, p)
    ensures IsColumns(n, atts, id, columns)
  {
    hide Claimed, EvidenceFor, MapsTo, Maps, StrLe, Sorted, Distinct, Targets;
    StrLeOrders();
    var tos := SortedSet(StrLe, p.columns.Keys);
    columns := [];
    NoTargets();
    for i := 0 to |tos|
      invariant Targets(columns) == tos[..i]
      invariant forall m :: m in columns ==> IsMapping(n, atts, id, m)
    {
      var to := tos[i];
      assert to in tos;
      var from := SortedSet(StrLe, p.columns[to]);
      var m := Mapping(from, to);
      assert IsMapping(n, atts, id, m);
      TargetsSnoc(columns, m);
      columns := columns + [m];
    }
    assert tos[..|tos|] == tos;
  }

  lemma NoTargets()
    ensures Targets([]) == [] && EdgeIds([]) == [] && NodeIds([]) == []
  {
  }

  method FinishEdge(n: Naming, ghost atts: seq<Attestation>, id: string, p: Pending) returns (e: Edge)
    requires PendingFor(n, atts, id, p)
    ensures IsEdge(n, atts, e) && e.id == id
  {
    EvidenceOrder();
    hide StrLe, EvidenceLe, Sorted, Distinct, MapsTo, Maps, IsColumns;
    var evidence := SortedSet(EvidenceLe, p.evidence);
    var columns := FinishColumns(n, atts, id, p);
    HasEvidence(n, atts, id, p.source, p.target, p.operation);
    assert IsEvidence(n, atts, id, evidence);
    assert evidence != [];
    e := Edge(id, p.source, p.target, p.operation, evidence, evidence[0].tier, columns);
  }

  lemma HasEvidence(n: Naming, atts: seq<Attestation>, id: string, s: string, t: string, o: string)
    requires Claimed(n, atts, id, s, t, o)
    ensures EvidenceFor(n, atts, id) != {}
  {
    hide EdgeId;
    var a :| a in atts && EdgeId(n, a) == id && a.source == s && a.target == t && a.operation == o;
    assert a.evidence in EvidenceFor(n, atts, id);
  }

  ghost predicate EdgesDone(n: Naming, atts: seq<Attestation>, edges: seq<Edge>) {
    forall e :: e in edges ==> IsEdge(n, atts, e)
  }

  method FinishEdges(n: Naming, ghost atts: seq<Attestation>, pending: map<string, Pending>) returns (edges: seq<Edge>)
    requires AllPending(n, atts, pending)
    ensures Sorted(StrLe, EdgeIds(edges)) && Distinct(EdgeIds(edges)) && EdgesDone(n, atts, edges)
    ensures forall a :: a in atts ==> EdgeId(n, a) in EdgeIds(edges)
  {
    hide PendingFor, IsEdge, StrLe, EdgeId, Sorted, Distinct, EdgeIds;
    StrLeOrders();
    var ids := SortedSet(StrLe, pending.Keys);
    edges := [];
    NoTargets();
    for i := 0 to |ids|
      invariant EdgeIds(edges) == ids[..i] && EdgesDone(n, atts, edges)
    {
      assert ids[i] in ids;
      var e := FinishEdge(n, atts, ids[i], pending[ids[i]]);
      EdgeIdsSnoc(edges, e);
      edges := edges + [e];
    }
    assert ids[..|ids|] == ids;
  }

  method FinishNodes(n: Naming, ghost atts: seq<Attestation>, metas: map<string, Meta>) returns (nodes: seq<Node>)
    requires AllMetas(atts, metas)
    ensures Sorted(StrLe, NodeIds(nodes)) && Distinct(NodeIds(nodes))
    ensures forall name :: name in NodeIds(nodes) <==> Endpoint(atts, name)
    ensures forall x :: x in nodes ==> x == NodeOf(n, x.id, FirstMeta(atts, x.id))
  {
    hide StrLe, Sorted, Distinct, NodeIds, Endpoint, FirstMeta;
    StrLeOrders();
    var names := SortedSet(StrLe, metas.Keys);
    nodes := [];
    NoTargets();
    for i := 0 to |names|
      invariant NodeIds(nodes) == names[..i]
      invariant forall x :: x in nodes ==> x == NodeOf(n, x.id, FirstMeta(atts, x.id))
    {
      assert names[i] in names;
      var x := NodeOf(n, names[i], metas[names[i]]);
      NodeIdsSnoc(nodes, x);
      nodes := nodes + [x];
    }
    assert names[..|names|] == names;
  }

  predicate Admissible(a: Attestation) {
    a.operation in OPERATIONS && a.evidence.tier in TIERS
  }

  datatype MergeResult = Merged(graph: Graph) | Rejected(attestation: Attestation)

  method MergeAttestations(n: Naming, atts: seq<Attestation>) returns (r: MergeResult)
    ensures r.Rejected? <==> exists a :: a in atts && !Admissible(a)
    ensures r.Merged? ==> IsMerge(n, atts, r.graph)
    ensures r.Merged? ==> forall e :: e in r.graph.edges ==> TrustsStrongest(n, atts, e) && StrongestFirst(e.evidence)
  {
    hide Admissible, AllPending, EdgeId, TrustsStrongest, StrongestFirst;
    var pending: map<string, Pending>, metas: map<string, Meta> := map[], map[];
    NothingYet(n);
    hide AllMetas;
    for i := 0 to |atts|
      invariant AllPending(n, atts[..i], pending) && AllMetas(atts[..i], metas)
      invariant forall k :: 0 <= k < i ==> Admissible(atts[k])
    {
      var a := atts[i];
      if !Admissible(a) { return Rejected(a); }
      assert atts[..i + 1] == atts[..i] + [a];
      pending := Absorb(n, atts[..i], pending, a);
      Learned(atts[..i], metas, a);
      metas := Learn(Learn(metas, a.source, a.sourceMeta), a.target, a.targetMeta);
    }
    assert atts[..|atts|] == atts;
    var nodes := FinishNodes(n, atts, metas);
    var edges := FinishEdges(n, atts, pending);
    r := Merged(Graph(nodes, edges));
    hide IsEdge;
    forall e | e in edges ensures TrustsStrongest(n, atts, e) && StrongestFirst(e.evidence) {
      TrustIsStrongest(n, atts, e);
    }
  }

  lemma EvidenceTiers(n: Naming, atts: seq<Attestation>, e: Edge)
    requires IsEdge(n, atts, e) && forall a :: a in atts ==> Admissible(a)
    ensures forall x :: x in e.evidence ==> x.tier in TIERS && Attested(n, atts, e.id, x.tier)
    ensures forall tier :: Attested(n, atts, e.id, tier) ==> exists x :: x in e.evidence && x.tier == tier
  {
    hide EdgeId, EvidenceLe, IsColumns, Claimed;
    forall tier | Attested(n, atts, e.id, tier) ensures exists x :: x in e.evidence && x.tier == tier {
      var a :| a in atts && EdgeId(n, a) == e.id && a.evidence.tier == tier;
      assert a.evidence in EvidenceFor(n, atts, e.id);
    }
  }

  lemma OrderedByName(a: Evidence, b: Evidence)
    requires a.tier in TIERS && b.tier in TIERS && EvidenceLe(a, b)
    ensures b.tier == "pipeline-tool" ==> a.tier == "pipeline-tool"
    ensures a.tier == "human" ==> b.tier == "human"
    ensures a.tier == b.tier ==> StrLe(a.ref, b.ref)
  {
    hide StrLe;
  }

  /** The trust of an edge and the order of its evidence, by the names of the tiers. */
  lemma TrustIsStrongest(n: Naming, atts: seq<Attestation>, e: Edge)
    requires IsEdge(n, atts, e) && forall a :: a in atts ==> Admissible(a)
    ensures TrustsStrongest(n, atts, e) && StrongestFirst(e.evidence)
  {
    EvidenceTiers(n, atts, e);
    hide EdgeId, EvidenceLe, IsColumns, Claimed, Admissible, EvidenceFor, StrLe, Attested;
    forall i, j | 0 <= i < j < |e.evidence|
      ensures (e.evidence[j].tier == "pipeline-tool" ==> e.evidence[i].tier == "pipeline-tool")
      ensures e.evidence[i].tier == "human" ==> e.evidence[j].tier == "human"
      ensures e.evidence[i].tier == e.evidence[j].tier ==> StrLe(e.evidence[i].ref, e.evidence[j].ref)
    {
      assert e.evidence[i] in e.evidence && e.evidence[j] in e.evidence;
      OrderedByName(e.evidence[i], e.evidence[j]);
    }
    assert e.evidence[0] in e.evidence;
    FirstTier(e.evidence);
  }

  lemma FirstTier(evidence: seq<Evidence>)
    requires evidence != [] && StrongestFirst(evidence)
    ensures (exists x :: x in evidence && x.tier == "pipeline-tool") ==> evidence[0].tier == "pipeline-tool"
    ensures evidence[0].tier == "human" ==> forall x :: x in evidence ==> x.tier == "human"
  {
    hide StrLe;
  }

  lemma NothingYet(n: Naming)
    ensures AllPending(n, [], map[]) && AllMetas([], map[])
  {
  }
}
