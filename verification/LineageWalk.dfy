/** `lineage/walk.py`: the depth-bounded walk and its result document. */
module LineageWalk {
  import opened Basics
  import opened LineageGraph
  import opened Search
  import opened Ordering
  import opened LineageCycles

  function HopsOr(depths: map<string, nat>, n: string, d: nat): nat {
    if n in depths then depths[n] else d
  }

  /** The depths dictionary after a walk that gives every `n` in `hops` its hop count. */
  ghost predicate Folded(before: map<string, nat>, hops: map<string, nat>, after: map<string, nat>)
  {
    && after.Keys == before.Keys + hops.Keys
    && (forall n :: n in hops ==> after[n] == Min(HopsOr(before, n, hops[n]), hops[n]))
    && (forall n :: n in before && n !in hops ==> after[n] == before[n])
  }

  /** The edge dictionary after a walk over `crossed`: later edges replace earlier ones of the same id. */
  ghost predicate Collected(before: map<string, Edge>, crossed: iset<Edge>, after: map<string, Edge>)
  {
    && (forall id :: id in before ==> id in after)
    && (forall e :: e in crossed ==> e.id in after)
    && (forall id :: id in after ==>
         (id in before && after[id] == before[id]) || (after[id] in crossed && after[id].id == id))
  }

  ghost function Lengths(via: Via): map<string, nat> {
    map n | n in via :: |via[n]|
  }

  /** Edges whose near end was reached strictly inside the bound. */
  ghost function Crossed(es: seq<Edge>, w: Walk, bound: Option<nat>, hops: map<string, nat>): iset<Edge> {
    iset e | e in es && Near(w, e) in hops && Inside(bound, hops[Near(w, e)])
  }

  /** The four collections `_bfs` updates. */
  datatype State = State(
    visited: set<string>, depths: map<string, nat>, edges: map<string, Edge>, queue: seq<(string, nat)>)

  /** The search history behind a state: first paths, queued nodes, edges crossed. */
  ghost predicate Reflects(s: State, start: State, es: seq<Edge>, root: string, via: Via, q: seq<string>, crossed: iset<Edge>)
  {
    && s.visited == via.Keys && s.visited <= Universe(es, root)
    && QueueOf(s.queue, via, q)
    && Folded(start.depths, Lengths(via), s.depths)
    && Collected(start.edges, crossed, s.edges)
  }

  /** One turn of the inner loop: look at `edge`, which leaves a node at depth `d`. */
  function Look(s: State, w: Walk, edge: Edge, d: nat): State
  {
    var seen := s.(edges := s.edges[edge.id := edge]);
    var neighbor := Far(w, edge);
    if neighbor in s.visited then
      seen
    else
      seen.(visited := s.visited + {neighbor},
            depths := s.depths[neighbor := Min(HopsOr(s.depths, neighbor, d + 1), d + 1)],
            queue := s.queue + [(neighbor, d + 1)])
  }

  lemma LookAgain(s: State, start: State, es: seq<Edge>, root: string, via: Via, q: seq<string>, crossed: iset<Edge>,
                  w: Walk, edge: Edge, d: nat)
    requires Reflects(s, start, es, root, via, q, crossed) && Far(w, edge) in via
    ensures Reflects(Look(s, w, edge, d), start, es, root, via, q, crossed + iset{edge})
  {
    hide Folded, Lengths, QueueOf, Universe, Collected;
    LookCollected(start.edges, crossed, s.edges, edge);
  }

  lemma LookFolded(before: map<string, nat>, via: Via, depths: map<string, nat>, n: string, p: seq<Edge>)
    requires Folded(before, Lengths(via), depths) && n !in via
    ensures Folded(before, Lengths(via[n := p]), depths[n := Min(HopsOr(depths, n, |p|), |p|)])
  {
    assert Lengths(via[n := p]) == Lengths(via)[n := |p|];
  }

  lemma LookNew(s: State, start: State, es: seq<Edge>, root: string, via: Via, q: seq<string>, crossed: iset<Edge>,
                w: Walk, edge: Edge, u: string)
    requires Reflects(s, start, es, root, via, q, crossed) && Far(w, edge) !in via
    requires edge in es && u in via
    ensures Reflects(Look(s, w, edge, |via[u]|), start, es, root,
                     via[Far(w, edge) := via[u] + [edge]], q + [Far(w, edge)], crossed + iset{edge})
  {
    hide Folded, Lengths, Collected;
    var n := Far(w, edge);
    LookFolded(start.depths, via, s.depths, n, via[u] + [edge]);
    LookCollected(start.edges, crossed, s.edges, edge);
  }

  lemma LookCollected(before: map<string, Edge>, crossed: iset<Edge>, edges: map<string, Edge>, edge: Edge)
    requires Collected(before, crossed, edges)
    ensures Collected(before, crossed + iset{edge}, edges[edge.id := edge])
  {
  }

  lemma LookDoes(es: seq<Edge>, w: Walk, bound: Option<nat>, via: Via, q: seq<string>, crossed: iset<Edge>,
                 u: string, out: seq<Edge>, edge: Edge)
    requires Doing(es, w, bound, via, q, crossed, u, out)
    requires u in via && edge in es && Near(w, edge) == u && Inside(bound, |via[u]|)
    ensures Far(w, edge) in via ==> Doing(es, w, bound, via, q, crossed + iset{edge}, u, out + [edge])
    ensures Far(w, edge) !in via ==>
              Doing(es, w, bound, via[Far(w, edge) := via[u] + [edge]], q + [Far(w, edge)], crossed + iset{edge}, u, out + [edge])
  {
    var n := Far(w, edge);
    assert forall x :: x in q + [n] <==> x in q || x == n;
  }

  /** The inner loop: look at every edge that leaves `u`. */
  method Expand(s0: State, out: seq<Edge>, w: Walk, d: nat, ghost start: State, ghost es: seq<Edge>, ghost root: string,
                ghost bound: Option<nat>, ghost u: string, ghost via0: Via, ghost q0: seq<string>, ghost crossed0: iset<Edge>)
    returns (s: State, ghost via: Via, ghost q: seq<string>, ghost crossed: iset<Edge>)
    requires Reflects(s0, start, es, root, via0, q0, crossed0)
    requires Expanding(es, w, bound, root, via0, q0, u, []) && Doing(es, w, bound, via0, q0, crossed0, u, [])
    requires u in via0 && s0.visited == via0.Keys
    requires out == Leaving(es, w, u) && d == |via0[u]| && Inside(bound, d)
    ensures Reflects(s, start, es, root, via, q, crossed)
    ensures Expanding(es, w, bound, root, via, q, u, out) && Doing(es, w, bound, via, q, crossed, u, out)
    ensures u in via && |via[u]| == d
    ensures s0.visited <= s.visited && (s0.visited == s.visited ==> s.queue == s0.queue)
  {
    hide Reflects, Expanding, Doing, Leaving;
    s, via, q, crossed := s0, via0, q0, crossed0;
    for i := 0 to |out|
      invariant Reflects(s, start, es, root, via, q, crossed)
      invariant Expanding(es, w, bound, root, via, q, u, out[..i])
      invariant Doing(es, w, bound, via, q, crossed, u, out[..i])
      invariant u in via && |via[u]| == d && s.visited == via.Keys
      invariant s0.visited <= s.visited && (s0.visited == s.visited ==> s.queue == s0.queue)
    {
      var edge := out[i];
      assert edge in out && out[..i + 1] == out[..i] + [edge];
      LookDoes(es, w, bound, via, q, crossed, u, out[..i], edge);
      if Far(w, edge) in s.visited {
        Known(es, w, bound, root, via, q, u, out[..i], edge);
        LookAgain(s, start, es, root, via, q, crossed, w, edge, d);
      } else {
        Discover(es, w, bound, root, via, q, u, out[..i], edge);
        LookNew(s, start, es, root, via, q, crossed, w, edge, u);
        via, q := via[Far(w, edge) := via[u] + [edge]], q + [Far(w, edge)];
      }
      crossed := crossed + iset{edge};
      s := Look(s, w, edge, d);
    }
    assert out[..|out|] == out;
  }

  lemma StartReflects(es: seq<Edge>, root: string, depths0: map<string, nat>, edges0: map<string, Edge>)
    ensures Reflects(
      State({root}, depths0[root := Min(HopsOr(depths0, root, 0), 0)], edges0, [(root, 0)]),
      State({}, depths0, edges0, []), es, root, map[root := []], [root], iset{})
  {
    assert Lengths(map[root := []]) == map[root := 0];
  }

  lemma PopReflects(s: State, start: State, es: seq<Edge>, root: string, via: Via, q: seq<string>, crossed: iset<Edge>)
    requires Reflects(s, start, es, root, via, q, crossed)
    ensures |q| == |s.queue| && s.visited == via.Keys && s.visited <= Universe(es, root)
    ensures q != [] ==>
              && q[0] in via && s.queue[0] == (q[0], |via[q[0]]|)
              && Reflects(s.(queue := s.queue[1..]), start, es, root, via, q[1..], crossed)
  {
    hide Folded, Collected, Lengths, Universe;
  }

  lemma PopDone(es: seq<Edge>, w: Walk, bound: Option<nat>, via: Via, q: seq<string>, crossed: iset<Edge>)
    requires Done(es, w, bound, via, q, crossed) && q != []
    ensures Doing(es, w, bound, via, q[1..], crossed, q[0], [])
  {
    assert forall v :: v in q <==> v == q[0] || v in q[1..];
  }

  lemma FinishDone(es: seq<Edge>, w: Walk, bound: Option<nat>, via: Via, q: seq<string>, crossed: iset<Edge>,
                   u: string, out: seq<Edge>)
    requires Doing(es, w, bound, via, q, crossed, u, out) && u in via
    requires out == Leaving(es, w, u) || !Inside(bound, |via[u]|)
    ensures Done(es, w, bound, via, q, crossed)
  {
  }

  lemma AllCrossed(es: seq<Edge>, w: Walk, bound: Option<nat>, via: Via, crossed: iset<Edge>)
    requires Done(es, w, bound, via, [], crossed)
    ensures crossed == Crossed(es, w, bound, Lengths(via))
  {
  }

  /** One turn of the outer loop: the first queued node is taken and, inside the bound, expanded. */
  method Turn(s0: State, adjacency: map<string, seq<Edge>>, w: Walk, bound: Option<nat>, ghost start: State, ghost es: seq<Edge>,
              ghost root: string, ghost via0: Via, ghost q0: seq<string>, ghost crossed0: iset<Edge>)
    returns (s: State, ghost via: Via, ghost q: seq<string>, ghost crossed: iset<Edge>)
    requires forall n :: Neighbors(adjacency, n) == Leaving(es, w, n)
    requires s0.queue != [] && |q0| == |s0.queue| && Reflects(s0, start, es, root, via0, q0, crossed0)
    requires Frontier(es, w, bound, root, via0, q0) && Done(es, w, bound, via0, q0, crossed0)
    ensures Reflects(s, start, es, root, via, q, crossed) && |q| == |s.queue|
    ensures Frontier(es, w, bound, root, via, q) && Done(es, w, bound, via, q, crossed)
    ensures |Universe(es, root) - s.visited| < |Universe(es, root) - s0.visited| || (s.visited == s0.visited && |s.queue| < |s0.queue|)
  {
    hide Reflects, Frontier, Expanding, Done, Doing, Universe, Leaving;
    PopReflects(s0, start, es, root, via0, q0, crossed0);
    PopDone(es, w, bound, via0, q0, crossed0);
    Dequeue(es, w, bound, root, via0, q0);
    var (fqn, d) := s0.queue[0];
    s, via, q, crossed := s0.(queue := s0.queue[1..]), via0, q0[1..], crossed0;
    ghost var out: seq<Edge> := [];
    if !(bound.Some? && d >= bound.value) {
      s, via, q, crossed := Expand(s, Neighbors(adjacency, fqn), w, d, start, es, root, bound, fqn, via, q, crossed);
      out := Neighbors(adjacency, fqn);
      PopReflects(s, start, es, root, via, q, crossed);
      if s0.visited != s.visited { Shrinks(Universe(es, root), s0.visited, s.visited); }
    }
    Finish(es, w, bound, root, via, q, fqn, out);
    FinishDone(es, w, bound, via, q, crossed, fqn, out);
  }

  /** What one search adds to the two dictionaries it is handed. */
  method Bfs(es: seq<Edge>, root: string, adjacency: map<string, seq<Edge>>, w: Walk, bound: Option<nat>,
             depths0: map<string, nat>, edges0: map<string, Edge>)
    returns (depths: map<string, nat>, edges: map<string, Edge>, ghost hops: map<string, nat>)
    requires forall n :: Neighbors(adjacency, n) == Leaving(es, w, n)
    ensures forall n :: n in hops <==> Reachable(es, w, bound, root, n)
    ensures forall n :: n in hops ==> MinHops(es, w, root, n, hops[n])
    ensures Folded(depths0, hops, depths)
    ensures Collected(edges0, Crossed(es, w, bound, hops), edges)
  {
    hide Reflects, Frontier, Done, Universe, Leaving, Reachable, MinHops, Folded, Collected, Lengths, Neighbors;
    ghost var start := State({}, depths0, edges0, []);
    var s := State({root}, depths0[root := Min(HopsOr(depths0, root, 0), 0)], edges0, [(root, 0)]);
    ghost var via, q := map[root := []], [root];
    ghost var crossed: iset<Edge> := iset{};
    Start(es, w, bound, root);
    StartReflects(es, root, depths0, edges0);
    StartDone(es, w, bound, root);
    PopReflects(s, start, es, root, via, q, crossed);
    while s.queue != []
      invariant Reflects(s, start, es, root, via, q, crossed) && |q| == |s.queue|
      invariant Frontier(es, w, bound, root, via, q)
      invariant Done(es, w, bound, via, q, crossed)
      decreases |Universe(es, root) - s.visited|, |s.queue|
    {
      s, via, q, crossed := Turn(s, adjacency, w, bound, start, es, root, via, q, crossed);
    }
    hops := Lengths(via);
    depths, edges := s.depths, s.edges;
    WalkDone(es, w, bound, root, s, start, via, q, crossed);
  }

  /** What an empty queue means. */
  lemma WalkDone(es: seq<Edge>, w: Walk, bound: Option<nat>, root: string, s: State, start: State, via: Via, q: seq<string>, crossed: iset<Edge>)
    requires q == [] && Reflects(s, start, es, root, via, q, crossed) && Frontier(es, w, bound, root, via, q) && Done(es, w, bound, via, q, crossed)
    ensures forall n :: n in Lengths(via) <==> Reachable(es, w, bound, root, n)
    ensures forall n :: n in Lengths(via) ==> MinHops(es, w, root, n, Lengths(via)[n])
    ensures Folded(start.depths, Lengths(via), s.depths) && Collected(start.edges, Crossed(es, w, bound, Lengths(via)), s.edges)
  {
    Exact(es, w, bound, root, via);
    AllCrossed(es, w, bound, via, crossed);
    ReflectsMaps(s, start, es, root, via, q, crossed);
    hide Reflects, Frontier, Done, Reachable, MinHops, Folded, Collected;
  }


  lemma StartDone(es: seq<Edge>, w: Walk, bound: Option<nat>, root: string)
    ensures Done(es, w, bound, map[root := []], [root], iset{})
  {
  }

  lemma ReflectsMaps(s: State, start: State, es: seq<Edge>, root: string, via: Via, q: seq<string>, crossed: iset<Edge>)
    requires Reflects(s, start, es, root, via, q, crossed)
    ensures Folded(start.depths, Lengths(via), s.depths) && Collected(start.edges, crossed, s.edges)
  {
  }

  ghost predicate QueueOf(queue: seq<(string, nat)>, via: Via, q: seq<string>)
  {
    |queue| == |q| && forall k :: 0 <= k < |q| ==> q[k] in via && queue[k] == (q[k], |via[q[k]]|)
  }

  /** The crossed edges are those of the expanded nodes inside the bound. */
  ghost predicate Done(es: seq<Edge>, w: Walk, bound: Option<nat>, via: Via, q: seq<string>, crossed: iset<Edge>)
  {
    && crossed <= Crossed(es, w, bound, Lengths(via))
    && forall e :: e in Crossed(es, w, bound, Lengths(via)) && Near(w, e) !in q ==> e in crossed
  }

  ghost predicate Doing(es: seq<Edge>, w: Walk, bound: Option<nat>, via: Via, q: seq<string>, crossed: iset<Edge>,
                        u: string, out: seq<Edge>)
  {
    && crossed <= Crossed(es, w, bound, Lengths(via))
    && (forall e :: e in out ==> e in crossed)
    && forall e :: e in Crossed(es, w, bound, Lengths(via)) && Near(w, e) !in q && Near(w, e) != u ==> e in crossed
  }

  // ---------------------------------------------------------------------------
  // get_lineage

  /** Node dictionary by id; a later node replaces an earlier one. */
  function NodeTable(nodes: seq<Node>): (r: map<string, Node>)
    ensures forall id :: id in r ==> r[id] in nodes && r[id].id == id
    ensures forall n :: n in nodes ==> n.id in r
  {
    if nodes == [] then
      map[]
    else
      var last := nodes[|nodes| - 1];
      assert nodes == nodes[..|nodes| - 1] + [last];
      NodeTable(nodes[..|nodes| - 1])[last.id := last]
  }

  /** Of several nodes with one id the last one is kept. */
  lemma {:induction false} LastNodeKept(nodes: seq<Node>, i: nat)
    requires i < |nodes| && forall j :: i < j < |nodes| ==> nodes[j].id != nodes[i].id
    ensures nodes[i].id in NodeTable(nodes) && NodeTable(nodes)[nodes[i].id] == nodes[i]
  {
    if i < |nodes| - 1 { LastNodeKept(nodes[..|nodes| - 1], i); }
  }

  function Walks(direction: string): set<Walk> {
    if direction == "both" then {Upstream, Downstream}
    else if direction == "upstream" then {Upstream}
    else if direction == "downstream" then {Downstream}
    else {}
  }

  datatype Lineage = Lineage(
    root: string, direction: string, depth: Option<int>,
    nodes: seq<(Node, nat)>, edges: seq<Edge>, cycles: seq<string>)

  datatype Outcome = Found(lineage: Lineage) | BadDirection | BadDepth | UnknownNode(id: string)

  /** `p` is a flow of data into `root` (upstream) or out of it (downstream), with `n` at the other end. */
  ghost predicate Leads(es: seq<Edge>, direction: string, root: string, p: seq<Edge>, n: string)
  {
    || (direction in {"upstream", "both"} && Flow(es, n, p, root))
    || (direction in {"downstream", "both"} && Flow(es, root, p, n))
  }

  /** `d` is the length of the shortest flow between `root` and `n` in the requested direction, and it is in bound. */
  ghost predicate AtDepth(es: seq<Edge>, direction: string, bound: Option<nat>, root: string, n: string, d: nat)
  {
    && Within(bound, d)
    && (exists p :: Leads(es, direction, root, p, n) && |p| == d)
    && (forall p :: Leads(es, direction, root, p, n) ==> d <= |p|)
  }

  /** The flow `p` between `root` and the nearer end of `e`: its target upstream, its source downstream. */
  ghost predicate LeadsTo(es: seq<Edge>, direction: string, root: string, p: seq<Edge>, e: Edge)
  {
    || (direction in {"upstream", "both"} && Flow(es, e.target, p, root))
    || (direction in {"downstream", "both"} && Flow(es, root, p, e.source))
  }

  /** The nearer end of `e` is strictly inside the bound. */
  ghost predicate CrossedBy(es: seq<Edge>, direction: string, bound: Option<nat>, root: string, e: Edge)
  {
    e in es && exists p :: LeadsTo(es, direction, root, p, e) && Inside(bound, |p|)
  }

  /** Upstream and downstream are one relation read from its two ends. */
  lemma DepthMirrors(es: seq<Edge>, bound: Option<nat>, r: string, n: string, d: nat)
    ensures AtDepth(es, "upstream", bound, r, n, d) <==> AtDepth(es, "downstream", bound, n, r, d)
  {
    hide Flow;
    assert forall p :: Leads(es, "upstream", r, p, n) <==> Leads(es, "downstream", n, p, r);
  }

  /** Every walk is such a flow. */
  lemma WalkLeads(es: seq<Edge>, direction: string, root: string, w: Walk, p: seq<Edge>, n: string) returns (q: seq<Edge>)
    requires w in Walks(direction) && IsPath(es, w, root, p, n)
    ensures |q| == |p| && (if w == Upstream then Flow(es, n, q, root) else Flow(es, root, q, n)) && Leads(es, direction, root, q, n)
  {
    hide IsPath, Flow;
    if w == Upstream {
      UpstreamIsFlow(es, root, p, n);
      q := Backwards(p);
    } else {
      DownstreamIsFlow(es, root, p, n);
      q := p;
    }
  }

  lemma FlowWalks(es: seq<Edge>, root: string, w: Walk, q: seq<Edge>, n: string) returns (p: seq<Edge>)
    requires if w == Upstream then Flow(es, n, q, root) else Flow(es, root, q, n)
    ensures |p| == |q| && IsPath(es, w, root, p, n)
  {
    hide IsPath, Flow;
    if w == Upstream {
      BackwardsTwice(q);
      UpstreamIsFlow(es, root, Backwards(q), n);
      p := Backwards(q);
    } else {
      DownstreamIsFlow(es, root, q, n);
      p := q;
    }
  }

  /** Every such flow is a walk. */
  lemma LeadWalks(es: seq<Edge>, direction: string, root: string, q: seq<Edge>, n: string) returns (w: Walk, p: seq<Edge>)
    requires Leads(es, direction, root, q, n)
    ensures w in Walks(direction) && |p| == |q| && IsPath(es, w, root, p, n)
  {
    hide IsPath, Flow;
    w := if direction in {"upstream", "both"} && Flow(es, n, q, root) then Upstream else Downstream;
    p := FlowWalks(es, root, w, q, n);
  }

  lemma CrossedWalks(es: seq<Edge>, direction: string, root: string, q: seq<Edge>, e: Edge) returns (w: Walk, p: seq<Edge>)
    requires LeadsTo(es, direction, root, q, e)
    ensures w in Walks(direction) && |p| == |q| && IsPath(es, w, root, p, Near(w, e))
  {
    hide IsPath, Flow;
    w := if direction in {"upstream", "both"} && Flow(es, e.target, q, root) then Upstream else Downstream;
    p := FlowWalks(es, root, w, q, Near(w, e));
  }

  lemma WalkCrosses(es: seq<Edge>, direction: string, bound: Option<nat>, root: string, w: Walk, p: seq<Edge>, e: Edge)
    requires e in es && w in Walks(direction) && IsPath(es, w, root, p, Near(w, e)) && Inside(bound, |p|)
    ensures CrossedBy(es, direction, bound, root, e)
  {
    hide IsPath, Flow;
    var q := WalkLeads(es, direction, root, w, p, Near(w, e));
    assert LeadsTo(es, direction, root, q, e);
  }

  predicate HopLe(a: (string, nat), b: (string, nat)) {
    a.1 < b.1 || (a.1 == b.1 && StrLe(a.0, b.0))
  }

  lemma HopLeOrders()
    ensures TotalPreorder(HopLe)
  {
    StrLeOrders();
  }

  /** The depth dictionary holds exactly the nodes in bound at their least depth. */
  ghost predicate DepthsExact(es: seq<Edge>, direction: string, bound: Option<nat>, root: string, depths: map<string, nat>)
  {
    forall n, d :: (n in depths && depths[n] == d) <==> AtDepth(es, direction, bound, root, n, d)
  }

  ghost predicate EdgesExact(es: seq<Edge>, direction: string, bound: Option<nat>, root: string, edges: map<string, Edge>)
  {
    && (forall id :: id in edges ==> edges[id].id == id && CrossedBy(es, direction, bound, root, edges[id]))
    && (forall e :: CrossedBy(es, direction, bound, root, e) ==> e.id in edges)
  }

  /** What `Bfs` establishes about the hop map of one walk. */
  ghost predicate HopsExact(es: seq<Edge>, w: Walk, bound: Option<nat>, root: string, hops: map<string, nat>)
  {
    && (forall n :: n in hops <==> Reachable(es, w, bound, root, n))
    && (forall n :: n in hops ==> MinHops(es, w, root, n, hops[n]))
  }

  lemma HopsInBound(es: seq<Edge>, w: Walk, bound: Option<nat>, root: string, hops: map<string, nat>, n: string)
    requires HopsExact(es, w, bound, root, hops) && n in hops
    ensures Within(bound, hops[n])
  {
    var p :| IsPath(es, w, root, p, n) && Within(bound, |p|);
  }

  lemma OneWalkDepth(es: seq<Edge>, w: Walk, direction: string, bound: Option<nat>, root: string,
                     hops: map<string, nat>, n: string, d: nat)
    requires HopsExact(es, w, bound, root, hops) && Walks(direction) == {w}
    ensures n in hops && hops[n] == d <==> AtDepth(es, direction, bound, root, n, d)
  {
    hide IsPath, Leads, HopsExact;
    var best := HopsLeast(es, w, bound, root, hops, n);
    if n in hops && hops[n] == d {
      var r := WalkLeads(es, direction, root, w, best, n);
      forall q | Leads(es, direction, root, q, n) ensures d <= |q| {
        var v, p := LeadWalks(es, direction, root, q, n);
      }
    }
    if AtDepth(es, direction, bound, root, n, d) {
      var q :| Leads(es, direction, root, q, n) && |q| == d;
      var v, p := LeadWalks(es, direction, root, q, n);
      var r := WalkLeads(es, direction, root, w, best, n);
    }
  }

  /** Some path realizes the recorded hop count, and no path beats it. */
  lemma HopsLeast(es: seq<Edge>, w: Walk, bound: Option<nat>, root: string, hops: map<string, nat>, n: string)
    returns (p: seq<Edge>)
    requires HopsExact(es, w, bound, root, hops)
    ensures n in hops ==> IsPath(es, w, root, p, n) && |p| == hops[n] && Within(bound, |p|)
    ensures forall q :: IsPath(es, w, root, q, n) && Within(bound, |q|) ==> n in hops && hops[n] <= |q|
  {
    p := [];
    if n in hops {
      p :| IsPath(es, w, root, p, n) && |p| == hops[n];
      HopsInBound(es, w, bound, root, hops, n);
    }
    forall q | IsPath(es, w, root, q, n) && Within(bound, |q|) ensures n in hops && hops[n] <= |q| {
      assert Reachable(es, w, bound, root, n);
    }
  }

  lemma TwoWalkDepth(es: seq<Edge>, bound: Option<nat>, root: string, up: map<string, nat>, down: map<string, nat>,
                     depths: map<string, nat>, n: string, d: nat)
    requires HopsExact(es, Upstream, bound, root, up) && HopsExact(es, Downstream, bound, root, down)
    requires Folded(up, down, depths)
    ensures n in depths && depths[n] == d <==> AtDepth(es, "both", bound, root, n, d)
  {
    hide HopsExact, IsPath, Leads;
    var p := HopsLeast(es, Upstream, bound, root, up, n);
    var q := HopsLeast(es, Downstream, bound, root, down, n);
    assert Walks("both") == {Upstream, Downstream};
    if n in up { var r := WalkLeads(es, "both", root, Upstream, p, n); }
    if n in down { var r := WalkLeads(es, "both", root, Downstream, q, n); }
    if n in depths && depths[n] == d {
      forall r | Leads(es, "both", root, r, n) ensures d <= |r| {
        var w, x := LeadWalks(es, "both", root, r, n);
      }
    }
    if AtDepth(es, "both", bound, root, n, d) {
      var r :| Leads(es, "both", root, r, n) && |r| == d;
      var w, x := LeadWalks(es, "both", root, r, n);
      assert n in up ==> d <= up[n];
      assert n in down ==> d <= down[n];
    }
  }

  lemma CrossedIff(es: seq<Edge>, w: Walk, bound: Option<nat>, root: string, hops: map<string, nat>, e: Edge)
    requires HopsExact(es, w, bound, root, hops)
    ensures e in Crossed(es, w, bound, hops) <==>
              e in es && exists p :: IsPath(es, w, root, p, Near(w, e)) && Inside(bound, |p|)
  {
    if e in es && exists p :: IsPath(es, w, root, p, Near(w, e)) && Inside(bound, |p|) {
      var p :| IsPath(es, w, root, p, Near(w, e)) && Inside(bound, |p|);
      assert Reachable(es, w, bound, root, Near(w, e));
    }
  }

  lemma OneWalk(es: seq<Edge>, w: Walk, direction: string, bound: Option<nat>, root: string, hops: map<string, nat>)
    requires HopsExact(es, w, bound, root, hops) && Walks(direction) == {w}
    ensures DepthsExact(es, direction, bound, root, hops)
    ensures forall e :: e in Crossed(es, w, bound, hops) <==> CrossedBy(es, direction, bound, root, e)
  {
    hide IsPath, AtDepth, Crossed, HopsExact, LeadsTo;
    forall n, d ensures n in hops && hops[n] == d <==> AtDepth(es, direction, bound, root, n, d) {
      OneWalkDepth(es, w, direction, bound, root, hops, n, d);
    }
    forall e ensures e in Crossed(es, w, bound, hops) <==> CrossedBy(es, direction, bound, root, e) {
      CrossedIff(es, w, bound, root, hops, e);
      if e in Crossed(es, w, bound, hops) {
        var p :| IsPath(es, w, root, p, Near(w, e)) && Inside(bound, |p|);
        WalkCrosses(es, direction, bound, root, w, p, e);
      }
      if CrossedBy(es, direction, bound, root, e) {
        var q :| LeadsTo(es, direction, root, q, e) && Inside(bound, |q|);
        var v, p := CrossedWalks(es, direction, root, q, e);
      }
    }
  }

  lemma TwoWalks(es: seq<Edge>, bound: Option<nat>, root: string, up: map<string, nat>, down: map<string, nat>,
                 depths: map<string, nat>)
    requires HopsExact(es, Upstream, bound, root, up) && HopsExact(es, Downstream, bound, root, down)
    requires Folded(up, down, depths)
    ensures DepthsExact(es, "both", bound, root, depths)
  {
    hide IsPath, AtDepth, HopsExact, Folded;
    forall n, d ensures n in depths && depths[n] == d <==> AtDepth(es, "both", bound, root, n, d) {
      TwoWalkDepth(es, bound, root, up, down, depths, n, d);
    }
  }

  lemma FoldedFresh(hops: map<string, nat>, depths: map<string, nat>)
    requires Folded(map[], hops, depths)
    ensures depths == hops
  {
  }

  lemma CollectedOnce(es: seq<Edge>, direction: string, bound: Option<nat>, root: string, crossed: iset<Edge>, edges: map<string, Edge>)
    requires Collected(map[], crossed, edges)
    requires forall e :: e in crossed <==> CrossedBy(es, direction, bound, root, e)
    ensures EdgesExact(es, direction, bound, root, edges)
  {
  }

  lemma CollectedTwice(crossed: iset<Edge>, edges: map<string, Edge>, crossed': iset<Edge>, edges': map<string, Edge>)
    requires Collected(map[], crossed, edges) && Collected(edges, crossed', edges')
    ensures Collected(map[], crossed + crossed', edges')
  {
  }

  /** Runs the requested searches over shared dictionaries. */
  method WalkAll(es: seq<Edge>, root: string, direction: string, bound: Option<nat>)
    returns (depths: map<string, nat>, edges: map<string, Edge>)
    requires direction in {"upstream", "downstream", "both"}
    ensures DepthsExact(es, direction, bound, root, depths)
    ensures EdgesExact(es, direction, bound, root, edges)
  {
    hide Reachable, MinHops, DepthsExact, EdgesExact, CrossedBy, Crossed, Leaving, Folded, Collected, Neighbors;
    ghost var hops: map<string, nat>;
    if direction != "both" {
      var w := if direction == "upstream" then Upstream else Downstream;
      var adjacency := Adjacency(es, w);
      depths, edges, hops := Bfs(es, root, adjacency, w, bound, map[], map[]);
      FoldedFresh(hops, depths);
      OneWalk(es, w, direction, bound, root, hops);
      CollectedOnce(es, direction, bound, root, Crossed(es, w, bound, hops), edges);
    } else {
      var adjacency := Adjacency(es, Upstream);
      depths, edges, hops := Bfs(es, root, adjacency, Upstream, bound, map[], map[]);
      FoldedFresh(hops, depths);
      ghost var up, edgesUp := depths, edges;
      adjacency := Adjacency(es, Downstream);
      depths, edges, hops := Bfs(es, root, adjacency, Downstream, bound, depths, edges);
      TwoWalks(es, bound, root, up, hops, depths);
      BothCrossed(es, bound, root, up, hops);
      CollectedTwice(Crossed(es, Upstream, bound, up), edgesUp, Crossed(es, Downstream, bound, hops), edges);
      CollectedOnce(es, direction, bound, root, Crossed(es, Upstream, bound, up) + Crossed(es, Downstream, bound, hops), edges);
    }
  }

  lemma BothCrossed(es: seq<Edge>, bound: Option<nat>, root: string, up: map<string, nat>, down: map<string, nat>)
    requires HopsExact(es, Upstream, bound, root, up) && HopsExact(es, Downstream, bound, root, down)
    ensures forall e :: CrossedBy(es, "both", bound, root, e) <==>
                          e in Crossed(es, Upstream, bound, up) || e in Crossed(es, Downstream, bound, down)
  {
    forall e ensures CrossedBy(es, "both", bound, root, e) <==>
                       e in Crossed(es, Upstream, bound, up) || e in Crossed(es, Downstream, bound, down)
    {
      hide IsPath, Crossed, HopsExact, LeadsTo;
      CrossedIff(es, Upstream, bound, root, up, e);
      CrossedIff(es, Downstream, bound, root, down, e);
      if e in Crossed(es, Upstream, bound, up) {
        var p :| IsPath(es, Upstream, root, p, Near(Upstream, e)) && Inside(bound, |p|);
        WalkCrosses(es, "both", bound, root, Upstream, p, e);
      }
      if e in Crossed(es, Downstream, bound, down) {
        var p :| IsPath(es, Downstream, root, p, Near(Downstream, e)) && Inside(bound, |p|);
        WalkCrosses(es, "both", bound, root, Downstream, p, e);
      }
      if CrossedBy(es, "both", bound, root, e) {
        var q :| LeadsTo(es, "both", root, q, e) && Inside(bound, |q|);
        var w, p := CrossedWalks(es, "both", root, q, e);
      }
    }
  }

  /** Every crossed edge has both ends in bound. */
  lemma CrossedEndsInBound(es: seq<Edge>, direction: string, bound: Option<nat>, root: string, depths: map<string, nat>, e: Edge)
    requires DepthsExact(es, direction, bound, root, depths) && CrossedBy(es, direction, bound, root, e)
    ensures e.source in depths && e.target in depths
  {
    hide Leads, AtDepth;
    var q :| LeadsTo(es, direction, root, q, e) && Inside(bound, |q|);
    var w, p := CrossedWalks(es, direction, root, q, e);
    PathExtend(es, w, root, p, e);
    hide IsPath;
    var near := WalkLeads(es, direction, root, w, p, Near(w, e));
    var far := WalkLeads(es, direction, root, w, p + [e], Far(w, e));
    LeastDepth(es, direction, bound, root, depths, near, Near(w, e));
    LeastDepth(es, direction, bound, root, depths, far, Far(w, e));
  }

  lemma {:induction false} LeastDepth(es: seq<Edge>, direction: string, bound: Option<nat>, root: string, depths: map<string, nat>,
                                      p: seq<Edge>, n: string)
    requires DepthsExact(es, direction, bound, root, depths)
    requires Leads(es, direction, root, p, n) && Within(bound, |p|)
    ensures n in depths
    decreases |p|
  {
    hide Leads;
    if !AtDepth(es, direction, bound, root, n, |p|) {
      var q :| Leads(es, direction, root, q, n) && |q| < |p|;
      LeastDepth(es, direction, bound, root, depths, q, n);
    }
  }

  lemma {:induction false} InducedAll(es: seq<Edge>, nodes: set<string>)
    requires forall e :: e in es ==> e.source in nodes && e.target in nodes
    ensures Induced(es, nodes) == es
  {
    if es != [] {
      assert es[0] in es;
      InducedAll(es[1..], nodes);
    }
  }

  /** The dictionary's entries in (depth, name) order. */
  method ByDepth(depths: map<string, nat>) returns (r: seq<(string, nat)>)
    ensures Sorted(HopLe, r)
    ensures forall n, d :: (n, d) in r <==> n in depths && depths[n] == d
    ensures forall i, j :: 0 <= i < j < |r| ==> r[i] != r[j]
  {
    var names := SortedNames(depths.Keys);
    var entries := seq(|names|, i requires 0 <= i < |names| => (names[i], if names[i] in depths then depths[names[i]] else 0));
    forall n, d ensures (n, d) in entries <==> n in depths && depths[n] == d {
      if n in depths {
        var i :| 0 <= i < |names| && names[i] == n;
        assert entries[i] == (n, depths[n]);
      }
      if (n, d) in entries {
        var i :| 0 <= i < |entries| && entries[i] == (n, d);
        assert names[i] in names;
      }
    }
    r := Sort(HopLe, entries);
    HopLeOrders();
    SortSorts(HopLe, entries);
    SortMembers(HopLe, entries);
    SortDistinct(entries);
  }

  lemma SortDistinct(s: seq<(string, nat)>)
    requires forall i, j :: 0 <= i < j < |s| ==> s[i] != s[j]
    ensures forall i, j :: 0 <= i < j < |s| ==> Sort(HopLe, s)[i] != Sort(HopLe, s)[j]
  {
    SortPermutes(HopLe, s);
    var r := Sort(HopLe, s);
    forall i, j | 0 <= i < j < |r| ensures r[i] != r[j] {
      if r[i] == r[j] {
        TwiceCounted(r, i, j);
        OnceCounted(s, r[i]);
        assert false;
      }
    }
  }

  lemma TwiceCounted<T>(s: seq<T>, i: nat, j: nat)
    requires i < j < |s| && s[i] == s[j]
    ensures multiset(s)[s[i]] >= 2
  {
    assert s == s[..i] + [s[i]] + s[i + 1..j] + [s[j]] + s[j + 1..];
  }

  lemma {:induction false} OnceCounted<T>(s: seq<T>, x: T)
    requires forall i, j :: 0 <= i < j < |s| ==> s[i] != s[j]
    ensures multiset(s)[x] <= 1
  {
    if s != [] {
      OnceCounted(s[1..], x);
      assert s == [s[0]] + s[1..];
      if s[0] == x { assert x !in s[1..]; }
    }
  }

  /** The dictionary's edges in id order, one per id. */
  method ById(edges: map<string, Edge>) returns (r: seq<Edge>)
    requires forall id :: id in edges ==> edges[id].id == id
    ensures forall e :: e in r <==> e.id in edges && edges[e.id] == e
    ensures forall i, j :: 0 <= i < j < |r| ==> StrLe(r[i].id, r[j].id) && r[i].id != r[j].id
  {
    var ids := SortedNames(edges.Keys);
    assert forall i :: 0 <= i < |ids| ==> ids[i] in ids;
    r := seq(|ids|, i requires 0 <= i < |ids| => edges[ids[i]]);
    forall e: Edge | e.id in edges && edges[e.id] == e ensures e in r {
      var i :| 0 <= i < |ids| && ids[i] == e.id;
      assert r[i] == e;
    }
  }

  /** Exactly the nodes in bound, each at its least depth, in (depth, id) order. */
  ghost predicate NodesAnswer(g: Graph, bound: Option<nat>, r: Lineage)
  {
    && (forall n, d: nat :: (n, d) in r.nodes <==>
          n.id in NodeTable(g.nodes) && NodeTable(g.nodes)[n.id] == n && AtDepth(g.edges, r.direction, bound, r.root, n.id, d))
    && (forall n, d: nat :: AtDepth(g.edges, r.direction, bound, r.root, n, d) ==> n in NodeTable(g.nodes))
    && (forall i, j :: 0 <= i < j < |r.nodes| ==>
          && (r.nodes[i].1 < r.nodes[j].1 || (r.nodes[i].1 == r.nodes[j].1 && StrLe(r.nodes[i].0.id, r.nodes[j].0.id)))
          && r.nodes[i] != r.nodes[j])
  }

  ghost predicate HasId(es: seq<Edge>, id: string) {
    exists e :: e in es && e.id == id
  }

  /** Exactly the edges leaving nodes strictly inside the bound, one per id, in id order. */
  ghost predicate EdgesAnswer(g: Graph, bound: Option<nat>, r: Lineage)
  {
    && (forall e :: e in r.edges ==> CrossedBy(g.edges, r.direction, bound, r.root, e))
    && (forall e :: CrossedBy(g.edges, r.direction, bound, r.root, e) ==> HasId(r.edges, e.id))
    && (forall i, j :: 0 <= i < j < |r.edges| ==> StrLe(r.edges[i].id, r.edges[j].id) && r.edges[i].id != r.edges[j].id)
  }

  /** The bound that a depth argument asks for. */
  function HopBound(depth: Option<int>): (r: Option<nat>)
    ensures r.Some? ==> depth == Some(r.value)
    ensures r.None? ==> depth.None? || depth.value < 0
  {
    if depth.Some? && depth.value >= 0 then Some(depth.value) else None
  }

  ghost predicate InLineage(es: seq<Edge>, direction: string, bound: Option<nat>, root: string, n: string) {
    exists d: nat :: AtDepth(es, direction, bound, root, n, d)
  }

  /** Replaces each name by its node; reports the first name without one. */
  method Attach(order: seq<(string, nat)>, table: map<string, Node>) returns (nodes: seq<(Node, nat)>, missing: Option<string>)
    ensures missing.None? ==> |nodes| == |order| && forall k :: 0 <= k < |order| ==>
              order[k].0 in table && nodes[k] == (table[order[k].0], order[k].1)
    ensures missing.Some? ==> missing.value !in table && exists k :: 0 <= k < |order| && order[k].0 == missing.value
  {
    nodes := [];
    for i := 0 to |order|
      invariant |nodes| == i
      invariant forall k :: 0 <= k < i ==> order[k].0 in table && nodes[k] == (table[order[k].0], order[k].1)
    {
      if order[i].0 !in table {
        return [], Some(order[i].0);
      }
      nodes := nodes + [(table[order[i].0], order[i].1)];
    }
    missing := None;
  }

  /** The walk tool: exact nodes, depths, edges and cycle edges, or the refusal the source raises. */
  method GetLineage(g: Graph, root: string, direction: string, depth: Option<int>) returns (r: Outcome)
    ensures r.BadDirection? <==> direction !in {"upstream", "downstream", "both"}
    ensures r.BadDepth? <==> !r.BadDirection? && depth.Some? && depth.value < 0
    ensures r.Found? ==> r.lineage.root == root && r.lineage.direction == direction && r.lineage.depth == depth
    ensures r.Found? && root !in NodeTable(g.nodes) ==> r.lineage.nodes == [] && r.lineage.edges == [] && r.lineage.cycles == []
    ensures r.Found? && root in NodeTable(g.nodes) ==>
              && NodesAnswer(g, HopBound(depth), r.lineage)
              && EdgesAnswer(g, HopBound(depth), r.lineage)
              && CutsCycles(r.lineage.edges, r.lineage.cycles)
    ensures r.Found? && depth.Some? ==> forall x :: x in r.lineage.nodes ==> x.1 <= depth.value
    ensures r.UnknownNode? ==>
              && root in NodeTable(g.nodes) && r.id !in NodeTable(g.nodes)
              && InLineage(g.edges, direction, HopBound(depth), root, r.id)
  {
    hide NodesAnswer, EdgesAnswer, InLineage, DepthsExact, EdgesExact, CutsCycles, Sorted, NodeTable;
    if direction !in {"upstream", "downstream", "both"} { return BadDirection; }
    if depth.Some? && depth.value < 0 { return BadDepth; }
    var table := NodeTable(g.nodes);
    if root !in table { return Found(Lineage(root, direction, depth, [], [], [])); }
    var bound := HopBound(depth);
    var depths, edges := WalkAll(g.edges, root, direction, bound);
    EdgesKeyed(g.edges, direction, bound, root, edges);
    var order := ByDepth(depths);
    var nodes, missing := Attach(order, table);
    if missing.Some? {
      Missing(g.edges, direction, bound, root, depths, order, missing.value);
      return UnknownNode(missing.value);
    }
    var list := ById(edges);
    var cycles := Cycles(depths.Keys, list);
    ListInBound(g.edges, direction, bound, root, depths, edges, list);
    InducedAll(list, depths.Keys);
    var lineage := Lineage(root, direction, depth, nodes, list, cycles);
    AnswerNodes(g, bound, depths, order, lineage);
    AnswerEdges(g, bound, edges, lineage);
    if depth.Some? { NodesInBound(g, bound, lineage); }
    r := Found(lineage);
  }

  lemma NodesInBound(g: Graph, bound: Option<nat>, r: Lineage)
    requires NodesAnswer(g, bound, r) && bound.Some?
    ensures forall x :: x in r.nodes ==> x.1 <= bound.value
  {
    hide NodeTable, Leads;
    forall x | x in r.nodes ensures x.1 <= bound.value { assert (x.0, x.1) in r.nodes; }
  }

  lemma EdgesKeyed(es: seq<Edge>, direction: string, bound: Option<nat>, root: string, edges: map<string, Edge>)
    requires EdgesExact(es, direction, bound, root, edges)
    ensures forall id :: id in edges ==> edges[id].id == id
  {
  }

  lemma Missing(es: seq<Edge>, direction: string, bound: Option<nat>, root: string, depths: map<string, nat>,
                order: seq<(string, nat)>, n: string)
    requires DepthsExact(es, direction, bound, root, depths)
    requires forall n, d :: (n, d) in order <==> n in depths && depths[n] == d
    requires exists k :: 0 <= k < |order| && order[k].0 == n
    ensures InLineage(es, direction, bound, root, n)
  {
    var k :| 0 <= k < |order| && order[k].0 == n;
    assert (n, order[k].1) in order;
    assert AtDepth(es, direction, bound, root, n, order[k].1);
  }

  lemma ListInBound(es: seq<Edge>, direction: string, bound: Option<nat>, root: string, depths: map<string, nat>,
                    edges: map<string, Edge>, list: seq<Edge>)
    requires DepthsExact(es, direction, bound, root, depths) && EdgesExact(es, direction, bound, root, edges)
    requires forall e :: e in list <==> e.id in edges && edges[e.id] == e
    ensures forall e :: e in list ==> e.source in depths && e.target in depths
  {
    hide AtDepth, CrossedBy;
    forall e | e in list ensures e.source in depths && e.target in depths {
      CrossedEndsInBound(es, direction, bound, root, depths, e);
    }
  }

  lemma AnswerEdges(g: Graph, bound: Option<nat>, edges: map<string, Edge>, r: Lineage)
    requires EdgesExact(g.edges, r.direction, bound, r.root, edges)
    requires forall e :: e in r.edges <==> e.id in edges && edges[e.id] == e
    requires forall i, j :: 0 <= i < j < |r.edges| ==> StrLe(r.edges[i].id, r.edges[j].id) && r.edges[i].id != r.edges[j].id
    ensures EdgesAnswer(g, bound, r)
  {
    hide CrossedBy;
    forall e | CrossedBy(g.edges, r.direction, bound, r.root, e) ensures HasId(r.edges, e.id) {
      assert edges[e.id] in r.edges;
    }
  }

  lemma AnswerNodes(g: Graph, bound: Option<nat>, depths: map<string, nat>, order: seq<(string, nat)>, r: Lineage)
    requires DepthsExact(g.edges, r.direction, bound, r.root, depths)
    requires Sorted(HopLe, order) && (forall i, j :: 0 <= i < j < |order| ==> order[i] != order[j])
    requires forall n, d :: (n, d) in order <==> n in depths && depths[n] == d
    requires |r.nodes| == |order|
    requires forall k :: 0 <= k < |order| ==>
               order[k].0 in NodeTable(g.nodes) && r.nodes[k] == (NodeTable(g.nodes)[order[k].0], order[k].1)
    ensures NodesAnswer(g, bound, r)
  {
    hide AtDepth, StrLe;
    var table, nodes := NodeTable(g.nodes), r.nodes;
    hide NodeTable;
    forall n, d: nat | AtDepth(g.edges, r.direction, bound, r.root, n, d) ensures n in table && (table[n], d) in nodes {
      assert (n, d) in order;
      var k :| 0 <= k < |order| && order[k] == (n, d);
      assert nodes[k] == (table[n], d);
    }
    forall n, d: nat | (n, d) in nodes
      ensures n.id in table && table[n.id] == n && AtDepth(g.edges, r.direction, bound, r.root, n.id, d)
    {
      var k :| 0 <= k < |nodes| && nodes[k] == (n, d);
      assert order[k] in order;
    }
  }
}
