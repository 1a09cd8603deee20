/** The merged lineage graph document and directed paths in it. */
module LineageGraph {
  import opened Basics

  datatype Evidence = Evidence(tier: string, ref: string)

  datatype Mapping = Mapping(from: seq<string>, to: string)

  /** `columns == []` stands for an edge without column mappings. */
  datatype Edge = Edge(
    id: string, source: string, target: string, operation: string,
    evidence: seq<Evidence>, trust: string, columns: seq<Mapping>)

  datatype Node = Node(id: string, kind: string, resolved: bool, doc: Option<string>)

  datatype Graph = Graph(nodes: seq<Node>, edges: seq<Edge>)

  /** A walk follows edges from source to target, or backwards. */
  datatype Walk = Upstream | Downstream

  function Near(w: Walk, e: Edge): string {
    if w.Upstream? then e.target else e.source
  }

  function Far(w: Walk, e: Edge): string {
    if w.Upstream? then e.source else e.target
  }

  /** `p` is a chain of edges of `es` that leads from `a` to `b` in direction `w`. */
  ghost predicate IsPath(es: seq<Edge>, w: Walk, a: string, p: seq<Edge>, b: string)
  {
    if p == [] then
      a == b
    else
      var last := p[|p| - 1];
      last in es && Far(w, last) == b && IsPath(es, w, a, p[..|p| - 1], Near(w, last))
  }

  lemma PathExtend(es: seq<Edge>, w: Walk, a: string, p: seq<Edge>, e: Edge)
    requires e in es && IsPath(es, w, a, p, Near(w, e))
    ensures IsPath(es, w, a, p + [e], Far(w, e))
  {
    assert (p + [e])[..|p + [e]| - 1] == p;
  }

  lemma {:induction false} PathConcat(es: seq<Edge>, w: Walk, a: string, p: seq<Edge>, b: string, q: seq<Edge>, c: string)
    requires IsPath(es, w, a, p, b) && IsPath(es, w, b, q, c)
    ensures IsPath(es, w, a, p + q, c)
  {
    if q == [] {
      assert p + q == p;
    } else {
      var last := q[|q| - 1];
      PathConcat(es, w, a, p, b, q[..|q| - 1], Near(w, last));
      assert (p + q)[..|p + q| - 1] == p + q[..|q| - 1];
    }
  }

  /** Data flows from `a` to `b` along `p`: each edge starts where the one before ended. */
  ghost predicate Flow(es: seq<Edge>, a: string, p: seq<Edge>, b: string)
    decreases |p|
  {
    if p == [] then a == b else p[0] in es && p[0].source == a && Flow(es, p[0].target, p[1..], b)
  }

  lemma {:induction false} FlowExtend(es: seq<Edge>, a: string, p: seq<Edge>, e: Edge)
    ensures Flow(es, a, p + [e], e.target) <==> e in es && Flow(es, a, p, e.source)
    decreases |p|
  {
    var q := p + [e];
    if p == [] {
      assert q[1..] == [];
    } else {
      assert q[1..] == p[1..] + [e];
      FlowExtend(es, p[0].target, p[1..], e);
    }
  }

  /** A downstream walk goes with the flow. */
  lemma {:induction false} DownstreamIsFlow(es: seq<Edge>, a: string, p: seq<Edge>, b: string)
    ensures IsPath(es, Downstream, a, p, b) <==> Flow(es, a, p, b)
  {
    if p != [] {
      var front, last := p[..|p| - 1], p[|p| - 1];
      assert p == front + [last];
      DownstreamIsFlow(es, a, front, last.source);
      FlowExtend(es, a, front, last);
      if Flow(es, a, p, b) { FlowEnd(es, a, p, b); }
    }
  }

  lemma {:induction false} FlowEnd(es: seq<Edge>, a: string, p: seq<Edge>, b: string)
    requires Flow(es, a, p, b) && p != []
    ensures p[|p| - 1].target == b
    decreases |p|
  {
    if |p| > 1 { FlowEnd(es, p[0].target, p[1..], b); }
  }

  function Backwards(p: seq<Edge>): (r: seq<Edge>)
    ensures |r| == |p|
  {
    if p == [] then [] else [p[|p| - 1]] + Backwards(p[..|p| - 1])
  }

  lemma {:induction false} BackwardsTwice(p: seq<Edge>)
    ensures Backwards(Backwards(p)) == p
  {
    if p != [] {
      var front, last := p[..|p| - 1], p[|p| - 1];
      BackwardsTwice(front);
      BackwardsSnoc(last, Backwards(front));
    }
  }

  lemma {:induction false} BackwardsSnoc(e: Edge, p: seq<Edge>)
    ensures Backwards([e] + p) == Backwards(p) + [e]
  {
    var q := [e] + p;
    if p == [] {
      assert q[..|q| - 1] == [];
    } else {
      assert q[..|q| - 1] == [e] + p[..|p| - 1];
      BackwardsSnoc(e, p[..|p| - 1]);
    }
  }

  /** An upstream walk from `a` to `b` is the flow from `b` to `a`, read backwards. */
  lemma {:induction false} UpstreamIsFlow(es: seq<Edge>, a: string, p: seq<Edge>, b: string)
    ensures IsPath(es, Upstream, a, p, b) <==> Flow(es, b, Backwards(p), a)
  {
    if p != [] {
      var front, last := p[..|p| - 1], p[|p| - 1];
      UpstreamIsFlow(es, a, front, last.target);
      assert Backwards(p)[1..] == Backwards(front);
    }
  }

  /** Walking back along a walk. */
  lemma Mirrored(es: seq<Edge>, a: string, p: seq<Edge>, b: string)
    ensures IsPath(es, Upstream, a, p, b) <==> IsPath(es, Downstream, b, Backwards(p), a)
    ensures IsPath(es, Downstream, b, p, a) <==> IsPath(es, Upstream, a, Backwards(p), b)
  {
    hide IsPath, Flow;
    UpstreamIsFlow(es, a, p, b);
    DownstreamIsFlow(es, b, Backwards(p), a);
    BackwardsTwice(p);
    UpstreamIsFlow(es, a, Backwards(p), b);
    DownstreamIsFlow(es, b, p, a);
  }

  /** A hop bound; `None` is unbounded. */
  predicate Within(bound: Option<nat>, n: nat) {
    bound.Some? ==> n <= bound.value
  }

  predicate Inside(bound: Option<nat>, n: nat) {
    bound.Some? ==> n < bound.value
  }

  /** `b` can be reached from `a` in `n` hops and not in fewer. */
  ghost predicate MinHops(es: seq<Edge>, w: Walk, a: string, b: string, n: nat)
  {
    && (exists p :: IsPath(es, w, a, p, b) && |p| == n)
    && (forall p :: IsPath(es, w, a, p, b) ==> n <= |p|)
  }

  /** `n` is at upstream distance `d` of `r` exactly when `r` is at downstream distance `d` of `n`. */
  lemma UpstreamMirrorsDownstream(es: seq<Edge>, r: string, n: string, d: nat)
    ensures MinHops(es, Upstream, r, n, d) <==> MinHops(es, Downstream, n, r, d)
  {
    hide IsPath;
    forall p ensures IsPath(es, Upstream, r, p, n) ==> IsPath(es, Downstream, n, Backwards(p), r) { Mirrored(es, r, p, n); }
    forall p ensures IsPath(es, Downstream, n, p, r) ==> IsPath(es, Upstream, r, Backwards(p), n) { Mirrored(es, r, p, n); }
  }

  ghost predicate Reachable(es: seq<Edge>, w: Walk, bound: Option<nat>, a: string, b: string)
  {
    exists p :: IsPath(es, w, a, p, b) && Within(bound, |p|)
  }

  /** No nonempty chain of edges returns to its start. */
  ghost predicate Acyclic(es: seq<Edge>)
  {
    forall a, p :: IsPath(es, Downstream, a, p, a) ==> p == []
  }

  /** `e` closes a directed cycle of `es`: some chain leads from its target back to its source. */
  ghost predicate OnCycle(es: seq<Edge>, e: Edge)
  {
    e in es && exists p :: IsPath(es, Downstream, e.target, p, e.source)
  }

  /** Edges of `es` whose near end is `n`, in order: one adjacency list. */
  function Leaving(es: seq<Edge>, w: Walk, n: string): (r: seq<Edge>)
    ensures forall e :: e in r <==> e in es && Near(w, e) == n
  {
    if es == [] then
      []
    else
      var rest := Leaving(es[..|es| - 1], w, n);
      assert es == es[..|es| - 1] + [es[|es| - 1]];
      if Near(w, es[|es| - 1]) == n then rest + [es[|es| - 1]] else rest
  }

  function Neighbors(adjacency: map<string, seq<Edge>>, n: string): seq<Edge> {
    if n in adjacency then adjacency[n] else []
  }

  /** Builds the adjacency dictionary one edge at a time. */
  method Adjacency(es: seq<Edge>, w: Walk) returns (adjacency: map<string, seq<Edge>>)
    ensures forall n :: Neighbors(adjacency, n) == Leaving(es, w, n)
    ensures forall n, e :: e in Neighbors(adjacency, n) <==> e in es && (w == Upstream ==> e.target == n) && (w == Downstream ==> e.source == n)
  {
    adjacency := map[];
    for i := 0 to |es|
      invariant forall n :: Neighbors(adjacency, n) == Leaving(es[..i], w, n)
    {
      var e := es[i];
      adjacency := adjacency[Near(w, e) := Neighbors(adjacency, Near(w, e)) + [e]];
      assert es[..i + 1][..i] == es[..i];
    }
    assert es[..|es|] == es;
  }
}
