/** `contamination_walk` of `lineage/scan.py`: the shortest routes from a broken object. */
module DownstreamWalk {
  import opened Basics
  import opened LineageGraph
  import opened Search
  import opened Ordering
  import opened LineageCycles

  function Ids(p: seq<Edge>): seq<string> {
    seq(|p|, i requires 0 <= i < |p| => p[i].id)
  }

  datatype State = State(visited: set<string>, paths: map<string, seq<string>>, queue: seq<string>)

  ghost predicate Reflects(s: State, es: seq<Edge>, start: string, via: Via)
  {
    && s.visited == via.Keys && s.visited <= Universe(es, start)
    && s.paths.Keys == via.Keys && forall n :: n in via ==> s.paths[n] == Ids(via[n])
  }

  /** Looks at one edge out of `fqn`; a target seen before is left alone. */
  function Look(s: State, fqn: string, edge: Edge): State
    requires fqn in s.paths
  {
    if edge.target in s.visited then
      s
    else
      State(s.visited + {edge.target}, s.paths[edge.target := s.paths[fqn] + [edge.id]], s.queue + [edge.target])
  }

  lemma LookReflects(s: State, es: seq<Edge>, start: string, via: Via, fqn: string, edge: Edge)
    requires Reflects(s, es, start, via) && fqn in via && edge in es && edge.target !in via
    ensures Reflects(Look(s, fqn, edge), es, start, via[edge.target := via[fqn] + [edge]])
  {
    assert Ids(via[fqn] + [edge]) == Ids(via[fqn]) + [edge.id];
  }

  method Expand(s0: State, fqn: string, out: seq<Edge>, ghost es: seq<Edge>, ghost start: string, ghost via0: Via)
    returns (s: State, ghost via: Via)
    requires Reflects(s0, es, start, via0) && Expanding(es, Downstream, None, start, via0, s0.queue, fqn, [])
    requires fqn in via0 && out == Leaving(es, Downstream, fqn)
    ensures Reflects(s, es, start, via) && Expanding(es, Downstream, None, start, via, s.queue, fqn, out)
    ensures s0.visited <= s.visited <= Universe(es, start) && (s0.visited == s.visited ==> s.queue == s0.queue)
  {
    hide Expanding, Leaving, Reflects, Universe;
    s, via := s0, via0;
    ReflectsKeys(s, es, start, via);
    for i := 0 to |out|
      invariant Reflects(s, es, start, via) && fqn in via && s.visited == s.paths.Keys == via.Keys
      invariant Expanding(es, Downstream, None, start, via, s.queue, fqn, out[..i])
      invariant s0.visited <= s.visited && (s0.visited == s.visited ==> s.queue == s0.queue)
    {
      var edge := out[i];
      assert edge in out && out[..i + 1] == out[..i] + [edge];
      if edge.target in s.visited {
        Known(es, Downstream, None, start, via, s.queue, fqn, out[..i], edge);
      } else {
        Discover(es, Downstream, None, start, via, s.queue, fqn, out[..i], edge);
        LookReflects(s, es, start, via, fqn, edge);
        via := via[edge.target := via[fqn] + [edge]];
      }
      s := Look(s, fqn, edge);
      ReflectsKeys(s, es, start, via);
    }
    assert out[..|out|] == out;
    ReflectsKeys(s, es, start, via);
  }

  lemma ReflectsKeys(s: State, es: seq<Edge>, start: string, via: Via)
    requires Reflects(s, es, start, via)
    ensures s.visited == s.paths.Keys == via.Keys && s.visited <= Universe(es, start)
  {
  }

  /** Every node downstream of `start` with the ids of a shortest edge path to it. */
  ghost predicate ShortestPaths(es: seq<Edge>, start: string, paths: map<string, seq<string>>)
  {
    && (forall n :: n in paths <==> Reachable(es, Downstream, None, start, n))
    && (forall n :: n in paths ==> exists p ::
          IsPath(es, Downstream, start, p, n) && paths[n] == Ids(p) && MinHops(es, Downstream, start, n, |p|))
  }

  lemma Conclude(es: seq<Edge>, start: string, s: State, via: Via)
    requires Reflects(s, es, start, via) && Frontier(es, Downstream, None, start, via, [])
    ensures ShortestPaths(es, start, s.paths)
  {
    hide Expanded, Levels, MinHops, Reachable, IsPath, Ids, Universe;
    Exact(es, Downstream, None, start, via);
    forall n | n in s.paths
      ensures exists p :: IsPath(es, Downstream, start, p, n) && s.paths[n] == Ids(p) && MinHops(es, Downstream, start, n, |p|)
    {
      assert IsPath(es, Downstream, start, via[n], n);
    }
  }

  lemma SameEdges(es: seq<Edge>, es': seq<Edge>, start: string, n: string, p: seq<Edge>)
    requires forall e :: e in es <==> e in es'
    ensures IsPath(es, Downstream, start, p, n) <==> IsPath(es', Downstream, start, p, n)
  {
    if IsPath(es, Downstream, start, p, n) { PathMonotone(es, es', start, p, n); }
    if IsPath(es', Downstream, start, p, n) { PathMonotone(es', es, start, p, n); }
  }

  lemma SameShortest(es: seq<Edge>, es': seq<Edge>, start: string, paths: map<string, seq<string>>)
    requires ShortestPaths(es, start, paths) && forall e :: e in es <==> e in es'
    ensures ShortestPaths(es', start, paths)
  {
    hide IsPath;
    forall n, p ensures IsPath(es, Downstream, start, p, n) <==> IsPath(es', Downstream, start, p, n) {
      SameEdges(es, es', start, n, p);
    }
    forall n ensures n in paths <==> Reachable(es', Downstream, None, start, n) {
      if n in paths {
        var p :| IsPath(es, Downstream, start, p, n) && Within(None, |p|);
        assert IsPath(es', Downstream, start, p, n);
      }
      if Reachable(es', Downstream, None, start, n) {
        var p :| IsPath(es', Downstream, start, p, n) && Within(None, |p|);
        assert Reachable(es, Downstream, None, start, n);
      }
    }
    forall n | n in paths
      ensures exists p :: IsPath(es', Downstream, start, p, n) && paths[n] == Ids(p) && MinHops(es', Downstream, start, n, |p|)
    {
      var p :| IsPath(es, Downstream, start, p, n) && paths[n] == Ids(p) && MinHops(es, Downstream, start, n, |p|);
      assert IsPath(es', Downstream, start, p, n) && MinHops(es', Downstream, start, n, |p|);
    }
  }

  method ContaminationWalk(g: Graph, start: string) returns (paths: map<string, seq<string>>)
    ensures ShortestPaths(g.edges, start, paths)
  {
    hide Frontier, Expanding, Universe, Leaving, ShortestPaths, Reflects, EdgeLe, Sort;
    ghost var es := Sort(EdgeLe, g.edges);
    SortMembers(EdgeLe, g.edges);
    var adjacency := Adjacency(Sort(EdgeLe, g.edges), Downstream);
    var s := State({start}, map[start := []], [start]);
    ghost var via: Via := map[start := []];
    Start(es, Downstream, None, start);
    StartReflects(es, start);
    while s.queue != []
      invariant Reflects(s, es, start, via) && Frontier(es, Downstream, None, start, via, s.queue)
      decreases |Universe(es, start) - s.visited|, |s.queue|
    {
      ghost var before := s;
      var fqn := s.queue[0];
      Dequeue(es, Downstream, None, start, via, s.queue);
      Queued(es, start, via, s);
      s := s.(queue := s.queue[1..]);
      s, via := Expand(s, fqn, Neighbors(adjacency, fqn), es, start, via);
      Finish(es, Downstream, None, start, via, s.queue, fqn, Neighbors(adjacency, fqn));
      if before.visited != s.visited { Shrinks(Universe(es, start), before.visited, s.visited); }
    }
    Conclude(es, start, s, via);
    SameShortest(es, g.edges, start, s.paths);
    paths := s.paths;
  }

  lemma StartReflects(es: seq<Edge>, start: string)
    ensures Reflects(State({start}, map[start := []], [start]), es, start, map[start := []])
  {
    assert Ids([]) == [];
  }

  lemma Queued(es: seq<Edge>, start: string, via: Via, s: State)
    requires Frontier(es, Downstream, None, start, via, s.queue) && s.queue != [] && Reflects(s, es, start, via)
    ensures s.queue[0] in via && s.visited <= Universe(es, start)
    ensures Reflects(s.(queue := s.queue[1..]), es, start, via)
  {
    hide Levels, Rooted, Expanded, Universe, Ids;
  }
}
