/** `_cycles` of `lineage/walk.py`: the edges that close a cycle in the returned subgraph. */
module LineageCycles {
  import opened LineageGraph
  import opened Ordering

  datatype Color = White | Gray | Black

  predicate EdgeLe(a: Edge, b: Edge) {
    StrLe(a.id, b.id)
  }

  /** Edges of `es` with both ends among `nodes`. */
  function Induced(es: seq<Edge>, nodes: set<string>): (r: seq<Edge>)
    ensures forall e :: e in r <==> e in es && e.source in nodes && e.target in nodes
  {
    if es == [] then
      []
    else if es[0].source in nodes && es[0].target in nodes then
      [es[0]] + Induced(es[1..], nodes)
    else
      Induced(es[1..], nodes)
  }

  /** Edges that remain when the ids in `cut` are deleted. */
  ghost function Kept(es: seq<Edge>, cut: seq<string>): (r: seq<Edge>)
    ensures forall e :: e in r <==> e in es && e.id !in cut
  {
    if es == [] then [] else (if es[0].id in cut then [] else [es[0]]) + Kept(es[1..], cut)
  }

  /** Colours, the explicit stack of (node, next neighbour index), and the closing ids so far. */
  datatype Dfs = Dfs(color: map<string, Color>, stack: seq<(string, nat)>, closing: seq<string>)

  type Stack = seq<(string, nat)>

  function Out(es: seq<Edge>, n: string): seq<Edge> {
    Leaving(es, Downstream, n)
  }

  function Top(stack: Stack): (string, nat)
    requires stack != []
  {
    stack[|stack| - 1]
  }

  function Below(stack: Stack): Stack
    requires stack != []
  {
    stack[..|stack| - 1]
  }

  ghost function Names(stack: Stack): set<string> {
    if stack == [] then {} else Names(Below(stack)) + {Top(stack).0}
  }

  /** The edge a stacked entry looked at last. */
  function LastEdge(es: seq<Edge>, entry: (string, nat)): Edge
    requires 0 < entry.1 <= |Out(es, entry.0)|
  {
    Out(es, entry.0)[entry.1 - 1]
  }

  /** Distinct nodes, each entered through the edge its predecessor looked at last. */
  ghost predicate Linked(es: seq<Edge>, stack: Stack)
  {
    stack == [] ||
    (&& Linked(es, Below(stack))
     && Top(stack).0 !in Names(Below(stack))
     && Top(stack).1 <= |Out(es, Top(stack).0)|
     && (Below(stack) != [] ==>
           var prev := Top(Below(stack)); prev.1 > 0 && LastEdge(es, prev).target == Top(stack).0))
  }

  predicate IsBlack(color: map<string, Color>, n: string) {
    n in color && color[n].Black?
  }

  /** An edge is settled when it was reported or leads to a finished node. */
  predicate Settled(color: map<string, Color>, closing: seq<string>, e: Edge) {
    e.id in closing || IsBlack(color, e.target)
  }

  /** `n` has settled its neighbours before index `i`. */
  ghost predicate SettledTo(es: seq<Edge>, color: map<string, Color>, closing: seq<string>, n: string, i: int)
    requires i <= |Out(es, n)|
  {
    forall k :: 0 <= k < i ==> Settled(color, closing, Out(es, n)[k])
  }

  /** Every stacked node has settled all it looked at, bar the edge looked at last. */
  ghost predicate Progress(es: seq<Edge>, color: map<string, Color>, closing: seq<string>, stack: Stack)
    requires Linked(es, stack)
  {
    stack == [] ||
    (&& Progress(es, color, closing, Below(stack))
     && SettledTo(es, color, closing, Top(stack).0, Top(stack).1 - 1))
  }

  ghost predicate TopSettled(es: seq<Edge>, s: Dfs)
    requires Linked(es, s.stack)
  {
    s.stack != [] ==> SettledTo(es, s.color, s.closing, Top(s.stack).0, Top(s.stack).1)
  }

  /** `rank` numbers the finished nodes so that unreported edges lead to lower numbers. */
  ghost predicate Ranked(es: seq<Edge>, color: map<string, Color>, closing: seq<string>, rank: map<string, nat>)
  {
    && (forall n :: n in rank <==> IsBlack(color, n))
    && (forall n :: n in rank ==> rank[n] < |rank|)
    && (forall e :: e in es && e.source in rank && e.id !in closing ==> e.target in rank && rank[e.target] < rank[e.source])
  }

  ghost predicate Closes(es: seq<Edge>, id: string)
  {
    exists e :: OnCycle(es, e) && e.id == id
  }

  ghost predicate GrayIsStacked(s: Dfs) {
    forall n :: n in Names(s.stack) <==> n in s.color && s.color[n].Gray?
  }

  ghost predicate Over(es: seq<Edge>, nodes: set<string>) {
    forall e :: e in es ==> e.source in nodes && e.target in nodes
  }

  ghost predicate Invariant(es: seq<Edge>, nodes: set<string>, s: Dfs, rank: map<string, nat>)
  {
    && s.color.Keys == nodes && Over(es, nodes)
    && Linked(es, s.stack) && GrayIsStacked(s)
    && Progress(es, s.color, s.closing, s.stack) && TopSettled(es, s)
    && Ranked(es, s.color, s.closing, rank)
    && (forall id :: id in s.closing ==> Closes(es, id))
  }

  /** Every stacked node leads to the top of the stack. */
  lemma {:induction false} LeadsToTop(es: seq<Edge>, stack: Stack, n: string) returns (p: seq<Edge>)
    requires Linked(es, stack) && n in Names(stack)
    ensures stack != [] && IsPath(es, Downstream, n, p, Top(stack).0)
    decreases |stack|
  {
    if n == Top(stack).0 {
      p := [];
    } else {
      p := LeadsToTop(es, Below(stack), n);
      var e := LastEdge(es, Top(Below(stack)));
      assert e in Out(es, Top(Below(stack)).0);
      PathExtend(es, Downstream, n, p, e);
      p := p + [e];
    }
  }

  lemma BackEdgeCloses(es: seq<Edge>, stack: Stack, e: Edge)
    requires Linked(es, stack) && stack != [] && e in es
    requires e.source == Top(stack).0 && e.target in Names(stack)
    ensures Closes(es, e.id)
  {
    var p := LeadsToTop(es, stack, e.target);
    assert OnCycle(es, e);
  }

  /** What is settled stays settled. */
  lemma {:induction false} ProgressMonotone(es: seq<Edge>, c: map<string, Color>, r: seq<string>,
                                            c': map<string, Color>, r': seq<string>, stack: Stack)
    requires Linked(es, stack) && Progress(es, c, r, stack)
    requires forall e :: Settled(c, r, e) ==> Settled(c', r', e)
    ensures Progress(es, c', r', stack)
  {
    if stack != [] {
      ProgressMonotone(es, c, r, c', r', Below(stack));
    }
  }

  /** The stack after the top entry's index moved on. */
  function Advance(stack: Stack): Stack
    requires stack != []
  {
    Below(stack) + [(Top(stack).0, Top(stack).1 + 1)]
  }

  /** One turn of the depth-first loop. */
  function Turn(es: seq<Edge>, s: Dfs): Dfs
    requires s.stack != [] && Over(es, s.color.Keys)
  {
    var (node, i) := Top(s.stack);
    var neighbors := Out(es, node);
    if i < |neighbors| then
      var e := neighbors[i];
      assert e in neighbors;
      match s.color[e.target]
      case Gray => s.(stack := Advance(s.stack), closing := s.closing + [e.id])
      case White => s.(stack := Advance(s.stack) + [(e.target, 0)], color := s.color[e.target := Gray])
      case Black => s.(stack := Advance(s.stack))
    else
      s.(color := s.color[node := Black], stack := Below(s.stack))
  }

  predicate Looks(es: seq<Edge>, s: Dfs) {
    s.stack != [] && Top(s.stack).1 < |Out(es, Top(s.stack).0)|
  }

  function Looked(es: seq<Edge>, s: Dfs): (e: Edge)
    requires Looks(es, s)
    ensures e in es && e.source == Top(s.stack).0
  {
    var e := Out(es, Top(s.stack).0)[Top(s.stack).1];
    assert e in Out(es, Top(s.stack).0);
    e
  }

  lemma AdvanceLinked(es: seq<Edge>, s: Dfs)
    requires Looks(es, s) && Linked(es, s.stack)
    ensures Linked(es, Advance(s.stack)) && Names(Advance(s.stack)) == Names(s.stack)
    ensures LastEdge(es, Top(Advance(s.stack))) == Looked(es, s)
  {
    assert Below(Advance(s.stack)) == Below(s.stack);
  }

  /** Moving on keeps the progress below the edge just looked at. */
  lemma AdvanceProgress(es: seq<Edge>, s: Dfs, c': map<string, Color>, r': seq<string>)
    requires Looks(es, s) && Linked(es, s.stack) && Linked(es, Advance(s.stack))
    requires Progress(es, s.color, s.closing, s.stack) && TopSettled(es, s)
    requires forall e :: Settled(s.color, s.closing, e) ==> Settled(c', r', e)
    ensures Progress(es, c', r', Advance(s.stack))
    ensures Settled(c', r', Looked(es, s)) ==>
              SettledTo(es, c', r', Top(s.stack).0, Top(s.stack).1 + 1)
  {
    ProgressMonotone(es, s.color, s.closing, c', r', Below(s.stack));
    assert Below(Advance(s.stack)) == Below(s.stack);
  }

  lemma ReportRanks(es: seq<Edge>, color: map<string, Color>, closing: seq<string>, rank: map<string, nat>, id: string)
    requires Ranked(es, color, closing, rank)
    ensures Ranked(es, color, closing + [id], rank)
  {
  }

  lemma TurnBack(es: seq<Edge>, nodes: set<string>, s: Dfs, rank: map<string, nat>)
    requires Invariant(es, nodes, s, rank) && Looks(es, s)
    requires s.color[Looked(es, s).target].Gray?
    ensures Invariant(es, nodes, Turn(es, s), rank)
  {
    var e := Looked(es, s);
    assert e.target in Names(s.stack);
    BackEdgeCloses(es, s.stack, e);
    hide Closes, Linked, Progress, SettledTo, Ranked, Names;
    var s' := Turn(es, s);
    ReportRanks(es, s.color, s.closing, rank, e.id);
    assert forall id :: id in s'.closing <==> id in s.closing || id == e.id;
    AdvanceLinked(es, s);
    AdvanceProgress(es, s, s'.color, s'.closing);
  }

  lemma TurnSkip(es: seq<Edge>, nodes: set<string>, s: Dfs, rank: map<string, nat>)
    requires Invariant(es, nodes, s, rank) && Looks(es, s)
    requires s.color[Looked(es, s).target].Black?
    ensures Invariant(es, nodes, Turn(es, s), rank)
  {
    hide Closes, Linked, Progress, SettledTo;
    var s' := Turn(es, s);
    AdvanceLinked(es, s);
    AdvanceProgress(es, s, s'.color, s'.closing);
  }

  lemma PushLinked(es: seq<Edge>, stack: Stack, n: string, c: map<string, Color>, r: seq<string>)
    requires Linked(es, stack) && stack != [] && n !in Names(stack)
    requires Top(stack).1 > 0 && LastEdge(es, Top(stack)).target == n
    requires Progress(es, c, r, stack)
    ensures Linked(es, stack + [(n, 0)]) && Names(stack + [(n, 0)]) == Names(stack) + {n}
    ensures Progress(es, c, r, stack + [(n, 0)])
  {
    assert Below(stack + [(n, 0)]) == stack;
  }

  lemma TurnTree(es: seq<Edge>, nodes: set<string>, s: Dfs, rank: map<string, nat>)
    requires Invariant(es, nodes, s, rank) && Looks(es, s)
    requires s.color[Looked(es, s).target].White?
    ensures Invariant(es, nodes, Turn(es, s), rank)
  {
    hide Closes, Linked, Progress;
    var s' := Turn(es, s);
    AdvanceLinked(es, s);
    AdvanceProgress(es, s, s'.color, s'.closing);
    PushLinked(es, Advance(s.stack), Looked(es, s).target, s'.color, s'.closing);
  }

  lemma RetireRanks(es: seq<Edge>, s: Dfs, rank: map<string, nat>)
    requires Linked(es, s.stack) && TopSettled(es, s) && Ranked(es, s.color, s.closing, rank)
    requires s.stack != [] && !Looks(es, s) && Top(s.stack).0 !in rank
    ensures Ranked(es, s.color[Top(s.stack).0 := Black], s.closing, rank[Top(s.stack).0 := |rank|])
  {
    hide Linked;
    var node := Top(s.stack).0;
    var rank' := rank[node := |rank|];
    assert rank'.Keys == rank.Keys + {node};
    forall e | e in es && e.source == node && e.id !in s.closing
      ensures e.target in rank && rank'[e.target] < rank'[node]
    {
      assert e in Out(es, node);
      var j :| 0 <= j < |Out(es, node)| && Out(es, node)[j] == e;
      assert Settled(s.color, s.closing, Out(es, node)[j]);
    }
  }

  lemma RetireTop(es: seq<Edge>, s: Dfs, c': map<string, Color>)
    requires Linked(es, s.stack) && s.stack != [] && c' == s.color[Top(s.stack).0 := Black]
    requires Progress(es, s.color, s.closing, s.stack) && Top(s.stack).0 in s.color
    ensures Linked(es, Below(s.stack)) && Progress(es, c', s.closing, Below(s.stack))
    ensures TopSettled(es, s.(color := c', stack := Below(s.stack)))
    ensures Names(s.stack) == Names(Below(s.stack)) + {Top(s.stack).0} && Top(s.stack).0 !in Names(Below(s.stack))
  {
    ProgressMonotone(es, s.color, s.closing, c', s.closing, Below(s.stack));
    if Below(s.stack) != [] {
      var prev := Top(Below(s.stack));
      assert LastEdge(es, prev).target == Top(s.stack).0;
      assert SettledTo(es, c', s.closing, prev.0, prev.1 - 1);
    }
  }

  lemma TurnRetire(es: seq<Edge>, nodes: set<string>, s: Dfs, rank: map<string, nat>)
    requires Invariant(es, nodes, s, rank) && s.stack != [] && !Looks(es, s)
    ensures Invariant(es, nodes, Turn(es, s), rank[Top(s.stack).0 := |rank|])
  {
    hide Closes, Linked, Progress, TopSettled, Ranked, Names;
    TopIsGray(s);
    assert Top(s.stack).0 !in rank by { RankedAreBlack(es, s.color, s.closing, rank); }
    RetireRanks(es, s, rank);
    RetireTop(es, s, Turn(es, s).color);
  }

  lemma TopIsGray(s: Dfs)
    requires s.stack != [] && GrayIsStacked(s)
    ensures Top(s.stack).0 in s.color && s.color[Top(s.stack).0].Gray?
  {
    assert Top(s.stack).0 in Names(s.stack);
  }

  lemma RankedAreBlack(es: seq<Edge>, color: map<string, Color>, closing: seq<string>, rank: map<string, nat>)
    requires Ranked(es, color, closing, rank)
    ensures forall n :: n in rank ==> IsBlack(color, n)
  {
  }

  /** The invariant survives every turn, and turns only ever finish nodes. */
  lemma TurnKeeps(es: seq<Edge>, nodes: set<string>, s: Dfs, rank: map<string, nat>) returns (rank': map<string, nat>)
    requires Invariant(es, nodes, s, rank) && s.stack != []
    ensures Invariant(es, nodes, Turn(es, s), rank')
  {
    rank' := rank;
    if !Looks(es, s) {
      TurnRetire(es, nodes, s, rank);
      rank' := rank[Top(s.stack).0 := |rank|];
    } else {
      match s.color[Looked(es, s).target]
      case Gray => TurnBack(es, nodes, s, rank);
      case White => TurnTree(es, nodes, s, rank);
      case Black => TurnSkip(es, nodes, s, rank);
    }
  }

  function Whites(color: map<string, Color>): set<string> {
    set n | n in color && color[n].White?
  }

  function Remaining(es: seq<Edge>, s: Dfs): nat {
    if Looks(es, s) then |Out(es, Top(s.stack).0)| - Top(s.stack).1 else 0
  }

  /** A turn discovers a node, or pops one, or moves one neighbour further. */
  lemma TurnDecreases(es: seq<Edge>, s: Dfs)
    requires s.stack != [] && Over(es, s.color.Keys) && GrayIsStacked(s)
    ensures Whites(Turn(es, s).color) <= Whites(s.color)
    ensures Whites(Turn(es, s).color) == Whites(s.color) ==>
              || |Turn(es, s).stack| < |s.stack|
              || (|Turn(es, s).stack| == |s.stack| && Remaining(es, Turn(es, s)) < Remaining(es, s))
  {
    TopIsGray(s);
    if Looks(es, s) {
      var t := Looked(es, s).target;
      if s.color[t].White? {
        assert t in Whites(s.color) && t !in Whites(Turn(es, s).color);
      } else {
        assert Top(Advance(s.stack)) == (Top(s.stack).0, Top(s.stack).1 + 1);
      }
    }
  }

  /** Exhausts everything reachable from one white start node. */
  method Explore(es: seq<Edge>, ghost nodes: set<string>, s0: Dfs, start: string, ghost rank0: map<string, nat>)
    returns (s: Dfs, ghost rank: map<string, nat>)
    requires Invariant(es, nodes, s0, rank0) && s0.stack == []
    requires start in s0.color && s0.color[start].White?
    ensures Invariant(es, nodes, s, rank) && s.stack == [] && start !in Whites(s.color)
    ensures Whites(s.color) <= Whites(s0.color)
  {
    hide Ranked, Closes;
    s, rank := s0.(color := s0.color[start := Gray], stack := [(start, 0)]), rank0;
    StartInvariant(es, nodes, s0, start, rank0);
    hide Invariant, Leaving;
    while s.stack != []
      invariant Invariant(es, nodes, s, rank) && Over(es, s.color.Keys) && GrayIsStacked(s)
      invariant Whites(s.color) <= Whites(s0.color) && start !in Whites(s.color)
      decreases Whites(s.color), |s.stack|, Remaining(es, s)
    {
      TurnDecreases(es, s);
      rank := TurnKeeps(es, nodes, s, rank);
      s := Turn(es, s);
      Parts(es, nodes, s, rank);
    }
  }

  lemma Parts(es: seq<Edge>, nodes: set<string>, s: Dfs, rank: map<string, nat>)
    requires Invariant(es, nodes, s, rank)
    ensures Over(es, s.color.Keys) && GrayIsStacked(s)
  {
  }

  lemma StartInvariant(es: seq<Edge>, nodes: set<string>, s: Dfs, start: string, rank: map<string, nat>)
    requires Invariant(es, nodes, s, rank) && s.stack == []
    requires start in s.color && s.color[start].White?
    ensures Invariant(es, nodes, s.(color := s.color[start := Gray], stack := [(start, 0)]), rank)
  {
    hide Closes;
    var s' := s.(color := s.color[start := Gray], stack := [(start, 0)]);
    assert Below(s'.stack) == [];
    assert Names(s.stack) == {} && Names(s'.stack) == {start};
    assert s'.color.Keys == nodes;
    assert Progress(es, s'.color, s'.closing, s'.stack);
  }

  /** The members of a set in code-point order. */
  method SortedNames(names: set<string>) returns (r: seq<string>)
    ensures Sorted(StrLe, r) && Distinct(r) && (forall n :: n in r <==> n in names)
  {
    StrLeOrders();
    r := SortedSet(StrLe, names);
  }

  /** Unreported edges strictly lower the finishing rank, so they cannot form a cycle. */
  lemma {:induction false} PathLowersRank(es: seq<Edge>, rank: map<string, nat>, a: string, p: seq<Edge>, b: string)
    requires forall e :: e in es ==> e.source in rank && e.target in rank && rank[e.target] < rank[e.source]
    requires IsPath(es, Downstream, a, p, b) && p != []
    ensures a in rank && b in rank && rank[b] < rank[a]
  {
    var last := p[|p| - 1];
    if |p| > 1 {
      PathLowersRank(es, rank, a, p[..|p| - 1], last.source);
    } else {
      assert p[..|p| - 1] == [];
    }
  }

  lemma KeptAcyclic(es: seq<Edge>, nodes: set<string>, s: Dfs, rank: map<string, nat>)
    requires Invariant(es, nodes, s, rank) && s.stack == [] && Whites(s.color) == {}
    ensures Acyclic(Kept(es, s.closing))
  {
    var kept := Kept(es, s.closing);
    assert forall n :: n in s.color ==> IsBlack(s.color, n) by {
      forall n | n in s.color ensures IsBlack(s.color, n) {
        assert n !in Names(s.stack) && n !in Whites(s.color);
      }
    }
    forall a, p | IsPath(kept, Downstream, a, p, a) ensures p == [] {
      if p != [] { PathLowersRank(kept, rank, a, p, a); }
    }
  }

  lemma {:induction false} PathMonotone(es: seq<Edge>, es': seq<Edge>, a: string, p: seq<Edge>, b: string)
    requires IsPath(es, Downstream, a, p, b) && forall e :: e in es ==> e in es'
    ensures IsPath(es', Downstream, a, p, b)
  {
    if p != [] { PathMonotone(es, es', a, p[..|p| - 1], p[|p| - 1].source); }
  }

  lemma AcyclicMonotone(es: seq<Edge>, es': seq<Edge>)
    requires Acyclic(es') && forall e :: e in es ==> e in es'
    ensures Acyclic(es)
  {
    forall a, p | IsPath(es, Downstream, a, p, a) ensures p == [] { PathMonotone(es, es', a, p, a); }
  }

  lemma ClosesMonotone(es: seq<Edge>, es': seq<Edge>, id: string)
    requires Closes(es, id) && forall e :: e in es ==> e in es'
    ensures Closes(es', id)
  {
    var e :| OnCycle(es, e) && e.id == id;
    var p :| IsPath(es, Downstream, e.target, p, e.source);
    PathMonotone(es, es', e.target, p, e.source);
    assert OnCycle(es', e);
  }

  lemma CycleRefutes(es: seq<Edge>, id: string)
    requires Closes(es, id)
    ensures !Acyclic(es)
  {
    var e :| OnCycle(es, e) && e.id == id;
    var p :| IsPath(es, Downstream, e.target, p, e.source);
    PathExtend(es, Downstream, e.target, p, e);
    assert IsPath(es, Downstream, e.target, p + [e], e.target);
  }

  /** `closing` cuts `es` down to an acyclic graph and names only edges on cycles. */
  ghost predicate CutsCycles(es: seq<Edge>, closing: seq<string>)
  {
    && Acyclic(Kept(es, closing))
    && (forall id :: id in closing ==> Closes(es, id))
    && (closing == [] <==> Acyclic(es))
  }

  lemma Cut(sorted: seq<Edge>, es: seq<Edge>, found: seq<string>, closing: seq<string>)
    requires forall e :: e in sorted <==> e in es
    requires Acyclic(Kept(sorted, found)) && forall id :: id in found ==> Closes(sorted, id)
    requires forall id :: id in found <==> id in closing
    ensures CutsCycles(es, closing)
  {
    AcyclicMonotone(Kept(es, closing), Kept(sorted, found));
    forall id | id in closing ensures Closes(es, id) { ClosesMonotone(sorted, es, id); }
    if closing == [] {
      AcyclicMonotone(es, Kept(es, closing));
    } else {
      assert closing[0] in closing;
      CycleRefutes(es, closing[0]);
    }
  }

  /** The closing edge ids of the subgraph that `nodeIds` induces, sorted. */
  method Cycles(nodeIds: set<string>, edges: seq<Edge>) returns (closing: seq<string>)
    ensures Sorted(StrLe, closing)
    ensures CutsCycles(Induced(edges, nodeIds), closing)
  {
    hide Invariant, Induced, Leaving, Closes, CutsCycles, Sorted, StrLe;
    var es := Induced(Sort(EdgeLe, edges), nodeIds);
    SortMembers(EdgeLe, edges);
    var starts := SortedNames(nodeIds);
    var s := Dfs(map n | n in nodeIds :: White, [], []);
    ghost var rank: map<string, nat> := map[];
    AllWhite(es, nodeIds, s);
    for i := 0 to |starts|
      invariant Invariant(es, nodeIds, s, rank) && s.stack == [] && s.color.Keys == nodeIds
      invariant forall k :: 0 <= k < i ==> starts[k] !in Whites(s.color)
    {
      var start := starts[i];
      assert start in starts;
      if s.color[start] == White {
        s, rank := Explore(es, nodeIds, s, start, rank);
        Colored(es, nodeIds, s, rank);
      }
    }
    NoneWhite(nodeIds, starts, s);
    KeptAcyclic(es, nodeIds, s, rank);
    closing := Sort(StrLe, s.closing);
    SortedStrings(s.closing);
    Colored(es, nodeIds, s, rank);
    Cut(es, Induced(edges, nodeIds), s.closing, closing);
  }

  lemma AllWhite(es: seq<Edge>, nodes: set<string>, s: Dfs)
    requires s.color.Keys == nodes && s.stack == [] && s.closing == [] && Over(es, nodes)
    requires forall n :: n in nodes ==> s.color[n].White?
    ensures Invariant(es, nodes, s, map[])
  {
  }

  lemma NoneWhite(nodes: set<string>, starts: seq<string>, s: Dfs)
    requires s.color.Keys == nodes && forall n :: n in nodes ==> n in starts
    requires forall k :: 0 <= k < |starts| ==> starts[k] !in Whites(s.color)
    ensures Whites(s.color) == {}
  {
  }

  lemma SortedStrings(s: seq<string>)
    ensures Sorted(StrLe, Sort(StrLe, s)) && forall x :: x in Sort(StrLe, s) <==> x in s
  {
    StrLeOrders();
    SortSorts(StrLe, s);
    SortMembers(StrLe, s);
  }

  lemma Colored(es: seq<Edge>, nodes: set<string>, s: Dfs, rank: map<string, nat>)
    requires Invariant(es, nodes, s, rank)
    ensures s.color.Keys == nodes && forall id :: id in s.closing ==> Closes(es, id)
  {
  }
}
