/**
 The breadth-first search argument shared by the lineage walk and the contamination
 walk.  `via[n]` is the edge path by which `n` was first reached; `q` is the queue.
 */
module Search {
  import opened Basics
  import opened LineageGraph

  type Via = map<string, seq<Edge>>

  ghost predicate Rooted(es: seq<Edge>, w: Walk, bound: Option<nat>, root: string, via: Via)
  {
    && root in via && via[root] == []
    && forall n :: n in via ==> IsPath(es, w, root, via[n], n) && Within(bound, |via[n]|)
  }

  /** Node `u` has been expanded: every edge out of it leads at most one hop further. */
  ghost predicate Expanded(via: Via, w: Walk, u: string, out: seq<Edge>)
    requires u in via
  {
    forall e :: e in out ==> Far(w, e) in via && |via[Far(w, e)]| <= |via[u]| + 1
  }

  ghost predicate Levels(via: Via, q: seq<string>, low: nat)
  {
    && (forall k :: 0 <= k < |q| ==> q[k] in via && low <= |via[q[k]]|)
    && (forall j, k :: 0 <= j < k < |q| ==> |via[q[j]]| <= |via[q[k]]|)
    && (forall n :: n in via ==> |via[n]| <= low + 1)
  }

  /** Between two dequeues: everything reached and no longer queued has been expanded. */
  ghost predicate Frontier(es: seq<Edge>, w: Walk, bound: Option<nat>, root: string, via: Via, q: seq<string>)
  {
    && Rooted(es, w, bound, root, via)
    && (q == [] || (q[0] in via && Levels(via, q, |via[q[0]]|)))
    && (forall u :: u in via && u !in q && Inside(bound, |via[u]|) ==> Expanded(via, w, u, Leaving(es, w, u)))
  }

  /** While `u` is being expanded and the edges in `out` have been looked at. */
  ghost predicate Expanding(es: seq<Edge>, w: Walk, bound: Option<nat>, root: string, via: Via, q: seq<string>,
                            u: string, out: seq<Edge>)
  {
    && Rooted(es, w, bound, root, via)
    && u in via && Levels(via, q, |via[u]|)
    && Expanded(via, w, u, out)
    && (forall v :: v in via && v !in q && v != u && Inside(bound, |via[v]|) ==> Expanded(via, w, v, Leaving(es, w, v)))
  }

  lemma Start(es: seq<Edge>, w: Walk, bound: Option<nat>, root: string)
    ensures Frontier(es, w, bound, root, map[root := []], [root])
  {
  }

  lemma Dequeue(es: seq<Edge>, w: Walk, bound: Option<nat>, root: string, via: Via, q: seq<string>)
    requires Frontier(es, w, bound, root, via, q) && q != []
    ensures Expanding(es, w, bound, root, via, q[1..], q[0], [])
  {
    assert forall v :: v in q <==> v == q[0] || v in q[1..];
  }

  lemma Known(es: seq<Edge>, w: Walk, bound: Option<nat>, root: string, via: Via, q: seq<string>,
              u: string, out: seq<Edge>, e: Edge)
    requires Expanding(es, w, bound, root, via, q, u, out) && Far(w, e) in via
    ensures Expanding(es, w, bound, root, via, q, u, out + [e])
  {
  }

  lemma DiscoverRooted(es: seq<Edge>, w: Walk, bound: Option<nat>, root: string, via: Via, u: string, e: Edge)
    requires Rooted(es, w, bound, root, via) && u in via
    requires e in es && Near(w, e) == u && Far(w, e) !in via && Inside(bound, |via[u]|)
    ensures Rooted(es, w, bound, root, via[Far(w, e) := via[u] + [e]])
  {
    PathExtend(es, w, root, via[u], e);
    hide IsPath;
  }

  lemma DiscoverLevels(via: Via, q: seq<string>, u: string, v: string, p: seq<Edge>)
    requires u in via && v !in via && Levels(via, q, |via[u]|) && |p| == |via[u]| + 1
    ensures Levels(via[v := p], q + [v], |via[u]|)
  {
  }

  lemma DiscoverExpanded(via: Via, w: Walk, u: string, out: seq<Edge>, v: string, p: seq<Edge>)
    requires u in via && v !in via && Expanded(via, w, u, out)
    ensures Expanded(via[v := p], w, u, out)
  {
  }

  lemma Discover(es: seq<Edge>, w: Walk, bound: Option<nat>, root: string, via: Via, q: seq<string>,
                 u: string, out: seq<Edge>, e: Edge)
    requires Expanding(es, w, bound, root, via, q, u, out)
    requires e in es && Near(w, e) == u && Far(w, e) !in via && Inside(bound, |via[u]|)
    ensures Expanding(es, w, bound, root, via[Far(w, e) := via[u] + [e]], q + [Far(w, e)], u, out + [e])
  {
    hide Rooted, Levels;
    var v := Far(w, e);
    var via', q' := via[v := via[u] + [e]], q + [v];
    DiscoverRooted(es, w, bound, root, via, u, e);
    DiscoverLevels(via, q, u, v, via[u] + [e]);
    DiscoverExpanded(via, w, u, out, v, via[u] + [e]);
    assert Expanded(via', w, u, out + [e]);
    hide Expanded;
    assert v in q' && forall n :: n in q ==> n in q';
    forall x | x in via' && x !in q' && x != u && Inside(bound, |via'[x]|)
      ensures Expanded(via', w, x, Leaving(es, w, x))
    {
      DiscoverExpanded(via, w, x, Leaving(es, w, x), v, via[u] + [e]);
    }
  }

  lemma Finish(es: seq<Edge>, w: Walk, bound: Option<nat>, root: string, via: Via, q: seq<string>,
               u: string, out: seq<Edge>)
    requires Expanding(es, w, bound, root, via, q, u, out)
    requires out == Leaving(es, w, u) || !Inside(bound, |via[u]|)
    ensures Frontier(es, w, bound, root, via, q)
  {
    hide Rooted, Expanded, Leaving;
    if q != [] { LevelsRise(via, q, |via[u]|); }
  }

  lemma LevelsRise(via: Via, q: seq<string>, low: nat)
    requires Levels(via, q, low) && q != []
    ensures q[0] in via && Levels(via, q, |via[q[0]]|)
  {
  }

  /** When the queue is empty, nothing within the bound was missed or reached late. */
  lemma {:induction false} Complete(es: seq<Edge>, w: Walk, bound: Option<nat>, root: string, via: Via, p: seq<Edge>, b: string)
    requires Frontier(es, w, bound, root, via, [])
    requires IsPath(es, w, root, p, b) && Within(bound, |p|)
    ensures b in via && |via[b]| <= |p|
  {
    if p != [] {
      var last := p[|p| - 1];
      Complete(es, w, bound, root, via, p[..|p| - 1], Near(w, last));
      var u := Near(w, last);
      assert Expanded(via, w, u, Leaving(es, w, u));
      assert last in Leaving(es, w, u);
    }
  }

  lemma Exact(es: seq<Edge>, w: Walk, bound: Option<nat>, root: string, via: Via)
    requires Frontier(es, w, bound, root, via, [])
    ensures forall n :: n in via <==> Reachable(es, w, bound, root, n)
    ensures forall n :: n in via ==> MinHops(es, w, root, n, |via[n]|)
  {
    forall n ensures n in via <==> Reachable(es, w, bound, root, n) {
      if Reachable(es, w, bound, root, n) {
        var p :| IsPath(es, w, root, p, n) && Within(bound, |p|);
        Complete(es, w, bound, root, via, p, n);
      }
    }
    forall n | n in via ensures MinHops(es, w, root, n, |via[n]|) {
      forall p | IsPath(es, w, root, p, n) ensures |via[n]| <= |p| {
        if Within(bound, |p|) { Complete(es, w, bound, root, via, p, n); }
      }
    }
  }

  /** Nodes a search can ever enqueue. */
  function Universe(es: seq<Edge>, root: string): (r: set<string>)
    ensures root in r && forall e :: e in es ==> e.source in r && e.target in r
  {
    {root} + (set e | e in es :: e.source) + (set e | e in es :: e.target)
  }

  lemma DiscoverShrinks(all: set<string>, seen: set<string>, v: string)
    requires v in all && v !in seen
    ensures |all - (seen + {v})| < |all - seen|
  {
    assert all - seen == (all - (seen + {v})) + {v};
  }

  lemma Shrinks(all: set<string>, small: set<string>, large: set<string>)
    requires small < large <= all
    ensures |all - large| < |all - small|
  {
    var v :| v in large && v !in small;
    DiscoverShrinks(all, small, v);
    assert all - large <= all - (small + {v});
    SubsetSize(all - large, all - (small + {v}));
  }

  lemma SubsetSize(a: set<string>, b: set<string>)
    requires a <= b
    ensures |a| <= |b|
  {
    assert b == a + (b - a);
  }
}
