/** `scan` of `lineage/scan.py`, over an abstract set of documents: which docs are contaminated or stale, and why. */
module ContaminationScan {
  import opened Basics
  import opened LineageGraph
  import opened Ordering
  import opened LineageCycles
  import opened DownstreamWalk
  import opened LineageWalk

  datatype Change = Change(change: string, detail: string)

  /** A human doc: front-matter status and class, and its resolved dependency surface. */
  datatype Doc = Doc(rel: string, status: Option<string>, docClass: Option<string>, deps: set<string>)

  /** `path == []` stands for a reason without a `path` member. */
  datatype Reason = Reason(culprit: string, change: Change, path: seq<string>)

  type Reasons = map<(string, string), Reason>

  const MACHINE_CLASSES := {"machine-object", "machine-group", "machine-index"}

  predicate Statusable(doc: Doc) {
    doc.status.Some? && doc.docClass.Some? && doc.docClass.value !in MACHINE_CLASSES
  }

  /** Human doc path beside each machine doc of the graph, mapped to the node it documents. */
  function Siblings(nodes: seq<Node>): map<string, string>
  {
    if nodes == [] then
      map[]
    else
      var rest, n := Siblings(nodes[..|nodes| - 1]), nodes[|nodes| - 1];
      if n.doc.Some? then rest[HumanPath(n.doc.value) := n.id] else rest
  }

  /** `doc[: -len(".schema.md")] + ".md"` */
  function HumanPath(doc: string): (r: string)
    ensures forall base :: doc == base + ".schema.md" ==> r == base + ".md"
  {
    (if |doc| >= 10 then doc[..|doc| - 10] else "") + ".md"
  }

  predicate Hit(doc: Doc, siblings: map<string, string>, n: string) {
    n in doc.deps || (doc.rel in siblings && siblings[doc.rel] == n)
  }

  /** Edge path `p` from the breaking object to `n` is a way it contaminates `doc`. */
  ghost predicate Route(g: Graph, doc: Doc, fqn: string, p: seq<Edge>, n: string)
  {
    && IsPath(g.edges, Downstream, fqn, p, n)
    && if n == fqn then p == [] && fqn in doc.deps
       else fqn in NodeTable(g.nodes) && Hit(doc, Siblings(g.nodes), n)
  }

  ghost predicate Contaminates(g: Graph, doc: Doc, fqn: string)
  {
    exists p, n :: Route(g, doc, fqn, p, n)
  }

  /** `path` spells a route, and no route is shorter. */
  ghost predicate ShortestRoute(g: Graph, doc: Doc, fqn: string, path: seq<string>)
  {
    && (exists p, n :: Route(g, doc, fqn, p, n) && path == Ids(p))
    && (forall p, n :: Route(g, doc, fqn, p, n) ==> |path| <= |p|)
  }

  /** The walk only ever asks one thing: does the object reach what the doc relies on. */
  lemma ContaminatesIffReaches(g: Graph, doc: Doc, fqn: string)
    ensures Contaminates(g, doc, fqn) <==>
              || fqn in doc.deps
              || (&& fqn in NodeTable(g.nodes)
                  && exists n :: n != fqn && Hit(doc, Siblings(g.nodes), n) && Reachable(g.edges, Downstream, None, fqn, n))
  {
    hide IsPath, NodeTable, Siblings, Hit;
    if Contaminates(g, doc, fqn) {
      var p, n :| Route(g, doc, fqn, p, n);
      assert Within(None, |p|);
      assert Reachable(g.edges, Downstream, None, fqn, n);
    }
    if fqn in doc.deps { DirectRoute(g, doc, fqn); }
    if fqn in NodeTable(g.nodes) && exists n :: n != fqn && Hit(doc, Siblings(g.nodes), n) && Reachable(g.edges, Downstream, None, fqn, n) {
      var n :| n != fqn && Hit(doc, Siblings(g.nodes), n) && Reachable(g.edges, Downstream, None, fqn, n);
      var p :| IsPath(g.edges, Downstream, fqn, p, n) && Within(None, |p|);
      assert Route(g, doc, fqn, p, n);
    }
  }

  ghost predicate DistinctRels(docs: seq<Doc>) {
    forall i, j :: 0 <= i < j < |docs| ==> docs[i].rel != docs[j].rel
  }

  /** The nested `flag` function: first write wins, docs without a status are skipped. */
  function Flag(reasons: Reasons, doc: Doc, fqn: string, change: Change, path: seq<string>): Reasons
  {
    if !Statusable(doc) || (doc.rel, fqn) in reasons then reasons
    else reasons[(doc.rel, fqn) := Reason(fqn, change, path)]
  }

  ghost predicate Targets(docs: seq<Doc>, siblings: map<string, string>, n: string, rel: string)
  {
    exists doc :: doc in docs && doc.rel == rel && Statusable(doc) && Hit(doc, siblings, n)
  }

  /** Exactly the statusable docs that rely on `n` gained the reason, if they had none. */
  ghost predicate Spread(docs: seq<Doc>, siblings: map<string, string>, n: string, fqn: string, change: Change, path: seq<string>,
                         before: Reasons, after: Reasons)
  {
    && (forall k :: k in after <==> k in before || (k.1 == fqn && Targets(docs, siblings, n, k.0)))
    && (forall k :: k in before ==> after[k] == before[k])
    && (forall k :: k in after && k !in before ==> after[k] == Reason(fqn, change, path))
  }

  /** One inner loop over the docs: those that rely on `n` get the reason unless they have one. */
  method FlagDocs(docs: seq<Doc>, siblings: map<string, string>, n: string, fqn: string, change: Change, path: seq<string>, before: Reasons)
    returns (reasons: Reasons)
    ensures Spread(docs, siblings, n, fqn, change, path, before, reasons)
  {
    reasons := before;
    for i := 0 to |docs|
      invariant Spread(docs[..i], siblings, n, fqn, change, path, before, reasons)
    {
      assert docs[..i + 1] == docs[..i] + [docs[i]];
      TargetsSnoc(docs[..i], docs[i], siblings, n);
      if Hit(docs[i], siblings, n) {
        reasons := Flag(reasons, docs[i], fqn, change, path);
      }
    }
    assert docs[..|docs|] == docs;
  }

  lemma TargetsSnoc(docs: seq<Doc>, doc: Doc, siblings: map<string, string>, n: string)
    ensures forall rel :: Targets(docs + [doc], siblings, n, rel) <==>
              Targets(docs, siblings, n, rel) || (doc.rel == rel && Statusable(doc) && Hit(doc, siblings, n))
  {
    forall rel ensures Targets(docs + [doc], siblings, n, rel) <==>
              Targets(docs, siblings, n, rel) || (doc.rel == rel && Statusable(doc) && Hit(doc, siblings, n))
    {
      if Targets(docs + [doc], siblings, n, rel) {
        var d :| d in docs + [doc] && d.rel == rel && Statusable(d) && Hit(d, siblings, n);
      }
      if Targets(docs, siblings, n, rel) {
        var d :| d in docs && d.rel == rel && Statusable(d) && Hit(d, siblings, n);
        assert d in docs + [doc];
      }
      if doc.rel == rel && Statusable(doc) && Hit(doc, siblings, n) { assert doc in docs + [doc]; }
    }
  }

  lemma TargetsOwn(docs: seq<Doc>, doc: Doc, siblings: map<string, string>, n: string)
    requires DistinctRels(docs) && doc in docs
    ensures Targets(docs, siblings, n, doc.rel) <==> Statusable(doc) && Hit(doc, siblings, n)
  {
    if Targets(docs, siblings, n, doc.rel) {
      var d :| d in docs && d.rel == doc.rel && Statusable(d) && Hit(d, siblings, n);
      var i :| 0 <= i < |docs| && docs[i] == d;
      var j :| 0 <= j < |docs| && docs[j] == doc;
      assert i == j;
    }
  }

  predicate StepLe(a: (string, seq<string>), b: (string, seq<string>)) {
    |a.1| < |b.1| || (|a.1| == |b.1| && StrLe(a.0, b.0))
  }

  lemma StepLeOrders()
    ensures TotalPreorder(StepLe)
  {
    StrLeOrders();
  }

  /** The walk's entries in (hops, name) order. */
  method ByHops(paths: map<string, seq<string>>) returns (steps: seq<(string, seq<string>)>)
    ensures forall i, j :: 0 <= i < j < |steps| ==> |steps[i].1| <= |steps[j].1|
    ensures forall n, p :: (n, p) in steps <==> n in paths && paths[n] == p
  {
    var names := SortedNames(paths.Keys);
    assert forall i :: 0 <= i < |names| ==> names[i] in names;
    var entries := seq(|names|, i requires 0 <= i < |names| => (names[i], paths[names[i]]));
    forall n, p ensures (n, p) in entries <==> n in paths && paths[n] == p {
      if n in paths {
        var i :| 0 <= i < |names| && names[i] == n;
        assert entries[i] == (n, paths[n]);
      }
    }
    steps := Sort(StepLe, entries);
    StepLeOrders();
    SortSorts(StepLe, entries);
    SortMembers(StepLe, entries);
  }

  type Steps = seq<(string, seq<string>)>

  /** One of the first `k` steps reaches something `doc` relies on, other than the object itself. */
  ghost predicate ReachedBy(doc: Doc, siblings: map<string, string>, fqn: string, steps: Steps, k: nat)
  {
    exists j :: 0 <= j < k <= |steps| && steps[j].0 != fqn && Hit(doc, siblings, steps[j].0)
  }

  /** The doc's reason path after `k` steps: empty if direct, else that of the first step that reaches it. */
  ghost predicate PathAfter(doc: Doc, siblings: map<string, string>, fqn: string, steps: Steps, k: nat, path: seq<string>)
  {
    && k <= |steps|
    && (fqn in doc.deps ==> path == [])
    && (fqn !in doc.deps ==>
          exists j :: 0 <= j < k && steps[j].0 != fqn && Hit(doc, siblings, steps[j].0) && path == steps[j].1)
    && (forall j :: 0 <= j < k && steps[j].0 != fqn && Hit(doc, siblings, steps[j].0) ==> |path| <= |steps[j].1|)
  }

  /** What the reasons say about one doc after `k` steps of the walk from `fqn`. */
  ghost predicate DocAfter(doc: Doc, siblings: map<string, string>, fqn: string, change: Change, steps: Steps, k: nat, reasons: Reasons)
  {
    && ((doc.rel, fqn) in reasons <==>
          Statusable(doc) && (fqn in doc.deps || ReachedBy(doc, siblings, fqn, steps, k)))
    && ((doc.rel, fqn) in reasons ==>
          && reasons[(doc.rel, fqn)].culprit == fqn && reasons[(doc.rel, fqn)].change == change
          && PathAfter(doc, siblings, fqn, steps, k, reasons[(doc.rel, fqn)].path))
  }

  lemma DocStep(doc: Doc, siblings: map<string, string>, fqn: string, change: Change, steps: Steps, k: nat,
                before: Reasons, after: Reasons)
    requires k < |steps| && (forall i, j :: 0 <= i < j < |steps| ==> |steps[i].1| <= |steps[j].1|)
    requires DocAfter(doc, siblings, fqn, change, steps, k, before)
    requires (doc.rel, fqn) in before ==> (doc.rel, fqn) in after && after[(doc.rel, fqn)] == before[(doc.rel, fqn)]
    requires (doc.rel, fqn) !in before ==>
               ((doc.rel, fqn) in after <==> steps[k].0 != fqn && Statusable(doc) && Hit(doc, siblings, steps[k].0))
    requires (doc.rel, fqn) !in before && (doc.rel, fqn) in after ==>
               after[(doc.rel, fqn)] == Reason(fqn, change, steps[k].1)
    ensures DocAfter(doc, siblings, fqn, change, steps, k + 1, after)
  {
    hide Statusable;
    var key := (doc.rel, fqn);
    if steps[k].0 != fqn && Hit(doc, siblings, steps[k].0) {
      assert ReachedBy(doc, siblings, fqn, steps, k + 1);
    }
    assert ReachedBy(doc, siblings, fqn, steps, k) ==> ReachedBy(doc, siblings, fqn, steps, k + 1) by {
      if ReachedBy(doc, siblings, fqn, steps, k) {
        var j :| 0 <= j < k && steps[j].0 != fqn && Hit(doc, siblings, steps[j].0);
      }
    }
    if key in before {
      var path := before[key].path;
      if fqn !in doc.deps {
        var j :| 0 <= j < k && steps[j].0 != fqn && Hit(doc, siblings, steps[j].0) && path == steps[j].1;
        assert |path| <= |steps[k].1|;
      }
    }
  }

  lemma DocDirect(docs: seq<Doc>, doc: Doc, siblings: map<string, string>, fqn: string, change: Change, steps: Steps,
                  before: Reasons, after: Reasons)
    requires doc in docs && DistinctRels(docs) && (doc.rel, fqn) !in before
    requires (doc.rel, fqn) in after <==> Targets(docs, map[], fqn, doc.rel)
    requires (doc.rel, fqn) in after ==> after[(doc.rel, fqn)] == Reason(fqn, change, [])
    ensures DocAfter(doc, siblings, fqn, change, steps, 0, after)
  {
    TargetsOwn(docs, doc, map[], fqn);
  }

  /** Everything `flag` records for one breaking object. */
  ghost predicate Flagged(g: Graph, docs: seq<Doc>, fqn: string, change: Change, reasons: Reasons)
  {
    forall doc :: doc in docs ==>
      && ((doc.rel, fqn) in reasons <==> Statusable(doc) && Contaminates(g, doc, fqn))
      && ((doc.rel, fqn) in reasons ==>
            && reasons[(doc.rel, fqn)].culprit == fqn && reasons[(doc.rel, fqn)].change == change
            && ShortestRoute(g, doc, fqn, reasons[(doc.rel, fqn)].path))
  }

  /** `reasons` adds to `before` only keys of `fqn` that belong to docs. */
  ghost predicate Extends(docs: seq<Doc>, fqn: string, before: Reasons, reasons: Reasons)
  {
    && (forall k :: k in before ==> k in reasons && reasons[k] == before[k])
    && (forall k :: k in reasons && k !in before ==> k.1 == fqn && exists doc :: doc in docs && doc.rel == k.0)
  }

  /** The walk steps that count: none when the object is not a node of the graph. */
  ghost predicate StepsOf(g: Graph, fqn: string, steps: Steps)
  {
    && (forall i, j :: 0 <= i < j < |steps| ==> |steps[i].1| <= |steps[j].1|)
    && if fqn !in NodeTable(g.nodes) then steps == []
       else exists paths :: ShortestPaths(g.edges, fqn, paths) && forall n, p :: (n, p) in steps <==> n in paths && paths[n] == p
  }

  lemma PathBounds(es: seq<Edge>, start: string, paths: map<string, seq<string>>, p: seq<Edge>, n: string)
    requires ShortestPaths(es, start, paths) && IsPath(es, Downstream, start, p, n)
    ensures n in paths && |paths[n]| <= |p|
  {
    hide IsPath;
    assert Within(None, |p|);
    assert Reachable(es, Downstream, None, start, n);
    var q :| IsPath(es, Downstream, start, q, n) && paths[n] == Ids(q) && MinHops(es, Downstream, start, n, |q|);
  }

  lemma RouteIsStep(g: Graph, doc: Doc, fqn: string, steps: Steps, p: seq<Edge>, n: string)
    requires StepsOf(g, fqn, steps) && Route(g, doc, fqn, p, n) && n != fqn
    ensures exists j :: 0 <= j < |steps| && steps[j].0 == n && |steps[j].1| <= |p|
    ensures ReachedBy(doc, Siblings(g.nodes), fqn, steps, |steps|)
  {
    hide IsPath, NodeTable, Siblings, Hit, ShortestPaths;
    var paths :| ShortestPaths(g.edges, fqn, paths) && forall n, p :: (n, p) in steps <==> n in paths && paths[n] == p;
    PathBounds(g.edges, fqn, paths, p, n);
    assert (n, paths[n]) in steps;
    var j :| 0 <= j < |steps| && steps[j] == (n, paths[n]);
  }

  lemma StepIsRoute(g: Graph, doc: Doc, fqn: string, steps: Steps, j: nat)
    requires StepsOf(g, fqn, steps) && j < |steps| && steps[j].0 != fqn && Hit(doc, Siblings(g.nodes), steps[j].0)
    ensures exists p :: Route(g, doc, fqn, p, steps[j].0) && steps[j].1 == Ids(p)
  {
    hide IsPath, NodeTable, Siblings, Hit, MinHops, Reachable;
    var n := steps[j].0;
    var paths :| ShortestPaths(g.edges, fqn, paths) && forall n, p :: (n, p) in steps <==> n in paths && paths[n] == p;
    assert (n, steps[j].1) in steps;
    var p :| IsPath(g.edges, Downstream, fqn, p, n) && paths[n] == Ids(p) && MinHops(g.edges, Downstream, fqn, n, |p|);
    assert Route(g, doc, fqn, p, n);
  }

  lemma DirectRoute(g: Graph, doc: Doc, fqn: string)
    requires fqn in doc.deps
    ensures Contaminates(g, doc, fqn) && ShortestRoute(g, doc, fqn, [])
  {
    assert Route(g, doc, fqn, [], fqn);
    assert Ids([]) == [];
  }

  lemma DocFlagged(g: Graph, doc: Doc, fqn: string, steps: Steps)
    requires StepsOf(g, fqn, steps)
    ensures Contaminates(g, doc, fqn) <==> fqn in doc.deps || ReachedBy(doc, Siblings(g.nodes), fqn, steps, |steps|)
  {
    hide IsPath, StepsOf;
    if fqn in doc.deps { DirectRoute(g, doc, fqn); }
    if ReachedBy(doc, Siblings(g.nodes), fqn, steps, |steps|) {
      var j :| 0 <= j < |steps| && steps[j].0 != fqn && Hit(doc, Siblings(g.nodes), steps[j].0);
      StepIsRoute(g, doc, fqn, steps, j);
    }
    if Contaminates(g, doc, fqn) {
      var p, n :| Route(g, doc, fqn, p, n);
      if n != fqn { RouteIsStep(g, doc, fqn, steps, p, n); }
    }
  }

  lemma DocShortest(g: Graph, doc: Doc, fqn: string, steps: Steps, path: seq<string>)
    requires StepsOf(g, fqn, steps) && PathAfter(doc, Siblings(g.nodes), fqn, steps, |steps|, path)
    ensures ShortestRoute(g, doc, fqn, path)
  {
    hide IsPath, StepsOf, Hit, Siblings, NodeTable;
    if fqn in doc.deps {
      DirectRoute(g, doc, fqn);
    } else {
      var j :| 0 <= j < |steps| && steps[j].0 != fqn && Hit(doc, Siblings(g.nodes), steps[j].0) && path == steps[j].1;
      StepIsRoute(g, doc, fqn, steps, j);
      forall p, n | Route(g, doc, fqn, p, n) ensures |path| <= |p| {
        assert n != fqn;
        RouteIsStep(g, doc, fqn, steps, p, n);
        var i :| 0 <= i < |steps| && steps[i].0 == n && |steps[i].1| <= |p|;
      }
    }
  }

  /** The walk's steps, or none when the object is not a node. */
  method WalkSteps(g: Graph, fqn: string) returns (steps: Steps)
    ensures StepsOf(g, fqn, steps)
  {
    hide ShortestPaths, NodeTable;
    steps := [];
    if fqn in NodeTable(g.nodes) {
      var paths := ContaminationWalk(g, fqn);
      steps := ByHops(paths);
    }
  }

  lemma AllDirect(docs: seq<Doc>, siblings: map<string, string>, fqn: string, change: Change, steps: Steps, before: Reasons, after: Reasons)
    requires DistinctRels(docs) && (forall k :: k in before ==> k.1 != fqn)
    requires Spread(docs, map[], fqn, fqn, change, [], before, after)
    ensures AllAfter(docs, siblings, fqn, change, steps, 0, after)
  {
    hide Targets, DocAfter;
    forall doc | doc in docs ensures DocAfter(doc, siblings, fqn, change, steps, 0, after) {
      DocDirect(docs, doc, siblings, fqn, change, steps, before, after);
    }
  }

  lemma AllStep(docs: seq<Doc>, siblings: map<string, string>, fqn: string, change: Change, steps: Steps, k: nat,
                before: Reasons, after: Reasons)
    requires DistinctRels(docs)
    requires k < |steps| && (forall i, j :: 0 <= i < j < |steps| ==> |steps[i].1| <= |steps[j].1|)
    requires AllAfter(docs, siblings, fqn, change, steps, k, before)
    requires if steps[k].0 == fqn then after == before
             else Spread(docs, siblings, steps[k].0, fqn, change, steps[k].1, before, after)
    ensures AllAfter(docs, siblings, fqn, change, steps, k + 1, after)
  {
    hide Targets, DocAfter, Statusable, Hit;
    forall doc | doc in docs ensures DocAfter(doc, siblings, fqn, change, steps, k + 1, after) {
      TargetsOwn(docs, doc, siblings, steps[k].0);
      DocStep(doc, siblings, fqn, change, steps, k, before, after);
    }
  }

  ghost predicate AllAfter(docs: seq<Doc>, siblings: map<string, string>, fqn: string, change: Change, steps: Steps, k: nat, reasons: Reasons)
  {
    forall doc :: doc in docs ==> DocAfter(doc, siblings, fqn, change, steps, k, reasons)
  }

  lemma SpreadExtends(docs: seq<Doc>, siblings: map<string, string>, n: string, fqn: string, change: Change, path: seq<string>,
                      start: Reasons, before: Reasons, after: Reasons)
    requires Extends(docs, fqn, start, before) && Spread(docs, siblings, n, fqn, change, path, before, after)
    ensures Extends(docs, fqn, start, after)
  {
    TargetsAreDocs(docs, siblings, n);
    hide Targets;
  }

  /** Steps 2 and 3 of the scan for one breaking object. */
  method FlagObject(g: Graph, docs: seq<Doc>, fqn: string, change: Change, before: Reasons) returns (reasons: Reasons)
    requires DistinctRels(docs) && forall k :: k in before ==> k.1 != fqn
    ensures Extends(docs, fqn, before, reasons)
    ensures Flagged(g, docs, fqn, change, reasons)
  {
    hide Siblings, Spread, AllAfter, Flagged;
    var siblings := Siblings(g.nodes);
    var steps := WalkSteps(g, fqn);
    reasons := FlagDocs(docs, map[], fqn, fqn, change, [], before);
    AllDirect(docs, siblings, fqn, change, steps, before, reasons);
    SpreadExtends(docs, map[], fqn, fqn, change, [], before, before, reasons);
    for k := 0 to |steps|
      invariant Extends(docs, fqn, before, reasons)
      invariant AllAfter(docs, siblings, fqn, change, steps, k, reasons)
    {
      ghost var last := reasons;
      if steps[k].0 != fqn {
        reasons := FlagDocs(docs, siblings, steps[k].0, fqn, change, steps[k].1, reasons);
        SpreadExtends(docs, siblings, steps[k].0, fqn, change, steps[k].1, before, last, reasons);
      }
      AllStep(docs, siblings, fqn, change, steps, k, last, reasons);
    }
    AllFlagged(g, docs, fqn, change, steps, reasons);
  }

  lemma TargetsAreDocs(docs: seq<Doc>, siblings: map<string, string>, n: string)
    ensures forall rel :: Targets(docs, siblings, n, rel) ==> exists doc :: doc in docs && doc.rel == rel
  {
  }

  lemma AllFlagged(g: Graph, docs: seq<Doc>, fqn: string, change: Change, steps: Steps, reasons: Reasons)
    requires StepsOf(g, fqn, steps)
    requires AllAfter(docs, Siblings(g.nodes), fqn, change, steps, |steps|, reasons)
    ensures Flagged(g, docs, fqn, change, reasons)
  {
    hide StepsOf, ShortestRoute, Contaminates, ReachedBy, PathAfter, Siblings, Statusable;
    forall doc | doc in docs
      ensures (doc.rel, fqn) in reasons <==> Statusable(doc) && Contaminates(g, doc, fqn)
      ensures (doc.rel, fqn) in reasons ==> ShortestRoute(g, doc, fqn, reasons[(doc.rel, fqn)].path)
    {
      assert DocAfter(doc, Siblings(g.nodes), fqn, change, steps, |steps|, reasons);
      DocFlagged(g, doc, fqn, steps);
      if (doc.rel, fqn) in reasons { DocShortest(g, doc, fqn, steps, reasons[(doc.rel, fqn)].path); }
    }
  }

  /** All reasons, complete for every doc and breaking object. */
  ghost predicate Complete(g: Graph, docs: seq<Doc>, breaking: map<string, Change>, reasons: Reasons)
  {
    && (forall k :: k in reasons ==> k.1 in breaking)
    && (forall fqn :: fqn in breaking ==> Flagged(g, docs, fqn, breaking[fqn], reasons))
  }

  /** The outer loop: breaking objects in name order, one shared dictionary. */
  method CollectReasons(g: Graph, docs: seq<Doc>, breaking: map<string, Change>) returns (reasons: Reasons)
    requires DistinctRels(docs)
    ensures Complete(g, docs, breaking, reasons)
  {
    hide Flagged, Extends, DistinctRels, Sorted;
    var order := SortedNames(breaking.Keys);
    reasons := map[];
    for i := 0 to |order|
      invariant forall k :: k in reasons ==> k.1 in order[..i]
      invariant FlaggedUpTo(g, docs, breaking, order, i, reasons)
    {
      var fqn := order[i];
      assert fqn in order;
      ghost var before := reasons;
      reasons := FlagObject(g, docs, fqn, breaking[fqn], reasons);
      FlaggedMore(g, docs, breaking, order, i, before, reasons);
    }
    assert order[..|order|] == order;
    FlaggedAll(g, docs, breaking, order, reasons);
  }

  ghost predicate FlaggedUpTo(g: Graph, docs: seq<Doc>, breaking: map<string, Change>, order: seq<string>, i: nat, reasons: Reasons)
  {
    i <= |order| && forall j :: 0 <= j < i ==> order[j] in breaking && Flagged(g, docs, order[j], breaking[order[j]], reasons)
  }

  lemma FlaggedMore(g: Graph, docs: seq<Doc>, breaking: map<string, Change>, order: seq<string>, i: nat, before: Reasons, after: Reasons)
    requires i < |order| && order[i] in breaking && (forall j :: 0 <= j < i ==> order[j] != order[i])
    requires FlaggedUpTo(g, docs, breaking, order, i, before) && (forall k :: k in before ==> k.1 in order[..i])
    requires Extends(docs, order[i], before, after) && Flagged(g, docs, order[i], breaking[order[i]], after)
    ensures FlaggedUpTo(g, docs, breaking, order, i + 1, after) && forall k :: k in after ==> k.1 in order[..i + 1]
  {
    hide Flagged;
    assert order[..i + 1] == order[..i] + [order[i]];
    forall j | 0 <= j < i ensures Flagged(g, docs, order[j], breaking[order[j]], after) {
      StillFlagged(g, docs, order[j], breaking[order[j]], order[i], before, after);
    }
  }

  lemma FlaggedAll(g: Graph, docs: seq<Doc>, breaking: map<string, Change>, order: seq<string>, reasons: Reasons)
    requires FlaggedUpTo(g, docs, breaking, order, |order|, reasons) && (forall n :: n in order <==> n in breaking)
    requires forall k :: k in reasons ==> k.1 in order
    ensures Complete(g, docs, breaking, reasons)
  {
    hide Flagged;
    forall fqn | fqn in breaking ensures Flagged(g, docs, fqn, breaking[fqn], reasons) {
      assert fqn in order;
      var j :| 0 <= j < |order| && order[j] == fqn;
    }
  }

  lemma StillFlagged(g: Graph, docs: seq<Doc>, fqn: string, change: Change, other: string, before: Reasons, after: Reasons)
    requires Flagged(g, docs, fqn, change, before) && Extends(docs, other, before, after) && fqn != other
    ensures Flagged(g, docs, fqn, change, after)
  {
    hide Contaminates, ShortestRoute, Statusable;
    forall doc | doc in docs ensures (doc.rel, fqn) in after <==> (doc.rel, fqn) in before {
    }
  }

  datatype Contaminated = Contaminated(doc: string, statusWas: Option<string>, contamination: Reason, reasons: seq<Reason>)

  datatype Stale = Stale(doc: string, statusWas: Option<string>, hits: seq<string>)

  predicate ReasonLe(a: Reason, b: Reason) {
    |a.path| < |b.path| || (|a.path| == |b.path| && StrLe(a.culprit, b.culprit))
  }

  lemma ReasonLeOrders()
    ensures TotalPreorder(ReasonLe)
  {
    StrLeOrders();
  }

  /** `r` is the right reason for `doc` to be contaminated by `r.culprit`. */
  ghost predicate RightReason(g: Graph, breaking: map<string, Change>, doc: Doc, r: Reason)
  {
    && r.culprit in breaking && r.change == breaking[r.culprit]
    && Contaminates(g, doc, r.culprit) && ShortestRoute(g, doc, r.culprit, r.path)
  }

  /** One reason per object. */
  ghost predicate OncePerObject(rs: seq<Reason>) {
    Distinct(rs) && forall r, q :: r in rs && q in rs && r.culprit == q.culprit ==> r == q
  }

  /** The full, ordered reason list of one doc. */
  ghost predicate ReasonsOf(g: Graph, breaking: map<string, Change>, doc: Doc, rs: seq<Reason>)
  {
    && Sorted(ReasonLe, rs) && OncePerObject(rs)
    && (forall r :: r in rs ==> RightReason(g, breaking, doc, r))
    && (forall fqn :: fqn in breaking && Contaminates(g, doc, fqn) ==> exists r :: r in rs && r.culprit == fqn)
  }

  /** The reasons found so far for the objects looked at. */
  ghost predicate ReasonsAmong(g: Graph, breaking: map<string, Change>, doc: Doc, seen: seq<string>, rs: seq<Reason>) {
    && OncePerObject(rs)
    && (forall r :: r in rs ==> RightReason(g, breaking, doc, r) && Statusable(doc) && r.culprit in seen)
    && (forall n :: n in seen && Statusable(doc) && Contaminates(g, doc, n) ==> HasReason(rs, n))
  }

  ghost predicate HasReason(rs: seq<Reason>, n: string) {
    exists r :: r in rs && r.culprit == n
  }

  lemma OneMoreReason(rs: seq<Reason>, r: Reason)
    requires OncePerObject(rs) && !HasReason(rs, r.culprit)
    ensures OncePerObject(rs + [r]) && HasReason(rs + [r], r.culprit) && forall n :: HasReason(rs, n) ==> HasReason(rs + [r], n)
  {
    var all := rs + [r];
    assert forall x :: x in all <==> x in rs || x == r;
    forall n | HasReason(rs, n) ensures HasReason(all, n) { var x :| x in rs && x.culprit == n; assert x in all; }
  }

  lemma ReasonAdded(g: Graph, breaking: map<string, Change>, doc: Doc, seen: seq<string>, rs: seq<Reason>, n: string, more: seq<Reason>)
    requires ReasonsAmong(g, breaking, doc, seen, rs) && n !in seen
    requires more == [] ==> !(Statusable(doc) && Contaminates(g, doc, n))
    requires more != [] ==> |more| == 1 && RightReason(g, breaking, doc, more[0]) && Statusable(doc) && more[0].culprit == n
    ensures ReasonsAmong(g, breaking, doc, seen + [n], rs + more)
  {
    hide RightReason, Contaminates, Statusable;
    if more == [] {
      assert rs + more == rs;
    } else {
      hide OncePerObject;
      assert more == [more[0]];
      assert !HasReason(rs, n);
      OneMoreReason(rs, more[0]);
    }
  }

  lemma SortedReasons(g: Graph, breaking: map<string, Change>, doc: Doc, seen: seq<string>, rs: seq<Reason>)
    requires ReasonsAmong(g, breaking, doc, seen, rs) && forall n :: n in seen <==> n in breaking
    ensures var all := Sort(ReasonLe, rs);
            && (Statusable(doc) ==> ReasonsOf(g, breaking, doc, all))
            && (all != [] <==> Statusable(doc) && exists fqn :: fqn in breaking && Contaminates(g, doc, fqn))
  {
    ReasonLeOrders();
    SortSorts(ReasonLe, rs);
    SortMembers(ReasonLe, rs);
    SortKeepsDistinct(ReasonLe, rs);
    hide Sort, Contaminates, ShortestRoute, Statusable, ReasonLe, Sorted;
    var all := Sort(ReasonLe, rs);
    forall n | n in breaking && Contaminates(g, doc, n) && Statusable(doc) ensures HasReason(all, n) {
      assert HasReason(rs, n);
      var r :| r in rs && r.culprit == n;
      assert r in all;
    }
    if all != [] { assert all[0] in all; }
  }

  /** The reasons recorded for one doc, in (path length, object) order. */
  method DocReasons(g: Graph, docs: seq<Doc>, breaking: map<string, Change>, reasons: Reasons, order: seq<string>, doc: Doc)
    returns (rs: seq<Reason>)
    requires Complete(g, docs, breaking, reasons) && doc in docs
    requires Distinct(order) && forall n :: n in order <==> n in breaking
    ensures Statusable(doc) ==> ReasonsOf(g, breaking, doc, rs)
    ensures rs != [] <==> Statusable(doc) && exists fqn :: fqn in breaking && Contaminates(g, doc, fqn)
  {
    hide Contaminates, ShortestRoute, Statusable, StrLe, ReasonsOf;
    rs := [];
    assert ReasonsAmong(g, breaking, doc, order[..0], rs);
    for i := 0 to |order|
      invariant ReasonsAmong(g, breaking, doc, order[..i], rs)
    {
      hide ReasonsAmong;
      var fqn := order[i];
      assert fqn in order;
      assert Flagged(g, docs, fqn, breaking[fqn], reasons);
      var more := if (doc.rel, fqn) in reasons then [reasons[(doc.rel, fqn)]] else [];
      assert fqn !in order[..i];
      ReasonAdded(g, breaking, doc, order[..i], rs, fqn, more);
      assert order[..i + 1] == order[..i] + [fqn];
      rs := rs + more;
    }
    assert order[..|order|] == order;
    hide ReasonsAmong;
    SortedReasons(g, breaking, doc, order, rs);
    rs := Sort(ReasonLe, rs);
  }

  predicate ContaminatedLe(a: Contaminated, b: Contaminated) {
    StrLe(a.doc, b.doc)
  }

  predicate StaleLe(a: Stale, b: Stale) {
    StrLe(a.doc, b.doc)
  }

  ghost predicate IsContaminated(g: Graph, breaking: map<string, Change>, doc: Doc)
  {
    Statusable(doc) && exists fqn :: fqn in breaking && Contaminates(g, doc, fqn)
  }

  predicate TouchedByAdditive(doc: Doc, additive: map<string, string>) {
    doc.status == Some("verified") && doc.deps * additive.Keys != {}
  }

  /** The entry a contaminated doc must get; `contamination` is its first reason. */
  ghost predicate RightEntry(g: Graph, breaking: map<string, Change>, doc: Doc, c: Contaminated)
  {
    && c.doc == doc.rel && c.statusWas == doc.status
    && c.reasons != [] && c.contamination == c.reasons[0]
    && ReasonsOf(g, breaking, doc, c.reasons)
  }

  ghost predicate RightStale(doc: Doc, additive: map<string, string>, s: Stale)
  {
    && s.doc == doc.rel && s.statusWas == doc.status
    && Sorted(StrLe, s.hits) && (forall f :: f in s.hits <==> f in doc.deps && f in additive)
  }

  /** Steps 2 to 4 for one doc: contaminated, stale, or neither. */
  method Judge(g: Graph, docs: seq<Doc>, breaking: map<string, Change>, additive: map<string, string>,
               reasons: Reasons, order: seq<string>, doc: Doc)
    returns (c: Option<Contaminated>, s: Option<Stale>)
    requires Complete(g, docs, breaking, reasons) && doc in docs && Distinct(order) && forall n :: n in order <==> n in breaking
    ensures c.Some? <==> IsContaminated(g, breaking, doc)
    ensures c.Some? ==> RightEntry(g, breaking, doc, c.value)
    ensures s.Some? <==> !IsContaminated(g, breaking, doc) && TouchedByAdditive(doc, additive)
    ensures s.Some? ==> RightStale(doc, additive, s.value)
  {
    hide Complete, ReasonsOf, Contaminates, Sorted;
    c, s := None, None;
    var rs := DocReasons(g, docs, breaking, reasons, order, doc);
    if rs != [] {
      c := Some(Contaminated(doc.rel, doc.status, rs[0], rs));
    } else if doc.status == Some("verified") {
      var hits := SortedNames(doc.deps * additive.Keys);
      if hits != [] {
        assert hits[0] in hits;
        s := Some(Stale(doc.rel, doc.status, hits));
      } else {
        assert forall f :: f in doc.deps * additive.Keys ==> f in hits;
      }
    }
  }

  datatype ScanResult = ScanResult(contaminated: seq<Contaminated>, stale: seq<Stale>)

  /** The contaminated list has the right entry for every contaminated doc, and nothing else. */
  ghost predicate ContaminatedExact(g: Graph, docs: seq<Doc>, breaking: map<string, Change>, cs: seq<Contaminated>)
  {
    && (forall c :: c in cs ==> EntryFor(g, docs, breaking, c))
    && (forall doc :: doc in docs && IsContaminated(g, breaking, doc) ==> Listed(g, breaking, doc, cs))
  }

  ghost predicate EntryFor(g: Graph, docs: seq<Doc>, breaking: map<string, Change>, c: Contaminated) {
    exists doc :: doc in docs && IsContaminated(g, breaking, doc) && RightEntry(g, breaking, doc, c)
  }

  ghost predicate Listed(g: Graph, breaking: map<string, Change>, doc: Doc, cs: seq<Contaminated>) {
    exists c :: c in cs && RightEntry(g, breaking, doc, c)
  }

  ghost predicate IsStale(g: Graph, breaking: map<string, Change>, additive: map<string, string>, doc: Doc) {
    !IsContaminated(g, breaking, doc) && TouchedByAdditive(doc, additive)
  }

  /** The stale list has the right entry for every other verified doc an additive change touches, and nothing else. */
  ghost predicate StaleExact(g: Graph, docs: seq<Doc>, breaking: map<string, Change>, additive: map<string, string>, ss: seq<Stale>)
  {
    && (forall s :: s in ss ==> StaleFor(g, docs, breaking, additive, s))
    && (forall doc :: doc in docs && IsStale(g, breaking, additive, doc) ==> StaleListed(doc, additive, ss))
  }

  ghost predicate StaleFor(g: Graph, docs: seq<Doc>, breaking: map<string, Change>, additive: map<string, string>, s: Stale) {
    exists doc :: doc in docs && IsStale(g, breaking, additive, doc) && RightStale(doc, additive, s)
  }

  ghost predicate StaleListed(doc: Doc, additive: map<string, string>, ss: seq<Stale>) {
    exists s :: s in ss && RightStale(doc, additive, s)
  }

  /** One entry per doc. */
  ghost predicate OncePerDoc(cs: seq<Contaminated>) {
    Distinct(cs) && forall c, d :: c in cs && d in cs && c.doc == d.doc ==> c == d
  }

  ghost predicate StaleOncePerDoc(ss: seq<Stale>) {
    Distinct(ss) && forall s, t :: s in ss && t in ss && s.doc == t.doc ==> s == t
  }

  lemma EntryOnce(g: Graph, docs: seq<Doc>, breaking: map<string, Change>, cs: seq<Contaminated>, c: Contaminated)
    requires ContaminatedExact(g, docs, breaking, cs) && OncePerDoc(cs) && forall d :: d in docs ==> d.rel != c.doc
    ensures OncePerDoc(cs + [c])
  {
    hide IsContaminated, ReasonsOf;
    forall x | x in cs ensures x.doc != c.doc { assert EntryFor(g, docs, breaking, x); }
    hide ContaminatedExact;
    assert forall x :: x in cs + [c] <==> x in cs || x == c;
  }

  lemma StaleOnce(g: Graph, docs: seq<Doc>, breaking: map<string, Change>, additive: map<string, string>, ss: seq<Stale>, s: Stale)
    requires StaleExact(g, docs, breaking, additive, ss) && StaleOncePerDoc(ss) && forall d :: d in docs ==> d.rel != s.doc
    ensures StaleOncePerDoc(ss + [s])
  {
    hide IsStale, Sorted;
    forall x | x in ss ensures x.doc != s.doc { assert StaleFor(g, docs, breaking, additive, x); }
    hide StaleExact;
    assert forall x :: x in ss + [s] <==> x in ss || x == s;
  }

  lemma SortedOnce(cs: seq<Contaminated>, ss: seq<Stale>)
    requires OncePerDoc(cs) && StaleOncePerDoc(ss)
    ensures OncePerDoc(Sort(ContaminatedLe, cs)) && StaleOncePerDoc(Sort(StaleLe, ss))
  {
    SortKeepsDistinct(ContaminatedLe, cs);
    SortMembers(ContaminatedLe, cs);
    SortKeepsDistinct(StaleLe, ss);
    SortMembers(StaleLe, ss);
    hide Sort;
  }

  lemma EarlierRels(docs: seq<Doc>, i: nat)
    requires DistinctRels(docs) && i < |docs|
    ensures forall d :: d in docs[..i] ==> d.rel != docs[i].rel
  {
  }

  lemma ContaminatedMore(g: Graph, docs: seq<Doc>, doc: Doc, breaking: map<string, Change>, cs: seq<Contaminated>, more: seq<Contaminated>)
    requires ContaminatedExact(g, docs, breaking, cs)
    requires more != [] <==> IsContaminated(g, breaking, doc)
    requires forall c :: c in more ==> RightEntry(g, breaking, doc, c)
    ensures ContaminatedExact(g, docs + [doc], breaking, cs + more)
  {
    hide IsContaminated, RightEntry;
    var all, cs' := docs + [doc], cs + more;
    forall x | x in cs' ensures EntryFor(g, all, breaking, x) {
      if x in cs {
        var d :| d in docs && IsContaminated(g, breaking, d) && RightEntry(g, breaking, d, x);
        assert d in all;
      } else {
        assert doc in all;
      }
    }
    forall d | d in all && IsContaminated(g, breaking, d) ensures Listed(g, breaking, d, cs') {
      if d in docs {
        var x :| x in cs && RightEntry(g, breaking, d, x);
        assert x in cs';
      } else {
        assert more[0] in more && more[0] in cs';
      }
    }
  }

  lemma StaleMore(g: Graph, docs: seq<Doc>, doc: Doc, breaking: map<string, Change>, additive: map<string, string>, ss: seq<Stale>, more: seq<Stale>)
    requires StaleExact(g, docs, breaking, additive, ss)
    requires more != [] <==> IsStale(g, breaking, additive, doc)
    requires forall s :: s in more ==> RightStale(doc, additive, s)
    ensures StaleExact(g, docs + [doc], breaking, additive, ss + more)
  {
    hide IsStale, RightStale;
    var all, ss' := docs + [doc], ss + more;
    forall x | x in ss' ensures StaleFor(g, all, breaking, additive, x) {
      if x in ss {
        var d :| d in docs && IsStale(g, breaking, additive, d) && RightStale(d, additive, x);
        assert d in all;
      } else {
        assert doc in all;
      }
    }
    forall d | d in all && IsStale(g, breaking, additive, d) ensures StaleListed(d, additive, ss') {
      if d in docs {
        var x :| x in ss && RightStale(d, additive, x);
        assert x in ss';
      } else {
        assert more[0] in more && more[0] in ss';
      }
    }
  }

  lemma SameContaminated(g: Graph, docs: seq<Doc>, breaking: map<string, Change>, cs: seq<Contaminated>, cs': seq<Contaminated>)
    requires ContaminatedExact(g, docs, breaking, cs) && forall c :: c in cs <==> c in cs'
    ensures ContaminatedExact(g, docs, breaking, cs')
  {
    hide IsContaminated, RightEntry;
    forall d | d in docs && IsContaminated(g, breaking, d) ensures Listed(g, breaking, d, cs') {
      assert Listed(g, breaking, d, cs);
      var x :| x in cs && RightEntry(g, breaking, d, x);
      assert x in cs';
    }
  }

  lemma SameStale(g: Graph, docs: seq<Doc>, breaking: map<string, Change>, additive: map<string, string>, ss: seq<Stale>, ss': seq<Stale>)
    requires StaleExact(g, docs, breaking, additive, ss) && forall s :: s in ss <==> s in ss'
    ensures StaleExact(g, docs, breaking, additive, ss')
  {
    hide IsStale, RightStale;
    forall d | d in docs && IsStale(g, breaking, additive, d) ensures StaleListed(d, additive, ss') {
      assert StaleListed(d, additive, ss);
      var x :| x in ss && RightStale(d, additive, x);
      assert x in ss';
    }
  }

  lemma SortedLists(cs: seq<Contaminated>, ss: seq<Stale>)
    ensures Sorted(ContaminatedLe, Sort(ContaminatedLe, cs)) && forall c :: c in cs <==> c in Sort(ContaminatedLe, cs)
    ensures Sorted(StaleLe, Sort(StaleLe, ss)) && forall s :: s in ss <==> s in Sort(StaleLe, ss)
  {
    StrLeOrders();
    SortSorts(ContaminatedLe, cs);
    SortMembers(ContaminatedLe, cs);
    SortSorts(StaleLe, ss);
    SortMembers(StaleLe, ss);
  }

  lemma SameRel(docs: seq<Doc>, d: Doc, e: Doc)
    requires DistinctRels(docs) && d in docs && e in docs && d.rel == e.rel
    ensures d == e
  {
    var i :| 0 <= i < |docs| && docs[i] == d;
    var j :| 0 <= j < |docs| && docs[j] == e;
  }

  lemma ContaminatedDoc(g: Graph, docs: seq<Doc>, breaking: map<string, Change>, cs: seq<Contaminated>, c: Contaminated) returns (d: Doc)
    requires ContaminatedExact(g, docs, breaking, cs) && c in cs
    ensures d in docs && d.rel == c.doc && IsContaminated(g, breaking, d)
  {
    hide IsContaminated, ReasonsOf;
    assert EntryFor(g, docs, breaking, c);
    d :| d in docs && IsContaminated(g, breaking, d) && RightEntry(g, breaking, d, c);
  }

  lemma StaleDoc(g: Graph, docs: seq<Doc>, breaking: map<string, Change>, additive: map<string, string>, ss: seq<Stale>, s: Stale) returns (d: Doc)
    requires StaleExact(g, docs, breaking, additive, ss) && s in ss
    ensures d in docs && d.rel == s.doc && IsStale(g, breaking, additive, d)
  {
    hide IsStale, Sorted;
    assert StaleFor(g, docs, breaking, additive, s);
    d :| d in docs && IsStale(g, breaking, additive, d) && RightStale(d, additive, s);
  }

  lemma OneVerdict(g: Graph, docs: seq<Doc>, breaking: map<string, Change>, additive: map<string, string>,
                   cs: seq<Contaminated>, ss: seq<Stale>, c: Contaminated, s: Stale)
    requires DistinctRels(docs) && ContaminatedExact(g, docs, breaking, cs) && StaleExact(g, docs, breaking, additive, ss)
    requires c in cs && s in ss
    ensures c.doc != s.doc
  {
    hide ContaminatedExact, StaleExact, IsContaminated, DistinctRels;
    var d := ContaminatedDoc(g, docs, breaking, cs, c);
    var e := StaleDoc(g, docs, breaking, additive, ss, s);
    if d.rel == e.rel { SameRel(docs, d, e); }
  }

  lemma EntryDoc(g: Graph, breaking: map<string, Change>, doc: Doc, c: Contaminated)
    requires RightEntry(g, breaking, doc, c)
    ensures c.doc == doc.rel
  {
    hide ReasonsOf;
  }

  lemma StaleDocOf(doc: Doc, additive: map<string, string>, s: Stale)
    requires RightStale(doc, additive, s)
    ensures s.doc == doc.rel
  {
    hide Sorted;
  }

  lemma EntryAdded(g: Graph, docs: seq<Doc>, i: nat, breaking: map<string, Change>, cs: seq<Contaminated>, c: Option<Contaminated>)
    requires DistinctRels(docs) && i < |docs| && ContaminatedExact(g, docs[..i], breaking, cs) && OncePerDoc(cs)
    requires (c.Some? <==> IsContaminated(g, breaking, docs[i])) && (c.Some? ==> RightEntry(g, breaking, docs[i], c.value))
    ensures var cs' := cs + (if c.Some? then [c.value] else []);
            ContaminatedExact(g, docs[..i + 1], breaking, cs') && OncePerDoc(cs')
  {
    EarlierRels(docs, i);
    if c.Some? { EntryDoc(g, breaking, docs[i], c.value); }
    hide ContaminatedExact, OncePerDoc, IsContaminated, RightEntry, DistinctRels;
    var front, doc := docs[..i], docs[i];
    assert docs[..i + 1] == front + [doc];
    if c.Some? {
      assert forall x :: x in [c.value] ==> x == c.value;
      ContaminatedMore(g, front, doc, breaking, cs, [c.value]);
      EntryOnce(g, front, breaking, cs, c.value);
    } else {
      ContaminatedMore(g, front, doc, breaking, cs, []);
      assert cs + [] == cs;
    }
  }

  lemma StaleAdded(g: Graph, docs: seq<Doc>, i: nat, breaking: map<string, Change>, additive: map<string, string>, ss: seq<Stale>, s: Option<Stale>)
    requires DistinctRels(docs) && i < |docs| && StaleExact(g, docs[..i], breaking, additive, ss) && StaleOncePerDoc(ss)
    requires (s.Some? <==> IsStale(g, breaking, additive, docs[i])) && (s.Some? ==> RightStale(docs[i], additive, s.value))
    ensures var ss' := ss + (if s.Some? then [s.value] else []);
            StaleExact(g, docs[..i + 1], breaking, additive, ss') && StaleOncePerDoc(ss')
  {
    EarlierRels(docs, i);
    if s.Some? { StaleDocOf(docs[i], additive, s.value); }
    hide StaleExact, StaleOncePerDoc, IsStale, RightStale, DistinctRels;
    var front, doc := docs[..i], docs[i];
    assert docs[..i + 1] == front + [doc];
    if s.Some? {
      assert forall x :: x in [s.value] ==> x == s.value;
      StaleMore(g, front, doc, breaking, additive, ss, [s.value]);
      StaleOnce(g, front, breaking, additive, ss, s.value);
    } else {
      StaleMore(g, front, doc, breaking, additive, ss, []);
      assert ss + [] == ss;
    }
  }

  /** The scan over classified changes: exact, sorted, one entry per doc, and never both verdicts for one doc. */
  method Scan(g: Graph, docs: seq<Doc>, breaking: map<string, Change>, additive: map<string, string>) returns (r: ScanResult)
    requires DistinctRels(docs)
    ensures ContaminatedExact(g, docs, breaking, r.contaminated) && Sorted(ContaminatedLe, r.contaminated) && OncePerDoc(r.contaminated)
    ensures StaleExact(g, docs, breaking, additive, r.stale) && Sorted(StaleLe, r.stale) && StaleOncePerDoc(r.stale)
    ensures forall c, s :: c in r.contaminated && s in r.stale ==> c.doc != s.doc
  {
    hide ContaminatedExact, StaleExact, Complete, IsContaminated, RightEntry, RightStale, TouchedByAdditive, Sorted, DistinctRels,
         OncePerDoc, StaleOncePerDoc;
    var reasons := CollectReasons(g, docs, breaking);
    var order := SortedNames(breaking.Keys);
    var cs: seq<Contaminated>, ss: seq<Stale> := [], [];
    NothingYet(g, breaking, additive);
    for i := 0 to |docs|
      invariant ContaminatedExact(g, docs[..i], breaking, cs) && StaleExact(g, docs[..i], breaking, additive, ss)
      invariant OncePerDoc(cs) && StaleOncePerDoc(ss)
    {
      var c, s := Judge(g, docs, breaking, additive, reasons, order, docs[i]);
      EntryAdded(g, docs, i, breaking, cs, c);
      StaleAdded(g, docs, i, breaking, additive, ss, s);
      cs, ss := cs + (if c.Some? then [c.value] else []), ss + (if s.Some? then [s.value] else []);
    }
    assert docs[..|docs|] == docs;
    r := ScanResult(Sort(ContaminatedLe, cs), Sort(StaleLe, ss));
    SortedLists(cs, ss);
    SortedOnce(cs, ss);
    SameContaminated(g, docs, breaking, cs, r.contaminated);
    SameStale(g, docs, breaking, additive, ss, r.stale);
    forall c, s | c in r.contaminated && s in r.stale ensures c.doc != s.doc {
      OneVerdict(g, docs, breaking, additive, r.contaminated, r.stale, c, s);
    }
  }

  lemma NothingYet(g: Graph, breaking: map<string, Change>, additive: map<string, string>)
    ensures ContaminatedExact(g, [], breaking, []) && StaleExact(g, [], breaking, additive, [])
    ensures OncePerDoc([]) && StaleOncePerDoc([])
  {
  }

  // ---------------------------------------------------------------------------
  // Reading the lists

  ghost predicate Reached(g: Graph, breaking: map<string, Change>, doc: Doc) {
    exists fqn :: fqn in breaking && Contaminates(g, doc, fqn)
  }

  /** Only a doc with a status and a class of its own can be marked; machine docs never are. */
  predicate HumanOwned(doc: Doc) {
    && doc.status.Some? && doc.docClass.Some?
    && doc.docClass.value != "machine-object" && doc.docClass.value != "machine-group" && doc.docClass.value != "machine-index"
  }

  /** A doc is listed as contaminated exactly if it is human-owned and a breaking object reaches it. */
  lemma ContaminatedIff(g: Graph, docs: seq<Doc>, breaking: map<string, Change>, cs: seq<Contaminated>, doc: Doc)
    requires DistinctRels(docs) && doc in docs && ContaminatedExact(g, docs, breaking, cs)
    ensures (exists c :: c in cs && c.doc == doc.rel) <==> HumanOwned(doc) && Reached(g, breaking, doc)
  {
    MarkedIff(g, breaking, doc);
    hide IsContaminated, HumanOwned, Reached, DistinctRels, ContaminatedExact;
    ContaminatedHere(g, docs, breaking, cs, doc);
  }

  lemma MarkedIff(g: Graph, breaking: map<string, Change>, doc: Doc)
    ensures IsContaminated(g, breaking, doc) <==> HumanOwned(doc) && Reached(g, breaking, doc)
  {
    hide Contaminates;
  }

  lemma ContaminatedHere(g: Graph, docs: seq<Doc>, breaking: map<string, Change>, cs: seq<Contaminated>, doc: Doc)
    requires DistinctRels(docs) && doc in docs && ContaminatedExact(g, docs, breaking, cs)
    ensures (exists c :: c in cs && c.doc == doc.rel) <==> IsContaminated(g, breaking, doc)
  {
    hide IsContaminated, DistinctRels, RightEntry;
    if c :| c in cs && c.doc == doc.rel {
      var d := ContaminatedDoc(g, docs, breaking, cs, c);
      SameRel(docs, d, doc);
    }
    if IsContaminated(g, breaking, doc) {
      assert Listed(g, breaking, doc, cs);
      var c :| c in cs && RightEntry(g, breaking, doc, c);
      EntryDoc(g, breaking, doc, c);
    }
  }

  /** A doc is listed as stale exactly if it is verified, not contaminated, and declares an object that changed additively. */
  lemma StaleIff(g: Graph, docs: seq<Doc>, breaking: map<string, Change>, additive: map<string, string>, ss: seq<Stale>, doc: Doc)
    requires DistinctRels(docs) && doc in docs && StaleExact(g, docs, breaking, additive, ss)
    ensures (exists s :: s in ss && s.doc == doc.rel) <==>
              && doc.status == Some("verified") && !(HumanOwned(doc) && Reached(g, breaking, doc))
              && exists f :: f in doc.deps && f in additive
  {
    MarkedIff(g, breaking, doc);
    TouchedIff(doc, additive);
    hide IsContaminated, HumanOwned, Reached, DistinctRels, TouchedByAdditive, StaleExact, Contaminates;
    StaleHere(g, docs, breaking, additive, ss, doc);
  }

  lemma StaleHere(g: Graph, docs: seq<Doc>, breaking: map<string, Change>, additive: map<string, string>, ss: seq<Stale>, doc: Doc)
    requires DistinctRels(docs) && doc in docs && StaleExact(g, docs, breaking, additive, ss)
    ensures (exists s :: s in ss && s.doc == doc.rel) <==> IsStale(g, breaking, additive, doc)
  {
    hide IsStale, DistinctRels, RightStale;
    if s :| s in ss && s.doc == doc.rel {
      var d := StaleDoc(g, docs, breaking, additive, ss, s);
      SameRel(docs, d, doc);
    }
    if IsStale(g, breaking, additive, doc) {
      assert StaleListed(doc, additive, ss);
      var s :| s in ss && RightStale(doc, additive, s);
      StaleDocOf(doc, additive, s);
    }
  }

  lemma TouchedIff(doc: Doc, additive: map<string, string>)
    ensures TouchedByAdditive(doc, additive) <==> doc.status == Some("verified") && exists f :: f in doc.deps && f in additive
  {
    if f :| f in doc.deps && f in additive { assert f in doc.deps * additive.Keys; }
    if doc.deps * additive.Keys != {} { var f :| f in doc.deps * additive.Keys; }
  }

  /** The contamination a doc records is the shortest of all routes to it, and the first by name among equally short ones. */
  lemma NearestRecorded(g: Graph, breaking: map<string, Change>, doc: Doc, c: Contaminated, fqn: string, p: seq<Edge>, n: string)
    requires RightEntry(g, breaking, doc, c) && fqn in breaking && Route(g, doc, fqn, p, n)
    ensures |c.contamination.path| <= |p|
    ensures |c.contamination.path| == |p| ==> StrLe(c.contamination.culprit, fqn)
  {
    assert Contaminates(g, doc, fqn);
    hide Route, Contaminates, StrLe, OncePerObject;
    StrLeOrders();
    var r :| r in c.reasons && r.culprit == fqn;
    assert RightReason(g, breaking, doc, r);
    assert |r.path| <= |p|;
    var i :| 0 <= i < |c.reasons| && c.reasons[i] == r;
    if i > 0 { assert ReasonLe(c.reasons[0], c.reasons[i]); }
  }

  // ---------------------------------------------------------------------------
  // Undeclared references

  datatype Reference = Reference(doc: string, name: string)

  predicate ReferenceLe(a: Reference, b: Reference) {
    SeqLe([a.doc, a.name], [b.doc, b.name])
  }

  /** A doc's text mentions a searched name that the doc does not declare; `mentions` is the text search. */
  predicate Undeclared(doc: Doc, names: set<string>, mentions: (string, string) -> bool, x: Reference) {
    x.doc == doc.rel && x.name in names && x.name !in doc.deps && mentions(doc.rel, x.name)
  }

  ghost predicate UndeclaredIn(docs: seq<Doc>, names: set<string>, mentions: (string, string) -> bool, x: Reference) {
    exists doc :: doc in docs && Undeclared(doc, names, mentions, x)
  }

  method DocReferences(doc: Doc, names: set<string>, mentions: (string, string) -> bool) returns (r: seq<Reference>)
    ensures Distinct(r) && forall x :: x in r <==> Undeclared(doc, names, mentions, x)
  {
    r := [];
    var order := SortedNames(names);
    for i := 0 to |order|
      invariant Distinct(r) && forall x :: x in r <==> Undeclared(doc, names, mentions, x) && x.name in order[..i]
    {
      assert order[i] in order && order[i] !in order[..i];
      if order[i] !in doc.deps && mentions(doc.rel, order[i]) { r := r + [Reference(doc.rel, order[i])]; }
      assert order[..i + 1] == order[..i] + [order[i]];
    }
    assert order[..|order|] == order;
  }

  lemma ReferenceOrder()
    ensures TotalPreorder(ReferenceLe)
  {
    SeqLeOrders();
    hide SeqLe;
    forall x, y ensures ReferenceLe(x, y) || ReferenceLe(y, x) {}
    forall x, y, z | ReferenceLe(x, y) && ReferenceLe(y, z) ensures ReferenceLe(x, z) {}
  }

  /** Exactly the undeclared mentions, each once, in order of doc and name. */
  method UndeclaredReferences(docs: seq<Doc>, names: set<string>, mentions: (string, string) -> bool) returns (r: seq<Reference>)
    requires DistinctRels(docs)
    ensures Distinct(r) && Sorted(ReferenceLe, r) && forall x :: x in r <==> UndeclaredIn(docs, names, mentions, x)
  {
    var all: seq<Reference> := [];
    for i := 0 to |docs|
      invariant Distinct(all) && forall x :: x in all <==> UndeclaredIn(docs[..i], names, mentions, x)
    {
      var more := DocReferences(docs[i], names, mentions);
      EarlierRels(docs, i);
      hide DistinctRels;
      assert docs[..i + 1] == docs[..i] + [docs[i]];
      forall x ensures UndeclaredIn(docs[..i + 1], names, mentions, x) <==> UndeclaredIn(docs[..i], names, mentions, x) || Undeclared(docs[i], names, mentions, x) {
        MoreUndeclared(docs[..i], docs[i], names, mentions, x);
      }
      DistinctTogether(all, more);
      all := all + more;
    }
    assert docs[..|docs|] == docs;
    ReferenceOrder();
    SortSorts(ReferenceLe, all);
    SortMembers(ReferenceLe, all);
    SortKeepsDistinct(ReferenceLe, all);
    r := Sort(ReferenceLe, all);
  }

  lemma MoreUndeclared(docs: seq<Doc>, doc: Doc, names: set<string>, mentions: (string, string) -> bool, x: Reference)
    ensures UndeclaredIn(docs + [doc], names, mentions, x) <==> UndeclaredIn(docs, names, mentions, x) || Undeclared(doc, names, mentions, x)
  {
    hide Undeclared;
    assert forall d :: d in docs + [doc] <==> d in docs || d == doc;
  }

  lemma DistinctTogether(a: seq<Reference>, b: seq<Reference>)
    requires Distinct(a) && Distinct(b) && forall x :: x in a ==> x !in b
    ensures Distinct(a + b)
  {
    var c := a + b;
    forall i, j | 0 <= i < j < |c| ensures c[i] != c[j] {
      if i < |a| <= j { assert c[i] in a && c[j] in b; }
    }
  }
}
