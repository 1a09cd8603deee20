/** `lineage/severity.py`: the downgrade of definition changes whose lineage did not change. */
module SeverityFinal {
  import opened Basics
  import opened Snapshots
  import opened Canonical
  import opened Ordering
  import opened SubDiffs
  import opened SnapshotDiffs
  import opened DottedNames
  import L = LineageGraph

  // ---------------------------------------------------------------------------
  // Incoming edges

  predicate MappingLe(a: L.Mapping, b: L.Mapping) {
    SeqLe([a.to] + a.from, [b.to] + b.from)
  }

  function SortedFrom(m: L.Mapping): L.Mapping {
    m.(from := Sort(StrLe, m.from))
  }

  /** Column mappings up to the order in which they are listed. */
  function Normalized(columns: seq<L.Mapping>): seq<L.Mapping> {
    Sort(MappingLe, Map(SortedFrom, columns))
  }

  /** A mapping without any order: its target, and how often each source is listed. */
  function Bag(m: L.Mapping): (string, multiset<string>) {
    (m.to, multiset(m.from))
  }

  lemma SameBag(x: L.Mapping, y: L.Mapping)
    ensures SortedFrom(x) == SortedFrom(y) <==> Bag(x) == Bag(y)
  {
    StrLeOrders();
    SortPermutes(StrLe, x.from);
    SortPermutes(StrLe, y.from);
    if Bag(x) == Bag(y) { SortPermutationInvariant(StrLe, x.from, y.from); }
  }

  /** Lists whose images under one function are rearrangements of each other, under a function that tells as much. */
  lemma {:induction false} ImagesRearrange<A, B, C>(f: A -> B, g: A -> C, a: seq<A>, b: seq<A>)
    requires forall x, y :: f(x) == f(y) ==> g(x) == g(y)
    requires multiset(Map(f, a)) == multiset(Map(f, b))
    ensures multiset(Map(g, a)) == multiset(Map(g, b))
  {
    if a == [] {
      assert Map(f, a) == [];
      assert |multiset(Map(f, b))| == 0;
      assert b == [] && Map(g, a) == [] == Map(g, b);
    } else {
      HeadAndTail(f, a);
      assert f(a[0]) in multiset(Map(f, b));
      var i :| 0 <= i < |b| && Map(f, b)[i] == f(a[0]);
      var rest := b[..i] + b[i + 1..];
      WithoutOne(f, b, i);
      WithoutOne(g, b, i);
      Cancels(f(a[0]), multiset(Map(f, a[1..])), multiset(Map(f, rest)));
      ImagesRearrange(f, g, a[1..], rest);
      HeadAndTail(g, a);
    }
  }

  lemma Cancels<T>(x: T, a: multiset<T>, b: multiset<T>)
    requires multiset{x} + a == multiset{x} + b
    ensures a == b
  {
    assert (multiset{x} + a) - multiset{x} == a && (multiset{x} + b) - multiset{x} == b;
  }

  lemma HeadAndTail<A, B>(f: A -> B, a: seq<A>)
    requires a != []
    ensures multiset(Map(f, a)) == multiset{f(a[0])} + multiset(Map(f, a[1..]))
  {
    assert Map(f, a) == [f(a[0])] + Map(f, a[1..]);
  }

  lemma WithoutOne<A, B>(f: A -> B, b: seq<A>, i: nat)
    requires i < |b|
    ensures multiset(Map(f, b)) == multiset{f(b[i])} + multiset(Map(f, b[..i] + b[i + 1..]))
  {
    assert Map(f, b) == Map(f, b[..i]) + [f(b[i])] + Map(f, b[i + 1..]);
    assert Map(f, b[..i] + b[i + 1..]) == Map(f, b[..i]) + Map(f, b[i + 1..]);
  }

  lemma MappingOrder(s: seq<L.Mapping>)
    ensures TotalPreorder(MappingLe) && TieFree(MappingLe, s)
  {
    SeqLeOrders();
    hide SeqLe;
    forall x, y ensures MappingLe(x, y) || MappingLe(y, x) {}
    forall x, y, z | MappingLe(x, y) && MappingLe(y, z) ensures MappingLe(x, z) {}
    forall x, y | MappingLe(x, y) && MappingLe(y, x) ensures x == y {
      assert [x.to] + x.from == [y.to] + y.from;
      assert ([x.to] + x.from)[0] == x.to && ([x.to] + x.from)[1..] == x.from;
      assert ([y.to] + y.from)[0] == y.to && ([y.to] + y.from)[1..] == y.from;
    }
  }

  /** Mappings normalize alike exactly if they are the same up to the order of the list and of the sources in each. */
  lemma NormalizedIff(a: seq<L.Mapping>, b: seq<L.Mapping>)
    ensures Normalized(a) == Normalized(b) <==> multiset(Map(Bag, a)) == multiset(Map(Bag, b))
  {
    hide MappingLe, Sort, Bag, SortedFrom;
    var x, y := Map(SortedFrom, a), Map(SortedFrom, b);
    forall m, n ensures SortedFrom(m) == SortedFrom(n) <==> Bag(m) == Bag(n) { SameBag(m, n); }
    SortPermutes(MappingLe, x);
    SortPermutes(MappingLe, y);
    if Normalized(a) == Normalized(b) { ImagesRearrange(SortedFrom, Bag, a, b); }
    if multiset(Map(Bag, a)) == multiset(Map(Bag, b)) {
      ImagesRearrange(Bag, SortedFrom, a, b);
      MappingOrder(x);
      SortPermutationInvariant(MappingLe, x, y);
    }
  }

  type Arrivals = map<string, seq<L.Mapping>>

  /** The normalized mappings of the edges into a node, by edge id. */
  function IncomingMap(edges: seq<L.Edge>, fqn: string): Arrivals {
    if edges == [] then map[] else
    var last := edges[|edges| - 1];
    var before := IncomingMap(edges[..|edges| - 1], fqn);
    if last.target == fqn then before[last.id := Normalized(last.columns)] else before
  }

  method Incoming(g: L.Graph, fqn: string) returns (r: Arrivals)
    ensures r == IncomingMap(g.edges, fqn)
  {
    r := map[];
    for i := 0 to |g.edges|
      invariant r == IncomingMap(g.edges[..i], fqn)
    {
      var e := g.edges[i];
      assert g.edges[..i + 1][..i] == g.edges[..i];
      if e.target == fqn {
        r := r[e.id := Normalized(e.columns)];
      }
    }
    assert g.edges[..|g.edges|] == g.edges;
  }

  /** The edges into a node as a set of identities with mappings. */
  ghost function ArrivalSet(edges: seq<L.Edge>, fqn: string): set<(string, seq<L.Mapping>)> {
    set e | e in edges && e.target == fqn :: (e.id, Normalized(e.columns))
  }

  ghost predicate DistinctEdgeIds(edges: seq<L.Edge>) {
    forall i, j :: 0 <= i < j < |edges| ==> edges[i].id != edges[j].id
  }

  lemma {:induction false} IncomingEntries(edges: seq<L.Edge>, fqn: string)
    requires DistinctEdgeIds(edges)
    ensures forall id, c :: (id, c) in ArrivalSet(edges, fqn) <==> id in IncomingMap(edges, fqn) && IncomingMap(edges, fqn)[id] == c
  {
    hide Normalized;
    if edges != [] {
      var n := |edges| - 1;
      var front, last := edges[..n], edges[n];
      IncomingEntries(front, fqn);
      assert edges == front + [last];
      assert ArrivalSet(edges, fqn) == ArrivalSet(front, fqn) + ArrivalSet([last], fqn);
      forall e | e in front ensures e.id != last.id {}
      assert forall c :: (last.id, c) !in ArrivalSet(front, fqn);
    }
  }

  /** The two graphs have equal incoming maps exactly when the same edges with the same mappings arrive. */
  lemma SameIncomingIff(g: seq<L.Edge>, h: seq<L.Edge>, fqn: string)
    requires DistinctEdgeIds(g) && DistinctEdgeIds(h)
    ensures IncomingMap(g, fqn) == IncomingMap(h, fqn) <==> ArrivalSet(g, fqn) == ArrivalSet(h, fqn)
  {
    IncomingEntries(g, fqn);
    IncomingEntries(h, fqn);
    hide ArrivalSet, IncomingMap;
    var a, b := IncomingMap(g, fqn), IncomingMap(h, fqn);
    var s, t := ArrivalSet(g, fqn), ArrivalSet(h, fqn);
    if a == b {
      forall p ensures p in s <==> p in t { assert p == (p.0, p.1); }
    }
    if s == t {
      forall id ensures id in a <==> id in b {
        if id in a { assert (id, a[id]) in s; }
        if id in b { assert (id, b[id]) in t; }
      }
      forall id | id in a ensures a[id] == b[id] { assert (id, a[id]) in s; }
    }
  }

  // ---------------------------------------------------------------------------
  // Finalization

  function Fqn(system: string, i: Identity): string {
    system + "." + i.schema + "." + i.name
  }

  /** The name falls apart, at its dots, into the system and the object's schema and name. */
  predicate NameOf(name: string, system: string, i: Identity) {
    Named(name, system, i.schema, i.name)
  }

  lemma FqnIsName(name: string, system: string, i: Identity)
    ensures NameOf(name, system, i) <==> name == Fqn(system, i)
  {
    NamedIff(name, system, i.schema, i.name);
  }

  predicate Shaping(c: Change) {
    c.ColumnAdded? || c.ColumnRemoved? || c.ColumnTypeChanged? || c.OrdinalChanged?
  }

  predicate ShapeChanged(subs: seq<SubDiff>) {
    exists s :: s in subs && Shaping(s.change)
  }

  predicate HasDowngradable(subs: seq<SubDiff>) {
    exists s :: s in subs && s.downgradable
  }

  /** Under the object's name the same edges with the same mappings arrive in both graphs. */
  ghost predicate SameArrivals(system: string, i: Identity, og: Option<L.Graph>, ng: Option<L.Graph>) {
    og.Some? && ng.Some? && forall name :: NameOf(name, system, i) ==> IncomingMap(og.value.edges, name) == IncomingMap(ng.value.edges, name)
  }

  lemma SameArrivalsAt(system: string, i: Identity, og: L.Graph, ng: L.Graph)
    ensures SameArrivals(system, i, Some(og), Some(ng)) <==> IncomingMap(og.edges, Fqn(system, i)) == IncomingMap(ng.edges, Fqn(system, i))
  {
    hide IncomingMap, NameOf, Fqn;
    forall name ensures NameOf(name, system, i) <==> name == Fqn(system, i) { FqnIsName(name, system, i); }
  }

  /** The edges whose target falls apart into the object's system, schema and name. */
  ghost function ArrivalsOf(edges: seq<L.Edge>, system: string, i: Identity): set<(string, seq<L.Mapping>)> {
    set e | e in edges && NameOf(e.target, system, i) :: (e.id, Normalized(e.columns))
  }

  /** Arrivals are the same exactly if those edges are, by id and mappings. */
  lemma SameArrivalsIff(system: string, i: Identity, og: L.Graph, ng: L.Graph)
    requires DistinctEdgeIds(og.edges) && DistinctEdgeIds(ng.edges)
    ensures SameArrivals(system, i, Some(og), Some(ng)) <==> ArrivalsOf(og.edges, system, i) == ArrivalsOf(ng.edges, system, i)
  {
    hide IncomingMap, NameOf, Fqn, DistinctEdgeIds, Normalized, SameArrivals;
    SameArrivalsAt(system, i, og, ng);
    SameIncomingIff(og.edges, ng.edges, Fqn(system, i));
    forall name ensures NameOf(name, system, i) <==> name == Fqn(system, i) { FqnIsName(name, system, i); }
    assert ArrivalsOf(og.edges, system, i) == ArrivalSet(og.edges, Fqn(system, i));
    assert ArrivalsOf(ng.edges, system, i) == ArrivalSet(ng.edges, Fqn(system, i));
  }

  function Settle(s: SubDiff, allowed: bool): SubDiff {
    if !s.downgradable then s
    else if allowed then s.(downgradable := false, severity := AdditiveWithNote, downgraded := true)
    else s.(downgradable := false)
  }

  /** `f` is the final form of `d`: definition changes are downgraded only with equal shape and equal arrivals. */
  ghost predicate IsFinal(system: string, og: Option<L.Graph>, ng: Option<L.Graph>, d: ObjectDiff, f: ObjectDiff) {
    if !HasDowngradable(d.subs) then f == d else
      && og.Some? && ng.Some?
      && f == d.(subs := f.subs, severity := Some(Worst(f.subs)))
      && f.subs == Map((s: SubDiff) => Settle(s, !ShapeChanged(d.subs) && SameArrivals(system, d.id, og, ng)), d.subs)
  }

  datatype FinalResult = Final(diff: SnapshotDiff) | MissingGraph(id: Identity)

  ghost predicate NeedsGraphs(d: SnapshotDiff) {
    exists x :: x in d.structural && HasDowngradable(x.subs)
  }

  ghost predicate FinalDiff(d: SnapshotDiff, og: Option<L.Graph>, ng: Option<L.Graph>, f: SnapshotDiff) {
    && f == d.(structural := f.structural, finalized := true)
    && |f.structural| == |d.structural|
    && forall k :: 0 <= k < |d.structural| ==> IsFinal(d.system, og, ng, d.structural[k], f.structural[k])
  }

  method FinalizeObject(system: string, og: L.Graph, ng: L.Graph, d: ObjectDiff) returns (f: ObjectDiff)
    requires HasDowngradable(d.subs)
    ensures IsFinal(system, Some(og), Some(ng), d, f)
  {
    hide IncomingMap, Worst, Settle, Fqn, SameArrivals;
    SameArrivalsAt(system, d.id, og, ng);
    var fqn := Fqn(system, d.id);
    var was := Incoming(og, fqn);
    var now := Incoming(ng, fqn);
    var allowed := !ShapeChanged(d.subs) && was == now;
    var subs := [];
    for k := 0 to |d.subs|
      invariant |subs| == k && forall j :: 0 <= j < k ==> subs[j] == Settle(d.subs[j], allowed)
    {
      subs := subs + [Settle(d.subs[k], allowed)];
    }
    assert d.subs != [] && subs != [];
    var severity := MaxSeverity(subs);
    f := d.(subs := subs, severity := Some(severity));
    assert subs == Map((s: SubDiff) => Settle(s, !ShapeChanged(d.subs) && SameArrivals(system, d.id, Some(og), Some(ng))), d.subs);
  }

  method FinalizeSeverity(d: SnapshotDiff, og: Option<L.Graph>, ng: Option<L.Graph>) returns (r: FinalResult)
    ensures r.MissingGraph? <==> (og.None? || ng.None?) && NeedsGraphs(d)
    ensures r.Final? ==> FinalDiff(d, og, ng, r.diff)
  {
    hide IsFinal;
    var done: seq<ObjectDiff> := [];
    for k := 0 to |d.structural|
      invariant |done| == k && forall j :: 0 <= j < k ==> IsFinal(d.system, og, ng, d.structural[j], done[j])
      invariant og.None? || ng.None? ==> forall j :: 0 <= j < k ==> !HasDowngradable(d.structural[j].subs)
    {
      var x := d.structural[k];
      if !HasDowngradable(x.subs) {
        Unaffected(d.system, og, ng, x);
        done := done + [x];
      } else {
        if og.None? || ng.None? { return MissingGraph(x.id); }
        var f := FinalizeObject(d.system, og.value, ng.value, x);
        done := done + [f];
      }
    }
    r := Final(d.(structural := done, finalized := true));
  }

  lemma Unaffected(system: string, og: Option<L.Graph>, ng: Option<L.Graph>, d: ObjectDiff)
    requires !HasDowngradable(d.subs)
    ensures IsFinal(system, og, ng, d, d)
  {
  }
}
