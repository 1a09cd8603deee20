/**
 `snapshot/canonical.py` and `snapshot/hashing.py`: the canonical order and the schema hash.
 Canonical JSON text is injective on ordered values, so values stand for their bytes.
 */
module Canonical {
  import opened Basics
  import opened Snapshots
  import opened Ordering

  // ---------------------------------------------------------------------------
  // Sort keys

  function JoinComma(names: seq<string>): string {
    if names == [] then "" else if |names| == 1 then names[0] else names[0] + "," + JoinComma(names[1..])
  }

  predicate ColumnLe(a: Column, b: Column) {
    a.ordinal <= b.ordinal
  }

  predicate ShapeLe(a: Shape, b: Shape) {
    a.ordinal <= b.ordinal
  }

  function ForeignSortKey(k: ForeignKey): seq<string> {
    [JoinComma(k.columns), k.ref]
  }

  predicate ForeignLe(a: ForeignKey, b: ForeignKey) {
    SeqLe(ForeignSortKey(a), ForeignSortKey(b))
  }

  function IdentityKey(i: Identity): seq<string> {
    [i.kind, i.schema, i.name]
  }

  predicate IdentityLe(a: Identity, b: Identity) {
    SeqLe(IdentityKey(a), IdentityKey(b))
  }

  predicate ObjectLe(a: Object, b: Object) {
    IdentityLe(a.id, b.id)
  }

  lemma ColumnOrder()
    ensures TotalPreorder(ColumnLe) && TotalPreorder(ShapeLe)
  {
  }

  lemma ForeignOrder()
    ensures TotalPreorder(ForeignLe)
  {
    SeqLeOrders();
    hide SeqLe;
    forall x, y ensures ForeignLe(x, y) || ForeignLe(y, x) {}
    forall x, y, z | ForeignLe(x, y) && ForeignLe(y, z) ensures ForeignLe(x, z) {}
  }

  lemma IdentityOrder()
    ensures TotalPreorder(IdentityLe)
    ensures forall x, y :: IdentityLe(x, y) && IdentityLe(y, x) ==> x == y
  {
    SeqLeOrders();
    hide SeqLe;
    forall x, y ensures IdentityLe(x, y) || IdentityLe(y, x) {}
    forall x, y, z | IdentityLe(x, y) && IdentityLe(y, z) ensures IdentityLe(x, z) {}
    forall x, y | IdentityLe(x, y) && IdentityLe(y, x) ensures x == y {
      assert IdentityKey(x) == IdentityKey(y);
      assert IdentityKey(x)[0] == x.kind && IdentityKey(x)[1] == x.schema && IdentityKey(x)[2] == x.name;
    }
  }

  lemma ObjectOrder()
    ensures TotalPreorder(ObjectLe)
  {
    IdentityOrder();
    hide IdentityLe;
    forall x, y ensures ObjectLe(x, y) || ObjectLe(y, x) {}
    forall x, y, z | ObjectLe(x, y) && ObjectLe(y, z) ensures ObjectLe(x, z) {}
  }

  // ---------------------------------------------------------------------------
  // Canonical form

  function OrderedKeys(k: Keys): Keys {
    Keys(k.primary,
         if k.foreign.Some? then Some(Sort(ForeignLe, k.foreign.value)) else None,
         if k.unique.Some? then Some(Sort(SeqLe, k.unique.value)) else None)
  }

  function OrderedObject(o: Object): Object {
    o.(columns := Sort(ColumnLe, o.columns), keys := OrderedKeys(o.keys))
  }

  function ShapeOf(c: Column): Shape {
    Shape(c.name, c.kind, c.nullable, c.default, c.ordinal)
  }

  function Map<A, B>(f: A -> B, s: seq<A>): (r: seq<B>)
    ensures |r| == |s| && forall i :: 0 <= i < |s| ==> r[i] == f(s[i])
  {
    seq(|s|, i requires 0 <= i < |s| => f(s[i]))
  }

  function StructuralProjection(o: Object): Projection {
    Projection(o.id.kind, o.id.schema, o.id.name,
               Map(ShapeOf, Sort(ColumnLe, o.columns)), OrderedKeys(o.keys),
               map f | f in o.stats && f in Included(o) :: o.stats[f])
  }

  /** The hash, or an error for a kind that is not registered. */
  function SchemaHash(o: Object): Option<Hash> {
    if Known(o) then Some(Sha256(StructuralProjection(o))) else None
  }

  /** The snapshot without capture time, connector and source mode, in canonical order. */
  datatype Body = Body(system: string, systemClass: string, sourceProperties: Option<map<string, string>>, objects: seq<Object>)

  function CanonicalBody(s: Snapshot): Body {
    Body(s.system, s.systemClass, s.sourceProperties, Map(OrderedObject, Sort(ObjectLe, s.objects)))
  }

  /** Objects are ordered by kind, then schema, then name. */
  lemma IdentityLexicographic(a: Identity, b: Identity)
    ensures IdentityLe(a, b) <==>
              if a.kind != b.kind then StrLe(a.kind, b.kind) else if a.schema != b.schema then StrLe(a.schema, b.schema) else StrLe(a.name, b.name)
  {
    StrLeOrders();
    hide StrLe;
    SeqLeStep(a.kind, [a.schema, a.name], b.kind, [b.schema, b.name]);
    SeqLeStep(a.schema, [a.name], b.schema, [b.name]);
    SeqLeStep(a.name, [], b.name, []);
    assert IdentityKey(a) == [a.kind] + [a.schema, a.name] && [a.schema, a.name] == [a.schema] + [a.name] && [a.name] == [a.name] + [];
    assert IdentityKey(b) == [b.kind] + [b.schema, b.name] && [b.schema, b.name] == [b.schema] + [b.name] && [b.name] == [b.name] + [];
    assert SeqLe([], []);
    hide SeqLe;
  }

  /** Foreign keys are ordered by their column list as one text, then by the table they refer to. */
  lemma ForeignLexicographic(a: ForeignKey, b: ForeignKey)
    ensures ForeignLe(a, b) <==>
              if JoinComma(a.columns) != JoinComma(b.columns) then StrLe(JoinComma(a.columns), JoinComma(b.columns)) else StrLe(a.ref, b.ref)
  {
    StrLeOrders();
    hide StrLe, JoinComma;
    SeqLeStep(JoinComma(a.columns), [a.ref], JoinComma(b.columns), [b.ref]);
    SeqLeStep(a.ref, [], b.ref, []);
    assert ForeignSortKey(a) == [JoinComma(a.columns)] + [a.ref] && [a.ref] == [a.ref] + [];
    assert ForeignSortKey(b) == [JoinComma(b.columns)] + [b.ref] && [b.ref] == [b.ref] + [];
    assert SeqLe([], []);
    hide SeqLe;
  }

  lemma SeqLeStep(x: string, a: seq<string>, y: string, b: seq<string>)
    ensures SeqLe([x] + a, [y] + b) <==> if x == y then SeqLe(a, b) else StrLe(x, y)
  {
    hide StrLe;
    assert ([x] + a)[1..] == a && ([y] + b)[1..] == b;
  }

  /** The canonical order of a body: objects by identity, columns by place. */
  lemma CanonicalOrder(s: Snapshot, i: nat, j: nat)
    requires i < j < |CanonicalBody(s).objects|
    ensures IdentityLe(CanonicalBody(s).objects[i].id, CanonicalBody(s).objects[j].id)
    ensures var columns := CanonicalBody(s).objects[i].columns; forall a, b :: 0 <= a < b < |columns| ==> columns[a].ordinal <= columns[b].ordinal
  {
    ObjectOrder();
    SortSorts(ObjectLe, s.objects);
    var sorted := Sort(ObjectLe, s.objects);
    assert ObjectLe(sorted[i], sorted[j]);
    ColumnOrder();
    SortSorts(ColumnLe, sorted[i].columns);
    hide Sort, IdentityLe;
  }

  // ---------------------------------------------------------------------------
  // Idempotence

  lemma KeysIdempotent(k: Keys)
    ensures OrderedKeys(OrderedKeys(k)) == OrderedKeys(k)
  {
    hide Sort;
    if k.foreign.Some? { ForeignOrder(); SortIdempotent(ForeignLe, k.foreign.value); }
    if k.unique.Some? { SeqLeOrders(); SortIdempotent(SeqLe, k.unique.value); }
  }

  lemma ObjectIdempotent(o: Object)
    ensures OrderedObject(OrderedObject(o)) == OrderedObject(o)
  {
    hide Sort, OrderedKeys;
    KeysIdempotent(o.keys);
    ColumnOrder();
    SortIdempotent(ColumnLe, o.columns);
  }

  lemma {:induction false} InsertMapped<A, B>(le: (A, A) -> bool, me: (B, B) -> bool, f: A -> B, x: A, s: seq<A>)
    requires forall a, b :: le(a, b) <==> me(f(a), f(b))
    ensures Map(f, Insert(le, x, s)) == Insert(me, f(x), Map(f, s))
  {
    if s != [] && !le(x, s[0]) {
      InsertMapped(le, me, f, x, s[1..]);
      assert Map(f, s)[1..] == Map(f, s[1..]);
      assert Map(f, [s[0]] + Insert(le, x, s[1..])) == [f(s[0])] + Map(f, Insert(le, x, s[1..]));
    } else {
      assert Map(f, [x] + s) == [f(x)] + Map(f, s);
    }
  }

  /** Sorting commutes with a map that keeps the sort key. */
  lemma {:induction false} SortMapped<A, B>(le: (A, A) -> bool, me: (B, B) -> bool, f: A -> B, s: seq<A>)
    requires forall a, b :: le(a, b) <==> me(f(a), f(b))
    ensures Map(f, Sort(le, s)) == Sort(me, Map(f, s))
  {
    if s != [] {
      SortMapped(le, me, f, s[1..]);
      InsertMapped(le, me, f, s[0], Sort(le, s[1..]));
      assert Map(f, s)[1..] == Map(f, s[1..]);
    }
  }

  lemma BodyByMapping(s: Snapshot)
    ensures CanonicalBody(s).objects == Sort(ObjectLe, Map(OrderedObject, s.objects))
  {
    hide Sort, IdentityLe;
    SortMapped(ObjectLe, ObjectLe, OrderedObject, s.objects);
  }

  /** The canonical body tells everything but the capture: system, class, source properties and the canonical objects. */
  lemma BodyTells(s: Snapshot, t: Snapshot)
    requires CanonicalBody(s) == CanonicalBody(t)
    ensures s.system == t.system && s.systemClass == t.systemClass && s.sourceProperties == t.sourceProperties
    ensures multiset(Map(OrderedObject, s.objects)) == multiset(Map(OrderedObject, t.objects))
  {
    BodyByMapping(s);
    BodyByMapping(t);
    hide Sort, OrderedObject;
    SortPermutes(ObjectLe, Map(OrderedObject, s.objects));
    SortPermutes(ObjectLe, Map(OrderedObject, t.objects));
  }

  /** The canonical body of a canonical body is that body, whatever the excluded fields say. */
  lemma BodyIdempotent(s: Snapshot, again: Snapshot)
    requires again.system == s.system && again.systemClass == s.systemClass && again.sourceProperties == s.sourceProperties
    requires again.objects == CanonicalBody(s).objects
    ensures CanonicalBody(again) == CanonicalBody(s)
  {
    hide Sort, ObjectLe;
    var sorted := Sort(ObjectLe, Map(OrderedObject, s.objects));
    BodyByMapping(s);
    BodyByMapping(again);
    ObjectOrder();
    SortIdempotent(ObjectLe, Map(OrderedObject, s.objects));
    assert Map(OrderedObject, again.objects) == again.objects by {
      forall i | 0 <= i < |again.objects| ensures OrderedObject(again.objects[i]) == again.objects[i] {
        ObjectIdempotent(Sort(ObjectLe, s.objects)[i]);
      }
    }
  }

  // ---------------------------------------------------------------------------
  // Rearrangement

  ghost predicate ListsPermuted<T>(a: Option<seq<T>>, b: Option<seq<T>>) {
    (a.None? <==> b.None?) && (a.Some? ==> Permutation(a.value, b.value))
  }

  /** The same object with its columns, foreign keys and unique keys listed in another order. */
  ghost predicate Rearranged(p: Object, o: Object) {
    && p == o.(columns := p.columns, keys := p.keys)
    && Permutation(p.columns, o.columns)
    && p.keys.primary == o.keys.primary
    && ListsPermuted(p.keys.foreign, o.keys.foreign)
    && ListsPermuted(p.keys.unique, o.keys.unique)
  }

  /** Different foreign keys have different sort keys. */
  ghost predicate ForeignTieFree(k: Keys) {
    k.foreign.Some? ==> TieFree(ForeignLe, k.foreign.value)
  }

  ghost predicate Distinguished(o: Object) {
    TieFree(ColumnLe, o.columns) && ForeignTieFree(o.keys)
  }

  lemma KeysForget(p: Keys, k: Keys)
    requires p.primary == k.primary && ListsPermuted(p.foreign, k.foreign) && ListsPermuted(p.unique, k.unique)
    requires ForeignTieFree(k)
    ensures OrderedKeys(p) == OrderedKeys(k)
  {
    hide Sort, ForeignLe, SeqLe;
    if k.foreign.Some? {
      ForeignOrder();
      SortPermutationInvariant(ForeignLe, k.foreign.value, p.foreign.value);
    }
    if k.unique.Some? {
      SeqLeOrders();
      SortPermutationInvariant(SeqLe, k.unique.value, p.unique.value);
    }
  }

  /** Rearrangements that touch one list only. */
  lemma ForeignRemembered(o: Object, l: seq<ForeignKey>) returns (p: Object)
    requires o.keys.foreign.Some? && Permutation(l, o.keys.foreign.value) && Sort(ForeignLe, l) != Sort(ForeignLe, o.keys.foreign.value)
    ensures Rearranged(p, o) && OrderedKeys(p.keys) != OrderedKeys(o.keys)
  {
    hide Sort, ForeignLe;
    p := o.(keys := o.keys.(foreign := Some(l)));
    assert OrderedKeys(p.keys).foreign.value == Sort(ForeignLe, l);
  }

  lemma ForeignTiesShow(o: Object) returns (p: Object)
    requires !ForeignTieFree(o.keys)
    ensures Rearranged(p, o) && OrderedKeys(p.keys) != OrderedKeys(o.keys)
  {
    hide Sort, ForeignLe;
    var l := o.keys.foreign.value;
    var x, y :| x in l && y in l && ForeignLe(x, y) && ForeignLe(y, x) && x != y;
    ForeignOrder();
    var m := TiesRemembered(ForeignLe, l, x, y);
    p := ForeignRemembered(o, m);
  }

  lemma Rearrangement(p: Object, o: Object)
    requires Rearranged(p, o) && Distinguished(o)
    ensures OrderedObject(p) == OrderedObject(o)
  {
    hide Sort, ColumnLe, ForeignTieFree, OrderedKeys;
    KeysForget(p.keys, o.keys);
    ColumnOrder();
    SortPermutationInvariant(ColumnLe, o.columns, p.columns);
  }

  /** The canonical form forgets the listed order exactly when no two columns share an ordinal and no two foreign keys a sort key. */
  lemma CanonicalIffDistinguished(o: Object)
    ensures (forall p | Rearranged(p, o) :: OrderedObject(p) == OrderedObject(o)) <==> Distinguished(o)
  {
    hide Sort, ColumnLe, ForeignTieFree, OrderedKeys;
    if Distinguished(o) {
      forall p | Rearranged(p, o) ensures OrderedObject(p) == OrderedObject(o) { Rearrangement(p, o); }
    } else if !ForeignTieFree(o.keys) {
      var p := ForeignTiesShow(o);
      assert OrderedObject(p) != OrderedObject(o);
    } else {
      var x, y :| x in o.columns && y in o.columns && ColumnLe(x, y) && ColumnLe(y, x) && x != y;
      ColumnOrder();
      var l := TiesRemembered(ColumnLe, o.columns, x, y);
      var p := o.(columns := l);
      assert Rearranged(p, o) && OrderedObject(p).columns != OrderedObject(o).columns;
    }
  }

  // ---------------------------------------------------------------------------
  // The schema hash

  ghost predicate ShapesTieFree(o: Object) {
    TieFree(ShapeLe, Map(ShapeOf, o.columns))
  }

  lemma ShapesSorted(columns: seq<Column>)
    ensures Map(ShapeOf, Sort(ColumnLe, columns)) == Sort(ShapeLe, Map(ShapeOf, columns))
  {
    hide Sort;
    SortMapped(ColumnLe, ShapeLe, ShapeOf, columns);
  }

  lemma MapSplits<A, B>(f: A -> B, a: seq<A>, b: seq<A>)
    ensures Map(f, a + b) == Map(f, a) + Map(f, b)
  {
  }

  lemma MapOne<A, B>(f: A -> B, x: A)
    ensures Map(f, [x]) == [f(x)]
  {
  }

  /** An element taken out, before and after mapping. */
  lemma TakenOut<A, B>(f: A -> B, a: seq<A>, x: A, b: seq<A>)
    ensures multiset(a + [x] + b) == multiset{x} + multiset(a + b)
    ensures multiset(Map(f, a + [x] + b)) == multiset{f(x)} + multiset(Map(f, a + b))
  {
    MapSplits(f, a + [x], b);
    MapSplits(f, a, [x]);
    MapSplits(f, a, b);
    MapOne(f, x);
    hide Map;
  }

  lemma Around<A>(b: seq<A>, x: A) returns (before: seq<A>, after: seq<A>)
    requires x in b
    ensures b == before + [x] + after
  {
    var i :| 0 <= i < |b| && b[i] == x;
    before, after := b[..i], b[i + 1..];
  }

  lemma HeadOut<A, B>(f: A -> B, x: A, a: seq<A>)
    ensures multiset([x] + a) == multiset{x} + multiset(a)
    ensures multiset(Map(f, [x] + a)) == multiset{f(x)} + multiset(Map(f, a))
  {
    TakenOut(f, [], x, a);
    assert [] + [x] + a == [x] + a && [] + a == a;
  }

  lemma {:induction false} MapPermutes<A, B>(f: A -> B, a: seq<A>, b: seq<A>)
    requires Permutation(a, b)
    ensures Permutation(Map(f, a), Map(f, b))
  {
    hide Map;
    PermutationMembers(a, b);
    if a == [] {
      assert a == b;
    } else {
      var x, rest := a[0], a[1..];
      assert a == [x] + rest && x in b;
      HeadOut(f, x, rest);
      var before, after := Around(b, x);
      TakenOut(f, before, x, after);
      assert multiset(rest) == multiset(before + after) by {
        assert multiset{x} + multiset(rest) == multiset{x} + multiset(before + after);
        Cancel(x, multiset(rest), multiset(before + after));
      }
      MapPermutes(f, rest, before + after);
    }
  }

  lemma Cancel<A>(x: A, a: multiset<A>, b: multiset<A>)
    requires multiset{x} + a == multiset{x} + b
    ensures a == b
  {
    assert a == (multiset{x} + a) - multiset{x};
    assert b == (multiset{x} + b) - multiset{x};
  }

  lemma SameShapes(p: Object, o: Object)
    requires Permutation(p.columns, o.columns) && ShapesTieFree(o)
    ensures Map(ShapeOf, Sort(ColumnLe, p.columns)) == Map(ShapeOf, Sort(ColumnLe, o.columns))
  {
    hide Sort, ShapeLe, ColumnLe;
    ShapesSorted(p.columns);
    ShapesSorted(o.columns);
    MapPermutes(ShapeOf, p.columns, o.columns);
    ColumnOrder();
    SortPermutationInvariant(ShapeLe, Map(ShapeOf, o.columns), Map(ShapeOf, p.columns));
  }

  lemma PairMapped(x: Column, y: Column, rest: seq<Column>)
    ensures Map(ShapeOf, [x, y] + rest) == [ShapeOf(x), ShapeOf(y)] + Map(ShapeOf, rest)
  {
  }

  /** Two tied columns of different shapes: one of the two listings of them hashes differently. */
  lemma ShapeTiesShow(o: Object) returns (p: Object)
    requires !ShapesTieFree(o)
    ensures Rearranged(p, o) && Map(ShapeOf, Sort(ColumnLe, p.columns)) != Map(ShapeOf, Sort(ColumnLe, o.columns))
  {
    hide Sort, ShapeLe, ColumnLe, ShapeOf;
    var shapes := Map(ShapeOf, o.columns);
    var a, b :| a in shapes && b in shapes && ShapeLe(a, b) && ShapeLe(b, a) && a != b;
    var i :| 0 <= i < |shapes| && shapes[i] == a;
    var j :| 0 <= j < |shapes| && shapes[j] == b;
    var x, y := o.columns[i], o.columns[j];
    var rest := BringToFront(o.columns, x, y);
    ShapesSorted([x, y] + rest);
    ShapesSorted([y, x] + rest);
    PairMapped(x, y, rest);
    PairMapped(y, x, rest);
    SortOfPair(ShapeLe, a, b, Map(ShapeOf, rest));
    SortOfPair(ShapeLe, b, a, Map(ShapeOf, rest));
    ColumnOrder();
    TiedInsertionsDiffer(ShapeLe, a, b, Sort(ShapeLe, Map(ShapeOf, rest)));
    var target := Map(ShapeOf, Sort(ColumnLe, o.columns));
    p := o.(columns := if Map(ShapeOf, Sort(ColumnLe, [x, y] + rest)) != target then [x, y] + rest else [y, x] + rest);
  }

  lemma HashParts(p: Object, o: Object)
    requires Known(o) && Rearranged(p, o)
    ensures SchemaHash(p) == SchemaHash(o) <==>
              Map(ShapeOf, Sort(ColumnLe, p.columns)) == Map(ShapeOf, Sort(ColumnLe, o.columns)) && OrderedKeys(p.keys) == OrderedKeys(o.keys)
  {
    hide Sort, OrderedKeys, Map, Permutation, ListsPermuted;
    var a, b := StructuralProjection(p), StructuralProjection(o);
    assert a.stats == b.stats && a.kind == b.kind && a.schema == b.schema && a.name == b.name;
    assert a.columns == Map(ShapeOf, Sort(ColumnLe, p.columns)) && b.columns == Map(ShapeOf, Sort(ColumnLe, o.columns));
    assert a.keys == OrderedKeys(p.keys) && b.keys == OrderedKeys(o.keys);
  }

  /** The schema hash of a registered object forgets the listed order exactly when equal sort keys mean equal structure. */
  lemma HashIffDistinguished(o: Object)
    requires Known(o)
    ensures (forall p | Rearranged(p, o) :: SchemaHash(p) == SchemaHash(o)) <==> ShapesTieFree(o) && ForeignTieFree(o.keys)
  {
    hide SchemaHash, Sort, Map, OrderedKeys, ShapesTieFree, ForeignTieFree, Permutation;
    if !ShapesTieFree(o) {
      var p := ShapeTiesShow(o);
      HashParts(p, o);
    } else if !ForeignTieFree(o.keys) {
      var p := ForeignTiesShow(o);
      HashParts(p, o);
    } else {
      forall p | Rearranged(p, o) ensures SchemaHash(p) == SchemaHash(o) {
        SameShapes(p, o);
        KeysForget(p.keys, o.keys);
        HashParts(p, o);
      }
    }
  }

  /** The tie is real: two different foreign keys that the sort cannot tell apart, in either of two ways. */
  lemma ForeignKeysTie(ref: string)
    ensures var a, b, c := ForeignKey(["x", "y"], ref, ["p"]), ForeignKey(["x,y"], ref, ["p"]), ForeignKey(["x", "y"], ref, ["q"]);
            && a != b && ForeignLe(a, b) && ForeignLe(b, a)
            && a != c && ForeignLe(a, c) && ForeignLe(c, a)
  {
    var a, b, c := ForeignKey(["x", "y"], ref, ["p"]), ForeignKey(["x,y"], ref, ["p"]), ForeignKey(["x", "y"], ref, ["q"]);
    assert JoinComma(["x", "y"]) == "x" + "," + JoinComma(["x", "y"][1..]) == "x,y" == JoinComma(["x,y"]);
    assert ForeignSortKey(a) == ForeignSortKey(b) == ForeignSortKey(c);
    SeqTotal(ForeignSortKey(a), ForeignSortKey(a));
    assert |a.columns| == 2 && |b.columns| == 1;
    assert a.refColumns[0] == "p" && c.refColumns[0] == "q";
  }

  // ---------------------------------------------------------------------------
  // The canonical body

  predicate DistinctIdentities(objects: seq<Object>) {
    forall i, j :: 0 <= i < j < |objects| ==> objects[i].id != objects[j].id
  }

  /** `b` lists the objects of `a`, each possibly rearranged, in another order; `mid` is the step between. */
  ghost predicate Shuffled(a: seq<Object>, mid: seq<Object>, b: seq<Object>) {
    && |mid| == |a| && (forall i :: 0 <= i < |a| ==> Rearranged(mid[i], a[i]))
    && Permutation(b, mid)
  }

  lemma DistinctTieFree(objects: seq<Object>)
    requires DistinctIdentities(objects)
    ensures TieFree(ObjectLe, objects)
  {
    IdentityOrder();
    hide IdentityLe;
    forall x, y | x in objects && y in objects && ObjectLe(x, y) && ObjectLe(y, x) ensures x == y {
      var i :| 0 <= i < |objects| && objects[i] == x;
      var j :| 0 <= j < |objects| && objects[j] == y;
      assert objects[i].id == objects[j].id;
    }
  }

  /** The canonical body forgets every listed order, of objects, columns, foreign keys and unique keys. */
  lemma BodyForgetsOrder(s: Snapshot, t: Snapshot, mid: seq<Object>)
    requires t.system == s.system && t.systemClass == s.systemClass && t.sourceProperties == s.sourceProperties
    requires Shuffled(s.objects, mid, t.objects) && DistinctIdentities(s.objects)
    requires forall o :: o in s.objects ==> Distinguished(o)
    ensures CanonicalBody(t) == CanonicalBody(s)
  {
    hide Sort, ObjectLe, Distinguished, Rearranged, OrderedObject;
    BodyByMapping(s);
    var step := s.(objects := mid);
    BodyByMapping(step);
    forall i | 0 <= i < |mid| ensures OrderedObject(mid[i]) == OrderedObject(s.objects[i]) && mid[i].id == s.objects[i].id {
      Rearrangement(mid[i], s.objects[i]);
      RearrangedIdentity(mid[i], s.objects[i]);
    }
    assert Map(OrderedObject, mid) == Map(OrderedObject, s.objects);
    DistinctTieFree(mid);
    ObjectOrder();
    SortPermutationInvariant(ObjectLe, mid, t.objects);
  }

  lemma RearrangedIdentity(p: Object, o: Object)
    requires Rearranged(p, o)
    ensures p.id == o.id
  {
  }
}
