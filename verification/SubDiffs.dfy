/** `snapshot/diff.py`: the field-level differences of two versions of one object. */
module SubDiffs {
  import opened Basics
  import opened Snapshots
  import opened Canonical
  import opened Ordering

  datatype Severity = Additive | AdditiveWithNote | Breaking

  /** A difference with its detail. */
  datatype Change =
    | ColumnAdded(column: Column)
    | ColumnRemoved(column: Column)
    | ColumnTypeChanged(name: string, fromKind: string, toKind: string)
    | NullableTightened(name: string)
    | NullableLoosened(name: string)
    | DefaultChanged(name: string, fromDefault: Option<string>, toDefault: Option<string>)
    | OrdinalChanged(name: string, fromOrdinal: int, toOrdinal: int)
    | PrimaryAdded(columns: seq<string>)
    | PrimaryRemoved(columns: seq<string>)
    | PrimaryAltered(fromColumns: seq<string>, toColumns: seq<string>)
    | ForeignAdded(key: ForeignKey)
    | ForeignRemoved(key: ForeignKey)
    | ForeignAltered(fromKey: ForeignKey, toKey: ForeignKey)
    | UniqueAdded(columns: seq<string>)
    | UniqueRemoved(columns: seq<string>)
    | DefinitionChanged(fromStat: Option<string>, toStat: Option<string>)
    | StatChanged(stat: string, fromStat: Option<string>, toStat: Option<string>)

  datatype SubDiff = SubDiff(change: Change, severity: Severity, downgradable: bool, downgraded: bool)

  function SeverityOf(c: Change): Severity {
    match c
    case ColumnAdded(_) => Additive
    case PrimaryAdded(_) => Additive
    case ForeignAdded(_) => Additive
    case UniqueAdded(_) => Additive
    case NullableLoosened(_) => AdditiveWithNote
    case DefaultChanged(_, _, _) => AdditiveWithNote
    case _ => Breaking
  }

  /** A sub-diff as first recorded. */
  function Sub(c: Change): SubDiff {
    SubDiff(c, SeverityOf(c), c.DefinitionChanged?, false)
  }

  // ---------------------------------------------------------------------------
  // Dictionaries built from lists

  /** `{key(x): x for x in s}`: a later entry replaces an earlier one. */
  function Table<K, V>(key: V -> K, s: seq<V>): map<K, V> {
    if s == [] then map[] else Table(key, s[..|s| - 1])[key(s[|s| - 1]) := s[|s| - 1]]
  }

  lemma {:induction false} TableProps<K, V>(key: V -> K, s: seq<V>)
    ensures forall k :: k in Table(key, s) ==> Table(key, s)[k] in s && key(Table(key, s)[k]) == k
    ensures forall x :: x in s ==> key(x) in Table(key, s)
  {
    if s != [] {
      TableProps(key, s[..|s| - 1]);
      assert forall x :: x in s <==> x in s[..|s| - 1] || x == s[|s| - 1];
    }
  }

  /** Entries with equal keys are equal. */
  ghost predicate Keyed<K, V>(key: V -> K, s: seq<V>) {
    forall x, y :: x in s && y in s && key(x) == key(y) ==> x == y
  }

  lemma TableOfKeyed<K, V>(key: V -> K, s: seq<V>)
    requires Keyed(key, s)
    ensures forall x :: x in s ==> key(x) in Table(key, s) && Table(key, s)[key(x)] == x
  {
    TableProps(key, s);
  }

  function ColumnName(c: Column): string { c.name }

  function ForeignColumns(k: ForeignKey): seq<string> { k.columns }

  /** `.get(key) or []` of a list in the keys. */
  function Listed<T>(l: Option<seq<T>>): seq<T> {
    if l.Some? then l.value else []
  }

  function ColumnTable(o: Object): map<string, Column> {
    Table(ColumnName, o.columns)
  }

  function ForeignTable(o: Object): map<seq<string>, ForeignKey> {
    Table(ForeignColumns, Listed(o.keys.foreign))
  }

  function Uniques(o: Object): set<seq<string>> {
    set u | u in Listed(o.keys.unique)
  }

  function Field(s: Stats, f: string): Option<string> {
    if f in s then Some(s[f]) else None
  }

  // ---------------------------------------------------------------------------
  // What differs

  /** A difference between two columns of one name. */
  predicate ColumnDiffers(name: string, o: Column, n: Column, c: Change) {
    match c
    case ColumnTypeChanged(k, f, t) => k == name && f == o.kind && t == n.kind && f != t
    case NullableTightened(k) => k == name && o.nullable && !n.nullable
    case NullableLoosened(k) => k == name && !o.nullable && n.nullable
    case DefaultChanged(k, f, t) => k == name && f == o.default && t == n.default && f != t
    case OrdinalChanged(k, f, t) => k == name && f == o.ordinal && t == n.ordinal && f != t
    case _ => false
  }

  predicate ColumnsDiffer(o: map<string, Column>, n: map<string, Column>, c: Change) {
    match c
    case ColumnAdded(x) => x.name in n && n[x.name] == x && x.name !in o
    case ColumnRemoved(x) => x.name in o && o[x.name] == x && x.name !in n
    case _ => exists k :: k in o && k in n && ColumnDiffers(k, o[k], n[k], c)
  }

  predicate PrimaryDiffers(o: seq<string>, n: seq<string>, c: Change) {
    match c
    case PrimaryAdded(k) => o == [] && n != [] && k == n
    case PrimaryRemoved(k) => o != [] && n == [] && k == o
    case PrimaryAltered(f, t) => f == o && t == n && o != [] && n != [] && o != n
    case _ => false
  }

  predicate ForeignDiffers(o: map<seq<string>, ForeignKey>, n: map<seq<string>, ForeignKey>, c: Change) {
    match c
    case ForeignAdded(k) => k.columns in n && n[k.columns] == k && k.columns !in o
    case ForeignRemoved(k) => k.columns in o && o[k.columns] == k && k.columns !in n
    case ForeignAltered(f, t) => f.columns == t.columns && f.columns in o && o[f.columns] == f && t.columns in n && n[t.columns] == t && f != t
    case _ => false
  }

  predicate UniqueDiffers(o: set<seq<string>>, n: set<seq<string>>, c: Change) {
    match c
    case UniqueAdded(k) => k in n && k !in o
    case UniqueRemoved(k) => k in o && k !in n
    case _ => false
  }

  predicate StatsDiffer(included: set<string>, o: Stats, n: Stats, c: Change) {
    match c
    case DefinitionChanged(f, t) => "definition" in included && f == Field(o, "definition") && t == Field(n, "definition") && f != t
    case StatChanged(s, f, t) => s != "definition" && s in included && f == Field(o, s) && t == Field(n, s) && f != t
    case _ => false
  }

  /** Every difference the field-level comparison can see. */
  predicate Differs(o: Object, n: Object, c: Change) {
    || ColumnsDiffer(ColumnTable(o), ColumnTable(n), c)
    || KeysDiffer(o, n, c)
    || StatsDiffer(Included(o), o.stats, n.stats, c)
  }

  /** `subs` records exactly the changes that satisfy `p`. */
  ghost predicate Records(subs: seq<SubDiff>, p: Change -> bool) {
    forall s :: s in subs <==> s == Sub(s.change) && p(s.change)
  }

  // ---------------------------------------------------------------------------
  // Columns

  method ColumnPair(name: string, o: Column, n: Column) returns (subs: seq<SubDiff>)
    ensures Records(subs, c => ColumnDiffers(name, o, n, c))
  {
    subs := [];
    if o.kind != n.kind { subs := subs + [Sub(ColumnTypeChanged(name, o.kind, n.kind))]; }
    if o.nullable != n.nullable {
      if o.nullable && !n.nullable {
        subs := subs + [Sub(NullableTightened(name))];
      } else {
        subs := subs + [Sub(NullableLoosened(name))];
      }
    }
    if o.default != n.default { subs := subs + [Sub(DefaultChanged(name, o.default, n.default))]; }
    if o.ordinal != n.ordinal { subs := subs + [Sub(OrdinalChanged(name, o.ordinal, n.ordinal))]; }
  }

  /** The entries of a table under some of its keys. */
  method Entries(table: map<string, Column>, names: set<string>) returns (r: seq<Column>)
    requires names <= table.Keys && forall k :: k in table ==> table[k].name == k
    ensures forall c :: c in r <==> c.name in names && table[c.name] == c
  {
    r := [];
    var todo := names;
    while todo != {}
      invariant todo <= names
      invariant forall c :: c in r <==> c.name in names && c.name !in todo && table[c.name] == c
    {
      var k :| k in todo;
      r := r + [table[k]];
      todo := todo - {k};
    }
  }

  datatype RenameCandidate = RenameCandidate(fromColumn: string, toColumn: string, kind: string, ordinal: int)

  predicate MayBeRenamed(r: Column, a: Column) {
    r.kind == a.kind && r.ordinal == a.ordinal
  }

  function Candidate(r: Column, a: Column): RenameCandidate {
    RenameCandidate(r.name, a.name, r.kind, r.ordinal)
  }

  ghost predicate RenamesOf(removed: seq<Column>, added: seq<Column>, x: RenameCandidate) {
    exists r, a :: r in removed && a in added && MayBeRenamed(r, a) && x == Candidate(r, a)
  }

  method RenameCandidates(removed: seq<Column>, added: seq<Column>) returns (candidates: seq<RenameCandidate>)
    ensures forall x :: x in candidates <==> RenamesOf(removed, added, x)
  {
    candidates := [];
    for i := 0 to |removed|
      invariant forall x :: x in candidates <==> RenamesOf(removed[..i], added, x)
    {
      ghost var before := candidates;
      for j := 0 to |added|
        invariant forall x :: x in candidates <==> x in before || RenamesOf([removed[i]], added[..j], x)
      {
        if MayBeRenamed(removed[i], added[j]) { candidates := candidates + [Candidate(removed[i], added[j])]; }
        assert added[..j + 1] == added[..j] + [added[j]];
      }
      assert added[..|added|] == added;
      assert removed[..i + 1] == removed[..i] + [removed[i]];
    }
    assert removed[..|removed|] == removed;
  }

  ghost predicate SameName(o: map<string, Column>, n: map<string, Column>, names: set<string>, c: Change) {
    exists k :: k in names && k in o && k in n && ColumnDiffers(k, o[k], n[k], c)
  }

  method CommonColumns(o: map<string, Column>, n: map<string, Column>) returns (subs: seq<SubDiff>)
    ensures forall s :: s in subs <==> s == Sub(s.change) && SameName(o, n, o.Keys, s.change)
  {
    hide ColumnDiffers, Sub;
    subs := [];
    var todo := o.Keys * n.Keys;
    ghost var done: set<string> := {};
    while todo != {}
      invariant todo <= o.Keys * n.Keys && done == o.Keys * n.Keys - todo
      invariant forall s :: s in subs <==> s == Sub(s.change) && SameName(o, n, done, s.change)
    {
      var k :| k in todo;
      var pair := ColumnPair(k, o[k], n[k]);
      subs := subs + pair;
      todo := todo - {k};
      done := done + {k};
    }
  }

  lemma NamedColumns(o: Object)
    ensures forall k :: k in ColumnTable(o) ==> ColumnTable(o)[k].name == k && ColumnTable(o)[k] in o.columns
    ensures forall c :: c in o.columns ==> c.name in ColumnTable(o)
  {
    TableProps(ColumnName, o.columns);
  }

  method OneSided(added: seq<Column>, removed: seq<Column>) returns (subs: seq<SubDiff>)
    ensures forall s :: s in subs <==>
              s == Sub(s.change) && ((s.change.ColumnAdded? && s.change.column in added) || (s.change.ColumnRemoved? && s.change.column in removed))
  {
    subs := [];
    for i := 0 to |added|
      invariant forall s :: s in subs <==> s == Sub(s.change) && s.change.ColumnAdded? && s.change.column in added[..i]
    {
      subs := subs + [Sub(ColumnAdded(added[i]))];
      assert added[..i + 1] == added[..i] + [added[i]];
    }
    assert added[..|added|] == added;
    ghost var first := subs;
    for i := 0 to |removed|
      invariant forall s :: s in subs <==> s in first || (s == Sub(s.change) && s.change.ColumnRemoved? && s.change.column in removed[..i])
    {
      subs := subs + [Sub(ColumnRemoved(removed[i]))];
      assert removed[..i + 1] == removed[..i] + [removed[i]];
    }
    assert removed[..|removed|] == removed;
  }

  /** A removed and an added column that one renaming could explain. */
  ghost predicate RenameSeen(o: map<string, Column>, n: map<string, Column>, x: RenameCandidate) {
    exists r, a :: ColumnsDiffer(o, n, ColumnRemoved(r)) && ColumnsDiffer(o, n, ColumnAdded(a)) && MayBeRenamed(r, a) && x == Candidate(r, a)
  }

  lemma NoCommonName(o: map<string, Column>, n: map<string, Column>, c: Change)
    ensures c.ColumnAdded? || c.ColumnRemoved? ==> !SameName(o, n, o.Keys, c)
    ensures !c.ColumnAdded? && !c.ColumnRemoved? ==> (ColumnsDiffer(o, n, c) <==> SameName(o, n, o.Keys, c))
  {
  }

  lemma ColumnsRecorded(o: map<string, Column>, n: map<string, Column>, added: seq<Column>, removed: seq<Column>, sides: seq<SubDiff>, common: seq<SubDiff>)
    requires forall c :: c in added <==> ColumnsDiffer(o, n, ColumnAdded(c))
    requires forall c :: c in removed <==> ColumnsDiffer(o, n, ColumnRemoved(c))
    requires forall s :: s in sides <==>
               s == Sub(s.change) && ((s.change.ColumnAdded? && s.change.column in added) || (s.change.ColumnRemoved? && s.change.column in removed))
    requires forall s :: s in common <==> s == Sub(s.change) && SameName(o, n, o.Keys, s.change)
    ensures Records(sides + common, c => ColumnsDiffer(o, n, c))
  {
    hide SameName, Sub, ColumnsDiffer;
    forall s ensures s in sides + common <==> s == Sub(s.change) && ColumnsDiffer(o, n, s.change) {
      NoCommonName(o, n, s.change);
    }
  }

  method ColumnSubDiffs(o: Object, n: Object) returns (subs: seq<SubDiff>, candidates: seq<RenameCandidate>)
    ensures Records(subs, c => ColumnsDiffer(ColumnTable(o), ColumnTable(n), c))
    ensures forall x :: x in candidates <==> RenameSeen(ColumnTable(o), ColumnTable(n), x)
  {
    hide ColumnTable, SameName, Sub, Records;
    var oldColumns, newColumns := ColumnTable(o), ColumnTable(n);
    NamedColumns(o);
    NamedColumns(n);
    var added := Entries(newColumns, newColumns.Keys - oldColumns.Keys);
    var removed := Entries(oldColumns, oldColumns.Keys - newColumns.Keys);
    assert forall c :: c in added <==> ColumnsDiffer(oldColumns, newColumns, ColumnAdded(c));
    assert forall c :: c in removed <==> ColumnsDiffer(oldColumns, newColumns, ColumnRemoved(c));
    hide ColumnsDiffer, MayBeRenamed, Candidate;
    var sides := OneSided(added, removed);
    var common := CommonColumns(oldColumns, newColumns);
    ColumnsRecorded(oldColumns, newColumns, added, removed, sides, common);
    subs := sides + common;
    candidates := RenameCandidates(removed, added);
  }

  // ---------------------------------------------------------------------------
  // Keys

  method PrimarySubDiffs(o: seq<string>, n: seq<string>) returns (subs: seq<SubDiff>)
    ensures Records(subs, c => PrimaryDiffers(o, n, c))
  {
    subs := [];
    if o != n {
      if o == [] {
        subs := [Sub(PrimaryAdded(n))];
      } else if n == [] {
        subs := [Sub(PrimaryRemoved(o))];
      } else {
        subs := [Sub(PrimaryAltered(o, n))];
      }
    }
  }

  /** The part of a change's claim that lies in the column lists looked at. */
  predicate ForeignAmong(names: set<seq<string>>, c: Change) {
    match c
    case ForeignAdded(k) => k.columns in names
    case ForeignRemoved(k) => k.columns in names
    case ForeignAltered(f, _) => f.columns in names
    case _ => false
  }

  ghost predicate KeyedByColumns(t: map<seq<string>, ForeignKey>) {
    forall k :: k in t ==> t[k].columns == k
  }

  lemma AtColumns(o: map<seq<string>, ForeignKey>, n: map<seq<string>, ForeignKey>, k: seq<string>, c: Change)
    requires KeyedByColumns(o) && KeyedByColumns(n)
    ensures ForeignDiffers(o, n, c) && ForeignAmong({k}, c) <==>
              || (k in n && k !in o && c == ForeignAdded(n[k]))
              || (k in o && k !in n && c == ForeignRemoved(o[k]))
              || (k in o && k in n && o[k] != n[k] && c == ForeignAltered(o[k], n[k]))
  {
  }

  lemma AmongMore(names: set<seq<string>>, k: seq<string>, c: Change)
    ensures ForeignAmong(names + {k}, c) <==> ForeignAmong(names, c) || ForeignAmong({k}, c)
  {
  }

  ghost predicate ForeignDone(subs: seq<SubDiff>, o: map<seq<string>, ForeignKey>, n: map<seq<string>, ForeignKey>, names: set<seq<string>>) {
    forall s :: s in subs <==> s == Sub(s.change) && ForeignDiffers(o, n, s.change) && ForeignAmong(names, s.change)
  }

  /** One more column list looked at; `more` is what it contributes. */
  lemma ForeignMore(subs: seq<SubDiff>, o: map<seq<string>, ForeignKey>, n: map<seq<string>, ForeignKey>, names: set<seq<string>>, k: seq<string>, more: seq<SubDiff>)
    requires KeyedByColumns(o) && KeyedByColumns(n) && ForeignDone(subs, o, n, names)
    requires more ==
               if k in n && k !in o then [Sub(ForeignAdded(n[k]))]
               else if k in o && k !in n then [Sub(ForeignRemoved(o[k]))]
               else if k in o && k in n && o[k] != n[k] then [Sub(ForeignAltered(o[k], n[k]))]
               else []
    ensures ForeignDone(subs + more, o, n, names + {k})
  {
    hide ForeignAmong, ForeignDiffers, KeyedByColumns;
    forall s ensures s in subs + more <==> s == Sub(s.change) && ForeignDiffers(o, n, s.change) && ForeignAmong(names + {k}, s.change) {
      AtColumns(o, n, k, s.change);
      AmongMore(names, k, s.change);
    }
  }

  lemma ForeignAll(subs: seq<SubDiff>, o: map<seq<string>, ForeignKey>, n: map<seq<string>, ForeignKey>)
    requires ForeignDone(subs, o, n, o.Keys + n.Keys)
    ensures Records(subs, c => ForeignDiffers(o, n, c))
  {
  }

  method ForeignSubDiffs(o: map<seq<string>, ForeignKey>, n: map<seq<string>, ForeignKey>) returns (subs: seq<SubDiff>)
    requires KeyedByColumns(o) && KeyedByColumns(n)
    ensures Records(subs, c => ForeignDiffers(o, n, c))
  {
    subs := [];
    ghost var done: set<seq<string>> := {};
    assert ForeignDone(subs, o, n, done);
    hide KeyedByColumns, ForeignDone, Sub, ForeignDiffers, Records;
    var todo := n.Keys - o.Keys;
    while todo != {}
      invariant todo <= n.Keys - o.Keys == todo + done && ForeignDone(subs, o, n, done)
    {
      var k :| k in todo;
      ForeignMore(subs, o, n, done, k, [Sub(ForeignAdded(n[k]))]);
      subs := subs + [Sub(ForeignAdded(n[k]))];
      todo, done := todo - {k}, done + {k};
    }
    todo := o.Keys - n.Keys;
    while todo != {}
      invariant todo <= o.Keys - n.Keys && (n.Keys - o.Keys) + (o.Keys - n.Keys) == todo + done && ForeignDone(subs, o, n, done)
    {
      var k :| k in todo;
      ForeignMore(subs, o, n, done, k, [Sub(ForeignRemoved(o[k]))]);
      subs := subs + [Sub(ForeignRemoved(o[k]))];
      todo, done := todo - {k}, done + {k};
    }
    todo := o.Keys * n.Keys;
    while todo != {}
      invariant todo <= o.Keys * n.Keys && o.Keys + n.Keys == todo + done && ForeignDone(subs, o, n, done)
    {
      var k :| k in todo;
      var more := if o[k] != n[k] then [Sub(ForeignAltered(o[k], n[k]))] else [];
      ForeignMore(subs, o, n, done, k, more);
      subs := subs + more;
      todo, done := todo - {k}, done + {k};
    }
    assert done == o.Keys + n.Keys;
    ForeignAll(subs, o, n);
  }

  method UniqueSubDiffs(o: set<seq<string>>, n: set<seq<string>>) returns (subs: seq<SubDiff>)
    ensures Records(subs, c => UniqueDiffers(o, n, c))
  {
    SeqLeOrders();
    var added := SortedSet(SeqLe, n - o);
    var removed := SortedSet(SeqLe, o - n);
    subs := [];
    for i := 0 to |added|
      invariant forall s :: s in subs <==> s == Sub(s.change) && s.change.UniqueAdded? && s.change.columns in added[..i]
    {
      subs := subs + [Sub(UniqueAdded(added[i]))];
      assert added[..i + 1] == added[..i] + [added[i]];
    }
    assert added[..|added|] == added;
    ghost var first := subs;
    for i := 0 to |removed|
      invariant forall s :: s in subs <==> s in first || (s == Sub(s.change) && s.change.UniqueRemoved? && s.change.columns in removed[..i])
    {
      subs := subs + [Sub(UniqueRemoved(removed[i]))];
      assert removed[..i + 1] == removed[..i] + [removed[i]];
    }
    assert removed[..|removed|] == removed;
  }

  predicate KeysDiffer(o: Object, n: Object, c: Change) {
    || PrimaryDiffers(Listed(o.keys.primary), Listed(n.keys.primary), c)
    || ForeignDiffers(ForeignTable(o), ForeignTable(n), c)
    || UniqueDiffers(Uniques(o), Uniques(n), c)
  }

  method KeySubDiffs(o: Object, n: Object) returns (subs: seq<SubDiff>)
    ensures Records(subs, c => KeysDiffer(o, n, c))
  {
    TableProps(ForeignColumns, Listed(o.keys.foreign));
    TableProps(ForeignColumns, Listed(n.keys.foreign));
    var oldForeign, newForeign := ForeignTable(o), ForeignTable(n);
    assert KeyedByColumns(oldForeign) && KeyedByColumns(newForeign);
    hide ForeignTable, Uniques, Sub, PrimaryDiffers, ForeignDiffers, UniqueDiffers, KeyedByColumns;
    var primary := PrimarySubDiffs(Listed(o.keys.primary), Listed(n.keys.primary));
    var foreign := ForeignSubDiffs(oldForeign, newForeign);
    var unique := UniqueSubDiffs(Uniques(o), Uniques(n));
    subs := primary + foreign + unique;
  }

  // ---------------------------------------------------------------------------
  // Statistics

  function FieldSet(fields: seq<string>): set<string> {
    set f | f in fields
  }

  function StatChange(f: string, x: Option<string>, y: Option<string>): Change {
    if f == "definition" then DefinitionChanged(x, y) else StatChanged(f, x, y)
  }

  lemma OneMoreField(done: set<string>, f: string, o: Stats, n: Stats, c: Change)
    ensures StatsDiffer(done + {f}, o, n, c) <==>
              StatsDiffer(done, o, n, c) || (Field(o, f) != Field(n, f) && c == StatChange(f, Field(o, f), Field(n, f)))
  {
  }

  method StatsSubDiffs(included: set<string>, o: Stats, n: Stats) returns (subs: seq<SubDiff>)
    ensures Records(subs, c => StatsDiffer(included, o, n, c))
  {
    subs := [];
    StrLeOrders();
    var fields := SortedSet(StrLe, included);
    for i := 0 to |fields|
      invariant forall s :: s in subs <==> s == Sub(s.change) && StatsDiffer(FieldSet(fields[..i]), o, n, s.change)
    {
      var f := fields[i];
      assert FieldSet(fields[..i + 1]) == FieldSet(fields[..i]) + {f};
      forall c ensures StatsDiffer(FieldSet(fields[..i + 1]), o, n, c) <==>
          StatsDiffer(FieldSet(fields[..i]), o, n, c) || (Field(o, f) != Field(n, f) && c == StatChange(f, Field(o, f), Field(n, f)))
      {
        OneMoreField(FieldSet(fields[..i]), f, o, n, c);
      }
      hide StatsDiffer, FieldSet, Sub, StatChange;
      var x, y := Field(o, f), Field(n, f);
      if x != y { subs := subs + [Sub(StatChange(f, x, y))]; SubOf(StatChange(f, x, y)); }
    }
    assert FieldSet(fields[..|fields|]) == included;
  }

  lemma SubOf(c: Change)
    ensures Sub(c).change == c
  {
  }
}
