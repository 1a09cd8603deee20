/** Schema snapshots, as `snapshot/schema/snapshot.v1.schema.json` shapes them. */
module Snapshots {
  import opened Basics

  datatype Column = Column(name: string, kind: string, nullable: bool, default: Option<string>, ordinal: int, description: Option<string>)

  datatype ForeignKey = ForeignKey(columns: seq<string>, ref: string, refColumns: seq<string>)

  /** Each list may be absent, which is not the same document as an empty list. */
  datatype Keys = Keys(primary: Option<seq<string>>, foreign: Option<seq<ForeignKey>>, unique: Option<seq<seq<string>>>)

  /** The structural fields of a column. */
  datatype Shape = Shape(name: string, kind: string, nullable: bool, default: Option<string>, ordinal: int)

  /** Statistics map a field to its JSON value, given by its canonical text. */
  type Stats = map<string, string>

  datatype Projection = Projection(kind: string, schema: string, name: string, columns: seq<Shape>, keys: Keys, stats: Stats)

  /** SHA-256, taken to be injective; a stored hash may also be any other text. */
  datatype Hash = Sha256(of: Projection) | Unverified(text: string)

  datatype Identity = Identity(kind: string, schema: string, name: string)

  datatype Object = Object(
    id: Identity, schemaHash: Hash, description: Option<string>, columns: seq<Column>, keys: Keys, stats: Stats)

  datatype Snapshot = Snapshot(
    system: string, systemClass: string, sourceProperties: Option<map<string, string>>,
    capturedAt: string, connector: string, sourceMode: string, objects: seq<Object>)

  /** Statistics fields that enter the hash, and those that do not. */
  datatype KindSpec = KindSpec(included: set<string>, excluded: set<string>)

  function Registry(kind: string): Option<KindSpec> {
    match kind
    case "table" => Some(KindSpec({"checks"}, {"row_estimate", "indexes"}))
    case "view" => Some(KindSpec({"definition"}, {}))
    case "materialized_view" => Some(KindSpec({"definition"}, {"row_estimate", "indexes"}))
    case "api_dimension" => Some(KindSpec({"data_type"}, {}))
    case "api_metric" => Some(KindSpec({"data_type", "scope", "formula"}, {}))
    case "api_event" => Some(KindSpec({"is_key_event"}, {}))
    case _ => None
  }

  predicate Known(o: Object) {
    Registry(o.id.kind).Some?
  }

  function Included(o: Object): set<string> {
    if Known(o) then Registry(o.id.kind).value.included else {}
  }

  function Excluded(o: Object): set<string> {
    if Known(o) then Registry(o.id.kind).value.excluded else {}
  }
}
