/** Record types and record values handled by the persistence engine (collection/db.py,
    collection/schema.py). A record type is a NamedTuple class: a name and an ordered list
    of annotated fields; a field annotated with another record type is a foreign key.
    Record types are identified by their position in the schema, and a field may only
    refer to a type declared before it (a class can only name classes already defined). */
module Records {
  import opened Wrappers

  type TypeId = nat

  /** The scalar annotations used by the schema: `int`, `str`, `date`, `datetime`. */
  datatype ScalarKind = IntKind | StrKind | DateKind | DateTimeKind

  datatype FieldType = Scalar(kind: ScalarKind) | RecordRef(target: TypeId)

  datatype Field = Field(name: string, ty: FieldType)

  datatype RecordType = RecordType(name: string, fields: seq<Field>)

  type Schema = seq<RecordType>

  /** A field value. Python does not check annotations at run time, so any field may hold
      any value; `Nested` is a NamedTuple instance (`isinstance(v, tuple)`). */
  datatype Value =
    | Null
    | IntVal(i: int)
    | StrVal(s: string)
    | DateVal(day: int)
    | DateTimeVal(instant: int)
    | Nested(rec: Record)

  /** A NamedTuple instance: its type and its field values in declaration order. */
  datatype Record = Record(ty: TypeId, values: seq<Value>)

  function FieldNames(fields: seq<Field>): (names: seq<string>)
    ensures |names| == |fields|
    ensures forall i :: 0 <= i < |fields| ==> names[i] == fields[i].name
  {
    seq(|fields|, i requires 0 <= i < |fields| => fields[i].name)
  }

  predicate DistinctNames(fields: seq<Field>)
  {
    forall i, j :: 0 <= i < j < |fields| ==> fields[i].name != fields[j].name
  }

  /** What Python guarantees of the schema: field names are distinct within a type, and a
      field can only be annotated with a record type defined earlier. */
  predicate SchemaValid(schema: Schema)
  {
    forall t :: 0 <= t < |schema| ==>
      && DistinctNames(schema[t].fields)
      && forall i :: 0 <= i < |schema[t].fields| && schema[t].fields[i].ty.RecordRef? ==>
           schema[t].fields[i].ty.target < t
  }

  /** What a NamedTuple constructor guarantees of an instance: one value per field, and
      the same of every nested instance. */
  predicate Shaped(schema: Schema, r: Record)
    decreases r
  {
    && r.ty < |schema|
    && |r.values| == |schema[r.ty].fields|
    && forall i :: 0 <= i < |r.values| && r.values[i].Nested? ==> Shaped(schema, r.values[i].rec)
  }

  /** The position of the field called `name`, if any (`name in type_._fields`). */
  function IndexOfField(fields: seq<Field>, name: string): (r: Option<nat>)
    ensures r.Some? ==> r.value < |fields| && fields[r.value].name == name
    ensures r.Some? ==> forall j :: 0 <= j < r.value ==> fields[j].name != name
    ensures r.None? ==> forall j :: 0 <= j < |fields| ==> fields[j].name != name
  {
    if fields == [] then None
    else if fields[0].name == name then Some(0)
    else match IndexOfField(fields[1..], name)
      case None => None
      case Some(k) => Some(k + 1)
  }

  predicate HasField(fields: seq<Field>, name: string)
  {
    exists i :: 0 <= i < |fields| && fields[i].name == name
  }

  /** `type_._field_types.get(name)`. */
  function FieldTypeOf(fields: seq<Field>, name: string): Option<FieldType>
  {
    match IndexOfField(fields, name)
    case None => None
    case Some(i) => Some(fields[i].ty)
  }

  /** The column that stores a foreign-key field. */
  function IdColumn(field: string): string
  {
    field + "_id"
  }

  function MaxOf(xs: seq<nat>): (m: nat)
    ensures forall i :: 0 <= i < |xs| ==> xs[i] <= m
  {
    if xs == [] then 0
    else var rest := MaxOf(xs[1..]);
      if xs[0] < rest then rest else xs[0]
  }

  /** Nesting depth of a record: nested records are strictly shallower. */
  function Depth(r: Record): (d: nat)
    ensures d >= 1
    ensures forall i :: 0 <= i < |r.values| && r.values[i].Nested? ==> Depth(r.values[i].rec) < d
  {
    var ds := seq(|r.values|, i requires 0 <= i < |r.values| =>
      if r.values[i].Nested? then Depth(r.values[i].rec) else 0);
    assert forall i :: 0 <= i < |r.values| && r.values[i].Nested? ==> ds[i] == Depth(r.values[i].rec);
    1 + MaxOf(ds)
  }
}
