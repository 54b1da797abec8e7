/** The read path of the persistence engine: `DB.get(type_, pkvalue)` (collection/db.py)
    as a function of the store. The row is selected by its key; every column is then
    either a foreign key, resolved by a recursive `get` of the referenced type, or a plain
    value passed through `convert_sql_result_value`; the record is built from the
    resulting keyword arguments. As in the write path, `Build` selects the code as written
    or as evidently intended. */
module ReadPath {
  import opened Wrappers
  import opened Records
  import opened Registry
  import opened Convert
  import opened Store
  import opened WritePath

  /** The column a field is stored in: `<name>_id` for a field annotated with a record
      type, the field's name otherwise. */
  function ColumnOf(f: Field): string
  {
    if f.ty.RecordRef? then IdColumn(f.name) else f.name
  }

  /** The select list `get` builds, `(f1, f2, ...)` over the field names, as SQLite reads
      it. Two or more parenthesised names are a row value, which cannot be a result column
      ("row value misused"), and an empty list is a syntax error: both raise
      `OperationalError`. A single name must be a column, and a record-typed field is
      stored in its `_id` column, not under its name ("no such column"). The rest of the
      model reads the columns as stored, which is what the select list evidently means. */
  function SelectListAsWritten(fields: seq<Field>): (r: Result<seq<string>>)
    ensures r.Ok? <==> |fields| == 1 && fields[0].ty.Scalar?
    ensures r.Err? ==> r.error == OperationalError
    ensures r.Ok? ==> r.value == [ColumnOf(fields[0])]
  {
    if |fields| != 1 then Err(OperationalError)
    else if fields[0].ty.RecordRef? then Err(OperationalError)
    else Ok([fields[0].name])
  }

  /** `n[:-3] if n.endswith("_id") else n`. */
  function StripId(n: string): (f: string)
    ensures |n| >= 3 && n[|n| - 3..] == "_id" ==> IdColumn(f) == n
    ensures !(|n| >= 3 && n[|n| - 3..] == "_id") ==> f == n
  {
    if |n| >= 3 && n[|n| - 3..] == "_id" then n[..|n| - 3] else n
  }

  /** Stripping undoes `IdColumn`. */
  lemma StripIdColumn(f: string)
    ensures StripId(IdColumn(f)) == f
  {
    var n := IdColumn(f);
    assert n[|n| - 3..] == "_id";
    assert n[..|n| - 3] == f;
  }

  /** `_foreign_key_names(type_)` in the given build. */
  function ForeignKeyNames(env: Env, t: TypeId): Result<set<string>>
    requires t < |env.schema|
  {
    if env.build == AsWritten then ForeignKeyNamesAsWritten(env.meta, t)
    else Ok(ForeignKeyNamesFixed(env.schema, env.meta, t))
  }

  /** `convert_sql_result_value(val, type_)` in the given build. */
  function Converted(build: Build, parsers: IsoParsers, v: Value, kind: ScalarKind): Result<Value>
  {
    if build == AsWritten then ConvertSqlResultValue(parsers, v, kind)
    else ConvertSqlResultValueFixed(parsers, v, kind)
  }

  type Arguments = map<string, Value>

  /** The names of the first `n` fields. */
  function FieldNameSet(fields: seq<Field>, n: nat): (names: set<string>)
    requires n <= |fields|
    ensures forall j :: 0 <= j < n ==> fields[j].name in names
    ensures forall x :: x in names ==> HasField(fields, x)
  {
    if n == 0 then {} else FieldNameSet(fields, n - 1) + {fields[n - 1].name}
  }

  /** The columns of the first `n` fields. */
  function ColumnNameSet(fields: seq<Field>, n: nat): (names: set<string>)
    requires n <= |fields|
    ensures forall j :: 0 <= j < n ==> ColumnOf(fields[j]) in names
  {
    if n == 0 then {} else ColumnNameSet(fields, n - 1) + {ColumnOf(fields[n - 1])}
  }

  /** `type_(**kwargs)`: a NamedTuple constructor (no field has a default) accepts exactly
      one keyword per field and raises `TypeError` on a missing or unexpected one. */
  function Construct(fields: seq<Field>, t: TypeId, kw: Arguments): (r: Result<Record>)
    ensures r.Ok? <==> kw.Keys == FieldNameSet(fields, |fields|)
    ensures r.Err? ==> r.error == TypeError
    ensures r.Ok? ==> r.value.ty == t && |r.value.values| == |fields|
    ensures r.Ok? ==> forall i :: 0 <= i < |fields| ==> fields[i].name in kw && r.value.values[i] == kw[fields[i].name]
  {
    if kw.Keys == FieldNameSet(fields, |fields|) then
      Ok(Record(t, seq(|fields|, i requires 0 <= i < |fields| => kw[fields[i].name])))
    else Err(TypeError)
  }

  /** `get(type_, pkvalue)`: select the row by its key (a type without a primary-key name
      issues `WHERE None = ?`, which the store rejects), return `None` when there is no
      such row, otherwise build the record from the row's columns. */
  function Read(env: Env, parsers: IsoParsers, st: StoreState, t: TypeId, key: Value): (r: Result<Option<Record>>)
    requires SchemaValid(env.schema) && t < |env.schema|
    ensures r.Ok? && r.value.Some? ==> r.value.value.ty == t && |r.value.value.values| == |env.schema[t].fields|
    decreases t, 1, 0
  {
    var pk := PrimaryKeyName(env.schema, env.meta, t);
    if pk.None? then Err(OperationalError)
    else match SelectRow(st, TableNameOf(env.schema, t), key)
      case Err(e) => Err(e)
      case Ok(None) => Ok(None)
      case Ok(Some(row)) =>
        match ForeignKeyNames(env, t)
        case Err(e) => Err(e)
        case Ok(fknames) =>
          match Kwargs(env, parsers, st, t, fknames, row, |env.schema[t].fields|)
          case Err(e) => Err(e)
          case Ok(kw) =>
            match Construct(env.schema[t].fields, t, kw)
            case Err(e) => Err(e)
            case Ok(rec) => Ok(Some(rec))
  }

  /** The keyword arguments gathered from the first `n` columns of the row, in column
      order; the first failing column raises. */
  function Kwargs(env: Env, parsers: IsoParsers, st: StoreState, t: TypeId, fknames: set<string>, row: Row, n: nat): (r: Result<Arguments>)
    requires SchemaValid(env.schema) && t < |env.schema| && n <= |env.schema[t].fields|
    decreases t, 0, n
  {
    if n == 0 then Ok(map[])
    else match Kwargs(env, parsers, st, t, fknames, row, n - 1)
      case Err(e) => Err(e)
      case Ok(kw) =>
        var c := ColumnOf(env.schema[t].fields[n - 1]);
        match Entry(env, parsers, st, t, fknames, c, Column(row, c))
        case Err(e) => Err(e)
        case Ok(entry) => Ok(kw[entry.0 := entry.1])
  }

  /** One column `c` with value `v`. A foreign-key column names the field without its
      `_id` suffix: an unknown field raises `KeyError`, a scalar annotation reaches
      `get(int, ...)`, which raises `AttributeError` (`int._fields`), and a record type is
      read recursively; as written the result is stored under the column's name, as
      intended under the field's. Any other column must be a field: its value is
      converted to the annotation (a record annotation has no converter and leaves the
      value unchanged). */
  function Entry(env: Env, parsers: IsoParsers, st: StoreState, t: TypeId, fknames: set<string>, c: string, v: Value): (r: Result<(string, Value)>)
    requires SchemaValid(env.schema) && t < |env.schema|
    decreases t, 0, 0
  {
    var fields := env.schema[t].fields;
    if c in fknames then
      var name := StripId(c);
      match FieldTypeOf(fields, name)
      case None => Err(KeyError)
      case Some(Scalar(_)) => Err(AttributeError)
      case Some(RecordRef(target)) =>
        assert target < t by {
          var i := IndexOfField(fields, name).value;
          assert fields[i].ty.RecordRef?;
        }
        match Read(env, parsers, st, target, v)
        case Err(e) => Err(e)
        case Ok(sub) =>
          Ok((if env.build == AsWritten then c else name, if sub.Some? then Nested(sub.value) else Null))
    else
      match FieldTypeOf(fields, c)
      case None => Err(KeyError)
      case Some(RecordRef(_)) => Ok((c, v))
      case Some(Scalar(kind)) =>
        match Converted(env.build, parsers, v, kind)
        case Err(e) => Err(e)
        case Ok(x) => Ok((c, x))
  }

  /** `get` returns `None` exactly when the type has a primary-key name and no row has the
      key (in particular for a NULL key); a row that is found never yields `None`. */
  lemma ReadNone(env: Env, parsers: IsoParsers, st: StoreState, t: TypeId, key: Value)
    requires SchemaValid(env.schema) && t < |env.schema|
    ensures Read(env, parsers, st, t, key) == Ok(None) <==>
      PrimaryKeyName(env.schema, env.meta, t).Some? && SelectRow(st, TableNameOf(env.schema, t), key) == Ok(None)
    ensures key == Null && PrimaryKeyName(env.schema, env.meta, t).Some? && TableNameOf(env.schema, t) in st.tables ==>
      Read(env, parsers, st, t, key) == Ok(None)
  {
  }

  /** As written, a row of a type without registered foreign-key names always raises
      `AttributeError` (`type._field_types`), whatever its columns hold. */
  lemma ReadFoundUnregisteredAsWritten(env: Env, parsers: IsoParsers, st: StoreState, t: TypeId, key: Value)
    requires SchemaValid(env.schema) && t < |env.schema| && env.build == AsWritten
    requires t !in env.meta.fkNames
    requires PrimaryKeyName(env.schema, env.meta, t).Some?
    requires SelectRow(st, TableNameOf(env.schema, t), key).Ok? && SelectRow(st, TableNameOf(env.schema, t), key).value.Some?
    ensures Read(env, parsers, st, t, key) == Err(AttributeError)
  {
  }

  /** One step of `Kwargs`: the arguments of the first `n - 1` columns, updated with the
      entry of column `n - 1`. */
  lemma KwargsStep(env: Env, parsers: IsoParsers, st: StoreState, t: TypeId, fknames: set<string>, row: Row, n: nat)
    requires SchemaValid(env.schema) && t < |env.schema| && 0 < n <= |env.schema[t].fields|
    requires Kwargs(env, parsers, st, t, fknames, row, n).Ok?
    ensures Kwargs(env, parsers, st, t, fknames, row, n - 1).Ok?
    ensures var c := ColumnOf(env.schema[t].fields[n - 1]);
      var e := Entry(env, parsers, st, t, fknames, c, Column(row, c));
      && e.Ok?
      && Kwargs(env, parsers, st, t, fknames, row, n).value == Kwargs(env, parsers, st, t, fknames, row, n - 1).value[e.value.0 := e.value.1]
  {
  }

  /** The first failing column ends the loop: once the first `m` columns fail, so do
      the first `n`, with the same exception. */
  lemma {:induction false} KwargsStops(env: Env, parsers: IsoParsers, st: StoreState, t: TypeId, fknames: set<string>, row: Row, m: nat, n: nat)
    requires SchemaValid(env.schema) && t < |env.schema| && m <= n <= |env.schema[t].fields|
    requires Kwargs(env, parsers, st, t, fknames, row, m).Err?
    ensures Kwargs(env, parsers, st, t, fknames, row, n) == Kwargs(env, parsers, st, t, fknames, row, m)
  {
    if m < n {
      KwargsStops(env, parsers, st, t, fknames, row, m, n - 1);
      var prefix := Kwargs(env, parsers, st, t, fknames, row, n - 1);
      assert prefix.Err?;
      assert Kwargs(env, parsers, st, t, fknames, row, n) == Err(prefix.error);
    }
  }

  /** One more column: the arguments so far, updated with the column's entry unless it
      fails. */
  lemma KwargsSnoc(env: Env, parsers: IsoParsers, st: StoreState, t: TypeId, fknames: set<string>, row: Row, i: nat, kw: Arguments)
    requires SchemaValid(env.schema) && t < |env.schema| && i < |env.schema[t].fields|
    requires Kwargs(env, parsers, st, t, fknames, row, i) == Ok(kw)
    ensures var c := ColumnOf(env.schema[t].fields[i]);
      var e := Entry(env, parsers, st, t, fknames, c, Column(row, c));
      Kwargs(env, parsers, st, t, fknames, row, i + 1) == if e.Err? then Err(e.error) else Ok(kw[e.value.0 := e.value.1])
  {
  }

  /** As written, an entry is keyed by its column. */
  lemma EntryKeyAsWritten(env: Env, parsers: IsoParsers, st: StoreState, t: TypeId, fknames: set<string>, c: string, v: Value)
    requires SchemaValid(env.schema) && t < |env.schema| && env.build == AsWritten
    requires Entry(env, parsers, st, t, fknames, c, v).Ok?
    ensures Entry(env, parsers, st, t, fknames, c, v).value.0 == c
  {
  }

  /** As written, every keyword argument is named after its column. */
  lemma {:induction false} KwargsKeysAsWritten(env: Env, parsers: IsoParsers, st: StoreState, t: TypeId, fknames: set<string>, row: Row, n: nat)
    requires SchemaValid(env.schema) && t < |env.schema| && n <= |env.schema[t].fields|
    requires env.build == AsWritten
    requires Kwargs(env, parsers, st, t, fknames, row, n).Ok?
    ensures Kwargs(env, parsers, st, t, fknames, row, n).value.Keys == ColumnNameSet(env.schema[t].fields, n)
  {
    if n > 0 {
      var fields := env.schema[t].fields;
      var c := ColumnOf(fields[n - 1]);
      KwargsStep(env, parsers, st, t, fknames, row, n);
      KwargsKeysAsWritten(env, parsers, st, t, fknames, row, n - 1);
      EntryKeyAsWritten(env, parsers, st, t, fknames, c, Column(row, c));
    }
  }

  /** As written, even with registered foreign-key names, a type with a record-typed field
      never reads back as a record: the keyword `<field>_id` is not a field name, so the
      constructor raises `TypeError` if nothing raised before. */
  lemma ReadForeignKeyAsWritten(env: Env, parsers: IsoParsers, st: StoreState, t: TypeId, key: Value, i: nat)
    requires SchemaValid(env.schema) && t < |env.schema| && env.build == AsWritten
    requires i < |env.schema[t].fields| && env.schema[t].fields[i].ty.RecordRef?
    requires !HasField(env.schema[t].fields, IdColumn(env.schema[t].fields[i].name))
    ensures Read(env, parsers, st, t, key).Ok? ==> Read(env, parsers, st, t, key).value.None?
  {
    var fields := env.schema[t].fields;
    var pk := PrimaryKeyName(env.schema, env.meta, t);
    if pk.Some? {
      var sel := SelectRow(st, TableNameOf(env.schema, t), key);
      if sel.Ok? && sel.value.Some? {
        var fk := ForeignKeyNames(env, t);
        if fk.Ok? {
          var kw := Kwargs(env, parsers, st, t, fk.value, sel.value.value, |fields|);
          if kw.Ok? {
            KwargsKeysAsWritten(env, parsers, st, t, fk.value, sel.value.value, |fields|);
            assert ColumnOf(fields[i]) in kw.value.Keys;
            assert ColumnOf(fields[i]) !in FieldNameSet(fields, |fields|);
          }
        }
      }
    }
  }

  /** Corrected, an entry is keyed by its field: a foreign-key column `<field>_id` by the
      field, any other column by itself. */
  lemma EntryKeyCorrected(env: Env, parsers: IsoParsers, st: StoreState, t: TypeId, fknames: set<string>, i: nat, v: Value)
    requires SchemaValid(env.schema) && t < |env.schema| && env.build == Corrected
    requires i < |env.schema[t].fields|
    requires ColumnOf(env.schema[t].fields[i]) in fknames <==> env.schema[t].fields[i].ty.RecordRef?
    requires Entry(env, parsers, st, t, fknames, ColumnOf(env.schema[t].fields[i]), v).Ok?
    ensures Entry(env, parsers, st, t, fknames, ColumnOf(env.schema[t].fields[i]), v).value.0 == env.schema[t].fields[i].name
  {
    StripIdColumn(env.schema[t].fields[i].name);
  }

  /** Corrected, the keyword arguments of the first `n` columns are the names of the first
      `n` fields, provided exactly the record-typed fields' columns are foreign keys. */
  lemma {:induction false} KwargsKeysCorrected(env: Env, parsers: IsoParsers, st: StoreState, t: TypeId, fknames: set<string>, row: Row, n: nat)
    requires SchemaValid(env.schema) && t < |env.schema| && n <= |env.schema[t].fields|
    requires env.build == Corrected
    requires forall i :: 0 <= i < |env.schema[t].fields| ==>
      (ColumnOf(env.schema[t].fields[i]) in fknames <==> env.schema[t].fields[i].ty.RecordRef?)
    requires Kwargs(env, parsers, st, t, fknames, row, n).Ok?
    ensures Kwargs(env, parsers, st, t, fknames, row, n).value.Keys == FieldNameSet(env.schema[t].fields, n)
  {
    if n > 0 {
      var fields := env.schema[t].fields;
      var c := ColumnOf(fields[n - 1]);
      KwargsStep(env, parsers, st, t, fknames, row, n);
      KwargsKeysCorrected(env, parsers, st, t, fknames, row, n - 1);
      EntryKeyCorrected(env, parsers, st, t, fknames, n - 1, Column(row, c));
      var e := Entry(env, parsers, st, t, fknames, c, Column(row, c));
      var before := Kwargs(env, parsers, st, t, fknames, row, n - 1).value;
      assert Kwargs(env, parsers, st, t, fknames, row, n).value == before[e.value.0 := e.value.1];
      assert FieldNameSet(fields, n) == FieldNameSet(fields, n - 1) + {fields[n - 1].name};
    }
  }

  /** Corrected, a found row of a type without registered foreign-key names reads back as
      a record exactly when every column resolves, provided no scalar field is named like
      the `_id` column of a record-typed field. */
  lemma ReadFoundCorrected(env: Env, parsers: IsoParsers, st: StoreState, t: TypeId, key: Value, row: Row)
    requires SchemaValid(env.schema) && t < |env.schema| && env.build == Corrected
    requires t !in env.meta.fkNames
    requires forall i, j ::
      (0 <= i < |env.schema[t].fields| && 0 <= j < |env.schema[t].fields| &&
       env.schema[t].fields[i].ty.RecordRef? && env.schema[t].fields[j].ty.Scalar?) ==>
      env.schema[t].fields[j].name != IdColumn(env.schema[t].fields[i].name)
    requires PrimaryKeyName(env.schema, env.meta, t).Some?
    requires SelectRow(st, TableNameOf(env.schema, t), key) == Ok(Some(row))
    ensures var fknames := ForeignKeyNamesFixed(env.schema, env.meta, t);
      Read(env, parsers, st, t, key).Ok? <==> Kwargs(env, parsers, st, t, fknames, row, |env.schema[t].fields|).Ok?
    ensures Read(env, parsers, st, t, key).Ok? ==> Read(env, parsers, st, t, key).value.Some?
  {
    var fields := env.schema[t].fields;
    var fknames := ForeignKeyNamesFixed(env.schema, env.meta, t);
    forall i | 0 <= i < |fields|
      ensures ColumnOf(fields[i]) in fknames <==> fields[i].ty.RecordRef?
    {
      ForeignKeyNamesFixedDerived(env.schema, env.meta, t, ColumnOf(fields[i]));
    }
    var kw := Kwargs(env, parsers, st, t, fknames, row, |fields|);
    if kw.Ok? {
      KwargsKeysCorrected(env, parsers, st, t, fknames, row, |fields|);
    }
  }

  /** A value of exactly the given scalar kind. Unlike `IsInstance`, a datetime is not
      taken for a date: its ISO text is not that of a date. */
  predicate OfKind(v: Value, kind: ScalarKind)
  {
    match kind
    case IntKind => v.IntVal?
    case StrKind => v.StrVal?
    case DateKind => v.DateVal?
    case DateTimeKind => v.DateTimeVal?
  }

  /** A field annotated with a scalar kind and holding NULL or a value of exactly that kind. */
  predicate FlatField(f: Field, v: Value)
  {
    f.ty.Scalar? && (v == Null || OfKind(v, f.ty.kind))
  }

  /** `date.fromisoformat` and `datetime.fromisoformat` read back the text the adapters
      write. */
  ghost predicate ReadsBack(a: Adapters, parsers: IsoParsers)
  {
    && (forall d :: parsers.parseDate(a.date(d)) == Ok(DateVal(d)))
    && (forall x :: parsers.parseDateTime(a.dateTime(x)) == Ok(DateTimeVal(x)))
  }

  /** As intended, a value written through the adapters and converted back under its own
      annotation is the value that was written: a date comes back from its ISO text, and
      NULL, an integer or a string comes back unchanged. */
  lemma ConvertAdapted(a: Adapters, parsers: IsoParsers, v: Value, kind: ScalarKind)
    requires ReadsBack(a, parsers)
    requires v == Null || OfKind(v, kind)
    ensures ConvertSqlResultValueFixed(parsers, Adapt(a, v), kind) == Ok(v)
  {
    if v.DateVal? {
      assert parsers.parseDate(a.date(v.day)) == Ok(v);
    } else if v.DateTimeVal? {
      assert parsers.parseDateTime(a.dateTime(v.instant)) == Ok(v);
    }
  }

  /** Extending the arguments of the first `n - 1` columns by a successful entry. */
  lemma KwargsExtend(env: Env, parsers: IsoParsers, st: StoreState, t: TypeId, fknames: set<string>, row: Row, n: nat)
    requires SchemaValid(env.schema) && t < |env.schema| && 0 < n <= |env.schema[t].fields|
    requires Kwargs(env, parsers, st, t, fknames, row, n - 1).Ok?
    requires var c := ColumnOf(env.schema[t].fields[n - 1]);
      Entry(env, parsers, st, t, fknames, c, Column(row, c)).Ok?
    ensures var c := ColumnOf(env.schema[t].fields[n - 1]);
      var e := Entry(env, parsers, st, t, fknames, c, Column(row, c));
      Kwargs(env, parsers, st, t, fknames, row, n) == Ok(Kwargs(env, parsers, st, t, fknames, row, n - 1).value[e.value.0 := e.value.1])
  {
  }

  /** A field written with NULL or a value of its scalar kind, outside every foreign-key
      column, reads back from its adapted column as that value under its own name in the
      corrected build. */
  lemma EntryFlat(env: Env, parsers: IsoParsers, st: StoreState, t: TypeId, i: nat, v: Value)
    requires SchemaValid(env.schema) && t < |env.schema| && env.build == Corrected
    requires ReadsBack(st.adapters, parsers)
    requires i < |env.schema[t].fields| && FlatField(env.schema[t].fields[i], v)
    ensures Entry(env, parsers, st, t, {}, env.schema[t].fields[i].name, Adapt(st.adapters, v)) == Ok((env.schema[t].fields[i].name, v))
  {
    var fields := env.schema[t].fields;
    assert IndexOfField(fields, fields[i].name) == Some(i) by {
      assert DistinctNames(fields);
    }
    ConvertAdapted(st.adapters, parsers, v, fields[i].ty.kind);
  }

  /** The keyword arguments naming the first `n` fields with the given values. */
  function FieldArguments(fields: seq<Field>, vals: seq<Value>, n: nat): Arguments
    requires n <= |fields| && n <= |vals|
  {
    if n == 0 then map[] else FieldArguments(fields, vals, n - 1)[fields[n - 1].name := vals[n - 1]]
  }

  /** With distinct field names, those arguments hold exactly the first `n` fields, each
      with its own value. */
  lemma {:induction false} FieldArgumentsExact(fields: seq<Field>, vals: seq<Value>, n: nat)
    requires n <= |fields| && n <= |vals| && DistinctNames(fields)
    ensures FieldArguments(fields, vals, n).Keys == FieldNameSet(fields, n)
    ensures forall j :: 0 <= j < n ==> FieldArguments(fields, vals, n)[fields[j].name] == vals[j]
  {
    if n > 0 {
      FieldArgumentsExact(fields, vals, n - 1);
    }
  }

  /** As intended, the columns of a fetched row of a type without record-typed fields
      become keyword arguments named after the fields, each the value that was written. */
  lemma {:induction false} KwargsFlat(env: Env, parsers: IsoParsers, st: StoreState, t: TypeId, row: Row, vals: seq<Value>, n: nat)
    requires SchemaValid(env.schema) && t < |env.schema| && n <= |env.schema[t].fields| == |vals|
    requires env.build == Corrected && ReadsBack(st.adapters, parsers)
    requires forall j :: 0 <= j < |vals| ==>
      env.schema[t].fields[j].name in row && row[env.schema[t].fields[j].name] == Adapt(st.adapters, vals[j]) && FlatField(env.schema[t].fields[j], vals[j])
    ensures Kwargs(env, parsers, st, t, {}, row, n) == Ok(FieldArguments(env.schema[t].fields, vals, n))
  {
    if n > 0 {
      var f := env.schema[t].fields[n - 1];
      KwargsFlat(env, parsers, st, t, row, vals, n - 1);
      EntryFlat(env, parsers, st, t, n - 1, vals[n - 1]);
      KwargsExtend(env, parsers, st, t, {}, row, n);
    }
  }

  /** As intended, a stored row whose columns hold every field of a type without
      record-typed fields, each NULL or of its field's kind, reads back as exactly those
      values, dates through their ISO text. */
  lemma ReadFlat(env: Env, parsers: IsoParsers, st: StoreState, t: TypeId, key: Value, row: Row, vals: seq<Value>)
    requires SchemaValid(env.schema) && t < |env.schema| && env.build == Corrected
    requires t !in env.meta.fkNames && ReadsBack(st.adapters, parsers)
    requires PrimaryKeyName(env.schema, env.meta, t).Some?
    requires SelectRow(st, TableNameOf(env.schema, t), key) == Ok(Some(Fetched(st.adapters, row)))
    requires |vals| == |env.schema[t].fields|
    requires forall j :: 0 <= j < |vals| ==>
      env.schema[t].fields[j].name in row && row[env.schema[t].fields[j].name] == vals[j] && FlatField(env.schema[t].fields[j], vals[j])
    ensures Read(env, parsers, st, t, key) == Ok(Some(Record(t, vals)))
  {
    var fields := env.schema[t].fields;
    assert ForeignKeyNames(env, t) == Ok(ForeignKeyNamesFixed(env.schema, env.meta, t));
    assert ForeignKeyNamesFixed(env.schema, env.meta, t) == {} by {
      forall c | c in ForeignKeyNamesFixed(env.schema, env.meta, t)
        ensures false
      {
        ForeignKeyNamesFixedDerived(env.schema, env.meta, t, c);
      }
    }
    KwargsFlat(env, parsers, st, t, Fetched(st.adapters, row), vals, |fields|);
    var kw := FieldArguments(fields, vals, |fields|);
    FieldArgumentsExact(fields, vals, |fields|);
    var rec := Construct(fields, t, kw);
    assert rec.Ok? && rec.value.values == vals;
  }
}
