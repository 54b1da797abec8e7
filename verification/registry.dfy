/** The metadata registry of the persistence engine (collection/db.py): four module-level
    dictionaries keyed by record type, filled at import time by the `register_*` class
    decorators, and the lookups that fall back to naming conventions when a type has no
    registered entry. */
module Registry {
  import opened Wrappers
  import opened Records
  import Naming

  /** `InsertMode(enum.IntFlag)`: one bit per policy. */
  type InsertMode = bv8

  const InsertIfNewPKElseUpdate: InsertMode := 1
  const InsertIfNewAltPKElseUpdate: InsertMode := 2
  const InsertIfNewPKElseIgnore: InsertMode := 4
  const InsertIfNewAltPKElseIgnore: InsertMode := 8
  const InsertIfNoPK: InsertMode := 16

  /** The mode of a type that registered none. */
  const DefaultInsertMode: InsertMode := InsertIfNewPKElseUpdate | InsertIfNewAltPKElseUpdate | InsertIfNoPK

  /** A snapshot of INSERT_MODES, PK_NAMES, FK_NAMES and ALT_PK_NAMES. */
  datatype Metadata = Metadata(
    insertModes: map<TypeId, InsertMode>,
    pkNames: map<TypeId, string>,
    fkNames: map<TypeId, set<string>>,
    altPkNames: map<TypeId, set<string>>)

  /** The given names that are not fields of the type (`missing` in the decorators). */
  function MissingNames(fields: seq<Field>, names: set<string>): (missing: set<string>)
    ensures forall n :: n in missing <==> n in names && !HasField(fields, n)
  {
    set n | n in names && !HasField(fields, n)
  }

  /** `{n + "_id" for n in fknames}`. */
  function ForeignKeyColumns(names: set<string>): set<string>
  {
    set n | n in names :: IdColumn(n)
  }

  /** `{name + '_id' if issubclass(types[name], tuple) else name for name in names}`. */
  function AltKeyColumns(fields: seq<Field>, names: set<string>): set<string>
  {
    set n | n in names :: AltKeyColumn(fields, n)
  }

  /** The column `register_alt_pk_names` stores for one name. */
  function AltKeyColumn(fields: seq<Field>, n: string): string
  {
    if FieldTypeOf(fields, n).Some? && FieldTypeOf(fields, n).value.RecordRef? then IdColumn(n) else n
  }

  /** The columns stored for a list of names are the names' columns, one by one. */
  lemma AltKeyColumnsList(fields: seq<Field>, names: seq<string>, cols: seq<string>)
    requires |names| == |cols|
    requires forall i :: 0 <= i < |names| ==> cols[i] == AltKeyColumn(fields, names[i])
    ensures AltKeyColumns(fields, set n | n in names) == set c | c in cols
  {
    forall c | c in cols
      ensures c in AltKeyColumns(fields, set n | n in names)
    {
      var i :| 0 <= i < |cols| && cols[i] == c;
      assert names[i] in set n | n in names;
    }
  }

  /** Every registered name refers to a field of its type; this is what the `NameError`
      checks of the decorators maintain. */
  ghost predicate MetadataValid(schema: Schema, meta: Metadata)
  {
    && (forall t :: t in meta.pkNames ==> t < |schema| && HasField(schema[t].fields, meta.pkNames[t]))
    && (forall t :: t in meta.fkNames ==>
          && t < |schema|
          && forall c :: c in meta.fkNames[t] ==> exists n :: HasField(schema[t].fields, n) && c == IdColumn(n))
    && (forall t :: t in meta.altPkNames ==> t < |schema|)
    && (forall t :: t in meta.insertModes ==> t < |schema|)
  }

  /** The four module-level dictionaries. */
  class Registry {
    var insertModes: map<TypeId, InsertMode>
    var pkNames: map<TypeId, string>
    var fkNames: map<TypeId, set<string>>
    var altPkNames: map<TypeId, set<string>>

    function Snapshot(): Metadata
      reads this
    {
      Metadata(insertModes, pkNames, fkNames, altPkNames)
    }

    constructor ()
      ensures Snapshot() == Metadata(map[], map[], map[], map[])
    {
      insertModes, pkNames, fkNames, altPkNames := map[], map[], map[], map[];
    }

    /** `register_insert_mode(mode)(type_)`: never fails. */
    method RegisterInsertMode(schema: Schema, t: TypeId, mode: InsertMode)
      requires t < |schema|
      requires MetadataValid(schema, Snapshot())
      modifies this
      ensures MetadataValid(schema, Snapshot())
      ensures Snapshot() == old(Snapshot()).(insertModes := old(insertModes)[t := mode])
    {
      insertModes := insertModes[t := mode];
    }

    /** `register_pk_name(pkname)(type_)`: `NameError`, with the registry unchanged, unless
        `pkname` is a field of the type. */
    method RegisterPkName(schema: Schema, t: TypeId, name: string) returns (o: Outcome)
      requires t < |schema|
      requires MetadataValid(schema, Snapshot())
      modifies this
      ensures MetadataValid(schema, Snapshot())
      ensures o.Pass? <==> HasField(schema[t].fields, name)
      ensures o.Fail? ==> o.error == NameError && Snapshot() == old(Snapshot())
      ensures o.Pass? ==> Snapshot() == old(Snapshot()).(pkNames := old(pkNames)[t := name])
    {
      if !HasField(schema[t].fields, name) {
        return Fail(NameError);
      }
      pkNames := pkNames[t := name];
      o := Pass;
    }

    /** `register_fk_names(*names)(type_)`: `NameError`, with the registry unchanged, if
        any name is not a field; otherwise the type's foreign-key columns are the names
        with `_id` appended. */
    method RegisterFkNames(schema: Schema, t: TypeId, names: seq<string>) returns (o: Outcome)
      requires t < |schema|
      requires MetadataValid(schema, Snapshot())
      modifies this
      ensures MetadataValid(schema, Snapshot())
      ensures o.Pass? <==> forall n :: n in names ==> HasField(schema[t].fields, n)
      ensures o.Fail? ==> o.error == NameError && Snapshot() == old(Snapshot())
      ensures o.Pass? ==> Snapshot() == old(Snapshot()).(fkNames := old(fkNames)[t := ForeignKeyColumns(set n | n in names)])
    {
      var fknames := set n | n in names;
      var missing := MissingNames(schema[t].fields, fknames);
      if missing != {} {
        return Fail(NameError);
      }
      fkNames := fkNames[t := ForeignKeyColumns(fknames)];
      o := Pass;
    }

    /** `register_alt_pk_names(*names)(type_)`: `NameError`, with the registry unchanged,
        if any name is not a field; otherwise a name whose field is annotated with a record
        type is stored as `<name>_id` and any other name is stored unchanged. */
    method RegisterAltPkNames(schema: Schema, t: TypeId, names: seq<string>) returns (o: Outcome)
      requires t < |schema|
      requires MetadataValid(schema, Snapshot())
      modifies this
      ensures MetadataValid(schema, Snapshot())
      ensures o.Pass? <==> forall n :: n in names ==> HasField(schema[t].fields, n)
      ensures o.Fail? ==> o.error == NameError && Snapshot() == old(Snapshot())
      ensures o.Pass? ==> Snapshot() == old(Snapshot()).(altPkNames := old(altPkNames)[t := AltKeyColumns(schema[t].fields, set n | n in names)])
    {
      var altnames := set n | n in names;
      var missing := MissingNames(schema[t].fields, altnames);
      if missing != {} {
        return Fail(NameError);
      }
      altPkNames := altPkNames[t := AltKeyColumns(schema[t].fields, altnames)];
      o := Pass;
    }
  }

  /** `_table_name(type_)`. */
  function TableNameOf(schema: Schema, t: TypeId): string
    requires t < |schema|
  {
    Naming.TableName(schema[t].name)
  }

  /** `_primary_key_name(type_)`: the registered name, else `<table>_id` when that is a
      field, else none. */
  function PrimaryKeyName(schema: Schema, meta: Metadata, t: TypeId): Option<string>
    requires t < |schema|
  {
    if t in meta.pkNames then Some(meta.pkNames[t])
    else
      var pk := TableNameOf(schema, t) + "_id";
      if HasField(schema[t].fields, pk) then Some(pk) else None
  }

  /** With a valid registry the primary-key name is always a field of the type, and a
      type without one has neither a registered name nor a `<table>_id` field. */
  lemma PrimaryKeyNameIsField(schema: Schema, meta: Metadata, t: TypeId)
    requires t < |schema| && MetadataValid(schema, meta)
    ensures PrimaryKeyName(schema, meta, t).Some? ==> HasField(schema[t].fields, PrimaryKeyName(schema, meta, t).value)
    ensures PrimaryKeyName(schema, meta, t).None? <==>
      t !in meta.pkNames && !HasField(schema[t].fields, TableNameOf(schema, t) + "_id")
  {
  }

  /** A type with no registered name whose field `i` is `<table>_id` has that field as its
      primary key. */
  lemma ConventionalPrimaryKey(schema: Schema, meta: Metadata, t: TypeId, table: string, i: nat)
    requires t < |schema| && t !in meta.pkNames
    requires TableNameOf(schema, t) == table
    requires i < |schema[t].fields| && schema[t].fields[i].name == table + "_id"
    ensures PrimaryKeyName(schema, meta, t) == Some(table + "_id")
  {
  }

  /** `_foreign_key_names(type_)` AS WRITTEN: the fallback reads `type._field_types`, an
      attribute the builtin `type` does not have, so every type without registered
      foreign-key names raises `AttributeError`. */
  function ForeignKeyNamesAsWritten(meta: Metadata, t: TypeId): (r: Result<set<string>>)
    ensures r.Ok? <==> t in meta.fkNames
    ensures r.Ok? ==> r.value == meta.fkNames[t]
    ensures r.Err? ==> r.error == AttributeError
  {
    if t in meta.fkNames then Ok(meta.fkNames[t]) else Err(AttributeError)
  }

  /** `_foreign_key_names(type_)` as intended (`type_._field_types`): the registered
      names, else `<field>_id` for every field annotated with a record type. */
  function ForeignKeyNamesFixed(schema: Schema, meta: Metadata, t: TypeId): set<string>
    requires t < |schema|
  {
    if t in meta.fkNames then meta.fkNames[t]
    else set i | 0 <= i < |schema[t].fields| && schema[t].fields[i].ty.RecordRef? :: IdColumn(schema[t].fields[i].name)
  }

  /** The derived foreign-key columns are exactly the `_id` columns of the record-typed
      fields. */
  lemma ForeignKeyNamesFixedDerived(schema: Schema, meta: Metadata, t: TypeId, c: string)
    requires t < |schema| && t !in meta.fkNames
    ensures c in ForeignKeyNamesFixed(schema, meta, t) <==>
      exists i :: 0 <= i < |schema[t].fields| && schema[t].fields[i].ty.RecordRef? && c == IdColumn(schema[t].fields[i].name)
  {
  }

  /** `_insert_mode(type_)` AS WRITTEN: the `return` sits inside the `if`, so a type with
      a registered mode falls off the end and yields `None`. */
  function InsertModeAsWritten(meta: Metadata, t: TypeId): (r: Option<InsertMode>)
    ensures r.None? <==> t in meta.insertModes
    ensures r.Some? ==> r.value == DefaultInsertMode
  {
    if t !in meta.insertModes then Some(DefaultInsertMode) else None
  }

  /** `_insert_mode(type_)` as intended: the registered mode, else the default. */
  function InsertModeFixed(meta: Metadata, t: TypeId): (r: InsertMode)
    ensures t in meta.insertModes ==> r == meta.insertModes[t]
    ensures t !in meta.insertModes ==> r == DefaultInsertMode
  {
    if t in meta.insertModes then meta.insertModes[t] else DefaultInsertMode
  }

  /** The default mode is `InsertIfNewPKElseUpdate | InsertIfNewAltPKElseUpdate | InsertIfNoPK`,
      the integer 19. */
  lemma DefaultInsertModeValue()
    ensures DefaultInsertMode as int == 19
    ensures DefaultInsertMode & InsertIfNewPKElseIgnore == 0 && DefaultInsertMode & InsertIfNewAltPKElseIgnore == 0
  {
  }

  /** Registering a mode makes the as-written lookup lose every mode, the registered one
      included, while the corrected lookup returns it. */
  lemma RegisteredModeIsLost(meta: Metadata, t: TypeId, mode: InsertMode)
    ensures InsertModeAsWritten(meta.(insertModes := meta.insertModes[t := mode]), t) == None
    ensures InsertModeFixed(meta.(insertModes := meta.insertModes[t := mode]), t) == mode
  {
  }
}
