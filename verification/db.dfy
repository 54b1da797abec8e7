/** The `DB` class of collection/db.py: a connection, the `readonly` flag and the
    `functools.lru_cache` memo of `_contains`, with the metadata registry, the record
    types and the ISO parsers it consults. Its methods follow the code as written, step
    by step, and each is proved to compute what the `AsWritten` build of the write or read
    path specifies, so every property proved about `Persist`, `ContainsSpec` and `Read`
    holds of them. */
module Db {
  import opened Wrappers
  import opened Records
  import opened Registry
  import opened Convert
  import opened Store
  import opened WritePath
  import opened ReadPath

  class DB {
    const readonly: bool
    const conn: Connection
    const schema: Schema
    const meta: Metadata
    const parsers: IsoParsers
    /** The `_contains` cache, keyed by `(tablename, pkname, pkvalue)`. */
    var memo: Memo

    /** What the methods depend on besides the engine state. */
    function Environment(): Env
    {
      Env(schema, meta, readonly, AsWritten)
    }

    /** The connection's store and the memo. */
    function State(): EngineState
      reads this, conn
    {
      EngineState(conn.State(), memo)
    }

    /** `DB(conn, readonly)`, with an empty memo. */
    constructor (conn: Connection, readonly: bool, schema: Schema, meta: Metadata, parsers: IsoParsers)
      ensures this.conn == conn && this.readonly == readonly
      ensures this.schema == schema && this.meta == meta && this.parsers == parsers
      ensures memo == map[]
    {
      this.conn := conn;
      this.readonly := readonly;
      this.schema := schema;
      this.meta := meta;
      this.parsers := parsers;
      memo := map[];
    }

    /** `_contains(tablename, pkname, pkvalue)`: the cached answer, or the store's answer,
        which is then cached; an exception is not cached. */
    method Contains(table: string, pk: string, v: Value) returns (r: Result<bool>)
      modifies this
      ensures Out(r, State()) == ContainsSpec(old(State()), table, pk, v)
    {
      var key := (table, pk, v);
      if key in memo {
        return Ok(memo[key]);
      }
      r := conn.SelectKey(table, v);
      if r.Ok? {
        memo := memo[key := r.value];
      }
    }

    /** The field loop of `insert_or_update`: the key field is skipped, a record value is
        a dependency, anything else a column. */
    method SplitRecord(r: Record, pkname: Option<string>) returns (split: Split)
      requires Shaped(schema, r)
      ensures split == SplitFields(schema[r.ty].fields, r.values, pkname, |schema[r.ty].fields|)
    {
      var fields := schema[r.ty].fields;
      var columns, values, depColumns, deps := [], [], [], [];
      var i := 0;
      while i < |fields|
        invariant 0 <= i <= |fields|
        invariant Split(columns, values, depColumns, deps) == SplitFields(fields, r.values, pkname, i)
      {
        var c, v := fields[i].name, r.values[i];
        if Some(c) == pkname {
        } else if v.Nested? {
          depColumns := depColumns + [c];
          deps := deps + [v.rec];
        } else {
          columns := columns + [c];
          values := values + [v];
        }
        i := i + 1;
      }
      split := Split(columns, values, depColumns, deps);
    }

    /** The branch on the key value: with a key and the check on, `update` is what
        `_contains` answers; with a key and the check off, the key column is inserted;
        without a key, `update` stays unbound. */
    method Decide(table: string, pk: Option<string>, pkvalue: Value, check: bool) returns (action: Result<Action>)
      requires pkvalue != Null ==> pk.Some?
      modifies this
      ensures Out(action, State()) == WritePath.Decide(AsWritten, old(State()), table, pk, pkvalue, check)
    {
      if pkvalue != Null && check {
        var found := Contains(table, pk.value, pkvalue);
        if found.Err? {
          return Err(found.error);
        }
        action := Ok(if found.value then Update else Insert(false));
      } else if pkvalue != Null {
        action := Ok(Insert(true));
      } else {
        action := Ok(Unbound);
      }
    }

    /** `insert_or_update(value, check_if_pk_not_null)`, as written. */
    method InsertOrUpdate(r: Record, check: bool) returns (res: Result<Value>)
      requires Shaped(schema, r)
      modifies this, conn
      ensures Out(res, State()) == Persist(Environment(), old(State()), r, check)
      decreases Depth(r), 1
    {
      if readonly {
        return Err(ValueError);
      }
      var fields := schema[r.ty].fields;
      var tablename := TableNameOf(schema, r.ty);
      var pkname := PrimaryKeyName(schema, meta, r.ty);
      var split := SplitRecord(r, pkname);
      // getattr(value, pkname)
      if pkname.None? {
        return Err(TypeError);
      }
      var index := IndexOfField(fields, pkname.value);
      if index.None? {
        return Err(AttributeError);
      }
      var p := Plan(tablename, pkname, r.values[index.value], split);
      assert p == PlanOf(Environment(), r);
      var action := Decide(tablename, pkname, p.pkValue, check);
      if action.Err? {
        return Err(action.error);
      }
      var keys := InsertDependencies(split.deps, check, Depth(r));
      if keys.Err? {
        return Err(keys.error);
      }
      res := WriteRecord(p, action.value, keys.value);
    }

    /** The loop `for subvalue in insert_dependencies`: each dependency is written in
        turn and its key collected; the first exception ends the loop. */
    method InsertDependencies(deps: seq<Record>, check: bool, bound: nat) returns (res: Result<seq<Value>>)
      requires forall j :: 0 <= j < |deps| ==> Shaped(schema, deps[j]) && Depth(deps[j]) < bound
      modifies this, conn
      ensures Out(res, State()) == PersistList(Environment(), old(State()), deps, check, bound)
      decreases bound, 0
    {
      var keys := [];
      var j := 0;
      while j < |deps|
        invariant 0 <= j <= |deps|
        invariant PersistList(Environment(), old(State()), deps[..j], check, bound) == Out(Ok(keys), State())
      {
        var key := InsertOrUpdate(deps[j], check);
        PersistListSnoc(Environment(), old(State()), deps, j, check, bound);
        if key.Err? {
          PersistListStops(Environment(), old(State()), deps, j + 1, check, bound);
          return Err(key.error);
        }
        keys := keys + [key.value];
        j := j + 1;
      }
      assert deps[..j] == deps;
      res := Ok(keys);
    }

    /** The end of `insert_or_update`: the dependency columns are appended, an unbound
        `update` raises, and the UPDATE or INSERT is executed; an UPDATE returns the key
        value, an INSERT `lastrowid`. */
    method WriteRecord(p: Plan, action: Action, keys: seq<Value>) returns (res: Result<Value>)
      requires action.Update? || action == Insert(true) ==> p.pk.Some?
      modifies conn
      ensures Out(res, State()) == Finish(AsWritten, old(State()), p, action, keys)
    {
      if action == Unbound {
        return Err(UnboundLocalError);
      }
      var stmt := StatementOf(p, action, keys);
      var e := conn.Execute(stmt);
      if e.Err? {
        return Err(e.error);
      }
      res := if action.Update? then Ok(p.pkValue) else Ok(IntVal(e.value.value));
    }

    /** `get(type_, pkvalue)`, as written: the row with the key, or `None`; every column
        becomes a keyword argument, a foreign key by a recursive `get` of the referenced
        type and any other column through `convert_sql_result_value`. */
    method Get(t: TypeId, key: Value) returns (r: Result<Option<Record>>)
      requires SchemaValid(schema) && t < |schema|
      ensures r == Read(Environment(), parsers, conn.State(), t, key)
      decreases t, 2
    {
      var pkname := PrimaryKeyName(schema, meta, t);
      if pkname.None? {
        return Err(OperationalError);
      }
      var row := conn.SelectOne(TableNameOf(schema, t), key);
      if row.Err? {
        return Err(row.error);
      }
      if row.value.None? {
        return Ok(None);
      }
      var fknames := ForeignKeyNamesAsWritten(meta, t);
      if fknames.Err? {
        return Err(fknames.error);
      }
      var kwargs := GetArguments(t, fknames.value, row.value.value);
      if kwargs.Err? {
        return Err(kwargs.error);
      }
      var rec := Construct(schema[t].fields, t, kwargs.value);
      if rec.Err? {
        return Err(rec.error);
      }
      r := Ok(Some(rec.value));
    }

    /** The loop over the columns of the row in `get`, filling `kwargs`. */
    method GetArguments(t: TypeId, fknames: set<string>, row: Row) returns (r: Result<Arguments>)
      requires SchemaValid(schema) && t < |schema|
      ensures r == Kwargs(Environment(), parsers, conn.State(), t, fknames, row, |schema[t].fields|)
      decreases t, 1
    {
      var fields := schema[t].fields;
      var kwargs: Arguments := map[];
      var i := 0;
      while i < |fields|
        invariant 0 <= i <= |fields|
        invariant Kwargs(Environment(), parsers, conn.State(), t, fknames, row, i) == Ok(kwargs)
      {
        var n := ColumnOf(fields[i]);
        var entry := GetEntry(t, fknames, n, Column(row, n));
        KwargsSnoc(Environment(), parsers, conn.State(), t, fknames, row, i, kwargs);
        if entry.Err? {
          KwargsStops(Environment(), parsers, conn.State(), t, fknames, row, i + 1, |fields|);
          return Err(entry.error);
        }
        kwargs := kwargs[entry.value.0 := entry.value.1];
        i := i + 1;
      }
      r := Ok(kwargs);
    }

    /** One column `n` with value `val`: a foreign-key column is resolved by `get` on the
        type of the field it names (`n[:-3]`), any other column converted to its field's
        annotation. */
    method GetEntry(t: TypeId, fknames: set<string>, n: string, val: Value) returns (entry: Result<(string, Value)>)
      requires SchemaValid(schema) && t < |schema|
      ensures entry == Entry(Environment(), parsers, conn.State(), t, fknames, n, val)
      decreases t, 0
    {
      var fields := schema[t].fields;
      if n in fknames {
        var fieldname := StripId(n);
        var fieldtype := FieldTypeOf(fields, fieldname);
        if fieldtype.None? {
          return Err(KeyError);
        } else if fieldtype.value.Scalar? {
          // `get(int, val)` fails at `int._fields`
          return Err(AttributeError);
        }
        assert fieldtype.value.target < t by {
          var k := IndexOfField(fields, fieldname).value;
          assert fields[k].ty.RecordRef?;
        }
        var sub := Get(fieldtype.value.target, val);
        if sub.Err? {
          return Err(sub.error);
        }
        entry := Ok((n, if sub.value.Some? then Nested(sub.value.value) else Null));
      } else {
        var fieldtype := FieldTypeOf(fields, n);
        if fieldtype.None? {
          return Err(KeyError);
        } else if fieldtype.value.RecordRef? {
          return Ok((n, val));
        }
        var x := ConvertSqlResultValue(parsers, val, fieldtype.value.kind);
        if x.Err? {
          return Err(x.error);
        }
        entry := Ok((n, x.value));
      }
    }
  }
}
