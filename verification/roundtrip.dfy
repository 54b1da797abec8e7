/** Writing a record and reading it back by the key the write returned. The property
    holds in the corrected build for a record type whose fields are all scalars; as
    written the read raises `AttributeError` for every such type (`ReadPath`). */
module RoundTrip {
  import opened Wrappers
  import opened Records
  import opened Registry
  import opened Convert
  import opened Store
  import opened WritePath
  import opened ReadPath

  /** One scalar field more: its name and value are appended to the columns. */
  lemma SplitFieldsScalarStep(fields: seq<Field>, vals: seq<Value>, pk: Option<string>, n: nat)
    requires 0 < n <= |fields| && n <= |vals|
    requires Some(fields[n - 1].name) != pk && !vals[n - 1].Nested?
    ensures var s, s' := SplitFields(fields, vals, pk, n - 1), SplitFields(fields, vals, pk, n);
      s'.columns == s.columns + [fields[n - 1].name] && s'.values == s.values + [vals[n - 1]]
  {
  }

  /** The key field adds nothing. */
  lemma SplitFieldsKeyStep(fields: seq<Field>, vals: seq<Value>, pk: Option<string>, n: nat)
    requires 0 < n <= |fields| && n <= |vals|
    requires Some(fields[n - 1].name) == pk
    ensures SplitFields(fields, vals, pk, n) == SplitFields(fields, vals, pk, n - 1)
  {
  }

  /** Without nested values there are no dependencies. */
  lemma {:induction false} SplitFieldsNoDeps(fields: seq<Field>, vals: seq<Value>, pk: Option<string>, n: nat)
    requires n <= |fields| && n <= |vals|
    requires forall j :: 0 <= j < n ==> !vals[j].Nested?
    ensures SplitFields(fields, vals, pk, n).deps == [] && SplitFields(fields, vals, pk, n).depColumns == []
  {
    if n > 0 {
      SplitFieldsNoDeps(fields, vals, pk, n - 1);
    }
  }

  /** The row holds, under the name of each of the first `n` fields other than the key,
      that field's value. */
  ghost predicate RowHolds(row: Row, fields: seq<Field>, vals: seq<Value>, pk: Option<string>, n: nat)
    requires n <= |fields| && n <= |vals|
  {
    forall j :: 0 <= j < n && Some(fields[j].name) != pk ==> fields[j].name in row && row[fields[j].name] == vals[j]
  }

  /** Binding the next field's value keeps the earlier fields, whose names differ. */
  lemma RowHoldsBind(row: Row, fields: seq<Field>, vals: seq<Value>, pk: Option<string>, n: nat)
    requires 0 < n <= |fields| && n <= |vals| && DistinctNames(fields)
    requires RowHolds(row, fields, vals, pk, n - 1)
    ensures RowHolds(row[fields[n - 1].name := vals[n - 1]], fields, vals, pk, n)
  {
    var row' := row[fields[n - 1].name := vals[n - 1]];
    forall j | 0 <= j < n - 1 && Some(fields[j].name) != pk
      ensures fields[j].name in row' && row'[fields[j].name] == vals[j]
    {
      assert fields[j].name != fields[n - 1].name;
    }
  }

  /** The key field needs no column. */
  lemma RowHoldsSkip(row: Row, fields: seq<Field>, vals: seq<Value>, pk: Option<string>, n: nat)
    requires 0 < n <= |fields| && n <= |vals| && Some(fields[n - 1].name) == pk
    requires RowHolds(row, fields, vals, pk, n - 1)
    ensures RowHolds(row, fields, vals, pk, n)
  {
  }

  /** The scalar columns collected from the first `n` fields hold, under each field's
      name, that field's value. */
  lemma {:induction false} SplitRow(fields: seq<Field>, vals: seq<Value>, pk: Option<string>, n: nat)
    requires n <= |fields| && n <= |vals| && DistinctNames(fields)
    requires forall j :: 0 <= j < n ==> !vals[j].Nested?
    ensures var s := SplitFields(fields, vals, pk, n);
      RowHolds(RowOf(s.columns, s.values), fields, vals, pk, n)
  {
    if n > 0 {
      SplitRow(fields, vals, pk, n - 1);
      var s := SplitFields(fields, vals, pk, n - 1);
      var row := RowOf(s.columns, s.values);
      if Some(fields[n - 1].name) != pk {
        SplitFieldsScalarStep(fields, vals, pk, n);
        RowOfAppend(s.columns, s.values, fields[n - 1].name, vals[n - 1]);
        RowHoldsBind(row, fields, vals, pk, n);
      } else {
        SplitFieldsKeyStep(fields, vals, pk, n);
        RowHoldsSkip(row, fields, vals, pk, n);
      }
    }
  }

  /** A flat field holds a scalar, never a record. */
  lemma FlatNotNested(fields: seq<Field>, vals: seq<Value>)
    requires |vals| <= |fields|
    requires forall j :: 0 <= j < |vals| ==> FlatField(fields[j], vals[j])
    ensures forall j :: 0 <= j < |vals| ==> !vals[j].Nested?
  {
  }

  /** The parts of the plan the round trip relies on. */
  lemma PlanFacts(env: Env, r: Record)
    requires Shaped(env.schema, r)
    ensures var p, fields := PlanOf(env, r), env.schema[r.ty].fields;
      && p.table == TableNameOf(env.schema, r.ty)
      && p.pk == PrimaryKeyName(env.schema, env.meta, r.ty)
      && p.split == SplitFields(fields, r.values, p.pk, |fields|)
      && (p.pkValue != Null ==> IndexOfField(fields, p.pk.value).Some? && r.values[IndexOfField(fields, p.pk.value).value] == p.pkValue)
  {
  }

  /** The row an INSERT of the scalar columns and the key stores under the key. */
  function KeyedRow(p: Plan, k: int): Row
    requires p.pk.Some? && |p.split.columns| <= |p.split.values|
  {
    RowOf(p.split.columns + [p.pk.value], p.split.values + [IntVal(k)])[p.pk.value := IntVal(k)]
  }

  /** The row stored by an INSERT of the scalar columns and the key: every field under its
      own name, the key field holding the key. */
  lemma {:induction false} InsertedRow(fields: seq<Field>, vals: seq<Value>, p: Plan, i0: nat, k: int)
    requires |vals| == |fields| && DistinctNames(fields)
    requires forall j :: 0 <= j < |vals| ==> !vals[j].Nested?
    requires p.pk.Some? && p.split == SplitFields(fields, vals, p.pk, |fields|)
    requires i0 < |fields| && fields[i0].name == p.pk.value && vals[i0] == IntVal(k)
    ensures forall j :: 0 <= j < |fields| ==> fields[j].name in KeyedRow(p, k) && KeyedRow(p, k)[fields[j].name] == vals[j]
  {
    SplitRow(fields, vals, p.pk, |fields|);
    RowOfAppend(p.split.columns, p.split.values, p.pk.value, IntVal(k));
  }

  /** In the corrected build, a key that is not NULL is either updated or inserted with
      its key column. */
  lemma DecideKeyedCorrected(st: EngineState, table: string, pk: Option<string>, pkValue: Value, check: bool)
    requires pkValue != Null && pk.Some?
    requires Decide(Corrected, st, table, pk, pkValue, check).result.Ok?
    ensures Decide(Corrected, st, table, pk, pkValue, check).result.value in {Update, Insert(true)}
  {
  }

  /** An INSERT naming the key column of a record without dependencies stores its row
      under the key. */
  lemma FinishInsertRow(build: Build, mid: EngineState, p: Plan, k: int)
    requires p.pk.Some? && p.pkValue == IntVal(k)
    requires |p.split.columns| == |p.split.values| && p.split.depColumns == []
    requires forall j :: 0 <= j < |p.split.columns| ==> Some(p.split.columns[j]) != p.pk
    requires Finish(build, mid, p, Insert(true), []).result.Ok?
    ensures var out := Finish(build, mid, p, Insert(true), []);
      && out.result == Ok(IntVal(k))
      && out.state.store.adapters == mid.store.adapters
      && p.table in out.state.store.tables && out.state.store.tables[p.table].Keys == mid.store.tables[p.table].Keys + {k}
      && out.state.store.tables[p.table][k] == KeyedRow(p, k)
  {
    FinishInsertWithKey(build, mid, p, []);
    var s := StatementOf(p, Insert(true), []);
    assert s.columns == p.split.columns + [p.pk.value];
    assert s.params == p.split.values + [IntVal(k)];
    assert Exec(mid.store, s) == ExecInsert(mid.store, s);
  }

  /** In the corrected build, a record without nested values written under an integer
      key that no row of its table has is inserted with its key: the write returns the
      key, the table gains that one key and holds the record's row under it. */
  lemma FlatWrite(env: Env, st: EngineState, r: Record, check: bool, k: int)
    requires Shaped(env.schema, r) && env.build == Corrected
    requires forall j :: 0 <= j < |r.values| ==> FlatField(env.schema[r.ty].fields[j], r.values[j])
    requires PlanOf(env, r).pkValue == IntVal(k)
    requires StoreValid(st.store) && MemoSound(st)
    requires KeyExists(st.store, PlanOf(env, r).table, IntVal(k)) == Ok(false)
    requires Persist(env, st, r, check).result.Ok?
    ensures var out, p := Persist(env, st, r, check), PlanOf(env, r);
      && out.result == Ok(IntVal(k))
      && out.state.store.adapters == st.store.adapters
      && p.table in out.state.store.tables && out.state.store.tables[p.table].Keys == st.store.tables[p.table].Keys + {k}
      && out.state.store.tables[p.table][k] == KeyedRow(p, k)
  {
    var fields := env.schema[r.ty].fields;
    FlatNotNested(fields, r.values);
    var p := PlanOf(env, r);
    PlanFacts(env, r);
    PersistUnfold(env, st, r, check);
    var d := Decide(env.build, st, p.table, p.pk, p.pkValue, check);
    assert d.result.value == Insert(true) by {
      DecideKeyedCorrected(st, p.table, p.pk, p.pkValue, check);
      if d.result.value.Update? {
        DecideUpdateExisting(env.build, st, p.table, p.pk, p.pkValue, check);
      }
    }
    SplitFieldsNoDeps(fields, r.values, p.pk, |fields|);
    assert PersistList(env, d.state, [], check, Depth(r)) == Out(Ok([]), d.state);
    FinishInsertRow(env.build, d.state, p, k);
  }

  /** As intended, a store holding the row of a flat record under its key reads the
      record back, provided `fromisoformat` reads back what the adapters wrote. */
  lemma ReadKeyedRow(env: Env, parsers: IsoParsers, store: StoreState, r: Record, k: int)
    requires SchemaValid(env.schema) && Shaped(env.schema, r) && env.build == Corrected
    requires r.ty !in env.meta.fkNames && ReadsBack(store.adapters, parsers)
    requires forall j :: 0 <= j < |r.values| ==> FlatField(env.schema[r.ty].fields[j], r.values[j])
    requires PlanOf(env, r).pkValue == IntVal(k)
    requires var p := PlanOf(env, r);
      p.table in store.tables && k in store.tables[p.table] && store.tables[p.table][k] == KeyedRow(p, k)
    ensures Read(env, parsers, store, r.ty, IntVal(k)) == Ok(Some(r))
  {
    var fields := env.schema[r.ty].fields;
    var p := PlanOf(env, r);
    PlanFacts(env, r);
    assert forall j :: 0 <= j < |r.values| ==> !r.values[j].Nested?;
    var i0 := IndexOfField(fields, p.pk.value).value;
    InsertedRow(fields, r.values, p, i0, k);
    ReadFlat(env, parsers, store, r.ty, IntVal(k), KeyedRow(p, k), r.values);
  }

  /** In the corrected build, a record of a type without record-typed fields, every field
      NULL or of its annotated kind, written under an integer key that no row of its
      table has, reads back unchanged by the key the write returns: its dates are stored
      as ISO text and parsed back by `fromisoformat`. */
  lemma FlatRoundTrip(env: Env, parsers: IsoParsers, st: EngineState, r: Record, check: bool, k: int)
    requires SchemaValid(env.schema) && Shaped(env.schema, r) && env.build == Corrected
    requires r.ty !in env.meta.fkNames && ReadsBack(st.store.adapters, parsers)
    requires forall j :: 0 <= j < |r.values| ==> FlatField(env.schema[r.ty].fields[j], r.values[j])
    requires PlanOf(env, r).pkValue == IntVal(k)
    requires StoreValid(st.store) && MemoSound(st)
    requires KeyExists(st.store, PlanOf(env, r).table, IntVal(k)) == Ok(false)
    requires Persist(env, st, r, check).result.Ok?
    ensures var out := Persist(env, st, r, check);
      && out.result == Ok(IntVal(k))
      && Read(env, parsers, out.state.store, r.ty, IntVal(k)) == Ok(Some(r))
  {
    FlatWrite(env, st, r, check, k);
    ReadKeyedRow(env, parsers, Persist(env, st, r, check).state.store, r, k);
  }

  /** In the corrected build, an UPDATE decided for a key that names a stored row. */
  lemma DecideExistingUpdates(st: EngineState, table: string, pk: string, k: int)
    requires MemoAgrees(st) && KeyExists(st.store, table, IntVal(k)) == Ok(true)
    ensures Decide(Corrected, st, table, Some(pk), IntVal(k), true).result == Ok(Update)
    ensures Decide(Corrected, st, table, Some(pk), IntVal(k), true).state.store == st.store
  {
  }

  /** The UPDATE of a record without dependencies overwrites the columns of its fields
      in the row under the key and leaves the key column and every other row as they were. */
  lemma FinishUpdateRow(build: Build, mid: EngineState, p: Plan, k: int, fields: seq<Field>, vals: seq<Value>)
    requires |vals| == |fields| && DistinctNames(fields)
    requires forall j :: 0 <= j < |vals| ==> !vals[j].Nested?
    requires p.pk.Some? && p.pkValue == IntVal(k) && p.split == SplitFields(fields, vals, p.pk, |fields|)
    requires KeyExists(mid.store, p.table, IntVal(k)) == Ok(true)
    requires Finish(build, mid, p, Update, []).result.Ok?
    ensures var out, old_ := Finish(build, mid, p, Update, []), mid.store.tables[p.table];
      && out.result == Ok(IntVal(k))
      && out.state.store.adapters == mid.store.adapters
      && out.state.store.tables[p.table].Keys == old_.Keys
      && var row := out.state.store.tables[p.table][k];
      && RowHolds(row, fields, vals, p.pk, |fields|)
      && (p.pk.value in old_[k] ==> p.pk.value in row && row[p.pk.value] == old_[k][p.pk.value])
  {
    var s := StatementOf(p, Update, []);
    assert s.columns == p.split.columns;
    assert s.params[..|s.columns|] == p.split.values;
    assert Exec(mid.store, s) == ExecUpdate(mid.store, s);
    SplitRow(fields, vals, p.pk, |fields|);
    RowOfColumns(p.split.columns, p.split.values);
  }

  /** In the corrected build, writing again, with the check on, a flat record whose key
      names a stored row updates that row: the write returns the key, the table keeps its
      keys, every field other than the key holds the record's value and the key column is
      untouched. */
  lemma FlatUpdate(env: Env, st: EngineState, r: Record, k: int)
    requires SchemaValid(env.schema) && Shaped(env.schema, r) && env.build == Corrected
    requires forall j :: 0 <= j < |r.values| ==> FlatField(env.schema[r.ty].fields[j], r.values[j])
    requires PlanOf(env, r).pkValue == IntVal(k)
    requires StoreValid(st.store) && MemoAgrees(st)
    requires KeyExists(st.store, PlanOf(env, r).table, IntVal(k)) == Ok(true)
    requires Persist(env, st, r, true).result.Ok?
    ensures var out, p := Persist(env, st, r, true), PlanOf(env, r);
      var old_ := st.store.tables[p.table];
      && out.result == Ok(IntVal(k))
      && out.state.store.adapters == st.store.adapters
      && out.state.store.tables[p.table].Keys == old_.Keys
      && var row := out.state.store.tables[p.table][k];
      && RowHolds(row, env.schema[r.ty].fields, r.values, p.pk, |r.values|)
      && (p.pk.value in old_[k] ==> p.pk.value in row && row[p.pk.value] == old_[k][p.pk.value])
  {
    var fields := env.schema[r.ty].fields;
    assert DistinctNames(fields);
    FlatNotNested(fields, r.values);
    var p := PlanOf(env, r);
    PlanFacts(env, r);
    PersistUnfold(env, st, r, true);
    DecideExistingUpdates(st, p.table, p.pk.value, k);
    var d := Decide(env.build, st, p.table, p.pk, p.pkValue, true);
    SplitFieldsNoDeps(fields, r.values, p.pk, |fields|);
    assert PersistList(env, d.state, [], true, Depth(r)) == Out(Ok([]), d.state);
    assert Persist(env, st, r, true) == Finish(env.build, d.state, p, Update, []);
    FinishUpdateRow(env.build, d.state, p, k, fields, r.values);
  }

  /** The row holds every field under its name, with that field's value. */
  ghost predicate HoldsAll(row: Row, fields: seq<Field>, vals: seq<Value>)
    requires |vals| == |fields|
  {
    forall j :: 0 <= j < |fields| ==> fields[j].name in row && row[fields[j].name] == vals[j]
  }

  /** A row that held every field and whose non-key columns were then overwritten with
      the same values, its key column untouched, still holds every field. */
  lemma RowHoldsAll(fields: seq<Field>, vals: seq<Value>, pk: string, before: Row, row: Row)
    requires |vals| == |fields| && HoldsAll(before, fields, vals)
    requires RowHolds(row, fields, vals, Some(pk), |fields|)
    requires pk in before ==> pk in row && row[pk] == before[pk]
    ensures HoldsAll(row, fields, vals)
  {
  }

  /** The state after the first of two writes of a flat record under a new key: the
      row is stored and the second write may rely on the invariants of the store and the
      memo. */
  lemma FirstOfTwo(env: Env, st: EngineState, r: Record, k: int)
    requires SchemaValid(env.schema) && Shaped(env.schema, r) && env.build == Corrected
    requires forall j :: 0 <= j < |r.values| ==> FlatField(env.schema[r.ty].fields[j], r.values[j])
    requires PlanOf(env, r).pkValue == IntVal(k)
    requires StoreValid(st.store) && MemoAgrees(st)
    requires KeyExists(st.store, PlanOf(env, r).table, IntVal(k)) == Ok(false)
    requires Persist(env, st, r, true).result.Ok?
    ensures var first, p := Persist(env, st, r, true), PlanOf(env, r);
      && first.result == Ok(IntVal(k))
      && StoreValid(first.state.store) && MemoAgrees(first.state)
      && first.state.store.adapters == st.store.adapters
      && p.table in first.state.store.tables && first.state.store.tables[p.table].Keys == st.store.tables[p.table].Keys + {k}
      && KeyExists(first.state.store, p.table, IntVal(k)) == Ok(true)
      && HoldsAll(first.state.store.tables[p.table][k], env.schema[r.ty].fields, r.values)
  {
    var fields := env.schema[r.ty].fields;
    var p := PlanOf(env, r);
    PlanFacts(env, r);
    assert MemoSound(st);
    FlatWrite(env, st, r, true, k);
    PersistEvolves(env, st, r, true);
    FlatNotNested(fields, r.values);
    assert DistinctNames(fields);
    InsertedRow(fields, r.values, p, IndexOfField(fields, p.pk.value).value, k);
  }

  /** A store whose row under the key holds every field of a flat record reads the
      record back. */
  lemma ReadHeldRow(env: Env, parsers: IsoParsers, store: StoreState, r: Record, k: int)
    requires SchemaValid(env.schema) && Shaped(env.schema, r) && env.build == Corrected
    requires r.ty !in env.meta.fkNames && ReadsBack(store.adapters, parsers)
    requires forall j :: 0 <= j < |r.values| ==> FlatField(env.schema[r.ty].fields[j], r.values[j])
    requires PlanOf(env, r).pkValue == IntVal(k)
    requires var t := PlanOf(env, r).table; t in store.tables && k in store.tables[t]
    requires HoldsAll(store.tables[PlanOf(env, r).table][k], env.schema[r.ty].fields, r.values)
    ensures Read(env, parsers, store, r.ty, IntVal(k)) == Ok(Some(r))
  {
    PlanFacts(env, r);
    var row := store.tables[PlanOf(env, r).table][k];
    ReadFlat(env, parsers, store, r.ty, IntVal(k), row, r.values);
  }

  /** In the corrected build, writing a flat record twice under a new integer key, with
      the check on, leaves one row: both writes return the key, the table gains only that
      key, and the record reads back unchanged after the second write. */
  lemma FlatWriteTwice(env: Env, parsers: IsoParsers, st: EngineState, r: Record, k: int)
    requires SchemaValid(env.schema) && Shaped(env.schema, r) && env.build == Corrected
    requires r.ty !in env.meta.fkNames && ReadsBack(st.store.adapters, parsers)
    requires forall j :: 0 <= j < |r.values| ==> FlatField(env.schema[r.ty].fields[j], r.values[j])
    requires PlanOf(env, r).pkValue == IntVal(k)
    requires StoreValid(st.store) && MemoAgrees(st)
    requires KeyExists(st.store, PlanOf(env, r).table, IntVal(k)) == Ok(false)
    requires Persist(env, st, r, true).result.Ok?
    requires Persist(env, Persist(env, st, r, true).state, r, true).result.Ok?
    ensures var first := Persist(env, st, r, true);
      var second := Persist(env, first.state, r, true);
      var table := PlanOf(env, r).table;
      && first.result == Ok(IntVal(k)) && second.result == Ok(IntVal(k))
      && table in first.state.store.tables && table in second.state.store.tables
      && first.state.store.tables[table].Keys == st.store.tables[table].Keys + {k}
      && second.state.store.tables[table].Keys == first.state.store.tables[table].Keys
      && Read(env, parsers, second.state.store, r.ty, IntVal(k)) == Ok(Some(r))
  {
    var p := PlanOf(env, r);
    var first := Persist(env, st, r, true);
    var second := Persist(env, first.state, r, true);
    FirstOfTwo(env, st, r, k);
    FlatUpdate(env, first.state, r, k);
    var before, row := first.state.store.tables[p.table][k], second.state.store.tables[p.table][k];
    RowHoldsAll(env.schema[r.ty].fields, r.values, p.pk.value, before, row);
    ReadHeldRow(env, parsers, second.state.store, r, k);
  }
}
