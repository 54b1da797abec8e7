/** The write path of the persistence engine (collection/db.py, `DB.insert_or_update` and
    `DB._contains`) as functions of the engine state: the store and the memo of existence
    checks that `functools.lru_cache` keeps for `_contains`.

    Every definition takes a `Build`: `AsWritten` follows the code line by line, and
    `Corrected` follows what the code evidently intends where the two differ (a primary
    key that is `None` or missing, a key dropped after a negative existence check, and a
    memo that is never refreshed). The `DB` class runs the `AsWritten` build. */
module WritePath {
  import opened Wrappers
  import opened Records
  import opened Registry
  import opened Store

  datatype Build = AsWritten | Corrected

  /** What a call depends on besides the engine state: the record types, the registered
      metadata, the `readonly` flag of the `DB` and the build. */
  datatype Env = Env(schema: Schema, meta: Metadata, readonly: bool, build: Build)

  /** `_contains` is cached on `(tablename, pkname, pkvalue)`; an exception is not cached. */
  type MemoKey = (string, string, Value)
  type Memo = map<MemoKey, bool>

  datatype EngineState = EngineState(store: StoreState, memo: Memo)

  /** The result of a step and the engine state after it; a failed step keeps the effects
      of what ran before the exception. */
  datatype Out<+T> = Out(result: Result<T>, state: EngineState)

  /** `_contains(tablename, pkname, pkvalue)`: the memoised answer if there is one,
      otherwise the store is asked and a successful answer is memoised. */
  function ContainsSpec(st: EngineState, table: string, pk: string, v: Value): (out: Out<bool>)
    ensures out.state.store == st.store
    ensures (table, pk, v) in st.memo ==> out == Out(Ok(st.memo[(table, pk, v)]), st)
    ensures (table, pk, v) !in st.memo ==>
      && out.result == KeyExists(st.store, table, v)
      && (out.result.Ok? ==> out.state.memo == st.memo[(table, pk, v) := out.result.value])
      && (out.result.Err? ==> out.state == st)
  {
    var key := (table, pk, v);
    if key in st.memo then Out(Ok(st.memo[key]), st)
    else match KeyExists(st.store, table, v)
      case Err(e) => Out(Err(e), st)
      case Ok(b) => Out(Ok(b), st.(memo := st.memo[key := b]))
  }

  /** The four lists the field loop of `insert_or_update` fills: the scalar columns and
      their values, and the record-valued fields and their records. */
  datatype Split = Split(columns: seq<string>, values: seq<Value>, depColumns: seq<string>, deps: seq<Record>)

  /** The field loop over the first `n` fields: the primary-key field is skipped, a
      record value (`isinstance(v, tuple)`) is a dependency, anything else a column. */
  function SplitFields(fields: seq<Field>, vals: seq<Value>, pk: Option<string>, n: nat): (s: Split)
    requires n <= |fields| && n <= |vals|
    ensures |s.columns| == |s.values| && |s.depColumns| == |s.deps|
    ensures forall j :: 0 <= j < |s.columns| ==> Some(s.columns[j]) != pk
    ensures forall j :: 0 <= j < |s.values| ==> !s.values[j].Nested?
  {
    if n == 0 then Split([], [], [], [])
    else
      var s := SplitFields(fields, vals, pk, n - 1);
      var c, v := fields[n - 1].name, vals[n - 1];
      if Some(c) == pk then s
      else if v.Nested? then Split(s.columns, s.values, s.depColumns + [c], s.deps + [v.rec])
      else Split(s.columns + [c], s.values + [v], s.depColumns, s.deps)
  }

  /** The positions, among the first `n` fields, that the loop puts in the column list
      (`nested == false`) or in the dependency list (`nested == true`). */
  function Positions(fields: seq<Field>, vals: seq<Value>, pk: Option<string>, n: nat, nested: bool): (ps: seq<nat>)
    requires n <= |fields| && n <= |vals|
    ensures forall j :: 0 <= j < |ps| ==> ps[j] < n
  {
    if n == 0 then []
    else
      var i := n - 1;
      Positions(fields, vals, pk, i, nested) + (if Some(fields[i].name) != pk && vals[i].Nested? == nested then [i] else [])
  }

  /** The positions are increasing, and a position is listed exactly when its field is
      not the primary key and its value is (or is not) a record. */
  lemma {:induction false} PositionsExact(fields: seq<Field>, vals: seq<Value>, pk: Option<string>, n: nat, nested: bool)
    requires n <= |fields| && n <= |vals|
    ensures var ps := Positions(fields, vals, pk, n, nested);
      && (forall a, b :: 0 <= a < b < |ps| ==> ps[a] < ps[b])
      && (forall i: nat :: i in ps <==> i < n && Some(fields[i].name) != pk && vals[i].Nested? == nested)
  {
    if n > 0 {
      PositionsExact(fields, vals, pk, n - 1, nested);
      var prev := Positions(fields, vals, pk, n - 1, nested);
      var last: seq<nat> := if Some(fields[n - 1].name) != pk && vals[n - 1].Nested? == nested then [n - 1] else [];
      var ps := Positions(fields, vals, pk, n, nested);
      assert ps == prev + last;
      forall i: nat
        ensures i in ps <==> i < n && Some(fields[i].name) != pk && vals[i].Nested? == nested
      {
        assert i in ps <==> i in prev || i in last;
      }
    }
  }

  /** The loop keeps declaration order: the columns are the names and values of the
      scalar non-key fields, and the dependencies the names and records of the
      record-valued non-key fields, each in the order the type declares them. */
  lemma {:induction false} SplitFieldsOrder(fields: seq<Field>, vals: seq<Value>, pk: Option<string>, n: nat)
    requires n <= |fields| && n <= |vals|
    ensures var s, ps, qs := SplitFields(fields, vals, pk, n), Positions(fields, vals, pk, n, false), Positions(fields, vals, pk, n, true);
      && |s.columns| == |ps| && |s.deps| == |qs|
      && (forall j :: 0 <= j < |ps| ==> ps[j] < n && s.columns[j] == fields[ps[j]].name && s.values[j] == vals[ps[j]])
      && (forall j :: 0 <= j < |qs| ==> qs[j] < n && s.depColumns[j] == fields[qs[j]].name && Nested(s.deps[j]) == vals[qs[j]])
  {
    if n > 0 {
      SplitFieldsOrder(fields, vals, pk, n - 1);
    }
  }

  /** Every field except the primary key lands in exactly one of the two lists. */
  lemma {:induction false} SplitFieldsPartition(fields: seq<Field>, vals: seq<Value>, pk: Option<string>, n: nat)
    requires n <= |fields| && n <= |vals|
    requires DistinctNames(fields)
    ensures var s := SplitFields(fields, vals, pk, n);
      |s.columns| + |s.deps| == n - (if pk.Some? && IndexOfField(fields, pk.value).Some? && IndexOfField(fields, pk.value).value < n then 1 else 0)
  {
    if n > 0 {
      SplitFieldsPartition(fields, vals, pk, n - 1);
      if pk.Some? && IndexOfField(fields, pk.value).Some? && IndexOfField(fields, pk.value).value < n - 1 {
        assert fields[n - 1].name != pk.value;
      }
    }
  }

  /** A record listed as a dependency is one of the record's own field values, so it is
      shaped and strictly shallower. */
  lemma DepsShallower(schema: Schema, r: Record, deps: seq<Record>)
    requires Shaped(schema, r)
    requires forall j :: 0 <= j < |deps| ==> Nested(deps[j]) in r.values
    ensures forall j :: 0 <= j < |deps| ==> Shaped(schema, deps[j]) && Depth(deps[j]) < Depth(r)
  {
    forall j | 0 <= j < |deps|
      ensures Shaped(schema, deps[j]) && Depth(deps[j]) < Depth(r)
    {
      var i :| 0 <= i < |r.values| && r.values[i] == Nested(deps[j]);
    }
  }

  /** What `insert_or_update` works out before it writes anything: the table, the
      primary-key name, the key value (`getattr(value, pkname)`) and the split fields. */
  datatype Plan = Plan(table: string, pk: Option<string>, pkValue: Value, split: Split)

  function PlanOf(env: Env, r: Record): (p: Plan)
    requires Shaped(env.schema, r)
    ensures p.pkValue != Null ==> p.pk.Some?
    ensures |p.split.columns| == |p.split.values| && |p.split.depColumns| == |p.split.deps|
    ensures forall j :: 0 <= j < |p.split.deps| ==> Shaped(env.schema, p.split.deps[j]) && Depth(p.split.deps[j]) < Depth(r)
  {
    var fields := env.schema[r.ty].fields;
    var pk := PrimaryKeyName(env.schema, env.meta, r.ty);
    var split := SplitFields(fields, r.values, pk, |fields|);
    SplitFieldsOrder(fields, r.values, pk, |fields|);
    DepsShallower(env.schema, r, split.deps);
    var pkValue := if pk.Some? && IndexOfField(fields, pk.value).Some? then r.values[IndexOfField(fields, pk.value).value] else Null;
    Plan(TableNameOf(env.schema, r.ty), pk, pkValue, split)
  }

  /** How the record is written: an UPDATE, an INSERT with or without the key column, or
      neither because `update` was never assigned. */
  datatype Action = Update | Insert(withKey: bool) | Unbound

  /** The branch on the key value. With a key and the check on, the existence check
      decides: an existing key is updated, a new one inserted (as written, without the
      key column). With a key and the check off, the row is inserted with its key. Without
      a key, `update` is left unbound as written; the corrected build inserts the row and
      lets the store assign its key. */
  function Decide(build: Build, st: EngineState, table: string, pk: Option<string>, pkValue: Value, check: bool): (out: Out<Action>)
    requires pkValue != Null ==> pk.Some?
    ensures out.state.store == st.store
    ensures out.result.Ok? && (out.result.value.Update? || out.result.value == Insert(true)) ==> pkValue != Null
    ensures out.result.Ok? && out.result.value.Update? <==>
      pkValue != Null && check && ContainsSpec(st, table, pk.value, pkValue).result == Ok(true)
    ensures out.result.Ok? && out.result.value == Unbound <==> pkValue == Null && build == AsWritten
  {
    if pkValue != Null && check then
      var c := ContainsSpec(st, table, pk.value, pkValue);
      if c.result.Err? then Out(Err(c.result.error), c.state)
      else Out(Ok(if c.result.value then Update else Insert(build == Corrected)), c.state)
    else if pkValue != Null then Out(Ok(Insert(true)), st)
    else Out(Ok(if build == AsWritten then Unbound else Insert(false)), st)
  }

  /** `insert_columns`: the scalar columns, the key column when it is written, then the
      `<field>_id` column of every dependency. */
  function ColumnsOf(p: Plan, withKey: bool): (cs: seq<string>)
    requires withKey ==> p.pk.Some?
    ensures |cs| == |p.split.columns| + (if withKey then 1 else 0) + |p.split.depColumns|
  {
    p.split.columns + (if withKey then [p.pk.value] else []) + IdColumns(p.split.depColumns)
  }

  /** `c + "_id" for c in insert_dependency_columns`. */
  function IdColumns(cs: seq<string>): (ids: seq<string>)
    ensures |ids| == |cs| && forall j :: 0 <= j < |cs| ==> ids[j] == IdColumn(cs[j])
  {
    seq(|cs|, j requires 0 <= j < |cs| => IdColumn(cs[j]))
  }

  /** `insert_values`: the scalar values, the key value when it is written, then the keys
      the dependencies were written under. */
  function ParamsOf(p: Plan, withKey: bool, depKeys: seq<Value>): (vs: seq<Value>)
    ensures |vs| == |p.split.values| + (if withKey then 1 else 0) + |depKeys|
  {
    p.split.values + (if withKey then [p.pkValue] else []) + depKeys
  }

  /** After an INSERT the corrected build refreshes every memoised answer about the new
      key of that table, so a cached "absent" cannot outlive the row. */
  function Refresh(memo: Memo, table: string, key: int): (m: Memo)
    ensures m.Keys == memo.Keys
    ensures forall e :: e in m ==> m[e] == (memo[e] || (e.0 == table && e.2 == IntVal(key)))
  {
    map e | e in memo :: memo[e] || (e.0 == table && e.2 == IntVal(key))
  }

  /** The statement of the record itself, issued after its dependencies. */
  function StatementOf(p: Plan, action: Action, depKeys: seq<Value>): Stmt
    requires action != Unbound
    requires action.Update? || action == Insert(true) ==> p.pk.Some?
  {
    match action
    case Update => UpdateStmt(p.table, ColumnsOf(p, false), ParamsOf(p, false, depKeys) + [p.pkValue], p.pk.value)
    case Insert(withKey) => InsertStmt(p.table, ColumnsOf(p, withKey), ParamsOf(p, withKey, depKeys), p.pk)
  }

  /** The end of `insert_or_update`: an unbound `update` raises, otherwise the statement is
      executed; an UPDATE returns the key value and an INSERT returns `lastrowid`. */
  function Finish(build: Build, st: EngineState, p: Plan, action: Action, depKeys: seq<Value>): (out: Out<Value>)
    requires action.Update? || action == Insert(true) ==> p.pk.Some?
  {
    if action == Unbound then Out(Err(UnboundLocalError), st)
    else
      var s := StatementOf(p, action, depKeys);
      var e := Exec(st.store, s);
      if e.result.Err? then Out(Err(e.result.error), st)
      else if action.Update? then Out(Ok(p.pkValue), st.(store := e.state))
      else
        var rowid := e.result.value.value;
        Out(Ok(IntVal(rowid)), EngineState(e.state, if build == Corrected then Refresh(st.memo, p.table, rowid) else st.memo))
  }

  /** `insert_or_update(value, check_if_pk_not_null)`. A read-only `DB` refuses. As
      written, a type without a primary key fails at `getattr(value, None)` before anything
      is written; the key value then drives `Decide`, the dependencies are written in field
      order, and the record's own statement comes last. */
  function Persist(env: Env, st: EngineState, r: Record, check: bool): (out: Out<Value>)
    requires Shaped(env.schema, r)
    decreases Depth(r), 1, 0
  {
    if env.readonly then Out(Err(ValueError), st)
    else
      var p := PlanOf(env, r);
      if p.pk.None? && env.build == AsWritten then Out(Err(TypeError), st)
      else if p.pk.Some? && !HasField(env.schema[r.ty].fields, p.pk.value) then Out(Err(AttributeError), st)
      else
        var d := Decide(env.build, st, p.table, p.pk, p.pkValue, check);
        if d.result.Err? then Out(Err(d.result.error), d.state)
        else
          var deps := PersistList(env, d.state, p.split.deps, check, Depth(r));
          if deps.result.Err? then Out(Err(deps.result.error), deps.state)
          else Finish(env.build, deps.state, p, d.result.value, deps.result.value)
  }

  /** `insert_or_update` on each dependency in turn, collecting the returned keys; the
      first exception ends the loop. */
  function PersistList(env: Env, st: EngineState, deps: seq<Record>, check: bool, bound: nat): (out: Out<seq<Value>>)
    requires forall j :: 0 <= j < |deps| ==> Shaped(env.schema, deps[j]) && Depth(deps[j]) < bound
    ensures out.result.Ok? ==> |out.result.value| == |deps|
    decreases bound, 0, |deps|
  {
    if deps == [] then Out(Ok([]), st)
    else
      var n := |deps| - 1;
      var prefix := PersistList(env, st, deps[..n], check, bound);
      if prefix.result.Err? then Out(Err(prefix.result.error), prefix.state)
      else
        var last := Persist(env, prefix.state, deps[n], check);
        if last.result.Err? then Out(Err(last.result.error), last.state)
        else Out(Ok(prefix.result.value + [last.result.value]), last.state)
  }

  /** One more dependency: the list written so far, then the next record. */
  lemma PersistListSnoc(env: Env, st: EngineState, deps: seq<Record>, j: nat, check: bool, bound: nat)
    requires j < |deps|
    requires forall i :: 0 <= i < |deps| ==> Shaped(env.schema, deps[i]) && Depth(deps[i]) < bound
    requires PersistList(env, st, deps[..j], check, bound).result.Ok?
    ensures var prefix := PersistList(env, st, deps[..j], check, bound);
      var last := Persist(env, prefix.state, deps[j], check);
      PersistList(env, st, deps[..j + 1], check, bound) ==
        if last.result.Err? then Out(Err(last.result.error), last.state)
        else Out(Ok(prefix.result.value + [last.result.value]), last.state)
  {
    assert deps[..j + 1][..j] == deps[..j];
  }

  /** The first exception ends the loop: a failing prefix decides the whole list. */
  lemma {:induction false} PersistListStops(env: Env, st: EngineState, deps: seq<Record>, m: nat, check: bool, bound: nat)
    requires m <= |deps|
    requires forall i :: 0 <= i < |deps| ==> Shaped(env.schema, deps[i]) && Depth(deps[i]) < bound
    requires PersistList(env, st, deps[..m], check, bound).result.Err?
    ensures PersistList(env, st, deps, check, bound) == PersistList(env, st, deps[..m], check, bound)
    decreases |deps| - m
  {
    if m < |deps| {
      var n := |deps| - 1;
      assert deps[..n][..m] == deps[..m];
      PersistListStops(env, st, deps[..n], m, check, bound);
      var prefix := PersistList(env, st, deps[..n], check, bound);
      assert prefix.result.Err?;
      assert PersistList(env, st, deps, check, bound) == Out(Err(prefix.result.error), prefix.state);
    } else {
      assert deps[..m] == deps;
    }
  }

  /** Every memoised "present" is true of the store. */
  ghost predicate MemoSound(st: EngineState)
  {
    forall e :: e in st.memo && st.memo[e] ==> KeyExists(st.store, e.0, e.2) == Ok(true)
  }

  /** Every memoised answer is the store's current answer. */
  ghost predicate MemoAgrees(st: EngineState)
  {
    forall e :: e in st.memo ==> KeyExists(st.store, e.0, e.2) == Ok(st.memo[e])
  }

  /** What the engine never undoes between two states: the set of tables and the
      adapters, every row key, the statements already executed, and every memoised answer
      (as written, a memoised answer never changes; the corrected build may only turn
      "absent" into "present").
      It also carries the validity of the store and the soundness of the memo forward, and
      in the corrected build the agreement of the memo with the store. */
  ghost predicate Evolves(build: Build, a: EngineState, b: EngineState)
  {
    && b.store.tables.Keys == a.store.tables.Keys
    && b.store.adapters == a.store.adapters
    && (forall t :: t in a.store.tables ==> a.store.tables[t].Keys <= b.store.tables[t].Keys)
    && a.store.log <= b.store.log
    && (forall e :: e in a.memo ==> e in b.memo && (a.memo[e] ==> b.memo[e]))
    && (build == AsWritten ==> forall e :: e in a.memo ==> b.memo[e] == a.memo[e])
    && (StoreValid(a.store) ==> StoreValid(b.store))
    && (StoreValid(a.store) && MemoSound(a) ==> MemoSound(b))
    && (build == Corrected && StoreValid(a.store) && MemoAgrees(a) ==> MemoAgrees(b))
  }

  lemma EvolvesTrans(build: Build, a: EngineState, b: EngineState, c: EngineState)
    requires Evolves(build, a, b) && Evolves(build, b, c)
    ensures Evolves(build, a, c)
  {
  }

  lemma DecideEvolves(build: Build, st: EngineState, table: string, pk: Option<string>, pkValue: Value, check: bool)
    requires pkValue != Null ==> pk.Some?
    ensures Evolves(build, st, Decide(build, st, table, pk, pkValue, check).state)
    ensures Decide(build, st, table, pk, pkValue, check).result != Err(ProgrammingError)
  {
  }

  lemma FinishEvolves(build: Build, st: EngineState, p: Plan, action: Action, depKeys: seq<Value>)
    requires action.Update? || action == Insert(true) ==> p.pk.Some?
    requires |p.split.columns| == |p.split.values| && |depKeys| == |p.split.depColumns|
    ensures Evolves(build, st, Finish(build, st, p, action, depKeys).state)
    ensures Finish(build, st, p, action, depKeys).result != Err(ProgrammingError)
  {
    if action != Unbound {
      var s := StatementOf(p, action, depKeys);
      var e := Exec(st.store, s);
      if e.result.Ok? {
        var memo := Finish(build, st, p, action, depKeys).state.memo;
        if StoreValid(st.store) {
          ExecPreserves(st.store, s);
          MemoAfterExec(build, st, s, memo);
        }
      }
    }
  }

  /** A statement that succeeded keeps the memo sound, and the refresh after an INSERT
      keeps it in agreement with the store. */
  lemma MemoAfterExec(build: Build, st: EngineState, s: Stmt, memo: Memo)
    requires StoreValid(st.store) && Exec(st.store, s).result.Ok?
    requires memo == if build == Corrected && s.InsertStmt? then Refresh(st.memo, s.table, Exec(st.store, s).result.value.value) else st.memo
    ensures var b := EngineState(Exec(st.store, s).state, memo);
      && (MemoSound(st) ==> MemoSound(b))
      && (build == Corrected && MemoAgrees(st) ==> MemoAgrees(b))
  {
    ExecPreserves(st.store, s);
  }

  /** Writing a record (and its dependencies) only adds: no table, row, statement or
      memoised "present" is lost, the store stays valid and the memo sound; in the
      corrected build the memo keeps agreeing with the store. The engine never binds a
      statement with the wrong number of parameters. */
  lemma {:induction false} PersistEvolves(env: Env, st: EngineState, r: Record, check: bool)
    requires Shaped(env.schema, r)
    ensures Evolves(env.build, st, Persist(env, st, r, check).state)
    ensures Persist(env, st, r, check).result != Err(ProgrammingError)
    decreases Depth(r), 1, 0
  {
    if !env.readonly {
      var p := PlanOf(env, r);
      if !(p.pk.None? && env.build == AsWritten) && !(p.pk.Some? && !HasField(env.schema[r.ty].fields, p.pk.value)) {
        var d := Decide(env.build, st, p.table, p.pk, p.pkValue, check);
        DecideEvolves(env.build, st, p.table, p.pk, p.pkValue, check);
        if d.result.Ok? {
          var deps := PersistList(env, d.state, p.split.deps, check, Depth(r));
          PersistListEvolves(env, d.state, p.split.deps, check, Depth(r));
          EvolvesTrans(env.build, st, d.state, deps.state);
          if deps.result.Ok? {
            FinishEvolves(env.build, deps.state, p, d.result.value, deps.result.value);
            EvolvesTrans(env.build, st, deps.state, Finish(env.build, deps.state, p, d.result.value, deps.result.value).state);
          }
        }
      }
    }
  }

  lemma {:induction false} PersistListEvolves(env: Env, st: EngineState, deps: seq<Record>, check: bool, bound: nat)
    requires forall j :: 0 <= j < |deps| ==> Shaped(env.schema, deps[j]) && Depth(deps[j]) < bound
    ensures Evolves(env.build, st, PersistList(env, st, deps, check, bound).state)
    ensures PersistList(env, st, deps, check, bound).result != Err(ProgrammingError)
    decreases bound, 0, |deps|
  {
    if deps != [] {
      var n := |deps| - 1;
      var prefix := PersistList(env, st, deps[..n], check, bound);
      PersistListEvolves(env, st, deps[..n], check, bound);
      if prefix.result.Ok? {
        PersistEvolves(env, prefix.state, deps[n], check);
        EvolvesTrans(env.build, st, prefix.state, Persist(env, prefix.state, deps[n], check).state);
      }
    }
  }

  /** The statement a successful `insert_or_update` executed last. */
  function LastStmt(st: EngineState): Stmt
    requires st.store.log != []
  {
    st.store.log[|st.store.log| - 1]
  }

  /** A successful write got past every guard: the decision and the dependencies
      succeeded and the result is that of the record's own statement. */
  lemma PersistUnfold(env: Env, st: EngineState, r: Record, check: bool)
    requires Shaped(env.schema, r)
    requires Persist(env, st, r, check).result.Ok?
    ensures var p := PlanOf(env, r);
      && !env.readonly
      && var d := Decide(env.build, st, p.table, p.pk, p.pkValue, check);
      && d.result.Ok? && d.result.value != Unbound
      && var deps := PersistList(env, d.state, p.split.deps, check, Depth(r));
      && deps.result.Ok?
      && Persist(env, st, r, check) == Finish(env.build, deps.state, p, d.result.value, deps.result.value)
  {
  }

  /** An UPDATE is only decided for a key that names a stored row, provided the memo
      holds no false "present". */
  lemma DecideUpdateExisting(build: Build, st: EngineState, table: string, pk: Option<string>, pkValue: Value, check: bool)
    requires pkValue != Null ==> pk.Some?
    requires MemoSound(st)
    requires Decide(build, st, table, pk, pkValue, check).result == Ok(Update)
    ensures KeyExists(st.store, table, pkValue) == Ok(true)
  {
  }

  /** The record's own statement, run on the store its dependencies left: it is the
      last statement of the log; an UPDATE returns the caller's key, an INSERT a key new to
      the table; the returned key names a stored row; the `<field>_id` columns are the
      last columns and carry the dependencies' keys. */
  lemma FinishOutcome(build: Build, mid: EngineState, p: Plan, action: Action, keys: seq<Value>)
    requires action != Unbound && (action.Update? || action == Insert(true) ==> p.pk.Some?)
    requires |p.split.columns| == |p.split.values| && |keys| == |p.split.depColumns|
    requires StoreValid(mid.store)
    requires action.Update? ==> KeyExists(mid.store, p.table, p.pkValue) == Ok(true)
    requires Finish(build, mid, p, action, keys).result.Ok?
    ensures var out, s := Finish(build, mid, p, action, keys), StatementOf(p, action, keys);
      && out.state.store.log == mid.store.log + [s]
      && s.table == p.table
      && (s.UpdateStmt? <==> action.Update?)
      && (s.UpdateStmt? ==> out.result.value == p.pkValue && |s.params| == |s.columns| + 1 && s.params[|s.columns|] == p.pkValue)
      && (s.InsertStmt? ==> out.result.value.IntVal? && KeyExists(mid.store, p.table, out.result.value) == Ok(false) && |s.params| == |s.columns|)
      && KeyExists(out.state.store, p.table, out.result.value) == Ok(true)
      && (forall t :: t in mid.store.tables ==> mid.store.tables[t].Keys <= out.state.store.tables[t].Keys)
  {
    var s := StatementOf(p, action, keys);
    ExecPreserves(mid.store, s);
  }

  lemma FinishForeignKeys(build: Build, mid: EngineState, p: Plan, action: Action, keys: seq<Value>)
    requires action != Unbound && (action.Update? || action == Insert(true) ==> p.pk.Some?)
    requires |p.split.columns| == |p.split.values| && |keys| == |p.split.depColumns|
    ensures var s := StatementOf(p, action, keys);
      && |keys| <= |s.columns| <= |s.params|
      && s.columns[|s.columns| - |keys|..] == IdColumns(p.split.depColumns)
      && s.params[|s.columns| - |keys|..|s.columns|] == keys
  {
  }

  /** What a successful write did, in either build. Its own statement is the last one
      executed, after those of its dependencies, and goes to the record's table. It is an
      UPDATE exactly when the key is not NULL, the check is on and `_contains` answered
      "present"; an UPDATE returns the caller's key, which names an existing row. An INSERT
      returns the key of a row that was not in the table before and is now. */
  lemma PersistOutcome(env: Env, st: EngineState, r: Record, check: bool)
    requires Shaped(env.schema, r)
    requires StoreValid(st.store) && MemoSound(st)
    requires Persist(env, st, r, check).result.Ok?
    ensures var out, p := Persist(env, st, r, check), PlanOf(env, r);
      && |out.state.store.log| > |st.store.log|
      && var s := LastStmt(out.state);
      && s.table == p.table
      && (s.UpdateStmt? <==>
            p.pkValue != Null && check && ContainsSpec(st, p.table, p.pk.value, p.pkValue).result == Ok(true))
      && (s.UpdateStmt? ==>
            && out.result.value == p.pkValue
            && KeyExists(st.store, p.table, p.pkValue) == Ok(true)
            && |s.params| == |s.columns| + 1 && s.params[|s.columns|] == p.pkValue)
      && (s.InsertStmt? ==>
            && out.result.value.IntVal?
            && KeyExists(st.store, p.table, out.result.value) == Ok(false)
            && |s.params| == |s.columns|)
      && KeyExists(out.state.store, p.table, out.result.value) == Ok(true)
  {
    var p := PlanOf(env, r);
    PersistUnfold(env, st, r, check);
    var d := Decide(env.build, st, p.table, p.pk, p.pkValue, check);
    DecideEvolves(env.build, st, p.table, p.pk, p.pkValue, check);
    var deps := PersistList(env, d.state, p.split.deps, check, Depth(r));
    PersistListEvolves(env, d.state, p.split.deps, check, Depth(r));
    if d.result.value.Update? {
      DecideUpdateExisting(env.build, st, p.table, p.pk, p.pkValue, check);
    }
    FinishOutcome(env.build, deps.state, p, d.result.value, deps.result.value);
  }

  /** Dependencies are written first: every `<field>_id` column of the record's statement
      carries the key of a stored row of the dependency's table. */
  lemma {:induction false} PersistForeignKeys(env: Env, st: EngineState, r: Record, check: bool)
    requires Shaped(env.schema, r)
    requires StoreValid(st.store) && MemoSound(st)
    requires Persist(env, st, r, check).result.Ok?
    ensures var out, p := Persist(env, st, r, check), PlanOf(env, r);
      && out.state.store.log != []
      && var s, k := LastStmt(out.state), |p.split.deps|;
      && k <= |s.columns| <= |s.params|
      && s.columns[|s.columns| - k..] == IdColumns(p.split.depColumns)
      && AllStored(out.state.store, TablesOf(env.schema, p.split.deps), s.params[|s.columns| - k..|s.columns|])
    decreases Depth(r), 1, 0
  {
    var p := PlanOf(env, r);
    PersistUnfold(env, st, r, check);
    var d := Decide(env.build, st, p.table, p.pk, p.pkValue, check);
    var deps := PersistList(env, d.state, p.split.deps, check, Depth(r));
    var action, keys := d.result.value, deps.result.value;
    var tables := TablesOf(env.schema, p.split.deps);
    assert StoreValid(deps.state.store) && AllStored(deps.state.store, tables, keys) by {
      DecideEvolves(env.build, st, p.table, p.pk, p.pkValue, check);
      PersistListEvolves(env, d.state, p.split.deps, check, Depth(r));
      PersistListKeysStored(env, d.state, p.split.deps, check, Depth(r));
    }
    FinishStoresForeignKeys(env.build, deps.state, p, action, keys, tables);
  }

  /** The record's own statement, when it succeeds, is the last one logged; its trailing
      `<field>_id` columns carry the given keys, which still name stored rows. */
  lemma FinishStoresForeignKeys(build: Build, mid: EngineState, p: Plan, action: Action, keys: seq<Value>, tables: seq<string>)
    requires action != Unbound && (action.Update? || action == Insert(true) ==> p.pk.Some?)
    requires |p.split.columns| == |p.split.values| && |keys| == |p.split.depColumns| == |tables|
    requires StoreValid(mid.store) && AllStored(mid.store, tables, keys)
    requires Finish(build, mid, p, action, keys).result.Ok?
    ensures var out := Finish(build, mid, p, action, keys);
      && out.state.store.log != []
      && var s, k := LastStmt(out.state), |keys|;
      && k <= |s.columns| <= |s.params|
      && s.columns[|s.columns| - k..] == IdColumns(p.split.depColumns)
      && AllStored(out.state.store, tables, s.params[|s.columns| - k..|s.columns|])
  {
    var out := Finish(build, mid, p, action, keys);
    var s := StatementOf(p, action, keys);
    FinishKeepsRows(build, mid, p, action, keys, tables);
    assert out.state.store.log == mid.store.log + [s];
    FinishForeignKeys(build, mid, p, action, keys);
  }

  lemma FinishKeepsRows(build: Build, mid: EngineState, p: Plan, action: Action, keys: seq<Value>, tables: seq<string>)
    requires action != Unbound && (action.Update? || action == Insert(true) ==> p.pk.Some?)
    requires |tables| == |keys|
    requires StoreValid(mid.store)
    requires AllStored(mid.store, tables, keys)
    ensures AllStored(Finish(build, mid, p, action, keys).state.store, tables, keys)
  {
    ExecPreserves(mid.store, StatementOf(p, action, keys));
  }

  /** The tables of a list of records. */
  function TablesOf(schema: Schema, rs: seq<Record>): (ts: seq<string>)
    requires forall j :: 0 <= j < |rs| ==> rs[j].ty < |schema|
    ensures |ts| == |rs| && forall j :: 0 <= j < |rs| ==> ts[j] == TableNameOf(schema, rs[j].ty)
  {
    if rs == [] then [] else TablesOf(schema, rs[..|rs| - 1]) + [TableNameOf(schema, rs[|rs| - 1].ty)]
  }

  /** Each key names a stored row of the table at the same position. */
  ghost predicate AllStored(store: StoreState, tables: seq<string>, keys: seq<Value>)
    requires |tables| == |keys|
  {
    forall j :: 0 <= j < |keys| ==> KeyExists(store, tables[j], keys[j]) == Ok(true)
  }

  lemma AllStoredEvolves(build: Build, a: EngineState, b: EngineState, tables: seq<string>, keys: seq<Value>)
    requires |tables| == |keys| && Evolves(build, a, b)
    requires AllStored(a.store, tables, keys)
    ensures AllStored(b.store, tables, keys)
  {
  }

  /** Every key a successful run over the dependencies returned names a stored row of the
      dependency's table. */
  lemma {:induction false} PersistListKeysStored(env: Env, st: EngineState, deps: seq<Record>, check: bool, bound: nat)
    requires forall j :: 0 <= j < |deps| ==> Shaped(env.schema, deps[j]) && Depth(deps[j]) < bound
    requires StoreValid(st.store) && MemoSound(st)
    requires PersistList(env, st, deps, check, bound).result.Ok?
    ensures var out := PersistList(env, st, deps, check, bound);
      AllStored(out.state.store, TablesOf(env.schema, deps), out.result.value)
    decreases bound, 0, |deps|
  {
    if deps != [] {
      var n := |deps| - 1;
      var prefix := PersistList(env, st, deps[..n], check, bound);
      PersistListEvolves(env, st, deps[..n], check, bound);
      PersistListKeysStored(env, st, deps[..n], check, bound);
      PersistEvolves(env, prefix.state, deps[n], check);
      PersistOutcome(env, prefix.state, deps[n], check);
      KeysStoredStep(env.build, prefix, Persist(env, prefix.state, deps[n], check), TablesOf(env.schema, deps[..n]), TableNameOf(env.schema, deps[n].ty));
    }
  }

  lemma KeysStoredStep(build: Build, prefix: Out<seq<Value>>, last: Out<Value>, ts: seq<string>, t: string)
    requires prefix.result.Ok? && last.result.Ok? && |ts| == |prefix.result.value|
    requires AllStored(prefix.state.store, ts, prefix.result.value)
    requires Evolves(build, prefix.state, last.state)
    requires KeyExists(last.state.store, t, last.result.value) == Ok(true)
    ensures AllStored(last.state.store, ts + [t], prefix.result.value + [last.result.value])
  {
  }

  /** A read-only `DB` refuses before anything is written or asked: the result is
      `ValueError` and the store and the memo are unchanged. */
  lemma PersistReadOnly(env: Env, st: EngineState, r: Record, check: bool)
    requires Shaped(env.schema, r) && env.readonly
    ensures Persist(env, st, r, check) == Out(Err(ValueError), st)
  {
  }

  /** As written, a type without a primary-key name fails at `getattr(value, None)` with
      `TypeError`, before its dependencies are written or the memo is consulted. */
  lemma PersistNoKeyNameRaises(env: Env, st: EngineState, r: Record, check: bool)
    requires Shaped(env.schema, r) && !env.readonly && env.build == AsWritten
    requires PrimaryKeyName(env.schema, env.meta, r.ty).None?
    ensures Persist(env, st, r, check) == Out(Err(TypeError), st)
  {
  }

  /** As written, a NULL key value leaves `update` unbound: the call always fails, and
      when its dependencies were written successfully it fails with `UnboundLocalError`
      after writing them. */
  lemma PersistNullKeyRaises(env: Env, st: EngineState, r: Record, check: bool)
    requires Shaped(env.schema, r) && !env.readonly && env.build == AsWritten
    requires PlanOf(env, r).pk.Some? && HasField(env.schema[r.ty].fields, PlanOf(env, r).pk.value)
    requires PlanOf(env, r).pkValue == Null
    ensures Persist(env, st, r, check).result.Err?
    ensures var deps := PersistList(env, st, PlanOf(env, r).split.deps, check, Depth(r));
      deps.result.Ok? ==> Persist(env, st, r, check) == Out(Err(UnboundLocalError), deps.state)
  {
  }

  /** In the corrected build a record without a key (no key name, or a NULL key value) is
      inserted and gets a key new to its table. */
  lemma PersistWithoutKeyCorrected(env: Env, st: EngineState, r: Record, check: bool)
    requires Shaped(env.schema, r) && env.build == Corrected
    requires StoreValid(st.store) && MemoSound(st)
    requires PlanOf(env, r).pkValue == Null
    requires Persist(env, st, r, check).result.Ok?
    ensures var out, p := Persist(env, st, r, check), PlanOf(env, r);
      && out.state.store.log != [] && LastStmt(out.state).InsertStmt?
      && out.result.value.IntVal?
      && KeyExists(st.store, p.table, out.result.value) == Ok(false)
      && KeyExists(out.state.store, p.table, out.result.value) == Ok(true)
  {
    PersistOutcome(env, st, r, check);
  }

  lemma {:induction false} IndexOfAfter(a: seq<string>, c: string, b: seq<string>)
    requires c !in a
    ensures c in a + [c] + b && IndexOf(a + [c] + b, c) == |a|
  {
    if a != [] {
      assert (a + [c] + b)[1..] == a[1..] + [c] + b;
      IndexOfAfter(a[1..], c, b);
    }
  }

  /** An INSERT that names the key column stores the row under the caller's key and
      reports that key. */
  lemma FinishInsertWithKey(build: Build, mid: EngineState, p: Plan, keys: seq<Value>)
    requires p.pk.Some? && p.pkValue != Null
    requires |p.split.columns| == |p.split.values| && |keys| == |p.split.depColumns|
    requires forall j :: 0 <= j < |p.split.columns| ==> Some(p.split.columns[j]) != p.pk
    requires Finish(build, mid, p, Insert(true), keys).result.Ok?
    ensures Finish(build, mid, p, Insert(true), keys).result == Ok(p.pkValue)
  {
    var s := StatementOf(p, Insert(true), keys);
    assert p.pk.value !in p.split.columns;
    assert s.columns == p.split.columns + [p.pk.value] + IdColumns(p.split.depColumns);
    IndexOfAfter(p.split.columns, p.pk.value, IdColumns(p.split.depColumns));
    assert s.params[|p.split.columns|] == p.pkValue;
    var e := Exec(mid.store, s);
    assert e == ExecInsert(mid.store, s);
    assert s.params[IndexOf(s.columns, p.pk.value)] == p.pkValue;
  }

  /** In the corrected build a write with a key value returns that key, whether it
      updated or inserted. */
  lemma PersistKeepsCallerKey(env: Env, st: EngineState, r: Record, check: bool)
    requires Shaped(env.schema, r) && env.build == Corrected
    requires PlanOf(env, r).pkValue != Null
    requires Persist(env, st, r, check).result.Ok?
    ensures Persist(env, st, r, check).result == Ok(PlanOf(env, r).pkValue)
  {
    var p := PlanOf(env, r);
    PersistUnfold(env, st, r, check);
    var d := Decide(env.build, st, p.table, p.pk, p.pkValue, check);
    var deps := PersistList(env, d.state, p.split.deps, check, Depth(r));
    if d.result.value.Insert? {
      FinishInsertWithKey(env.build, deps.state, p, deps.result.value);
    }
  }

  /** In the corrected build, writing the same keyed record again, with the check on,
      updates the row the first write left and returns the same key: the memo cannot hold
      a stale "absent". */
  lemma PersistTwiceUpdates(env: Env, st: EngineState, r: Record)
    requires Shaped(env.schema, r) && env.build == Corrected
    requires StoreValid(st.store) && MemoAgrees(st)
    requires PlanOf(env, r).pkValue != Null
    requires Persist(env, st, r, true).result.Ok?
    requires Persist(env, Persist(env, st, r, true).state, r, true).result.Ok?
    ensures var first := Persist(env, st, r, true);
      var second := Persist(env, first.state, r, true);
      && second.result == first.result
      && second.state.store.log != [] && LastStmt(second.state).UpdateStmt?
  {
    var p := PlanOf(env, r);
    var first := Persist(env, st, r, true);
    assert MemoSound(st);
    PersistEvolves(env, st, r, true);
    PersistOutcome(env, st, r, true);
    PersistKeepsCallerKey(env, st, r, true);
    PersistKeepsCallerKey(env, first.state, r, true);
    assert KeyExists(first.state.store, p.table, p.pkValue) == Ok(true);
    assert ContainsSpec(first.state, p.table, p.pk.value, p.pkValue).result == Ok(true);
    assert MemoSound(first.state);
    PersistOutcome(env, first.state, r, true);
  }
}
