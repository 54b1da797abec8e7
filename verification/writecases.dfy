/** Runs of the write path on a one-table schema: a record type (`Item`, say) whose
    fields are its conventional key `<table>_id: int` and `name: str`, with no registered
    metadata and an empty table. They exhibit, input by input, what the as-written build
    does where the corrected build differs. The type name `tn` is a parameter, so the
    cases hold for every name. */
module WriteCases {
  import opened Wrappers
  import opened Records
  import opened Registry
  import opened Store
  import opened WritePath
  import Naming

  /** The table and the key column of the type named `tn`. */
  function Table(tn: string): string { Naming.TableName(tn) }
  function Key(tn: string): string { Naming.TableName(tn) + "_id" }

  function ItemSchema(tn: string): Schema
  {
    [RecordType(tn, [Field(Key(tn), Scalar(IntKind)), Field("name", Scalar(StrKind))])]
  }

  const NoMetadata: Metadata := Metadata(map[], map[], map[], map[])

  function ItemEnv(tn: string, build: Build): Env
  {
    Env(ItemSchema(tn), NoMetadata, false, build)
  }

  /** A connection whose schema created the empty table, with the row-id counter at
      `next` and adapters `a`, and an empty memo. */
  function Empty(tn: string, next: int, a: Adapters): EngineState
  {
    EngineState(StoreState(map[Table(tn) := map[]], next, [], a), map[])
  }

  /** The record `Item(key, "a")`. */
  function Item(tn: string, key: int): (r: Record)
    ensures Shaped(ItemSchema(tn), r)
  {
    Record(0, [IntVal(key), StrVal("a")])
  }

  function ItemPlan(tn: string, key: int): Plan
  {
    Plan(Table(tn), Some(Key(tn)), IntVal(key), Split(["name"], [StrVal("a")], [], []))
  }

  /** The key column is not `name`: it ends in `_id`. */
  lemma KeyIsNotName(tn: string)
    ensures Key(tn) != "name"
  {
    var k := Key(tn);
    assert k[|k| - 1] == 'd';
  }

  /** How `insert_or_update(Item(key, "a"))` is planned, in either build: the key field is
      skipped and `name` is the one column. */
  lemma ItemPlanned(tn: string, build: Build, key: int)
    ensures PlanOf(ItemEnv(tn, build), Item(tn, key)) == ItemPlan(tn, key)
  {
    var fields := ItemSchema(tn)[0].fields;
    assert HasField(fields, Key(tn)) by {
      assert fields[0].name == Key(tn);
    }
    assert PrimaryKeyName(ItemSchema(tn), NoMetadata, 0) == Some(Key(tn));
    assert IndexOfField(fields, Key(tn)) == Some(0);
    KeyIsNotName(tn);
    assert SplitFields(fields, Item(tn, key).values, Some(Key(tn)), 1) == Split([], [], [], []);
  }

  /** The write of an `Item`: the decision on its key, then its own statement (it has no
      dependencies). */
  lemma ItemWrite(tn: string, build: Build, st: EngineState, key: int)
    ensures var d := Decide(build, st, Table(tn), Some(Key(tn)), IntVal(key), true);
      Persist(ItemEnv(tn, build), st, Item(tn, key), true) ==
        if d.result.Err? then Out(Err(d.result.error), d.state)
        else Finish(build, d.state, ItemPlan(tn, key), d.result.value, [])
  {
    ItemPlanned(tn, build, key);
  }

  /** The row `Item(key, "a")` is stored as. */
  function ItemRow(tn: string, key: int): Row
  {
    map["name" := StrVal("a"), Key(tn) := IntVal(key)]
  }

  /** The INSERT an `Item` write issues, with or without its key column. */
  lemma ItemInsert(tn: string, key: int, withKey: bool)
    ensures var s := StatementOf(ItemPlan(tn, key), Insert(withKey), []);
      && s.InsertStmt? && s.table == Table(tn) && s.keyColumn == Some(Key(tn))
      && s.columns == ["name"] + (if withKey then [Key(tn)] else [])
      && s.params == [StrVal("a")] + (if withKey then [IntVal(key)] else [])
      && (withKey ==> Key(tn) in s.columns && IndexOf(s.columns, Key(tn)) == 1)
      && (!withKey ==> Key(tn) !in s.columns)
      && RowOf(s.columns, s.params)[Key(tn) := IntVal(key)] == ItemRow(tn, key)
  {
    var s := StatementOf(ItemPlan(tn, key), Insert(withKey), []);
    assert s.columns == ["name"] + (if withKey then [Key(tn)] else []) + [];
    KeyIsNotName(tn);
  }

  /** The first write of `Item(key, "a")` to the empty table: `_contains` finds the key
      absent, and the build decides whether the INSERT names the key column. */
  lemma FirstItemWrite(tn: string, build: Build, next: int, key: int, a: Adapters)
    ensures Persist(ItemEnv(tn, build), Empty(tn, next, a), Item(tn, key), true) ==
      var memo := map[(Table(tn), Key(tn), IntVal(key)) := false];
      Finish(build, Empty(tn, next, a).(memo := memo), ItemPlan(tn, key), Insert(build == Corrected), [])
  {
    var st := Empty(tn, next, a);
    var memo := map[(Table(tn), Key(tn), IntVal(key)) := false];
    ItemWrite(tn, build, st, key);
    assert Decide(build, st, Table(tn), Some(Key(tn)), IntVal(key), true) == Out(Ok(Insert(build == Corrected)), st.(memo := memo));
  }

  /** As written, `insert_or_update(Item(key, "a"))` on an empty table finds the key
      absent and inserts without the key column: the row is stored under the store's next
      row id, which the call returns, whatever the caller's key. The corrected build
      stores and returns the caller's key. */
  lemma KeyDroppedAsWritten(tn: string, next: int, key: int, a: Adapters)
    ensures var out := Persist(ItemEnv(tn, AsWritten), Empty(tn, next, a), Item(tn, key), true);
      && out.result == Ok(IntVal(next))
      && Table(tn) in out.state.store.tables
      && out.state.store.tables[Table(tn)].Keys == {next}
    ensures var out := Persist(ItemEnv(tn, Corrected), Empty(tn, next, a), Item(tn, key), true);
      && out.result == Ok(IntVal(key))
      && Table(tn) in out.state.store.tables
      && out.state.store.tables[Table(tn)].Keys == {key}
  {
    FirstItemWrite(tn, AsWritten, next, key, a);
    ItemInsert(tn, key, false);
    FirstItemWrite(tn, Corrected, next, key, a);
    ItemInsert(tn, key, true);
  }

  /** The state after writing `Item(next, "a")` to the empty table whose counter is at
      `next`: the row sits under key `next` in both builds; the memo says "absent" as
      written and "present" once refreshed. */
  function AfterFirst(tn: string, build: Build, next: int, a: Adapters): EngineState
  {
    EngineState(
      StoreState(map[Table(tn) := map[next := ItemRow(tn, next)]], next + 1,
                 [StatementOf(ItemPlan(tn, next), Insert(build == Corrected), [])], a),
      map[(Table(tn), Key(tn), IntVal(next)) := build == Corrected])
  }

  /** Inserting `Item(next, "a")` into the empty table, with or without its key column,
      stores it under `next`. */
  lemma InsertIntoEmpty(tn: string, next: int, withKey: bool, a: Adapters)
    ensures var s := StatementOf(ItemPlan(tn, next), Insert(withKey), []);
      Exec(Empty(tn, next, a).store, s) == ExecOut(Ok(Some(next)), AfterFirst(tn, if withKey then Corrected else AsWritten, next, a).store)
  {
    ItemInsert(tn, next, withKey);
  }

  /** The first write of `Item(next, "a")`, whose key is the counter's value. */
  lemma FirstWrite(tn: string, build: Build, next: int, a: Adapters)
    ensures Persist(ItemEnv(tn, build), Empty(tn, next, a), Item(tn, next), true) == Out(Ok(IntVal(next)), AfterFirst(tn, build, next, a))
  {
    var st := Empty(tn, next, a);
    ItemWrite(tn, build, st, next);
    var k := (Table(tn), Key(tn), IntVal(next));
    var memo := map[k := false];
    assert Decide(build, st, Table(tn), Some(Key(tn)), IntVal(next), true) == Out(Ok(Insert(build == Corrected)), st.(memo := memo));
    InsertIntoEmpty(tn, next, build == Corrected, a);
    assert Refresh(memo, Table(tn), next) == map[k := true];
  }

  /** As written, writing `Item(next, "a")` twice with the check on inserts two rows: the
      first call memoises "absent" and stores the row under key `next`; the second call
      trusts the stale memo, although the row exists, and inserts again under `next + 1`. */
  lemma StaleMemoAsWritten(tn: string, next: int, a: Adapters)
    ensures var first := Persist(ItemEnv(tn, AsWritten), Empty(tn, next, a), Item(tn, next), true);
      var second := Persist(ItemEnv(tn, AsWritten), first.state, Item(tn, next), true);
      && first.result == Ok(IntVal(next))
      && first.state.memo == map[(Table(tn), Key(tn), IntVal(next)) := false]
      && KeyExists(first.state.store, Table(tn), IntVal(next)) == Ok(true)
      && second.result == Ok(IntVal(next + 1))
      && Table(tn) in second.state.store.tables
      && second.state.store.tables[Table(tn)].Keys == {next, next + 1}
  {
    FirstWrite(tn, AsWritten, next, a);
    var st := AfterFirst(tn, AsWritten, next, a);
    ItemWrite(tn, AsWritten, st, next);
    assert Decide(AsWritten, st, Table(tn), Some(Key(tn)), IntVal(next), true) == Out(Ok(Insert(false)), st);
    ItemInsert(tn, next, false);
  }

  /** The corrected build refreshes the memo after the first insert, so the second write
      of the same record updates row `next` and returns `next`, leaving one row. */
  lemma SecondWriteCorrected(tn: string, next: int, a: Adapters)
    ensures var first := Persist(ItemEnv(tn, Corrected), Empty(tn, next, a), Item(tn, next), true);
      var second := Persist(ItemEnv(tn, Corrected), first.state, Item(tn, next), true);
      && first.result == Ok(IntVal(next))
      && second.result == Ok(IntVal(next))
      && Table(tn) in second.state.store.tables
      && second.state.store.tables[Table(tn)].Keys == {next}
  {
    FirstWrite(tn, Corrected, next, a);
    var st := AfterFirst(tn, Corrected, next, a);
    ItemWrite(tn, Corrected, st, next);
    assert Decide(Corrected, st, Table(tn), Some(Key(tn)), IntVal(next), true) == Out(Ok(Update), st);
  }
}
