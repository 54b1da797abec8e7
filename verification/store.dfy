/** The relational store behind `DB.conn` (an sqlite3 connection), reduced to what the
    engine's statements do to it. Each table maps its integer primary key (the row id) to a
    row (column name to value). A table's primary-key column is declared by the schema
    DDL; the model takes it from the statement, which names the engine's primary-key
    column. An explicit key must be an integer; a row inserted without its key gets the
    next row id; `lastrowid` reports the row id of the last insert. A `date` or
    `datetime` parameter is stored as ISO-8601 text by the sqlite3 module's default
    adapters, so a fetched row holds a string where a date was written. */
module Store {
  import opened Wrappers
  import opened Records

  type Row = map<string, Value>
  type Table = map<int, Row>

  /** The two statements the write path issues: `INSERT INTO t(cols) VALUES (?, ...)` and
      `UPDATE t SET c = ?, ... WHERE key = ?` (the last parameter is the key). */
  datatype Stmt =
    | InsertStmt(table: string, columns: seq<string>, params: seq<Value>, keyColumn: Option<string>)
    | UpdateStmt(table: string, columns: seq<string>, params: seq<Value>, whereColumn: string)

  /** The sqlite3 module's default adapters: `date.isoformat()` for a date (a day number)
      and `datetime.isoformat(" ")` for a datetime (an instant). */
  datatype Adapters = Adapters(date: int -> string, dateTime: int -> string)

  /** The value a column holds once a parameter has gone through the adapters. */
  function Adapt(a: Adapters, v: Value): (r: Value)
    ensures v.DateVal? || v.DateTimeVal? ==> r.StrVal?
    ensures !v.DateVal? && !v.DateTimeVal? ==> r == v
  {
    match v
    case DateVal(d) => StrVal(a.date(d))
    case DateTimeVal(x) => StrVal(a.dateTime(x))
    case _ => v
  }

  /** A row as `fetchone()` returns it: every date and datetime column as its ISO text. The
      store keeps the values as written and adapts them when they are read, which gives
      the same rows as adapting them when they are written. */
  function Fetched(a: Adapters, row: Row): (r: Row)
    ensures r.Keys == row.Keys
    ensures forall c :: c in row ==> r[c] == Adapt(a, row[c])
  {
    map c | c in row :: Adapt(a, row[c])
  }

  /** The tables, the next row id to assign, the statements executed so far, and the
      connection's adapters. */
  datatype StoreState = StoreState(tables: map<string, Table>, nextRowId: int, log: seq<Stmt>, adapters: Adapters)

  /** Every key is below the next row id, so a store-assigned key never collides with an
      existing one. */
  ghost predicate StoreValid(st: StoreState)
  {
    forall t, k :: t in st.tables && k in st.tables[t] ==> k < st.nextRowId
  }

  /** The row an INSERT or UPDATE writes: column `columns[i]` gets `params[i]` (a later
      duplicate column wins). */
  function RowOf(columns: seq<string>, params: seq<Value>): Row
    requires |columns| <= |params|
    decreases |columns|
  {
    if columns == [] then map[]
    else
      var n := |columns| - 1;
      RowOf(columns[..n], params[..n])[columns[n] := params[n]]
  }

  /** Binding one more column: a later column overrides an earlier one of the same name. */
  lemma RowOfAppend(columns: seq<string>, params: seq<Value>, c: string, v: Value)
    requires |columns| == |params|
    ensures RowOf(columns + [c], params + [v]) == RowOf(columns, params)[c := v]
  {
    assert (columns + [c])[..|columns|] == columns;
    assert (params + [v])[..|columns|] == params;
  }

  /** A row binds only the columns it was given. */
  lemma {:induction false} RowOfColumns(columns: seq<string>, params: seq<Value>)
    requires |columns| <= |params|
    ensures forall c :: c in RowOf(columns, params) ==> c in columns
    decreases |columns|
  {
    if columns != [] {
      var n := |columns| - 1;
      RowOfColumns(columns[..n], params[..n]);
      assert forall c :: c in columns[..n] ==> c in columns;
    }
  }

  /** The value of a column, NULL when the row does not have it. */
  function Column(row: Row, c: string): Value
  {
    if c in row then row[c] else Null
  }

  function IndexOf(cs: seq<string>, c: string): (i: nat)
    requires c in cs
    ensures i < |cs| && cs[i] == c
  {
    if cs[0] == c then 0 else 1 + IndexOf(cs[1..], c)
  }

  function Max(a: int, b: int): int { if a < b then b else a }

  /** The outcome of executing one statement: on success, `lastrowid` for an INSERT and
      nothing for an UPDATE. A failed statement changes nothing. */
  datatype ExecOut = ExecOut(result: Result<Option<int>>, state: StoreState)

  function ExecInsert(st: StoreState, s: Stmt): (out: ExecOut)
    requires s.InsertStmt?
  {
    if s.table !in st.tables || s.columns == [] then ExecOut(Err(OperationalError), st)
    else if |s.params| != |s.columns| then ExecOut(Err(ProgrammingError), st)
    else
      var table := st.tables[s.table];
      var explicit := s.keyColumn.Some? && s.keyColumn.value in s.columns;
      var given := if explicit then s.params[IndexOf(s.columns, s.keyColumn.value)] else Null;
      if given != Null && !given.IntVal? then ExecOut(Err(IntegrityError), st)   // datatype mismatch
      else if given.IntVal? && given.i in table then ExecOut(Err(IntegrityError), st)   // duplicate key
      else
        var rowid := if given.IntVal? then given.i else st.nextRowId;
        var row := RowOf(s.columns, s.params);
        var row' := if s.keyColumn.Some? then row[s.keyColumn.value := IntVal(rowid)] else row;
        ExecOut(Ok(Some(rowid)),
                st.(tables := st.tables[s.table := table[rowid := row']], nextRowId := Max(st.nextRowId, rowid + 1), log := st.log + [s]))
  }

  function ExecUpdate(st: StoreState, s: Stmt): (out: ExecOut)
    requires s.UpdateStmt?
  {
    if s.table !in st.tables || s.columns == [] then ExecOut(Err(OperationalError), st)
    else if |s.params| != |s.columns| + 1 then ExecOut(Err(ProgrammingError), st)
    else
      var table := st.tables[s.table];
      var key := s.params[|s.columns|];
      var table' := if key.IntVal? && key.i in table
        then table[key.i := table[key.i] + RowOf(s.columns, s.params[..|s.columns|])]
        else table;
      ExecOut(Ok(None), st.(tables := st.tables[s.table := table'], log := st.log + [s]))
  }

  /** `conn.execute(stmt, params)`. */
  function Exec(st: StoreState, s: Stmt): (out: ExecOut)
    ensures out.result.Err? ==> out.state == st
    ensures out.result.Ok? ==> out.state.log == st.log + [s] && out.state.tables.Keys == st.tables.Keys
    ensures out.state.adapters == st.adapters
    ensures out.result.Ok? ==> s.table in st.tables
    ensures s.InsertStmt? && out.result.Ok? ==>
      && out.result.value.Some?
      && st.tables[s.table].Keys <= out.state.tables[s.table].Keys
    ensures s.UpdateStmt? && out.result.Ok? ==>
      && out.result.value.None?
      && out.state.tables[s.table].Keys == st.tables[s.table].Keys
  {
    if s.InsertStmt? then ExecInsert(st, s) else ExecUpdate(st, s)
  }

  /** Executing a statement keeps the store valid, leaves every other table as it was,
      and adds exactly the reported row id to the keys of its table (an INSERT) or no key
      at all (an UPDATE). */
  lemma ExecPreserves(st: StoreState, s: Stmt)
    requires StoreValid(st)
    ensures StoreValid(Exec(st, s).state)
    ensures forall t :: t in st.tables && t != s.table ==> Exec(st, s).state.tables[t] == st.tables[t]
    ensures s.InsertStmt? && Exec(st, s).result.Ok? ==>
      Exec(st, s).state.tables[s.table].Keys == st.tables[s.table].Keys + {Exec(st, s).result.value.value}
  {
  }

  /** An INSERT that does not name the key column stores its row under the fresh key
      `nextRowId`, and reports that key as `lastrowid`. */
  lemma InsertWithoutKeyIsFresh(st: StoreState, s: Stmt)
    requires StoreValid(st) && s.InsertStmt?
    requires s.keyColumn.None? || s.keyColumn.value !in s.columns
    requires Exec(st, s).result.Ok?
    ensures Exec(st, s).result.value == Some(st.nextRowId)
    ensures st.nextRowId !in st.tables[s.table]
    ensures Exec(st, s).state.tables[s.table].Keys == st.tables[s.table].Keys + {st.nextRowId}
  {
  }

  /** `SELECT key FROM t WHERE key = ?` has a row: an SQL comparison with NULL never holds. */
  function KeyExists(st: StoreState, table: string, key: Value): Result<bool>
  {
    if table !in st.tables then Err(OperationalError)
    else Ok(key.IntVal? && key.i in st.tables[table])
  }

  /** `SELECT ... FROM t WHERE key = ?` followed by `fetchone()`. */
  function SelectRow(st: StoreState, table: string, key: Value): Result<Option<Row>>
  {
    if table !in st.tables then Err(OperationalError)
    else if key.IntVal? && key.i in st.tables[table] then Ok(Some(Fetched(st.adapters, st.tables[table][key.i])))
    else Ok(None)
  }

  /** The sqlite3 connection: the tables created by the schema script, the row-id counter,
      the statements executed so far (what a statement trace callback would record) and
      the adapters. */
  class Connection {
    var tables: map<string, Table>
    var nextRowId: int
    var log: seq<Stmt>
    const adapters: Adapters

    function State(): StoreState
      reads this
    {
      StoreState(tables, nextRowId, log, adapters)
    }

    /** A connection whose schema script created the given (empty) tables. */
    constructor (tableNames: set<string>, adapters: Adapters)
      ensures State() == StoreState(map t | t in tableNames :: map[], 1, [], adapters)
      ensures StoreValid(State())
    {
      tables := map t | t in tableNames :: map[];
      nextRowId := 1;
      log := [];
      this.adapters := adapters;
    }

    /** `conn.execute(stmt, params)` for an INSERT or an UPDATE. */
    method Execute(s: Stmt) returns (r: Result<Option<int>>)
      modifies this
      ensures ExecOut(r, State()) == Exec(old(State()), s)
    {
      var out := Exec(State(), s);
      r := out.result;
      tables, nextRowId := out.state.tables, out.state.nextRowId;
      log := out.state.log;
    }

    /** `conn.execute("SELECT key FROM t WHERE key = ?", (key,)).fetchone() is not None`. */
    method SelectKey(table: string, key: Value) returns (r: Result<bool>)
      ensures r == KeyExists(State(), table, key)
      ensures r.Ok? ==> (r.value <==> key.IntVal? && key.i in tables[table])
    {
      if table !in tables {
        return Err(OperationalError);
      }
      r := Ok(key.IntVal? && key.i in tables[table]);
    }

    /** `conn.execute("SELECT ... FROM t WHERE key = ?", (key,)).fetchone()`. */
    method SelectOne(table: string, key: Value) returns (r: Result<Option<Row>>)
      ensures r == SelectRow(State(), table, key)
      ensures r.Ok? && r.value.Some? ==> key.IntVal? && key.i in tables[table] && r.value.value == Fetched(adapters, tables[table][key.i])
    {
      if table !in tables {
        return Err(OperationalError);
      }
      if key.IntVal? && key.i in tables[table] {
        r := Ok(Some(Fetched(adapters, tables[table][key.i])));
      } else {
        r := Ok(None);
      }
    }
  }
}
