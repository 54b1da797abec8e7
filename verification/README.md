# Genealogy collection core, modelled in Dafny

This project models the data-collection core of a math-genealogy explorer in Dafny and
proves properties of the model. The core has three parts.

- **The persistence engine** (`collection/db.py`) maps NamedTuple record types onto
  SQLite tables.
  - Table names come from type names (`MathGenealogyAssociatedLink` becomes
    `math_genealogy_associated_link`).
  - A type's primary key is the name registered for it, or else the `<table>_id` field.
  - Foreign keys are the `<field>_id` columns of fields annotated with a record type.
  - Class decorators fill four module-level registries: insert modes, primary-key names,
    foreign-key names and alternate-key names.
  - `DB.insert_or_update` writes a record after writing its nested records. It memoises
    key-existence checks in an LRU cache (`DB._contains`).
  - `DB.get` reads a record back, resolving each foreign key with a recursive `get` and
    converting date columns with `convert_sql_result_value`.
- **The record schema** (`collection/schema.py`) declares nine record types and their
  decorator registrations.
- **The URL cache** (`collection/scrape.py`) is a directory of downloaded pages.
  - Each URL maps to a file path: host, then path segments, then the query pairs sorted
    by key.
  - A file is fresh for `ttl` seconds after it was written.
  - Called as a decorator, the cache reads through to a fetch function on a miss.

Each file of the project is one part of that core:

| file | what it holds |
|---|---|
| `wrappers.dfy` | `Option`, `Result` and `Outcome`, and the Python exceptions the code can raise |
| `naming.dfy` | `_table_name`: the regular-expression word split and the snake-case join |
| `records.dfy` | record types, field annotations, field values and record instances |
| `registry.dfy` | the four registries as a `Registry` class with the `register_*` decorators as methods; the `_primary_key_name`, `_foreign_key_names` and `_insert_mode` lookups |
| `convert.dfy` | `convert_sql_result_value` |
| `store.dfy` | the SQLite connection, reduced to the statements the engine issues |
| `writepath.dfy` | `insert_or_update` and `_contains` as functions of the engine state, plus their properties |
| `readpath.dfy` | `get` as a function of the store, plus its properties |
| `roundtrip.dfy` | what was written reads back |
| `writecases.dfy` | concrete runs that exhibit the write-path defects |
| `db.dfy` | the `DB` class: its methods follow the code step by step and are proved equal to the write-path and read-path functions |
| `schema.dfy` | the nine types, their table and key names, and the import-time decorator runs |
| `urlkey.dfy` | `URLCache._key_path`: path splitting, path joining, the stable sort of query pairs |
| `urlcache.dfy` | the `URLCache` class over a map of files, and the read-through wrapper |

**Two builds.** Where the code and its evident intent differ, the write and read paths
take a `Build` parameter:

- `AsWritten` follows the code line by line. The `DB` class runs this build.
- `Corrected` follows the intent.

Each discrepancy is listed under "## Findings", with a lemma for each build.

**Inputs the model takes as given.**

- The clock is an integer passed to each cache operation.
- `urlparse`, `parse_qsl` and the `fromisoformat` parsers are given functions.
- So are the sqlite3 module's default adapters, which store a `date` or `datetime`
  parameter as its ISO-8601 text (`isoformat`). A fetched row therefore holds a string
  where a date was written, and `get` parses it back with `fromisoformat`.
- The fetch behind the cache is a `Fetcher` object that answers each URL and records the
  URLs it was asked for.

## Model

| member | source | states |
|---|---|---|
| Naming.LowerRun | collection/db.py:134 | the run of lower-case letters that `[a-z]+` matches at the start of a string: all lower-case, and the next letter is not |
| Naming.Words | collection/db.py:134 | every word `re.findall('[A-Z][a-z]+', …)` returns is a capital letter followed by lower-case letters |
| Naming.WordsOfCamelCase | collection/db.py:134 | on a concatenation of capitalised words, the word split returns exactly those words |
| Naming.TableName | collection/db.py:131-134 | `_table_name`: the words of the type name, lower-cased and joined by `_`; what it returns is stated by `TableNameOfCamelCase`, `TableNameIsLowerCase` and the word-count lemmas below |
| Naming.TableNameOfCamelCase | collection/db.py:131-134 | the table name of a concatenation of capitalised words is the words lower-cased and joined by `_` |
| Naming.TableNameIsLowerCase | collection/db.py:131-134 | a table name never contains an upper-case letter |
| Naming.OneWord | collection/db.py:131-134 | a one-word type name gives that word with its capital lowered |
| Naming.TwoWords | collection/db.py:131-134 | a two-word type name gives `a_b` |
| Naming.ThreeWords | collection/db.py:131-134 | a three-word type name gives `a_b_c` |
| Naming.FourWords | collection/db.py:131-134 | a four-word type name gives `a_b_c_d` |
| Records.IndexOfField | collection/db.py:185 | `getattr(value, pkname)` finds the first field with that name, or reports that there is none |
| Registry.MissingNames | collection/db.py:63 | `missing` holds exactly the given names that are not fields of the type |
| Registry.Registry.constructor | collection/db.py:13-16 | the four registries start empty |
| Registry.Registry.RegisterInsertMode | collection/db.py:42-47 | `INSERT_MODES[type_] = mode`, nothing else changes |
| Registry.Registry.RegisterPkName | collection/db.py:50-57 | succeeds if and only if the name is a field; on success it records the name, otherwise it raises `NameError` with the registry unchanged |
| Registry.Registry.RegisterFkNames | collection/db.py:60-69 | succeeds if and only if every name is a field; on success it records `{n + "_id"}`, otherwise it raises `NameError` with the registry unchanged |
| Registry.Registry.RegisterAltPkNames | collection/db.py:72-83 | succeeds if and only if every name is a field; on success it records each name, with `_id` appended for a record-typed field, otherwise it raises `NameError` with the registry unchanged |
| Registry.AltKeyColumnsList | collection/db.py:79 | the alternate-key columns of a list of names are the columns of its names one by one |
| Registry.PrimaryKeyName | collection/db.py:103-112 | `_primary_key_name`: the registered name, else `<table>_id` when it is a field, else `None`; stated by `PrimaryKeyNameIsField` and `ConventionalPrimaryKey` |
| Registry.PrimaryKeyNameIsField | collection/db.py:103-112 | with a valid registry, a primary-key name is always a field of the type; there is none if and only if no name is registered and the type has no `<table>_id` field |
| Registry.ConventionalPrimaryKey | collection/db.py:108-112 | an unregistered type with a `<table>_id` field has that field as its primary key |
| Registry.ForeignKeyNamesAsWritten | collection/db.py:119-124 | succeeds if and only if foreign keys were registered, and returns them; otherwise it raises `AttributeError` (`type._field_types`) |
| Registry.ForeignKeyNamesFixed | collection/db.py:119-124 | `_foreign_key_names` as intended: the registered names, else the `_id` columns of the type's own record-typed fields; stated by `ForeignKeyNamesFixedDerived` |
| Registry.ForeignKeyNamesFixedDerived | collection/db.py:124 | as intended, an unregistered type's foreign-key columns are exactly the `_id` columns of its record-typed fields |
| Registry.InsertModeAsWritten | collection/db.py:90-96 | as written, the result is `None` if and only if a mode is registered; otherwise it is the default mode. `RegisteredModeIsLost` and `GenealogySchema.InsertModesLost` show a registered mode is lost |
| Registry.InsertModeFixed | collection/db.py:90-96 | as intended: the registered mode, else the default, whose value `DefaultInsertModeValue` states; `RegisteredModeIsLost` shows a registered mode is returned |
| Registry.DefaultInsertModeValue | collection/db.py:94 | the default mode is the flag value 19, and it has neither "ignore" bit set |
| Registry.RegisteredModeIsLost | collection/db.py:42-47 | after `register_insert_mode`, the as-written lookup returns `None` and the corrected lookup returns the registered mode |
| Convert.ConvertSqlResultValue | collection/db.py:137-143 | an instance of the annotation, or a value of a kind with no converter, is returned unchanged; anything else goes through `fromisoformat`. What that means for NULL is `NullDateRaises`; for a stored date, `ReadPath.ConvertAdapted` |
| Convert.NullDateRaises | collection/db.py:137-143 | as written, a NULL date or datetime column raises `TypeError` |
| Convert.ConvertSqlResultValueFixed | collection/db.py:137-143 | as intended, NULL stays NULL and every other value is converted as written; `ConvertKeepsInstances` and `ReadPath.ConvertAdapted` state that it reads back what was written |
| Convert.ConvertKeepsInstances | collection/db.py:138-139 | a value already of the annotated kind (or NULL) reads back unchanged |
| Store.Adapt | collection/db.py:219 | a `date` or `datetime` parameter is stored as text; every other value as it is |
| Store.Fetched | collection/db.py:236-237 | a fetched row has the stored columns, each date and datetime as its ISO text |
| Store.RowOfColumns | collection/db.py:219 | a statement's row binds only the columns the statement names |
| Store.ExecInsert | collection/db.py:212-220 | the INSERT: no such table or no columns raises `OperationalError`; a key that is not an integer, or is taken, raises `IntegrityError`; otherwise the row is stored under the given key or the next row id. Stated by `Exec`, `ExecPreserves` and `InsertWithoutKeyIsFresh` |
| Store.ExecUpdate | collection/db.py:203-209 | the UPDATE overwrites the named columns of the row with the key, if there is one, and adds no key; stated by `Exec`, `ExecPreserves` and `RoundTrip.FinishUpdateRow` |
| Store.Exec | collection/db.py:219 | a failed statement changes nothing; a successful one is logged, keeps the set of tables, only adds keys on INSERT (and reports the row id), and keeps the keys on UPDATE |
| Store.ExecPreserves | collection/db.py:219-220 | executing keeps every key below the next row id and leaves other tables untouched; an INSERT adds exactly the reported `lastrowid` |
| Store.InsertWithoutKeyIsFresh | collection/db.py:212-220 | an INSERT without the key column stores its row under a fresh key and reports it as `lastrowid` |
| Store.Connection.constructor | collection/db.py:155-157 | the tables created by the schema script, all empty, with a valid row-id counter |
| Store.Connection.Execute | collection/db.py:219 | `conn.execute(stmt, params)` performs `Exec` on the connection state |
| Store.Connection.SelectKey | collection/db.py:257-260 | the existence query holds if and only if the key is an integer present in the table |
| Store.SelectRow | collection/db.py:236-237 | the row stored under an integer key, as fetched; no such table raises `OperationalError`; stated by `Connection.SelectOne` and `ReadPath.ReadFlat` |
| Store.Connection.SelectOne | collection/db.py:231-237 | `fetchone()` returns the row stored under the key, its dates as ISO text, or nothing |
| WritePath.ContainsSpec | collection/db.py:255-260 | `_contains` returns the memoised answer when there is one; otherwise it asks the store and memoises a successful answer; the store is never changed |
| WritePath.SplitFields | collection/db.py:174-183 | the key field is never a column and no column value is a nested record |
| WritePath.SplitFieldsOrder | collection/db.py:174-183 | columns and dependencies come out in field order, each with its own field's value |
| WritePath.SplitFieldsPartition | collection/db.py:174-183 | every field except the key field is a column or a dependency, never both |
| WritePath.PlanOf | collection/db.py:165-185 | a non-NULL key value implies a key name; every dependency is a well-formed record, shallower than its parent |
| WritePath.Decide | collection/db.py:187-194 | the write is an UPDATE if and only if the key is set, the check is on and `_contains` answers true; `update` stays unbound if and only if the key is NULL (as written) |
| WritePath.ColumnsOf | collection/db.py:200-213 | the INSERT columns: the scalar columns, the key column when written, then one `_id` column per dependency; `FinishForeignKeys` states the `_id` part |
| WritePath.IdColumns | collection/db.py:200 | `c + "_id"` for each dependency column |
| WritePath.ParamsOf | collection/db.py:200-213 | the parameters, one per column in the same order, the dependency keys last; stated with `ColumnsOf` by `FinishForeignKeys` |
| WritePath.StatementOf | collection/db.py:203-217 | an UPDATE of the columns with the key bound last, or an INSERT with or without the key column; `FinishOutcome` states what it does |
| WritePath.Finish | collection/db.py:200-220 | the end of `insert_or_update`; stated by `FinishOutcome`, `FinishForeignKeys` and `FinishInsertWithKey` |
| WritePath.Persist | collection/db.py:162-220 | `insert_or_update`; what a write does is stated by `PersistOutcome`, `PersistEvolves`, `PersistForeignKeys`, `PersistReadOnly` and the build-specific lemmas below |
| WritePath.Refresh | collection/db.py:255-260 | the corrected memo refresh keeps the memo's keys and turns exactly the new row's entries to true |
| WritePath.PersistList | collection/db.py:196-198 | the dependency loop returns one key per dependency |
| WritePath.PersistListSnoc | collection/db.py:196-198 | one more dependency: the keys so far plus its key, or its exception |
| WritePath.PersistListStops | collection/db.py:196-198 | the first exception in the dependency loop ends it |
| WritePath.PersistEvolves | collection/db.py:162-220 | a write only adds keys and log entries and keeps the memo sound; it never issues a malformed statement (`ProgrammingError`) |
| WritePath.PersistListEvolves | collection/db.py:196-198 | the same for the dependency loop |
| WritePath.MemoAfterExec | collection/db.py:255-260 | executing a statement keeps every memoised "present" true; the corrected refresh also keeps every "absent" true |
| WritePath.PersistUnfold | collection/db.py:162-220 | a successful write passed the read-only check, decided a bound action, wrote all dependencies, then issued its own statement |
| WritePath.DecideUpdateExisting | collection/db.py:187-188 | with a sound memo, an UPDATE is chosen only for a key that exists in the store |
| WritePath.FinishOutcome | collection/db.py:203-220 | the record's statement is logged last. An UPDATE returns the key and binds it as the last parameter. An INSERT returns a key that was absent before. The returned key exists afterwards and no key is lost |
| WritePath.FinishForeignKeys | collection/db.py:200-201 | the statement ends with the `<field>_id` columns bound to the dependency keys |
| WritePath.PersistOutcome | collection/db.py:162-220 | a successful write ends with its own statement; that statement is an UPDATE if and only if `_contains` said the key exists; the returned key exists in the table afterwards |
| WritePath.PersistForeignKeys | collection/db.py:196-201 | every foreign-key column of the written row holds a key that exists in the referenced table |
| WritePath.PersistListKeysStored | collection/db.py:196-198 | every key the dependency loop returns exists in its record's table |
| WritePath.PersistReadOnly | collection/db.py:163-164 | a read-only `DB` raises `ValueError` and changes nothing |
| WritePath.PersistNoKeyNameRaises | collection/db.py:185 | as written, a type without a primary-key name raises `TypeError` before any write |
| WritePath.PersistNullKeyRaises | collection/db.py:187-203 | as written, a record with a NULL key always fails; once its dependencies are written it raises `UnboundLocalError` |
| WritePath.PersistWithoutKeyCorrected | collection/db.py:187-203 | as intended, a keyless record is inserted under a fresh key that exists afterwards |
| WritePath.FinishInsertWithKey | collection/db.py:191-194 | an INSERT that names the key column returns the caller's key |
| WritePath.PersistKeepsCallerKey | collection/db.py:187-194 | as intended, a record with a key is always written under that key |
| WritePath.PersistTwiceUpdates | collection/db.py:187-188 | as intended, writing the same record twice returns the same key and the second write is an UPDATE; for records without record-typed fields, `RoundTrip.FlatWriteTwice` also states the single row and its contents |
| ReadPath.SelectListAsWritten | collection/db.py:231-235 | as written, the select list is accepted only for a type with one scalar field, and it then names that field's column; otherwise `OperationalError` |
| ReadPath.StripId | collection/db.py:247 | `n[:-3] if n.endswith("_id") else n` undoes the `_id` suffix and leaves other names alone |
| ReadPath.StripIdColumn | collection/db.py:247 | stripping undoes `+ "_id"` |
| ReadPath.Construct | collection/db.py:253 | `type_(**kwargs)` succeeds if and only if the keywords are exactly the field names; it then holds each field's argument, otherwise it raises `TypeError` |
| ReadPath.Read | collection/db.py:228-253 | a record that `get` returns has the requested type and one value per field |
| ReadPath.ReadNone | collection/db.py:236-239 | `get` returns `None` if and only if the type has a key name and no row has the key; a NULL key finds nothing |
| ReadPath.ReadFoundUnregisteredAsWritten | collection/db.py:241 | as written, a found row of a type without registered foreign keys raises `AttributeError` |
| ReadPath.Kwargs | collection/db.py:242-251 | the column loop of `get`; stated by `KwargsStep`, `KwargsStops`, `KwargsKeysAsWritten`, `KwargsKeysCorrected` and `KwargsFlat` |
| ReadPath.Entry | collection/db.py:245-251 | one column of `get`; stated by `EntryKeyAsWritten`, `EntryKeyCorrected` and `EntryFlat` |
| ReadPath.KwargsStep | collection/db.py:244-251 | one more column: the arguments so far updated with that column's entry |
| ReadPath.KwargsStops | collection/db.py:244-251 | the first failing column ends the loop |
| ReadPath.EntryKeyAsWritten | collection/db.py:249 | as written, a keyword argument is named after its column |
| ReadPath.KwargsKeysAsWritten | collection/db.py:244-251 | as written, the keyword names are exactly the column names (`<field>_id` for foreign keys) |
| ReadPath.ReadForeignKeyAsWritten | collection/db.py:246-253 | as written, a type with a record-typed field never reads back as a record |
| ReadPath.EntryKeyCorrected | collection/db.py:246-251 | as intended, a foreign-key entry is named after its field |
| ReadPath.KwargsKeysCorrected | collection/db.py:244-251 | as intended, the keyword names are exactly the field names |
| ReadPath.ReadFoundCorrected | collection/db.py:241-253 | as intended, a found row reads back as a record exactly when every column resolves |
| ReadPath.ConvertAdapted | collection/db.py:137-143 | as intended, a value stored through the adapters and converted under its own annotation is the value written: a date or datetime comes back from its ISO text through `fromisoformat`; NULL, integers and strings come back unchanged |
| ReadPath.EntryFlat | collection/db.py:250-251 | as intended, a scalar column written with NULL or a value of its kind reads back as that value |
| ReadPath.KwargsFlat | collection/db.py:244-251 | as intended, the arguments of a fetched row of scalar columns map each field to the value written |
| ReadPath.ReadFlat | collection/db.py:228-253 | as intended, a stored row of scalar columns reads back as the record of those values, dates through their ISO text |
| RoundTrip.FlatWrite | collection/db.py:162-220 | as intended, a record of scalar fields with a new key is stored under that key, holding every field's value; the table gains exactly that key |
| RoundTrip.ReadKeyedRow | collection/db.py:228-253 | that stored row reads back as the record |
| RoundTrip.FlatRoundTrip | collection/db.py:162-253 | as intended, `get` after `insert_or_update` returns the record written; its dates are stored as ISO text and parsed back by `fromisoformat` |
| RoundTrip.FinishInsertRow | collection/db.py:210-220 | the INSERT of a record without dependencies under its key returns the key, adds exactly that key to the table and stores the record's columns with the key column |
| RoundTrip.DecideExistingUpdates | collection/db.py:187-188 | as intended, with a memo that agrees with the store, a key that names a stored row is updated |
| RoundTrip.FinishUpdateRow | collection/db.py:203-209 | the UPDATE of a record without dependencies overwrites its non-key columns with the record's values, leaves the key column as it was and adds no key |
| RoundTrip.FlatUpdate | collection/db.py:162-220 | as intended, writing a record of scalar fields whose key names a stored row returns the key, keeps the table's keys and overwrites the row with the record's values |
| RoundTrip.ReadHeldRow | collection/db.py:228-253 | a row holding every field of a record of scalar fields reads back as the record |
| RoundTrip.FlatWriteTwice | collection/db.py:162-260 | as intended, writing a record of scalar fields twice under a new key returns the key both times, leaves one row under it, and `get` then returns the record |
| WriteCases.KeyDroppedAsWritten | collection/db.py:187-194 | a record with a key absent from an empty table is stored and returned under the store's next row id as written, and under its own key as intended |
| WriteCases.StaleMemoAsWritten | collection/db.py:255-260 | as written, writing the same record twice inserts two rows: the memo still says "absent" |
| WriteCases.SecondWriteCorrected | collection/db.py:255-260 | as intended, the second write updates the one row |
| Db.DB.constructor | collection/db.py:146-153 | a `DB` over a connection with an empty `_contains` cache |
| Db.DB.Contains | collection/db.py:255-260 | the method computes `ContainsSpec` on the connection and memo |
| Db.DB.SplitRecord | collection/db.py:169-183 | the field loop computes `SplitFields` |
| Db.DB.Decide | collection/db.py:187-194 | the key branch computes `Decide` of the as-written build |
| Db.DB.InsertOrUpdate | collection/db.py:162-220 | the method's result and new state are `Persist` of the as-written build, so every `Persist` lemma holds of it |
| Db.DB.InsertDependencies | collection/db.py:196-198 | the dependency loop computes `PersistList` |
| Db.DB.WriteRecord | collection/db.py:200-220 | the statement and its result compute `Finish` |
| Db.DB.Get | collection/db.py:228-253 | the method returns `Read` of the as-written build |
| Db.DB.GetArguments | collection/db.py:242-251 | the column loop computes `Kwargs` |
| Db.DB.GetEntry | collection/db.py:245-251 | one column computes `Entry` |
| GenealogySchema.TypesValid | collection/schema.py:12-95 | the nine types have distinct field names, and every annotation refers to a type defined earlier |
| GenealogySchema.CountryTable | collection/schema.py:14 | the table of `Country` is `country` |
| GenealogySchema.UniversityTable | collection/schema.py:21 | the table of `University` is `university` |
| GenealogySchema.MathematicsSubjectClassificationTable | collection/schema.py:30 | the table is `mathematics_subject_classification` |
| GenealogySchema.DissertationTable | collection/schema.py:36 | the table is `dissertation` |
| GenealogySchema.MathematicianTable | collection/schema.py:45 | the table is `mathematician` |
| GenealogySchema.AdvisorRelationshipTable | collection/schema.py:55 | the table is `advisor_relationship` |
| GenealogySchema.WebSourceTable | collection/schema.py:63 | the table is `web_source` |
| GenealogySchema.WebpageTable | collection/schema.py:70 | the table is `webpage` |
| GenealogySchema.MathGenealogyAssociatedLinkTable | collection/schema.py:92 | the table is `math_genealogy_associated_link` |
| GenealogySchema.CountryKey | collection/schema.py:14-16 | the primary key is `country_id` |
| GenealogySchema.UniversityKey | collection/schema.py:21-24 | the primary key is `university_id` |
| GenealogySchema.MathematicsSubjectClassificationKey | collection/schema.py:27-32 | the registered primary key is `subject_code` |
| GenealogySchema.DissertationKey | collection/schema.py:36-41 | the primary key is `dissertation_id` |
| GenealogySchema.MathematicianKey | collection/schema.py:45-50 | the primary key is `mathematician_id` |
| GenealogySchema.AdvisorRelationshipKey | collection/schema.py:55-58 | there is no primary key |
| GenealogySchema.WebSourceKey | collection/schema.py:63-65 | the primary key is `web_source_id` |
| GenealogySchema.WebpageKey | collection/schema.py:70-75 | the primary key is `webpage_id` |
| GenealogySchema.MathGenealogyAssociatedLinkKey | collection/schema.py:92-95 | there is no primary key |
| GenealogySchema.RegisteredValid | collection/schema.py:12-95 | every registered name is a field of its type |
| GenealogySchema.InsertModesLost | collection/schema.py:12-95 | every type registers a mode, so the as-written `_insert_mode` returns `None` for all nine, while the corrected lookup returns each registered mode |
| GenealogySchema.CountryAltKeys | collection/schema.py:13 | the alternate key is `{country_name}` |
| GenealogySchema.UniversityAltKeys | collection/schema.py:20 | the alternate key is `{university_name, country_id}` |
| GenealogySchema.MathematicsSubjectClassificationAltKeys | collection/schema.py:28 | the alternate key is `{subject_name}` |
| GenealogySchema.AdvisorRelationshipAltKeys | collection/schema.py:54 | the alternate key is `{advisor_id, advisee_id}` |
| GenealogySchema.WebSourceAltKeys | collection/schema.py:62 | the alternate key is `{base_url}` |
| GenealogySchema.WebpageAltKeys | collection/schema.py:69 | the alternate key is `{web_source_id, path, query}` |
| GenealogySchema.MathGenealogyAssociatedLinkAltKeys | collection/schema.py:91 | the alternate key is `{mathematician_id, webpage_id, href_text}` |
| GenealogySchema.KeylessWritesFail | collection/schema.py:53-58 | as written, writing an `AdvisorRelationship` or `MathGenealogyAssociatedLink` raises `TypeError` and changes nothing |
| GenealogySchema.KeylessReadsFail | collection/schema.py:53-58 | reading either keyless type raises `OperationalError` |
| GenealogySchema.SelectsRejectedAsWritten | collection/db.py:231-235 | as written, the `SELECT` of `get` raises `OperationalError` for each of the nine types |
| GenealogySchema.FoundRowsFailAsWritten | collection/schema.py:12-95 | as written, no schema type ever reads back as a record: a found row raises |
| GenealogySchema.DecorateCountry | collection/schema.py:12-16 | the decorators register `{country_name}`, then `InsertIfNewAltPKElseIgnore` |
| GenealogySchema.DecorateUniversity | collection/schema.py:19-24 | the decorators register `{university_name, country_id}`, then the mode |
| GenealogySchema.DecorateMathematicsSubjectClassification | collection/schema.py:27-32 | the decorators register `subject_code`, then `{subject_name}`, then the mode |
| GenealogySchema.DecorateDissertation | collection/schema.py:35-41 | the decorator registers `InsertIfNoPK` |
| GenealogySchema.DecorateMathematician | collection/schema.py:44-50 | the decorator registers `InsertIfNewPKElseIgnore` |
| GenealogySchema.DecorateAdvisorRelationship | collection/schema.py:53-58 | the decorators register `{advisor_id, advisee_id}`, then the mode |
| GenealogySchema.DecorateWebSource | collection/schema.py:61-65 | the decorators register `{base_url}`, then the mode |
| GenealogySchema.DecorateWebpage | collection/schema.py:68-75 | the decorators register `{web_source_id, path, query}`, then `InsertIfNewAltPKElseUpdate` |
| GenealogySchema.DecorateMathGenealogyAssociatedLink | collection/schema.py:90-95 | the decorators register `{mathematician_id, webpage_id, href_text}`, then the mode |
| GenealogySchema.ImportSchema | collection/schema.py:12-95 | importing the module raises nothing and leaves the registries holding exactly the nine types' registrations |
| UrlKey.FirstIndex | collection/scrape.py:30 | the position of the first separator, or the length when there is none |
| UrlKey.Split | collection/scrape.py:30 | `str.split('/')` returns at least one piece, and no piece contains the separator |
| UrlKey.SplitJoin | collection/scrape.py:30 | joining the pieces with the separator gives back the string |
| UrlKey.JoinSplit | collection/scrape.py:30 | splitting a join of separator-free pieces gives back the pieces |
| UrlKey.Kept | collection/scrape.py:29-31 | joining a path drops empty and `.` pieces |
| UrlKey.DivPiece | collection/scrape.py:29-31 | `path / piece` appends a separator-free piece unless it is empty or `.` |
| UrlKey.DivAllPieces | collection/scrape.py:29-31 | folding `/` over the pieces appends the kept pieces in order |
| UrlKey.Div | collection/scrape.py:29-31 | `path / piece`; stated by `DivPiece` |
| UrlKey.DivAll | collection/scrape.py:29-31 | `/` folded over the pieces; stated by `DivAllPieces` |
| UrlKey.StrLessIrreflexive | collection/scrape.py:36-39 | the string order used to sort the query keys is irreflexive |
| UrlKey.StrLessTransitive | collection/scrape.py:36-39 | the string order is transitive |
| UrlKey.StrLessTotal | collection/scrape.py:36-39 | the string order is total on distinct strings |
| UrlKey.InsertSorted | collection/scrape.py:36-39 | inserting into a key-sorted list keeps it sorted and adds exactly the new pair |
| UrlKey.InsertStable | collection/scrape.py:36-39 | insertion places the new pair after every pair with the same key |
| UrlKey.SortByKeySpec | collection/scrape.py:36-39 | `sorted(…, key=itemgetter(0))` is sorted by key and a permutation of its input, and keeps the order of pairs with equal keys (stable) |
| UrlKey.SortByKey | collection/scrape.py:36-39 | `sorted(…, key=itemgetter(0))` as an insertion sort; stated by `SortByKeySpec` |
| UrlKey.SortedUnique | collection/scrape.py:36-39 | two key-sorted lists with the same pairs per key, in the same order, are equal |
| UrlKey.WithKeyPermutation | collection/scrape.py:36-39 | with distinct keys, two permutations have the same pairs per key |
| UrlKey.DistinctKeysOrderFree | collection/scrape.py:36-39 | with distinct keys, any permutation of the pairs sorts to the same list |
| UrlKey.Formatted | collection/scrape.py:34-35 | each pair is written `key=value` |
| UrlKey.FileName | collection/scrape.py:32-44 | the file name of a query as written: the sorted `key=value` pairs joined by `&`, or `?` for an empty query; stated by `KeyFile`, `EmptyQuery` and `PairlessQueryAsWritten` |
| UrlKey.FileNameFixed | collection/scrape.py:32-44 | the file name as intended: `?` whenever there are no pairs; stated by `PairlessQueryFixed` |
| UrlKey.KeyPath | collection/scrape.py:25-44 | `_key_path` as written; stated by `KeyInputs`, `KeyDirectory`, `KeyFile`, `EmptyQuery`, `KeyOrderFree` and `KeyStable` |
| UrlKey.KeyPathFixed | collection/scrape.py:25-44 | `_key_path` as intended; stated by `PairlessQueryFixed` |
| UrlKey.KeyInputs | collection/scrape.py:25-27 | the key path depends only on the parsed netloc, path and query, whether given a string or a parsed URL |
| UrlKey.KeyDirectory | collection/scrape.py:29-31 | the directory is `cache_dir / netloc` followed by the kept path pieces |
| UrlKey.KeyFile | collection/scrape.py:32-44 | a query with pairs names a file in that directory; splitting the file name at `&` gives the sorted `key=value` pairs |
| UrlKey.EmptyQuery | collection/scrape.py:42-44 | a URL without a query is stored in the file `?` |
| UrlKey.KeyOrderFree | collection/scrape.py:32-44 | two URLs whose query pairs are a permutation of each other, with distinct keys, share one file |
| UrlKey.KeyStable | collection/scrape.py:32-44 | two URLs with the same values per key, in the same order, share one file |
| UrlKey.PairlessQueryAsWritten | collection/scrape.py:32-44 | as written, a non-empty query without pairs makes the file path the directory itself |
| UrlKey.PairlessQueryFixed | collection/scrape.py:32-44 | as intended, a query without pairs is stored in the file `?` |
| UrlCache.Present | collection/scrape.py:46-53 | `_contains_path`: the file exists and is younger than the ttl; stated by `PresentWindow`, `StoreThenRead` and `NonPositiveTtlNeverFresh` |
| UrlCache.PresentWindow | collection/scrape.py:46-53 | without a ttl a file is always fresh; with one, it is fresh if and only if `now < mtime + ttl`; a file fresh at some time is fresh at every earlier time |
| UrlCache.StoreThenRead | collection/scrape.py:46-53 | a file written at `w` is fresh, with its content, at any time before `w + ttl`; other paths are unaffected |
| UrlCache.NonPositiveTtlNeverFresh | collection/scrape.py:53 | with a ttl of zero or less, a file is stale when written |
| UrlCache.Fetcher.Fetch | collection/scrape.py:108-109 | the fetch answers each URL and records it |
| UrlCache.URLCache.constructor | collection/scrape.py:18-23 | a cache over a directory, a ttl, and the files already on disk |
| UrlCache.URLCache.ContainsPath | collection/scrape.py:46-53 | `_contains_path` on the cache's own files and ttl (`Present`) |
| UrlCache.URLCache.Contains | collection/scrape.py:55-57 | `key in cache`: the key path is present; `GetItem`, `Get` and `DelItem` state their results in its terms |
| UrlCache.URLCache.GetItem | collection/scrape.py:75-82 | `cache[key]` returns the content if and only if the key's file is fresh; otherwise it raises `KeyError` |
| UrlCache.URLCache.Get | collection/scrape.py:84-91 | `cache.get(key, default)` returns the fresh file's content, else `default` |
| UrlCache.URLCache.SetItem | collection/scrape.py:67-73 | `cache[key] = value` writes the key's file with the current time; no other file changes |
| UrlCache.URLCache.DelItem | collection/scrape.py:59-65 | `del cache[key]` removes exactly the key's file if and only if it is fresh; otherwise it raises `KeyError` and nothing changes |
| UrlCache.URLCache.Call | collection/scrape.py:93-104 | on a fresh hit it returns the cached content without fetching. On a miss it fetches once, stores a successful answer under the URL's key and returns it. A failed fetch propagates and nothing is stored |

## Left out

- SQL text is not modelled. Statements are structured values. `get`'s
  `SELECT (a, b, …)` over the field names is modelled apart, by `SelectListAsWritten`
  (see Findings). `Read` and `DB.Get` read the columns as stored, which is what that
  select list evidently means, so that the defects after it can be stated.
- The schema script (`init_schema`), the `PRAGMA foreign_keys` statement and foreign-key
  enforcement by SQLite are not modelled. The store only checks key types and duplicate
  keys.
- Primary keys are integers (SQLite row ids). A non-integer key value is never found by
  a lookup, and inserting one raises `IntegrityError`.
- Store.ExecInsert: one row-id counter is shared by all tables, whereas SQLite gives a
  row inserted without its key the largest row id of its own table plus one. A first
  INSERT into `country` after three `university` rows gets 4 in the model and 1 in
  SQLite. What the proofs use holds under both rules: the key is new to its table.
- `DB.__str__` is not modelled.
- The stubs `_update_with_rowid` and `_update_with_alternate_key` are not modelled, and
  insert modes are registered but never consulted by `insert_or_update`. The model
  registers the modes and proves the lookups.
- The value-level wrappers `insert_mode`, `primary_key_name`, `foreign_key_names` and
  `table_name` only apply the type-level lookup to `type(value)`. They are not separate
  members.
- The `lru_cache` memos of `_table_name`, `_insert_mode`, `_primary_key_name` and
  `_foreign_key_names` (collection/db.py:90, 103, 119, 131) are not modelled. Three of
  those lookups read registries that the `register_*` decorators change, so a lookup
  cached before a later registration would keep its stale answer. The model always reads
  the current registries. That is faithful only because every registration
  (`GenealogySchema.ImportSchema`) happens before any lookup. Registrations interleaved
  with lookups are not modelled.
- The `lru_cache` memo of `_key_path` is not modelled. It caches a function of the URL
  and of the constant `cache_dir`, so it cannot change an answer.
- Db.DB.Contains: the memo of `_contains` is unbounded. The bound of 1,000,000 entries
  and LRU eviction are not modelled; an eviction would only cause a fresh query.
- Thread locks (`RLock`) and concurrent access to the cache are not modelled.
- The file system is a map from path to content and modification time.
  - Directories are not modelled: `mkdir` of missing parents, and a file path that is
    itself a directory.
  - The `binary` flag (text or bytes mode) is not modelled; contents are bytes.
  - The clock is an integer number of seconds, whereas `time.time()` returns a float.
- The parsing done by `urlparse` and `parse_qsl` is not modelled; both are parameters.
  `Path` joins model the POSIX `pathlib` rules for `/`, empty and `.` pieces only: `..`
  is kept as a piece and a `//` root is treated like `/`.
- The `fromisoformat` parsers and the `isoformat` adapters are parameters. Only the
  parsers' `TypeError` on a non-string argument is modelled.
- RoundTrip.FlatRoundTrip: it assumes that the parsers read back what the adapters
  write (`ReadsBack`). It is stated for values of exactly their field's kind (`OfKind`).
  A `datetime` held by a `date` field is stored as datetime text, which
  `date.fromisoformat` does not read back, so that case is excluded.
- WritePath.PersistTwiceUpdates: for a record with record-typed fields it states only
  the key and the UPDATE. It does not state that the table's keys are unchanged or what
  the row holds, because writing the dependencies again may insert rows, even into
  the record's own table. `RoundTrip.FlatUpdate` and `RoundTrip.FlatWriteTwice` state
  both for records without record-typed fields.
- `Webpage.content` and `fetch_content`'s HTTP request are not modelled. The fetch is the
  `Fetcher` collaborator.
- collection/math_genealogy.py is not part of this model.
- ReadPath.Read: its own contract states only the shape of the result. What `get`
  returns is stated by `ReadNone`, `ReadFlat`, `ReadFoundCorrected` and the as-written
  lemmas. Records with nested records are not proved to round-trip, because as written
  they never read back (see Findings).

## Findings

| source | as written | input that shows it | evidently intended | confidence | as-written member | corrected member |
|---|---|---|---|---|---|---|
| collection/db.py:187-194 | a key that `_contains` reports absent is not added to the INSERT columns, so the row gets the store's next row id and that id is returned | a record with key 7 written to an empty table whose next row id is 1 is stored and returned as 1 | the row is stored under the caller's key | high, not executed | WriteCases.KeyDroppedAsWritten | WritePath.PersistKeepsCallerKey |
| collection/db.py:255-260 | `_contains` memoises "absent" and the memo is never refreshed after an INSERT | writing the same record twice: the second call inserts a second row | the second write updates the existing row | high, not executed | WriteCases.StaleMemoAsWritten | WritePath.PersistTwiceUpdates |
| collection/db.py:187-203 | with a NULL key, `update` is never assigned and `if update:` raises `UnboundLocalError` | any record whose key field is `None` | the row is inserted and the store assigns its key | high, not executed | WritePath.PersistNullKeyRaises | WritePath.PersistWithoutKeyCorrected |
| collection/db.py:185 | `getattr(value, None)` raises `TypeError` for a type without a primary key | writing an `AdvisorRelationship` | a keyless record is inserted | high, not executed | WritePath.PersistNoKeyNameRaises | WritePath.PersistWithoutKeyCorrected |
| collection/db.py:90-96 | the `return` is inside `if mode is None:`, so a registered mode yields `None` | `_insert_mode(Country)` | the registered mode is returned | high, not executed | GenealogySchema.InsertModesLost | Registry.InsertModeFixed |
| collection/db.py:124 | the fallback reads `type._field_types`, which the builtin `type` lacks. Masked in the source: the `SELECT` at collection/db.py:231-235 raises `OperationalError` first for every schema type (`GenealogySchema.SelectsRejectedAsWritten`); the defect shows once the select list is fixed | `get(Country, 1)` when the row exists | the foreign keys of `type_` are derived | high, not executed | ReadPath.ReadFoundUnregisteredAsWritten | ReadPath.ReadFoundCorrected |
| collection/db.py:249 | the resolved foreign key is passed as keyword `<field>_id`, which the constructor rejects. Masked in the source: the `SELECT` at collection/db.py:231-235 raises `OperationalError` first for every schema type (`GenealogySchema.SelectsRejectedAsWritten`); the defect shows once the select list is fixed | reading any row of a type with a record-typed field, even with registered foreign keys | the keyword is the field name | high, not executed | ReadPath.ReadForeignKeyAsWritten | ReadPath.KwargsKeysCorrected |
| collection/db.py:137-143 | a NULL date column is passed to `date.fromisoformat`, which raises `TypeError`. Masked in the source: the `SELECT` at collection/db.py:231-235 raises `OperationalError` first for every schema type (`GenealogySchema.SelectsRejectedAsWritten`); the defect shows once the select list is fixed | a `Mathematician` row with no death date | NULL reads back as `None` | high, not executed | Convert.NullDateRaises | Convert.ConvertKeepsInstances |
| collection/db.py:231-235 | the select list is the field names in parentheses. SQLite reads two or more as a row value, which cannot be a result column, and a record-typed field's column is `<field>_id`, not its name | `get(Country, 1)`: `SELECT (country_id, country_name) FROM country WHERE country_id = ?` raises `OperationalError` | `SELECT` of the stored columns, one per field | high, not executed | GenealogySchema.SelectsRejectedAsWritten | RoundTrip.FlatRoundTrip |
| collection/scrape.py:32-44 | a non-empty query that `parse_qsl` reads as no pairs gives the empty file name, so the key path is the page's directory | `https://h/p?x` (query `x` has no `=`) | such a page is cached in the file `?` | medium, not executed | UrlKey.PairlessQueryAsWritten | UrlKey.PairlessQueryFixed |
