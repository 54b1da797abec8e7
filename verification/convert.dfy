/** The value converter of the read path (collection/db.py, `convert_sql_result_value` and
    `SQL_CONVERTERS`). The two converters, `datetime.fromisoformat` and
    `date.fromisoformat`, are library parsers: the model keeps their argument check (a
    non-string argument raises `TypeError`) and takes their parsing of a string as given
    functions. */
module Convert {
  import opened Wrappers
  import opened Records

  /** The ISO-8601 parsers behind `SQL_CONVERTERS`, applied to a string. */
  datatype IsoParsers = IsoParsers(
    parseDateTime: string -> Result<Value>,
    parseDate: string -> Result<Value>)

  /** `isinstance(value, type_)` for the scalar annotations; `datetime` is a subclass of
      `date`, so a datetime value is an instance of `date` too. */
  predicate IsInstance(v: Value, kind: ScalarKind)
  {
    match kind
    case IntKind => v.IntVal?
    case StrKind => v.StrVal?
    case DateKind => v.DateVal? || v.DateTimeVal?
    case DateTimeKind => v.DateTimeVal?
  }

  /** `SQL_CONVERTERS.get(type_)`: only `datetime` and `date` have a converter. */
  predicate HasConverter(kind: ScalarKind)
  {
    kind == DateKind || kind == DateTimeKind
  }

  /** Calling `fromisoformat`: a string is parsed, anything else raises `TypeError`. */
  function ApplyConverter(parsers: IsoParsers, kind: ScalarKind, v: Value): Result<Value>
    requires HasConverter(kind)
  {
    if !v.StrVal? then Err(TypeError)
    else if kind == DateTimeKind then parsers.parseDateTime(v.s)
    else parsers.parseDate(v.s)
  }

  /** `convert_sql_result_value(value, type_)` AS WRITTEN: the value unchanged when it is
      already an instance or no converter exists, otherwise the converter's result. */
  function ConvertSqlResultValue(parsers: IsoParsers, v: Value, kind: ScalarKind): (r: Result<Value>)
    ensures IsInstance(v, kind) || !HasConverter(kind) ==> r == Ok(v)
    ensures !IsInstance(v, kind) && HasConverter(kind) ==> r == ApplyConverter(parsers, kind, v)
  {
    if IsInstance(v, kind) then Ok(v)
    else if !HasConverter(kind) then Ok(v)
    else ApplyConverter(parsers, kind, v)
  }

  /** A NULL column of a `date` or `datetime` field reaches `fromisoformat(None)`, which
      raises `TypeError`, whatever the parsers do. */
  lemma NullDateRaises(parsers: IsoParsers, kind: ScalarKind)
    requires HasConverter(kind)
    ensures ConvertSqlResultValue(parsers, Null, kind) == Err(TypeError)
  {
  }

  /** The converter as evidently intended: SQL NULL (`None`) is passed through like a
      value that already has the field's type. */
  function ConvertSqlResultValueFixed(parsers: IsoParsers, v: Value, kind: ScalarKind): (r: Result<Value>)
    ensures v == Null ==> r == Ok(Null)
    ensures v != Null ==> r == ConvertSqlResultValue(parsers, v, kind)
  {
    if v == Null then Ok(Null) else ConvertSqlResultValue(parsers, v, kind)
  }

  /** Both versions are the identity on values that already have the field's type, so a
      stored value read back under its own annotation is unchanged. */
  lemma ConvertKeepsInstances(parsers: IsoParsers, v: Value, kind: ScalarKind)
    requires IsInstance(v, kind) || v == Null
    ensures ConvertSqlResultValueFixed(parsers, v, kind) == Ok(v)
  {
  }
}
