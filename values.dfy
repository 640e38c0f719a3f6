/** Nested configuration and document values: what `tomllib.load` returns and what a
    JSONB column holds (`dict`, `list`, `str`, `int`, `bool`, `None`). */
module Values {

  datatype Value =
    | Null
    | Bool(b: bool)
    | Int(i: int)
    | Str(s: string)
    | Array(items: seq<Value>)
    | Table(fields: map<string, Value>)

  /** A Python `dict` with string keys. */
  type Dict = map<string, Value>
}
