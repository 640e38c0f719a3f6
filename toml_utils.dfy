/** src/utils/toml_utils.py: the nested-key getter. Reading and parsing the file is
    not modelled; `Get` takes the parsed document. */
module TomlUtils {
  import opened Wrappers
  import opened Values

  /** The value reached by following `keys` from `data`, or `None` as soon as a key is
      missing or the current value is not a table. */
  function Lookup(data: Value, keys: seq<string>): Option<Value>
    decreases |keys|
  {
    if keys == [] then Some(data)
    else if data.Table? && keys[0] in data.fields then Lookup(data.fields[keys[0]], keys[1..])
    else None
  }

  /** `ToMlUtils.get(file_path, *keys, default=None)` on the loaded `config`. */
  method Get(config: Value, keys: seq<string>, default: Value := Null) returns (r: Value)
    ensures r == Lookup(config, keys).GetOr(default)
    ensures keys == [] ==> r == config
  {
    var data := config;
    for i := 0 to |keys|
      invariant Lookup(config, keys) == Lookup(data, keys[i..])
    {
      if data.Table? && keys[i] in data.fields {
        data := data.fields[keys[i]];
      } else {
        return default;
      }
    }
    return data;
  }

  /** Looking up a path in two parts is looking up the second part from the result of
      the first. */
  lemma {:induction false} LookupAppend(data: Value, prefix: seq<string>, suffix: seq<string>)
    ensures Lookup(data, prefix + suffix)
            == match Lookup(data, prefix)
               case None => None
               case Some(v) => Lookup(v, suffix)
    decreases |prefix|
  {
    if prefix == [] {
      assert prefix + suffix == suffix;
    } else {
      assert (prefix + suffix)[0] == prefix[0];
      assert (prefix + suffix)[1..] == prefix[1..] + suffix;
      if data.Table? && prefix[0] in data.fields {
        LookupAppend(data.fields[prefix[0]], prefix[1..], suffix);
      }
    }
  }

  /** Once a lookup fails, every longer path fails too. */
  lemma {:induction false} LookupMissingExtends(data: Value, prefix: seq<string>, suffix: seq<string>)
    requires Lookup(data, prefix).None?
    ensures Lookup(data, prefix + suffix).None?
  {
    LookupAppend(data, prefix, suffix);
  }
}
