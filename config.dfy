/** The parsed YAML configuration as the loader hands it over: nested values with string keys. */
module Config {
  import opened Wrappers

  datatype Value =
    | Null
    | Bool(b: bool)
    | Int(i: int)
    | Real(r: real)
    | Str(s: string)
    | List(items: seq<Value>)
    | Mapping(entries: map<string, Value>)

  /** `block[key]` on a parsed value: present only when `block` is a mapping that has `key`. */
  function Lookup(block: Value, key: string): (r: Option<Value>)
    ensures r.Some? <==> block.Mapping? && key in block.entries
    ensures r.Some? ==> r.value == block.entries[key]
  {
    if block.Mapping? && key in block.entries then Some(block.entries[key]) else None
  }
}
