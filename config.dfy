/** The configuration tree loaded from YAML: nested dictionaries of scalars.
    `VNone` is Python's `None`, which is distinct from a missing key. */
module Config {
  import opened Wrappers
  import opened Files

  datatype Value =
    | VNone
    | VBool(b: bool)
    | VInt(i: int)
    | VStr(s: string)
    | VBytes(bytes: seq<byte>)
    | VMap(m: map<string, Value>)

  /** `d.get(key, None) is None` for a dictionary `d`. */
  predicate MissingOrNone(d: map<string, Value>, key: string)
  {
    key !in d || d[key] == VNone
  }

  /** Python truthiness of a configuration value. */
  predicate Truthy(v: Value)
  {
    match v
    case VNone => false
    case VBool(b) => b
    case VInt(i) => i != 0
    case VStr(s) => s != []
    case VBytes(bs) => bs != []
    case VMap(m) => m != map[]
  }

  /** `config[a][b]`: a `KeyError` or `TypeError` becomes `None`. */
  function Lookup2(config: map<string, Value>, a: string, b: string): (r: Option<Value>)
    ensures r.Some? <==> a in config && config[a].VMap? && b in config[a].m
    ensures r.Some? ==> r.value == config[a].m[b]
  {
    if a in config && config[a].VMap? && b in config[a].m then Some(config[a].m[b]) else None
  }
}
