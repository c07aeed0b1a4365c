/**
 * The JSON values the pipeline loads and dumps, as Python sees them after
 * json.load: None, bool, int, str, list and dict with str keys.
 */
module Json {

  datatype Value =
    | Null
    | Bool(b: bool)
    | Int(i: int)
    | Str(s: string)
    | List(items: seq<Value>)
    | Dict(fields: map<string, Value>)

  /** Python truthiness of a loaded JSON value, as `if not v` tests it. */
  predicate Truthy(v: Value)
  {
    match v
    case Null => false
    case Bool(b) => b
    case Int(i) => i != 0
    case Str(s) => s != []
    case List(items) => items != []
    case Dict(fields) => fields != map[]
  }

  /** Whether Python can hash the value (a set member or a dict key): lists and dicts cannot. */
  predicate Hashable(v: Value)
  {
    !v.List? && !v.Dict?
  }

  /**
   * [k for k in keys if k not in present]: the keys an object (or the
   * columns a table) lacks, in the order asked.
   */
  function MissingKeys(present: set<string>, keys: seq<string>): (m: seq<string>)
    ensures forall k :: k in m <==> k in keys && k !in present
    ensures m == [] <==> forall k :: k in keys ==> k in present
    ensures |m| <= |keys|
  {
    if keys == [] then []
    else
      var rest := MissingKeys(present, keys[1..]);
      assert forall k :: k in keys <==> k == keys[0] || k in keys[1..];
      if keys[0] !in present then [keys[0]] + rest else rest
  }
}
