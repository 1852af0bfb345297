/** The values `JSON.parse` produces (RFC 8259), as the rest of the core inspects them.
    The parser itself is not modelled: callers receive it as a function value of type
    `string -> ParseResult`. */
module Json {
  import opened Basics

  /** A parsed JSON value. A number carries the text JavaScript's `String(n)` gives for it. */
  datatype Value =
    | JNull
    | JBool(b: bool)
    | JNumber(text: string)
    | JString(s: string)
    | JArray(items: seq<Value>)
    | JObject(members: seq<(string, Value)>)

  /** The outcome of `JSON.parse`: a value, or the SyntaxError it throws. */
  datatype ParseResult = Parsed(value: Value) | SyntaxError

  /** Property access `v.key`: the last member with that name (JSON.parse keeps the last
      duplicate); `undefined` for a missing member and for a value that is not an object. */
  function Get(v: Value, key: string): (r: Option<Value>)
    ensures r.Some? ==> v.JObject? && exists i :: 0 <= i < |v.members| && v.members[i] == (key, r.value)
    ensures v.JObject? && (exists i :: 0 <= i < |v.members| && v.members[i].0 == key) ==> r.Some?
  {
    if v.JObject? then Lookup(v.members, key) else None
  }

  function Lookup(members: seq<(string, Value)>, key: string): (r: Option<Value>)
    ensures r.Some? ==> exists i :: 0 <= i < |members| && members[i] == (key, r.value)
    ensures (exists i :: 0 <= i < |members| && members[i].0 == key) ==> r.Some?
  {
    if members == [] then None
    else if members[|members| - 1].0 == key then Some(members[|members| - 1].1)
    else
      var r := Lookup(members[..|members| - 1], key);
      assert forall i :: 0 <= i < |members| - 1 ==> members[..|members| - 1][i] == members[i];
      r
  }

  /** JavaScript truthiness of a property read: `undefined`, `null`, `false`, `0` and `""` are falsy. */
  predicate Truthy(v: Option<Value>) {
    match v
    case None => false
    case Some(JNull) => false
    case Some(JBool(b)) => b
    case Some(JNumber(t)) => t != "0" && t != "NaN"
    case Some(JString(s)) => s != ""
    case Some(_) => true
  }
}
