/** JSON values as JavaScript sees them after JSON.parse, and the one
    JavaScript operation the proxy applies to them: reading a property. */
module JsonValue {

  datatype Option<+T> = None | Some(value: T)

  /** The completion of a JavaScript evaluation: a value, or a thrown error
      whose `message` is what a `catch` block reads. Failure-compatible, so
      `:-` propagates a throw. */
  datatype Completion<+T> = Normal(value: T) | Throw(message: string) {
    predicate IsFailure() { Throw? }

    function PropagateFailure<U>(): Completion<U>
      requires Throw?
    {
      Throw(message)
    }

    function Extract(): T
      requires Normal?
    {
      value
    }
  }

  /** A JSON value. Numbers are mathematical reals (no IEEE rounding); an
      object keeps its members in insertion order (JavaScript itself lists
      integer-like keys first, which none of the objects built here have). */
  datatype Json =
    | JNull
    | JBool(b: bool)
    | JNum(n: real)
    | JStr(s: string)
    | JArr(items: seq<Json>)
    | JObj(fields: seq<(string, Json)>)

  /** The value bound to `key` in an object's members; the last binding wins,
      as it does for an object JSON.parse builds from duplicate keys. */
  function Lookup(fields: seq<(string, Json)>, key: string): (v: Option<Json>)
    ensures v.None? <==> forall i :: 0 <= i < |fields| ==> fields[i].0 != key
    ensures v.Some? ==> exists i :: 0 <= i < |fields| && fields[i] == (key, v.value)
                                    && forall j :: i < j < |fields| ==> fields[j].0 != key
  {
    if |fields| == 0 then None
    else if fields[|fields| - 1].0 == key then Some(fields[|fields| - 1].1)
    else Lookup(fields[..|fields| - 1], key)
  }

  /** The member `key` of a value: an object's binding, and nothing for
      every other kind of value. */
  function Member(j: Json, key: string): Option<Json> {
    if j.JObj? then Lookup(j.fields, key) else None
  }

  /** JavaScript truthiness of a parsed value: null, false, 0 and "" are
      falsy; every array and object, even an empty one, is truthy. */
  predicate Truthy(j: Json) {
    match j
    case JNull => false
    case JBool(b) => b
    case JNum(n) => n != 0.0
    case JStr(s) => s != ""
    case JArr(_) => true
    case JObj(_) => true
  }

  /** The message of the TypeError V8 throws for a property read on
      `undefined` or `null`. */
  function CannotRead(what: string, key: string): string {
    "Cannot read properties of " + what + " (reading '" + key + "')"
  }

  /** `base.key` where `base` is a JavaScript value (None is `undefined`).
      Reading from undefined or null throws; reading from an object yields
      its member or undefined; strings, numbers, booleans and arrays have
      none of the property names this program reads, so they yield
      undefined. */
  function Get(base: Option<Json>, key: string): (c: Completion<Option<Json>>)
    ensures c.Throw? <==> base.None? || base == Some(JNull)
    ensures base.None? ==> c == Throw(CannotRead("undefined", key))
    ensures base == Some(JNull) ==> c == Throw(CannotRead("null", key))
    ensures c.Normal? ==> c.value == Member(base.value, key)
  {
    match base
    case None => Throw(CannotRead("undefined", key))
    case Some(JNull) => Throw(CannotRead("null", key))
    case Some(JObj(fields)) => Normal(Lookup(fields, key))
    case Some(_) => Normal(None)
  }

  /** The members of an object literal whose values may be `undefined`, as
      JSON.stringify writes them: an undefined member is left out. */
  function Defined(props: seq<(string, Option<Json>)>): (fields: seq<(string, Json)>)
    requires DistinctKeys(props)
    ensures |fields| <= |props|
    ensures forall key :: Lookup(fields, key) == LookupProp(props, key)
  {
    if |props| == 0 then []
    else
      var last := props[|props| - 1];
      var earlier := props[..|props| - 1];
      var init := Defined(earlier);
      assert forall i :: 0 <= i < |earlier| ==> earlier[i].0 != last.0;
      if last.1.Some? then init + [(last.0, last.1.value)] else init
  }

  predicate DistinctKeys<T>(props: seq<(string, T)>) {
    forall i, j :: 0 <= i < j < |props| ==> props[i].0 != props[j].0
  }

  /** The value an object literal gives `key` (undefined when absent). */
  function LookupProp(props: seq<(string, Option<Json>)>, key: string): (v: Option<Json>)
    ensures (forall i :: 0 <= i < |props| ==> props[i].0 != key) ==> v.None?
  {
    if |props| == 0 then None
    else if props[|props| - 1].0 == key then props[|props| - 1].1
    else LookupProp(props[..|props| - 1], key)
  }

  /** JSON.parse, JSON.stringify and JSON.stringify(_, null, 2): library
      behaviour outside this model, passed in as functions. */
  datatype Codec = Codec(parse: string -> Option<Json>, stringify: Json -> string, pretty: Json -> string)
}
