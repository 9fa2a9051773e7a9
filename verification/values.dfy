/**
 * Document field values as the client SDK hands them to the application, the
 * JavaScript truthiness tests the components apply to them, and the
 * `{ id: doc.id, ...doc.data() }` record every reader builds.
 */
module Values {
  import opened Wrappers

  /** A JavaScript number: a finite value, an infinity, or `NaN`. */
  datatype Number = Finite(x: real) | PosInfinity | NegInfinity | NaN

  datatype Value =
    | Str(s: string)
    | Num(n: Number)
    | Bool(b: bool)
    | Null
    | List(elements: seq<Value>)
    | Object(properties: map<string, Value>)
      /** Timestamps, geopoints and references: objects, hence truthy, with no property the app reads. */
    | Opaque

  /** The fields of one stored document, or one record built from it. */
  type Fields = map<string, Value>

  /** A document as a query returns it: the store-assigned id and the stored fields. */
  datatype Doc = Doc(id: string, data: Fields)

  /** `obj[key]`, where a missing key reads as `undefined` (`None`). */
  function Field(obj: Fields, key: string): (r: Option<Value>)
    ensures r.Some? <==> key in obj
    ensures r.Some? ==> r.value == obj[key]
  {
    if key in obj then Some(obj[key]) else None
  }

  /**
   * `v.key` on any value that is not `null`/`undefined`: only plain objects
   * carry named properties; on strings, numbers, arrays and the opaque kinds it
   * reads `undefined`. (Reading a property of `null`/`undefined` throws; every
   * caller guards that with a truthiness test first.)
   */
  function Property(v: Option<Value>, key: string): (r: Option<Value>)
    ensures r.Some? ==> v.Some? && v.value.Object? && key in v.value.properties
  {
    match v
    case Some(Object(props)) => Field(props, key)
    case _ => None
  }

  /** JavaScript truthiness of a value; `undefined` is falsy. */
  predicate Truthy(v: Option<Value>) {
    match v
    case None => false
    case Some(Str(s)) => s != ""
    case Some(Num(n)) => n != Finite(0.0) && !n.NaN?
    case Some(Bool(b)) => b
    case Some(Null) => false
    case Some(_) => true
  }

  /**
   * `{ id: id, ...data }`: an object literal whose spread comes after `id`, so a
   * stored field that is itself called "id" replaces the document id.
   */
  function WithId(id: string, data: Fields): (r: Fields)
    ensures r.Keys == data.Keys + {"id"}
    ensures forall k :: k in data ==> r[k] == data[k]
    ensures "id" !in data ==> r["id"] == Str(id)
  {
    map["id" := Str(id)] + data
  }

  /** The record a reader builds from a document snapshot. */
  function Record(d: Doc): (r: Fields)
    ensures r.Keys == d.data.Keys + {"id"}
  {
    WithId(d.id, d.data)
  }
}
