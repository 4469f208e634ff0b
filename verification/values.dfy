/** Payload values and messages. Payloads and metadata are JSON values
    (they are stored with json.dumps and read back with json.loads). */
module Values {
  import opened Base
  import Text

  /** A JSON value; an object keeps its fields in insertion order, as a
      Python `dict` does. */
  datatype Json =
    | JNull
    | JBool(b: bool)
    | JInt(i: int)
    | JStr(s: string)
    | JList(items: seq<Json>)
    | JObj(fields: seq<(string, Json)>)

  /** cascade_base.py `Message`: a lineage id, a payload and free-form metadata. */
  datatype Message = Message(cascadeId: string, payload: Json, metadata: map<string, Json>)

  /** Python truthiness of a JSON value. */
  predicate Truthy(v: Json) {
    match v
    case JNull => false
    case JBool(b) => b
    case JInt(i) => i != 0
    case JStr(s) => s != ""
    case JList(items) => items != []
    case JObj(fields) => fields != []
  }

  /** Python `int(v)` of a JSON value. */
  function PyInt(v: Json): (r: Result<int>)
    ensures v.JInt? ==> r == Ok(v.i)
    ensures v.JBool? ==> r == Ok(if v.b then 1 else 0)
    ensures r.Err? ==> r.error == (if v.JStr? then ValueError else TypeError)
    ensures v.JStr? ==> (r.Ok? <==> Text.ParseInt(v.s).Some?)
    ensures v.JStr? && r.Ok? ==> Text.ParseInt(v.s) == Some(r.value)
  {
    match v
    case JInt(i) => Ok(i)
    case JBool(b) => Ok(if b then 1 else 0)
    case JStr(s) =>
      (match Text.ParseInt(s)
       case Some(n) => Ok(n)
       case None => Err(ValueError))
    case _ => Err(TypeError)
  }

  /** The value of the first field named `key`, if any. */
  function Field(fields: seq<(string, Json)>, key: string): (r: Option<Json>)
    ensures r.Some? <==> exists k :: 0 <= k < |fields| && fields[k].0 == key
    ensures r.Some? ==> exists k ::
      && 0 <= k < |fields| && fields[k] == (key, r.value)
      && forall j :: 0 <= j < k ==> fields[j].0 != key
  {
    if fields == [] then None
    else if fields[0].0 == key then Some(fields[0].1)
    else
      var r := Field(fields[1..], key);
      assert forall k :: 0 <= k < |fields| - 1 ==> fields[1..][k] == fields[k + 1];
      assert r.Some? ==> exists k ::
        && 1 <= k < |fields| && fields[k] == (key, r.value)
        && forall j :: 0 <= j < k ==> fields[j].0 != key by {
        if r.Some? {
          var k :|
            && 0 <= k < |fields[1..]| && fields[1..][k] == (key, r.value)
            && forall j :: 0 <= j < k ==> fields[1..][j].0 != key;
          assert fields[k + 1] == (key, r.value);
        }
      }
      r
  }

  /** `d.get(key, default)`. */
  function GetOr(d: map<string, Json>, key: string, default: Json): Json {
    if key in d then d[key] else default
  }
}
