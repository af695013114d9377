/** QJsonValue and QJsonObject, as far as the settings store uses them. */
module Json {

  type Members = map<string, Json>

  type Path = seq<string>

  datatype Json =
    | Null
    | Bool(b: bool)
    | Double(d: real)
    | String(s: string)
    | Array(elements: seq<Json>)
    | Object(members: Members)

  /** A QJsonValue: a JSON value or Undefined. Undefined can never sit inside an object. */
  datatype Value = Undefined | Defined(json: Json)
  {
    predicate IsObject() {
      Defined? && json.Object?
    }

    /** QJsonValue::toObject: the empty object for everything that is not an object. */
    function ToObject(): Members {
      if IsObject() then json.members else map[]
    }
  }

  function Get(m: Members, key: string): Value {
    if key in m then Defined(m[key]) else Undefined
  }

  /** QJsonObject::insert: inserting Undefined removes the key. */
  function Insert(m: Members, key: string, v: Value): Members {
    match v
    case Undefined => m - {key}
    case Defined(j) => m[key := j]
  }

  function Child(v: Value, key: string): Value {
    Get(v.ToObject(), key)
  }

  /** The value found by walking down a path. */
  function At(v: Value, path: Path): Value
    decreases path
  {
    if path == [] then v else At(Child(v, path[0]), path[1..])
  }

  /** The value obtained by storing w at a path, building parent objects on the way. */
  function Put(v: Value, path: Path, w: Value): Value
    decreases path
  {
    if path == [] then w
    else Defined(Object(Insert(v.ToObject(), path[0], Put(Child(v, path[0]), path[1..], w))))
  }
}
