/** The values `json.Unmarshal` produces into an `interface{}`: the tagged
    variant the flattening dispatches on. */
module JsonValues {

  /** A decoded JSON value. Numbers are Go `float64`s; only their type name is
      ever displayed, so their value is kept as a `real`. */
  datatype Json =
    | Str(s: string)
    | Num(n: real)
    | Bool(b: bool)
    | Null
    | Arr(items: seq<Json>)
    | Obj(fields: map<string, Json>)

  /** `fmt.Sprintf("%s", reflect.TypeOf(v))` for each kind of decoded value;
      JSON `null` decodes to a nil interface, whose type prints as the `%!s`
      error form. */
  function TypeName(v: Json): (name: string)
    ensures name != ""
    ensures v.Str? <==> name == "string"
  {
    match v
    case Str(_) => "string"
    case Num(_) => "float64"
    case Bool(_) => "bool"
    case Null => "%!s(<nil>)"
    case Arr(_) => "[]interface {}"
    case Obj(_) => "map[string]interface {}"
  }

  /** The values the flattening expands into a table of their own. */
  predicate IsNested(v: Json)
  {
    v.Arr? || v.Obj?
  }

  /** `x` sits directly inside `parent`: an array item or an object member. */
  predicate IsChild(x: Json, parent: Json)
  {
    match parent
    case Arr(items) => x in items
    case Obj(fields) => x in fields.Values
    case _ => false
  }
}
