/** The values `json.loads` produces, as far as the debate driver inspects them. */
module JsonValues {
  import opened Wrappers

  /** A decoded JSON value. A Python dict compares without regard to key order,
      which a Dafny map gives for free. */
  datatype Json =
    | Null
    | Bool(b: bool)
    | Num(n: int)
    | Str(s: string)
    | Arr(items: seq<Json>)
    | Obj(fields: map<string, Json>)

  /** `json.loads`: a partial decoder, `None` where it raises. Its parsing is not modelled. */
  type Decoder = string -> Option<Json>

  /** `str(v)` for values that are not strings (numbers, lists, dicts); not modelled. */
  type Render = Json -> string

  /** `v[key]`: defined on a dict that has the key; `None` where Python raises
      (KeyError on a dict without it, TypeError on any other value). */
  function Field(v: Json, key: string): Option<Json>
  {
    if v.Obj? && key in v.fields then Some(v.fields[key]) else None
  }

  /** `str(v)`: a string is itself, anything else goes through `render`. */
  function PyStr(v: Json, render: Render): string
  {
    if v.Str? then v.s else render(v)
  }
}
