/** The JSON-shaped values the editor stores as node configuration and the vector-store
    client sends and receives. Numbers are reals: float rounding is not modelled. */
module Json {

  datatype Json =
    | JNull
    | JBool(b: bool)
    | JNum(n: real)
    | JStr(s: string)
    | JArr(items: seq<Json>)
    | JObj(fields: map<string, Json>)

  /** The JSON array of numbers a vector is sent as. */
  function Numbers(values: seq<real>): (r: seq<Json>)
    ensures |r| == |values|
    ensures forall i :: 0 <= i < |values| ==> r[i] == JNum(values[i])
  {
    seq(|values|, i requires 0 <= i < |values| => JNum(values[i]))
  }
}
