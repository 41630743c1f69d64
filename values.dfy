/** The shape of the decoded request arguments the observer inspects: PHP values as produced by
    `json_decode(..., true)`. An array is an ordered list of entries with integer or string keys;
    `foreach ($a as $v)` visits the values in order. */
module Values {

  datatype ArrayKey = IntKey(i: int) | StrKey(s: string)

  datatype Value =
    | Null
    | Bool(b: bool)
    | Number(n: int)
    | Str(s: string)
    | Array(entries: seq<(ArrayKey, Value)>)

  /** The values of an array's entries, in order. */
  function Items(entries: seq<(ArrayKey, Value)>): (r: seq<Value>)
    ensures |r| == |entries|
    ensures forall i :: 0 <= i < |entries| ==> r[i] == entries[i].1
  {
    if entries == [] then [] else [entries[0].1] + Items(entries[1..])
  }
}
