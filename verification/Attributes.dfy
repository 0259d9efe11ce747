/** DynamoDB attribute values, as the SDK's AttributeValueMember types carry them. */
module Attributes {

  type byte = x: int | 0 <= x < 256

  type Bytes = seq<byte>

  /** A Go string slice. JSON and `append` tell nil and empty slices apart, so the model does. */
  datatype StringSlice = NilSlice | Strings(elems: seq<string>)

  datatype AttributeValue =
    | S(s: string)
    | N(n: string)
    | B(b: Bytes)
    | BOOL(v: bool)
    | NULL(isNull: bool)
    | L(items: seq<AttributeValue>)
    | M(fields: map<string, AttributeValue>)
    | SS(strings: StringSlice)
    | NS(numbers: StringSlice)
    | BS(blobs: seq<Bytes>)

  datatype Option<+T> = None | Some(value: T)

  datatype Result<+T> = Ok(value: T) | Err

  type Item = map<string, AttributeValue>

  /** ExpressionAttributeNames and ExpressionAttributeValues: what the placeholders of a request stand for. */
  type Names = map<string, string>
  type Values = map<string, AttributeValue>

  /** A caller's Go value: one the converter turns into an attribute value, a slice of values, or one it rejects. */
  datatype GoValue =
    | Scalar(av: AttributeValue)
    | Slice(boxed: bool, elems: seq<GoValue>)  // boxed: a []any rather than a []string or []int
    | Unconvertible

  function Convert(v: GoValue): Result<AttributeValue> {
    match v
    case Scalar(av) => Ok(av)
    case Unconvertible => Err
    case Slice(_, elems) =>
      (match ConvertAll(elems)
       case Ok(avs) => Ok(L(avs))
       case Err => Err)
  }

  function ConvertAll(vs: seq<GoValue>): (r: Result<seq<AttributeValue>>)
    ensures r.Ok? ==> |r.value| == |vs|
    ensures r.Ok? ==> forall i :: 0 <= i < |vs| ==> Convert(vs[i]) == Ok(r.value[i])
    ensures r.Err? ==> exists i :: 0 <= i < |vs| && Convert(vs[i]).Err?
  {
    if vs == [] then Ok([])
    else
      match Convert(vs[0])
      case Err => Err
      case Ok(av) =>
        match ConvertAll(vs[1..])
        case Err =>
          var i :| 0 <= i < |vs| - 1 && Convert(vs[1..][i]).Err?;
          assert Convert(vs[i + 1]).Err?;
          Err
        case Ok(avs) => Ok([av] + avs)
  }
}
