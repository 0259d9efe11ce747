/** The pagination cursor's encoding of keys as JSON trees (pkg/query/cursor.go). */
module CursorCodec {
  import opened Attributes
  import Base64

  /** A JSON value (RFC 8259) as Go decodes it into `any`. */
  datatype Json =
    | JNull
    | JBool(b: bool)
    | JNumber(text: string)
    | JString(s: string)
    | JArray(items: seq<Json>)
    | JObject(fields: map<string, Json>)

  function Tagged(tag: string, j: Json): Json {
    JObject(map[tag := j])
  }

  function JStrings(ss: seq<string>): (j: Json)
    ensures j.JArray? && |j.items| == |ss| && forall i :: 0 <= i < |ss| ==> j.items[i] == JString(ss[i])
  {
    JArray(seq(|ss|, i requires 0 <= i < |ss| => JString(ss[i])))
  }

  /** A nil slice becomes null, an empty one an empty array. */
  function SliceJson(ss: StringSlice): Json {
    match ss
    case NilSlice => JNull
    case Strings(elems) => JStrings(elems)
  }

  function ToJson(av: AttributeValue): Json {
    match av
    case S(s) => Tagged("S", JString(s))
    case N(n) => Tagged("N", JString(n))
    case B(b) => Tagged("B", JString(Base64.Encode(b)))
    case BOOL(v) => Tagged("BOOL", JBool(v))
    case NULL(_) => Tagged("NULL", JBool(true))
    case L(items) => Tagged("L", JArray(seq(|items|, i requires 0 <= i < |items| => ToJson(items[i]))))
    case M(fields) => Tagged("M", JObject(map k | k in fields :: ToJson(fields[k])))
    case SS(ss) => Tagged("SS", SliceJson(ss))
    case NS(ns) => Tagged("NS", SliceJson(ns))
    case BS(bs) => Tagged("BS", JArray(JBlobs(bs)))
  }

  function StringsFrom(js: seq<Json>): Option<seq<string>> {
    if exists i :: 0 <= i < |js| && !js[i].JString? then None
    else Some(seq(|js|, i requires 0 <= i < |js| => js[i].s))
  }

  function BlobsFrom(js: seq<Json>): Option<seq<Bytes>> {
    if exists i :: 0 <= i < |js| && !(js[i].JString? && Base64.Decode(js[i].s).Some?) then None
    else Some(seq(|js|, i requires 0 <= i < |js| => Base64.Decode(js[i].s).value))
  }

  /** The one key of an attribute value's object. */
  function FromTag(tag: string, j: Json): Option<AttributeValue>
    decreases j
  {
    if tag == "S" then (if j.JString? then Some(S(j.s)) else None)
    else if tag == "N" then (if j.JString? then Some(N(j.s)) else None)
    else if tag == "B" then
      if j.JString? && Base64.Decode(j.s).Some? then Some(B(Base64.Decode(j.s).value)) else None
    else if tag == "BOOL" then (if j.JBool? then Some(BOOL(j.b)) else None)
    else if tag == "NULL" then Some(NULL(true))
    else if tag == "L" then
      if !j.JArray? || exists i :: 0 <= i < |j.items| && FromJson(j.items[i]).None? then None
      else Some(L(seq(|j.items|, i requires 0 <= i < |j.items| => FromJson(j.items[i]).value)))
    else if tag == "M" then
      if !j.JObject? || exists k :: k in j.fields && FromJson(j.fields[k]).None? then None
      else Some(M(map k | k in j.fields :: FromJson(j.fields[k]).value))
    else if tag == "SS" || tag == "NS" then
      if !j.JArray? then None
      else
        match StringsFrom(j.items)
        case None => None
        case Some(ss) => Some(if tag == "SS" then SS(Strings(ss)) else NS(Strings(ss)))
    else if tag == "BS" then
      if !j.JArray? then None
      else
        match BlobsFrom(j.items)
        case None => None
        case Some(bs) => Some(BS(bs))
    else None
  }

  function FromJson(j: Json): Option<AttributeValue>
    decreases j
  {
    if !j.JObject? then None
    else
      match TagOf(j.fields.Keys)
      case None => None
      case Some(tag) => if tag in j.fields then FromTag(tag, j.fields[tag]) else None
  }

  /** The tag an object has as its only key. */
  function TagOf(keys: set<string>): Option<string> {
    if keys == {"S"} then Some("S")
    else if keys == {"N"} then Some("N")
    else if keys == {"B"} then Some("B")
    else if keys == {"BOOL"} then Some("BOOL")
    else if keys == {"NULL"} then Some("NULL")
    else if keys == {"L"} then Some("L")
    else if keys == {"M"} then Some("M")
    else if keys == {"SS"} then Some("SS")
    else if keys == {"NS"} then Some("NS")
    else if keys == {"BS"} then Some("BS")
    else None
  }

  predicate IsTag(tag: string) {
    tag in {"S", "N", "B", "BOOL", "NULL", "L", "M", "SS", "NS", "BS"}
  }

  lemma TaggedBack(tag: string, j: Json)
    requires IsTag(tag)
    ensures FromJson(Tagged(tag, j)) == FromTag(tag, j)
  {
    assert map[tag := j].Keys == {tag};
    assert forall t: string :: {t} == {tag} ==> t in {tag};
  }

  /** Every NULL says true and no string or number set is a nil slice, at any depth. */
  predicate Lossless(av: AttributeValue) {
    match av
    case NULL(isNull) => isNull
    case SS(ss) => ss.Strings?
    case NS(ns) => ns.Strings?
    case L(items) => forall i :: 0 <= i < |items| ==> Lossless(items[i])
    case M(fields) => forall k :: k in fields ==> Lossless(fields[k])
    case _ => true
  }

  lemma StringsBack(ss: seq<string>)
    ensures StringsFrom(JStrings(ss).items) == Some(ss)
  {
    assert StringsFrom(JStrings(ss).items).value == ss;
  }

  function JBlobs(bs: seq<Bytes>): (js: seq<Json>)
    ensures |js| == |bs| && forall i :: 0 <= i < |bs| ==> js[i] == JString(Base64.Encode(bs[i]))
  {
    seq(|bs|, i requires 0 <= i < |bs| => JString(Base64.Encode(bs[i])))
  }

  lemma BlobsBack(bs: seq<Bytes>)
    ensures BlobsFrom(JBlobs(bs)) == Some(bs)
  {
    var js := JBlobs(bs);
    forall i | 0 <= i < |bs| ensures Base64.Decode(Base64.Encode(bs[i])) == Some(bs[i]) {
      Base64.RoundTrip(bs[i]);
    }
    assert forall i :: 0 <= i < |js| ==> Base64.Decode(js[i].s) == Some(bs[i]);
    assert BlobsFrom(js).value == bs;
  }

  lemma ListBack(items: seq<AttributeValue>)
    requires forall i :: 0 <= i < |items| ==> (FromJson(ToJson(items[i])) == Some(items[i]) <==> Lossless(items[i]))
    ensures FromJson(ToJson(L(items))) == Some(L(items)) <==> Lossless(L(items))
  {
    var j := JArray(seq(|items|, i requires 0 <= i < |items| => ToJson(items[i])));
    TaggedBack("L", j);
    if Lossless(L(items)) {
      assert forall i :: 0 <= i < |items| ==> FromJson(j.items[i]) == Some(items[i]);
      assert FromTag("L", j).value.items == items;
    } else {
      var i :| 0 <= i < |items| && !Lossless(items[i]);
      assert FromJson(j.items[i]) != Some(items[i]);
    }
  }

  lemma MapBack(fields: map<string, AttributeValue>)
    requires forall k :: k in fields ==> (FromJson(ToJson(fields[k])) == Some(fields[k]) <==> Lossless(fields[k]))
    ensures FromJson(ToJson(M(fields))) == Some(M(fields)) <==> Lossless(M(fields))
  {
    var j := JObject(map k | k in fields :: ToJson(fields[k]));
    TaggedBack("M", j);
    if Lossless(M(fields)) {
      FieldsBack(fields, j);
    } else {
      var k :| k in fields && !Lossless(fields[k]);
      assert FromJson(j.fields[k]) != Some(fields[k]);
    }
  }

  lemma FieldsBack(fields: map<string, AttributeValue>, j: Json)
    requires j.JObject? && j.fields.Keys == fields.Keys
    requires forall k :: k in fields ==> FromJson(j.fields[k]) == Some(fields[k])
    ensures FromTag("M", j) == Some(M(fields))
  {
    assert FromTag("M", j).value.fields == fields;
  }

  /** The codec restores a value, at any depth of nesting, if and only if it is lossless. */
  lemma {:induction false} RoundTripExact(av: AttributeValue)
    ensures FromJson(ToJson(av)) == Some(av) <==> Lossless(av)
    decreases av
  {
    match av
    case S(s) => TaggedBack("S", JString(s));
    case N(n) => TaggedBack("N", JString(n));
    case B(b) =>
      TaggedBack("B", JString(Base64.Encode(b)));
      Base64.RoundTrip(b);
    case BOOL(v) => TaggedBack("BOOL", JBool(v));
    case NULL(_) => TaggedBack("NULL", JBool(true));
    case SS(ss) =>
      TaggedBack("SS", SliceJson(ss));
      if ss.Strings? { StringsBack(ss.elems); }
    case NS(ns) =>
      TaggedBack("NS", SliceJson(ns));
      if ns.Strings? { StringsBack(ns.elems); }
    case BS(bs) =>
      TaggedBack("BS", JArray(JBlobs(bs)));
      BlobsBack(bs);
    case L(items) =>
      forall i | 0 <= i < |items| ensures FromJson(ToJson(items[i])) == Some(items[i]) <==> Lossless(items[i]) {
        RoundTripExact(items[i]);
      }
      ListBack(items);
    case M(fields) =>
      forall k | k in fields ensures FromJson(ToJson(fields[k])) == Some(fields[k]) <==> Lossless(fields[k]) {
        RoundTripExact(fields[k]);
      }
      MapBack(fields);
  }

  // ---- Cursors ----

  /** A cursor string: empty, or the Base64 form of this JSON tree's text (module CursorText). */
  datatype Cursor = NoCursor | Cursor(lastKey: map<string, Json>, index: string, sort: string)

  function EncodeCursor(key: Item, index: string, sort: string): Cursor {
    if |key| == 0 then NoCursor else Cursor(map k | k in key :: ToJson(key[k]), index, sort)
  }

  /** decodeCursor: the start key, None where decoding fails. An absent cursor decodes to no key at all. */
  function StartKey(c: Cursor): Option<Item> {
    match c
    case NoCursor => Some(map[])
    case Cursor(lastKey, _, _) =>
      if exists k :: k in lastKey && FromJson(lastKey[k]).None? then None
      else Some(map k | k in lastKey :: FromJson(lastKey[k]).value)
  }

  predicate LosslessKey(key: Item) {
    forall k :: k in key ==> Lossless(key[k])
  }

  /** What a cursor says besides the key: which index and which direction it was made for. */
  predicate MadeFor(c: Cursor, key: Item, index: string, sort: string) {
    if key == map[] then c == NoCursor else c.Cursor? && c.index == index && c.sort == sort
  }

  /** decode(encode(key)) == key exactly when every attribute of the key is lossless. */
  lemma CursorRoundTrip(key: Item, index: string, sort: string)
    ensures MadeFor(EncodeCursor(key, index, sort), key, index, sort)
    ensures StartKey(EncodeCursor(key, index, sort)) == Some(key) <==> LosslessKey(key)
  {
    forall k | k in key ensures FromJson(ToJson(key[k])) == Some(key[k]) <==> Lossless(key[k]) {
      RoundTripExact(key[k]);
    }
    if |key| == 0 {
      assert key == map[];
    } else {
      var c := EncodeCursor(key, index, sort);
      if LosslessKey(key) {
        assert forall k :: k in key ==> FromJson(c.lastKey[k]) == Some(key[k]);
        assert StartKey(c).value == key;
      } else {
        var k :| k in key && !Lossless(key[k]);
        assert FromJson(c.lastKey[k]) != Some(key[k]);
      }
    }
  }
}
