/**
 The cursor as the string a caller is given: the Base64 form, in the URL alphabet, of a JSON text
 (pkg/query/cursor.go).
 */
module CursorText {
  import opened Attributes
  import opened CursorCodec
  import Base64

  /** encoding/json: how a JSON value is written as bytes and read back. */
  datatype JsonCodec = JsonCodec(marshal: Json -> Bytes, unmarshal: Bytes -> Option<Json>)

  /** What is written is read back. */
  ghost predicate Faithful(codec: JsonCodec) {
    forall j :: codec.marshal(j) != [] && codec.unmarshal(codec.marshal(j)) == Some(j)
  }

  /** The cursor struct as JSON; an empty index or sort direction is left out. */
  function CursorJson(lastKey: map<string, Json>, index: string, sort: string): Json {
    JObject(map["lastKey" := JObject(lastKey)]
            + (if index == "" then map[] else map["index" := JString(index)])
            + (if sort == "" then map[] else map["sort" := JString(sort)]))
  }

  /** A string field of the struct: absent and null leave it empty. */
  function StringField(fields: map<string, Json>, name: string): Option<string> {
    if name !in fields || fields[name].JNull? then Some("")
    else if fields[name].JString? then Some(fields[name].s)
    else None
  }

  function KeyField(fields: map<string, Json>): Option<map<string, Json>> {
    if "lastKey" !in fields || fields["lastKey"].JNull? then Some(map[])
    else if fields["lastKey"].JObject? then Some(fields["lastKey"].fields)
    else None
  }

  function FromCursorJson(j: Json): Option<Cursor> {
    if j.JNull? then Some(Cursor(map[], "", ""))
    else if !j.JObject? then None
    else
      match (KeyField(j.fields), StringField(j.fields, "index"), StringField(j.fields, "sort"))
      case (Some(key), Some(index), Some(sort)) => Some(Cursor(key, index, sort))
      case _ => None
  }

  function EncodeText(codec: JsonCodec, key: Item, index: string, sort: string): string {
    match EncodeCursor(key, index, sort)
    case NoCursor => ""
    case Cursor(lastKey, i, s) => Base64.EncodeUrl(codec.marshal(CursorJson(lastKey, i, s)))
  }

  /** DecodeCursor: an empty string is no cursor. */
  function DecodeText(codec: JsonCodec, text: string): Option<Cursor> {
    if text == "" then Some(NoCursor)
    else
      match Base64.DecodeUrl(text)
      case None => None
      case Some(data) =>
        match codec.unmarshal(data)
        case None => None
        case Some(j) => FromCursorJson(j)
  }

  lemma FieldsBack(lastKey: map<string, Json>, index: string, sort: string)
    ensures FromCursorJson(CursorJson(lastKey, index, sort)) == Some(Cursor(lastKey, index, sort))
  {
    assert "lastKey" != "index" && "lastKey" != "sort" && "index" != "sort";
  }

  lemma EncodedNonempty(b: Bytes)
    requires b != []
    ensures Base64.EncodeUrl(b) != ""
  {
    assert |Base64.Encode(b)| >= 4;
  }

  /** The string given to a caller decodes to the cursor it was made from. */
  lemma CursorBack(codec: JsonCodec, key: Item, index: string, sort: string)
    requires Faithful(codec)
    ensures DecodeText(codec, EncodeText(codec, key, index, sort)) == Some(EncodeCursor(key, index, sort))
  {
    match EncodeCursor(key, index, sort)
    case NoCursor =>
    case Cursor(lastKey, i, s) =>
      var data := codec.marshal(CursorJson(lastKey, i, s));
      EncodedNonempty(data);
      Base64.UrlRoundTrip(data);
      FieldsBack(lastKey, i, s);
  }

  /**
   Through the string, index and direction come back, and the key does exactly when every attribute of it is lossless.
   */
  lemma TextRoundTrip(codec: JsonCodec, key: Item, index: string, sort: string)
    requires Faithful(codec)
    ensures var c := DecodeText(codec, EncodeText(codec, key, index, sort));
            && c.Some? && MadeFor(c.value, key, index, sort)
            && (StartKey(c.value) == Some(key) <==> LosslessKey(key))
  {
    CursorBack(codec, key, index, sort);
    CursorRoundTrip(key, index, sort);
  }
}
