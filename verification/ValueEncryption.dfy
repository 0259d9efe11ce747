/**
 Encrypted attribute values: the value codec (internal/encryption/attribute_value_json.go), the envelope over an ideal
 AEAD (internal/encryption/service.go) and the item passes (query_executor.go encryptItem, decryptItem).
 */
module ValueEncryption {
  import opened Attributes
  import opened CursorCodec
  import Base64

  // ---- The value codec ----

  function Typed(tag: string): map<string, Json> {
    map["t" := JString(tag)]
  }

  /** A list field that `omitempty` drops when the list is empty. */
  function ListField(tag: string, name: string, js: seq<Json>): Json {
    JObject(if js == [] then Typed(tag) else Typed(tag)[name := JArray(js)])
  }

  function Elems(ss: StringSlice): seq<string> {
    match ss
    case NilSlice => []
    case Strings(elems) => elems
  }

  /** encodeAttributeValue: a tagged struct, written as JSON without its empty fields. */
  function EncodeValue(av: AttributeValue): Json {
    match av
    case S(s) => JObject(Typed("S")["s" := JString(s)])
    case N(n) => JObject(Typed("N")["n" := JString(n)])
    case B(b) => JObject(Typed("B")["b" := JString(Base64.Encode(b))])
    case BOOL(v) => JObject(Typed("BOOL")["bool" := JBool(v)])
    case NULL(_) => JObject(Typed("NULL")["null" := JBool(true)])
    case L(items) => ListField("L", "l", seq(|items|, i requires 0 <= i < |items| => EncodeValue(items[i])))
    case M(fields) =>
      JObject(if fields == map[] then Typed("M")
              else Typed("M")["m" := JObject(map k | k in fields :: EncodeValue(fields[k]))])
    case SS(ss) => ListField("SS", "ss", JStrings(Elems(ss)).items)
    case NS(ns) => ListField("NS", "ns", JStrings(Elems(ns)).items)
    case BS(bs) => ListField("BS", "bs", JBlobs(bs))
  }

  /** A field of the struct; an absent field and null leave it empty. */
  function Field(j: Json, name: string): (r: Option<Json>)
    requires j.JObject?
    ensures r.Some? ==> r.value < j
  {
    if name in j.fields && j.fields[name] != JNull then Some(j.fields[name]) else None
  }

  /** The elements of a list field, or None where it is no list. */
  function ListOf(j: Json, name: string): (r: Option<seq<Json>>)
    requires j.JObject?
    ensures r.Some? ==> forall i :: 0 <= i < |r.value| ==> r.value[i] < j
  {
    match Field(j, name)
    case None => Some([])
    case Some(list) => if list.JArray? then Some(list.items) else None
  }

  function Slice(ss: seq<string>): StringSlice {
    if ss == [] then NilSlice else Strings(ss)
  }

  function DecodeScalar(tag: string, j: Json): Option<AttributeValue>
    requires j.JObject?
  {
    if tag == "S" then
      match Field(j, "s")
      case None => Some(S(""))
      case Some(s) => if s.JString? then Some(S(s.s)) else None
    else if tag == "N" then
      match Field(j, "n")
      case None => Some(N("0"))
      case Some(n) => if n.JString? then Some(N(n.s)) else None
    else if tag == "B" then
      match Field(j, "b")
      case None => Some(B([]))
      case Some(b) => if b.JString? && Base64.Decode(b.s).Some? then Some(B(Base64.Decode(b.s).value)) else None
    else if tag == "BOOL" then
      match Field(j, "bool")
      case None => Some(BOOL(false))
      case Some(v) => if v.JBool? then Some(BOOL(v.b)) else None
    else if tag == "NULL" then Some(NULL(true))
    else None
  }

  function DecodeStrings(tag: string, j: Json): Option<AttributeValue>
    requires j.JObject?
  {
    if tag == "SS" then
      match ListOf(j, "ss")
      case None => None
      case Some(js) => if StringsFrom(js).Some? then Some(SS(Slice(StringsFrom(js).value))) else None
    else if tag == "NS" then
      match ListOf(j, "ns")
      case None => None
      case Some(js) => if StringsFrom(js).Some? then Some(NS(Slice(StringsFrom(js).value))) else None
    else if tag == "BS" then
      match ListOf(j, "bs")
      case None => None
      case Some(js) => if BlobsFrom(js).Some? then Some(BS(BlobsFrom(js).value)) else None
    else None
  }

  /** decodeAttributeValue: the tag says which field to read, and a missing one stands for an empty value. */
  function DecodeValue(j: Json): Option<AttributeValue>
    decreases j
  {
    if !j.JObject? || "t" !in j.fields || !j.fields["t"].JString? then None
    else
      var tag := j.fields["t"].s;
      if tag == "L" then
        match ListOf(j, "l")
        case None => None
        case Some(js) =>
          if exists i :: 0 <= i < |js| && DecodeValue(js[i]).None? then None
          else Some(L(seq(|js|, i requires 0 <= i < |js| => DecodeValue(js[i]).value)))
      else if tag == "M" then
        match Field(j, "m")
        case None => Some(M(map[]))
        case Some(m) => DecodeFields(m)
      else if tag == "SS" || tag == "NS" || tag == "BS" then DecodeStrings(tag, j)
      else DecodeScalar(tag, j)
  }

  function DecodeFields(m: Json): Option<AttributeValue>
    decreases m
  {
    if !m.JObject? || exists k :: k in m.fields && DecodeValue(m.fields[k]).None? then None
    else Some(M(map k | k in m.fields :: DecodeValue(m.fields[k]).value))
  }

  /** What survives the codec: NULL says true and an empty string or number set is a nil slice, at any depth. */
  function Canonical(av: AttributeValue): AttributeValue {
    match av
    case NULL(_) => NULL(true)
    case SS(ss) => SS(Slice(Elems(ss)))
    case NS(ns) => NS(Slice(Elems(ns)))
    case L(items) => L(seq(|items|, i requires 0 <= i < |items| => Canonical(items[i])))
    case M(fields) => M(map k | k in fields :: Canonical(fields[k]))
    case _ => av
  }

  predicate IsCanonical(av: AttributeValue) {
    match av
    case NULL(isNull) => isNull
    case SS(ss) => ss != Strings([])
    case NS(ns) => ns != Strings([])
    case L(items) => forall i :: 0 <= i < |items| ==> IsCanonical(items[i])
    case M(fields) => forall k :: k in fields ==> IsCanonical(fields[k])
    case _ => true
  }

  lemma {:induction false} CanonicalExact(av: AttributeValue)
    ensures Canonical(av) == av <==> IsCanonical(av)
    decreases av
  {
    match av
    case L(items) =>
      forall i | 0 <= i < |items| ensures Canonical(items[i]) == items[i] <==> IsCanonical(items[i]) {
        CanonicalExact(items[i]);
      }
      if Canonical(av) == av {
        forall i | 0 <= i < |items| ensures IsCanonical(items[i]) {
          assert Canonical(av).items[i] == items[i];
        }
      }
      if IsCanonical(av) {
        assert Canonical(av).items == items;
      }
    case M(fields) =>
      forall k | k in fields ensures Canonical(fields[k]) == fields[k] <==> IsCanonical(fields[k]) {
        CanonicalExact(fields[k]);
      }
      if Canonical(av) == av {
        forall k | k in fields ensures IsCanonical(fields[k]) {
          assert Canonical(av).fields[k] == fields[k];
        }
      }
      if IsCanonical(av) {
        assert Canonical(av).fields == fields;
      }
    case _ =>
  }

  lemma ListFieldBack(tag: string, name: string, js: seq<Json>)
    requires name != "t"
    ensures var j := ListField(tag, name, js);
            j.JObject? && "t" in j.fields && j.fields["t"] == JString(tag) && ListOf(j, name) == Some(js)
  {
  }

  lemma ListDecoded(items: seq<AttributeValue>)
    requires forall i :: 0 <= i < |items| ==> DecodeValue(EncodeValue(items[i])) == Some(Canonical(items[i]))
    ensures DecodeValue(EncodeValue(L(items))) == Some(Canonical(L(items)))
  {
    var js := seq(|items|, i requires 0 <= i < |items| => EncodeValue(items[i]));
    ListFieldBack("L", "l", js);
    assert forall i :: 0 <= i < |js| ==> DecodeValue(js[i]) == Some(Canonical(items[i]));
    assert DecodeValue(EncodeValue(L(items))).value.items == Canonical(L(items)).items;
  }

  lemma MapFieldBack(m: Json)
    requires m.JObject?
    ensures DecodeValue(JObject(Typed("M")["m" := m])) == DecodeFields(m)
  {
    var j := JObject(Typed("M")["m" := m]);
    assert j.fields["t"] == JString("M") && Field(j, "m") == Some(m);
  }

  lemma FieldsDecoded(fields: map<string, AttributeValue>, m: Json)
    requires forall k :: k in fields ==> DecodeValue(EncodeValue(fields[k])) == Some(Canonical(fields[k]))
    requires m == JObject(map k | k in fields :: EncodeValue(fields[k]))
    ensures DecodeFields(m) == Some(Canonical(M(fields)))
  {
    assert forall k :: k in m.fields ==> DecodeValue(m.fields[k]) == Some(Canonical(fields[k]));
    assert DecodeFields(m).value.fields == Canonical(M(fields)).fields;
  }

  lemma MapDecoded(fields: map<string, AttributeValue>)
    requires forall k :: k in fields ==> DecodeValue(EncodeValue(fields[k])) == Some(Canonical(fields[k]))
    ensures DecodeValue(EncodeValue(M(fields))) == Some(Canonical(M(fields)))
  {
    if fields == map[] {
      assert Canonical(M(fields)).fields == map[];
    } else {
      var m := JObject(map k | k in fields :: EncodeValue(fields[k]));
      MapFieldBack(m);
      FieldsDecoded(fields, m);
    }
  }

  lemma SetsDecoded(ss: StringSlice)
    ensures DecodeValue(EncodeValue(SS(ss))) == Some(SS(Slice(Elems(ss))))
    ensures DecodeValue(EncodeValue(NS(ss))) == Some(NS(Slice(Elems(ss))))
  {
    var js := JStrings(Elems(ss)).items;
    ListFieldBack("SS", "ss", js);
    ListFieldBack("NS", "ns", js);
    StringsBack(Elems(ss));
  }

  /**
   Decoding what was encoded gives the canonical value, however deep; the empty fields that were dropped come back.
   */
  lemma {:induction false} ValueRoundTrip(av: AttributeValue)
    ensures DecodeValue(EncodeValue(av)) == Some(Canonical(av))
    decreases av
  {
    match av
    case B(b) => Base64.RoundTrip(b);
    case L(items) =>
      forall i | 0 <= i < |items| ensures DecodeValue(EncodeValue(items[i])) == Some(Canonical(items[i])) {
        ValueRoundTrip(items[i]);
      }
      ListDecoded(items);
    case M(fields) =>
      forall k | k in fields ensures DecodeValue(EncodeValue(fields[k])) == Some(Canonical(fields[k])) {
        ValueRoundTrip(fields[k]);
      }
      MapDecoded(fields);
    case SS(ss) => SetsDecoded(ss);
    case NS(ns) => SetsDecoded(ns);
    case BS(bs) =>
      ListFieldBack("BS", "bs", JBlobs(bs));
      BlobsBack(bs);
    case _ =>
  }

  // ---- The envelope, over an ideal AEAD and key service ----

  /** AES-GCM on JSON texts, and KMS Decrypt. */
  datatype Crypto = Crypto(
    seal: (Bytes, Bytes, Json, string) -> Bytes,
    open: (Bytes, Bytes, Bytes, string) -> Option<Json>,
    unwrap: Bytes -> Option<Bytes>)

  /** A data key, its wrapped form and a nonce, as drawn for one encryption. */
  datatype Draw = Draw(key: Bytes, wrapped: Bytes, nonce: Bytes)

  /** What was sealed opens under the same additional data and under no other. */
  ghost predicate Ideal(c: Crypto) {
    forall key, nonce, plain, aad, aad' ::
      c.open(key, nonce, c.seal(key, nonce, plain, aad), aad') == if aad' == aad then Some(plain) else None
  }

  predicate Genuine(c: Crypto, d: Draw) {
    |d.key| == 32 && d.wrapped != [] && d.nonce != [] && c.unwrap(d.wrapped) == Some(d.key)
  }

  function Aad(attr: string): string {
    "dynamorm:encrypted:v1|attr=" + attr
  }

  lemma AadInjective(a: string, b: string)
    requires Aad(a) == Aad(b)
    ensures a == b
  {
    assert Aad(a)[|Aad("")|..] == a && Aad(b)[|Aad("")|..] == b;
  }

  datatype Envelope = Envelope(wrapped: Bytes, nonce: Bytes, ciphertext: Bytes)

  function EnvelopeValue(e: Envelope): AttributeValue {
    M(map["v" := N("1"), "edk" := B(e.wrapped), "nonce" := B(e.nonce), "ct" := B(e.ciphertext)])
  }

  function ParseEnvelope(av: AttributeValue): Option<Envelope> {
    if !av.M? then None
    else
      var f := av.fields;
      if "v" !in f || f["v"] != N("1") then None
      else if "edk" !in f || !f["edk"].B? || f["edk"].b == [] then None
      else if "nonce" !in f || !f["nonce"].B? || f["nonce"].b == [] then None
      else if "ct" !in f || !f["ct"].B? then None
      else Some(Envelope(f["edk"].b, f["nonce"].b, f["ct"].b))
  }

  /** An envelope reads back as written, when its wrapped key and nonce are not empty. */
  lemma EnvelopeBack(e: Envelope)
    ensures ParseEnvelope(EnvelopeValue(e)) == if e.wrapped != [] && e.nonce != [] then Some(e) else None
  {
    var f := EnvelopeValue(e).fields;
    assert f["v"] == N("1") && f["edk"] == B(e.wrapped) && f["nonce"] == B(e.nonce) && f["ct"] == B(e.ciphertext);
  }

  /** EncryptAttributeValue; no draw means that the key service or the random source failed. */
  function Encrypt(c: Crypto, draw: Option<Draw>, attr: string, av: AttributeValue): Result<AttributeValue> {
    if attr == "" || draw.None? then Err
    else
      var d := draw.value;
      if |d.key| != 32 || d.wrapped == [] then Err
      else Ok(EnvelopeValue(Envelope(d.wrapped, d.nonce, c.seal(d.key, d.nonce, EncodeValue(av), Aad(attr)))))
  }

  function Decrypt(c: Crypto, attr: string, av: AttributeValue): Result<AttributeValue> {
    if attr == "" then Err
    else
      match ParseEnvelope(av)
      case None => Err
      case Some(e) =>
        match c.unwrap(e.wrapped)
        case None => Err
        case Some(key) =>
          if |key| != 32 then Err
          else
            match c.open(key, e.nonce, e.ciphertext, Aad(attr))
            case None => Err
            case Some(plain) =>
              match DecodeValue(plain)
              case None => Err
              case Some(value) => Ok(value)
  }

  /** A value sealed for an attribute opens for that attribute, canonical, and for no other. */
  lemma SealedForAttribute(c: Crypto, d: Draw, attr: string, av: AttributeValue, other: string)
    requires Ideal(c) && Genuine(c, d) && attr != ""
    ensures Encrypt(c, Some(d), attr, av).Ok?
    ensures Decrypt(c, other, Encrypt(c, Some(d), attr, av).value) == if other == attr then Ok(Canonical(av)) else Err
  {
    var e := Envelope(d.wrapped, d.nonce, c.seal(d.key, d.nonce, EncodeValue(av), Aad(attr)));
    EnvelopeBack(e);
    ValueRoundTrip(av);
    if Aad(other) == Aad(attr) {
      AadInjective(other, attr);
    }
    assert c.open(d.key, d.nonce, e.ciphertext, Aad(other)) ==
           if Aad(other) == Aad(attr) then Some(EncodeValue(av)) else None;
  }

  // ---- Items ----

  datatype FieldMeta = FieldMeta(dbName: string, encrypted: bool)

  predicate DistinctNames(fields: seq<FieldMeta>) {
    forall i, j :: 0 <= i < j < |fields| ==> fields[i].dbName != fields[j].dbName
  }

  predicate IsEncrypted(fields: seq<FieldMeta>, attr: string) {
    exists i :: 0 <= i < |fields| && fields[i].encrypted && fields[i].dbName == attr
  }

  /** The value was sealed for this attribute by one genuine draw. */
  ghost predicate SealedAs(c: Crypto, attr: string, plain: AttributeValue, sealed: AttributeValue) {
    exists d :: Genuine(c, d) && Encrypt(c, Some(d), attr, plain) == Ok(sealed)
  }

  /** Each encrypted attribute has been sealed once, and every other one is as it was. */
  ghost predicate SealedItem(c: Crypto, fields: seq<FieldMeta>, plain: Item, sealed: Item) {
    && sealed.Keys == plain.Keys
    && forall a :: a in plain ==>
         if IsEncrypted(fields, a) then SealedAs(c, a, plain[a], sealed[a]) else sealed[a] == plain[a]
  }

  /** A call of the key service and random source: genuine, or a failure. */
  type Source = nat -> Option<Draw>

  ghost predicate GenuineSource(c: Crypto, source: Source) {
    forall n :: source(n).Some? ==> Genuine(c, source(n).value)
  }

  class ItemBox {
    var attrs: Item

    constructor (attrs: Item)
      ensures this.attrs == attrs
    {
      this.attrs := attrs;
    }
  }

  /** The key service and the random source answered, with a data key as asked for. */
  predicate Usable(draw: Option<Draw>) {
    draw.Some? && |draw.value.key| == 32 && draw.value.wrapped != []
  }

  /** No encryption the item needs fails. */
  predicate Sealable(source: Source, fields: seq<FieldMeta>, item: Item) {
    forall i :: 0 <= i < |fields| && fields[i].encrypted && fields[i].dbName in item ==>
      fields[i].dbName != "" && Usable(source(i))
  }

  predicate HasEncrypted(fields: seq<FieldMeta>) {
    exists i :: 0 <= i < |fields| && fields[i].encrypted
  }

  /** One field's turn: its attribute is replaced by what it is sealed to. */
  predicate Turned(c: Crypto, draw: Option<Draw>, f: FieldMeta, before: Item, after: Item) {
    if f.encrypted && f.dbName in before then
      var r := Encrypt(c, draw, f.dbName, before[f.dbName]);
      r.Ok? && after == before[f.dbName := r.value]
    else after == before
  }

  lemma EncryptedNext(fields: seq<FieldMeta>, i: nat, a: string)
    requires i < |fields|
    ensures IsEncrypted(fields[..i + 1], a) <==>
            IsEncrypted(fields[..i], a) || (fields[i].encrypted && fields[i].dbName == a)
  {
    var now, next := fields[..i], fields[..i + 1];
    if IsEncrypted(now, a) {
      var j :| 0 <= j < i && now[j].encrypted && now[j].dbName == a;
      assert next[j] == now[j];
    }
    if fields[i].encrypted && fields[i].dbName == a {
      assert next[i] == fields[i];
    }
    if IsEncrypted(next, a) {
      var j :| 0 <= j < i + 1 && next[j].encrypted && next[j].dbName == a;
      assert j < i ==> now[j] == next[j];
    }
  }

  lemma SealedNext(
    c: Crypto, draw: Option<Draw>, fields: seq<FieldMeta>, i: nat, plain: Item, before: Item, after: Item)
    requires i < |fields| && DistinctNames(fields) && SealedItem(c, fields[..i], plain, before)
    requires draw.Some? ==> Genuine(c, draw.value)
    requires Turned(c, draw, fields[i], before, after)
    ensures SealedItem(c, fields[..i + 1], plain, after)
  {
    forall a | a in plain
      ensures if IsEncrypted(fields[..i + 1], a) then SealedAs(c, a, plain[a], after[a]) else after[a] == plain[a]
    {
      EncryptedNext(fields, i, a);
      if a == fields[i].dbName {
        assert !IsEncrypted(fields[..i], a);
        if fields[i].encrypted {
          assert Genuine(c, draw.value) && Encrypt(c, Some(draw.value), a, plain[a]) == Ok(after[a]);
        }
      }
    }
  }

  ghost predicate SealedSoFar(c: Crypto, source: Source, fields: seq<FieldMeta>, i: nat, plain: Item, now: Item)
    requires i <= |fields|
  {
    DistinctNames(fields) && GenuineSource(c, source) ==> SealedItem(c, fields[..i], plain, now)
  }

  lemma TurnSeals(
    c: Crypto, source: Source, fields: seq<FieldMeta>, i: nat, plain: Item, before: Item, after: Item)
    requires i < |fields| && before.Keys == plain.Keys && Turned(c, source(i), fields[i], before, after)
    requires Sealable(source, fields[..i], plain) && SealedSoFar(c, source, fields, i, plain, before)
    ensures after.Keys == plain.Keys
    ensures Sealable(source, fields[..i + 1], plain) && SealedSoFar(c, source, fields, i + 1, plain, after)
  {
    assert fields[..i + 1] == fields[..i] + [fields[i]];
    if DistinctNames(fields) && GenuineSource(c, source) {
      SealedNext(c, source(i), fields, i, plain, before, after);
    }
  }

  method EncryptField(c: Crypto, draw: Option<Draw>, f: FieldMeta, box: ItemBox) returns (ok: bool)
    modifies box
    ensures ok <==> (f.encrypted && f.dbName in old(box.attrs) ==> f.dbName != "" && Usable(draw))
    ensures ok ==> Turned(c, draw, f, old(box.attrs), box.attrs)
  {
    if f.encrypted && f.dbName in box.attrs {
      var r := Encrypt(c, draw, f.dbName, box.attrs[f.dbName]);
      if r.Err? {
        return false;
      }
      box.attrs := box.attrs[f.dbName := r.value];
    }
    ok := true;
  }

  /**
   encryptItem rewrites the encrypted attributes in place, field by field. It fails exactly when there is something to
   encrypt and encryption is not configured, or one of the encryptions fails.
   */
  method EncryptItem(c: Crypto, source: Source, fields: seq<FieldMeta>, configured: bool, box: ItemBox)
    returns (ok: bool)
    modifies box
    ensures ok && DistinctNames(fields) && GenuineSource(c, source) ==> SealedItem(c, fields, old(box.attrs), box.attrs)
    ensures ok ==> box.attrs.Keys == old(box.attrs.Keys)
    ensures ok <==> (old(box.attrs) == map[] || !HasEncrypted(fields) || configured) &&
                    Sealable(source, fields, old(box.attrs))
  {
    if |box.attrs| == 0 || !HasEncrypted(fields) {
      return true;
    }
    if !configured {
      return false;
    }
    ghost var plain := box.attrs;
    var i := 0;
    while i < |fields|
      invariant 0 <= i <= |fields| && box.attrs.Keys == plain.Keys
      invariant Sealable(source, fields[..i], plain) && SealedSoFar(c, source, fields, i, plain, box.attrs)
    {
      ghost var before := box.attrs;
      ok := EncryptField(c, source(i), fields[i], box);
      if !ok {
        return;
      }
      TurnSeals(c, source, fields, i, plain, before, box.attrs);
      i := i + 1;
    }
    assert fields[..i] == fields;
    ok := true;
  }

  /** What decryptItem makes of an attribute. */
  function Opened(c: Crypto, fields: seq<FieldMeta>, attr: string, av: AttributeValue): Result<AttributeValue> {
    if IsEncrypted(fields, attr) then Decrypt(c, attr, av) else Ok(av)
  }

  /** decryptItem visits the attributes in any order and rewrites the encrypted ones in place. */
  method DecryptItem(c: Crypto, fields: seq<FieldMeta>, configured: bool, box: ItemBox) returns (ok: bool)
    modifies box
    ensures ok ==> box.attrs.Keys == old(box.attrs.Keys)
    ensures ok ==> forall a :: a in box.attrs ==> Opened(c, fields, a, old(box.attrs)[a]) == Ok(box.attrs[a])
    ensures configured ==> (ok <==> forall a :: a in old(box.attrs) ==> Opened(c, fields, a, old(box.attrs)[a]).Ok?)
  {
    if |box.attrs| == 0 || !HasEncrypted(fields) {
      return true;
    }
    if !configured {
      return false;
    }
    var todo := box.attrs.Keys;
    while todo != {}
      invariant todo <= box.attrs.Keys == old(box.attrs.Keys)
      invariant forall a :: a in box.attrs && a in todo ==> box.attrs[a] == old(box.attrs)[a]
      invariant forall a :: a in box.attrs && a !in todo ==> Opened(c, fields, a, old(box.attrs)[a]) == Ok(box.attrs[a])
    {
      var attr :| attr in todo;
      todo := todo - {attr};
      if IsEncrypted(fields, attr) {
        var r := Decrypt(c, attr, box.attrs[attr]);
        if r.Err? {
          assert Opened(c, fields, attr, old(box.attrs)[attr]).Err?;
          return false;
        }
        box.attrs := box.attrs[attr := r.value];
      }
    }
    ok := true;
  }

  function Restored(fields: seq<FieldMeta>, plain: Item): (item: Item)
    ensures item.Keys == plain.Keys
  {
    map a | a in plain :: if IsEncrypted(fields, a) then Canonical(plain[a]) else plain[a]
  }

  /**
   Writing an item and reading it back restores every encrypted attribute and touches no other. Writing succeeds when
   no encryption fails, and what was written is always read.
   */
  method StoreAndLoad(c: Crypto, source: Source, fields: seq<FieldMeta>, box: ItemBox)
    returns (stored: bool, loaded: bool)
    requires Ideal(c) && GenuineSource(c, source) && DistinctNames(fields)
    modifies box
    ensures stored <==> Sealable(source, fields, old(box.attrs))
    ensures stored ==> loaded && box.attrs == Restored(fields, old(box.attrs))
  {
    loaded := false;
    stored := EncryptItem(c, source, fields, true, box);
    if stored {
      ghost var sealed := box.attrs;
      OpensAgain(c, fields, old(box.attrs), sealed);
      loaded := DecryptItem(c, fields, true, box);
    }
  }

  /** Every attribute of a sealed item opens to what it was. */
  lemma OpensAgain(c: Crypto, fields: seq<FieldMeta>, plain: Item, sealed: Item)
    requires Ideal(c) && SealedItem(c, fields, plain, sealed)
    ensures forall a :: a in plain ==> Opened(c, fields, a, sealed[a]) == Ok(Restored(fields, plain)[a])
  {
    forall a | a in plain ensures Opened(c, fields, a, sealed[a]) == Ok(Restored(fields, plain)[a]) {
      if IsEncrypted(fields, a) {
        var d :| Genuine(c, d) && Encrypt(c, Some(d), a, plain[a]) == Ok(sealed[a]);
        SealedForAttribute(c, d, a, plain[a], a);
      }
    }
  }
}
