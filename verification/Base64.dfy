/** Base64 with padding (RFC 4648, section 4), as encoding/base64.StdEncoding encodes and decodes it. */
module Base64 {
  import opened Attributes

  type sextet = x: int | 0 <= x < 64

  function Symbol(v: sextet): char {
    if v < 26 then ('A' as int + v) as char
    else if v < 52 then ('a' as int + v - 26) as char
    else if v < 62 then ('0' as int + v - 52) as char
    else if v == 62 then '+'
    else '/'
  }

  function ValueOf(c: char): Option<sextet> {
    if 'A' <= c <= 'Z' then Some(c as int - 'A' as int)
    else if 'a' <= c <= 'z' then Some(c as int - 'a' as int + 26)
    else if '0' <= c <= '9' then Some(c as int - '0' as int + 52)
    else if c == '+' then Some(62)
    else if c == '/' then Some(63)
    else None
  }

  lemma SymbolValue(v: sextet)
    ensures ValueOf(Symbol(v)) == Some(v) && Symbol(v) != '=' && Symbol(v) != '\n' && Symbol(v) != '\r'
  {
  }

  /** Three bytes as four symbols; the last one or two bytes are padded with `=`. */
  function Encode(b: Bytes): (s: string)
    ensures |s| % 4 == 0
  {
    if |b| == 0 then ""
    else if |b| == 1 then [Symbol(b[0] / 4), Symbol(b[0] % 4 * 16), '=', '=']
    else if |b| == 2 then [Symbol(b[0] / 4), Symbol(b[0] % 4 * 16 + b[1] / 16), Symbol(b[1] % 16 * 4), '=']
    else
      [Symbol(b[0] / 4), Symbol(b[0] % 4 * 16 + b[1] / 16), Symbol(b[1] % 16 * 4 + b[2] / 64), Symbol(b[2] % 64)] +
      Encode(b[3..])
  }

  function First(v: sextet, w: sextet): byte {
    v * 4 + w / 16
  }

  function Second(w: sextet, x: sextet): byte {
    w % 16 * 16 + x / 4
  }

  function Third(x: sextet, y: sextet): byte {
    x % 4 * 64 + y
  }

  /** Line breaks are skipped, as the Go decoder does. */
  function Unbroken(s: string): string {
    if s == "" then ""
    else (if s[0] == '\n' || s[0] == '\r' then "" else [s[0]]) + Unbroken(s[1..])
  }

  function Decode(s: string): Option<Bytes> {
    DecodeUnbroken(Unbroken(s))
  }

  function DecodeUnbroken(s: string): Option<Bytes>
    decreases |s|
  {
    if s == "" then Some([])
    else if |s| < 4 then None
    else
      match (ValueOf(s[0]), ValueOf(s[1]))
      case (Some(v), Some(w)) =>
        if s[2] == '=' then
          if s[3] == '=' && |s| == 4 then Some([First(v, w)]) else None
        else
          (match ValueOf(s[2])
           case None => None
           case Some(x) =>
             if s[3] == '=' then
               if |s| == 4 then Some([First(v, w), Second(w, x)]) else None
             else
               match (ValueOf(s[3]), DecodeUnbroken(s[4..]))
               case (Some(y), Some(rest)) => Some([First(v, w), Second(w, x), Third(x, y)] + rest)
               case _ => None)
      case _ => None
  }

  /** Encoded text holds no line break and none of the characters the URL alphabet puts in. */
  lemma {:induction false} EncodedChars(b: Bytes)
    ensures forall i :: 0 <= i < |Encode(b)| ==> Encode(b)[i] !in {'-', '_', '\n', '\r'}
    decreases |b|
  {
    if |b| >= 3 {
      EncodedChars(b[3..]);
      forall i | 4 <= i < |Encode(b)| ensures Encode(b)[i] !in {'-', '_', '\n', '\r'} {
        assert Encode(b)[i] == Encode(b[3..])[i - 4];
      }
    }
  }

  lemma {:induction false} NoBreaks(s: string)
    requires forall i :: 0 <= i < |s| ==> s[i] != '\n' && s[i] != '\r'
    ensures Unbroken(s) == s
  {
    if s != "" {
      NoBreaks(s[1..]);
    }
  }

  lemma EncodeUnbroken(b: Bytes)
    ensures Unbroken(Encode(b)) == Encode(b)
  {
    EncodedChars(b);
    NoBreaks(Encode(b));
  }

  lemma TwoSymbols(v: sextet, w: sextet)
    ensures DecodeUnbroken([Symbol(v), Symbol(w), '=', '=']) == Some([First(v, w)])
  {
    SymbolValue(v);
    SymbolValue(w);
  }

  lemma ThreeSymbols(v: sextet, w: sextet, x: sextet)
    ensures DecodeUnbroken([Symbol(v), Symbol(w), Symbol(x), '=']) == Some([First(v, w), Second(w, x)])
  {
    SymbolValue(v);
    SymbolValue(w);
    SymbolValue(x);
  }

  lemma FourSymbols(v: sextet, w: sextet, x: sextet, y: sextet, rest: string)
    requires DecodeUnbroken(rest).Some?
    ensures DecodeUnbroken([Symbol(v), Symbol(w), Symbol(x), Symbol(y)] + rest) ==
            Some([First(v, w), Second(w, x), Third(x, y)] + DecodeUnbroken(rest).value)
  {
    SymbolValue(v);
    SymbolValue(w);
    SymbolValue(x);
    SymbolValue(y);
    var s := [Symbol(v), Symbol(w), Symbol(x), Symbol(y)] + rest;
    assert s[4..] == rest;
  }

  lemma FirstBack(a: byte, b: byte)
    ensures First(a / 4, a % 4 * 16 + b / 16) == a
  {
    assert (a % 4 * 16 + b / 16) / 16 == a % 4;
  }

  lemma SecondBack(a: byte, b: byte, c: byte)
    ensures Second(a % 4 * 16 + b / 16, b % 16 * 4 + c / 64) == b
  {
    assert (a % 4 * 16 + b / 16) % 16 == b / 16;
    assert (b % 16 * 4 + c / 64) / 4 == b % 16;
  }

  lemma ThirdBack(b: byte, c: byte)
    ensures Third(b % 16 * 4 + c / 64, c % 64) == c
  {
    assert (b % 16 * 4 + c / 64) % 4 == c / 64;
  }

  lemma ThreeBytes(a: byte, b: byte, c: byte, rest: string)
    requires DecodeUnbroken(rest).Some?
    ensures DecodeUnbroken(
              [Symbol(a / 4), Symbol(a % 4 * 16 + b / 16), Symbol(b % 16 * 4 + c / 64), Symbol(c % 64)] + rest) ==
            Some([a, b, c] + DecodeUnbroken(rest).value)
  {
    FourSymbols(a / 4, a % 4 * 16 + b / 16, b % 16 * 4 + c / 64, c % 64, rest);
    FirstBack(a, b);
    SecondBack(a, b, c);
    ThirdBack(b, c);
  }

  lemma TwoBytes(a: byte, b: byte)
    ensures DecodeUnbroken([Symbol(a / 4), Symbol(a % 4 * 16 + b / 16), Symbol(b % 16 * 4), '=']) == Some([a, b])
  {
    ThreeSymbols(a / 4, a % 4 * 16 + b / 16, b % 16 * 4);
    FirstBack(a, b);
    SecondBack(a, b, 0);
  }

  lemma OneByte(a: byte)
    ensures DecodeUnbroken([Symbol(a / 4), Symbol(a % 4 * 16), '=', '=']) == Some([a])
  {
    TwoSymbols(a / 4, a % 4 * 16);
    FirstBack(a, 0);
  }

  lemma {:induction false} Decoded(b: Bytes)
    ensures DecodeUnbroken(Encode(b)) == Some(b)
    decreases |b|
  {
    if |b| >= 3 {
      Decoded(b[3..]);
      ThreeBytes(b[0], b[1], b[2], Encode(b[3..]));
      assert b == [b[0], b[1], b[2]] + b[3..];
    } else if |b| == 2 {
      TwoBytes(b[0], b[1]);
      assert b == [b[0], b[1]];
    } else if |b| == 1 {
      OneByte(b[0]);
      assert b == [b[0]];
    }
  }

  /** Decoding undoes encoding, for every byte string. */
  lemma RoundTrip(b: Bytes)
    ensures Decode(Encode(b)) == Some(b)
  {
    EncodeUnbroken(b);
    Decoded(b);
  }

  /** The test vectors of section 10 of RFC 4648. */
  lemma Vectors()
    ensures Encode([102]) == "Zg==" && Encode([102, 111]) == "Zm8=" && Encode([102, 111, 111]) == "Zm9v"
    ensures Encode([102, 111, 111, 98, 97, 114]) == "Zm9vYmFy"
  {
    assert [102, 111, 111, 98, 97, 114][3..] == [98, 97, 114];
    assert [102, 111, 111][3..] == [] && [98, 97, 114][3..] == [];
    assert Encode([98, 97, 114]) == "YmFy";
    assert "Zm9v" + "YmFy" == "Zm9vYmFy";
  }

  /** Bytes whose symbols are digits and signs. */
  lemma SignVectors()
    ensures Encode([211, 93, 183]) == "0123" && Encode([251, 239, 255]) == "++//"
  {
    assert [211, 93, 183][3..] == [] && [251, 239, 255][3..] == [];
  }

  // ---- The URL alphabet (RFC 4648, section 5) ----

  function UrlChar(c: char): char {
    if c == '+' then '-' else if c == '/' then '_' else c
  }

  function PlainChar(c: char): char {
    if c == '-' then '+' else if c == '_' then '/' else c
  }

  function Mapped(s: string, f: char -> char): (m: string)
    ensures |m| == |s|
    ensures forall i :: 0 <= i < |s| ==> m[i] == f(s[i])
  {
    seq(|s|, i requires 0 <= i < |s| => f(s[i]))
  }

  /** base64.URLEncoding. */
  function EncodeUrl(b: Bytes): string {
    Mapped(Encode(b), UrlChar)
  }

  function DecodeUrl(s: string): Option<Bytes> {
    if '+' in s || '/' in s then None else Decode(Mapped(s, PlainChar))
  }

  lemma UrlRoundTrip(b: Bytes)
    ensures DecodeUrl(EncodeUrl(b)) == Some(b)
  {
    EncodedChars(b);
    assert Mapped(EncodeUrl(b), PlainChar) == Encode(b);
    RoundTrip(b);
  }
}
