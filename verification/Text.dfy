/** The parts of Go's `strings` and `strconv` packages that the expression code relies on, over ASCII text. */
module Text {

  predicate IsSpace(c: char) {
    c == ' ' || c == '\t' || c == '\n' || c == '\r' || c == '\U{b}' || c == '\U{c}'
  }

  predicate IsDigit(c: char) {
    '0' <= c <= '9'
  }

  /** A nonempty run of characters that `strings.Fields` never cuts. */
  predicate IsWord(s: string) {
    s != "" && forall i :: 0 <= i < |s| ==> !IsSpace(s[i])
  }

  /** Length of the longest prefix of `s` whose characters all satisfy `p`. */
  function Span(s: string, p: char -> bool): (n: nat)
    ensures n <= |s|
    ensures forall i :: 0 <= i < n ==> p(s[i])
    ensures n < |s| ==> !p(s[n])
  {
    if s == "" || !p(s[0]) then 0 else 1 + Span(s[1..], p)
  }

  lemma {:induction false} SpanCat(a: string, b: string, p: char -> bool)
    requires forall i :: 0 <= i < |a| ==> p(a[i])
    requires b != "" ==> !p(b[0])
    ensures Span(a + b, p) == |a|
  {
    if a == "" {
      assert a + b == b;
    } else {
      assert (a + b)[1..] == a[1..] + b;
      SpanCat(a[1..], b, p);
    }
  }

  // ---- strings.Fields and strings.Join ----

  function Fields(s: string): seq<string>
    decreases |s|
  {
    if s == "" then []
    else if IsSpace(s[0]) then Fields(s[1..])
    else
      var n := Span(s, c => !IsSpace(c));
      [s[..n]] + Fields(s[n..])
  }

  function Join(parts: seq<string>, sep: string): string {
    if |parts| == 0 then ""
    else if |parts| == 1 then parts[0]
    else parts[0] + sep + Join(parts[1..], sep)
  }

  lemma {:induction false} JoinCat(a: seq<string>, b: seq<string>, sep: string)
    requires a != [] && b != []
    ensures Join(a + b, sep) == Join(a, sep) + sep + Join(b, sep)
  {
    if |a| == 1 {
      assert (a + b)[1..] == b;
    } else {
      assert (a + b)[1..] == a[1..] + b;
      JoinCat(a[1..], b, sep);
    }
  }

  /** Splitting a text at white space recovers the words it was joined from. */
  lemma {:induction false} FieldsJoin(words: seq<string>)
    requires forall w :: w in words ==> IsWord(w)
    ensures Fields(Join(words, " ")) == words
  {
    if |words| == 0 {
    } else {
      var w := words[0];
      assert w in words;
      var rest := if |words| == 1 then "" else " " + Join(words[1..], " ");
      assert Join(words, " ") == w + rest;
      SpanCat(w, rest, c => !IsSpace(c));
      assert (w + rest)[..|w|] == w && (w + rest)[|w|..] == rest;
      FieldsJoin(words[1..]);
      if |words| > 1 {
        assert rest[1..] == Join(words[1..], " ");
        assert Fields(rest) == Fields(rest[1..]);
      }
      assert words == [w] + words[1..];
    }
  }

  // ---- strings.TrimSpace ----

  function TrimLeft(s: string): string {
    if s != "" && IsSpace(s[0]) then TrimLeft(s[1..]) else s
  }

  function TrimRight(s: string): string {
    if s != "" && IsSpace(s[|s| - 1]) then TrimRight(s[..|s| - 1]) else s
  }

  function TrimSpace(s: string): string {
    TrimRight(TrimLeft(s))
  }

  /** A text that begins and ends with a visible character, so trimming leaves it alone. */
  predicate IsTrimmed(s: string) {
    s != "" && !IsSpace(s[0]) && !IsSpace(s[|s| - 1])
  }

  lemma TrimSpaced(s: string)
    requires IsTrimmed(s)
    ensures TrimSpace(s) == s && TrimSpace(" " + s) == s && TrimSpace(s + " ") == s
  {
    assert (" " + s)[1..] == s;
    assert (s + " ")[..|s|] == s;
    assert TrimLeft(s + " ") == s + " ";
  }

  // ---- strings.HasPrefix, strings.HasSuffix, strings.Split on one character ----

  predicate HasPrefix(s: string, p: string) {
    |p| <= |s| && s[..|p|] == p
  }

  predicate HasSuffix(s: string, p: string) {
    |p| <= |s| && s[|s| - |p|..] == p
  }

  function Split(s: string, c: char): (parts: seq<string>)
    ensures |parts| >= 1
    decreases |s|
  {
    var n := Span(s, d => d != c);
    if n == |s| then [s] else [s[..n]] + Split(s[n + 1..], c)
  }

  lemma SplitFirst(p: string, rest: string, c: char)
    requires c !in p
    ensures Split(p + [c] + rest, c) == [p] + Split(rest, c)
  {
    var s := p + [c] + rest;
    assert s == p + ([c] + rest);
    SpanCat(p, [c] + rest, d => d != c);
    assert s[..|p|] == p && s[|p| + 1..] == rest;
  }

  /** Splitting at `c` undoes joining with `c`, when no part holds a `c`. */
  lemma {:induction false} SplitJoin(parts: seq<string>, c: char)
    requires parts != []
    requires forall p :: p in parts ==> c !in p
    ensures Split(Join(parts, [c]), c) == parts
  {
    assert parts[0] in parts;
    if |parts| == 1 {
      SpanCat(parts[0], "", d => d != c);
      assert parts[0] + "" == parts[0];
    } else {
      SplitFirst(parts[0], Join(parts[1..], [c]), c);
      SplitJoin(parts[1..], c);
      assert parts == [parts[0]] + parts[1..];
    }
  }

  lemma {:induction false} SplitParts(s: string, c: char)
    ensures forall i :: 0 <= i < |Split(s, c)| ==> c !in Split(s, c)[i]
    decreases |s|
  {
    var n := Span(s, d => d != c);
    if n < |s| {
      SplitParts(s[n + 1..], c);
      var rest := Split(s[n + 1..], c);
      assert Split(s, c) == [s[..n]] + rest;
    }
  }

  /** Every other character of the text is in some part. */
  lemma {:induction false} SplitHas(s: string, c: char, d: char)
    requires c != d
    ensures d in s <==> exists i :: 0 <= i < |Split(s, c)| && d in Split(s, c)[i]
    decreases |s|
  {
    var n := Span(s, x => x != c);
    if n < |s| {
      var rest := Split(s[n + 1..], c);
      SplitHas(s[n + 1..], c, d);
      assert s == s[..n] + [c] + s[n + 1..];
      assert Split(s, c) == [s[..n]] + rest;
      if i :| 0 <= i < |rest| && d in rest[i] {
        assert Split(s, c)[i + 1] == rest[i];
      }
      if d in s[..n] {
        assert d in Split(s, c)[0];
      }
    } else {
      assert Split(s, c)[0] == s;
    }
  }

  // ---- strconv.Itoa ----

  function Digit(d: nat): (c: char)
    requires d < 10
    ensures IsDigit(c)
  {
    ('0' as int + d) as char
  }

  function Itoa(n: nat): (s: string)
    ensures s != "" && forall i :: 0 <= i < |s| ==> IsDigit(s[i])
  {
    if n < 10 then [Digit(n)] else Itoa(n / 10) + [Digit(n % 10)]
  }

  function DecimalValue(s: string): nat
    requires forall i :: 0 <= i < |s| ==> IsDigit(s[i])
  {
    if s == "" then 0
    else
      assert IsDigit(s[|s| - 1]);
      10 * DecimalValue(s[..|s| - 1]) + (s[|s| - 1] as int - '0' as int)
  }

  lemma {:induction false} DecimalRoundTrip(n: nat)
    ensures DecimalValue(Itoa(n)) == n
  {
    if n >= 10 {
      var s := Itoa(n);
      assert s[..|s| - 1] == Itoa(n / 10);
      DecimalRoundTrip(n / 10);
    } else {
      var s := Itoa(n);
      assert s[..|s| - 1] == "";
    }
  }

  lemma ItoaInjective(a: nat, b: nat)
    requires Itoa(a) == Itoa(b)
    ensures a == b
  {
    DecimalRoundTrip(a);
    DecimalRoundTrip(b);
  }

  function IntText(n: int): string {
    if n < 0 then "-" + Itoa(-n) else Itoa(n)
  }

  lemma IntTextSign(n: int)
    ensures IntText(n) != "" && (IntText(n)[0] == '-' <==> n < 0)
    ensures n < 0 ==> IntText(n)[1..] == Itoa(-n)
  {
    if n >= 0 {
      assert IsDigit(Itoa(n)[0]);
    }
  }

  lemma IntTextInjective(a: int, b: int)
    requires IntText(a) == IntText(b)
    ensures a == b
  {
    IntTextSign(a);
    IntTextSign(b);
    if a < 0 {
      ItoaInjective(-a, -b);
    } else {
      ItoaInjective(a, b);
    }
  }

  // ---- strings.ToUpper, strings.ToLower, strings.EqualFold ----

  function UpperChar(c: char): char {
    if 'a' <= c <= 'z' then (c as int - 32) as char else c
  }

  function Upper(s: string): (u: string)
    ensures |u| == |s|
    ensures forall i :: 0 <= i < |s| ==> u[i] == UpperChar(s[i])
  {
    seq(|s|, i requires 0 <= i < |s| => UpperChar(s[i]))
  }

  predicate IsUpper(c: char) {
    'A' <= c <= 'Z'
  }

  predicate IsLower(c: char) {
    'a' <= c <= 'z'
  }

  function LowerChar(c: char): char {
    if IsUpper(c) then (c as int + 32) as char else c
  }

  function Lower(s: string): (l: string)
    ensures |l| == |s|
    ensures forall i :: 0 <= i < |s| ==> l[i] == LowerChar(s[i])
  {
    seq(|s|, i requires 0 <= i < |s| => LowerChar(s[i]))
  }

  predicate EqualFold(a: string, b: string) {
    Upper(a) == Upper(b)
  }
}
