/** Attribute names from Go field names (pkg/naming/naming.go), for ASCII names. */
module Naming {
  import opened Text

  datatype Convention = CamelCase | SnakeCase

  // ---- camelCase ----

  /** A capital inside the leading run. */
  predicate InRun(name: string, i: nat)
    requires i < |name|
  {
    IsUpper(name[i]) && (i + 1 < |name| ==> IsUpper(name[i + 1]))
  }

  /** The end of the leading run of capitals, without a capital that starts the next word. */
  predicate IsBoundary(name: string, b: nat) {
    && 1 <= b <= |name|
    && (forall i :: 1 <= i < b ==> InRun(name, i))
    && (b < |name| ==> !InRun(name, b))
  }

  lemma OneBoundary(name: string, b: nat, c: nat)
    requires IsBoundary(name, b) && IsBoundary(name, c)
    ensures b == c
  {
  }

  ghost predicate IsCamel(name: string, r: string) {
    if name == "" || name == "PK" || name == "SK" then r == name
    else exists b: nat :: IsBoundary(name, b) && r == Lower(name[..b]) + name[b..]
  }

  method DefaultAttrName(name: string) returns (r: string)
    ensures IsCamel(name, r)
  {
    if name == "" || name == "PK" || name == "SK" {
      return name;
    }
    if |name| == 1 {
      r := Lower(name);
      assert IsBoundary(name, 1) && r == Lower(name[..1]) + name[1..];
      return;
    }
    var boundary := 1;
    while boundary < |name|
      invariant 1 <= boundary <= |name|
      invariant forall i :: 1 <= i < boundary ==> InRun(name, i)
    {
      if !IsUpper(name[boundary]) {
        break;
      }
      if boundary + 1 < |name| && !IsUpper(name[boundary + 1]) {
        break;
      }
      boundary := boundary + 1;
    }
    assert IsBoundary(name, boundary);
    r := Lower(name[..boundary]) + name[boundary..];
  }

  lemma CamelUnique(name: string, r: string, r': string)
    requires IsCamel(name, r) && IsCamel(name, r')
    ensures r == r'
  {
    if name != "" && name != "PK" && name != "SK" {
      var b: nat :| IsBoundary(name, b) && r == Lower(name[..b]) + name[b..];
      var c: nat :| IsBoundary(name, c) && r' == Lower(name[..c]) + name[c..];
      OneBoundary(name, b, c);
    }
  }

  // ---- snake_case ----

  /** The underscore in front of a capital that starts a word. */
  predicate StartsWord(name: string, i: nat)
    requires i < |name|
  {
    && IsUpper(name[i]) && i > 0 && !IsDigit(name[i - 1])
    && (IsLower(name[i - 1]) || (IsUpper(name[i - 1]) && i + 1 < |name| && IsLower(name[i + 1])))
  }

  function Piece(name: string, i: nat): string
    requires i < |name|
  {
    (if StartsWord(name, i) then "_" else "") + [LowerChar(name[i])]
  }

  function Snake(name: string, n: nat): string
    requires n <= |name|
  {
    if n == 0 then "" else Snake(name, n - 1) + Piece(name, n - 1)
  }

  method ToSnakeCase(name: string) returns (r: string)
    ensures r == Snake(name, |name|)
  {
    if name == "" {
      return "";
    }
    r := "";
    var i := 0;
    while i < |name|
      invariant 0 <= i <= |name|
      invariant r == Snake(name, i)
    {
      if IsUpper(name[i]) {
        if i > 0 {
          var prev := name[i - 1];
          var nextIsLower := i + 1 < |name| && IsLower(name[i + 1]);
          if !IsDigit(prev) && (IsLower(prev) || (IsUpper(prev) && nextIsLower)) {
            r := r + "_";
          }
        }
        r := r + [LowerChar(name[i])];
      } else {
        r := r + [LowerChar(name[i])];
      }
      i := i + 1;
    }
  }

  // ---- The two patterns ----

  predicate IsAlnum(c: char) {
    IsUpper(c) || IsLower(c) || IsDigit(c)
  }

  predicate IsFieldName(name: string) {
    name != "" && (IsUpper(name[0]) || IsLower(name[0])) && forall i :: 0 <= i < |name| ==> IsAlnum(name[i])
  }

  /** `^[a-z][A-Za-z0-9]*$`, with the two exceptions. */
  predicate ValidCamel(name: string) {
    name == "PK" || name == "SK" || (name != "" && IsLower(name[0]) && forall i :: 1 <= i < |name| ==> IsAlnum(name[i]))
  }

  /** Where `^[a-z][a-z0-9]*(_[a-z0-9]+)*$` stands after a text. */
  datatype Scan = AtStart | InWord | AfterUnderscore | Stuck

  function ScanStep(state: Scan, c: char): Scan {
    match state
    case AtStart => if IsLower(c) then InWord else Stuck
    case InWord => if IsLower(c) || IsDigit(c) then InWord else if c == '_' then AfterUnderscore else Stuck
    case AfterUnderscore => if IsLower(c) || IsDigit(c) then InWord else Stuck
    case Stuck => Stuck
  }

  function Scanned(s: string): Scan {
    if s == "" then AtStart else ScanStep(Scanned(s[..|s| - 1]), s[|s| - 1])
  }

  predicate ValidSnake(name: string) {
    Scanned(name) == InWord
  }

  predicate Valid(name: string, c: Convention) {
    name != "" && if c.CamelCase? then ValidCamel(name) else ValidSnake(name)
  }

  ghost predicate Converts(name: string, c: Convention, r: string) {
    if c.CamelCase? then IsCamel(name, r) else r == Snake(name, |name|)
  }

  method ConvertAttrName(name: string, c: Convention) returns (r: string)
    ensures Converts(name, c, r)
  {
    match c {
      case CamelCase => r := DefaultAttrName(name);
      case SnakeCase => r := ToSnakeCase(name);
    }
  }

  // ---- Converted names are valid, and converting again changes nothing ----

  lemma CamelFixed(name: string, r: string)
    requires IsFieldName(name) && IsCamel(name, r)
    ensures ValidCamel(r) && IsCamel(r, r)
  {
    if name != "PK" && name != "SK" {
      var b: nat :| IsBoundary(name, b) && r == Lower(name[..b]) + name[b..];
      LoweredRun(name, b);
      assert Lower(r[..1]) + r[1..] == r;
    }
  }

  /** The names a conversion leaves as they are: the valid ones whose second letter belongs to no leading capitals. */
  lemma CamelPattern(name: string)
    ensures IsFieldName(name) && IsCamel(name, name) <==>
            name == "PK" || name == "SK" || (ValidCamel(name) && IsBoundary(name, 1))
  {
    assert IsFieldName("PK") && IsFieldName("SK");
    if IsFieldName(name) && IsCamel(name, name) && name != "PK" && name != "SK" {
      var b: nat :| IsBoundary(name, b) && name == Lower(name[..b]) + name[b..];
      assert name[0] == LowerChar(name[0]);
      assert b > 1 ==> name[1] == LowerChar(name[1]);
    }
    if ValidCamel(name) && IsBoundary(name, 1) {
      assert Lower(name[..1]) + name[1..] == name;
    }
  }

  /** Lowering the leading run leaves a name whose leading run is its first letter. */
  lemma LoweredRun(name: string, b: nat)
    requires IsFieldName(name) && IsBoundary(name, b)
    ensures var r := Lower(name[..b]) + name[b..];
            |r| == |name| && IsLower(r[0]) && IsBoundary(r, 1) && forall i :: 0 <= i < |r| ==> IsAlnum(r[i])
  {
    var r := Lower(name[..b]) + name[b..];
    if |r| > 1 {
      if b >= 2 {
        assert r[1] == LowerChar(name[1]);
      } else {
        assert r[1] == name[1] && (|r| > 2 ==> r[2] == name[2]);
        assert !InRun(name, 1);
      }
      assert !InRun(r, 1);
    }
  }

  lemma ScannedCat(a: string, c: char)
    ensures Scanned(a + [c]) == ScanStep(Scanned(a), c)
  {
    assert (a + [c])[..|a|] == a;
  }

  lemma {:induction false} SnakeScanned(name: string, n: nat)
    requires IsFieldName(name) && 1 <= n <= |name|
    ensures Scanned(Snake(name, n)) == InWord
  {
    var before := Snake(name, n - 1);
    var c := LowerChar(name[n - 1]);
    assert IsLower(c) || IsDigit(c);
    if n == 1 {
      assert Snake(name, 1) == "" + [c];
      ScannedCat("", c);
    } else {
      SnakeScanned(name, n - 1);
      if StartsWord(name, n - 1) {
        ScannedCat(before, '_');
        ScannedCat(before + "_", c);
        assert before + ("_" + [c]) == before + "_" + [c];
      } else {
        ScannedCat(before, c);
        assert "" + [c] == [c];
      }
    }
  }

  lemma {:induction false} NoCapitals(name: string)
    requires Scanned(name) != Stuck
    ensures forall i :: 0 <= i < |name| ==> !IsUpper(name[i])
  {
    if name != "" {
      NoCapitals(name[..|name| - 1]);
    }
  }

  lemma {:induction false} SnakeOfLower(name: string, n: nat)
    requires n <= |name| && forall i :: 0 <= i < |name| ==> !IsUpper(name[i])
    ensures Snake(name, n) == name[..n]
  {
    if n > 0 {
      SnakeOfLower(name, n - 1);
      assert Piece(name, n - 1) == [name[n - 1]];
    }
  }

  /**
   For every ASCII letters-and-digits field name that starts with a letter, under either convention: the converted name
   passes validation for that convention, and converting it again gives it back.
   */
  lemma ConvertedIsValidAndFixed(name: string, c: Convention, r: string)
    requires IsFieldName(name) && Converts(name, c, r)
    ensures Valid(r, c) && Converts(r, c, r)
  {
    if c.CamelCase? {
      CamelFixed(name, r);
    } else {
      SnakeScanned(name, |name|);
      NoCapitals(r);
      SnakeOfLower(r, |r|);
    }
  }

  // ---- What the snake_case pattern takes ----

  predicate IsWordChar(c: char) {
    IsLower(c) || IsDigit(c)
  }

  predicate IsPart(w: string) {
    w != "" && forall i :: 0 <= i < |w| ==> IsWordChar(w[i])
  }

  predicate AreParts(ws: seq<string>) {
    forall i :: 0 <= i < |ws| ==> IsPart(ws[i])
  }

  /** Parts of small letters and digits, the first of which starts with a letter, with single underscores in between. */
  ghost predicate IsSnake(name: string) {
    exists ws :: SnakeOf(name, ws)
  }

  predicate SnakeOf(name: string, ws: seq<string>) {
    ws != [] && AreParts(ws) && IsLower(ws[0][0]) && name == Spaced(ws)
  }

  function Spaced(ws: seq<string>): string {
    if ws == [] then "" else Spaced(ws[..|ws| - 1]) + (if |ws| == 1 then "" else "_") + ws[|ws| - 1]
  }

  lemma {:induction false} PartScanned(before: string, w: string)
    requires IsPart(w)
    requires Scanned(before) == AfterUnderscore || (before == "" && IsLower(w[0]))
    ensures Scanned(before + w) == InWord
  {
    var n := |w| - 1;
    if n == 0 {
      assert w == [w[0]];
      ScannedCat(before, w[0]);
    } else {
      PartScanned(before, w[..n]);
      assert before + w == before + w[..n] + [w[n]];
      ScannedCat(before + w[..n], w[n]);
    }
  }

  lemma {:induction false} SpacedScanned(ws: seq<string>)
    requires ws != [] && AreParts(ws) && IsLower(ws[0][0])
    ensures Scanned(Spaced(ws)) == InWord
  {
    var n := |ws| - 1;
    if n == 0 {
      assert Spaced(ws[..0]) == "" && "" + "" + ws[0] == ws[0];
      PartScanned("", ws[0]);
      assert "" + ws[0] == ws[0];
    } else {
      SpacedScanned(ws[..n]);
      ScannedCat(Spaced(ws[..n]), '_');
      PartScanned(Spaced(ws[..n]) + "_", ws[n]);
    }
  }

  /** The parts of a text the pattern has read into a word. */
  lemma {:induction false} ScannedParts(name: string) returns (ws: seq<string>)
    requires Scanned(name) == InWord
    ensures SnakeOf(name, ws)
  {
    var n := |name| - 1;
    var front, c := name[..n], name[n];
    assert name == front + [c];
    if front == "" {
      ws := [[c]];
      assert Spaced(ws) == name by { assert ws[..0] == []; }
    } else if Scanned(front) == InWord {
      var before := ScannedParts(front);
      var k := |before| - 1;
      ws := before[..k] + [before[k] + [c]];
      assert ws[..k] == before[..k];
      assert Spaced(before) + [c] == Spaced(ws);
    } else {
      var m := |front| - 1;
      assert front == front[..m] + [front[m]];
      var before := ScannedParts(front[..m]);
      ws := before + [[c]];
      assert ws[..|before|] == before;
    }
  }

  /** ValidateAttrName accepts exactly such names as snake_case. */
  lemma SnakePattern(name: string)
    ensures ValidSnake(name) <==> IsSnake(name)
  {
    if ValidSnake(name) {
      var ws := ScannedParts(name);
    }
    if ws :| SnakeOf(name, ws) {
      SpacedScanned(ws);
    }
  }

  // ---- Names made of words ----

  predicate Capitalised(w: string) {
    |w| >= 2 && IsUpper(w[0]) && forall i :: 1 <= i < |w| ==> IsLower(w[i])
  }

  predicate Acronym(w: string) {
    w != "" && forall i :: 0 <= i < |w| ==> IsUpper(w[i])
  }

  predicate LowerWord(w: string) {
    w != "" && forall i :: 0 <= i < |w| ==> IsLower(w[i])
  }

  /** Words behind the first one; two acronyms in a row could not be told apart. */
  predicate AreWords(ws: seq<string>) {
    && (forall i :: 0 <= i < |ws| ==> Capitalised(ws[i]) || Acronym(ws[i]))
    && (forall i, j :: 0 <= i < |ws| && 0 <= j < |ws| && j == i + 1 ==> !Acronym(ws[i]) || !Acronym(ws[j]))
  }

  /** A first word, which may be in lower case, and those behind it. */
  predicate Lead(first: string, rest: seq<string>) {
    AreWords(rest) && (LowerWord(first) || AreWords([first] + rest))
  }

  /** `UserID` is made of `User` and `ID`, `URLValue` of `URL` and `Value`. */
  predicate MadeOf(name: string, first: string, rest: seq<string>) {
    name == first + Join(rest, "") && Lead(first, rest)
  }

  function LowerAll(ws: seq<string>): (ls: seq<string>)
    ensures |ls| == |ws| && forall i :: 0 <= i < |ws| ==> ls[i] == Lower(ws[i])
  {
    seq(|ws|, i requires 0 <= i < |ws| => Lower(ws[i]))
  }

  lemma JoinNext(ws: seq<string>, sep: string)
    requires ws != []
    ensures Join(ws, sep) == if |ws| == 1 then ws[0] else ws[0] + sep + Join(ws[1..], sep)
  {
  }

  /** The text of some words starts like the first of them. */
  lemma JoinStart(ws: seq<string>)
    requires ws != []
    ensures Join(ws, "") == ws[0] + Join(ws[1..], "")
  {
    JoinNext(ws, "");
    assert ws[0] + "" == ws[0];
  }

  /** `w` stands in the name from `at` on, in front of `rest`. */
  predicate Stands(name: string, at: nat, w: string, rest: seq<string>) {
    at <= |name| && name[at..] == w + Join(rest, "")
  }

  /** What follows a word starts with a capital, behind an acronym with one that starts a word. */
  lemma NextWord(name: string, at: nat, w: string, rest: seq<string>)
    requires Stands(name, at, w, rest) && AreWords(rest)
    ensures |name| == at + |w| + |Join(rest, "")|
    ensures forall i :: 0 <= i < |w| ==> name[at + i] == w[i]
    ensures rest == [] ==> |name| == at + |w|
    ensures rest != [] ==> at + |w| < |name| && IsUpper(name[at + |w|])
    ensures rest != [] && Capitalised(rest[0]) ==> at + |w| + 1 < |name| && IsLower(name[at + |w| + 1])
  {
    forall i | 0 <= i < |w| + |Join(rest, "")| ensures name[at + i] == (w + Join(rest, ""))[i] {
      assert name[at..][i] == name[at + i];
    }
    if rest != [] {
      JoinStart(rest);
      assert name[at + |w|] == rest[0][0];
      assert Capitalised(rest[0]) ==> name[at + |w| + 1] == rest[0][1];
    }
  }

  /** Inside a word no other one starts, and behind it the next one does. */
  lemma WordBounds(name: string, at: nat, w: string, rest: seq<string>)
    requires Stands(name, at, w, rest) && Lead(w, rest)
    ensures |name| >= at + |w| && w != ""
    ensures forall i :: at < i < at + |w| ==> !StartsWord(name, i)
    ensures rest != [] ==> at + |w| < |name| && StartsWord(name, at + |w|)
  {
    assert ([w] + rest)[0] == w && (rest != [] ==> ([w] + rest)[1] == rest[0]);
    NextWord(name, at, w, rest);
    forall i | at < i < at + |w| ensures !StartsWord(name, i) {
      assert name[i] == w[i - at];
      assert i + 1 < at + |w| ==> name[i + 1] == w[i + 1 - at];
    }
    assert name[at + |w| - 1] == w[|w| - 1];
  }

  lemma {:induction false} WordSnaked(name: string, at: nat, w: string, j: nat)
    requires 1 <= j <= |w| && at + |w| <= |name| && forall i :: 0 <= i < |w| ==> name[at + i] == w[i]
    requires forall i :: at < i < at + |w| ==> !StartsWord(name, i)
    ensures Snake(name, at + j) == Snake(name, at) + (if StartsWord(name, at) then "_" else "") + Lower(w[..j])
  {
    if j == 1 {
      assert Lower(w[..1]) == [LowerChar(w[0])];
    } else {
      WordSnaked(name, at, w, j - 1);
      assert Lower(w[..j]) == Lower(w[..j - 1]) + [LowerChar(w[j - 1])];
      assert Piece(name, at + j - 1) == [LowerChar(w[j - 1])];
    }
  }

  lemma NextLeads(w: string, rest: seq<string>)
    requires Lead(w, rest) && rest != []
    ensures Lead(rest[0], rest[1..])
  {
    assert [rest[0]] + rest[1..] == rest;
  }

  lemma StandsNext(name: string, at: nat, w: string, rest: seq<string>)
    requires Stands(name, at, w, rest) && rest != [] && at + |w| <= |name|
    ensures Stands(name, at + |w|, rest[0], rest[1..])
  {
    JoinStart(rest);
    assert name[at..][|w|..] == name[at + |w|..];
  }

  lemma LowerCat(w: string, rest: seq<string>)
    ensures LowerAll([w] + rest) == [Lower(w)] + LowerAll(rest)
  {
    var ls, ms := LowerAll([w] + rest), [Lower(w)] + LowerAll(rest);
    forall i | 0 <= i < |ls| ensures ls[i] == ms[i] {
      assert ([w] + rest)[i] == if i == 0 then w else rest[i - 1];
    }
  }

  lemma JoinCons(first: string, rest: seq<string>, sep: string)
    ensures Join([first] + rest, sep) == if rest == [] then first else first + sep + Join(rest, sep)
  {
    assert ([first] + rest)[1..] == rest;
  }

  lemma LowerNext(w: string, rest: seq<string>)
    ensures Join(LowerAll([w] + rest), "_") ==
            if rest == [] then Lower(w) else Lower(w) + "_" + Join(LowerAll([rest[0]] + rest[1..]), "_")
  {
    LowerCat(w, rest);
    JoinCons(Lower(w), LowerAll(rest), "_");
    assert rest != [] ==> [rest[0]] + rest[1..] == rest;
  }

  lemma WholeWord(name: string, at: nat, w: string)
    requires w != "" && at + |w| <= |name| && forall i :: 0 <= i < |w| ==> name[at + i] == w[i]
    requires forall i :: at < i < at + |w| ==> !StartsWord(name, i)
    ensures Snake(name, at + |w|) == Snake(name, at) + (if StartsWord(name, at) then "_" else "") + Lower(w)
  {
    WordSnaked(name, at, w, |w|);
    assert w[..|w|] == w;
  }

  lemma Regrouped(a: string, b: string, c: string, d: string, e: string)
    ensures a + b + c + d + e == a + b + (c + d + e)
  {
  }

  lemma {:induction false} SnakeFrom(name: string, at: nat, w: string, rest: seq<string>)
    requires Stands(name, at, w, rest) && Lead(w, rest)
    ensures at < |name|
    ensures Snake(name, |name|) ==
            Snake(name, at) + (if StartsWord(name, at) then "_" else "") + Join(LowerAll([w] + rest), "_")
    decreases |rest|
  {
    WordBounds(name, at, w, rest);
    NextWord(name, at, w, rest);
    var start, mark := Snake(name, at), if StartsWord(name, at) then "_" else "";
    WholeWord(name, at, w);
    LowerNext(w, rest);
    if rest != [] {
      NextLeads(w, rest);
      StandsNext(name, at, w, rest);
      SnakeFrom(name, at + |w|, rest[0], rest[1..]);
      Regrouped(start, mark, Lower(w), "_", Join(LowerAll([rest[0]] + rest[1..]), "_"));
    }
  }

  /** In snake_case a name is its words in lower case, one underscore between each two. */
  lemma SnakeWords(name: string, first: string, rest: seq<string>)
    requires MadeOf(name, first, rest)
    ensures Snake(name, |name|) == Join(LowerAll([first] + rest), "_")
  {
    assert name[0..] == name;
    SnakeFrom(name, 0, first, rest);
  }

  /** A first word of one small letter in front of an acronym. */
  predicate SmallLetterFirst(first: string, rest: seq<string>) {
    LowerWord(first) && |first| == 1 && rest != [] && Acronym(rest[0])
  }

  lemma SecondLetter(name: string, first: string, rest: seq<string>)
    requires MadeOf(name, first, rest)
    ensures SmallLetterFirst(first, rest) ==> |name| > 1 && InRun(name, 1)
    ensures !SmallLetterFirst(first, rest) && !(AreWords([first] + rest) && Acronym(first)) ==> IsBoundary(name, 1)
  {
    assert name[0..] == name;
    NextWord(name, 0, first, rest);
    assert ([first] + rest)[0] == first && (rest != [] ==> ([first] + rest)[1] == rest[0]);
    if SmallLetterFirst(first, rest) {
      NextLeads(first, rest);
      StandsNext(name, 0, first, rest);
      NextWord(name, 1, rest[0], rest[1..]);
      assert |rest[0]| == 1 || name[2] == rest[0][1];
    }
  }

  lemma SecondLowered(name: string, r: string)
    requires |name| > 1 && |r| > 1 && InRun(name, 1) && r[1] == name[1] && name != "PK" && name != "SK"
    ensures !IsCamel(name, r)
  {
    forall b: nat | IsBoundary(name, b) ensures r != Lower(name[..b]) + name[b..] {
      assert (Lower(name[..b]) + name[b..])[1] == LowerChar(name[1]);
    }
  }

  /**
   In camelCase a name is its words as they are, but for the first one in lower case, exactly unless the first one is a
   small letter and the next an acronym, which is lowered as well.
   */
  lemma CamelWords(name: string, first: string, rest: seq<string>)
    requires MadeOf(name, first, rest) && name != "PK" && name != "SK"
    ensures IsCamel(name, Lower(first) + Join(rest, "")) <==> !SmallLetterFirst(first, rest)
  {
    var r := Lower(first) + Join(rest, "");
    assert name[0..] == name;
    NextWord(name, 0, first, rest);
    SecondLetter(name, first, rest);
    assert name[..|first|] == first && name[|first|..] == Join(rest, "");
    assert ([first] + rest)[0] == first && (rest != [] ==> ([first] + rest)[1] == rest[0]);
    if AreWords([first] + rest) && Acronym(first) {
      assert IsBoundary(name, |first|);
    } else if SmallLetterFirst(first, rest) {
      SecondLowered(name, r);
    } else {
      assert r == Lower(name[..1]) + name[1..];
    }
  }
}
