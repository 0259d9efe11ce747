/**
 DynamoDB's update-expression grammar, as the service reads the text the library emits: sections that start with their
 keyword, clauses between commas, and functions with their arguments in order.
 */
module UpdateGrammar {
  import opened Text
  import opened Attributes
  import opened ConditionGrammar
  import opened ConditionMeaning
  import opened ConditionPrinter
  import opened UpdateText

  // ---- Parser ----

  function ActionFor(word: string): Option<Action> {
    var u := Upper(word);
    if u == "SET" then Some(SET)
    else if u == "REMOVE" then Some(REMOVE)
    else if u == "ADD" then Some(ADD)
    else if u == "DELETE" then Some(DELETE)
    else None
  }

  /** A document path; the list element at its end is read off. */
  function ParsePath(w: string): Target {
    var n := Span(w, c => c != '[');
    if n == |w| then Target(w, None)
    else
      var digits := w[n + 1..];
      var k := Span(digits, c => IsDigit(c));
      if k > 0 && digits[k..] == "]" then Target(w[..n], Some(DecimalValue(digits[..k]))) else Target(w, None)
  }

  /** `(`, a token, `,`, another one and `)`. */
  predicate IsPair(toks: Tokens) {
    |toks| >= 5 && toks[0] == "(" && IsName(toks[1]) && toks[2] == "," && IsName(toks[3]) && toks[4] == ")"
  }

  function ParseRhs(toks: Tokens): (p: Parsed<Rhs>)
    ensures p.Done? ==> |p.rest| < |toks|
  {
    if toks == [] || !IsName(toks[0]) then Fail
    else if toks[0] == "if_not_exists" && IsPair(toks[1..]) then Done(IfNotExists(toks[2], toks[4]), toks[6..])
    else if toks[0] == "list_append" && IsPair(toks[1..]) then Done(ListAppend(toks[2], toks[4]), toks[6..])
    else Done(FromValue(toks[0]), toks[1..])
  }

  function ParseClause(a: Action, toks: Tokens): (p: Parsed<Clause>)
    ensures p.Done? ==> |p.rest| < |toks|
  {
    if toks == [] || !IsName(toks[0]) then Fail
    else
      match a
      case REMOVE => Done(RemoveClause(ParsePath(toks[0])), toks[1..])
      case SET =>
        if |toks| < 2 || toks[1] != "=" then Fail
        else
          (match ParseRhs(toks[2..])
           case Fail => Fail
           case Done(r, rest) => Done(SetClause(ParsePath(toks[0]), r), rest))
      case _ =>
        if |toks| < 2 || !IsName(toks[1]) then Fail
        else Done(if a == ADD then AddClause(toks[0], toks[1]) else DeleteClause(toks[0], toks[1]), toks[2..])
  }

  function ParseClauses(a: Action, toks: Tokens): (p: Parsed<seq<Clause>>)
    ensures p.Done? ==> |p.rest| < |toks|
    decreases |toks|
  {
    match ParseClause(a, toks)
    case Fail => Fail
    case Done(c, rest) =>
      if rest == [] || rest[0] != "," then Done([c], rest)
      else
        match ParseClauses(a, rest[1..])
        case Fail => Fail
        case Done(cs, rest1) => Done([c] + cs, rest1)
  }

  /** The sections; a keyword may come once only. */
  function ParseSections(toks: Tokens, seen: set<Action>): (p: Parsed<seq<Section>>)
    decreases |toks|
  {
    if toks == [] then Done([], [])
    else
      match ActionFor(toks[0])
      case None => Fail
      case Some(a) =>
        if a in seen then Fail
        else
          match ParseClauses(a, toks[1..])
          case Fail => Fail
          case Done(cs, rest) =>
            match ParseSections(rest, seen + {a})
            case Fail => Fail
            case Done(ss, _) => Done([Section(a, cs)] + ss, [])
  }

  /** The sections the service finds in an update text. */
  function ReadUpdate(text: string): Option<seq<Section>> {
    match ParseSections(Lex(text), {})
    case Fail => None
    case Done(ss, _) => Some(ss)
  }

  // ---- The tokens of printed text ----

  function TargetToken(t: Target): string {
    TargetText(t)
  }

  function PairTokens(fn: string, a: string, b: string): Tokens {
    [fn, "(", a, ",", b, ")"]
  }

  function RhsTokens(r: Rhs): Tokens {
    match r
    case FromValue(v) => [v]
    case IfNotExists(n, d) => PairTokens("if_not_exists", n, d)
    case ListAppend(a, b) => PairTokens("list_append", a, b)
  }

  function ClauseTokens(c: Clause): Tokens {
    match c
    case SetClause(t, r) => [TargetText(t), "="] + RhsTokens(r)
    case AddClause(n, v) => [n, v]
    case RemoveClause(t) => [TargetText(t)]
    case DeleteClause(n, v) => [n, v]
  }

  function ClausesTokens(cs: seq<Clause>): Tokens {
    if cs == [] then []
    else if |cs| == 1 then ClauseTokens(cs[0])
    else ClauseTokens(cs[0]) + [","] + ClausesTokens(cs[1..])
  }

  function SectionsTokens(ss: seq<Section>): Tokens {
    if ss == [] then []
    else [ActionText(ss[0].action)] + (ClausesTokens(ss[0].clauses) + SectionsTokens(ss[1..]))
  }

  // ---- Lexing ----

  lemma LexPair(fn: string, a: string, b: string)
    requires IsName(fn) && IsName(a) && IsName(b)
    ensures Lex(fn + "(" + a + ", " + b + ")") == PairTokens(fn, a, b)
  {
    var close := b + ")" + "";
    var inner := a + ", " + close;
    assert fn + "(" + a + ", " + b + ")" == fn + "(" + inner;
    LexPunctThen(fn, '(', inner);
    CommaThen(a, close);
    LexPunctThen(b, ')', "");
    assert [fn, "("] + ([a, ","] + [b, ")"]) == PairTokens(fn, a, b);
  }

  lemma TargetIsName(t: Target)
    requires IsNamePlaceholder(t.name)
    ensures IsName(TargetText(t)) && TargetText(t)[0] == '#'
  {
    if t.index.Some? {
      var d := Itoa(t.index.value);
      forall i | 0 <= i < |TargetText(t)| ensures IsNameChar(TargetText(t)[i]) {
        var c := TargetText(t)[i];
        assert c == '[' || c == ']' || c in t.name || c in d;
      }
    }
  }

  lemma LexRhs(r: Rhs)
    requires WellFormedRhs(r)
    ensures Lex(RhsText(r)) == RhsTokens(r)
  {
    match r
    case FromValue(v) => LexName(v);
    case IfNotExists(n, d) =>
      LexPair("if_not_exists", n, d);
      assert "if_not_exists(" == "if_not_exists" + "(";
    case ListAppend(a, b) =>
      LexPair("list_append", a, b);
      assert "list_append(" == "list_append" + "(";
  }

  lemma LexSet(t: Target, r: Rhs)
    requires IsNamePlaceholder(t.name) && WellFormedRhs(r)
    ensures Lex(TargetText(t) + " = " + RhsText(r)) == [TargetText(t), "="] + RhsTokens(r)
  {
    var w, v := TargetText(t), RhsText(r);
    TargetIsName(t);
    LexRhs(r);
    LexEquals(w, v);
  }

  lemma LexEquals(w: string, v: string)
    requires IsName(w)
    ensures Lex(w + " = " + v) == [w, "="] + Lex(v)
  {
    assert w + " = " + v == w + " " + ("=" + " " + v);
    LexWordThen(w, "=" + " " + v);
    LexWordThen("=", v);
  }

  lemma LexClause(c: Clause)
    requires WellFormed(c)
    ensures Lex(ClauseText(c)) == ClauseTokens(c)
  {
    match c
    case SetClause(t, r) => LexSet(t, r);
    case RemoveClause(t) =>
      TargetIsName(t);
      LexName(TargetText(t));
    case AddClause(n, v) =>
      LexWordThen(n, v);
      LexName(v);
    case DeleteClause(n, v) =>
      LexWordThen(n, v);
      LexName(v);
  }

  lemma LexComma(a: string, b: string)
    ensures Lex(a + ", " + b) == Lex(a) + [","] + Lex(b)
  {
    assert a + ", " + b == a + ("," + (" " + b));
    LexCat(a, "," + (" " + b));
    assert ("," + (" " + b))[..1] == "," && ("," + (" " + b))[1..] == " " + b;
    LexSpace(b);
  }

  lemma LexBlank(a: string, b: string)
    ensures Lex(a + " " + b) == Lex(a) + Lex(b)
  {
    assert a + " " + b == a + (" " + b);
    LexCat(a, " " + b);
    LexSpace(b);
  }

  lemma {:induction false} LexClauses(cs: seq<Clause>)
    requires cs != [] && forall i :: 0 <= i < |cs| ==> WellFormed(cs[i])
    ensures Lex(Join(ClauseTexts(cs), ", ")) == ClausesTokens(cs)
  {
    LexClause(cs[0]);
    if |cs| > 1 {
      LexClauses(cs[1..]);
      assert ClauseTexts(cs)[1..] == ClauseTexts(cs[1..]);
      LexComma(ClauseText(cs[0]), Join(ClauseTexts(cs[1..]), ", "));
    }
  }

  lemma ActionIsName(a: Action)
    ensures IsName(ActionText(a))
  {
    forall i | 0 <= i < |ActionText(a)| ensures IsNameChar(ActionText(a)[i]) {
      assert 'A' <= ActionText(a)[i] <= 'Z';
    }
  }

  lemma LexSection(s: Section)
    requires s.clauses != [] && forall i :: 0 <= i < |s.clauses| ==> WellFormed(s.clauses[i])
    ensures Lex(SectionText(s.action, s.clauses)) == [ActionText(s.action)] + ClausesTokens(s.clauses)
  {
    LexClauses(s.clauses);
    ActionIsName(s.action);
    LexWordThen(ActionText(s.action), Join(ClauseTexts(s.clauses), ", "));
  }

  predicate SectionsFormed(ss: seq<Section>) {
    forall i :: 0 <= i < |ss| ==>
      ss[i].clauses != [] &&
      forall j :: 0 <= j < |ss[i].clauses| ==>
        WellFormed(ss[i].clauses[j]) && ActionOf(ss[i].clauses[j]) == ss[i].action
  }

  lemma TextNext(ss: seq<Section>)
    requires ss != []
    ensures var text := SectionText(ss[0].action, ss[0].clauses);
            UpdateExpression(ss) == if |ss| == 1 then text else text + " " + UpdateExpression(ss[1..])
  {
    var texts := SectionTexts(ss);
    assert texts == [SectionText(ss[0].action, ss[0].clauses)] + SectionTexts(ss[1..]);
    assert texts[1..] == SectionTexts(ss[1..]);
  }

  lemma TokensNext(ss: seq<Section>)
    requires ss != []
    ensures var toks := [ActionText(ss[0].action)] + ClausesTokens(ss[0].clauses);
            SectionsTokens(ss) == if |ss| == 1 then toks else toks + SectionsTokens(ss[1..])
  {
    CatTokens([ActionText(ss[0].action)], ClausesTokens(ss[0].clauses), SectionsTokens(ss[1..]));
  }

  lemma CatTokens(a: Tokens, b: Tokens, c: Tokens)
    ensures a + (b + c) == a + b + c
    ensures c == [] ==> a + (b + c) == a + b
  {
  }

  lemma {:induction false} LexSections(ss: seq<Section>)
    requires SectionsFormed(ss)
    ensures Lex(UpdateExpression(ss)) == SectionsTokens(ss)
  {
    if ss != [] {
      LexSection(ss[0]);
      TextNext(ss);
      TokensNext(ss);
      if |ss| > 1 {
        LexSections(ss[1..]);
        LexBlank(SectionText(ss[0].action, ss[0].clauses), UpdateExpression(ss[1..]));
      }
    }
  }

  // ---- Reading them back ----

  lemma ValueIsNoFunction(v: string)
    requires IsValuePlaceholder(v)
    ensures v != "if_not_exists" && v != "list_append" && v != ","
  {
  }

  lemma TargetRead(t: Target)
    requires IsNamePlaceholder(t.name)
    ensures ParsePath(TargetText(t)) == t
  {
    var w := TargetText(t);
    match t.index
    case None =>
      SpanCat(w, "", c => c != '[');
      assert w + "" == w;
    case Some(i) =>
      var d := Itoa(i);
      assert w == t.name + ("[" + d + "]");
      SpanCat(t.name, "[" + d + "]", c => c != '[');
      assert w[|t.name| + 1..] == d + "]";
      SpanCat(d, "]", c => IsDigit(c));
      assert (d + "]")[|d|..] == "]" && (d + "]")[..|d|] == d && w[..|t.name|] == t.name;
      DecimalRoundTrip(i);
  }

  lemma PairRead(fn: string, a: string, b: string, rest: Tokens)
    requires IsName(a) && IsName(b)
    ensures var toks := PairTokens(fn, a, b) + rest;
            IsPair(toks[1..]) && toks[0] == fn && toks[2] == a && toks[4] == b && toks[6..] == rest
  {
  }

  lemma RhsRead(r: Rhs, rest: Tokens)
    requires WellFormedRhs(r)
    ensures ParseRhs(RhsTokens(r) + rest) == Done(r, rest)
  {
    match r
    case FromValue(v) =>
      ValueIsNoFunction(v);
      assert ([v] + rest)[1..] == rest;
    case IfNotExists(n, d) => PairRead("if_not_exists", n, d, rest);
    case ListAppend(a, b) => PairRead("list_append", a, b, rest);
  }

  lemma AssignmentRead(w: string, tail: Tokens, r: Rhs, rest: Tokens)
    requires IsName(w) && ParseRhs(tail) == Done(r, rest)
    ensures ParseClause(SET, [w, "="] + tail) == Done(SetClause(ParsePath(w), r), rest)
  {
    assert ([w, "="] + tail)[2..] == tail;
  }

  lemma SetRead(t: Target, r: Rhs, rest: Tokens)
    requires IsNamePlaceholder(t.name) && WellFormedRhs(r)
    ensures ParseClause(SET, [TargetText(t), "="] + RhsTokens(r) + rest) == Done(SetClause(t, r), rest)
  {
    TargetIsName(t);
    TargetRead(t);
    RhsRead(r, rest);
    AssignmentRead(TargetText(t), RhsTokens(r) + rest, r, rest);
    assert [TargetText(t), "="] + RhsTokens(r) + rest == [TargetText(t), "="] + (RhsTokens(r) + rest);
  }

  lemma ClauseRead(c: Clause, rest: Tokens)
    requires WellFormed(c)
    ensures ParseClause(ActionOf(c), ClauseTokens(c) + rest) == Done(c, rest)
  {
    var toks := ClauseTokens(c) + rest;
    match c
    case SetClause(t, r) => SetRead(t, r, rest);
    case RemoveClause(t) =>
      TargetIsName(t);
      TargetRead(t);
      assert toks[1..] == rest;
    case AddClause(n, v) => assert toks[2..] == rest;
    case DeleteClause(n, v) => assert toks[2..] == rest;
  }

  lemma LastClause(a: Action, toks: Tokens, c: Clause, rest: Tokens)
    requires ParseClause(a, toks) == Done(c, rest) && (rest == [] || rest[0] != ",")
    ensures ParseClauses(a, toks) == Done([c], rest)
  {
  }

  lemma NextClause(a: Action, toks: Tokens, c: Clause, tail: Tokens, cs: seq<Clause>, rest: Tokens)
    requires ParseClause(a, toks) == Done(c, [","] + tail) && ParseClauses(a, tail) == Done(cs, rest)
    ensures ParseClauses(a, toks) == Done([c] + cs, rest)
  {
    assert ([","] + tail)[1..] == tail;
  }

  lemma FirstRead(cs: seq<Clause>, a: Action, rest: Tokens)
    requires cs != [] && forall i :: 0 <= i < |cs| ==> WellFormed(cs[i]) && ActionOf(cs[i]) == a
    ensures ParseClause(a, ClauseTokens(cs[0]) + rest) == Done(cs[0], rest)
  {
    ClauseRead(cs[0], rest);
  }

  lemma ClausesCons(cs: seq<Clause>, rest: Tokens)
    requires |cs| > 1
    ensures ClausesTokens(cs) + rest == ClauseTokens(cs[0]) + ([","] + (ClausesTokens(cs[1..]) + rest))
  {
  }

  lemma Consed(cs: seq<Clause>)
    requires cs != []
    ensures [cs[0]] + cs[1..] == cs
  {
  }

  lemma {:induction false} ClausesRead(a: Action, cs: seq<Clause>, rest: Tokens)
    requires cs != [] && forall i :: 0 <= i < |cs| ==> WellFormed(cs[i]) && ActionOf(cs[i]) == a
    requires rest == [] || rest[0] != ","
    ensures ParseClauses(a, ClausesTokens(cs) + rest) == Done(cs, rest)
  {
    Consed(cs);
    if |cs| == 1 {
      FirstRead(cs, a, rest);
      LastClause(a, ClauseTokens(cs[0]) + rest, cs[0], rest);
      assert cs == [cs[0]];
    } else {
      var toks, tail := ClausesTokens(cs) + rest, ClausesTokens(cs[1..]) + rest;
      ClausesRead(a, cs[1..], rest);
      FirstRead(cs, a, [","] + tail);
      ClausesCons(cs, rest);
      NextClause(a, toks, cs[0], tail, cs[1..], rest);
    }
  }

  lemma ActionRead(a: Action)
    ensures ActionFor(ActionText(a)) == Some(a) && ActionText(a) != ","
  {
    assert Upper("SET") == "SET" && Upper("REMOVE") == "REMOVE" && Upper("ADD") == "ADD" && Upper("DELETE") == "DELETE";
  }

  lemma NextSection(
    toks: Tokens, seen: set<Action>, a: Action, cs: seq<Clause>, tail: Tokens, ss: seq<Section>)
    requires toks != [] && ActionFor(toks[0]) == Some(a) && a !in seen
    requires ParseClauses(a, toks[1..]) == Done(cs, tail) && ParseSections(tail, seen + {a}) == Done(ss, [])
    ensures ParseSections(toks, seen) == Done([Section(a, cs)] + ss, [])
  {
  }

  lemma SectionsCons(ss: seq<Section>)
    requires ss != []
    ensures var toks := SectionsTokens(ss);
            && toks != [] && toks[0] == ActionText(ss[0].action)
            && toks[1..] == ClausesTokens(ss[0].clauses) + SectionsTokens(ss[1..])
    ensures [ss[0]] + ss[1..] == ss
  {
    BehindFirst(ActionText(ss[0].action), ClausesTokens(ss[0].clauses) + SectionsTokens(ss[1..]));
  }

  lemma BehindFirst(w: string, rest: Tokens)
    ensures ([w] + rest)[0] == w && ([w] + rest)[1..] == rest
  {
  }

  lemma NoComma(ss: seq<Section>)
    ensures SectionsTokens(ss) == [] || SectionsTokens(ss)[0] != ","
  {
    if ss != [] {
      SectionsCons(ss);
      ActionRead(ss[0].action);
    }
  }

  lemma {:induction false} SectionsRead(ss: seq<Section>, seen: set<Action>)
    requires SectionsFormed(ss) && forall i :: 0 <= i < |ss| ==> ss[i].action !in seen
    requires forall i, j :: 0 <= i < j < |ss| ==> ss[i].action != ss[j].action
    ensures ParseSections(SectionsTokens(ss), seen) == Done(ss, [])
  {
    if ss != [] {
      var s, tail := ss[0], SectionsTokens(ss[1..]);
      SectionsCons(ss);
      ActionRead(s.action);
      NoComma(ss[1..]);
      ClausesRead(s.action, s.clauses, tail);
      SectionsRead(ss[1..], seen + {s.action});
      NextSection(SectionsTokens(ss), seen, s.action, s.clauses, tail, ss[1..]);
    }
  }

  /**
   The service reads the sections and clauses of a printed update text as they were printed: targets with their list
   elements, values, and the arguments of functions in their order.
   */
  lemma UpdateRead(ss: seq<Section>)
    requires WellFormedSections(ss)
    ensures ReadUpdate(UpdateExpression(ss)) == Some(ss)
  {
    LexSections(ss);
    SectionsRead(ss, {});
  }
}
