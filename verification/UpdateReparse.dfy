/** Splitting a printed update expression recovers its sections, clauses and assignments. */
module UpdateReparse {
  import opened Text
  import opened Attributes
  import opened ConditionGrammar
  import opened UpdateText

  // ---- The words of a printed expression ----

  function RhsWords(r: Rhs): seq<string> {
    match r
    case FromValue(v) => [v]
    case IfNotExists(n, d) => ["if_not_exists(" + n + ",", d + ")"]
    case ListAppend(a, b) => ["list_append(" + a + ",", b + ")"]
  }

  function ClauseWords(c: Clause): seq<string> {
    match c
    case SetClause(t, r) => [TargetText(t), "="] + RhsWords(r)
    case AddClause(n, v) => [n, v]
    case RemoveClause(t) => [TargetText(t)]
    case DeleteClause(n, v) => [n, v]
  }

  function WithComma(ws: seq<string>): seq<string>
    requires ws != []
  {
    ws[..|ws| - 1] + [ws[|ws| - 1] + ","]
  }

  function ListWords(cs: seq<Clause>): seq<string> {
    if |cs| == 0 then []
    else if |cs| == 1 then ClauseWords(cs[0])
    else WithComma(ClauseWords(cs[0])) + ListWords(cs[1..])
  }

  function SectionsWords(sections: seq<Section>): seq<string> {
    if sections == [] then []
    else [ActionText(sections[0].action)] + ListWords(sections[0].clauses) + SectionsWords(sections[1..])
  }

  /** Words that `strings.Fields` keeps whole and the section splitter does not take for an action. */
  predicate PlainWords(ws: seq<string>) {
    forall i :: 0 <= i < |ws| ==> IsWord(ws[i]) && !IsAction(ws[i])
  }

  lemma PlaceholderWord(w: string)
    requires IsPlaceholder(w)
    ensures IsWord(w) && !IsAction(w) && IsFlat(w) && IsTrimmed(w) && '=' !in w
  {
    assert IsOperatorChar('=');
  }

  lemma TargetWord(t: Target)
    requires IsPlaceholder(t.name)
    ensures var w := TargetText(t);
            IsWord(w) && !IsAction(w) && IsFlat(w) && IsTrimmed(w) && '=' !in w && w[0] == t.name[0]
  {
    PlaceholderWord(t.name);
    match t.index
    case None =>
    case Some(i) =>
      var d := Itoa(i);
      var w := t.name + "[" + d + "]";
      forall k | 0 <= k < |w| ensures !IsSpace(w[k]) && !IsPunct(w[k]) && w[k] != '=' {
        if |t.name| < k < |w| - 1 {
          assert w[k] == d[k - |t.name| - 1];
        }
      }
      assert w[0] == t.name[0];
  }

  lemma {:induction false} JoinThen(ws: seq<string>, tail: string)
    requires ws != []
    ensures Join(ws[..|ws| - 1] + [ws[|ws| - 1] + tail], " ") == Join(ws, " ") + tail
  {
    if |ws| > 1 {
      var vs := ws[..|ws| - 1] + [ws[|ws| - 1] + tail];
      assert vs[1..] == ws[1..][..|ws| - 2] + [ws[1..][|ws| - 2] + tail];
      JoinThen(ws[1..], tail);
      assert Join(vs, " ") == ws[0] + " " + (Join(ws[1..], " ") + tail);
    }
  }

  lemma RhsIsWords(r: Rhs)
    requires WellFormedRhs(r)
    ensures Join(RhsWords(r), " ") == RhsText(r) && PlainWords(RhsWords(r)) && RhsWords(r) != []
  {
    match r
    case FromValue(v) => PlaceholderWord(v);
    case IfNotExists(n, d) =>
      PlaceholderWord(n);
      PlaceholderWord(d);
      CallIsWords("if_not_exists(", n, d);
    case ListAppend(a, b) =>
      PlaceholderWord(a);
      PlaceholderWord(b);
      CallIsWords("list_append(", a, b);
  }

  lemma CallIsWords(f: string, a: string, b: string)
    requires IsWord(f) && f[0] in {'i', 'l'} && IsPlaceholder(a) && IsPlaceholder(b)
    ensures Join([f + a + ",", b + ")"], " ") == f + a + ", " + b + ")"
    ensures PlainWords([f + a + ",", b + ")"])
  {
    PlaceholderWord(a);
    PlaceholderWord(b);
    var ws := [f + a + ",", b + ")"];
    assert ws[1..] == [b + ")"];
    assert Join(ws, " ") == f + a + "," + " " + (b + ")");
    assert ws[0][0] == f[0] && ws[1][0] == b[0];
  }

  lemma ClauseIsWords(c: Clause)
    requires WellFormed(c)
    ensures Join(ClauseWords(c), " ") == ClauseText(c) && PlainWords(ClauseWords(c)) && ClauseWords(c) != []
  {
    match c
    case SetClause(t, r) =>
      TargetWord(t);
      RhsIsWords(r);
      var ws := [TargetText(t), "="];
      JoinCat(ws, RhsWords(r), " ");
      assert ws[1..] == ["="];
      assert Join(ws, " ") == TargetText(t) + " " + "=";
      assert " = " == " " + "=" + " ";
    case AddClause(n, v) => TwoWords(n, v);
    case DeleteClause(n, v) => TwoWords(n, v);
    case RemoveClause(t) => TargetWord(t);
  }

  lemma TwoWords(n: string, v: string)
    requires IsPlaceholder(n) && IsPlaceholder(v)
    ensures Join([n, v], " ") == n + " " + v && PlainWords([n, v])
  {
    PlaceholderWord(n);
    PlaceholderWord(v);
    assert [n, v][1..] == [v];
  }

  predicate AllWellFormed(cs: seq<Clause>) {
    forall i :: 0 <= i < |cs| ==> WellFormed(cs[i])
  }

  /** A clause and the comma behind it, in front of the words of later clauses. */
  lemma ListHead(c: Clause, rest: seq<string>)
    requires WellFormed(c) && rest != [] && PlainWords(rest)
    ensures ClauseWords(c) != [] && PlainWords(WithComma(ClauseWords(c)) + rest)
    ensures Join(WithComma(ClauseWords(c)) + rest, " ") == ClauseText(c) + ", " + Join(rest, " ")
  {
    var ws := ClauseWords(c);
    ClauseIsWords(c);
    CommaWordPlain(ws);
    JoinThen(ws, ",");
    JoinCat(WithComma(ws), rest, " ");
    assert ", " == "," + " ";
  }

  lemma {:induction false} ListIsWords(cs: seq<Clause>)
    requires cs != [] && AllWellFormed(cs)
    ensures Join(ListWords(cs), " ") == Join(ClauseTexts(cs), ", ") && PlainWords(ListWords(cs)) && ListWords(cs) != []
  {
    if |cs| == 1 {
      ClauseIsWords(cs[0]);
    } else {
      ListIsWords(cs[1..]);
      ListHead(cs[0], ListWords(cs[1..]));
      assert ClauseTexts(cs)[1..] == ClauseTexts(cs[1..]);
    }
  }

  lemma CommaWordPlain(ws: seq<string>)
    requires ws != [] && PlainWords(ws)
    ensures PlainWords(WithComma(ws))
  {
    var w := ws[|ws| - 1] + ",";
    assert w[|w| - 1] == ',';
    assert IsWord(ws[|ws| - 1]);
  }

  lemma SectionIsWords(s: Section)
    requires s.clauses != [] && AllWellFormed(s.clauses)
    ensures var first := [ActionText(s.action)] + ListWords(s.clauses);
            Join(first, " ") == SectionText(s.action, s.clauses) && forall w :: w in first ==> IsWord(w)
  {
    ListIsWords(s.clauses);
    JoinCat([ActionText(s.action)], ListWords(s.clauses), " ");
  }

  lemma {:induction false} SectionsAreWords(sections: seq<Section>)
    requires WellFormedSections(sections) && sections != []
    ensures Join(SectionsWords(sections), " ") == UpdateExpression(sections)
    ensures SectionsWords(sections) != [] && forall w :: w in SectionsWords(sections) ==> IsWord(w)
  {
    var s := sections[0];
    SectionIsWords(s);
    var first := [ActionText(s.action)] + ListWords(s.clauses);
    if |sections| == 1 {
      assert SectionsWords(sections[1..]) == [];
      assert SectionsWords(sections) == first;
    } else {
      SectionsAreWords(sections[1..]);
      JoinCat(first, SectionsWords(sections[1..]), " ");
      assert SectionTexts(sections)[1..] == SectionTexts(sections[1..]);
    }
  }

  // ---- Sections ----

  lemma {:induction false} SplitPlain(ws: seq<string>, rest: seq<string>, action: string, buf: seq<string>,
      acc: map<string, string>)
    requires PlainWords(ws) && action != ""
    ensures SplitWords(ws + rest, action, buf, acc) == SplitWords(rest, action, buf + ws, acc)
  {
    if ws == [] {
      assert ws + rest == rest && buf + ws == buf;
    } else {
      assert (ws + rest)[1..] == ws[1..] + rest;
      SplitPlain(ws[1..], rest, action, buf + [ws[0]], acc);
      assert buf + [ws[0]] + ws[1..] == buf + ws;
    }
  }

  /** The section texts by action. */
  function SectionMap(sections: seq<Section>, acc: map<string, string>): map<string, string> {
    if sections == [] then acc
    else
      var s := sections[0];
      SectionMap(sections[1..], acc[ActionText(s.action) := Join(ClauseTexts(s.clauses), ", ")])
  }

  lemma {:induction false} SplitSectionsWords(sections: seq<Section>, action: string, buf: seq<string>,
      acc: map<string, string>)
    requires WellFormedSections(sections)
    ensures SplitWords(SectionsWords(sections), action, buf, acc) == SectionMap(sections, Flush(action, buf, acc))
    decreases |sections|
  {
    if sections != [] {
      var s := sections[0];
      ListIsWords(s.clauses);
      SplitSection(ActionText(s.action), ListWords(s.clauses), SectionsWords(sections[1..]), action, buf, acc);
      SplitSectionsWords(sections[1..], ActionText(s.action), ListWords(s.clauses), Flush(action, buf, acc));
    }
  }

  lemma SplitSection(a: string, words: seq<string>, rest: seq<string>, action: string, buf: seq<string>,
      acc: map<string, string>)
    requires PlainWords(words) && exists b: Action :: a == ActionText(b)
    ensures SplitWords([a] + words + rest, action, buf, acc) == SplitWords(rest, a, words, Flush(action, buf, acc))
  {
    assert [a] + words + rest == [a] + (words + rest);
    SplitAction(a, words + rest, action, buf, acc);
    SplitPlain(words, rest, a, [], Flush(action, buf, acc));
    assert [] + words == words;
  }

  lemma SplitAction(a: string, words: seq<string>, action: string, buf: seq<string>, acc: map<string, string>)
    requires exists b: Action :: a == ActionText(b)
    ensures SplitWords([a] + words, action, buf, acc) == SplitWords(words, a, [], Flush(action, buf, acc))
  {
    assert ([a] + words)[1..] == words;
  }

  lemma {:induction false} SectionMapHas(sections: seq<Section>, acc: map<string, string>, a: Action)
    requires WellFormedSections(sections)
    ensures (forall i :: 0 <= i < |sections| ==> sections[i].action != a) ==>
              (ActionText(a) in SectionMap(sections, acc) <==> ActionText(a) in acc) &&
              (ActionText(a) in acc ==> SectionMap(sections, acc)[ActionText(a)] == acc[ActionText(a)])
    ensures forall i :: 0 <= i < |sections| && sections[i].action == a ==>
              ActionText(a) in SectionMap(sections, acc) &&
              SectionMap(sections, acc)[ActionText(a)] == Join(ClauseTexts(sections[i].clauses), ", ")
    decreases |sections|
  {
    if sections != [] {
      var s := sections[0];
      SectionMapHas(sections[1..], acc[ActionText(s.action) := Join(ClauseTexts(s.clauses), ", ")], a);
      forall i | 0 <= i < |sections| && sections[i].action == a
        ensures ActionText(a) in SectionMap(sections, acc)
        ensures SectionMap(sections, acc)[ActionText(a)] == Join(ClauseTexts(sections[i].clauses), ", ")
      {
        if i > 0 {
          assert sections[1..][i - 1] == sections[i];
        } else {
          assert forall j :: 0 <= j < |sections| - 1 ==> sections[1..][j].action != a;
        }
      }
    }
  }

  /** The clauses printed for one action, in order; none when the expression has no such section. */
  function ClausesOf(sections: seq<Section>, a: Action): seq<Clause> {
    if sections == [] then []
    else if sections[0].action == a then sections[0].clauses
    else ClausesOf(sections[1..], a)
  }

  lemma {:induction false} ClausesOfIndex(sections: seq<Section>, a: Action)
    ensures ClausesOf(sections, a) == [] ||
            exists i :: 0 <= i < |sections| && sections[i] == Section(a, ClausesOf(sections, a))
    ensures (forall i :: 0 <= i < |sections| ==> sections[i].action != a) ==> ClausesOf(sections, a) == []
  {
    if sections != [] && sections[0].action != a {
      ClausesOfIndex(sections[1..], a);
      if ClausesOf(sections, a) != [] {
        var i :| 0 <= i < |sections| - 1 && sections[1..][i] == Section(a, ClausesOf(sections, a));
        assert sections[i + 1] == Section(a, ClausesOf(sections, a));
      }
    }
  }

  /** The section an action's text is looked up from; a missing map entry reads as the empty text in Go. */
  function SectionAt(m: map<string, string>, a: Action): string {
    if ActionText(a) in m then m[ActionText(a)] else ""
  }

  /** Printing in any order of the sections and splitting again finds every action's own clauses. */
  lemma SectionsRecovered(sections: seq<Section>, a: Action)
    requires WellFormedSections(sections)
    ensures SectionAt(SplitSections(UpdateExpression(sections)), a) == Join(ClauseTexts(ClausesOf(sections, a)), ", ")
  {
    if sections == [] {
      assert Fields(UpdateExpression(sections)) == [];
    } else {
      SectionsAreWords(sections);
      FieldsJoin(SectionsWords(sections));
    }
    SplitSectionsWords(sections, "", [], map[]);
    assert Fields(UpdateExpression(sections)) == SectionsWords(sections);
    SectionMapHas(sections, map[], a);
    ClausesOfIndex(sections, a);
    FoundSection(sections, a);
  }

  lemma {:induction false} FoundSection(sections: seq<Section>, a: Action)
    requires WellFormedSections(sections)
    ensures (exists i :: 0 <= i < |sections| && sections[i].action == a) ==>
              ClausesOf(sections, a) != [] &&
              exists i :: 0 <= i < |sections| && sections[i] == Section(a, ClausesOf(sections, a))
  {
    ClausesOfIndex(sections, a);
    if i :| 0 <= i < |sections| && sections[i].action == a {
      if i > 0 && sections[0].action != a {
        assert sections[1..][i - 1].action == a;
        FoundSection(sections[1..], a);
      }
    }
  }

  // ---- Clauses ----

  lemma CallDepth(f: string, g: string, a: string, b: string)
    requires f == g + "(" && IsFlat(g) && IsFlat(a) && IsFlat(b)
    ensures DepthAfter(f + a + ", " + b + ")", 0) == Some(0)
  {
    var s1 := a + (", " + (b + ")"));
    assert f + a + ", " + b + ")" == g + ("(" + s1);
    DepthFlat(g, 0);
    DepthCat(g, "(" + s1, 0);
    assert ("(" + s1)[1..] == s1;
    DepthFlat(a, 1);
    DepthCat(a, ", " + (b + ")"), 1);
    assert (", " + (b + ")"))[1..] == " " + (b + ")");
    assert (" " + (b + ")"))[1..] == b + ")";
    DepthFlat(b, 1);
    DepthCat(b, ")", 1);
    assert DepthAfter(")", 1) == Some(0) by { assert ")"[1..] == ""; }
  }

  lemma RhsDepth(r: Rhs)
    requires WellFormedRhs(r)
    ensures DepthAfter(RhsText(r), 0) == Some(0) && IsTrimmed(RhsText(r))
  {
    match r
    case FromValue(v) =>
      PlaceholderWord(v);
      DepthFlat(v, 0);
    case IfNotExists(n, d) =>
      PlaceholderWord(n);
      PlaceholderWord(d);
      assert "if_not_exists(" == "if_not_exists" + "(";
      CallDepth("if_not_exists(", "if_not_exists", n, d);
    case ListAppend(a, b) =>
      PlaceholderWord(a);
      PlaceholderWord(b);
      assert "list_append(" == "list_append" + "(";
      CallDepth("list_append(", "list_append", a, b);
  }

  lemma ClauseIsPart(c: Clause)
    requires WellFormed(c)
    ensures IsPart(ClauseText(c))
  {
    match c
    case SetClause(t, r) =>
      TargetWord(t);
      RhsDepth(r);
      var lhs := TargetText(t) + " = ";
      assert IsFlat(lhs);
      DepthFlat(lhs, 0);
      DepthCat(lhs, RhsText(r), 0);
    case AddClause(n, v) => PairIsPart(n, v);
    case DeleteClause(n, v) => PairIsPart(n, v);
    case RemoveClause(t) =>
      TargetWord(t);
      DepthFlat(TargetText(t), 0);
  }

  lemma PairIsPart(n: string, v: string)
    requires IsPlaceholder(n) && IsPlaceholder(v)
    ensures IsPart(n + " " + v)
  {
    PlaceholderWord(n);
    PlaceholderWord(v);
    DepthFlat(n + " " + v, 0);
  }

  /** Commas inside list_append and if_not_exists do not split clauses; commas between clauses do. */
  lemma ClausesRecovered(cs: seq<Clause>)
    requires cs != [] && AllWellFormed(cs)
    ensures TopLevelParts(Join(ClauseTexts(cs), ", ")) == ClauseTexts(cs)
  {
    forall p | p in ClauseTexts(cs) ensures IsPart(p) {
      var i :| 0 <= i < |cs| && p == ClauseTexts(cs)[i];
      ClauseIsPart(cs[i]);
    }
    PartsOfJoin(ClauseTexts(cs));
  }

  lemma AssignmentRecovered(t: Target, r: Rhs)
    requires WellFormed(SetClause(t, r))
    ensures SplitAssignment(ClauseText(SetClause(t, r))) == Some((TargetText(t), RhsText(r)))
  {
    TargetWord(t);
    RhsDepth(r);
    var lhs, rhs := TargetText(t), RhsText(r);
    var expr := ClauseText(SetClause(t, r));
    assert expr == (lhs + " ") + ("=" + (" " + rhs));
    SpanCat(lhs + " ", "=" + (" " + rhs), c => c != '=');
    assert expr[..|lhs| + 1] == lhs + " " && expr[|lhs| + 2..] == " " + rhs;
    TrimSpaced(lhs);
    TrimSpaced(rhs);
  }

  /** The base placeholder of an assignment's target, and whether anything below it is assigned. */
  function TargetBase(t: Target): (string, bool) {
    (t.name[..Span(t.name, c => c != '.')], '.' in t.name || t.index.Some?)
  }

  lemma {:induction false} SpanStops(s: string, p: char -> bool, q: char -> bool)
    requires forall i :: 0 <= i < |s| ==> p(s[i]) == q(s[i])
    ensures Span(s, p) == Span(s, q)
  {
    if s != "" && p(s[0]) {
      SpanStops(s[1..], p, q);
    }
  }

  lemma SpanOfTarget(t: Target)
    requires IsPlaceholder(t.name)
    ensures Span(TargetText(t), c => c != '.' && c != '[') == Span(t.name, c => c != '.')
    ensures TargetText(t)[..|t.name|] == t.name
  {
    var dot, stop := (c: char) => c != '.', (c: char) => c != '.' && c != '[';
    SpanStops(t.name, dot, stop);
    var n := Span(t.name, stop);
    if t.index.Some? {
      var suffix := "[" + Itoa(t.index.value) + "]";
      assert TargetText(t) == t.name + suffix;
      if n == |t.name| {
        SpanCat(t.name, suffix, stop);
      } else {
        assert t.name + suffix == t.name[..n] + (t.name[n..] + suffix);
        SpanCat(t.name[..n], t.name[n..] + suffix, stop);
      }
    }
  }

  lemma NestedTarget(t: Target)
    requires IsPlaceholder(t.name)
    ensures '.' in TargetText(t) || '[' in TargetText(t) <==> '.' in t.name || t.index.Some?
  {
    var w := TargetText(t);
    if t.index.Some? {
      assert w[|t.name|] == '[';
    }
  }

  lemma BaseRecovered(t: Target)
    requires IsPlaceholder(t.name)
    ensures BaseName(TargetText(t)) == TargetBase(t)
  {
    TargetWord(t);
    PlaceholderWord(t.name);
    TrimSpaced(TargetText(t));
    SpanOfTarget(t);
    NestedTarget(t);
    var n := Span(t.name, c => c != '.');
    assert TargetText(t)[..n] == t.name[..n];
    assert n > 0;
    TrimSpaced(t.name[..n]);
  }

  lemma ArgumentParts(n: string, d: string)
    requires IsPlaceholder(n) && IsPlaceholder(d)
    ensures TopLevelParts(n + ", " + d) == [n, d]
  {
    PlaceholderWord(n);
    PlaceholderWord(d);
    var args := [n, d];
    assert args[1..] == [d];
    forall p | p in args ensures IsPart(p) {
      DepthFlat(p, 0);
    }
    PartsOfJoin(args);
  }

  lemma Unwrap(f: string, inner: string)
    ensures var r := f + inner + ")"; HasPrefix(r, f) && HasSuffix(r, ")") && r[|f|..] == inner + ")"
    ensures HasSuffix(inner + ")", ")") && (inner + ")")[..|inner + ")"| - 1] == inner
  {
    var r := f + inner + ")";
    assert r[|r| - 1..] == ")" && (inner + ")")[|inner|..] == ")";
  }

  lemma DefaultOf(r: string, inner: string, d: string)
    requires TrimSpace(r) == r && HasPrefix(r, "if_not_exists(") && HasSuffix(r, ")")
    requires r[14..] == inner + ")"
    requires |TopLevelParts(inner)| == 2 && TopLevelParts(inner)[1] == d && IsValuePlaceholder(d)
    ensures IfNotExistsDefault(r) == Some(d)
  {
    PlaceholderWord(d);
    TrimSpaced(d);
    assert d[..1] == ":";
    assert HasSuffix(inner + ")", ")") && (inner + ")")[..|inner + ")"| - 1] == inner;
  }

  lemma DefaultRecovered(n: string, d: string)
    requires WellFormedRhs(IfNotExists(n, d))
    ensures HasPrefix(RhsText(IfNotExists(n, d)), "if_not_exists(")
    ensures IfNotExistsDefault(RhsText(IfNotExists(n, d))) == Some(d)
  {
    var inner := n + ", " + d;
    var r := RhsText(IfNotExists(n, d));
    DefaultText(n, d);
    assert TrimSpace(r) == r by {
      RhsDepth(IfNotExists(n, d));
      TrimSpaced(r);
    }
    assert TopLevelParts(inner) == [n, d] by { ArgumentParts(n, d); }
    DefaultOf(r, inner, d);
  }

  lemma DefaultText(n: string, d: string)
    ensures var r := RhsText(IfNotExists(n, d));
            HasPrefix(r, "if_not_exists(") && HasSuffix(r, ")") && r[14..] == n + ", " + d + ")"
  {
    var f := "if_not_exists(";
    assert |f| == 14;
    Unwrap(f, n + ", " + d);
    assert RhsText(IfNotExists(n, d)) == f + (n + ", " + d) + ")";
  }

  /** A plain value, or a list_append call, is not taken for an if_not_exists call. */
  lemma OtherRhs(r: Rhs)
    requires WellFormedRhs(r) && !r.IfNotExists?
    ensures TrimSpace(RhsText(r)) == RhsText(r) && !HasPrefix(RhsText(r), "if_not_exists(")
    ensures LooksLikeValue(RhsText(r)) <==> r.FromValue?
  {
    RhsDepth(r);
    TrimSpaced(RhsText(r));
    var w := RhsText(r);
    assert HasPrefix(w, "if_not_exists(") ==> w[0] == 'i' by { assert "if_not_exists("[0] == 'i'; }
    if r.FromValue? {
      assert w[..1] == ":";
    } else {
      assert w[0] == 'l' && w[..1] != ":";
    }
  }

  lemma PairRecovered(n: string, v: string)
    requires IsPlaceholder(n) && IsPlaceholder(v)
    ensures Fields(n + " " + v) == [n, v]
  {
    TwoWords(n, v);
    FieldsJoin([n, v]);
  }
}
