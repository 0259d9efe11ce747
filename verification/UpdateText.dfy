/**
 Update expressions as text: what the builder prints (internal/expr/builder.go) and the splitters with which
 internal/encryption/update_expression.go reads them back.
 */
module UpdateText {
  import opened Text
  import opened Attributes
  import opened ConditionGrammar

  // ---- Abstract syntax and printing ----

  datatype Target = Target(name: string, index: Option<nat>)

  datatype Rhs =
    | FromValue(value: string)
    | IfNotExists(name: string, default: string)
    | ListAppend(first: string, second: string)

  datatype Clause =
    | SetClause(target: Target, rhs: Rhs)
    | AddClause(name: string, value: string)
    | RemoveClause(target: Target)
    | DeleteClause(name: string, value: string)

  datatype Action = SET | REMOVE | ADD | DELETE

  function ActionText(a: Action): string {
    match a
    case SET => "SET"
    case REMOVE => "REMOVE"
    case ADD => "ADD"
    case DELETE => "DELETE"
  }

  function ActionOf(c: Clause): Action {
    match c
    case SetClause(_, _) => SET
    case AddClause(_, _) => ADD
    case RemoveClause(_) => REMOVE
    case DeleteClause(_, _) => DELETE
  }

  function TargetText(t: Target): string {
    match t.index
    case None => t.name
    case Some(i) => t.name + "[" + Itoa(i) + "]"
  }

  function RhsText(r: Rhs): string {
    match r
    case FromValue(v) => v
    case IfNotExists(n, d) => "if_not_exists(" + n + ", " + d + ")"
    case ListAppend(a, b) => "list_append(" + a + ", " + b + ")"
  }

  function ClauseText(c: Clause): string {
    match c
    case SetClause(t, r) => TargetText(t) + " = " + RhsText(r)
    case AddClause(n, v) => n + " " + v
    case RemoveClause(t) => TargetText(t)
    case DeleteClause(n, v) => n + " " + v
  }

  function ClauseTexts(cs: seq<Clause>): (ts: seq<string>)
    ensures |ts| == |cs|
    ensures forall i :: 0 <= i < |cs| ==> ts[i] == ClauseText(cs[i])
  {
    seq(|cs|, i requires 0 <= i < |cs| => ClauseText(cs[i]))
  }

  /** `SET a, b`, as `Build` prints one action's clauses. */
  function SectionText(a: Action, cs: seq<Clause>): string {
    ActionText(a) + " " + Join(ClauseTexts(cs), ", ")
  }

  datatype Section = Section(action: Action, clauses: seq<Clause>)

  /** The sections, in whatever order the map of actions is visited. */
  function UpdateExpression(sections: seq<Section>): string {
    Join(SectionTexts(sections), " ")
  }

  function SectionTexts(sections: seq<Section>): (ts: seq<string>)
    ensures |ts| == |sections|
  {
    if sections == [] then []
    else [SectionText(sections[0].action, sections[0].clauses)] + SectionTexts(sections[1..])
  }

  /** A placeholder as the builder issues it: `#...` or `:...`, with nothing the splitters look for inside. */
  predicate IsPlaceholder(w: string) {
    IsName(w) && (w[0] == '#' || w[0] == ':') && '[' !in w
  }

  predicate IsNamePlaceholder(w: string) {
    IsPlaceholder(w) && w[0] == '#'
  }

  predicate IsValuePlaceholder(w: string) {
    IsPlaceholder(w) && w[0] == ':' && |w| > 1
  }

  predicate WellFormedRhs(r: Rhs) {
    match r
    case FromValue(v) => IsValuePlaceholder(v)
    case IfNotExists(n, d) => IsNamePlaceholder(n) && IsValuePlaceholder(d)
    case ListAppend(a, b) =>
      && (IsNamePlaceholder(a) || IsValuePlaceholder(a))
      && (IsNamePlaceholder(b) || IsValuePlaceholder(b))
      && (IsValuePlaceholder(a) || IsValuePlaceholder(b))
  }

  predicate WellFormed(c: Clause) {
    match c
    case SetClause(t, r) => IsNamePlaceholder(t.name) && WellFormedRhs(r)
    case AddClause(n, v) => IsNamePlaceholder(n) && IsValuePlaceholder(v)
    case RemoveClause(t) => IsNamePlaceholder(t.name)
    case DeleteClause(n, v) => IsNamePlaceholder(n) && IsValuePlaceholder(v)
  }

  predicate WellFormedSections(sections: seq<Section>) {
    && (forall i :: 0 <= i < |sections| ==> sections[i].clauses != [])
    && (forall i, j :: 0 <= i < |sections| && 0 <= j < |sections[i].clauses| ==>
          WellFormed(sections[i].clauses[j]) && ActionOf(sections[i].clauses[j]) == sections[i].action)
    && (forall i, j :: 0 <= i < j < |sections| ==> sections[i].action != sections[j].action)
  }

  // ---- The splitters ----

  predicate IsAction(w: string) {
    w == "SET" || w == "REMOVE" || w == "ADD" || w == "DELETE"
  }

  /** splitUpdateExpressionSections after its words are known: `action` is open with `buf` collected so far. */
  function SplitWords(
    words: seq<string>, action: string, buf: seq<string>, acc: map<string, string>): map<string, string>
    decreases |words|
  {
    if words == [] then Flush(action, buf, acc)
    else if IsAction(words[0]) then SplitWords(words[1..], words[0], [], Flush(action, buf, acc))
    else SplitWords(words[1..], action, if action == "" then buf else buf + [words[0]], acc)
  }

  function Flush(action: string, buf: seq<string>, acc: map<string, string>): map<string, string> {
    if action == "" then acc else acc[action := Join(buf, " ")]
  }

  function SplitSections(expr: string): map<string, string> {
    SplitWords(Fields(expr), "", [], map[])
  }

  /** One step of the depth counter of splitTopLevelCommaSeparated. */
  function StepDepth(c: char, depth: nat): nat {
    if c == '(' then depth + 1 else if c == ')' && depth > 0 then depth - 1 else depth
  }

  function Emit(part: string): seq<string> {
    if TrimSpace(part) == "" then [] else [TrimSpace(part)]
  }

  /** The parts still to come, when `cur` has been read since the last top-level comma. */
  function ScanParts(s: string, cur: string, depth: nat): seq<string> {
    if s == "" then Emit(cur)
    else if s[0] == ',' && depth == 0 then Emit(cur) + ScanParts(s[1..], "", 0)
    else ScanParts(s[1..], cur + [s[0]], StepDepth(s[0], depth))
  }

  function TopLevelParts(s: string): seq<string> {
    ScanParts(TrimSpace(s), "", 0)
  }

  function SplitAssignment(expr: string): Option<(string, string)> {
    var n := Span(expr, c => c != '=');
    if n == |expr| then None else Some((TrimSpace(expr[..n]), TrimSpace(expr[n + 1..])))
  }

  function BaseName(lhs: string): (string, bool) {
    var l := TrimSpace(lhs);
    (TrimSpace(l[..Span(l, c => c != '.' && c != '[')]), '.' in l || '[' in l)
  }

  predicate LooksLikeValue(s: string) {
    var t := TrimSpace(s);
    HasPrefix(t, ":") && |t| > 1
  }

  function IfNotExistsDefault(rhs: string): Option<string> {
    var r := TrimSpace(rhs);
    if !HasPrefix(r, "if_not_exists(") || !HasSuffix(r, ")") then None
    else
      var rest := r[14..];
      var inner := if HasSuffix(rest, ")") then rest[..|rest| - 1] else rest;
      var args := TopLevelParts(inner);
      if |args| != 2 || !LooksLikeValue(args[1]) then None else Some(TrimSpace(args[1]))
  }

  // ---- Depth of a text: where it leaves the comma scanner ----

  /** The depth after `s`, or None when `s` has a comma at the top level. */
  function DepthAfter(s: string, depth: nat): Option<nat> {
    if s == "" then Some(depth)
    else if s[0] == ',' && depth == 0 then None
    else DepthAfter(s[1..], StepDepth(s[0], depth))
  }

  lemma {:induction false} DepthCat(a: string, b: string, depth: nat)
    requires DepthAfter(a, depth).Some?
    ensures DepthAfter(a + b, depth) == DepthAfter(b, DepthAfter(a, depth).value)
  {
    if a == "" {
      assert a + b == b;
    } else {
      assert (a + b)[1..] == a[1..] + b;
      DepthCat(a[1..], b, StepDepth(a[0], depth));
    }
  }

  predicate IsFlat(s: string) {
    forall i :: 0 <= i < |s| ==> !IsPunct(s[i])
  }

  lemma {:induction false} DepthFlat(s: string, depth: nat)
    requires IsFlat(s)
    ensures DepthAfter(s, depth) == Some(depth)
  {
    if s != "" {
      assert IsPunct(',') && IsPunct('(') && IsPunct(')');
      DepthFlat(s[1..], depth);
    }
  }

  lemma {:induction false} ScanBalanced(s: string, rest: string, cur: string, depth: nat)
    requires DepthAfter(s, depth).Some?
    ensures ScanParts(s + rest, cur, depth) == ScanParts(rest, cur + s, DepthAfter(s, depth).value)
  {
    if s == "" {
      assert s + rest == rest && cur + s == cur;
    } else {
      assert (s + rest)[1..] == s[1..] + rest;
      ScanBalanced(s[1..], rest, cur + [s[0]], StepDepth(s[0], depth));
      assert cur + [s[0]] + s[1..] == cur + s;
    }
  }

  /** A text the comma splitter passes over whole. */
  predicate IsPart(s: string) {
    IsTrimmed(s) && DepthAfter(s, 0) == Some(0)
  }

  lemma {:induction false} ScanJoined(parts: seq<string>, lead: string)
    requires parts != [] && forall p :: p in parts ==> IsPart(p)
    requires lead == "" || lead == " "
    ensures ScanParts(lead + Join(parts, ", "), "", 0) == parts
  {
    var p := parts[0];
    assert p in parts;
    TrimSpaced(p);
    DepthFlat(lead, 0);
    DepthCat(lead, p, 0);
    assert TrimSpace(lead + p) == p by { assert "" + p == p; }
    if |parts| == 1 {
      ScanBalanced(lead + p, "", "", 0);
      assert lead + p + "" == lead + p && "" + (lead + p) == lead + p;
    } else {
      var tail := Join(parts[1..], ", ");
      assert lead + Join(parts, ", ") == (lead + p) + ("," + (" " + tail));
      ScanBalanced(lead + p, "," + (" " + tail), "", 0);
      assert "" + (lead + p) == lead + p;
      assert ("," + (" " + tail))[1..] == " " + tail;
      ScanJoined(parts[1..], " ");
      assert parts == [p] + parts[1..];
    }
  }

  lemma {:induction false} JoinTrimmed(parts: seq<string>, sep: string)
    requires parts != [] && forall p :: p in parts ==> IsTrimmed(p)
    ensures IsTrimmed(Join(parts, sep))
  {
    assert parts[0] in parts;
    if |parts| > 1 {
      JoinTrimmed(parts[1..], sep);
      var t := Join(parts[1..], sep);
      var s := Join(parts, sep);
      assert s == parts[0] + sep + t;
      assert s[|s| - 1] == t[|t| - 1];
    }
  }

  /** Splitting `p0, p1, ...` at top-level commas gives back the parts. */
  lemma PartsOfJoin(parts: seq<string>)
    requires parts != [] && forall p :: p in parts ==> IsPart(p)
    ensures TopLevelParts(Join(parts, ", ")) == parts
  {
    JoinTrimmed(parts, ", ");
    TrimSpaced(Join(parts, ", "));
    ScanJoined(parts, "");
    assert "" + Join(parts, ", ") == Join(parts, ", ");
  }
}
