/**
 EncryptUpdateExpressionValues (internal/encryption/update_expression.go): the update text is split again and the
 values it assigns to encrypted attributes are replaced in place.
 */
module UpdateEncryption {
  import opened Text
  import opened Attributes
  import opened ConditionGrammar
  import opened UpdateText
  import opened UpdateReparse

  /** EncryptAttributeValue: the call's number stands for the data key and nonce drawn for it. */
  type Seal = (nat, string, AttributeValue) -> Result<AttributeValue>

  datatype State = State(values: Values, calls: nat)

  datatype Outcome = Outcome(ok: bool, state: State)

  // ---- The pass over text ----

  function SealRef(seal: Seal, attr: string, ref: string, st: State): Outcome {
    if ref !in st.values then Outcome(false, st)
    else
      match seal(st.calls, attr, st.values[ref])
      case Err => Outcome(false, st.(calls := st.calls + 1))
      case Ok(c) => Outcome(true, State(st.values[ref := c], st.calls + 1))
  }

  function NameAt(names: Names, ph: string): string {
    if ph in names then names[ph] else ""
  }

  function AssignText(text: string, names: Names, encrypted: set<string>, seal: Seal, st: State): Outcome {
    match SplitAssignment(text)
    case None => Outcome(true, st)
    case Some((lhs, rhs)) =>
      var (base, nested) := BaseName(lhs);
      var attr := NameAt(names, base);
      if attr == "" || attr !in encrypted then Outcome(true, st)
      else if nested then Outcome(false, st)
      else
        var r := TrimSpace(rhs);
        if HasPrefix(r, "if_not_exists(") then
          match IfNotExistsDefault(r)
          case None => Outcome(false, st)
          case Some(ref) => SealRef(seal, attr, ref, st)
        else if LooksLikeValue(r) then SealRef(seal, attr, r, st)
        else Outcome(false, st)
  }

  function AssignTexts(texts: seq<string>, names: Names, encrypted: set<string>, seal: Seal, st: State): Outcome
    decreases |texts|
  {
    if texts == [] then Outcome(true, st)
    else
      var first := AssignText(texts[0], names, encrypted, seal, st);
      if first.ok then AssignTexts(texts[1..], names, encrypted, seal, first.state) else first
  }

  predicate PartRejected(part: string, names: Names, encrypted: set<string>) {
    var words := Fields(part);
    words != [] && NameAt(names, words[0]) != "" && NameAt(names, words[0]) in encrypted
  }

  predicate SectionRejected(section: string, names: Names, encrypted: set<string>) {
    exists p :: p in TopLevelParts(section) && PartRejected(p, names, encrypted)
  }

  function PassText(expr: string, names: Names, encrypted: set<string>, seal: Seal, st: State): Outcome {
    if expr == "" || |st.values| == 0 || |encrypted| == 0 then Outcome(true, st)
    else
      var sections := SplitSections(expr);
      var set' := AssignTexts(TopLevelParts(SectionAt(sections, SET)), names, encrypted, seal, st);
      if !set'.ok then set'
      else
        Outcome(!SectionRejected(SectionAt(sections, ADD), names, encrypted) &&
                !SectionRejected(SectionAt(sections, DELETE), names, encrypted), set'.state)
  }

  // ---- The code: loops over text, an in-place rewrite of the value map ----

  class Service {
    var calls: nat
    const seal: Seal

    constructor (seal: Seal)
      ensures this.seal == seal && calls == 0
    {
      this.seal := seal;
      calls := 0;
    }

    method EncryptAttributeValue(attr: string, v: AttributeValue) returns (r: Result<AttributeValue>)
      modifies this
      ensures r == seal(old(calls), attr, v) && calls == old(calls) + 1
    {
      r := seal(calls, attr, v);
      calls := calls + 1;
    }
  }

  /** ExpressionAttributeValues, the map the pass mutates. */
  class ExpressionValues {
    var values: Values

    constructor (values: Values)
      ensures this.values == values
    {
      this.values := values;
    }
  }

  method SplitTopLevelCommaSeparated(text: string) returns (parts: seq<string>)
    ensures parts == TopLevelParts(text)
  {
    var s := TrimSpace(text);
    parts := [];
    var start, depth, i := 0, 0, 0;
    while i < |s|
      invariant 0 <= start <= i <= |s| && depth >= 0
      invariant parts + ScanParts(s[i..], s[start..i], depth) == TopLevelParts(text)
    {
      assert s[i..][1..] == s[i + 1..];
      if s[i] == '(' {
        depth := depth + 1;
      } else if s[i] == ')' {
        if depth > 0 {
          depth := depth - 1;
        }
      } else if s[i] == ',' && depth == 0 {
        var part := TrimSpace(s[start..i]);
        if part != "" {
          parts := parts + [part];
        }
        start := i + 1;
      }
      assert start <= i ==> s[start..i] + [s[i]] == s[start..i + 1];
      i := i + 1;
    }
    assert s[i..] == "" && s[start..i] == s[start..];
    var last := TrimSpace(s[start..]);
    if last != "" {
      parts := parts + [last];
    }
  }

  method SplitUpdateExpressionSections(expr: string) returns (sections: map<string, string>)
    ensures sections == SplitSections(expr)
  {
    var tokens := Fields(expr);
    sections := map[];
    var action: string, buf: seq<string> := "", [];
    var i := 0;
    while i < |tokens|
      invariant 0 <= i <= |tokens|
      invariant SplitWords(tokens[i..], action, buf, sections) == SplitSections(expr)
      invariant action == "" ==> buf == []
    {
      var tok := tokens[i];
      assert tokens[i..][0] == tok && tokens[i..][1..] == tokens[i + 1..];
      if tok == "SET" || tok == "REMOVE" || tok == "ADD" || tok == "DELETE" {
        if action != "" {
          sections := sections[action := Join(buf, " ")];
          buf := [];
        }
        action := tok;
      } else if action != "" {
        buf := buf + [tok];
      }
      i := i + 1;
    }
    if action != "" {
      sections := sections[action := Join(buf, " ")];
    }
  }

  method EncryptValueRef(svc: Service, attr: string, ref: string, attrs: ExpressionValues) returns (ok: bool)
    modifies svc, attrs
    ensures Outcome(ok, State(attrs.values, svc.calls)) ==
            SealRef(svc.seal, attr, ref, old(State(attrs.values, svc.calls)))
  {
    if ref !in attrs.values {
      return false;
    }
    var r := svc.EncryptAttributeValue(attr, attrs.values[ref]);
    if r.Err? {
      return false;
    }
    attrs.values := attrs.values[ref := r.value];
    ok := true;
  }

  method EncryptSetAssignment(svc: Service, encrypted: set<string>, text: string, names: Names, attrs: ExpressionValues)
    returns (ok: bool)
    modifies svc, attrs
    ensures Outcome(ok, State(attrs.values, svc.calls)) ==
            AssignText(text, names, encrypted, svc.seal, old(State(attrs.values, svc.calls)))
  {
    var split := SplitAssignment(text);
    if split.None? {
      return true;
    }
    var (base, nested) := BaseName(split.value.0);
    var attr := NameAt(names, base);
    if attr == "" || attr !in encrypted {
      return true;
    }
    if nested {
      return false;
    }
    var rhs := TrimSpace(split.value.1);
    if HasPrefix(rhs, "if_not_exists(") {
      var ref := IfNotExistsDefault(rhs);
      if ref.None? {
        return false;
      }
      ok := EncryptValueRef(svc, attr, ref.value, attrs);
      return;
    }
    if LooksLikeValue(rhs) {
      ok := EncryptValueRef(svc, attr, rhs, attrs);
      return;
    }
    ok := false;
  }

  method EncryptSetSection(svc: Service, encrypted: set<string>, section: string, names: Names, attrs: ExpressionValues)
    returns (ok: bool)
    modifies svc, attrs
    ensures Outcome(ok, State(attrs.values, svc.calls)) ==
            AssignTexts(TopLevelParts(section), names, encrypted, svc.seal, old(State(attrs.values, svc.calls)))
  {
    var assignments := SplitTopLevelCommaSeparated(section);
    var i := 0;
    while i < |assignments|
      invariant 0 <= i <= |assignments|
      invariant AssignTexts(assignments[i..], names, encrypted, svc.seal, State(attrs.values, svc.calls)) ==
                AssignTexts(assignments, names, encrypted, svc.seal, old(State(attrs.values, svc.calls)))
    {
      assert assignments[i..][0] == assignments[i] && assignments[i..][1..] == assignments[i + 1..];
      ok := EncryptSetAssignment(svc, encrypted, assignments[i], names, attrs);
      if !ok {
        return;
      }
      i := i + 1;
    }
    ok := true;
  }

  method RejectEncryptedSection(section: string, encrypted: set<string>, names: Names) returns (ok: bool)
    ensures ok <==> !SectionRejected(section, names, encrypted)
  {
    var parts := SplitTopLevelCommaSeparated(section);
    var i := 0;
    while i < |parts|
      invariant 0 <= i <= |parts|
      invariant forall j :: 0 <= j < i ==> !PartRejected(parts[j], names, encrypted)
    {
      if PartRejected(parts[i], names, encrypted) {
        return false;
      }
      i := i + 1;
    }
    ok := true;
  }

  method EncryptUpdateExpressionValues(
    svc: Service, encrypted: set<string>, expr: string, names: Names, attrs: ExpressionValues) returns (ok: bool)
    modifies svc, attrs
    ensures Outcome(ok, State(attrs.values, svc.calls)) ==
            PassText(expr, names, encrypted, svc.seal, old(State(attrs.values, svc.calls)))
  {
    if expr == "" || |attrs.values| == 0 || |encrypted| == 0 {
      return true;
    }
    var sections := SplitUpdateExpressionSections(expr);
    ok := EncryptSetSection(svc, encrypted, SectionAt(sections, SET), names, attrs);
    if !ok {
      return;
    }
    ok := RejectEncryptedSection(SectionAt(sections, ADD), encrypted, names);
    if ok {
      ok := RejectEncryptedSection(SectionAt(sections, DELETE), encrypted, names);
    }
  }

  // ---- The pass over the clauses that were printed ----

  /** What the pass does with one SET clause. */
  datatype Verdict = Untouched | Seals(attr: string, ref: string) | Refused

  function Judge(c: Clause, names: Names, encrypted: set<string>): Verdict
    requires c.SetClause?
  {
    var (base, nested) := TargetBase(c.target);
    var attr := NameAt(names, base);
    if attr == "" || attr !in encrypted then Untouched
    else if nested then Refused
    else
      match c.rhs
      case FromValue(v) => Seals(attr, v)
      case IfNotExists(_, d) => Seals(attr, d)
      case ListAppend(_, _) => Refused
  }

  predicate AllSets(cs: seq<Clause>) {
    forall i :: 0 <= i < |cs| ==> WellFormed(cs[i]) && cs[i].SetClause?
  }

  function Verdicts(cs: seq<Clause>, names: Names, encrypted: set<string>): (js: seq<Verdict>)
    requires AllSets(cs)
    ensures |js| == |cs|
    ensures forall i :: 0 <= i < |cs| ==> js[i] == Judge(cs[i], names, encrypted)
  {
    seq(|cs|, i requires 0 <= i < |cs| => Judge(cs[i], names, encrypted))
  }

  function Pass(js: seq<Verdict>, seal: Seal, st: State): Outcome
    decreases |js|
  {
    if js == [] then Outcome(true, st)
    else
      match js[0]
      case Untouched => Pass(js[1..], seal, st)
      case Refused => Outcome(false, st)
      case Seals(attr, ref) =>
        var first := SealRef(seal, attr, ref, st);
        if first.ok then Pass(js[1..], seal, first.state) else first
  }

  lemma AssignRecovered(c: Clause, names: Names, encrypted: set<string>, seal: Seal, st: State)
    requires WellFormed(c) && c.SetClause?
    ensures AssignText(ClauseText(c), names, encrypted, seal, st) ==
            match Judge(c, names, encrypted)
            case Untouched => Outcome(true, st)
            case Refused => Outcome(false, st)
            case Seals(attr, ref) => SealRef(seal, attr, ref, st)
  {
    AssignmentRecovered(c.target, c.rhs);
    BaseRecovered(c.target);
    if c.rhs.IfNotExists? {
      DefaultRecovered(c.rhs.name, c.rhs.default);
      assert TrimSpace(RhsText(c.rhs)) == RhsText(c.rhs) by {
        RhsDepth(c.rhs);
        TrimSpaced(RhsText(c.rhs));
      }
    } else {
      OtherRhs(c.rhs);
    }
  }

  lemma {:induction false} AssignsRecovered(
    cs: seq<Clause>, names: Names, encrypted: set<string>, seal: Seal, st: State)
    requires AllSets(cs)
    ensures AssignTexts(ClauseTexts(cs), names, encrypted, seal, st) == Pass(Verdicts(cs, names, encrypted), seal, st)
    decreases |cs|
  {
    if cs != [] {
      assert ClauseTexts(cs)[1..] == ClauseTexts(cs[1..]);
      assert Verdicts(cs, names, encrypted)[1..] == Verdicts(cs[1..], names, encrypted);
      AssignRecovered(cs[0], names, encrypted, seal, st);
      var first := AssignText(ClauseText(cs[0]), names, encrypted, seal, st);
      AssignsRecovered(cs[1..], names, encrypted, seal, first.state);
    }
  }

  /** An ADD or DELETE clause whose operand is a top-level encrypted attribute. */
  predicate TouchesEncrypted(cs: seq<Clause>, names: Names, encrypted: set<string>) {
    exists c :: c in cs && ClauseTouches(c, names, encrypted)
  }

  predicate ClauseTouches(c: Clause, names: Names, encrypted: set<string>) {
    (c.AddClause? || c.DeleteClause?) && NameAt(names, c.name) != "" && NameAt(names, c.name) in encrypted
  }

  lemma PartOfClause(c: Clause, names: Names, encrypted: set<string>)
    requires WellFormed(c) && (c.AddClause? || c.DeleteClause?)
    ensures PartRejected(ClauseText(c), names, encrypted) <==> ClauseTouches(c, names, encrypted)
  {
    PairRecovered(c.name, c.value);
  }

  lemma RejectionRecovered(cs: seq<Clause>, names: Names, encrypted: set<string>)
    requires forall i :: 0 <= i < |cs| ==> WellFormed(cs[i]) && (cs[i].AddClause? || cs[i].DeleteClause?)
    ensures SectionRejected(Join(ClauseTexts(cs), ", "), names, encrypted) <==> TouchesEncrypted(cs, names, encrypted)
  {
    var texts := ClauseTexts(cs);
    if cs == [] {
      assert TopLevelParts("") == [];
    } else {
      ClausesRecovered(cs);
    }
    assert TopLevelParts(Join(texts, ", ")) == texts;
    PartsOfClauses(cs, names, encrypted);
  }

  lemma PartsOfClauses(cs: seq<Clause>, names: Names, encrypted: set<string>)
    requires forall i :: 0 <= i < |cs| ==> WellFormed(cs[i]) && (cs[i].AddClause? || cs[i].DeleteClause?)
    ensures (exists p :: p in ClauseTexts(cs) && PartRejected(p, names, encrypted)) <==>
            TouchesEncrypted(cs, names, encrypted)
  {
    var texts := ClauseTexts(cs);
    forall i | 0 <= i < |cs|
      ensures PartRejected(texts[i], names, encrypted) <==> ClauseTouches(cs[i], names, encrypted)
    {
      PartOfClause(cs[i], names, encrypted);
    }
    if TouchesEncrypted(cs, names, encrypted) {
      var c :| c in cs && ClauseTouches(c, names, encrypted);
      var i :| 0 <= i < |cs| && cs[i] == c;
      assert texts[i] in texts;
    }
    if p :| p in texts && PartRejected(p, names, encrypted) {
      var i :| 0 <= i < |cs| && texts[i] == p;
      assert cs[i] in cs;
    }
  }

  lemma {:induction false} ActionClauses(sections: seq<Section>, a: Action)
    requires WellFormedSections(sections)
    ensures forall i :: 0 <= i < |ClausesOf(sections, a)| ==>
              WellFormed(ClausesOf(sections, a)[i]) && ActionOf(ClausesOf(sections, a)[i]) == a
  {
    if sections != [] && sections[0].action != a {
      ActionClauses(sections[1..], a);
    }
  }

  /**
   The re-parser refines the clauses: on any printed update, with its sections in any order, the pass over the text
   is the pass over the SET clauses followed by the check of the ADD and DELETE clauses.
   */
  lemma PassRefines(sections: seq<Section>, names: Names, encrypted: set<string>, seal: Seal, st: State)
    requires WellFormedSections(sections) && sections != [] && st.values != map[] && encrypted != {}
    ensures AllSets(ClausesOf(sections, SET))
    ensures var set' := Pass(Verdicts(ClausesOf(sections, SET), names, encrypted), seal, st);
            PassText(UpdateExpression(sections), names, encrypted, seal, st) ==
            if !set'.ok then set'
            else Outcome(!TouchesEncrypted(ClausesOf(sections, ADD), names, encrypted) &&
                         !TouchesEncrypted(ClausesOf(sections, DELETE), names, encrypted), set'.state)
  {
    var cs := ClausesOf(sections, SET);
    ActionClauses(sections, SET);
    ActionClauses(sections, ADD);
    ActionClauses(sections, DELETE);
    SectionsRecovered(sections, SET);
    SectionsRecovered(sections, ADD);
    SectionsRecovered(sections, DELETE);
    ExpressionNonempty(sections);
    if cs == [] {
      assert TopLevelParts("") == [];
      assert TopLevelParts(Join(ClauseTexts(cs), ", ")) == ClauseTexts(cs);
    } else {
      ClausesRecovered(cs);
    }
    AssignsRecovered(cs, names, encrypted, seal, st);
    RejectionRecovered(ClausesOf(sections, ADD), names, encrypted);
    RejectionRecovered(ClausesOf(sections, DELETE), names, encrypted);
  }

  lemma ExpressionNonempty(sections: seq<Section>)
    requires sections != []
    ensures UpdateExpression(sections) != ""
  {
    var t := SectionTexts(sections)[0];
    assert t == SectionText(sections[0].action, sections[0].clauses);
    assert |t| > 0;
  }

  // ---- What a successful pass has done ----

  /** The number of values sealed before clause `k`. */
  function SealsBefore(js: seq<Verdict>, k: nat): nat
    requires k <= |js|
  {
    if k == 0 then 0 else SealsBefore(js, k - 1) + if js[k - 1].Seals? then 1 else 0
  }

  /** Each SET clause has a value placeholder of its own, as the builder's counter gives it. */
  predicate DistinctRefs(js: seq<Verdict>) {
    forall i, j :: 0 <= i < j < |js| && js[i].Seals? && js[j].Seals? ==> js[i].ref != js[j].ref
  }

  predicate IsSealedRef(js: seq<Verdict>, ref: string) {
    exists i :: 0 <= i < |js| && js[i].Seals? && js[i].ref == ref
  }

  /**
   Clause `i` was not refused, and if it assigns an encrypted attribute its value was sealed once, from the original.
   */
  predicate Sealed(js: seq<Verdict>, i: nat, seal: Seal, st: State, out: State)
    requires i < |js|
  {
    match js[i]
    case Untouched => true
    case Refused => false
    case Seals(attr, ref) =>
      && ref in st.values && ref in out.values
      && seal(st.calls + SealsBefore(js, i), attr, st.values[ref]) == Ok(out.values[ref])
  }

  ghost predicate OthersKept(js: seq<Verdict>, st: State, out: State) {
    && out.values.Keys == st.values.Keys
    && forall ref :: ref in st.values && !IsSealedRef(js, ref) ==> out.values[ref] == st.values[ref]
  }

  lemma {:induction false} SealsBeforeLast(js: seq<Verdict>, k: nat)
    requires k < |js|
    ensures SealsBefore(js, k) == SealsBefore(js[..|js| - 1], k)
  {
    if k > 0 {
      SealsBeforeLast(js, k - 1);
    }
  }

  /** The pass works from left to right. */
  lemma {:induction false} PassLast(js: seq<Verdict>, seal: Seal, st: State)
    requires js != []
    ensures var k := |js| - 1;
            var before := Pass(js[..k], seal, st);
            Pass(js, seal, st) == if before.ok then Pass(js[k..], seal, before.state) else before
  {
    var k := |js| - 1;
    if k > 0 {
      var st' := if js[0].Seals? then SealRef(seal, js[0].attr, js[0].ref, st).state else st;
      PassLast(js[1..], seal, st');
      assert js[1..][..k - 1] == js[..k][1..] && js[1..][k - 1..] == js[k..];
      assert js[..k][0] == js[0];
    } else {
      assert js[..k] == [] && js[k..] == js;
    }
  }

  /**
   When the pass succeeds no SET clause reaches inside an encrypted attribute or appends to one, each value assigned
   to an encrypted attribute has been encrypted exactly once, under that attribute's name and a call of its own,
   and every other value is untouched.
   */
  lemma {:induction false} PassSealsExactly(js: seq<Verdict>, seal: Seal, st: State)
    requires DistinctRefs(js) && Pass(js, seal, st).ok
    ensures var out := Pass(js, seal, st).state;
            && (forall i :: 0 <= i < |js| ==> Sealed(js, i, seal, st, out))
            && OthersKept(js, st, out)
            && out.calls == st.calls + SealsBefore(js, |js|)
    decreases |js|
  {
    if js != [] {
      var k := |js| - 1;
      PassLast(js, seal, st);
      var mid := Pass(js[..k], seal, st).state;
      var out := Pass(js, seal, st).state;
      PassSealsExactly(js[..k], seal, st);
      SealsBeforeLast(js, k);
      var last := js[k];
      assert js[k..][0] == last && js[k..][1..] == [];
      assert last.Seals? ==> !IsSealedRef(js[..k], last.ref);
      forall i | 0 <= i < |js| ensures Sealed(js, i, seal, st, out) {
        if i < k {
          SealsBeforeLast(js, i);
          assert Sealed(js[..k], i, seal, st, mid);
        }
      }
      KeptLast(js, st, mid, out);
    }
  }

  lemma KeptLast(js: seq<Verdict>, st: State, mid: State, out: State)
    requires js != [] && OthersKept(js[..|js| - 1], st, mid)
    requires out.values.Keys == mid.values.Keys
    requires forall ref :: ref in mid.values && !(js[|js| - 1].Seals? && js[|js| - 1].ref == ref) ==>
               out.values[ref] == mid.values[ref]
    ensures OthersKept(js, st, out)
  {
    var k := |js| - 1;
    forall ref | ref in st.values && !IsSealedRef(js, ref) ensures out.values[ref] == st.values[ref] {
      assert !IsSealedRef(js[..k], ref);
    }
  }

  predicate Passable(j: Verdict, values: Values) {
    match j
    case Untouched => true
    case Refused => false
    case Seals(_, ref) => ref in values
  }

  /**
   With an encryption service that does not fail, the pass fails only on a refused clause or an unbound placeholder.
   */
  lemma {:induction false} PassSucceeds(js: seq<Verdict>, seal: Seal, st: State)
    requires forall n, a, v :: seal(n, a, v).Ok?
    ensures Pass(js, seal, st).ok <==> forall i :: 0 <= i < |js| ==> Passable(js[i], st.values)
    decreases |js|
  {
    if js != [] && Passable(js[0], st.values) {
      var st' := if js[0].Seals? then SealRef(seal, js[0].attr, js[0].ref, st).state else st;
      PassSucceeds(js[1..], seal, st');
      assert st'.values.Keys == st.values.Keys;
      assert forall i :: 0 <= i < |js| - 1 ==> (Passable(js[1..][i], st'.values) <==> Passable(js[i + 1], st.values));
      if forall i :: 0 <= i < |js| - 1 ==> Passable(js[1..][i], st'.values) {
        forall i | 0 <= i < |js| ensures Passable(js[i], st.values) {
          assert i > 0 ==> Passable(js[1..][i - 1], st'.values);
        }
      }
    }
  }
}
