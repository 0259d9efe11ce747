/**
 The encryption pass (internal/encryption/update_expression.go) on updates the builder prints, in terms of what the
 updates do.
 */
module UpdateSealing {
  import opened Text
  import opened Attributes
  import opened ConditionGrammar
  import opened ConditionMeaning
  import opened Placeholders
  import opened UpdateClauses
  import opened UpdateMeaning
  import opened UpdateReparse
  import opened UpdateText
  import UE = UpdateEncryption

  // ---- What the pass should do to each effect ----

  /** The attribute path an effect reaches. */
  function Reached(e: Effect): Term {
    match e
    case SetTo(place, _) => place.path
    case AddTo(path, _) => path
    case Removed(place) => place.path
    case DeletedFrom(path, _) => path
  }

  predicate IsEncrypted(t: Term, encrypted: set<string>) {
    t.Path? && t.steps != [] && t.steps[0].name in encrypted
  }

  predicate TopLevel(t: Term) {
    t.Path? && |t.steps| == 1
  }

  /**
   An encrypted attribute may be assigned whole, from one value, or removed; ADD and DELETE may only reach inside it.
   */
  predicate Allowed(e: Effect, encrypted: set<string>) {
    match e
    case SetTo(place, rhs) =>
      IsEncrypted(place.path, encrypted) ==> TopLevel(place.path) && place.index.None? && !rhs.Appended?
    case AddTo(path, _) => !(IsEncrypted(path, encrypted) && TopLevel(path))
    case Removed(_) => true
    case DeletedFrom(path, _) => !(IsEncrypted(path, encrypted) && TopLevel(path))
  }

  /** An assignment whose value has to be encrypted. */
  predicate Seals(e: Effect, encrypted: set<string>) {
    e.SetTo? && IsEncrypted(e.place.path, encrypted)
  }

  function SealedBefore(es: seq<Effect>, encrypted: set<string>, k: nat): nat
    requires k <= |es|
  {
    if k == 0 then 0 else SealedBefore(es, encrypted, k - 1) + if Seals(es[k - 1], encrypted) then 1 else 0
  }

  /** The effect sent in place of `e`: its value encrypted under the attribute's name by call `n`, or `e` itself. */
  predicate SentAs(e: Effect, sent: Effect, encrypted: set<string>, seal: UE.Seal, n: nat) {
    if !Seals(e, encrypted) then sent == e
    else
      var attr := e.place.path.steps[0].name;
      match e.rhs
      case Outright(Value(av)) =>
        seal(n, attr, av).Ok? && sent == SetTo(e.place, Outright(Value(seal(n, attr, av).value)))
      case Default(path, Value(av)) =>
        seal(n, attr, av).Ok? && sent == SetTo(e.place, Default(path, Value(seal(n, attr, av).value)))
      case _ => false
  }

  // ---- From references to attributes ----

  lemma {:induction false} StepsOf(parts: seq<string>, names: Names)
    requires ResolveSteps(parts, names).Some?
    ensures |ResolveSteps(parts, names).value| == |parts|
  {
    if parts != [] {
      StepsOf(parts[1..], names);
    }
  }

  lemma SplitHead(w: string)
    ensures Split(w, '.')[0] == w[..Span(w, c => c != '.')]
    ensures |Split(w, '.')| > 1 <==> '.' in w
  {
    var n := Span(w, d => d != '.');
    SpanSame(w);
    if n == |w| {
      assert w[..n] == w;
    } else {
      assert w[n] == '.';
    }
  }

  lemma SpanSame(w: string)
    ensures Span(w, d => d != '.') == Span(w, c => c != '.')
  {
    SpanStops(w, d => d != '.', c => c != '.');
  }

  /** The attribute a reference starts at is what its first placeholder is bound to. */
  lemma HeadFound(w: string, names: Names, values: Values)
    requires IsNamePlaceholder(w) && Meant(w, names, values) != Unbound
    ensures var t := Meant(w, names, values);
            && t.Path? && t.steps != []
            && w[..Span(w, c => c != '.')] in names
            && t.steps[0].name == names[w[..Span(w, c => c != '.')]]
            && (|t.steps| > 1 <==> '.' in w)
  {
    var parts := Split(w, '.');
    SplitHead(w);
    StepsOf(parts, names);
    var part := parts[0];
    var n := Span(w, c => c != '.');
    assert n > 0 && part[0] == '#';
    SpanCat(part, "", c => c != '[');
    assert part + "" == part && part[..|part|] == part;
    assert ResolveStep(part, names) == Some(Meant(w, names, values).steps[0]);
  }

  /** ADD and DELETE look the whole reference up, which finds attributes at the top level alone. */
  lemma WholeFound(w: string, naming: Naming, values: Values)
    requires WellNamed(naming) && IsNamePlaceholder(w) && Meant(w, naming.names, values) != Unbound
    ensures UE.NameAt(naming.names, w) ==
            if TopLevel(Meant(w, naming.names, values)) then Meant(w, naming.names, values).steps[0].name else ""
  {
    HeadFound(w, naming.names, values);
    if '.' !in w {
      SplitDotless(w);
      SplitHead(w);
    }
  }

  lemma BaseFound(t: Target, names: Names, values: Values)
    requires IsNamePlaceholder(t.name) && Meant(t.name, names, values) != Unbound
    ensures var path := Meant(t.name, names, values);
            && path.Path? && path.steps != []
            && UE.NameAt(names, TargetBase(t).0) == path.steps[0].name
            && (TargetBase(t).1 <==> !TopLevel(path) || t.index.Some?)
  {
    HeadFound(t.name, names, values);
  }

  // ---- The verdict on each clause ----

  /** The one value assigned outright or by default. */
  predicate AssignsRef(r: Rhs, ref: string) {
    match r
    case FromValue(v) => v == ref
    case IfNotExists(_, d) => d == ref
    case ListAppend(_, _) => false
  }

  /** The verdict on a SET clause, in terms of what it does. */
  lemma JudgeMeans(c: Clause, names: Names, values: Values, encrypted: set<string>)
    requires WellFormed(c) && c.SetClause? && "" !in encrypted && ClosedEffect(EffectOf(c, names, values))
    ensures var e := EffectOf(c, names, values);
            match UE.Judge(c, names, encrypted)
            case Untouched => !Seals(e, encrypted)
            case Refused => !Allowed(e, encrypted)
            case Seals(attr, ref) =>
              && Seals(e, encrypted) && Allowed(e, encrypted) && attr == e.place.path.steps[0].name
              && ref in values && Uses(c) == {ref} && AssignsRef(c.rhs, ref)
  {
    BaseFound(c.target, names, values);
  }

  lemma TouchMeans(c: Clause, naming: Naming, values: Values, encrypted: set<string>)
    requires WellFormed(c) && !c.SetClause? && "" !in encrypted && WellNamed(naming)
    requires ClosedEffect(EffectOf(c, naming.names, values))
    ensures UE.ClauseTouches(c, naming.names, encrypted) <==> !Allowed(EffectOf(c, naming.names, values), encrypted)
  {
    if c.AddClause? || c.DeleteClause? {
      WholeFound(c.name, naming, values);
      HeadFound(c.name, naming.names, values);
    }
  }

  // ---- The clauses of one action, in the order of the calls ----

  lemma {:induction false} OfActionHas(cs: seq<Clause>, a: Action, i: nat)
    requires i < |cs| && ActionOf(cs[i]) == a
    ensures cs[i] in OfAction(cs, a)
  {
    var k := |cs| - 1;
    if i < k {
      OfActionHas(cs[..k], a, i);
    }
  }

  /** The clauses of an action added before clause `i` come first, and clause `i` next if it is one of them. */
  lemma {:induction false} OfActionAt(cs: seq<Clause>, a: Action, i: nat)
    requires i <= |cs|
    ensures var n := |OfAction(cs[..i], a)|;
            && n <= |OfAction(cs, a)| && OfAction(cs, a)[..n] == OfAction(cs[..i], a)
            && (i < |cs| && ActionOf(cs[i]) == a ==> n < |OfAction(cs, a)| && OfAction(cs, a)[n] == cs[i])
    decreases |cs|
  {
    if i == |cs| {
      assert cs[..i] == cs;
    } else {
      var k := |cs| - 1;
      OfActionAt(cs[..k], a, i);
      OfActionNext(cs, a);
      assert cs[..k][..i] == cs[..i];
    }
  }

  lemma OfActionNext(cs: seq<Clause>, a: Action)
    requires cs != []
    ensures var k := |cs| - 1; OfAction(cs, a) == OfAction(cs[..k], a) + if ActionOf(cs[k]) == a then [cs[k]] else []
  {
  }

  // ---- When the pass accepts an update ----

  ghost predicate AllAllowed(es: seq<Effect>, encrypted: set<string>) {
    forall i :: 0 <= i < |es| ==> Allowed(es[i], encrypted)
  }

  /** The builder's clauses, what they do, and the names they do it under. */
  ghost predicate Working(cs: seq<Clause>, es: seq<Effect>, naming: Naming, values: Values) {
    AllWellFormed(cs) && AllDo(cs, naming.names, values, es) && WellNamed(naming)
  }

  lemma ClauseDoes(cs: seq<Clause>, es: seq<Effect>, naming: Naming, values: Values, c: Clause) returns (i: nat)
    requires Working(cs, es, naming, values) && c in cs
    ensures i < |cs| && cs[i] == c && WellFormed(c)
    ensures EffectOf(c, naming.names, values) == es[i] && ClosedEffect(es[i])
  {
    i :| 0 <= i < |cs| && cs[i] == c;
    assert Does(cs[i], naming.names, values, es[i]);
  }

  /** Every SET clause does something allowed. */
  ghost predicate SetsAllowed(cs: seq<Clause>, es: seq<Effect>, encrypted: set<string>)
    requires |cs| == |es|
  {
    forall i :: 0 <= i < |cs| && cs[i].SetClause? ==> Allowed(es[i], encrypted)
  }

  predicate AllPassable(js: seq<UE.Verdict>, values: Values) {
    forall k :: 0 <= k < |js| ==> UE.Passable(js[k], values)
  }

  lemma PassableAllowed(cs: seq<Clause>, es: seq<Effect>, naming: Naming, values: Values, encrypted: set<string>)
    requires Working(cs, es, naming, values) && "" !in encrypted && UE.AllSets(OfAction(cs, SET))
    requires AllPassable(UE.Verdicts(OfAction(cs, SET), naming.names, encrypted), values)
    ensures SetsAllowed(cs, es, encrypted)
  {
    var sets := OfAction(cs, SET);
    forall i | 0 <= i < |cs| && cs[i].SetClause? ensures Allowed(es[i], encrypted) {
      OfActionHas(cs, SET, i);
      var k :| 0 <= k < |sets| && sets[k] == cs[i];
      assert UE.Passable(UE.Verdicts(sets, naming.names, encrypted)[k], values);
      assert Does(cs[i], naming.names, values, es[i]);
      JudgeMeans(cs[i], naming.names, values, encrypted);
    }
  }

  lemma AllowedPassable(cs: seq<Clause>, es: seq<Effect>, naming: Naming, values: Values, encrypted: set<string>)
    requires Working(cs, es, naming, values) && "" !in encrypted && UE.AllSets(OfAction(cs, SET))
    requires SetsAllowed(cs, es, encrypted)
    ensures AllPassable(UE.Verdicts(OfAction(cs, SET), naming.names, encrypted), values)
  {
    var sets := OfAction(cs, SET);
    forall k | 0 <= k < |sets| ensures UE.Passable(UE.Judge(sets[k], naming.names, encrypted), values) {
      var i := ClauseDoes(cs, es, naming, values, sets[k]);
      JudgeMeans(sets[k], naming.names, values, encrypted);
    }
  }

  lemma SetsPass(
    cs: seq<Clause>, es: seq<Effect>, naming: Naming, values: Values, encrypted: set<string>, seal: UE.Seal, calls: nat)
    requires Working(cs, es, naming, values) && "" !in encrypted && forall n, a, v :: seal(n, a, v).Ok?
    ensures UE.AllSets(OfAction(cs, SET))
    ensures UE.Pass(UE.Verdicts(OfAction(cs, SET), naming.names, encrypted), seal, UE.State(values, calls)).ok <==>
            SetsAllowed(cs, es, encrypted)
  {
    var sets := OfAction(cs, SET);
    forall i | 0 <= i < |sets| ensures WellFormed(sets[i]) && sets[i].SetClause? {
      var m := ClauseDoes(cs, es, naming, values, sets[i]);
    }
    var js := UE.Verdicts(sets, naming.names, encrypted);
    UE.PassSucceeds(js, seal, UE.State(values, calls));
    if AllPassable(js, values) {
      PassableAllowed(cs, es, naming, values, encrypted);
    }
    if SetsAllowed(cs, es, encrypted) {
      AllowedPassable(cs, es, naming, values, encrypted);
    }
  }

  lemma OthersPass(cs: seq<Clause>, es: seq<Effect>, naming: Naming, values: Values, encrypted: set<string>, a: Action)
    requires Working(cs, es, naming, values) && "" !in encrypted && a != SET
    ensures UE.TouchesEncrypted(OfAction(cs, a), naming.names, encrypted) <==>
            exists i :: 0 <= i < |cs| && ActionOf(cs[i]) == a && !Allowed(es[i], encrypted)
  {
    if UE.TouchesEncrypted(OfAction(cs, a), naming.names, encrypted) {
      var c :| c in OfAction(cs, a) && UE.ClauseTouches(c, naming.names, encrypted);
      var i := ClauseDoes(cs, es, naming, values, c);
      TouchMeans(c, naming, values, encrypted);
      assert !Allowed(es[i], encrypted);
    }
    if i :| 0 <= i < |cs| && ActionOf(cs[i]) == a && !Allowed(es[i], encrypted) {
      OfActionHas(cs, a, i);
      assert Does(cs[i], naming.names, values, es[i]);
      TouchMeans(cs[i], naming, values, encrypted);
    }
  }

  /** Without values there is nothing but REMOVE clauses. */
  lemma NoValues(cs: seq<Clause>, es: seq<Effect>, naming: Naming)
    requires Working(cs, es, naming, map[])
    ensures forall i :: 0 <= i < |cs| ==> es[i].Removed?
  {
    forall i | 0 <= i < |cs| ensures es[i].Removed? {
      assert Does(cs[i], naming.names, map[], es[i]);
    }
  }

  /**
   With an encryption service that does not fail, the pass accepts a printed update exactly when every effect is
   allowed.
   */
  lemma AcceptedExactly(
    text: string, cs: seq<Clause>, es: seq<Effect>, naming: Naming, values: Values, encrypted: set<string>,
    seal: UE.Seal, calls: nat)
    requires Prints(text, cs) && Working(cs, es, naming, values)
    requires "" !in encrypted && forall n, a, v :: seal(n, a, v).Ok?
    ensures UE.PassText(text, naming.names, encrypted, seal, UE.State(values, calls)).ok <==> AllAllowed(es, encrypted)
  {
    var order :| Visits(order, cs) && text == UpdateExpression(Sections(cs, order));
    if values == map[] {
      NoValues(cs, es, naming);
    } else if order == [] {
      NothingAdded(cs, order);
    } else if encrypted != {} {
      SectionsWellFormed(cs, order);
      UE.PassRefines(Sections(cs, order), naming.names, encrypted, seal, UE.State(values, calls));
      SetsPass(cs, es, naming, values, encrypted, seal, calls);
      OthersPass(cs, es, naming, values, encrypted, ADD);
      OthersPass(cs, es, naming, values, encrypted, DELETE);
      SplitByAction(cs, es, naming, values, encrypted);
    }
  }

  lemma NothingAdded(cs: seq<Clause>, order: seq<Action>)
    requires Visits(order, cs) && order == []
    ensures cs == []
  {
    if cs != [] {
      OfActionHas(cs, ActionOf(cs[0]), 0);
    }
  }

  lemma SplitByAction(cs: seq<Clause>, es: seq<Effect>, naming: Naming, values: Values, encrypted: set<string>)
    requires Working(cs, es, naming, values)
    ensures AllAllowed(es, encrypted) <==>
            && SetsAllowed(cs, es, encrypted)
            && (forall i :: 0 <= i < |cs| && ActionOf(cs[i]) == ADD ==> Allowed(es[i], encrypted))
            && (forall i :: 0 <= i < |cs| && ActionOf(cs[i]) == DELETE ==> Allowed(es[i], encrypted))
  {
    forall i | 0 <= i < |cs| && cs[i].RemoveClause? ensures Allowed(es[i], encrypted) {
      assert Does(cs[i], naming.names, values, es[i]);
    }
  }

  // ---- What an accepted update is sent as ----

  lemma {:induction false} SealsBeforePrefix(js: seq<UE.Verdict>, k: nat, n: nat)
    requires k <= n <= |js|
    ensures UE.SealsBefore(js[..n], k) == UE.SealsBefore(js, k)
  {
    if k > 0 {
      SealsBeforePrefix(js, k - 1, n);
    }
  }

  lemma CallStep(c: Clause, names: Names, values: Values, encrypted: set<string>)
    requires WellFormed(c) && "" !in encrypted && ClosedEffect(EffectOf(c, names, values))
    ensures c.SetClause? ==>
              && (UE.Judge(c, names, encrypted).Seals? <==>
                  Seals(EffectOf(c, names, values), encrypted) && Allowed(EffectOf(c, names, values), encrypted))
              && (UE.Judge(c, names, encrypted).Untouched? <==> !Seals(EffectOf(c, names, values), encrypted))
    ensures !c.SetClause? ==> !Seals(EffectOf(c, names, values), encrypted)
  {
    if c.SetClause? {
      JudgeMeans(c, names, values, encrypted);
    }
  }

  /** No verdict before the `k`-th is a refusal. */
  predicate NoneRefused(js: seq<UE.Verdict>) {
    forall i :: 0 <= i < |js| ==> !js[i].Refused?
  }

  lemma CallNext(
    cs: seq<Clause>, es: seq<Effect>, naming: Naming, values: Values, encrypted: set<string>, k: nat)
    requires Working(cs, es, naming, values) && "" !in encrypted && k < |cs| && UE.AllSets(OfAction(cs, SET))
    requires NoneRefused(UE.Verdicts(OfAction(cs, SET), naming.names, encrypted))
    ensures var js, n := UE.Verdicts(OfAction(cs, SET), naming.names, encrypted), |OfAction(cs[..k], SET)|;
            && n <= |OfAction(cs[..k + 1], SET)| <= |js|
            && UE.SealsBefore(js, |OfAction(cs[..k + 1], SET)|) ==
               UE.SealsBefore(js, n) + if Seals(es[k], encrypted) then 1 else 0
  {
    OfActionAt(cs, SET, k);
    OfActionAt(cs, SET, k + 1);
    OneMore(cs, k);
    assert Does(cs[k], naming.names, values, es[k]);
    CallStep(cs[k], naming.names, values, encrypted);
    if cs[k].SetClause? {
      assert UE.Verdicts(OfAction(cs, SET), naming.names, encrypted)[|OfAction(cs[..k], SET)|] ==
             UE.Judge(cs[k], naming.names, encrypted);
    }
  }

  /** Calls are numbered by the assignments to encrypted attributes that came before. */
  lemma {:induction false} CallsBefore(
    cs: seq<Clause>, es: seq<Effect>, naming: Naming, values: Values, encrypted: set<string>, i: nat)
    requires Working(cs, es, naming, values) && "" !in encrypted && i <= |cs| && UE.AllSets(OfAction(cs, SET))
    requires NoneRefused(UE.Verdicts(OfAction(cs, SET), naming.names, encrypted))
    requires |OfAction(cs[..i], SET)| <= |OfAction(cs, SET)|
    ensures UE.SealsBefore(UE.Verdicts(OfAction(cs, SET), naming.names, encrypted), |OfAction(cs[..i], SET)|) ==
            SealedBefore(es, encrypted, i)
  {
    if i == 0 {
      assert cs[..0] == [];
    } else {
      CallNext(cs, es, naming, values, encrypted, i - 1);
      CallsBefore(cs, es, naming, values, encrypted, i - 1);
    }
  }

  lemma OneMore(cs: seq<Clause>, k: nat)
    requires k < |cs|
    ensures |OfAction(cs[..k + 1], SET)| == |OfAction(cs[..k], SET)| + if cs[k].SetClause? then 1 else 0
  {
    assert cs[..k + 1][..k] == cs[..k] && cs[..k + 1][k] == cs[k];
    match cs[k] {
      case SetClause(_, _) =>
      case _ => assert ActionOf(cs[k]) != SET;
    }
  }

  /** The place in `cs` of a clause the pass seals. */
  lemma SealedClause(
    cs: seq<Clause>, es: seq<Effect>, naming: Naming, values: Values, encrypted: set<string>, w: string)
    returns (m: nat)
    requires Working(cs, es, naming, values) && "" !in encrypted && UE.AllSets(OfAction(cs, SET))
    requires UE.IsSealedRef(UE.Verdicts(OfAction(cs, SET), naming.names, encrypted), w)
    ensures m < |cs| && cs[m].SetClause? && Uses(cs[m]) == {w} && Seals(es[m], encrypted)
  {
    var sets := OfAction(cs, SET);
    var js := UE.Verdicts(sets, naming.names, encrypted);
    var k :| 0 <= k < |js| && js[k].Seals? && js[k].ref == w;
    m := ClauseDoes(cs, es, naming, values, sets[k]);
    JudgeMeans(cs[m], naming.names, values, encrypted);
  }

  lemma {:induction false} RefsDistinct(
    cs: seq<Clause>, marks: seq<nat>, naming: Naming, values: Values, encrypted: set<string>, es: seq<Effect>)
    requires Working(cs, es, naming, values) && Marked(cs, marks) && "" !in encrypted && UE.AllSets(OfAction(cs, SET))
    ensures UE.DistinctRefs(UE.Verdicts(OfAction(cs, SET), naming.names, encrypted))
    decreases |cs|
  {
    if cs != [] {
      var k := |cs| - 1;
      var sets, before := OfAction(cs, SET), OfAction(cs[..k], SET);
      OfActionNext(cs, SET);
      assert sets[..|before|] == before;
      forall i | 0 <= i < |before| ensures WellFormed(before[i]) && before[i].SetClause? {
        assert sets[i] == before[i];
      }
      MarkedPrefix(cs, marks, k);
      WorkingPrefix(cs, es, naming, values, k);
      RefsDistinct(cs[..k], marks[..k], naming, values, encrypted, es[..k]);
      var js, js' := UE.Verdicts(sets, naming.names, encrypted), UE.Verdicts(before, naming.names, encrypted);
      assert js[..|js'|] == js';
      if |js| > |js'| {
        LastDistinct(cs, marks, naming, values, encrypted, es);
      }
    }
  }

  lemma WorkingPrefix(cs: seq<Clause>, es: seq<Effect>, naming: Naming, values: Values, k: nat)
    requires Working(cs, es, naming, values) && k <= |cs|
    ensures Working(cs[..k], es[..k], naming, values)
  {
    forall i | 0 <= i < k ensures Does(cs[..k][i], naming.names, values, es[..k][i]) {
      assert Does(cs[i], naming.names, values, es[i]);
    }
  }

  lemma MarkedPrefix(cs: seq<Clause>, marks: seq<nat>, k: nat)
    requires Marked(cs, marks) && k <= |cs|
    ensures Marked(cs[..k], marks[..k])
  {
    forall i | 0 <= i < k ensures IssuedBetween(cs[..k][i], LastMark(marks[..k][..i]), marks[..k][i]) {
      assert marks[..k][..i] == marks[..i];
    }
  }

  /** The last clause's value is not one an earlier clause uses. */
  lemma LastDistinct(
    cs: seq<Clause>, marks: seq<nat>, naming: Naming, values: Values, encrypted: set<string>, es: seq<Effect>)
    requires Working(cs, es, naming, values) && Marked(cs, marks) && "" !in encrypted && UE.AllSets(OfAction(cs, SET))
    requires cs != [] && cs[|cs| - 1].SetClause?
    ensures var js := UE.Verdicts(OfAction(cs, SET), naming.names, encrypted);
            forall i :: 0 <= i < |js| - 1 && js[i].Seals? && js[|js| - 1].Seals? ==> js[i].ref != js[|js| - 1].ref
  {
    var k := |cs| - 1;
    var sets := OfAction(cs, SET);
    var js := UE.Verdicts(sets, naming.names, encrypted);
    assert Does(cs[k], naming.names, values, es[k]);
    JudgeMeans(cs[k], naming.names, values, encrypted);
    forall i | 0 <= i < |js| - 1 && js[i].Seals? && js[|js| - 1].Seals? ensures js[i].ref != js[|js| - 1].ref {
      assert sets[i] == OfAction(cs[..k], SET)[i] && sets[i] in OfAction(cs[..k], SET);
      var m :| 0 <= m < k && cs[..k][m] == sets[i];
      assert Does(cs[m], naming.names, values, es[m]);
      JudgeMeans(cs[m], naming.names, values, encrypted);
      UsesDistinct(cs, marks, m, k);
    }
  }

  /** A clause does the same under values that agree on the ones it uses. */
  lemma SameUses(c: Clause, names: Names, values: Values, values': Values)
    requires WellFormed(c) && ClosedEffect(EffectOf(c, names, values))
    requires forall w :: w in Uses(c) && w in values ==> w in values' && values'[w] == values[w]
    ensures EffectOf(c, names, values') == EffectOf(c, names, values)
  {
  }

  /** A SET clause with a new value for its own placeholder assigns that value. */
  lemma NewValue(c: Clause, names: Names, values: Values, values': Values, ref: string)
    requires WellFormed(c) && c.SetClause? && AssignsRef(c.rhs, ref)
    requires ref in values && ref in values'
    ensures var e, e' := EffectOf(c, names, values), EffectOf(c, names, values');
            && e'.place == e.place
            && (c.rhs.FromValue? ==> e.rhs == Outright(Value(values[ref])) && e'.rhs == Outright(Value(values'[ref])))
            && (c.rhs.IfNotExists? ==>
                  && e.rhs == Default(e.rhs.path, Value(values[ref]))
                  && e'.rhs == Default(e.rhs.path, Value(values'[ref])))
  {
  }

  predicate EachSealed(js: seq<UE.Verdict>, seal: UE.Seal, st: UE.State, out: UE.State) {
    forall i :: 0 <= i < |js| ==> UE.Sealed(js, i, seal, st, out)
  }

  /** The state the pass leaves behind, in terms of the clauses. */
  ghost predicate Sealing(
    cs: seq<Clause>, names: Names, encrypted: set<string>, seal: UE.Seal, st: UE.State, out: UE.State)
    requires UE.AllSets(OfAction(cs, SET))
  {
    var js := UE.Verdicts(OfAction(cs, SET), names, encrypted);
    && EachSealed(js, seal, st, out)
    && UE.OthersKept(js, st, out)
    && out.calls == st.calls + UE.SealsBefore(js, |js|)
  }

  /** The place among the SET clauses of one that assigns an encrypted attribute. */
  lemma SetAt(cs: seq<Clause>, es: seq<Effect>, naming: Naming, values: Values, encrypted: set<string>, i: nat)
    returns (n: nat)
    requires Working(cs, es, naming, values) && "" !in encrypted && i < |cs| && Seals(es[i], encrypted)
    requires UE.AllSets(OfAction(cs, SET))
    ensures n == |OfAction(cs[..i], SET)| && n < |OfAction(cs, SET)| && cs[i].SetClause?
    ensures UE.Verdicts(OfAction(cs, SET), naming.names, encrypted)[n] == UE.Judge(cs[i], naming.names, encrypted)
    ensures !UE.Judge(cs[i], naming.names, encrypted).Untouched?
  {
    assert Does(cs[i], naming.names, values, es[i]);
    CallStep(cs[i], naming.names, values, encrypted);
    OfActionAt(cs, SET, i);
    n := |OfAction(cs[..i], SET)|;
  }

  /** The verdict on an assignment to an encrypted attribute, and the number of the call that encrypts its value. */
  lemma SealingVerdict(
    cs: seq<Clause>, es: seq<Effect>, naming: Naming, values: Values, encrypted: set<string>, i: nat) returns (n: nat)
    requires Working(cs, es, naming, values) && "" !in encrypted && i < |cs| && Seals(es[i], encrypted)
    requires UE.AllSets(OfAction(cs, SET)) && NoneRefused(UE.Verdicts(OfAction(cs, SET), naming.names, encrypted))
    ensures var js := UE.Verdicts(OfAction(cs, SET), naming.names, encrypted);
            && n < |js| && js[n] == UE.Judge(cs[i], naming.names, encrypted) && js[n].Seals?
            && SealedBefore(es, encrypted, i) == UE.SealsBefore(js, n)
    ensures WellFormed(cs[i]) && cs[i].SetClause? && Does(cs[i], naming.names, values, es[i])
  {
    n := SetAt(cs, es, naming, values, encrypted, i);
    CallsBefore(cs, es, naming, values, encrypted, i);
    assert Does(cs[i], naming.names, values, es[i]);
  }

  /** The value of a clause that is not sealed is not the value of one that is. */
  lemma OwnValue(
    cs: seq<Clause>, marks: seq<nat>, es: seq<Effect>, naming: Naming, values: Values, encrypted: set<string>,
    i: nat, w: string)
    requires Working(cs, es, naming, values) && Marked(cs, marks) && "" !in encrypted && i < |cs|
    requires UE.AllSets(OfAction(cs, SET)) && !Seals(es[i], encrypted) && w in Uses(cs[i])
    ensures !UE.IsSealedRef(UE.Verdicts(OfAction(cs, SET), naming.names, encrypted), w)
  {
    if UE.IsSealedRef(UE.Verdicts(OfAction(cs, SET), naming.names, encrypted), w) {
      var m := SealedClause(cs, es, naming, values, encrypted, w);
      if m < i {
        UsesDistinct(cs, marks, m, i);
      } else {
        UsesDistinct(cs, marks, i, m);
      }
    }
  }

  /** Every other clause does what it did. */
  lemma OtherSent(
    cs: seq<Clause>, marks: seq<nat>, es: seq<Effect>, naming: Naming, encrypted: set<string>,
    st: UE.State, out: UE.State, i: nat)
    requires Working(cs, es, naming, st.values) && Marked(cs, marks) && "" !in encrypted && i < |cs|
    requires UE.AllSets(OfAction(cs, SET)) && !Seals(es[i], encrypted)
    requires UE.OthersKept(UE.Verdicts(OfAction(cs, SET), naming.names, encrypted), st, out)
    ensures EffectOf(cs[i], naming.names, out.values) == es[i]
  {
    assert Does(cs[i], naming.names, st.values, es[i]);
    forall w | w in Uses(cs[i]) && w in st.values ensures w in out.values && out.values[w] == st.values[w] {
      OwnValue(cs, marks, es, naming, st.values, encrypted, i, w);
    }
    SameUses(cs[i], naming.names, st.values, out.values);
  }

  lemma NotRefused(js: seq<UE.Verdict>, seal: UE.Seal, st: UE.State, out: UE.State)
    requires EachSealed(js, seal, st, out)
    ensures NoneRefused(js)
  {
    forall i | 0 <= i < |js| ensures !js[i].Refused? {
      assert UE.Sealed(js, i, seal, st, out);
    }
  }

  /** A sealed clause is sent with its value encrypted. */
  lemma ValueSent(c: Clause, e: Effect, names: Names, encrypted: set<string>, seal: UE.Seal, values: Values,
      values': Values, attr: string, ref: string, n: nat)
    requires WellFormed(c) && c.SetClause? && "" !in encrypted && Does(c, names, values, e)
    requires UE.Judge(c, names, encrypted) == UE.Verdict.Seals(attr, ref)
    requires ref in values && ref in values' && seal(n, attr, values[ref]) == Ok(values'[ref])
    ensures SentAs(e, EffectOf(c, names, values'), encrypted, seal, n)
  {
    JudgeMeans(c, names, values, encrypted);
    NewValue(c, names, values, values', ref);
  }

  /** Clause `i` is sent as what it does, with its value encrypted where it has to be. */
  ghost predicate SentAt(
    cs: seq<Clause>, es: seq<Effect>, names: Names, encrypted: set<string>, seal: UE.Seal, st: UE.State, out: UE.State,
    i: nat)
    requires i < |cs| == |es|
  {
    SentAs(es[i], EffectOf(cs[i], names, out.values), encrypted, seal, st.calls + SealedBefore(es, encrypted, i))
  }

  ghost predicate AllSent(
    cs: seq<Clause>, es: seq<Effect>, names: Names, encrypted: set<string>, seal: UE.Seal, st: UE.State, out: UE.State)
    requires |cs| == |es|
  {
    && (forall i :: 0 <= i < |cs| ==> SentAt(cs, es, names, encrypted, seal, st, out, i))
    && out.calls == st.calls + SealedBefore(es, encrypted, |es|)
    && out.values.Keys == st.values.Keys
  }

  lemma VerdictSent(cs: seq<Clause>, es: seq<Effect>, names: Names, encrypted: set<string>, seal: UE.Seal,
      st: UE.State, out: UE.State, js: seq<UE.Verdict>, i: nat, n: nat)
    requires i < |cs| == |es| && WellFormed(cs[i]) && cs[i].SetClause? && "" !in encrypted
    requires Does(cs[i], names, st.values, es[i])
    requires n < |js| && js[n] == UE.Judge(cs[i], names, encrypted) && js[n].Seals?
    requires UE.Sealed(js, n, seal, st, out) && SealedBefore(es, encrypted, i) == UE.SealsBefore(js, n)
    ensures SentAt(cs, es, names, encrypted, seal, st, out, i)
  {
    ValueSent(cs[i], es[i], names, encrypted, seal, st.values, out.values, js[n].attr, js[n].ref,
      st.calls + SealedBefore(es, encrypted, i));
  }

  lemma {:induction false} NothingSealed(es: seq<Effect>, encrypted: set<string>, k: nat)
    requires k <= |es| && forall i :: 0 <= i < |es| ==> !Seals(es[i], encrypted)
    ensures SealedBefore(es, encrypted, k) == 0
  {
    if k > 0 {
      NothingSealed(es, encrypted, k - 1);
    }
  }

  lemma AllClausesSent(
    cs: seq<Clause>, marks: seq<nat>, es: seq<Effect>, naming: Naming, encrypted: set<string>, seal: UE.Seal,
    st: UE.State, out: UE.State)
    requires Working(cs, es, naming, st.values) && Marked(cs, marks) && "" !in encrypted
    requires UE.AllSets(OfAction(cs, SET)) && Sealing(cs, naming.names, encrypted, seal, st, out)
    ensures AllSent(cs, es, naming.names, encrypted, seal, st, out)
  {
    var js := UE.Verdicts(OfAction(cs, SET), naming.names, encrypted);
    NotRefused(js, seal, st, out);
    forall i | 0 <= i < |cs| ensures SentAt(cs, es, naming.names, encrypted, seal, st, out, i) {
      if Seals(es[i], encrypted) {
        var n := SealingVerdict(cs, es, naming, st.values, encrypted, i);
        VerdictSent(cs, es, naming.names, encrypted, seal, st, out, js, i, n);
      } else {
        OtherSent(cs, marks, es, naming, encrypted, st, out, i);
      }
    }
    CallsMade(cs, es, naming, encrypted, seal, st, out);
  }

  lemma CallsMade(
    cs: seq<Clause>, es: seq<Effect>, naming: Naming, encrypted: set<string>, seal: UE.Seal, st: UE.State,
    out: UE.State)
    requires Working(cs, es, naming, st.values) && "" !in encrypted
    requires UE.AllSets(OfAction(cs, SET)) && Sealing(cs, naming.names, encrypted, seal, st, out)
    ensures out.calls == st.calls + SealedBefore(es, encrypted, |es|)
  {
    NotRefused(UE.Verdicts(OfAction(cs, SET), naming.names, encrypted), seal, st, out);
    assert cs[..|cs|] == cs;
    CallsBefore(cs, es, naming, st.values, encrypted, |cs|);
  }

  /** An accepted update with something to seal. */
  lemma PassSealing(
    cs: seq<Clause>, marks: seq<nat>, es: seq<Effect>, naming: Naming, encrypted: set<string>, seal: UE.Seal,
    st: UE.State, order: seq<Action>)
    requires Visits(order, cs) && Working(cs, es, naming, st.values) && Marked(cs, marks) && "" !in encrypted
    requires order != [] && st.values != map[] && encrypted != {}
    requires UE.PassText(UpdateExpression(Sections(cs, order)), naming.names, encrypted, seal, st).ok
    ensures UE.AllSets(OfAction(cs, SET))
    ensures Sealing(cs, naming.names, encrypted, seal, st,
                    UE.PassText(UpdateExpression(Sections(cs, order)), naming.names, encrypted, seal, st).state)
  {
    SectionsWellFormed(cs, order);
    UE.PassRefines(Sections(cs, order), naming.names, encrypted, seal, st);
    RefsDistinct(cs, marks, naming, st.values, encrypted, es);
    UE.PassSealsExactly(UE.Verdicts(OfAction(cs, SET), naming.names, encrypted), seal, st);
  }

  /**
   From Add calls to sealed values: when the pass accepts a printed update, every assignment to an encrypted attribute
   is sent with its value encrypted exactly once, under the name of the attribute, by a call of its own, and every
   other clause does what it did.
   */
  lemma SealedExactly(
    text: string, cs: seq<Clause>, marks: seq<nat>, es: seq<Effect>, naming: Naming, encrypted: set<string>,
    seal: UE.Seal, st: UE.State)
    requires Prints(text, cs) && Working(cs, es, naming, st.values) && Marked(cs, marks) && "" !in encrypted
    requires UE.PassText(text, naming.names, encrypted, seal, st).ok
    ensures AllSent(cs, es, naming.names, encrypted, seal, st,
                    UE.PassText(text, naming.names, encrypted, seal, st).state)
  {
    var order :| Visits(order, cs) && text == UpdateExpression(Sections(cs, order));
    if order == [] || st.values == map[] || encrypted == {} {
      Untouched(cs, es, naming, st.values, order, encrypted);
      AllSentUntouched(cs, es, naming, encrypted, seal, st);
    } else {
      PassSealing(cs, marks, es, naming, encrypted, seal, st, order);
      AllClausesSent(cs, marks, es, naming, encrypted, seal, st,
        UE.PassText(text, naming.names, encrypted, seal, st).state);
    }
  }

  lemma AllSentUntouched(
    cs: seq<Clause>, es: seq<Effect>, naming: Naming, encrypted: set<string>, seal: UE.Seal, st: UE.State)
    requires Working(cs, es, naming, st.values) && forall i :: 0 <= i < |es| ==> !Seals(es[i], encrypted)
    ensures AllSent(cs, es, naming.names, encrypted, seal, st, st)
  {
    NothingSealed(es, encrypted, |es|);
    forall i | 0 <= i < |cs| ensures EffectOf(cs[i], naming.names, st.values) == es[i] {
      assert Does(cs[i], naming.names, st.values, es[i]);
    }
  }

  lemma Untouched(
    cs: seq<Clause>, es: seq<Effect>, naming: Naming, values: Values, order: seq<Action>, encrypted: set<string>)
    requires Working(cs, es, naming, values) && Visits(order, cs)
    requires order == [] || values == map[] || encrypted == {}
    ensures forall i :: 0 <= i < |es| ==> !Seals(es[i], encrypted)
  {
    if order == [] {
      NothingAdded(cs, order);
    } else if values == map[] {
      NoValues(cs, es, naming);
    }
  }
}
