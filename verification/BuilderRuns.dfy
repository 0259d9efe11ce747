/** Whole runs of the expression builder: any sequence of Add calls, then Build (internal/expr/builder.go). */
module BuilderRuns {
  import opened Text
  import opened Attributes
  import opened ConditionMeaning
  import opened ExprBuilder
  import opened Placeholders
  import opened UpdateAction
  import opened UpdateClauses
  import opened UpdateMeaning

  datatype Call =
    | Key(field: string, operator: string, value: GoValue)
    | Filter(op: Junction, field: string, operator: string, value: GoValue)
    | Guard(op: Junction, field: string, operator: string, value: GoValue)
    | Set(field: string, value: GoValue)
    | Add(field: string, value: GoValue)
    | Delete(field: string, value: GoValue)
    | Remove(field: string)
    | Function(field: string, fn: string, args: seq<GoValue>)
    /** A filter group that another builder has printed, and what it is to say. */
    | Group(op: Junction, group: Components, meaning: Meaning)

  /** The attribute a call names. */
  function Subject(c: Call): string
    requires !c.Group?
  {
    if c.Set? || c.Remove? then ElementOf(c.field).0 else c.field
  }

  // ---- A vocabulary that spells each reserved word one way ----

  /** Every path part in use is accepted by validation, holds no index, and no reserved word is spelled in two ways. */
  ghost predicate Vocabulary(p: Policy, words: set<string>) {
    && (forall w :: w in words ==> p.fieldOk(w) && '[' !in w)
    && (forall v, w :: v in words && w in words && IsReserved(p, v) && Upper(v) == Upper(w) ==> v == w)
  }

  ghost predicate Speaks(p: Policy, words: set<string>, name: string) {
    p.fieldOk(name) && forall w :: w in Split(name, '.') ==> w in words
  }

  /** Each placeholder was issued for what it stands for. */
  predicate Issued(ph: string, attr: string) {
    ph == ReservedPlaceholder(attr) || (|ph| >= 2 && ph[1] == 'n')
  }

  ghost predicate Within(words: set<string>, names: Names) {
    forall ph :: ph in names ==> names[ph] in words && Issued(ph, names[ph])
  }

  lemma SpokenIsClear(p: Policy, words: set<string>, names: Names, name: string)
    requires Vocabulary(p, words) && Within(words, names) && Speaks(p, words, name)
    ensures Clear(p, names, name)
  {
    var parts := Split(name, '.');
    SplitHas(name, '.', '[');
    forall i | 0 <= i < |parts| ensures p.fieldOk(parts[i]) && SpelledAs(p, names, parts[i]) {
      assert parts[i] in parts;
      var ph := ReservedPlaceholder(parts[i]);
      if IsReserved(p, parts[i]) && ph in names {
        assert IsUpperWord(Upper(parts[i]));
        assert ph[1] == Upper(parts[i])[0];
        assert Issued(ph, names[ph]);
        assert ph[1..] == Upper(parts[i]) && ReservedPlaceholder(names[ph])[1..] == Upper(names[ph]);
      }
    }
    forall i, j | 0 <= i < j < |parts| && IsReserved(p, parts[i]) && Upper(parts[i]) == Upper(parts[j])
      ensures parts[i] == parts[j]
    {
      assert parts[i] in parts && parts[j] in parts;
    }
  }

  lemma {:induction false} PartsWithin(p: Policy, words: set<string>, s: Naming, parts: seq<string>)
    requires Within(words, s.names) && forall w :: w in parts ==> w in words
    ensures Within(words, AddParts(p, s, parts).names)
    decreases |parts|
  {
    if parts != [] && p.fieldOk(parts[0]) {
      PartsWithin(p, words, AddPart(p, s, parts[0]), parts[1..]);
    }
  }

  lemma NamedWithin(p: Policy, words: set<string>, s: Naming, name: string, s': Naming, ref: string)
    requires Within(words, s.names) && Speaks(p, words, name) && Named(p, s, name, s', ref)
    ensures Within(words, s'.names)
  {
    PartsWithin(p, words, s, Split(name, '.'));
  }

  lemma SubjectWithin(p: Policy, words: set<string>, named: bool, s: Naming, name: string, s': Naming, ref: string)
    requires Within(words, s.names) && Speaks(p, words, name) && NamedWhen(p, named, s, name, s', ref)
    ensures Within(words, s'.names)
  {
    if named {
      NamedWithin(p, words, s, name, s', ref);
    }
  }

  lemma BuiltWithin(p: Policy, words: set<string>, b: Bindings, field: string, operator: string, value: GoValue,
      b': Bindings, ref: string)
    requires Within(words, b.naming.names) && Speaks(p, words, field)
    requires Built(p, b, field, operator, value, b', ref)
    ensures Within(words, b'.naming.names)
  {
    if Validated(p, field, operator, value) {
      NamedWithin(p, words, b.naming, field, b'.naming, ref);
    }
  }

  // ---- What the calls were meant to say and do ----

  predicate IsCondition(c: Call) {
    c.Key? || c.Filter? || c.Guard?
  }

  predicate IsUpdate(c: Call) {
    c.Set? || c.Add? || c.Delete? || c.Remove? || c.Function?
  }

  predicate Taken(p: Policy, c: Call)
    requires IsCondition(c)
  {
    Accepts(p, c.field, c.operator, c.value)
  }

  function SaidBy(p: Policy, c: Call): seq<Meaning>
    requires IsCondition(c)
  {
    if Taken(p, c) then [Said(p, c.field, c.operator, c.value)] else []
  }

  /** What a call adds to the key condition. */
  function AsKey(p: Policy, c: Call): seq<Meaning> {
    if c.Key? then SaidBy(p, c) else []
  }

  /** What a call adds to the filter; a group without a filter adds nothing. */
  function AsFilter(p: Policy, c: Call): seq<Meaning> {
    match c
    case Filter(_, _, _, _) => SaidBy(p, c)
    case Group(_, group, meaning) => if group.filter == "" then [] else [meaning]
    case _ => []
  }

  /** What a call adds to the write condition. */
  function AsGuard(p: Policy, c: Call): seq<Meaning> {
    if c.Guard? then SaidBy(p, c) else []
  }

  /** The operator of what is said behind something else. */
  function Behind(c: Call, said: seq<Meaning>, first: bool): seq<Junction> {
    if said == [] || first || !(c.Filter? || c.Guard? || c.Group?) then [] else [c.op]
  }

  /** What an update call does to the item, or nothing when it is rejected. */
  function DoneBy(p: Policy, c: Call): seq<Effect>
    requires IsUpdate(c)
  {
    match c
    case Set(field, value) =>
      if ElementOk(p, field) && ValueOk(p, value) then [SetTo(ElementPlace(field), Outright(Converted(value)))] else []
    case Add(field, value) =>
      if p.fieldOk(field) && ValueOk(p, value) then [AddTo(FieldPath(field), Converted(value))] else []
    case Delete(field, value) =>
      if p.fieldOk(field) && p.toSet(value).Ok? then [DeletedFrom(FieldPath(field), Value(p.toSet(value).value))]
      else []
    case Remove(field) =>
      if ElementOk(p, field) then [Removed(ElementPlace(field))] else []
    case Function(field, fn, args) =>
      if FunctionOk(p, field, fn, args) then [FunctionEffect(p, field, fn, args)] else []
  }

  /** What a call does; only update calls do anything. */
  function AsEffect(p: Policy, c: Call): seq<Effect> {
    if IsUpdate(c) then DoneBy(p, c) else []
  }

  /** What the calls contribute, one after the other. */
  function Collect<T>(calls: seq<Call>, part: Call -> seq<T>): seq<T> {
    if calls == [] then []
    else
      var k := |calls| - 1;
      Collect(calls[..k], part) + part(calls[k])
  }

  lemma CollectNext<T>(calls: seq<Call>, c: Call, part: Call -> seq<T>)
    ensures Collect(calls + [c], part) == Collect(calls, part) + part(c)
  {
    assert (calls + [c])[..|calls|] == calls;
  }

  lemma {:induction false} CollectCat<T>(a: seq<Call>, b: seq<Call>, part: Call -> seq<T>)
    ensures Collect(a + b, part) == Collect(a, part) + Collect(b, part)
  {
    if b == [] {
      assert a + b == a;
    } else {
      var rest, c := b[..|b| - 1], b[|b| - 1];
      CollectCat(a, rest, part);
      CollectLast(a, rest, c, part);
      assert b == rest + [c];
    }
  }

  /** Calls that contribute one thing each, or nothing. */
  lemma {:induction false} CollectEach<T>(calls: seq<Call>, part: Call -> seq<T>, parts: seq<T>)
    requires |parts| == |calls| && forall i :: 0 <= i < |calls| ==> part(calls[i]) == [parts[i]]
    ensures Collect(calls, part) == parts
  {
    if calls != [] {
      var k := |calls| - 1;
      CollectEach(calls[..k], part, parts[..k]);
      assert parts[..k] + [parts[k]] == parts;
    }
  }

  lemma {:induction false} CollectNone<T>(calls: seq<Call>, part: Call -> seq<T>)
    requires forall i :: 0 <= i < |calls| ==> part(calls[i]) == []
    ensures Collect(calls, part) == []
  {
    if calls != [] {
      CollectNone(calls[..|calls| - 1], part);
    }
  }

  lemma CollectLast<T>(a: seq<Call>, rest: seq<Call>, c: Call, part: Call -> seq<T>)
    requires Collect(a + rest, part) == Collect(a, part) + Collect(rest, part)
    ensures Collect(a + (rest + [c]), part) == Collect(a, part) + Collect(rest + [c], part)
  {
    CollectNext(a + rest, c, part);
    CollectNext(rest, c, part);
    assert a + (rest + [c]) == a + rest + [c];
  }

  function AsKeyBy(p: Policy): Call -> seq<Meaning> {
    c => AsKey(p, c)
  }

  function AsFilterBy(p: Policy): Call -> seq<Meaning> {
    c => AsFilter(p, c)
  }

  function AsGuardBy(p: Policy): Call -> seq<Meaning> {
    c => AsGuard(p, c)
  }

  function AsEffectBy(p: Policy): Call -> seq<Effect> {
    c => AsEffect(p, c)
  }

  function KeysSaid(p: Policy, calls: seq<Call>): seq<Meaning> {
    Collect(calls, AsKeyBy(p))
  }

  function FiltersSaid(p: Policy, calls: seq<Call>): seq<Meaning> {
    Collect(calls, AsFilterBy(p))
  }

  function GuardsSaid(p: Policy, calls: seq<Call>): seq<Meaning> {
    Collect(calls, AsGuardBy(p))
  }

  function EffectsSaid(p: Policy, calls: seq<Call>): seq<Effect> {
    Collect(calls, AsEffectBy(p))
  }

  /** The operators of the accepted filters and groups, without the first one's. */
  function FilterOpsSaid(p: Policy, calls: seq<Call>): (ops: seq<Junction>)
    ensures |ops| == if FiltersSaid(p, calls) == [] then 0 else |FiltersSaid(p, calls)| - 1
  {
    if calls == [] then []
    else
      var k := |calls| - 1;
      FilterOpsSaid(p, calls[..k]) + Behind(calls[k], AsFilter(p, calls[k]), FiltersSaid(p, calls[..k]) == [])
  }

  function GuardOpsSaid(p: Policy, calls: seq<Call>): (ops: seq<Junction>)
    ensures |ops| == if GuardsSaid(p, calls) == [] then 0 else |GuardsSaid(p, calls)| - 1
  {
    if calls == [] then []
    else
      var k := |calls| - 1;
      GuardOpsSaid(p, calls[..k]) + Behind(calls[k], AsGuard(p, calls[k]), GuardsSaid(p, calls[..k]) == [])
  }

  predicate IsReadable(c: Call) {
    IsCondition(c) ==> Readable(c.operator, c.value)
  }

  // ---- The bindings a run reaches ----

  function BindingsAfter(p: Policy, b: Bindings, c: Call): Bindings {
    match c
    case Key(field, operator, value) => BuiltBindings(p, b, field, operator, value)
    case Filter(_, field, operator, value) => BuiltBindings(p, b, field, operator, value)
    case Guard(_, field, operator, value) => BuiltBindings(p, b, field, operator, value)
    case Group(_, group, _) => GroupBindings(b, group)
    case Set(field, value) =>
      Operated(p, b, ElementOk(p, field), ElementOf(field).0, AcceptedPrefix(p, [value]))
    case Add(field, value) => Operated(p, b, p.fieldOk(field), field, AcceptedPrefix(p, [value]))
    case Delete(field, value) => Operated(p, b, p.fieldOk(field), field, SetValues(p, value))
    case Remove(field) => Operated(p, b, ElementOk(p, field), ElementOf(field).0, [])
    case Function(field, fn, args) => Operated(p, b, true, field, FunctionValues(p, field, fn, args))
  }

  function BindingsAt(p: Policy, calls: seq<Call>): Bindings {
    if calls == [] then Bindings(Naming(map[], 0), map[], 0)
    else BindingsAfter(p, BindingsAt(p, calls[..|calls| - 1]), calls[|calls| - 1])
  }

  /** Calls keep to the vocabulary, and a group fits the bindings it is added to. */
  ghost predicate Welcome(p: Policy, words: set<string>, b: Bindings, c: Call) {
    if c.Group? then GroupFits(b, c.group, c.meaning) && Within(words, c.group.names)
    else Speaks(p, words, Subject(c)) && IsReadable(c)
  }

  ghost predicate Proper(p: Policy, words: set<string>, calls: seq<Call>) {
    forall i :: 0 <= i < |calls| ==> Welcome(p, words, BindingsAt(p, calls[..i]), calls[i])
  }

  // ---- Performing them ----

  /** What the builder holds: what its texts say, how they are joined, and what its update clauses do. */
  datatype Log = Log(keys: seq<Meaning>, filters: seq<Meaning>, filterOps: seq<Junction>, guards: seq<Meaning>,
                     guardOps: seq<Junction>, effects: seq<Effect>)

  ghost function LogOf(b: Builder): Log
    reads b
  {
    Log(b.keyMeanings, b.filterMeanings, b.filterOperators, b.conditionMeanings, b.conditionOperators, b.effects)
  }

  function Logged(p: Policy, calls: seq<Call>): Log {
    Log(KeysSaid(p, calls), FiltersSaid(p, calls), FilterOpsSaid(p, calls), GuardsSaid(p, calls),
        GuardOpsSaid(p, calls), EffectsSaid(p, calls))
  }

  /** One more call. */
  function Next(p: Policy, l: Log, c: Call): Log {
    Log(l.keys + AsKey(p, c),
        l.filters + AsFilter(p, c), l.filterOps + Behind(c, AsFilter(p, c), l.filters == []),
        l.guards + AsGuard(p, c), l.guardOps + Behind(c, AsGuard(p, c), l.guards == []),
        l.effects + AsEffect(p, c))
  }

  lemma KeyNext(p: Policy, l: Log, c: Call)
    requires c.Key?
    ensures Next(p, l, c) == l.(keys := l.keys + SaidBy(p, c))
  {
  }

  lemma FilterNext(p: Policy, l: Log, c: Call)
    requires c.Filter? || c.Group?
    ensures Next(p, l, c) ==
            l.(filters := l.filters + AsFilter(p, c),
               filterOps := l.filterOps + Behind(c, AsFilter(p, c), l.filters == []))
  {
  }

  lemma GuardNext(p: Policy, l: Log, c: Call)
    requires c.Guard?
    ensures Next(p, l, c) ==
            l.(guards := l.guards + SaidBy(p, c), guardOps := l.guardOps + Behind(c, SaidBy(p, c), l.guards == []))
  {
  }

  lemma EffectNext(p: Policy, l: Log, c: Call)
    requires IsUpdate(c)
    ensures Next(p, l, c) == l.(effects := l.effects + DoneBy(p, c))
  {
  }

  lemma LoggedNext(p: Policy, calls: seq<Call>, i: nat)
    requires i < |calls|
    ensures Logged(p, calls[..i + 1]) == Next(p, Logged(p, calls[..i]), calls[i])
    ensures BindingsAt(p, calls[..i + 1]) == BindingsAfter(p, BindingsAt(p, calls[..i]), calls[i])
  {
    assert calls[..i + 1][..i] == calls[..i];
  }

  predicate Succeeds(p: Policy, c: Call) {
    if IsCondition(c) then Taken(p, c) else if IsUpdate(c) then DoneBy(p, c) != [] else true
  }

  ghost predicate Ready(b: Builder, words: set<string>)
    reads b
  {
    b.Valid() && b.Sound() && b.Counted() && b.UpdatesSound() && Within(words, b.names)
  }

  method PerformKey(b: Builder, c: Call, ghost words: set<string>) returns (ok: bool)
    requires Ready(b, words) && c.Key?
    requires Vocabulary(b.policy, words) && Speaks(b.policy, words, c.field) && IsReadable(c)
    modifies b`names, b`values, b`nameCounter, b`valueCounter, b`keyConditions, b`keyMeanings
    ensures Ready(b, words) && (ok <==> Succeeds(b.policy, c))
    ensures LogOf(b) == Next(b.policy, old(LogOf(b)), c) && b.State() == BindingsAfter(b.policy, old(b.State()), c)
  {
    KeyNext(b.policy, LogOf(b), c);
    ghost var before := b.State();
    ghost var ref;
    SpokenIsClear(b.policy, words, b.names, c.field);
    ok, ref := b.AddKeyCondition(c.field, c.operator, c.value);
    BuiltWithin(b.policy, words, before, c.field, c.operator, c.value, b.State(), ref);
    BuiltAfter(b.policy, before, c.field, c.operator, c.value, b.State(), ref);
  }

  method PerformFilter(b: Builder, c: Call, ghost words: set<string>) returns (ok: bool)
    requires Ready(b, words) && c.Filter?
    requires Vocabulary(b.policy, words) && Speaks(b.policy, words, c.field) && IsReadable(c)
    modifies b`names, b`values, b`nameCounter, b`valueCounter, b`filterConditions,
        b`filterOperators, b`filterMeanings
    ensures Ready(b, words) && (ok <==> Succeeds(b.policy, c))
    ensures LogOf(b) == Next(b.policy, old(LogOf(b)), c) && b.State() == BindingsAfter(b.policy, old(b.State()), c)
  {
    FilterNext(b.policy, LogOf(b), c);
    ghost var before := b.State();
    ghost var ref;
    SpokenIsClear(b.policy, words, b.names, c.field);
    ok, ref := b.AddFilterCondition(c.op, c.field, c.operator, c.value);
    BuiltWithin(b.policy, words, before, c.field, c.operator, c.value, b.State(), ref);
    BuiltAfter(b.policy, before, c.field, c.operator, c.value, b.State(), ref);
  }

  method PerformGuard(b: Builder, c: Call, ghost words: set<string>) returns (ok: bool)
    requires Ready(b, words) && c.Guard?
    requires Vocabulary(b.policy, words) && Speaks(b.policy, words, c.field) && IsReadable(c)
    modifies b`names, b`values, b`nameCounter, b`valueCounter, b`conditions, b`conditionOperators,
        b`conditionMeanings
    ensures Ready(b, words) && (ok <==> Succeeds(b.policy, c))
    ensures LogOf(b) == Next(b.policy, old(LogOf(b)), c) && b.State() == BindingsAfter(b.policy, old(b.State()), c)
  {
    GuardNext(b.policy, LogOf(b), c);
    ghost var before := b.State();
    ghost var ref;
    SpokenIsClear(b.policy, words, b.names, c.field);
    ok, ref := b.AddConditionExpressionWithOp(c.op, c.field, c.operator, c.value);
    BuiltWithin(b.policy, words, before, c.field, c.operator, c.value, b.State(), ref);
    BuiltAfter(b.policy, before, c.field, c.operator, c.value, b.State(), ref);
  }

  method Change(b: Builder, c: Call, ghost words: set<string>) returns (ok: bool)
    requires Ready(b, words) && IsUpdate(c)
    requires Vocabulary(b.policy, words) && Speaks(b.policy, words, Subject(c))
    modifies b`names, b`nameCounter, b`values, b`valueCounter, b`updateExpressions, b`added, b`effects, b`marks
    ensures b.Sound() && b.Counted() && b.UpdatesSound() && Within(words, b.names)
    ensures b.effects == old(b.effects) + DoneBy(b.policy, c)
    ensures ok <==> DoneBy(b.policy, c) != []
    ensures b.State() == BindingsAfter(b.policy, old(b.State()), c)
  {
    ghost var before, out := Naming(b.names, b.nameCounter), BindingsAfter(b.policy, b.State(), c);
    ghost var named := c.Function? ||
        if c.Set? || c.Remove? then ElementOk(b.policy, c.field) else b.policy.fieldOk(c.field);
    ghost var ref;
    SpokenIsClear(b.policy, words, b.names, Subject(c));
    match c {
      case Set(field, value) =>
        ok, ref := b.AddUpdateSet(field, value);
        assert b.State() == out;
      case Add(field, value) =>
        ok, ref := b.AddUpdateAdd(field, value);
        assert b.State() == out;
      case Delete(field, value) =>
        ok, ref := b.AddUpdateDelete(field, value);
        assert b.State() == out;
      case Remove(field) =>
        ok, ref := b.AddUpdateRemove(field);
        assert b.State() == out;
      case Function(field, fn, args) =>
        ok, ref := b.AddUpdateFunction(field, fn, args);
        assert b.State() == out;
    }
    assert Within(words, b.names) by {
      SubjectWithin(b.policy, words, named, before, Subject(c), Naming(b.names, b.nameCounter), ref);
    }
  }

  method PerformUpdate(b: Builder, c: Call, ghost words: set<string>) returns (ok: bool)
    requires Ready(b, words) && IsUpdate(c)
    requires Vocabulary(b.policy, words) && Speaks(b.policy, words, Subject(c))
    modifies b`names, b`nameCounter, b`values, b`valueCounter, b`updateExpressions, b`added, b`effects, b`marks
    ensures Ready(b, words) && (ok <==> Succeeds(b.policy, c))
    ensures LogOf(b) == Next(b.policy, old(LogOf(b)), c) && b.State() == BindingsAfter(b.policy, old(b.State()), c)
  {
    ghost var before := LogOf(b);
    ok := Change(b, c, words);
    assert LogOf(b) == before.(effects := before.effects + DoneBy(b.policy, c));
    EffectNext(b.policy, before, c);
  }

  method PerformGroup(b: Builder, c: Call, ghost words: set<string>) returns (ok: bool)
    requires Ready(b, words) && c.Group? && Welcome(b.policy, words, b.State(), c)
    modifies b`names, b`values, b`filterConditions, b`filterOperators, b`filterMeanings
    ensures Ready(b, words) && (ok <==> Succeeds(b.policy, c))
    ensures LogOf(b) == Next(b.policy, old(LogOf(b)), c) && b.State() == BindingsAfter(b.policy, old(b.State()), c)
  {
    FilterNext(b.policy, LogOf(b), c);
    b.AddGroupFilter(c.op, c.group, c.meaning);
    ok := true;
  }

  method Perform(b: Builder, c: Call, ghost words: set<string>) returns (ok: bool)
    requires Ready(b, words) && Vocabulary(b.policy, words) && Welcome(b.policy, words, b.State(), c)
    modifies b
    ensures Ready(b, words) && (ok <==> Succeeds(b.policy, c))
    ensures LogOf(b) == Next(b.policy, old(LogOf(b)), c) && b.State() == BindingsAfter(b.policy, old(b.State()), c)
  {
    if c.Key? {
      ok := PerformKey(b, c, words);
    } else if c.Filter? {
      ok := PerformFilter(b, c, words);
    } else if c.Guard? {
      ok := PerformGuard(b, c, words);
    } else if c.Group? {
      ok := PerformGroup(b, c, words);
    } else {
      ok := PerformUpdate(b, c, words);
    }
  }

  method PerformNext(b: Builder, calls: seq<Call>, i: nat, ghost words: set<string>)
    requires i < |calls| && Vocabulary(b.policy, words) && Proper(b.policy, words, calls)
    requires Ready(b, words) && LogOf(b) == Logged(b.policy, calls[..i])
    requires b.State() == BindingsAt(b.policy, calls[..i])
    modifies b
    ensures Ready(b, words) && LogOf(b) == Logged(b.policy, calls[..i + 1])
    ensures b.State() == BindingsAt(b.policy, calls[..i + 1])
  {
    LoggedNext(b.policy, calls, i);
    assert Welcome(b.policy, words, BindingsAt(b.policy, calls[..i]), calls[i]);
    var ok := Perform(b, calls[i], words);
  }

  method Begin(policy: Policy, ghost words: set<string>) returns (b: Builder)
    ensures fresh(b) && b.policy == policy && Ready(b, words) && LogOf(b) == Logged(policy, [])
    ensures b.State() == BindingsAt(policy, [])
  {
    b := new Builder(policy);
  }

  method PerformAll(policy: Policy, calls: seq<Call>, ghost words: set<string>) returns (b: Builder)
    requires Vocabulary(policy, words) && Proper(policy, words, calls)
    ensures fresh(b) && b.policy == policy && Ready(b, words) && LogOf(b) == Logged(policy, calls)
    ensures b.State() == BindingsAt(policy, calls)
  {
    b := Begin(policy, words);
    var i := 0;
    assert calls[..0] == [];
    while i < |calls|
      invariant 0 <= i <= |calls| && b.policy == policy
      invariant fresh(b) && Ready(b, words) && LogOf(b) == Logged(policy, calls[..i])
      invariant b.State() == BindingsAt(policy, calls[..i])
    {
      PerformNext(b, calls, i, words);
      i := i + 1;
    }
    assert calls[..i] == calls;
  }

  /**
   For every run of Add calls, in any order and of any length, with filter groups that fit the bindings they are added
   to: the condition texts `Build` prints mean the accepted conditions and groups of the run with the operators they
   were added with, each in its place, and the update text is clauses that do what the accepted update calls ask for,
   which the service takes exactly when it is something and no two of the calls reach the same place.
   */
  method Run(policy: Policy, calls: seq<Call>, ghost words: set<string>) returns (c: Components)
    requires Vocabulary(policy, words) && Proper(policy, words, calls)
    ensures Emitted(c.keyCondition, c.names, c.values, KeysSaid(policy, calls), KeyOps(|KeysSaid(policy, calls)|))
    ensures Emitted(c.filter, c.names, c.values, FiltersSaid(policy, calls), FilterOpsSaid(policy, calls))
    ensures Emitted(c.condition, c.names, c.values, GuardsSaid(policy, calls), GuardOpsSaid(policy, calls))
    ensures UpdateDoes(c.update, c.names, c.values, EffectsSaid(policy, calls))
    ensures LegalUpdateText(c.update, c.names, c.values) <==>
            EffectsSaid(policy, calls) != [] && NoOverlap(EffectsSaid(policy, calls))
  {
    var b := PerformAll(policy, calls, words);
    c := b.Build();
    LegalUpdateExactly(c.update, c.names, c.values, EffectsSaid(policy, calls));
  }
}
