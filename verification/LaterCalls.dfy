/**
 Stored conditions, those of a filter group among them, under later Add calls: exactly when a call leaves one its
 meaning, and exactly when every run of calls does (internal/expr/builder.go).
 */
module LaterCalls {
  import opened Text
  import opened Attributes
  import opened ConditionGrammar
  import opened ConditionMeaning
  import opened ConditionPrinter
  import opened BuilderRuns
  import opened ExprBuilder
  import opened GroupClash
  import opened Placeholders

  // ---- The placeholders a condition is written with ----

  predicate IsValueOperand(x: Operand) {
    x.Ref? && x.name != "" && x.name[0] == ':'
  }

  function OperandNames(x: Operand): set<string> {
    if IsValueOperand(x) then {}
    else set part | part in Split(x.name, '.') && part != "" && part[0] == '#' :: StepRef(part)
  }

  function OperandValues(x: Operand): set<string> {
    if IsValueOperand(x) then {x.name} else {}
  }

  function ListNames(xs: seq<Operand>): set<string> {
    set x, w | x in xs && w in OperandNames(x) :: w
  }

  function ListValues(xs: seq<Operand>): set<string> {
    set x, w | x in xs && w in OperandValues(x) :: w
  }

  function UsedNames(e: Syntax): set<string> {
    match e
    case Compare(_, x, y) => ListNames([x, y])
    case Between(x, lo, hi) => ListNames([x, lo, hi])
    case In(x, xs) => OperandNames(x) + ListNames(xs)
    case Call(_, xs) => ListNames(xs)
    case Not(a) => UsedNames(a)
    case And(a, b) => UsedNames(a) + UsedNames(b)
    case Or(a, b) => UsedNames(a) + UsedNames(b)
  }

  function UsedValues(e: Syntax): set<string> {
    match e
    case Compare(_, x, y) => ListValues([x, y])
    case Between(x, lo, hi) => ListValues([x, lo, hi])
    case In(x, xs) => OperandValues(x) + ListValues(xs)
    case Call(_, xs) => ListValues(xs)
    case Not(a) => UsedValues(a)
    case And(a, b) => UsedValues(a) + UsedValues(b)
    case Or(a, b) => UsedValues(a) + UsedValues(b)
  }

  /** None of these placeholders is issued for something else than it stands for. */
  ghost predicate SparesOn<T(!new)>(ws: set<string>, bound: map<string, T>, issued: map<string, T>) {
    forall w :: w in ws && w in bound && w in issued ==> issued[w] == bound[w]
  }

  ghost predicate Spares(e: Syntax, names: Names, values: Values, newNames: Names, newValues: Values) {
    SparesOn(UsedNames(e), names, newNames) && SparesOn(UsedValues(e), values, newValues)
  }

  lemma OperandSpared(x: Operand, names: Names, values: Values, n: Names, v: Values)
    ensures OperandAgrees(x, names, values, names + n, values + v) <==>
            SparesOn(OperandNames(x), names, n) && SparesOn(OperandValues(x), values, v)
  {
    if !IsValueOperand(x) {
      var parts := Split(x.name, '.');
      forall i | 0 <= i < |parts|
        ensures StepAgrees(parts[i], names, names + n) <==>
                (parts[i] != "" && parts[i][0] == '#' ==> SparesOn({StepRef(parts[i])}, names, n))
      {
      }
      if SparesOn(OperandNames(x), names, n) {
        forall i | 0 <= i < |parts| ensures StepAgrees(parts[i], names, names + n) {
          assert parts[i] in parts;
        }
      }
      if StepsAgree(parts, names, names + n) {
        forall w | w in OperandNames(x) && w in names && w in n ensures n[w] == names[w] {
          var part :| part in parts && part != "" && part[0] == '#' && StepRef(part) == w;
          var i :| 0 <= i < |parts| && parts[i] == part;
          assert StepAgrees(parts[i], names, names + n);
        }
      }
    }
  }

  lemma OperandsSpared(xs: seq<Operand>, names: Names, values: Values, n: Names, v: Values)
    ensures OperandsAgree(xs, names, values, names + n, values + v) <==>
            SparesOn(ListNames(xs), names, n) && SparesOn(ListValues(xs), values, v)
  {
    forall i | 0 <= i < |xs|
      ensures OperandAgrees(xs[i], names, values, names + n, values + v) <==>
              SparesOn(OperandNames(xs[i]), names, n) && SparesOn(OperandValues(xs[i]), values, v)
    {
      OperandSpared(xs[i], names, values, n, v);
    }
    if SparesOn(ListNames(xs), names, n) && SparesOn(ListValues(xs), values, v) {
      forall i | 0 <= i < |xs| ensures OperandAgrees(xs[i], names, values, names + n, values + v) {
        assert xs[i] in xs;
        assert OperandNames(xs[i]) <= ListNames(xs) && OperandValues(xs[i]) <= ListValues(xs);
      }
    }
    if OperandsAgree(xs, names, values, names + n, values + v) {
      forall w | w in ListNames(xs) && w in names && w in n ensures n[w] == names[w] {
        var x :| x in xs && w in OperandNames(x);
        var i :| 0 <= i < |xs| && xs[i] == x;
        assert SparesOn(OperandNames(xs[i]), names, n);
      }
      forall w | w in ListValues(xs) && w in values && w in v ensures v[w] == values[w] {
        var x :| x in xs && w in OperandValues(x);
        var i :| 0 <= i < |xs| && xs[i] == x;
        assert SparesOn(OperandValues(xs[i]), values, v);
      }
    }
  }

  lemma {:induction false} AgreesSpared(e: Syntax, names: Names, values: Values, n: Names, v: Values)
    ensures Agrees(e, names, values, names + n, values + v) <==> Spares(e, names, values, n, v)
  {
    match e
    case Compare(_, x, y) => OperandsSpared([x, y], names, values, n, v);
    case Between(x, lo, hi) => OperandsSpared([x, lo, hi], names, values, n, v);
    case In(x, xs) =>
      OperandSpared(x, names, values, n, v);
      OperandsSpared(xs, names, values, n, v);
    case Call(_, xs) => OperandsSpared(xs, names, values, n, v);
    case Not(a) => AgreesSpared(a, names, values, n, v);
    case And(a, b) =>
      AgreesSpared(a, names, values, n, v);
      AgreesSpared(b, names, values, n, v);
    case Or(a, b) =>
      AgreesSpared(a, names, values, n, v);
      AgreesSpared(b, names, values, n, v);
  }

  // ---- What a call issues ----

  /** Whether a call goes on to name its field. */
  predicate CallNames(p: Policy, c: Call)
    requires !c.Group?
  {
    match c
    case Key(field, operator, value) => Validated(p, field, operator, value)
    case Filter(_, field, operator, value) => Validated(p, field, operator, value)
    case Guard(_, field, operator, value) => Validated(p, field, operator, value)
    case Set(field, _) => ElementOk(p, field)
    case Remove(field) => ElementOk(p, field)
    case Add(field, _) => p.fieldOk(field)
    case Delete(field, _) => p.fieldOk(field)
    case Function(_, _, _) => true
  }

  /** The values a call binds, once it has named its field. */
  function CallValues(p: Policy, c: Call): seq<AttributeValue>
    requires !c.Group?
  {
    match c
    case Key(_, operator, value) => Bound(p, operator, value)
    case Filter(_, _, operator, value) => Bound(p, operator, value)
    case Guard(_, _, operator, value) => Bound(p, operator, value)
    case Set(_, value) => AcceptedPrefix(p, [value])
    case Remove(_) => []
    case Add(_, value) => AcceptedPrefix(p, [value])
    case Delete(_, value) => SetValues(p, value)
    case Function(field, fn, args) => FunctionValues(p, field, fn, args)
  }

  lemma AfterOperated(p: Policy, b: Bindings, c: Call)
    requires !c.Group?
    ensures BindingsAfter(p, b, c) == Operated(p, b, CallNames(p, c), Subject(c), CallValues(p, c))
  {
  }

  function NamesIssued(p: Policy, b: Bindings, c: Call): Names
    requires !c.Group?
  {
    if !CallNames(p, c) || !p.fieldOk(Subject(c)) || Subject(c) in b.naming.names.Values then map[]
    else AddParts(p, Naming(map[], b.naming.counter), Split(Subject(c), '.')).names
  }

  function ValuesIssued(p: Policy, b: Bindings, c: Call): Values
    requires !c.Group?
  {
    if CallNames(p, c) then BindAll(map[], b.valueCounter, CallValues(p, c)) else map[]
  }

  lemma {:induction false} PartsIssued(p: Policy, names: Names, more: Names, counter: nat, parts: seq<string>)
    ensures AddParts(p, Naming(names + more, counter), parts).names ==
            names + AddParts(p, Naming(more, counter), parts).names
    ensures AddParts(p, Naming(names + more, counter), parts).counter ==
            AddParts(p, Naming(more, counter), parts).counter
    decreases |parts|
  {
    if parts != [] && p.fieldOk(parts[0]) {
      var ph := PlaceholderFor(p, counter, parts[0]);
      assert (names + more)[ph := parts[0]] == names + more[ph := parts[0]];
      PartsIssued(p, names, more[ph := parts[0]], counter + 1, parts[1..]);
    }
  }

  lemma {:induction false} AllIssued(values: Values, counter: nat, avs: seq<AttributeValue>)
    ensures BindAll(values, counter, avs) == values + BindAll(map[], counter, avs)
    decreases |avs|
  {
    if avs == [] {
      assert values + map[] == values;
    } else {
      var k := |avs| - 1;
      var ph, before := ValuePlaceholder(counter + k + 1), BindAll(map[], counter, avs[..k]);
      AllIssued(values, counter, avs[..k]);
      assert (values + before)[ph := avs[k]] == values + before[ph := avs[k]];
    }
  }

  /** A call adds what it issues to what is bound. */
  lemma CallIssues(p: Policy, b: Bindings, c: Call)
    requires !c.Group?
    ensures BindingsAfter(p, b, c).naming.names == b.naming.names + NamesIssued(p, b, c)
    ensures BindingsAfter(p, b, c).values == b.values + ValuesIssued(p, b, c)
  {
    AfterOperated(p, b, c);
    assert b.naming.names + map[] == b.naming.names && b.values + map[] == b.values;
    PartsIssued(p, b.naming.names, map[], b.naming.counter, Split(Subject(c), '.'));
    AllIssued(b.values, b.valueCounter, CallValues(p, c));
  }

  /**
   One later call: a stored condition, a group's as well, keeps its meaning exactly when the call issues none of the
   placeholders it is written with for something else.
   */
  lemma CallKeepsExactly(p: Policy, b: Bindings, c: Call, text: string, e: Syntax)
    requires !c.Group? && ReadsAtom(text, e) && Closed(Resolve(e, b.naming.names, b.values))
    ensures var b' := BindingsAfter(p, b, c);
            DenotesAtom(text, b'.naming.names, b'.values, Resolve(e, b.naming.names, b.values)) <==>
            Spares(e, b.naming.names, b.values, NamesIssued(p, b, c), ValuesIssued(p, b, c))
  {
    CallIssues(p, b, c);
    GroupKeepsExactly(text, e, b.naming.names, b.values, NamesIssued(p, b, c), ValuesIssued(p, b, c));
    AgreesSpared(e, b.naming.names, b.values, NamesIssued(p, b, c), ValuesIssued(p, b, c));
  }

  // ---- What a call issues, by number ----

  lemma {:induction false} NameIssuedAt(p: Policy, more: Names, counter: nat, parts: seq<string>, w: string)
    requires w in AddParts(p, Naming(more, counter), parts).names
    ensures var bound := AddParts(p, Naming(more, counter), parts).names[w];
            || (w in more && bound == more[w])
            || exists i :: 0 <= i < |parts| && w == PlaceholderFor(p, counter + i, parts[i]) && bound == parts[i]
    decreases |parts|
  {
    if parts != [] && p.fieldOk(parts[0]) {
      var ph, bound := PlaceholderFor(p, counter, parts[0]), AddParts(p, Naming(more, counter), parts).names[w];
      var rest := parts[1..];
      NameIssuedAt(p, more[ph := parts[0]], counter + 1, rest, w);
      if i :| 0 <= i < |rest| && w == PlaceholderFor(p, counter + 1 + i, rest[i]) && bound == rest[i] {
        assert w == PlaceholderFor(p, counter + (i + 1), parts[i + 1]) && bound == parts[i + 1];
      } else if w == ph {
        assert w == PlaceholderFor(p, counter + 0, parts[0]);
      }
    }
  }

  lemma {:induction false} ValueIssuedAt(counter: nat, avs: seq<AttributeValue>, w: string)
    requires w in BindAll(map[], counter, avs)
    ensures exists k: nat :: k > counter && w == ValuePlaceholder(k)
    decreases |avs|
  {
    var k := |avs| - 1;
    if w != ValuePlaceholder(counter + k + 1) {
      ValueIssuedAt(counter, avs[..k], w);
    }
  }

  lemma {:induction false} PartsCount(p: Policy, s: Naming, parts: seq<string>)
    ensures AddParts(p, s, parts).counter >= s.counter
    decreases |parts|
  {
    if parts != [] && p.fieldOk(parts[0]) {
      PartsCount(p, AddPart(p, s, parts[0]), parts[1..]);
    }
  }

  // ---- Whole runs of later calls ----

  /** No placeholder the condition is written with lies beyond the counters. */
  ghost predicate Settled(e: Syntax, b: Bindings) {
    && (forall k: nat :: k > b.naming.counter ==> NamePlaceholder(k) !in UsedNames(e))
    && (forall k: nat :: k > b.valueCounter ==> ValuePlaceholder(k) !in UsedValues(e))
  }

  function Onward(p: Policy, b: Bindings, calls: seq<Call>): Bindings {
    if calls == [] then b else BindingsAfter(p, Onward(p, b, calls[..|calls| - 1]), calls[|calls| - 1])
  }

  /** Later calls, groups aside, on accepted fields that respell nothing bound by then. */
  ghost predicate Respectful(p: Policy, b: Bindings, calls: seq<Call>) {
    forall i :: 0 <= i < |calls| ==>
      !calls[i].Group? && Unrespelled(p, Onward(p, b, calls[..i]).naming.names, Subject(calls[i]))
  }

  function MeaningIn(e: Syntax, b: Bindings): Meaning {
    Resolve(e, b.naming.names, b.values)
  }

  lemma SettledSpared(p: Policy, b: Bindings, c: Call, e: Syntax)
    requires Settled(e, b) && !c.Group? && Unrespelled(p, b.naming.names, Subject(c))
    ensures Spares(e, b.naming.names, b.values, NamesIssued(p, b, c), ValuesIssued(p, b, c))
  {
    forall w | w in UsedNames(e) && w in b.naming.names && w in NamesIssued(p, b, c)
      ensures NamesIssued(p, b, c)[w] == b.naming.names[w]
    {
      NameSpared(p, b, Subject(c), e, w);
    }
    forall w | w in ValuesIssued(p, b, c) ensures w !in UsedValues(e) {
      ValueIssuedAt(b.valueCounter, CallValues(p, c), w);
    }
  }

  lemma NameSpared(p: Policy, b: Bindings, name: string, e: Syntax, w: string)
    requires Settled(e, b) && w in UsedNames(e) && w in b.naming.names
    requires PartsClear(p, b.naming.names, Split(name, '.'))
    requires w in AddParts(p, Naming(map[], b.naming.counter), Split(name, '.')).names
    ensures AddParts(p, Naming(map[], b.naming.counter), Split(name, '.')).names[w] == b.naming.names[w]
  {
    var parts := Split(name, '.');
    NameIssuedAt(p, map[], b.naming.counter, parts, w);
    var i :| 0 <= i < |parts| && w == PlaceholderFor(p, b.naming.counter + i, parts[i]) &&
             AddParts(p, Naming(map[], b.naming.counter), parts).names[w] == parts[i];
    assert SpelledAs(p, b.naming.names, parts[i]);
    var k := b.naming.counter + i + 1;
    assert NamePlaceholder(k) !in UsedNames(e);
  }

  /** One later call keeps a settled condition settled, with its meaning. */
  lemma SettledNext(p: Policy, b: Bindings, c: Call, e: Syntax)
    requires Settled(e, b) && Closed(MeaningIn(e, b)) && !c.Group? && Unrespelled(p, b.naming.names, Subject(c))
    ensures Settled(e, BindingsAfter(p, b, c)) && MeaningIn(e, BindingsAfter(p, b, c)) == MeaningIn(e, b)
  {
    SettledSpared(p, b, c, e);
    CallIssues(p, b, c);
    AfterOperated(p, b, c);
    PartsCount(p, b.naming, Split(Subject(c), '.'));
    AgreesSpared(e, b.naming.names, b.values, NamesIssued(p, b, c), ValuesIssued(p, b, c));
    RebindingExact(e, b.naming.names, b.values, BindingsAfter(p, b, c).naming.names, BindingsAfter(p, b, c).values);
  }

  lemma {:induction false} SettledKept(p: Policy, b: Bindings, calls: seq<Call>, e: Syntax)
    requires Settled(e, b) && Closed(MeaningIn(e, b)) && Respectful(p, b, calls)
    ensures Settled(e, Onward(p, b, calls)) && MeaningIn(e, Onward(p, b, calls)) == MeaningIn(e, b)
  {
    if calls != [] {
      var k := |calls| - 1;
      forall i | 0 <= i < k
        ensures !calls[..k][i].Group?
        ensures Unrespelled(p, Onward(p, b, calls[..k][..i]).naming.names, Subject(calls[..k][i]))
      {
        assert calls[..k][..i] == calls[..i];
      }
      SettledKept(p, b, calls[..k], e);
      SettledNext(p, Onward(p, b, calls[..k]), calls[k], e);
    }
  }

  // ---- A run that reaches any number ----

  /** An accepted field of one part that is no reserved word. */
  predicate OnePart(p: Policy, field: string) {
    p.fieldOk(field) && '.' !in field && !IsReserved(p, field)
  }

  /** Different fields of one part, none of them bound. */
  ghost predicate Fresh(p: Policy, b: Bindings, fields: seq<string>) {
    && (forall i :: 0 <= i < |fields| ==> OnePart(p, fields[i]) && fields[i] !in b.naming.names.Values)
    && (forall i, j :: 0 <= i < j < |fields| ==> fields[i] != fields[j])
  }

  ghost predicate HasFresh(p: Policy, b: Bindings, n: nat) {
    exists fields :: |fields| == n && Fresh(p, b, fields)
  }

  /** Validation does not stop callers from using ever more fields, and more than one value. */
  ghost predicate Receptive(p: Policy, b: Bindings) {
    && p.operatorOk("=")
    && (forall n: nat :: HasFresh(p, b, n))
    && (exists v, w :: ValueOk(p, v) && ValueOk(p, w) && Convert(v) != Convert(w))
  }

  function Equalities(fields: seq<string>, v: GoValue): (calls: seq<Call>)
    ensures |calls| == |fields|
    ensures forall i :: 0 <= i < |fields| ==> calls[i] == Filter(ConditionMeaning.AND, fields[i], "=", v)
  {
    seq(|fields|, i requires 0 <= i < |fields| => Filter(ConditionMeaning.AND, fields[i], "=", v))
  }

  lemma OneEquality(p: Policy, b: Bindings, field: string, v: GoValue)
    requires OnePart(p, field) && p.operatorOk("=") && ValueOk(p, v) && field !in b.naming.names.Values
    ensures Unrespelled(p, b.naming.names, field)
    ensures BindingsAfter(p, b, Filter(ConditionMeaning.AND, field, "=", v)) ==
            Bindings(Naming(b.naming.names[NamePlaceholder(b.naming.counter + 1) := field], b.naming.counter + 1),
                     b.values[ValuePlaceholder(b.valueCounter + 1) := Convert(v).value], b.valueCounter + 1)
  {
    SplitDotless(field);
    AcceptedOne(p, v);
    assert OpOf("=") == Some(Cmp(EQ)) by { assert Upper("=") == "="; }
    assert [field][1..] == [];
    assert AddParts(p, b.naming, [field]) == AddPart(p, b.naming, field);
    var av := Convert(v).value;
    assert [av][..0] == [];
    assert BindAll(b.values, b.valueCounter, [av]) == b.values[ValuePlaceholder(b.valueCounter + 1) := av];
  }

  /** Equalities on fresh fields take one number each, for the name and for the value. */
  ghost predicate Counts(b: Bindings, b': Bindings, fields: seq<string>, av: AttributeValue) {
    && b'.naming.counter == b.naming.counter + |fields| && b'.valueCounter == b.valueCounter + |fields|
    && b.naming.names.Keys <= b'.naming.names.Keys && b.values.Keys <= b'.values.Keys
    && (forall w :: w in b'.naming.names.Values ==> w in b.naming.names.Values || w in fields)
    && (fields != [] ==>
          && NamePlaceholder(b'.naming.counter) in b'.naming.names
          && b'.naming.names[NamePlaceholder(b'.naming.counter)] == fields[|fields| - 1]
          && ValuePlaceholder(b'.valueCounter) in b'.values && b'.values[ValuePlaceholder(b'.valueCounter)] == av)
  }

  lemma CountsNext(b: Bindings, before: Bindings, fields: seq<string>, field: string, av: AttributeValue)
    requires Counts(b, before, fields, av)
    ensures Counts(b, Bindings(Naming(before.naming.names[NamePlaceholder(before.naming.counter + 1) := field],
                                      before.naming.counter + 1),
                               before.values[ValuePlaceholder(before.valueCounter + 1) := av], before.valueCounter + 1),
                   fields + [field], av)
  {
    var ph, names := NamePlaceholder(before.naming.counter + 1), before.naming.names;
    forall w | w in names[ph := field].Values ensures w in b.naming.names.Values || w in fields + [field] {
      var k :| k in names[ph := field] && names[ph := field][k] == w;
      if k != ph {
        assert w in names.Values;
      }
    }
  }

  lemma OnwardNext(p: Policy, b: Bindings, calls: seq<Call>, c: Call)
    requires Respectful(p, b, calls)
    requires !c.Group? && Unrespelled(p, Onward(p, b, calls).naming.names, Subject(c))
    ensures Respectful(p, b, calls + [c])
    ensures Onward(p, b, calls + [c]) == BindingsAfter(p, Onward(p, b, calls), c)
  {
    var k, all := |calls|, calls + [c];
    assert all[..k] == calls;
    forall i | 0 <= i < |all|
      ensures !all[i].Group? && Unrespelled(p, Onward(p, b, all[..i]).naming.names, Subject(all[i]))
    {
      if i < k {
        assert all[..i] == calls[..i] && all[i] == calls[i];
      }
    }
  }

  /** One more equality, on a field not used so far. */
  lemma EqualityCounts(p: Policy, b: Bindings, before: Bindings, fields: seq<string>, field: string, v: GoValue)
    requires OnePart(p, field) && p.operatorOk("=") && ValueOk(p, v)
    requires field !in b.naming.names.Values && field !in fields && Counts(b, before, fields, Convert(v).value)
    ensures Unrespelled(p, before.naming.names, field)
    ensures Counts(b, BindingsAfter(p, before, Filter(ConditionMeaning.AND, field, "=", v)), fields + [field],
                   Convert(v).value)
  {
    OneEquality(p, before, field, v);
    CountsNext(b, before, fields, field, Convert(v).value);
  }

  lemma CountsOnward(p: Policy, b: Bindings, calls: seq<Call>, fields: seq<string>, field: string, v: GoValue)
    requires OnePart(p, field) && p.operatorOk("=") && ValueOk(p, v)
    requires field !in b.naming.names.Values && field !in fields
    requires Respectful(p, b, calls) && Counts(b, Onward(p, b, calls), fields, Convert(v).value)
    ensures var more := calls + [Filter(ConditionMeaning.AND, field, "=", v)];
            Respectful(p, b, more) && Counts(b, Onward(p, b, more), fields + [field], Convert(v).value)
  {
    EqualityCounts(p, b, Onward(p, b, calls), fields, field, v);
    OnwardNext(p, b, calls, Filter(ConditionMeaning.AND, field, "=", v));
  }

  lemma EqualitiesNext(fields: seq<string>, v: GoValue)
    requires fields != []
    ensures var k := |fields| - 1;
            && fields == fields[..k] + [fields[k]]
            && Equalities(fields, v) == Equalities(fields[..k], v) + [Filter(ConditionMeaning.AND, fields[k], "=", v)]
  {
  }

  lemma {:induction false} EqualitiesCount(p: Policy, b: Bindings, fields: seq<string>, v: GoValue)
    requires Fresh(p, b, fields) && p.operatorOk("=") && ValueOk(p, v)
    ensures Respectful(p, b, Equalities(fields, v))
    ensures Counts(b, Onward(p, b, Equalities(fields, v)), fields, Convert(v).value)
  {
    if fields != [] {
      var k := |fields| - 1;
      EqualitiesCount(p, b, fields[..k], v);
      CountsOnward(p, b, Equalities(fields[..k], v), fields[..k], fields[k], v);
      EqualitiesNext(fields, v);
    }
  }

  /** Every placeholder of a closed condition is bound. */
  lemma {:induction false} UsedBound(e: Syntax, b: Bindings)
    requires Closed(MeaningIn(e, b))
    ensures UsedNames(e) <= b.naming.names.Keys && UsedValues(e) <= b.values.Keys
  {
    match e
    case Compare(_, x, y) =>
      OperandBound(x, b);
      OperandBound(y, b);
    case Between(x, lo, hi) =>
      OperandBound(x, b);
      OperandBound(lo, b);
      OperandBound(hi, b);
    case In(x, xs) =>
      OperandBound(x, b);
      OperandsBound(xs, b);
    case Call(_, xs) => OperandsBound(xs, b);
    case Not(a) => UsedBound(a, b);
    case And(a, c) =>
      UsedBound(a, b);
      UsedBound(c, b);
    case Or(a, c) =>
      UsedBound(a, b);
      UsedBound(c, b);
  }

  lemma OperandsBound(xs: seq<Operand>, b: Bindings)
    requires Unbound !in ResolveOperands(xs, b.naming.names, b.values)
    ensures ListNames(xs) <= b.naming.names.Keys && ListValues(xs) <= b.values.Keys
  {
    forall x | x in xs ensures OperandNames(x) <= b.naming.names.Keys && OperandValues(x) <= b.values.Keys {
      var i :| 0 <= i < |xs| && xs[i] == x;
      assert ResolveOperands(xs, b.naming.names, b.values)[i] != Unbound;
      OperandBound(x, b);
    }
  }

  lemma OperandBound(x: Operand, b: Bindings)
    requires ResolveOperand(x, b.naming.names, b.values) != Unbound
    ensures OperandNames(x) <= b.naming.names.Keys && OperandValues(x) <= b.values.Keys
  {
    if !IsValueOperand(x) {
      StepsBound(Split(x.name, '.'), b.naming.names);
    }
  }

  lemma {:induction false} StepsBound(parts: seq<string>, names: Names)
    requires ResolveSteps(parts, names).Some?
    ensures forall part :: part in parts && part != "" && part[0] == '#' ==> StepRef(part) in names
  {
    if parts != [] {
      StepsBound(parts[1..], names);
      assert ResolveStep(parts[0], names).Some?;
    }
  }

  /** Bindings over at least the same placeholders give a condition its meaning exactly when they agree on it. */
  lemma MeaningSpared(e: Syntax, b: Bindings, b': Bindings)
    requires Closed(MeaningIn(e, b))
    requires b.naming.names.Keys <= b'.naming.names.Keys && b.values.Keys <= b'.values.Keys
    ensures MeaningIn(e, b') == MeaningIn(e, b) <==> Spares(e, b.naming.names, b.values, b'.naming.names, b'.values)
  {
    assert b.naming.names + b'.naming.names == b'.naming.names && b.values + b'.values == b'.values;
    AgreesSpared(e, b.naming.names, b.values, b'.naming.names, b'.values);
    RebindingExact(e, b.naming.names, b.values, b'.naming.names, b'.values);
  }

  lemma NotBoundTo(names: Names, ph: string, field: string)
    requires ph in names && field !in names.Values
    ensures names[ph] != field
  {
  }

  /** Enough equalities on fresh fields take over a name the condition is written with. */
  lemma NameSpoilt(e: Syntax, b: Bindings, b': Bindings, fields: seq<string>, av: AttributeValue, k: nat)
    requires Closed(MeaningIn(e, b)) && Counts(b, b', fields, av)
    requires k > b.naming.counter && NamePlaceholder(k) in UsedNames(e)
    requires |fields| == k - b.naming.counter && fields[|fields| - 1] !in b.naming.names.Values
    ensures MeaningIn(e, b') != MeaningIn(e, b)
  {
    UsedBound(e, b);
    NotBoundTo(b.naming.names, NamePlaceholder(k), fields[|fields| - 1]);
    assert b'.naming.names[NamePlaceholder(k)] != b.naming.names[NamePlaceholder(k)];
    MeaningSpared(e, b, b');
  }

  /** Enough equalities with another value take over a value the condition is written with. */
  lemma ValueSpoilt(e: Syntax, b: Bindings, b': Bindings, fields: seq<string>, av: AttributeValue, k: nat)
    requires Closed(MeaningIn(e, b)) && Counts(b, b', fields, av)
    requires k > b.valueCounter && ValuePlaceholder(k) in UsedValues(e) && |fields| == k - b.valueCounter
    requires ValuePlaceholder(k) in b.values ==> b.values[ValuePlaceholder(k)] != av
    ensures MeaningIn(e, b') != MeaningIn(e, b)
  {
    UsedBound(e, b);
    assert b'.values[ValuePlaceholder(k)] != b.values[ValuePlaceholder(k)];
    MeaningSpared(e, b, b');
  }

  /** A condition that is not settled is spoilt by some run of equalities. */
  lemma UnsettledSpoilt(p: Policy, b: Bindings, e: Syntax) returns (calls: seq<Call>)
    requires Closed(MeaningIn(e, b)) && Receptive(p, b) && !Settled(e, b)
    ensures Respectful(p, b, calls) && MeaningIn(e, Onward(p, b, calls)) != MeaningIn(e, b)
  {
    var v, w :| ValueOk(p, v) && ValueOk(p, w) && Convert(v) != Convert(w);
    if k: nat :| k > b.naming.counter && NamePlaceholder(k) in UsedNames(e) {
      assert HasFresh(p, b, k - b.naming.counter);
      var fields :| |fields| == k - b.naming.counter && Fresh(p, b, fields);
      calls := Equalities(fields, v);
      EqualitiesCount(p, b, fields, v);
      NameSpoilt(e, b, Onward(p, b, calls), fields, Convert(v).value, k);
    } else {
      var k: nat :| k > b.valueCounter && ValuePlaceholder(k) in UsedValues(e);
      var ph := ValuePlaceholder(k);
      var other := if ph in b.values && b.values[ph] == Convert(v).value then w else v;
      assert HasFresh(p, b, k - b.valueCounter);
      var fields :| |fields| == k - b.valueCounter && Fresh(p, b, fields);
      calls := Equalities(fields, other);
      EqualitiesCount(p, b, fields, other);
      ValueSpoilt(e, b, Onward(p, b, calls), fields, Convert(other).value, k);
    }
  }

  /**
   Every run of later calls: a stored condition keeps its meaning whatever calls follow, each on an accepted field that
   respells nothing bound by then, exactly when no number it is written with lies beyond the counters. Conditions the
   builder writes itself are settled; a group's are when its builder counted no further than this one.
   */
  lemma SettledExactly(p: Policy, b: Bindings, e: Syntax)
    requires Closed(MeaningIn(e, b)) && Receptive(p, b)
    ensures Settled(e, b) <==>
            forall calls :: Respectful(p, b, calls) ==> MeaningIn(e, Onward(p, b, calls)) == MeaningIn(e, b)
  {
    if Settled(e, b) {
      forall calls | Respectful(p, b, calls) ensures MeaningIn(e, Onward(p, b, calls)) == MeaningIn(e, b) {
        SettledKept(p, b, calls, e);
      }
    } else {
      var calls := UnsettledSpoilt(p, b, e);
    }
  }

  /** A group that fits the bindings it is added to is settled there. */
  lemma FitsSettled(b: Bindings, group: Components, meaning: Meaning, e: Syntax)
    requires GroupFits(b, group, meaning) && group.filter != "" && ParsesTo(group.filter, e)
    ensures Settled(e, GroupBindings(b, group))
  {
    var e' :| ParsesTo(group.filter, e') && Resolve(e', group.names, group.values) == meaning;
    UsedBound(e, Bindings(Naming(group.names, b.naming.counter), group.values, b.valueCounter));
  }
}
