/** Runs of the expression builder on which a promised property fails (internal/expr/builder.go). */
module BuilderCases {
  import opened Text
  import opened Attributes
  import opened ConditionGrammar
  import opened ConditionMeaning
  import opened ConditionPrinter
  import opened ExprBuilder
  import opened GroupClash
  import opened LaterCalls
  import opened Placeholders
  import opened BuilderRuns
  import opened SealedRuns
  import opened UpdateAction
  import opened UpdateClauses
  import opened UpdateMeaning
  import UE = UpdateEncryption
  import US = UpdateSealing
  import UT = UpdateText

  // ---- A function call on a rejected field ----

  lemma OnlyAction(order: seq<UT.Action>, c: UT.Clause)
    requires Visits(order, [c])
    ensures order == [UT.ActionOf(c)] && OfAction([c], UT.ActionOf(c)) == [c]
  {
    var a := UT.ActionOf(c);
    assert [c][..0] == [];
    forall b | b in order ensures b == a {
      assert OfAction([c], b) != [];
    }
    assert a in order;
    assert order[0] in order && order[|order| - 1] in order;
  }

  lemma OnlyClause(text: string, c: UT.Clause)
    requires Prints(text, [c])
    ensures text == UT.ActionText(UT.ActionOf(c)) + " " + UT.ClauseText(c)
  {
    var order :| Visits(order, [c]) && text == UT.UpdateExpression(Sections([c], order));
    OnlyAction(order, c);
    assert Sections([c], order) == [UT.Section(UT.ActionOf(c), [c])];
    OnlySection(UT.ActionOf(c), c);
  }

  lemma OnlySection(a: UT.Action, c: UT.Clause)
    ensures UT.UpdateExpression([UT.Section(a, [c])]) == UT.ActionText(a) + " " + UT.ClauseText(c)
  {
    assert UT.ClauseTexts([c]) == [UT.ClauseText(c)];
    assert UT.SectionTexts([UT.Section(a, [c])]) == [UT.SectionText(a, [c])];
  }

  const REJECTED := UT.SetClause(UT.Target("#invalid", None), UT.IfNotExists("#invalid", ":v1"))

  lemma RejectedClause()
    ensures FormClause(IfMissing, "#invalid", 0) == REJECTED
  {
    assert Itoa(1) == "1";
    assert ValuePlaceholder(1) == ":v1";
  }

  /** `SET #invalid = if_not_exists(#invalid, :v1)`. */
  const REJECTED_TEXT := "SET" + " " + ("#invalid" + " = " + ("if_not_exists(" + "#invalid" + ", " + ":v1" + ")"))

  lemma RejectedCall(policy: Policy, field: string, value: GoValue)
    requires ValueOk(policy, value)
    ensures FunctionOk(policy, field, "if_not_exists", [value, value])
    ensures FormOf(field, "if_not_exists", [value, value]) == Some(IfMissing)
  {
    AcceptedOne(policy, value);
  }

  method AddRejected(b: Builder, field: string, value: GoValue) returns (ok: bool)
    requires b.Sound() && b.Counted() && b.UpdatesSound() && b.added == [] && b.valueCounter == 0
    requires !b.policy.fieldOk(field) && ValueOk(b.policy, value)
    modifies b`names, b`nameCounter, b`values, b`valueCounter, b`updateExpressions, b`added, b`effects, b`marks
    ensures ok && b.UpdatesSound() && b.added == [REJECTED] && "#invalid" !in b.names
  {
    RejectedCall(b.policy, field, value);
    ghost var ref;
    ok, ref := b.AddUpdateFunction(field, "if_not_exists", [value, value]);
    RejectedClause();
    assert b.added == [] + [REJECTED];
  }

  /** An update function on a field that validation rejects is stored, and its text uses a placeholder bound nowhere. */
  method RejectedField(policy: Policy, field: string, value: GoValue) returns (ok: bool, c: Components)
    requires !policy.fieldOk(field) && ValueOk(policy, value)
    ensures ok && c.update == REJECTED_TEXT && "#invalid" !in c.names
  {
    var b := new Builder(policy);
    ok := AddRejected(b, field, value);
    c := b.Build();
    OnlyClause(c.update, REJECTED);
  }

  // ---- Reaching inside an encrypted attribute ----

  /** `secret.x` with `secret` encrypted is such a field, and so is every accepted field of two parts. */
  lemma NestedField(p: Policy, a: string, b: string)
    requires '.' !in a && '.' !in b && '[' !in a && '[' !in b && Upper(a) != Upper(b)
    requires p.fieldOk(a + "." + b) && p.fieldOk(a) && p.fieldOk(b)
    ensures Clear(p, map[], a + "." + b) && '.' in a + "." + b && Head(a + "." + b) == a
  {
    SplitTwo(a, b);
    FieldStepPlain(a);
    TwoPartsClear(p, a + "." + b, a, b);
  }

  lemma TwoPartsClear(p: Policy, name: string, a: string, b: string)
    requires Split(name, '.') == [a, b] && '[' !in name && Upper(a) != Upper(b)
    requires p.fieldOk(name) && p.fieldOk(a) && p.fieldOk(b)
    ensures Clear(p, map[], name)
  {
  }

  lemma SplitTwo(a: string, b: string)
    requires '.' !in a && '.' !in b
    ensures Split(a + "." + b, '.') == [a, b]
  {
    SplitFirst(a, b, '.');
    SplitDotless(b);
  }

  lemma NothingToSeal(c: Components, e: Effect, encrypted: set<string>, seal: UE.Seal, calls: nat, out: UE.State)
    requires SentSealed(c, [e], encrypted, seal, calls, out) && !US.Seals(e, encrypted) && ClosedEffect(e)
    ensures UpdateDoes(c.update, c.names, out.values, [e]) && out.calls == calls
  {
    var cs :| Prints(c.update, cs) && AllDo(cs, c.names, c.values, [e])
              && US.AllSent(cs, [e], c.names, encrypted, seal, UE.State(c.values, calls), out);
    US.NothingSealed([e], encrypted, 1);
    assert US.SentAt(cs, [e], c.names, encrypted, seal, UE.State(c.values, calls), out, 0);
    assert AllDo(cs, c.names, out.values, [e]);
  }

  method AddOne(b: Builder, field: string, value: GoValue)
    requires b.Sound() && b.Counted() && b.UpdatesSound() && b.effects == []
    requires Clear(b.policy, b.names, field) && ValueOk(b.policy, value)
    modifies b`names, b`nameCounter, b`values, b`valueCounter, b`updateExpressions, b`added, b`effects, b`marks
    ensures b.Sound() && b.UpdatesSound() && b.effects == [AddTo(FieldPath(field), Converted(value))]
  {
    var added;
    ghost var ref;
    added, ref := b.AddUpdateAdd(field, value);
  }

  /** A builder with one ADD clause. */
  method BuildAdd(policy: Policy, field: string, value: GoValue) returns (b: Builder, c: Components)
    requires Clear(policy, map[], field) && ValueOk(policy, value)
    ensures fresh(b) && b.policy == policy && b.Sound() && b.UpdatesSound()
    ensures b.effects == [AddTo(FieldPath(field), Converted(value))]
    ensures c.names == b.names && c.values == b.values && Prints(c.update, b.added)
  {
    b := new Builder(policy);
    AddOne(b, field, value);
    c := b.Build();
  }

  /** SET refuses every path inside an encrypted attribute; ADD lets each of them through and nothing is encrypted. */
  method NestedAdd(policy: Policy, field: string, value: GoValue, encrypted: set<string>, svc: UE.Service)
    returns (c: Components, ok: bool, sent: Values)
    requires Clear(policy, map[], field) && '.' in field && ValueOk(policy, value)
    requires Head(field) in encrypted && "" !in encrypted
    requires forall n, a, v :: svc.seal(n, a, v).Ok?
    modifies svc
    ensures ok && svc.calls == old(svc.calls)
    ensures UpdateDoes(c.update, c.names, sent, [AddTo(FieldPath(field), Converted(value))])
    ensures US.IsEncrypted(FieldPath(field), encrypted)
  {
    var b;
    b, c := BuildAdd(policy, field, value);
    var attrs := new UE.ExpressionValues(c.values);
    ok := UE.EncryptUpdateExpressionValues(svc, encrypted, c.update, c.names, attrs);
    sent := attrs.values;
    FieldHead(field, encrypted);
    NestedSent(b, c, field, Converted(value), encrypted, svc.seal, old(svc.calls));
  }

  lemma NestedSent(b: Builder, c: Components, field: string, value: Term, encrypted: set<string>, seal: UE.Seal,
      calls: nat)
    requires b.Sound() && b.UpdatesSound() && b.effects == [AddTo(FieldPath(field), value)]
    requires '.' in field && "" !in encrypted
    requires c.names == b.names && c.values == b.values && Prints(c.update, b.added)
    requires forall n, a, v :: seal(n, a, v).Ok?
    ensures var out := UE.PassText(c.update, c.names, encrypted, seal, UE.State(c.values, calls));
            && out.ok && UpdateDoes(c.update, c.names, out.state.values, b.effects) && out.state.calls == calls
  {
    NestedAllowed(field, value, encrypted);
    BuiltSealed(b, c, encrypted, seal, calls);
    NothingToSeal(c, b.effects[0], encrypted, seal, calls,
      UE.PassText(c.update, c.names, encrypted, seal, UE.State(c.values, calls)).state);
  }

  lemma NestedAllowed(field: string, value: Term, encrypted: set<string>)
    requires '.' in field
    ensures var e := AddTo(FieldPath(field), value);
            US.AllAllowed([e], encrypted) && !US.Seals(e, encrypted)
  {
    FieldHead(field, encrypted);
  }

  // ---- Groups that take over a condition, and conditions that take over a group ----

  const N1: string := NamePlaceholder(1)
  const V1: string := ValuePlaceholder(1)

  /** The text `#n1 = :v1`. */
  const EQUALS: string := ConditionText(Cmp(EQ), N1, [V1])

  /** Nothing but the first placeholders is bound, although the counters have not issued them. */
  predicate FirstAlone(b: Bindings) {
    b.naming.names.Keys <= {N1} && b.naming.counter == 0 && b.values.Keys <= {V1} && b.valueCounter == 0
  }

  lemma FirstName(p: Policy, names: Names, field: string, s: Naming, ref: string)
    requires names.Keys <= {N1} && OnePart(p, field) && Named(p, Naming(names, 0), field, s, ref)
    ensures s.names == map[N1 := field] && ref == N1
  {
    if field in names.Values {
      assert names == map[N1 := field];
    } else {
      SplitDotless(field);
      assert [field][1..] == [];
      assert AddParts(p, Naming(names, 0), [field]) == AddPart(p, Naming(names, 0), field);
      assert PartRefs(p, 0, [field]) == [N1];
      assert names[N1 := field] == map[N1 := field];
    }
  }

  lemma FirstValue(values: Values, av: AttributeValue)
    requires values.Keys <= {V1}
    ensures BindAll(values, 0, [av]) == map[V1 := av]
  {
    assert [av][..0] == [];
    assert BindAll(values, 0, []) == values;
    assert values[V1 := av] == map[V1 := av];
  }

  lemma EqualsText(op: Op, refs: seq<string>)
    requires op == Cmp(EQ) && refs == [V1]
    ensures Arity(op, |refs|) && ConditionText(op, N1, refs) == EQUALS
  {
  }

  lemma EqualsCall(p: Policy, field: string, value: GoValue)
    requires p.fieldOk(field) && p.operatorOk("=") && ValueOk(p, value)
    ensures Accepts(p, field, "=", value) && Bound(p, "=", value) == [Convert(value).value]
    ensures BuiltText(p, field, "=", value, 0, N1) == EQUALS
  {
    AcceptedOne(p, value);
    assert OpOf("=") == Some(Cmp(EQ));
    assert OperandsOf(p, Cmp(EQ), value) == Some([value]);
    var refs := ValueRefs(0, |Bound(p, "=", value)|);
    assert |refs| == 1 && refs[0] == ValuePlaceholder(1);
    assert refs == [V1];
    EqualsText(OpOf("=").value, refs);
  }

  /** A condition `field = value` that is given the first placeholders. */
  method AddEqual(b: Builder, field: string, value: GoValue)
    requires OnePart(b.policy, field) && b.policy.operatorOk("=") && ValueOk(b.policy, value)
    requires b.Valid() && FirstAlone(b.State())
    modifies b`names, b`nameCounter, b`values, b`valueCounter, b`filterConditions, b`filterOperators, b`filterMeanings
    ensures b.Valid() && b.filterConditions == old(b.filterConditions) + [EQUALS]
    ensures b.filterOperators ==
            old(b.filterOperators) + if old(b.filterConditions) == [] then [] else [ConditionMeaning.AND]
    ensures b.names == map[N1 := field] && b.values == map[V1 := Convert(value).value]
  {
    var ok;
    ghost var ref;
    ghost var before := b.State();
    EqualsCall(b.policy, field, value);
    ok, ref := b.AddFilterCondition(ConditionMeaning.AND, field, "=", value);
    FirstName(b.policy, before.naming.names, field, Naming(b.names, b.nameCounter), ref);
    FirstValue(before.values, Convert(value).value);
  }

  /** The text `#n1 = :v1`, in parentheses or not. */
  predicate IsEquals(text: string) {
    text == EQUALS || text == "(" + EQUALS + ")"
  }

  lemma EqualsAtom(text: string, y: string, w: AttributeValue)
    requires '.' !in y && IsEquals(text)
    ensures DenotesAtom(text, map[N1 := y], map[V1 := w], Literally(y, w))
  {
    NamePlaceholderPlain(1);
    ValuePlaceholderPlain(1);
    EqualsDenotes(y, w, N1, V1);
    AtomIsText(EQUALS, map[N1 := y], map[V1 := w], Literally(y, w));
    ParenthesisedAtom(EQUALS, map[N1 := y], map[V1 := w], Literally(y, w));
  }

  lemma BothEqual(a: string, b: string, y: string, w: AttributeValue)
    requires '.' !in y && IsEquals(a) && IsEquals(b)
    ensures Denotes(FlatText([a, b], [ConditionMeaning.AND]), map[N1 := y], map[V1 := w],
                    And(Literally(y, w), Literally(y, w)))
  {
    EqualsAtom(a, y, w);
    EqualsAtom(b, y, w);
    var ms, ops := [Literally(y, w), Literally(y, w)], [ConditionMeaning.AND];
    FlatParses([a, b], ops, map[N1 := y], map[V1 := w], ms);
    assert ms[1..] == [Literally(y, w)] && ops[1..] == [];
    assert FlatTree(ms, ops) == And(ms[0], FlatTree(ms[1..], ops[1..]));
  }

  /** A group `y = w`, written with the first placeholders. */
  predicate IsEqualGroup(g: Components, y: string, w: AttributeValue) {
    g.filter == EQUALS && g.names == map[N1 := y] && g.values == map[V1 := w]
  }

  lemma Overwritten<T>(a: map<string, T>, b: map<string, T>)
    requires a.Keys <= b.Keys
    ensures a + b == b
  {
  }

  method AddEqualGroup(b: Builder, g: Components, y: string, w: AttributeValue)
    requires b.Valid() && b.names.Keys <= {N1} && b.values.Keys <= {V1} && IsEqualGroup(g, y, w)
    modifies b`names, b`values, b`filterConditions, b`filterOperators, b`filterMeanings
    ensures b.Valid() && b.names == g.names && b.values == g.values
    ensures b.filterConditions == old(b.filterConditions) + ["(" + EQUALS + ")"]
    ensures b.filterOperators ==
            old(b.filterOperators) + if old(b.filterConditions) == [] then [] else [ConditionMeaning.AND]
  {
    NonemptyEquals();
    Overwritten(b.names, g.names);
    Overwritten(b.values, g.values);
    b.AddGroupFilter(ConditionMeaning.AND, g, Literally(y, w));
  }

  lemma NonemptyEquals()
    ensures EQUALS != ""
  {
    assert N1[0] == '#';
  }

  /** A group of one condition `y = w`. */
  method EqualGroup(policy: Policy, y: string, w: GoValue) returns (g: Components)
    requires OnePart(policy, y) && policy.operatorOk("=") && ValueOk(policy, w)
    ensures IsEqualGroup(g, y, Convert(w).value)
  {
    var group := new Builder(policy);
    AddEqual(group, y, w);
    g := group.Build();
  }

  method BuildTwo(b: Builder, first: string, second: string, y: string, w: AttributeValue) returns (c: Components)
    requires b.Valid() && b.filterConditions == [first, second] && b.filterOperators == [ConditionMeaning.AND]
    requires '.' !in y && IsEquals(first) && IsEquals(second) && b.names == map[N1 := y] && b.values == map[V1 := w]
    ensures Denotes(c.filter, c.names, c.values, And(Literally(y, w), Literally(y, w)))
  {
    c := b.Build();
    BothEqual(first, second, y, w);
  }

  /**
   `x = v` followed by a group `y = w`: the group's builder counts from one again, so the emitted filter says `y = w`
   twice and nothing of `x`.
   */
  method GroupOverFilter(policy: Policy, x: string, v: GoValue, y: string, w: GoValue) returns (c: Components)
    requires OnePart(policy, x) && OnePart(policy, y) && policy.operatorOk("=")
    requires ValueOk(policy, v) && ValueOk(policy, w)
    ensures Denotes(c.filter, c.names, c.values, And(Literally(y, Convert(w).value), Literally(y, Convert(w).value)))
  {
    var g := EqualGroup(policy, y, w);
    var b := new Builder(policy);
    AddEqual(b, x, v);
    AddEqualGroup(b, g, y, Convert(w).value);
    c := BuildTwo(b, EQUALS, "(" + EQUALS + ")", y, Convert(w).value);
  }

  /**
   A group `y = w` followed by `x = v`: the group leaves the counters where they were, so the later condition is given
   the group's placeholders and the emitted filter says `x = v` twice and nothing of `y`.
   */
  method FilterOverGroup(policy: Policy, y: string, w: GoValue, x: string, v: GoValue) returns (c: Components)
    requires OnePart(policy, x) && OnePart(policy, y) && policy.operatorOk("=")
    requires ValueOk(policy, v) && ValueOk(policy, w)
    ensures Denotes(c.filter, c.names, c.values, And(Literally(x, Convert(v).value), Literally(x, Convert(v).value)))
  {
    var g := EqualGroup(policy, y, w);
    var b := new Builder(policy);
    AddEqualGroup(b, g, y, Convert(w).value);
    AddEqual(b, x, v);
    c := BuildTwo(b, "(" + EQUALS + ")", EQUALS, x, Convert(v).value);
  }

  // ---- Fields that name a list element ----

  /** `tags[0] = v` as a filter compares an attribute called `tags[0]`, which no element is. */
  method ElementFilter(policy: Policy, field: string, v: GoValue) returns (c: Components)
    requires OnePart(policy, field) && '[' in field && policy.operatorOk("=") && ValueOk(policy, v)
    ensures Denotes(c.filter, c.names, c.values, Literally(field, Convert(v).value))
    ensures Literally(field, Convert(v).value) != Equals(field, Convert(v).value)
  {
    var b := new Builder(policy);
    AddEqual(b, field, v);
    c := b.Build();
    EqualsAtom(EQUALS, field, Convert(v).value);
    AtomIsText(EQUALS, c.names, c.values, Literally(field, Convert(v).value));
    LiterallyEquals(field, Convert(v).value);
  }

  /** The clause over a reference that takes the field literally, with the first value. */
  lemma LiteralClause(p: Policy, field: string, s: Naming, ref: string, av: AttributeValue, values: Values)
    requires Unrespelled(p, map[], field) && Named(p, Naming(map[], 0), field, s, ref) && values == map[V1 := av]
    ensures Does(UT.AddClause(ref, V1), s.names, values, AddTo(LiteralPath(field), Value(av)))
    ensures Does(ValueClause(ref, None, 1), s.names, values,
                 SetTo(Place(LiteralPath(field), None), Outright(Value(av))))
  {
    NameLiteral(p, Naming(map[], 0), field, s, ref);
    ValuePlaceholderPlain(1);
  }

  /** The counters and values of a builder whose first call names a field and binds one value. */
  lemma FirstOperand(p: Policy, name: string, value: GoValue, b: Bindings)
    requires ValueOk(p, value)
    requires b == Operated(p, Bindings(Naming(map[], 0), map[], 0), true, name, AcceptedPrefix(p, [value]))
    ensures b.valueCounter == 1 && b.values == map[V1 := Convert(value).value]
  {
    AcceptedOne(p, value);
    FirstValue(map[], Convert(value).value);
  }

  lemma OneDone(text: string, names: Names, values: Values, cs: seq<UT.Clause>, e: Effect)
    requires Prints(text, cs) && |cs| == 1 && Does(cs[0], names, values, e)
    ensures UpdateDoes(text, names, values, [e])
  {
    assert AllDo(cs, names, values, [e]);
  }

  /** A builder without calls. */
  ghost predicate Untouched(b: Builder)
    reads b
  {
    b.Counted() && b.UpdatesSound() && b.added == [] && b.State() == Bindings(Naming(map[], 0), map[], 0)
  }

  method AddLiterally(b: Builder, field: string, value: GoValue) returns (ok: bool)
    requires Untouched(b) && Unrespelled(b.policy, map[], field) && ValueOk(b.policy, value)
    modifies b`names, b`nameCounter, b`values, b`valueCounter, b`updateExpressions, b`added, b`effects, b`marks
    ensures ok && b.UpdatesSound() && |b.added| == 1
    ensures Does(b.added[0], b.names, b.values, AddTo(LiteralPath(field), Converted(value)))
  {
    ghost var ref;
    ok, ref := b.AddUpdateAdd(field, value);
    FirstOperand(b.policy, field, value, b.State());
    LiteralClause(b.policy, field, Naming(b.names, b.nameCounter), ref, Convert(value).value, b.values);
    assert b.added[0] == UT.AddClause(ref, V1);
  }

  method SetLiterally(b: Builder, field: string, value: GoValue) returns (ok: bool)
    requires Untouched(b) && Unrespelled(b.policy, map[], field) && ValueOk(b.policy, value)
    requires ParseListIndex(field).Plain?
    modifies b`names, b`nameCounter, b`values, b`valueCounter, b`updateExpressions, b`added, b`effects, b`marks
    ensures ok && b.UpdatesSound() && |b.added| == 1
    ensures Does(b.added[0], b.names, b.values, SetTo(Place(LiteralPath(field), None), Outright(Converted(value))))
  {
    ghost var ref;
    ok, ref := b.AddUpdateSet(field, value);
    FirstOperand(b.policy, field, value, b.State());
    LiteralClause(b.policy, field, Naming(b.names, b.nameCounter), ref, Convert(value).value, b.values);
    assert b.added[0] == ValueClause(ref, None, 1);
  }

  /** `ADD tags[0] v` adds to an attribute called `tags[0]`. */
  method ElementAdd(policy: Policy, field: string, value: GoValue) returns (ok: bool, c: Components)
    requires Unrespelled(policy, map[], field) && '[' in field && ValueOk(policy, value)
    ensures ok && UpdateDoes(c.update, c.names, c.values, [AddTo(LiteralPath(field), Converted(value))])
    ensures LiteralPath(field) != FieldPath(field)
  {
    var b := new Builder(policy);
    ok := AddLiterally(b, field, value);
    c := b.Build();
    OneDone(c.update, c.names, c.values, b.added, AddTo(LiteralPath(field), Converted(value)));
    LiteralExactly(field);
  }

  /** `SET rows[0].x = v` assigns inside an attribute called `rows[0]`, where `SET rows[0] = v` sets the element. */
  method ElementSet(policy: Policy, field: string, value: GoValue) returns (ok: bool, c: Components)
    requires Unrespelled(policy, map[], field) && '[' in field && ParseListIndex(field).Plain? && ValueOk(policy, value)
    ensures ok
    ensures UpdateDoes(c.update, c.names, c.values,
                       [SetTo(Place(LiteralPath(field), None), Outright(Converted(value)))])
    ensures LiteralPath(field) != FieldPath(field)
  {
    var b := new Builder(policy);
    ok := SetLiterally(b, field, value);
    c := b.Build();
    OneDone(c.update, c.names, c.values, b.added,
            SetTo(Place(LiteralPath(field), None), Outright(Converted(value))));
    LiteralExactly(field);
  }

  // ---- An update the service refuses ----

  lemma TwiceSaid(p: Policy, field: string, v: GoValue, w: GoValue)
    requires OnePart(p, field) && '[' !in field && ValueOk(p, v) && ValueOk(p, w)
    ensures EffectsSaid(p, [Set(field, v), Set(field, w)]) ==
            [SetTo(Place(FieldPath(field), None), Outright(Converted(v))),
             SetTo(Place(FieldPath(field), None), Outright(Converted(w)))]
    ensures !NoOverlap(EffectsSaid(p, [Set(field, v), Set(field, w)]))
  {
    var calls := [Set(field, v), Set(field, w)];
    var es := [SetTo(Place(FieldPath(field), None), Outright(Converted(v))),
               SetTo(Place(FieldPath(field), None), Outright(Converted(w)))];
    assert ParseListIndex(field).Plain?;
    forall i | 0 <= i < 2 ensures AsEffectBy(p)(calls[i]) == [es[i]] {
    }
    CollectEach(calls, AsEffectBy(p), es);
    assert Overlap(es[0], es[1]);
  }

  /** SET twice on one attribute is accepted and printed, and the service does not take it. */
  method SetTwice(policy: Policy, field: string, v: GoValue, w: GoValue) returns (c: Components)
    requires OnePart(policy, field) && '[' !in field && ValueOk(policy, v) && ValueOk(policy, w)
    ensures c.update != "" && !LegalUpdateText(c.update, c.names, c.values)
  {
    var calls := [Set(field, v), Set(field, w)];
    SplitDotless(field);
    assert ParseListIndex(field).Plain?;
    c := Run(policy, calls, {field});
    TwiceSaid(policy, field, v, w);
    DoesNonempty(c.update, c.names, c.values, EffectsSaid(policy, calls));
  }

  lemma DoesNonempty(text: string, names: Names, values: Values, es: seq<Effect>)
    requires UpdateDoes(text, names, values, es) && es != []
    ensures text != ""
  {
    var cs :| Prints(text, cs) && AllDo(cs, names, values, es);
    var order :| Visits(order, cs) && text == UT.UpdateExpression(Sections(cs, order));
    US.OfActionHas(cs, UT.ActionOf(cs[0]), 0);
    assert UT.ActionOf(cs[0]) in order;
    SectionsWellFormed(cs, order);
    UE.ExpressionNonempty(Sections(cs, order));
  }
}
