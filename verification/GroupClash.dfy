/**
 Overwritten placeholders: exactly when a stored condition survives the bindings of a filter group
 (internal/expr/builder.go AddGroupFilter, pkg/query/query.go addFilterGroup).
 */
module GroupClash {
  import opened Text
  import opened Attributes
  import opened ConditionGrammar
  import opened ConditionMeaning
  import opened ConditionPrinter
  import opened Placeholders

  /** The placeholder a path step starts with. */
  function StepRef(part: string): string {
    part[..Span(part, c => c != '[')]
  }

  predicate StepAgrees(part: string, names: Names, names': Names) {
    part != "" && part[0] == '#' && StepRef(part) in names ==>
      StepRef(part) in names' && names'[StepRef(part)] == names[StepRef(part)]
  }

  predicate StepsAgree(parts: seq<string>, names: Names, names': Names) {
    forall i :: 0 <= i < |parts| ==> StepAgrees(parts[i], names, names')
  }

  /** The placeholders this operand is written with are bound as before. */
  predicate OperandAgrees(x: Operand, names: Names, values: Values, names': Names, values': Values) {
    if x.Ref? && x.name != "" && x.name[0] == ':' then
      x.name in values ==> x.name in values' && values'[x.name] == values[x.name]
    else StepsAgree(Split(x.name, '.'), names, names')
  }

  predicate OperandsAgree(xs: seq<Operand>, names: Names, values: Values, names': Names, values': Values) {
    forall i :: 0 <= i < |xs| ==> OperandAgrees(xs[i], names, values, names', values')
  }

  /** The placeholders a condition is written with are bound as before. */
  predicate Agrees(e: Syntax, names: Names, values: Values, names': Names, values': Values) {
    match e
    case Compare(_, x, y) => OperandsAgree([x, y], names, values, names', values')
    case Between(x, lo, hi) => OperandsAgree([x, lo, hi], names, values, names', values')
    case In(x, xs) =>
      OperandAgrees(x, names, values, names', values') && OperandsAgree(xs, names, values, names', values')
    case Call(_, xs) => OperandsAgree(xs, names, values, names', values')
    case Not(a) => Agrees(a, names, values, names', values')
    case And(a, b) => Agrees(a, names, values, names', values') && Agrees(b, names, values, names', values')
    case Or(a, b) => Agrees(a, names, values, names', values') && Agrees(b, names, values, names', values')
  }

  lemma StepExact(part: string, names: Names, names': Names)
    requires ResolveStep(part, names).Some?
    ensures ResolveStep(part, names') == ResolveStep(part, names) <==> StepAgrees(part, names, names')
  {
  }

  lemma {:induction false} StepsExact(parts: seq<string>, names: Names, names': Names)
    requires ResolveSteps(parts, names).Some?
    ensures ResolveSteps(parts, names') == ResolveSteps(parts, names) <==> StepsAgree(parts, names, names')
  {
    if parts != [] {
      StepExact(parts[0], names, names');
      StepsExact(parts[1..], names, names');
      var all, all' := ResolveSteps(parts, names), ResolveSteps(parts, names');
      var rest, rest' := ResolveSteps(parts[1..], names), ResolveSteps(parts[1..], names');
      assert all.value[0] == ResolveStep(parts[0], names).value && all.value[1..] == rest.value;
      if all'.Some? {
        assert all'.value[0] == ResolveStep(parts[0], names').value && all'.value[1..] == rest'.value;
      }
      assert StepsAgree(parts, names, names') <==>
             StepAgrees(parts[0], names, names') && StepsAgree(parts[1..], names, names') by {
        assert parts == [parts[0]] + parts[1..];
      }
    }
  }

  lemma OperandExact(x: Operand, names: Names, values: Values, names': Names, values': Values)
    requires ResolveOperand(x, names, values) != Unbound
    ensures ResolveOperand(x, names', values') == ResolveOperand(x, names, values) <==>
            OperandAgrees(x, names, values, names', values')
  {
    if !(x.Ref? && x.name != "" && x.name[0] == ':') {
      StepsExact(Split(x.name, '.'), names, names');
    }
  }

  lemma OperandsExact(xs: seq<Operand>, names: Names, values: Values, names': Names, values': Values)
    requires Unbound !in ResolveOperands(xs, names, values)
    ensures ResolveOperands(xs, names', values') == ResolveOperands(xs, names, values) <==>
            OperandsAgree(xs, names, values, names', values')
  {
    var ts, ts' := ResolveOperands(xs, names, values), ResolveOperands(xs, names', values');
    forall i | 0 <= i < |xs|
      ensures ts'[i] == ts[i] <==> OperandAgrees(xs[i], names, values, names', values')
    {
      assert ts[i] in ts;
      OperandExact(xs[i], names, values, names', values');
    }
    if ts' == ts {
      forall i | 0 <= i < |xs| ensures OperandAgrees(xs[i], names, values, names', values') {
        assert ts'[i] == ts[i];
      }
    }
  }

  /**
   A condition whose placeholders were all bound keeps its meaning under other bindings exactly when they agree on it.
   */
  lemma {:induction false} RebindingExact(e: Syntax, names: Names, values: Values, names': Names, values': Values)
    requires Closed(Resolve(e, names, values))
    ensures Resolve(e, names', values') == Resolve(e, names, values) <==> Agrees(e, names, values, names', values')
  {
    match e
    case Compare(_, x, y) =>
      OperandsExact([x, y], names, values, names', values');
      assert ResolveOperands([x, y], names, values) ==
             [ResolveOperand(x, names, values), ResolveOperand(y, names, values)];
      assert ResolveOperands([x, y], names', values') ==
             [ResolveOperand(x, names', values'), ResolveOperand(y, names', values')];
    case Between(x, lo, hi) =>
      BetweenExact(x, lo, hi, names, values, names', values');
    case In(x, xs) =>
      OperandExact(x, names, values, names', values');
      OperandsExact(xs, names, values, names', values');
    case Call(_, xs) => OperandsExact(xs, names, values, names', values');
    case Not(a) => RebindingExact(a, names, values, names', values');
    case And(a, b) =>
      RebindingExact(a, names, values, names', values');
      RebindingExact(b, names, values, names', values');
    case Or(a, b) =>
      RebindingExact(a, names, values, names', values');
      RebindingExact(b, names, values, names', values');
  }

  lemma BetweenExact(x: Operand, lo: Operand, hi: Operand, names: Names, values: Values, names': Names, values': Values)
    requires Closed(Resolve(Between(x, lo, hi), names, values))
    ensures Resolve(Between(x, lo, hi), names', values') == Resolve(Between(x, lo, hi), names, values) <==>
            OperandsAgree([x, lo, hi], names, values, names', values')
  {
    OperandsExact([x, lo, hi], names, values, names', values');
    ThreeOperands(x, lo, hi, names, values);
    ThreeOperands(x, lo, hi, names', values');
  }

  lemma ThreeOperands(x: Operand, lo: Operand, hi: Operand, names: Names, values: Values)
    ensures ResolveOperands([x, lo, hi], names, values) ==
            [ResolveOperand(x, names, values), ResolveOperand(lo, names, values), ResolveOperand(hi, names, values)]
  {
  }

  /**
   In text: a stored condition keeps its meaning under a group's bindings exactly when they leave its placeholders
   alone.
   */
  lemma GroupKeepsExactly(
    text: string, e: Syntax, names: Names, values: Values, groupNames: Names, groupValues: Values)
    requires ReadsAtom(text, e) && Closed(Resolve(e, names, values))
    ensures DenotesAtom(text, names + groupNames, values + groupValues, Resolve(e, names, values)) <==>
            Agrees(e, names, values, names + groupNames, values + groupValues)
  {
    RebindingExact(e, names, values, names + groupNames, values + groupValues);
    assert ReadsAtom(text, e);
  }

  // ---- The clash ----

  function Equals(field: string, v: AttributeValue): Meaning {
    FieldCondition(Cmp(EQ), field, [v])
  }

  /** `field = v`, with brackets in the field taken as part of the attribute's name. */
  function Literally(field: string, v: AttributeValue): Meaning {
    Compare(EQ, LiteralPath(field), Value(v))
  }

  lemma LiterallyEquals(field: string, v: AttributeValue)
    ensures Literally(field, v) == Equals(field, v) <==> '[' !in field
  {
    LiteralExactly(field);
  }

  lemma PlainField(field: string, ref: string, names: Names, values: Values)
    requires IsPlainRef(ref) && '.' !in field && ref in names && names[ref] == field
    ensures ResolveOperand(Ref(ref), names, values) == LiteralPath(field)
  {
    SplitDotless(field);
    SplitJoin([ref], '.');
    ResolveRefs([ref], [field], names);
  }

  /**
   `Filter(x = v)` followed by a group `y = w`: the group's builder counts from one again, so both conditions are
   written `#n1 = :v1` and, once the bindings are merged, the first one says `y = w` too.
   */
  lemma GroupTakesOver(x: string, v: AttributeValue, y: string, w: AttributeValue)
    requires '.' !in x && '.' !in y && '[' !in x && '[' !in y
    ensures var text := ConditionText(Cmp(EQ), NamePlaceholder(1), [ValuePlaceholder(1)]);
            var names, values := map[NamePlaceholder(1) := x], map[ValuePlaceholder(1) := v];
            var groupNames, groupValues := map[NamePlaceholder(1) := y], map[ValuePlaceholder(1) := w];
            && DenotesAtom(text, names, values, Equals(x, v))
            && DenotesAtom(text, groupNames, groupValues, Equals(y, w))
            && DenotesAtom(text, names + groupNames, values + groupValues, Equals(y, w))
  {
    var n, u := NamePlaceholder(1), ValuePlaceholder(1);
    NamePlaceholderPlain(1);
    ValuePlaceholderPlain(1);
    EqualsDenotes(x, v, n, u);
    EqualsDenotes(y, w, n, u);
    LiterallyEquals(x, v);
    LiterallyEquals(y, w);
    assert map[n := x] + map[n := y] == map[n := y] && map[u := v] + map[u := w] == map[u := w];
  }

  lemma EqualsDenotes(x: string, v: AttributeValue, n: string, u: string)
    requires '.' !in x && IsPlainRef(n) && IsValueRef(u)
    ensures DenotesAtom(ConditionText(Cmp(EQ), n, [u]), map[n := x], map[u := v], Literally(x, v))
  {
    ReadCondition(Cmp(EQ), n, [u]);
    PlainField(x, n, map[n := x], map[u := v]);
    var e := Condition(Cmp(EQ), Ref(n), Refs([u]));
    assert ReadsAtom(ConditionText(Cmp(EQ), n, [u]), e);
    assert Resolve(e, map[n := x], map[u := v]) == Literally(x, v);
  }

  /** Naming a reserved word again in another spelling changes what the first one's placeholder stands for. */
  lemma RespellingTakesOver(p: Policy, s: Naming, word: string, other: string)
    requires WellNamed(s) && p.fieldOk(word) && p.fieldOk(other) && '.' !in word && '.' !in other
    requires IsReserved(p, word) && Upper(other) == Upper(word) && other != word
    requires word !in s.names.Values && other !in s.names.Values
    ensures var s1 := AddParts(p, s, [word]);
            var s2 := AddParts(p, s1, [other]);
            && Named(p, s, word, s1, ReservedPlaceholder(word))
            && (other !in s1.names.Values ==> Named(p, s1, other, s2, ReservedPlaceholder(word)))
            && ReservedPlaceholder(word) in s1.names && ReservedPlaceholder(word) in s2.names
            && s1.names[ReservedPlaceholder(word)] == word && s2.names[ReservedPlaceholder(word)] == other
  {
    SplitDotless(word);
    SplitDotless(other);
    assert [word][1..] == [] && [other][1..] == [];
    var s1 := AddPart(p, s, word);
    assert AddParts(p, s, [word]) == s1;
    assert AddParts(p, s1, [other]) == AddPart(p, s1, other);
    assert PartRefs(p, s.counter, [word]) == [ReservedPlaceholder(word)];
    assert PartRefs(p, s1.counter, [other]) == [ReservedPlaceholder(other)];
  }
}
