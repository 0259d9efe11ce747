/** The expression builder of internal/expr/builder.go: it binds placeholders and stores condition and update text. */
module ExprBuilder {
  import opened Text
  import opened Attributes
  import opened ConditionGrammar
  import opened ConditionMeaning
  import opened ConditionPrinter
  import opened Placeholders
  import opened UpdateClauses
  import opened UpdateMeaning
  import UT = UpdateText

  datatype Components = Components(
    names: Names,
    values: Values,
    keyCondition: string,
    filter: string,
    condition: string,
    update: string)

  // ---- The values of a condition ----

  /** The longest prefix of `elems` that validation and conversion accept. */
  function AcceptedPrefix(p: Policy, elems: seq<GoValue>): seq<AttributeValue>
    decreases |elems|
  {
    if elems == [] || !p.valueOk(elems[0]) || Convert(elems[0]).Err? then []
    else [Convert(elems[0]).value] + AcceptedPrefix(p, elems[1..])
  }

  /** The values the text of `op` holds, or None where `buildCondition` refuses the shape of its argument. */
  function OperandsOf(p: Policy, op: Op, value: GoValue): Option<seq<GoValue>> {
    match op
    case BetweenOp =>
      if value.Slice? && value.boxed && |value.elems| == 2 then Some(value.elems) else None
    case InOp =>
      if value.Slice? && |value.elems| <= 100 && (forall v :: v in value.elems ==> p.valueOk(v)) then Some(value.elems)
      else None
    case Exists => Some([])
    case NotExists => Some([])
    case _ => Some([value])
  }

  /** The values bound for a condition, complete or cut short at the first one that fails. */
  function Bound(p: Policy, operator: string, value: GoValue): seq<AttributeValue> {
    match OpOf(operator)
    case None => []
    case Some(op) =>
      match OperandsOf(p, op, value)
      case None => []
      case Some(elems) => AcceptedPrefix(p, elems)
  }

  /** Whether `buildCondition` validates its arguments and goes on to name the field. */
  predicate Validated(p: Policy, field: string, operator: string, value: GoValue) {
    p.fieldOk(field) && p.operatorOk(operator) && p.valueOk(value)
  }

  /** Whether `buildCondition` returns text. */
  predicate Accepts(p: Policy, field: string, operator: string, value: GoValue) {
    && Validated(p, field, operator, value)
    && OpOf(operator).Some?
    && OperandsOf(p, OpOf(operator).value, value).Some?
    && |AcceptedPrefix(p, OperandsOf(p, OpOf(operator).value, value).value)| ==
       |OperandsOf(p, OpOf(operator).value, value).value|
  }

  lemma AcceptedArity(p: Policy, field: string, operator: string, value: GoValue)
    requires Accepts(p, field, operator, value)
    ensures Arity(OpOf(operator).value, |Bound(p, operator, value)|)
  {
  }

  /** What an accepted condition says. */
  function Said(p: Policy, field: string, operator: string, value: GoValue): Meaning
    requires Accepts(p, field, operator, value)
  {
    AcceptedArity(p, field, operator, value);
    FieldCondition(OpOf(operator).value, field, Bound(p, operator, value))
  }

  /** The text of an accepted condition, when its field is named `ref` and its values follow number `counter`. */
  function BuiltText(p: Policy, field: string, operator: string, value: GoValue, counter: nat, ref: string): string
    requires Accepts(p, field, operator, value)
  {
    AcceptedArity(p, field, operator, value);
    ConditionText(OpOf(operator).value, ref, ValueRefs(counter, |Bound(p, operator, value)|))
  }

  /** `IN` with an empty list is accepted but has no readable text. */
  predicate Readable(operator: string, value: GoValue) {
    !(OpOf(operator) == Some(InOp) && value.Slice? && value.elems == [])
  }

  lemma SaidAtom(p: Policy, s: Naming, field: string, operator: string, value: GoValue, s': Naming, ref: string,
      values: Values, counter: nat)
    requires WellNamed(s) && Named(p, s, field, s', ref) && Clear(p, s.names, field)
    requires WellValued(values, counter)
    requires Accepts(p, field, operator, value) && Readable(operator, value)
    ensures DenotesAtom(BuiltText(p, field, operator, value, counter, ref), s'.names,
                        BindAll(values, counter, Bound(p, operator, value)), Said(p, field, operator, value))
    ensures Closed(Said(p, field, operator, value))
  {
    AcceptedArity(p, field, operator, value);
    ConditionDenotes(p, s, field, s', ref, OpOf(operator).value, values, counter, Bound(p, operator, value));
    FieldConditionClosed(OpOf(operator).value, field, Bound(p, operator, value));
  }

  // ---- Lists of stored conditions ----

  ghost predicate AtomsDenote(texts: seq<string>, names: Names, values: Values, ms: seq<Meaning>) {
    && |texts| == |ms|
    && forall i :: 0 <= i < |texts| ==> DenotesAtom(texts[i], names, values, ms[i]) && Closed(ms[i])
  }

  lemma AtomsKept(texts: seq<string>, names: Names, values: Values, names': Names, values': Values, ms: seq<Meaning>)
    requires AtomsDenote(texts, names, values, ms) && Extends(names, names') && Extends(values, values')
    ensures AtomsDenote(texts, names', values', ms)
  {
    forall i | 0 <= i < |texts| ensures DenotesAtom(texts[i], names', values', ms[i]) {
      DenotesKept(texts[i], names, values, names', values', ms[i]);
    }
  }

  lemma {:induction false} JoinAnd(texts: seq<string>)
    requires texts != []
    ensures Join(texts, " AND ") == FlatText(texts, AllAnd(|texts| - 1))
  {
    if |texts| > 1 {
      JoinAnd(texts[1..]);
      assert AllAnd(|texts| - 1)[1..] == AllAnd(|texts| - 2);
      assert " AND " == " " + "AND" + " ";
    }
  }

  // ---- List indexes in field names ----

  datatype FieldIndex = Plain | Malformed | Indexed(field: string, index: nat)

  const MAX_INT := 9223372036854775807

  /** parseListIndexOperation: `name[3]` is element 3 of `name`; other brackets that end a field are errors. */
  function ParseListIndex(field: string): FieldIndex {
    if '[' !in field || !HasSuffix(field, "]") then Plain
    else
      var open := LastIndex(field, '[');
      if open == 0 || open + 1 >= |field| then Malformed
      else
        var digits := field[open + 1..|field| - 1];
        if digits == "" || exists i :: 0 <= i < |digits| && !IsDigit(digits[i]) then Malformed
        else if DecimalValue(digits) > MAX_INT then Malformed
        else Indexed(field[..open], DecimalValue(digits))
  }

  function LastIndex(s: string, c: char): (n: nat)
    requires c in s
    ensures n < |s| && s[n] == c && c !in s[n + 1..]
  {
    if s[|s| - 1] == c then |s| - 1
    else
      assert s == s[..|s| - 1] + [s[|s| - 1]];
      LastIndex(s[..|s| - 1], c)
  }

  /** The attribute a SET or REMOVE names, and the list element of it. */
  function ElementOf(field: string): (string, Option<nat>) {
    match ParseListIndex(field)
    case Indexed(base, index) => (base, Some(index))
    case _ => (field, None)
  }

  lemma {:induction false} LastIndexAt(a: string, c: char, b: string)
    requires c !in b
    ensures LastIndex(a + [c] + b, c) == |a|
  {
    var s := a + [c] + b;
    if b != "" {
      assert s[|s| - 1] == b[|b| - 1] && b[|b| - 1] in b;
      assert s[..|s| - 1] == a + [c] + b[..|b| - 1];
      LastIndexAt(a, c, b[..|b| - 1]);
    }
  }

  predicate AreDigits(s: string) {
    s != "" && forall i :: 0 <= i < |s| ==> IsDigit(s[i])
  }

  /** `field` is `base[digits]`, and the digits are a number of type int. */
  ghost predicate NamesElement(field: string, base: string, index: nat) {
    exists digits: string :: AreDigits(digits) && field == base + "[" + digits + "]" && index == DecimalValue(digits)
  }

  lemma ElementParsed(base: string, digits: string)
    requires AreDigits(digits)
    ensures var field := base + "[" + digits + "]";
            ParseListIndex(field) ==
            if base == "" || DecimalValue(digits) > MAX_INT then Malformed else Indexed(base, DecimalValue(digits))
  {
    BracketAt(base, digits);
  }

  lemma BracketAt(base: string, digits: string)
    requires AreDigits(digits)
    ensures var field := base + "[" + digits + "]";
            && '[' in field && HasSuffix(field, "]") && LastIndex(field, '[') == |base|
            && field[|base| + 1..|field| - 1] == digits && field[..|base|] == base
  {
    var w := base + "[" + (digits + "]");
    assert base + "[" + digits + "]" == w;
    assert w[|base|] == '[' && w[|w| - 1..] == "]";
    LastIndexAt(base, '[', digits + "]");
  }

  /**
   A field with no bracket or no closing one at its end is taken as it is; any other is an element of a list exactly
   when it is a name with a number in brackets behind it, and an error otherwise. Only such a field names an element.
   */
  lemma ParseListIndexExactly(field: string)
    ensures ParseListIndex(field).Plain? <==> '[' !in field || !HasSuffix(field, "]")
    ensures forall base, index: nat :: ParseListIndex(field) == Indexed(base, index) <==>
                                       base != "" && index <= MAX_INT && NamesElement(field, base, index)
    ensures forall base, index: nat :: ElementOf(field) == (base, Some(index)) <==>
                                       ParseListIndex(field) == Indexed(base, index)
    ensures ElementOf(field).1.None? ==> ElementOf(field).0 == field
  {
    forall base, index: nat | base != "" && index <= MAX_INT && NamesElement(field, base, index)
      ensures ParseListIndex(field) == Indexed(base, index)
    {
      var digits :| AreDigits(digits) && field == base + "[" + digits + "]" && index == DecimalValue(digits);
      ElementParsed(base, digits);
    }
    if ParseListIndex(field).Indexed? {
      var open := LastIndex(field, '[');
      var digits := field[open + 1..|field| - 1];
      assert field == field[..open] + "[" + digits + "]";
      assert NamesElement(field, field[..open], DecimalValue(digits));
    }
  }

  /** Printing an element of a field and parsing it back gives the element. */
  lemma ParseListIndexPrinted(field: string, index: nat)
    requires field != "" && index <= MAX_INT
    ensures ParseListIndex(field + "[" + Itoa(index) + "]") == Indexed(field, index)
  {
    ElementParsed(field, Itoa(index));
    DecimalRoundTrip(index);
  }

  datatype Bindings = Bindings(naming: Naming, values: Values, valueCounter: nat)

  ghost predicate SoundBindings(b: Bindings) {
    WellNamed(b.naming) && WellValued(b.values, b.valueCounter)
  }

  /** A field is named under this condition; otherwise nothing is. */
  ghost predicate NamedWhen(p: Policy, named: bool, s: Naming, name: string, s': Naming, ref: string) {
    if named then Named(p, s, name, s', ref) else s' == s
  }

  /** What building one condition does to the bindings, whether or not it succeeds. */
  ghost predicate Built(
    p: Policy, b: Bindings, field: string, operator: string, value: GoValue, b': Bindings, ref: string) {
    if !Validated(p, field, operator, value) then b' == b
    else
      var avs := Bound(p, operator, value);
      && Named(p, b.naming, field, b'.naming, ref)
      && b'.values == BindAll(b.values, b.valueCounter, avs)
      && b'.valueCounter == b.valueCounter + |avs|
  }

  /** The bindings once a condition has been built, or refused. */
  function BuiltBindings(p: Policy, b: Bindings, field: string, operator: string, value: GoValue): Bindings {
    if !Validated(p, field, operator, value) then b
    else
      var avs := Bound(p, operator, value);
      Bindings(NamingAfter(p, b.naming, field), BindAll(b.values, b.valueCounter, avs), b.valueCounter + |avs|)
  }

  lemma BuiltAfter(p: Policy, b: Bindings, field: string, operator: string, value: GoValue, b': Bindings, ref: string)
    requires Built(p, b, field, operator, value, b', ref)
    ensures b' == BuiltBindings(p, b, field, operator, value)
  {
  }

  datatype Stored = Stored(texts: seq<string>, meanings: seq<Meaning>)

  datatype Updating = Updating(clauses: seq<UT.Clause>, effects: seq<Effect>)

  datatype Store = Store(bindings: Bindings, key: Stored, filter: Stored, condition: Stored, update: Updating)

  ghost predicate Says(l: Stored, b: Bindings) {
    AtomsDenote(l.texts, b.naming.names, b.values, l.meanings)
  }

  ghost predicate Changes(u: Updating, b: Bindings) {
    AllDo(u.clauses, b.naming.names, b.values, u.effects)
  }

  /** Each stored condition says, and each stored update clause does, what it was built to. */
  ghost predicate SoundStore(s: Store) {
    && SoundBindings(s.bindings)
    && Says(s.key, s.bindings) && Says(s.filter, s.bindings) && Says(s.condition, s.bindings)
    && Changes(s.update, s.bindings)
  }

  ghost predicate Extended(b: Bindings, b': Bindings) {
    Extends(b.naming.names, b'.naming.names) && Extends(b.values, b'.values)
  }

  /** Bindings that extend the earlier ones leave every stored text with its meaning. */
  lemma StoreKept(s: Store, b': Bindings)
    requires SoundStore(s) && SoundBindings(b') && Extended(s.bindings, b')
    ensures SoundStore(s.(bindings := b'))
  {
    var b := s.bindings;
    AtomsKept(s.key.texts, b.naming.names, b.values, b'.naming.names, b'.values, s.key.meanings);
    AtomsKept(s.filter.texts, b.naming.names, b.values, b'.naming.names, b'.values, s.filter.meanings);
    AtomsKept(s.condition.texts, b.naming.names, b.values, b'.naming.names, b'.values, s.condition.meanings);
    AllDoKept(s.update.clauses, b.naming.names, b.values, b'.naming.names, b'.values, s.update.effects);
  }

  /** Building a condition for a clear field leaves every stored text with its meaning. */
  lemma BuiltKeeps(p: Policy, s: Store, field: string, operator: string, value: GoValue, b': Bindings, ref: string)
    requires SoundStore(s) && Built(p, s.bindings, field, operator, value, b', ref)
    requires Clear(p, s.bindings.naming.names, field)
    ensures SoundStore(s.(bindings := b')) && Extended(s.bindings, b')
  {
    var b := s.bindings;
    if Validated(p, field, operator, value) {
      NameMeans(p, b.naming, field, b'.naming, ref);
      NamedWellNamed(p, b.naming, field, b'.naming, ref);
      BindAllFresh(b.values, b.valueCounter, Bound(p, operator, value));
    }
    StoreKept(s, b');
  }

  /** The text means `m` under these bindings, next to any operator, and every placeholder in it is bound. */
  ghost predicate Fits(b: Bindings, text: string, m: Meaning) {
    DenotesAtom(text, b.naming.names, b.values, m) && Closed(m)
  }

  /** A condition just built says what it was built from. */
  lemma BuiltFits(
    p: Policy, s: Store, field: string, operator: string, value: GoValue, b': Bindings, ref: string, text: string)
    requires SoundStore(s) && Built(p, s.bindings, field, operator, value, b', ref)
    requires Clear(p, s.bindings.naming.names, field)
    requires Accepts(p, field, operator, value) && Readable(operator, value)
    requires text == BuiltText(p, field, operator, value, s.bindings.valueCounter, ref)
    ensures Fits(b', text, Said(p, field, operator, value))
  {
    SaidAtom(p, s.bindings.naming, field, operator, value, b'.naming, ref, s.bindings.values, s.bindings.valueCounter);
  }

  lemma KeyJoins(s: Store, text: string, m: Meaning)
    requires SoundStore(s) && Fits(s.bindings, text, m)
    ensures SoundStore(s.(key := AppendTo(s.key, text, m)))
  {
    SaysAppend(s.key, text, m, s.bindings);
  }

  lemma FilterJoins(s: Store, text: string, m: Meaning)
    requires SoundStore(s) && Fits(s.bindings, text, m)
    ensures SoundStore(s.(filter := AppendTo(s.filter, text, m)))
  {
    SaysAppend(s.filter, text, m, s.bindings);
  }

  lemma ConditionJoins(s: Store, text: string, m: Meaning)
    requires SoundStore(s) && Fits(s.bindings, text, m)
    ensures SoundStore(s.(condition := AppendTo(s.condition, text, m)))
  {
    SaysAppend(s.condition, text, m, s.bindings);
  }

  lemma SaysAppend(l: Stored, text: string, m: Meaning, b: Bindings)
    requires Says(l, b) && DenotesAtom(text, b.naming.names, b.values, m) && Closed(m)
    ensures Says(AppendTo(l, text, m), b)
  {
  }

  function AppendTo(l: Stored, text: string, m: Meaning): Stored {
    Stored(l.texts + [text], l.meanings + [m])
  }

  /** The group means what it is said to mean, shared placeholders agree, and none lies beyond the counters. */
  ghost predicate GroupFits(b: Bindings, group: Components, meaning: Meaning) {
    && Agree(b.naming.names, group.names) && Agree(b.values, group.values)
    && WellNamed(Naming(group.names, b.naming.counter)) && WellValued(group.values, b.valueCounter)
    && (group.filter != "" ==> Denotes(group.filter, group.names, group.values, meaning) && Closed(meaning))
  }

  lemma GroupKeeps(s: Store, group: Components, meaning: Meaning)
    ensures SoundStore(s) && GroupFits(s.bindings, group, meaning) ==>
              SoundStore(s.(bindings := GroupBindings(s.bindings, group),
                            filter := WithGroup(s.filter, group, meaning)))
  {
    if SoundStore(s) && GroupFits(s.bindings, group, meaning) {
      var b' := GroupBindings(s.bindings, group);
      StoreKept(s, b');
      if group.filter != "" {
        DenotesKept(group.filter, group.names, group.values, b'.naming.names, b'.values, meaning);
        ParenthesisedAtom(group.filter, b'.naming.names, b'.values, meaning);
        SaysAppend(s.filter, "(" + group.filter + ")", meaning, b');
      }
    }
  }

  function WithGroup(l: Stored, group: Components, meaning: Meaning): Stored {
    if group.filter == "" then l else AppendTo(l, "(" + group.filter + ")", meaning)
  }

  function GroupBindings(b: Bindings, group: Components): Bindings {
    Bindings(Naming(b.naming.names + group.names, b.naming.counter), b.values + group.values, b.valueCounter)
  }

  // ---- Names and values outside conditions ----

  function Bound'(b: Bindings, avs: seq<AttributeValue>): Bindings {
    b.(values := BindAll(b.values, b.valueCounter, avs), valueCounter := b.valueCounter + |avs|)
  }

  /** The bindings once an update call has named its field, where it does, and bound its values. */
  function Operated(p: Policy, b: Bindings, named: bool, name: string, avs: seq<AttributeValue>): Bindings {
    if named then Bound'(b.(naming := NamingAfter(p, b.naming, name)), avs) else b
  }

  /** Binding more values leaves every stored text with its meaning. */
  lemma ValuesKeep(s: Store, avs: seq<AttributeValue>)
    ensures SoundStore(s) ==> SoundStore(s.(bindings := Bound'(s.bindings, avs)))
  {
    if SoundStore(s) {
      BindAllFresh(s.bindings.values, s.bindings.valueCounter, avs);
      StoreKept(s, Bound'(s.bindings, avs));
    }
  }

  /** The reference means the field, and the values bound after number `counter` mean what was converted. */
  ghost predicate OperandsMean(b: Bindings, ref: string, field: string, counter: nat, avs: seq<AttributeValue>) {
    && Meant(ref, b.naming.names, b.values) == FieldPath(field)
    && forall i :: 0 <= i < |avs| ==> BindsAt(b.values, counter, avs, i)
  }

  /** Naming a clear field and binding values leaves every stored text with its meaning. */
  lemma OperandKeeps(p: Policy, s: Store, name: string, naming: Naming, ref: string, avs: seq<AttributeValue>)
    requires SoundStore(s) && Named(p, s.bindings.naming, name, naming, ref) && Clear(p, s.bindings.naming.names, name)
    ensures SoundStore(s.(bindings := Bound'(s.bindings.(naming := naming), avs)))
    ensures OperandsMean(Bound'(s.bindings.(naming := naming), avs), ref, name, s.bindings.valueCounter, avs)
  {
    var b := s.bindings;
    var b' := Bound'(b.(naming := naming), avs);
    NameMeans(p, b.naming, name, naming, ref);
    NamedWellNamed(p, b.naming, name, naming, ref);
    BindAllFresh(b.values, b.valueCounter, avs);
    StoreKept(s, b');
  }

  /** A reference made for any field, good or bad, is one word. */
  lemma FieldWord(p: Policy, s: Naming, name: string, s': Naming, ref: string)
    requires WellNamed(s) && Named(p, s, name, s', ref)
    ensures WellNamed(s') && UT.IsNamePlaceholder(ref)
  {
    NamedRef(p, s, name, s', ref);
    NamedWellNamed(p, s, name, s', ref);
  }

  /** Naming a field and binding its operands: references stay single words, and a clear field keeps stored texts. */
  lemma OperandAdded(p: Policy, s: Store, name: string, naming: Naming, ref: string, avs: seq<AttributeValue>)
    requires Named(p, s.bindings.naming, name, naming, ref)
    ensures WellNamed(s.bindings.naming) ==> WellNamed(naming) && UT.IsNamePlaceholder(ref)
    ensures SoundStore(s) && Clear(p, s.bindings.naming.names, name) ==>
              SoundStore(s.(bindings := Bound'(s.bindings.(naming := naming), avs)))
  {
    if WellNamed(s.bindings.naming) {
      FieldWord(p, s.bindings.naming, name, naming, ref);
    }
    if SoundStore(s) && Clear(p, s.bindings.naming.names, name) {
      OperandKeeps(p, s, name, naming, ref, avs);
    }
  }

  /** Under bindings that extend the earlier ones, the reference means the field exactly when the field was clear. */
  lemma OperandExact(p: Policy, s: Store, name: string, naming: Naming, ref: string, avs: seq<AttributeValue>)
    requires SoundStore(s) && Named(p, s.bindings.naming, name, naming, ref)
    ensures var b' := Bound'(s.bindings.(naming := naming), avs);
            Extended(s.bindings, b') && Meant(ref, naming.names, b'.values) == FieldPath(name) <==>
            Clear(p, s.bindings.naming.names, name)
  {
    var b, b' := s.bindings, Bound'(s.bindings.(naming := naming), avs);
    FieldWord(p, b.naming, name, naming, ref);
    BindAllFresh(b.values, b.valueCounter, avs);
    RespellingExact(p, b.naming, name, naming, ref);
    assert Meant(ref, naming.names, b'.values) == FieldPath(name) <==>
           forall values :: ResolveOperand(Ref(ref), naming.names, values) == FieldPath(name) by {
      forall values ensures ResolveOperand(Ref(ref), naming.names, values) == Meant(ref, naming.names, b'.values) {
      }
    }
  }

  /** The set an update's DELETE operand becomes, or nothing when the conversion refuses it. */
  function SetValues(p: Policy, value: GoValue): seq<AttributeValue> {
    if p.toSet(value).Ok? then [p.toSet(value).value] else []
  }

  // ---- Update functions ----

  /** The forms a call of an update function takes; the field's own name stands for its attribute in list_append. */
  datatype FunctionForm = IfMissing | AppendBehind | AppendInFront | AppendBoth

  /** The form of a call, or None where AddUpdateFunction refuses it. */
  function FormOf(field: string, fn: string, args: seq<GoValue>): (form: Option<FunctionForm>)
    ensures form.Some? ==> |args| == 2
  {
    if |args| != 2 then None
    else if fn == "list_append" then
      if args[0] == Scalar(S(field)) then Some(AppendBehind)
      else if args[1] == Scalar(S(field)) then Some(AppendInFront)
      else Some(AppendBoth)
    else if fn == "if_not_exists" then Some(IfMissing)
    else None
  }

  /** The arguments that are bound as values. */
  function FormOperands(form: FunctionForm, args: seq<GoValue>): (elems: seq<GoValue>)
    requires |args| == 2
    ensures |elems| == FormArity(form)
  {
    match form
    case IfMissing => [args[1]]
    case AppendBehind => [args[1]]
    case AppendInFront => [args[0]]
    case AppendBoth => args
  }

  function FormArity(form: FunctionForm): nat {
    if form.AppendBoth? then 2 else 1
  }

  /** What is assigned, when the field is named `ref` and the values bound follow number `counter`. */
  function FormRhs(form: FunctionForm, ref: string, counter: nat): UT.Rhs {
    var v := ValuePlaceholder(counter + 1);
    match form
    case IfMissing => UT.IfNotExists(ref, v)
    case AppendBehind => UT.ListAppend(ref, v)
    case AppendInFront => UT.ListAppend(v, ref)
    case AppendBoth => UT.ListAppend(v, ValuePlaceholder(counter + 2))
  }

  /** What is assigned, in the caller's terms. */
  function FormAssigned(form: FunctionForm, field: string, avs: seq<AttributeValue>): Assigned
    requires |avs| == FormArity(form)
  {
    match form
    case IfMissing => Default(FieldPath(field), Value(avs[0]))
    case AppendBehind => Appended(FieldPath(field), Value(avs[0]))
    case AppendInFront => Appended(Value(avs[0]), FieldPath(field))
    case AppendBoth => Appended(Value(avs[0]), Value(avs[1]))
  }

  function FormClause(form: FunctionForm, ref: string, counter: nat): UT.Clause {
    UT.SetClause(UT.Target(ref, None), FormRhs(form, ref, counter))
  }

  lemma FormJoins(u: Updates, form: FunctionForm, ref: string, counter: nat)
    requires UT.IsNamePlaceholder(ref) && LastMark(u.marks) <= counter
    ensures Joins(u, FormClause(form, ref, counter), counter + FormArity(form))
  {
    var mark := counter + FormArity(form);
    ValueWord(counter + 1);
    ValueWord(counter + 2);
    assert Numbered(ValuePlaceholder(counter + 1), LastMark(u.marks), mark);
    assert mark == counter + 2 ==> Numbered(ValuePlaceholder(counter + 2), LastMark(u.marks), mark);
  }

  function ValueClause(ref: string, index: Option<nat>, k: nat): UT.Clause {
    UT.SetClause(UT.Target(ref, index), UT.FromValue(ValuePlaceholder(k)))
  }

  function ClauseStored(s: Store, b: Bindings, c: UT.Clause, e: Effect): Store {
    s.(bindings := b, update := Updating(s.update.clauses + [c], s.update.effects + [e]))
  }

  /** A stored clause leaves the store sound exactly when it does what it was built to. */
  lemma EffectJoins(s: Store, b: Bindings, c: UT.Clause, e: Effect)
    ensures SoundStore(s.(bindings := b)) && Does(c, b.naming.names, b.values, e) ==>
              SoundStore(ClauseStored(s, b, c, e))
    ensures SoundStore(ClauseStored(s, b, c, e)) ==> Does(c, b.naming.names, b.values, e)
  {
    var cs, es := s.update.clauses + [c], s.update.effects + [e];
    if |cs| == |es| {
      assert cs[|s.update.clauses|] == c && es[|s.update.clauses|] == e;
    }
  }

  /**
   What an update call keeps: stored texts stay sound, and earlier bindings stay, exactly when its field was clear.
   */
  ghost predicate AddedExactly(p: Policy, s: Store, b: Bindings, field: string, c: UT.Clause, e: Effect) {
    SoundStore(s) ==>
      (SoundStore(ClauseStored(s, b, c, e)) && Extended(s.bindings, b) <==> Clear(p, s.bindings.naming.names, field))
  }

  /** What an update call keeps of the collected clauses. */
  ghost predicate Collects(u: Updates, s: Store, c: UT.Clause, mark: nat) {
    WellNamed(s.bindings.naming) && LastMark(u.marks) <= s.bindings.valueCounter && SoundUpdates(u) ==>
      SoundUpdates(WithClause(u, c, mark))
  }

  /** A clause that names the field, and does what it should when the field and its values are found. */
  lemma ClauseAdded(
    p: Policy, s: Store, field: string, naming: Naming, ref: string, avs: seq<AttributeValue>, c: UT.Clause, e: Effect)
    requires Named(p, s.bindings.naming, field, naming, ref)
    requires var b := Bound'(s.bindings.(naming := naming), avs);
             && (OperandsMean(b, ref, field, s.bindings.valueCounter, avs) ==> Does(c, b.naming.names, b.values, e))
             && (Does(c, b.naming.names, b.values, e) ==> Meant(ref, b.naming.names, b.values) == FieldPath(field))
    ensures AddedExactly(p, s, Bound'(s.bindings.(naming := naming), avs), field, c, e)
  {
    var b := Bound'(s.bindings.(naming := naming), avs);
    EffectJoins(s, b, c, e);
    if SoundStore(s) {
      OperandExact(p, s, field, naming, ref, avs);
      if Clear(p, s.bindings.naming.names, field) {
        OperandKeeps(p, s, field, naming, ref, avs);
      }
    }
  }

  lemma OneValue(b: Bindings, counter: nat, av: AttributeValue)
    ensures (forall i :: 0 <= i < |[av]| ==> BindsAt(b.values, counter, [av], i)) ==>
              Meant(ValuePlaceholder(counter + 1), b.naming.names, b.values) == Value(av)
  {
    if forall i :: 0 <= i < |[av]| ==> BindsAt(b.values, counter, [av], i) {
      assert BindsAt(b.values, counter, [av], 0);
    }
  }

  lemma SetAdded(
    p: Policy, s: Store, u: Updates, field: string, index: Option<nat>, naming: Naming, ref: string, av: AttributeValue)
    requires Named(p, s.bindings.naming, field, naming, ref)
    ensures var mark := s.bindings.valueCounter + 1;
            && AddedExactly(p, s, Bound'(s.bindings.(naming := naming), [av]), field, ValueClause(ref, index, mark),
                            SetTo(Place(FieldPath(field), index), Outright(Value(av))))
            && Collects(u, s, ValueClause(ref, index, mark), mark)
  {
    var mark := s.bindings.valueCounter + 1;
    OneValue(Bound'(s.bindings.(naming := naming), [av]), s.bindings.valueCounter, av);
    ClauseAdded(p, s, field, naming, ref, [av], ValueClause(ref, index, mark),
      SetTo(Place(FieldPath(field), index), Outright(Value(av))));
    ValueCollected(p, u, s, field, naming, ref, ValueClause(ref, index, mark));
  }

  lemma AddAdded(p: Policy, s: Store, u: Updates, field: string, naming: Naming, ref: string, av: AttributeValue)
    requires Named(p, s.bindings.naming, field, naming, ref)
    ensures var mark := s.bindings.valueCounter + 1;
            && AddedExactly(p, s, Bound'(s.bindings.(naming := naming), [av]), field,
                            UT.AddClause(ref, ValuePlaceholder(mark)), AddTo(FieldPath(field), Value(av)))
            && Collects(u, s, UT.AddClause(ref, ValuePlaceholder(mark)), mark)
  {
    var c := UT.AddClause(ref, ValuePlaceholder(s.bindings.valueCounter + 1));
    OneValue(Bound'(s.bindings.(naming := naming), [av]), s.bindings.valueCounter, av);
    ClauseAdded(p, s, field, naming, ref, [av], c, AddTo(FieldPath(field), Value(av)));
    ValueCollected(p, u, s, field, naming, ref, c);
  }

  lemma DeleteAdded(p: Policy, s: Store, u: Updates, field: string, naming: Naming, ref: string, av: AttributeValue)
    requires Named(p, s.bindings.naming, field, naming, ref)
    ensures var mark := s.bindings.valueCounter + 1;
            && AddedExactly(p, s, Bound'(s.bindings.(naming := naming), [av]), field,
                            UT.DeleteClause(ref, ValuePlaceholder(mark)), DeletedFrom(FieldPath(field), Value(av)))
            && Collects(u, s, UT.DeleteClause(ref, ValuePlaceholder(mark)), mark)
  {
    var c := UT.DeleteClause(ref, ValuePlaceholder(s.bindings.valueCounter + 1));
    OneValue(Bound'(s.bindings.(naming := naming), [av]), s.bindings.valueCounter, av);
    ClauseAdded(p, s, field, naming, ref, [av], c, DeletedFrom(FieldPath(field), Value(av)));
    ValueCollected(p, u, s, field, naming, ref, c);
  }

  lemma RemoveAdded(p: Policy, s: Store, u: Updates, field: string, index: Option<nat>, naming: Naming, ref: string)
    requires Named(p, s.bindings.naming, field, naming, ref)
    ensures var c := UT.RemoveClause(UT.Target(ref, index));
            && AddedExactly(p, s, Bound'(s.bindings.(naming := naming), []), field, c,
                            Removed(Place(FieldPath(field), index)))
            && Collects(u, s, c, s.bindings.valueCounter)
    ensures WellNamed(s.bindings.naming) ==> WellNamed(naming)
  {
    var c := UT.RemoveClause(UT.Target(ref, index));
    ClauseAdded(p, s, field, naming, ref, [], c, Removed(Place(FieldPath(field), index)));
    if WellNamed(s.bindings.naming) {
      FieldWord(p, s.bindings.naming, field, naming, ref);
      if LastMark(u.marks) <= s.bindings.valueCounter && SoundUpdates(u) {
        ClauseJoins(u, c, s.bindings.valueCounter);
      }
    }
  }

  lemma FormAdded(
    p: Policy, s: Store, u: Updates, field: string, form: FunctionForm, naming: Naming, ref: string,
    avs: seq<AttributeValue>)
    requires Named(p, s.bindings.naming, field, naming, ref) && |avs| == FormArity(form)
    ensures var c := FormClause(form, ref, s.bindings.valueCounter);
            && AddedExactly(p, s, Bound'(s.bindings.(naming := naming), avs), field, c,
                            SetTo(Place(FieldPath(field), None), FormAssigned(form, field, avs)))
            && Collects(u, s, c, s.bindings.valueCounter + |avs|)
  {
    var counter := s.bindings.valueCounter;
    var b := Bound'(s.bindings.(naming := naming), avs);
    FormMeans(b, field, form, ref, counter, avs);
    ClauseAdded(p, s, field, naming, ref, avs, FormClause(form, ref, counter),
      SetTo(Place(FieldPath(field), None), FormAssigned(form, field, avs)));
    FormCollected(p, u, s, field, naming, ref, form);
  }

  lemma FormMeans(b: Bindings, field: string, form: FunctionForm, ref: string, counter: nat, avs: seq<AttributeValue>)
    requires |avs| == FormArity(form)
    ensures OperandsMean(b, ref, field, counter, avs) ==>
              Does(FormClause(form, ref, counter), b.naming.names, b.values,
                   SetTo(Place(FieldPath(field), None), FormAssigned(form, field, avs)))
    ensures Does(FormClause(form, ref, counter), b.naming.names, b.values,
                 SetTo(Place(FieldPath(field), None), FormAssigned(form, field, avs))) ==>
              Meant(ref, b.naming.names, b.values) == FieldPath(field)
  {
    if OperandsMean(b, ref, field, counter, avs) {
      assert BindsAt(b.values, counter, avs, 0);
      assert |avs| == 2 ==> BindsAt(b.values, counter, avs, 1);
    }
  }

  lemma FormCollected(
    p: Policy, u: Updates, s: Store, field: string, naming: Naming, ref: string, form: FunctionForm)
    requires Named(p, s.bindings.naming, field, naming, ref)
    ensures Collects(u, s, FormClause(form, ref, s.bindings.valueCounter), s.bindings.valueCounter + FormArity(form))
  {
    var counter := s.bindings.valueCounter;
    if WellNamed(s.bindings.naming) && LastMark(u.marks) <= counter && SoundUpdates(u) {
      FieldWord(p, s.bindings.naming, field, naming, ref);
      FormJoins(u, form, ref, counter);
      ClauseJoins(u, FormClause(form, ref, counter), counter + FormArity(form));
    }
  }

  /** A clause over the field with one value, just issued, joins the collected ones. */
  lemma ValueCollected(p: Policy, u: Updates, s: Store, field: string, naming: Naming, ref: string, c: UT.Clause)
    requires Named(p, s.bindings.naming, field, naming, ref)
    requires Uses(c) == {ValuePlaceholder(s.bindings.valueCounter + 1)}
    requires UT.IsNamePlaceholder(ref) && UT.IsValuePlaceholder(ValuePlaceholder(s.bindings.valueCounter + 1)) ==>
               UT.WellFormed(c)
    ensures Collects(u, s, c, s.bindings.valueCounter + 1)
  {
    if WellNamed(s.bindings.naming) && LastMark(u.marks) <= s.bindings.valueCounter && SoundUpdates(u) {
      FieldWord(p, s.bindings.naming, field, naming, ref);
      ValueWord(s.bindings.valueCounter + 1);
      ValueJoins(u, c, s.bindings.valueCounter + 1);
      ClauseJoins(u, c, s.bindings.valueCounter + 1);
    }
  }

  lemma ValueWord(k: nat)
    ensures UT.IsValuePlaceholder(ValuePlaceholder(k))
  {
    ValuePlaceholderPlain(k);
  }

  /** A clause with one value, just issued. */
  lemma ValueJoins(u: Updates, c: UT.Clause, mark: nat)
    requires LastMark(u.marks) < mark && Uses(c) == {ValuePlaceholder(mark)} && UT.WellFormed(c)
    ensures Joins(u, c, mark)
  {
    assert Numbered(ValuePlaceholder(mark), LastMark(u.marks), mark);
  }

  // ---- What an update call asks for ----

  /** The converted value of an operand. */
  function Converted(value: GoValue): Term
    requires Convert(value).Ok?
  {
    Value(Convert(value).value)
  }

  lemma AcceptedOne(p: Policy, value: GoValue)
    ensures AcceptedPrefix(p, [value]) == if p.valueOk(value) && Convert(value).Ok? then [Convert(value).value] else []
  {
    assert [value][1..] == [];
  }

  function ElementPlace(field: string): Place {
    Place(FieldPath(ElementOf(field).0), ElementOf(field).1)
  }

  predicate ElementOk(p: Policy, field: string) {
    p.fieldOk(field) && !ParseListIndex(field).Malformed?
  }

  predicate ValueOk(p: Policy, value: GoValue) {
    p.valueOk(value) && Convert(value).Ok?
  }

  /** The argument is the field's own name. */
  predicate IsField(field: string, arg: GoValue) {
    arg == Scalar(S(field))
  }

  function ArgumentTerm(arg: GoValue): Term {
    if Convert(arg).Ok? then Converted(arg) else Unbound
  }

  /**
   What a call of an update function assigns, told by its arguments: the first argument of list_append that is the
   field's own name stands for the attribute.
   */
  function FunctionAssigned(field: string, fn: string, args: seq<GoValue>): Assigned
    requires |args| == 2
  {
    if fn == "if_not_exists" then Default(FieldPath(field), ArgumentTerm(args[1]))
    else if IsField(field, args[0]) then Appended(FieldPath(field), ArgumentTerm(args[1]))
    else if IsField(field, args[1]) then Appended(ArgumentTerm(args[0]), FieldPath(field))
    else Appended(ArgumentTerm(args[0]), ArgumentTerm(args[1]))
  }

  /** There are two arguments, and those that are bound as values pass. */
  predicate FunctionOk(p: Policy, field: string, fn: string, args: seq<GoValue>) {
    && |args| == 2
    && if fn == "if_not_exists" then ValueOk(p, args[1])
       else
         && fn == "list_append"
         && (IsField(field, args[0]) || ValueOk(p, args[0]))
         && ((!IsField(field, args[0]) && IsField(field, args[1])) || ValueOk(p, args[1]))
  }

  /** The values bound for a call, complete or cut short at the first one that fails. */
  function FunctionValues(p: Policy, field: string, fn: string, args: seq<GoValue>): seq<AttributeValue> {
    match FormOf(field, fn, args)
    case None => []
    case Some(form) => AcceptedPrefix(p, FormOperands(form, args))
  }

  /** What a call of an update function does, in the caller's terms. */
  function FunctionEffect(p: Policy, field: string, fn: string, args: seq<GoValue>): Effect
    requires FunctionOk(p, field, fn, args)
  {
    SetTo(Place(FieldPath(field), None), FunctionAssigned(field, fn, args))
  }

  lemma AcceptedTwo(p: Policy, a: GoValue, b: GoValue)
    ensures |AcceptedPrefix(p, [a, b])| == 2 <==> ValueOk(p, a) && ValueOk(p, b)
    ensures ValueOk(p, a) && ValueOk(p, b) ==> AcceptedPrefix(p, [a, b]) == [Convert(a).value, Convert(b).value]
  {
    assert [a, b][1..] == [b];
    AcceptedOne(p, b);
  }

  lemma FunctionAccepted(p: Policy, field: string, fn: string, args: seq<GoValue>)
    ensures FunctionOk(p, field, fn, args) <==>
            && FormOf(field, fn, args).Some?
            && |FunctionValues(p, field, fn, args)| == FormArity(FormOf(field, fn, args).value)
  {
    if |args| == 2 {
      AcceptedOne(p, args[0]);
      AcceptedOne(p, args[1]);
      AcceptedTwo(p, args[0], args[1]);
      assert args == [args[0], args[1]];
    }
  }

  /** The form of an accepted call, with the values bound for it, assigns what its arguments say. */
  lemma FormSaid(p: Policy, field: string, fn: string, args: seq<GoValue>)
    requires FunctionOk(p, field, fn, args)
    ensures FormOf(field, fn, args).Some?
    ensures |FunctionValues(p, field, fn, args)| == FormArity(FormOf(field, fn, args).value)
    ensures FormAssigned(FormOf(field, fn, args).value, field, FunctionValues(p, field, fn, args)) ==
            FunctionAssigned(field, fn, args)
  {
    FunctionAccepted(p, field, fn, args);
    AcceptedOne(p, args[0]);
    AcceptedOne(p, args[1]);
    AcceptedTwo(p, args[0], args[1]);
    assert args == [args[0], args[1]];
  }

  class Builder {
    const policy: Policy
    var names: Names
    var values: Values
    var keyConditions: seq<string>
    var filterConditions: seq<string>
    var filterOperators: seq<Junction>
    var conditions: seq<string>
    var conditionOperators: seq<Junction>
    var updateExpressions: map<UT.Action, seq<string>>
    var nameCounter: nat
    var valueCounter: nat

    // What each stored text was built to say.
    ghost var keyMeanings: seq<Meaning>
    ghost var filterMeanings: seq<Meaning>
    ghost var conditionMeanings: seq<Meaning>

    // The update clauses behind the stored update texts, what each was built to do, and the number of the last value
    // issued when each was added.
    ghost var added: seq<UT.Clause>
    ghost var effects: seq<Effect>
    ghost var marks: seq<nat>

    ghost function Collected(): Updates
      reads this`updateExpressions, this`added, this`marks
    {
      Updates(updateExpressions, added, marks)
    }

    /** The stored update texts are printed clauses, and no two of them share a value. */
    ghost predicate UpdatesSound()
      reads this`updateExpressions, this`added, this`marks
    {
      SoundUpdates(Collected())
    }

    /** Nothing is bound, or used by an update clause, that the counters have yet to issue. */
    ghost predicate Counted()
      reads this`names, this`nameCounter, this`valueCounter, this`marks
    {
      WellNamed(Naming(names, nameCounter)) && LastMark(marks) <= valueCounter
    }

    ghost predicate Valid()
      reads this`keyConditions, this`keyMeanings, this`filterConditions, this`filterOperators, this`filterMeanings,
            this`conditions, this`conditionOperators, this`conditionMeanings
    {
      && |filterOperators| == (if filterConditions == [] then 0 else |filterConditions| - 1)
      && |conditionOperators| == (if conditions == [] then 0 else |conditions| - 1)
      && |keyMeanings| == |keyConditions|
      && |filterMeanings| == |filterConditions|
      && |conditionMeanings| == |conditions|
    }

    /** Every stored text still says or does what it was built to, and no placeholder yet to be issued is taken. */
    ghost predicate Sound()
      reads this`names, this`values, this`nameCounter, this`valueCounter, this`keyConditions, this`keyMeanings,
            this`filterConditions, this`filterMeanings, this`conditions, this`conditionMeanings, this`added,
            this`effects
    {
      SoundStore(Contents())
    }

    ghost function Contents(): Store
      reads this`names, this`values, this`nameCounter, this`valueCounter, this`keyConditions, this`keyMeanings,
            this`filterConditions, this`filterMeanings, this`conditions, this`conditionMeanings, this`added,
            this`effects
    {
      Store(State(), Stored(keyConditions, keyMeanings), Stored(filterConditions, filterMeanings),
            Stored(conditions, conditionMeanings), Updating(added, effects))
    }

    constructor (policy: Policy)
      ensures this.policy == policy && Valid() && Sound() && Counted() && UpdatesSound()
      ensures Collected() == Updates(map[], [], [])
      ensures names == map[] && values == map[] && nameCounter == 0 && valueCounter == 0
      ensures keyConditions == [] && filterConditions == [] && conditions == [] && effects == []
    {
      this.policy := policy;
      names, values, nameCounter, valueCounter := map[], map[], 0, 0;
      keyConditions, filterConditions, filterOperators, conditions, conditionOperators := [], [], [], [], [];
      keyMeanings, filterMeanings, conditionMeanings := [], [], [];
      updateExpressions, added, effects, marks := map[], [], [], [];
      new;
      NoUpdates(Collected());
    }

    method AddNameSecure(name: string) returns (ref: string)
      modifies this`names, this`nameCounter
      ensures Named(policy, old(Naming(names, nameCounter)), name, Naming(names, nameCounter), ref)
    {
      if !policy.fieldOk(name) {
        return "#invalid";
      }
      if name in names.Values {
        ref :| ref in names && names[ref] == name;
        return;
      }
      ref := NameParts(Split(name, '.'));
    }

    /** Names the parts of a path from left to right, up to the first one that validation rejects. */
    method NameParts(parts: seq<string>) returns (ref: string)
      modifies this`names, this`nameCounter
      ensures Naming(names, nameCounter) == AddParts(policy, old(Naming(names, nameCounter)), parts)
      ensures ref == if PartsOk(policy, parts) then Join(PartRefs(policy, old(nameCounter), parts), ".") else "#invalid"
    {
      var refs: seq<string> := [];
      ghost var s0 := Naming(names, nameCounter);
      var i := 0;
      while i < |parts|
        invariant 0 <= i <= |parts|
        invariant forall j :: 0 <= j < i ==> policy.fieldOk(parts[j])
        invariant AddParts(policy, Naming(names, nameCounter), parts[i..]) == AddParts(policy, s0, parts)
        invariant refs + PartRefs(policy, nameCounter, parts[i..]) == PartRefs(policy, s0.counter, parts)
      {
        var part := parts[i];
        assert parts[i..][0] == part && parts[i..][1..] == parts[i + 1..];
        if !policy.fieldOk(part) {
          return "#invalid";
        }
        var placeholder := PlaceholderFor(policy, nameCounter, part);
        nameCounter := nameCounter + 1;
        names := names[placeholder := part];
        refs := refs + [placeholder];
        i := i + 1;
      }
      assert parts[i..] == [];
      assert refs + PartRefs(policy, nameCounter, []) == refs;
      ref := Join(refs, ".");
    }

    method AddValueSecure(value: GoValue) returns (ok: bool, ref: string)
      modifies this`values, this`valueCounter
      ensures ok <==> AcceptedPrefix(policy, [value]) != []
      ensures var avs := AcceptedPrefix(policy, [value]);
              && values == BindAll(old(values), old(valueCounter), avs)
              && valueCounter == old(valueCounter) + |avs|
      ensures ok ==> ref == ValuePlaceholder(old(valueCounter) + 1)
    {
      ref := "";
      ok := policy.valueOk(value) && Convert(value).Ok?;
      if ok {
        valueCounter := valueCounter + 1;
        ref := ValuePlaceholder(valueCounter);
        values := values[ref := Convert(value).value];
        assert AcceptedPrefix(policy, [value]) == [Convert(value).value] + AcceptedPrefix(policy, []) by {
          assert [value][1..] == [];
        }
        assert [Convert(value).value][..0] == [];
      }
    }

    method AddValues(elems: seq<GoValue>) returns (ok: bool, refs: seq<string>)
      modifies this`values, this`valueCounter
      ensures var avs := AcceptedPrefix(policy, elems);
              && ok == (|avs| == |elems|)
              && values == BindAll(old(values), old(valueCounter), avs)
              && valueCounter == old(valueCounter) + |avs|
              && (ok ==> refs == ValueRefs(old(valueCounter), |elems|))
    {
      refs := [];
      ghost var avs := AcceptedPrefix(policy, elems);
      var i := 0;
      while i < |elems|
        invariant 0 <= i <= |elems|
        invariant |avs| == i + |AcceptedPrefix(policy, elems[i..])|
        invariant avs[i..] == AcceptedPrefix(policy, elems[i..])
        invariant values == BindAll(old(values), old(valueCounter), avs[..i])
        invariant valueCounter == old(valueCounter) + i
        invariant refs == ValueRefs(old(valueCounter), i)
      {
        var before := valueCounter;
        var v := elems[i];
        assert elems[i..][0] == v && elems[i..][1..] == elems[i + 1..];
        ghost var rest := AcceptedPrefix(policy, elems[i..]);
        var added, ref := AddValueSecure(v);
        assert [v][1..] == [];
        if !added {
          assert rest == [] && avs[..i] == avs;
          return false, [];
        }
        assert AcceptedPrefix(policy, [v]) == [Convert(v).value];
        assert rest == [Convert(v).value] + AcceptedPrefix(policy, elems[i + 1..]);
        assert avs[i] == avs[i..][0] && avs[i + 1..] == avs[i..][1..];
        assert avs[..i + 1][..i] == avs[..i];
        assert [Convert(v).value][..0] == [];
        assert BindAll(old(values), old(valueCounter), avs[..i])[ValuePlaceholder(before + 1) := avs[i]] == values;
        refs := refs + [ref];
        i := i + 1;
      }
      assert elems[i..] == [] && avs[..i] == avs;
      ok := true;
    }

    method BuildCondition(field: string, operator: string, value: GoValue) returns (ok: bool, text: string,
        ghost ref: string)
      modifies this`names, this`values, this`nameCounter, this`valueCounter
      ensures ok <==> Accepts(policy, field, operator, value)
      ensures Built(policy, old(State()), field, operator, value, State(), ref)
      ensures ok ==> text == BuiltText(policy, field, operator, value, old(valueCounter), ref)
    {
      ok, text, ref := false, "", "";
      if !Validated(policy, field, operator, value) {
        return;
      }
      var name := AddNameSecure(field);
      ref := name;
      var op := OpOf(operator);
      if op.Some? {
        var elems := OperandsOf(policy, op.value, value);
        if elems.Some? {
          var added, refs := AddValues(elems.value);
          ok := added;
          if added {
            text := ConditionText(op.value, name, refs);
          }
        }
      }
    }

    ghost function State(): Bindings
      reads this`names, this`values, this`nameCounter, this`valueCounter
    {
      Bindings(Naming(names, nameCounter), values, valueCounter)
    }

    /** `BuildCondition`, with what its text would mean in any of the three lists. */
    method BuildMeant(field: string, operator: string, value: GoValue)
      returns (ok: bool, text: string, ghost m: Meaning, ghost ref: string)
      modifies this`names, this`values, this`nameCounter, this`valueCounter
      ensures ok <==> Accepts(policy, field, operator, value)
      ensures Built(policy, old(State()), field, operator, value, State(), ref)
      ensures ok ==>
                && m == Said(policy, field, operator, value)
                && text == BuiltText(policy, field, operator, value, old(valueCounter), ref)
      ensures old(Counted()) ==> Counted()
      ensures SoundStore(old(Contents())) && Clear(policy, old(names), field) && Readable(operator, value) ==>
                && SoundStore(Contents()) && (ok ==> Fits(State(), text, m))
                && Extends(old(names), names) && Extends(old(values), values)
    {
      ghost var before := Contents();
      ok, text, ref := BuildCondition(field, operator, value);
      if WellNamed(before.bindings.naming) && Validated(policy, field, operator, value) {
        FieldWord(policy, before.bindings.naming, field, Naming(names, nameCounter), ref);
      }
      m := if ok then Said(policy, field, operator, value) else Not(In(Unbound, []));
      if SoundStore(before) && Clear(policy, before.bindings.naming.names, field) && Readable(operator, value) {
        BuiltKeeps(policy, before, field, operator, value, State(), ref);
        assert Contents() == before.(bindings := State());
        if ok {
          BuiltFits(policy, before, field, operator, value, State(), ref, text);
        }
      }
    }

    method StoreKey(text: string, ghost m: Meaning)
      requires Valid()
      modifies this`keyConditions, this`keyMeanings
      ensures Valid()
      ensures keyConditions == old(keyConditions) + [text] && keyMeanings == old(keyMeanings) + [m]
      ensures old(Sound()) && Fits(State(), text, m) ==> Sound()
    {
      ghost var store := Contents();
      keyConditions := keyConditions + [text];
      keyMeanings := keyMeanings + [m];
      assert Contents() == store.(key := AppendTo(store.key, text, m));
      if SoundStore(store) && Fits(store.bindings, text, m) {
        KeyJoins(store, text, m);
      }
    }

    /** A key condition is stored with what it says; earlier texts keep their meaning. */
    method AddKeyCondition(field: string, operator: string, value: GoValue) returns (ok: bool, ghost ref: string)
      requires Valid()
      modifies this`names, this`values, this`nameCounter, this`valueCounter,
               this`keyConditions, this`keyMeanings
      ensures Valid()
      ensures ok <==> Accepts(policy, field, operator, value)
      ensures Built(policy, old(State()), field, operator, value, State(), ref)
      ensures keyConditions ==
              old(keyConditions) +
              if ok then [BuiltText(policy, field, operator, value, old(valueCounter), ref)] else []
      ensures keyMeanings == old(keyMeanings) + if ok then [Said(policy, field, operator, value)] else []
      ensures old(Sound()) && Clear(policy, old(names), field) && Readable(operator, value) ==> Sound()
      ensures old(Counted()) ==> Counted()
    {
      var text;
      ghost var m;
      ok, text, m, ref := BuildMeant(field, operator, value);
      if ok {
        StoreKey(text, m);
      }
    }

    method StoreFilter(logicalOp: Junction, text: string, ghost m: Meaning)
      requires Valid()
      modifies this`filterConditions, this`filterOperators, this`filterMeanings
      ensures Valid()
      ensures filterConditions == old(filterConditions) + [text] && filterMeanings == old(filterMeanings) + [m]
      ensures filterOperators == old(filterOperators) + if old(filterConditions) != [] then [logicalOp] else []
      ensures old(Sound()) && Fits(State(), text, m) ==> Sound()
    {
      ghost var store := Contents();
      filterConditions := filterConditions + [text];
      filterMeanings := filterMeanings + [m];
      if |filterConditions| > 1 {
        filterOperators := filterOperators + [logicalOp];
      }
      assert Contents() == store.(filter := AppendTo(store.filter, text, m));
      if SoundStore(store) && Fits(store.bindings, text, m) {
        FilterJoins(store, text, m);
      }
    }

    method StoreCondition(logicalOp: Junction, text: string, ghost m: Meaning)
      requires Valid()
      modifies this`conditions, this`conditionOperators, this`conditionMeanings
      ensures Valid()
      ensures conditions == old(conditions) + [text] && conditionMeanings == old(conditionMeanings) + [m]
      ensures conditionOperators == old(conditionOperators) + if old(conditions) != [] then [logicalOp] else []
      ensures old(Sound()) && Fits(State(), text, m) ==> Sound()
    {
      ghost var store := Contents();
      conditions := conditions + [text];
      conditionMeanings := conditionMeanings + [m];
      if |conditions| > 1 {
        conditionOperators := conditionOperators + [logicalOp];
      }
      assert Contents() == store.(condition := AppendTo(store.condition, text, m));
      if SoundStore(store) && Fits(store.bindings, text, m) {
        ConditionJoins(store, text, m);
      }
    }

    /** A filter condition is stored behind its operator; earlier texts keep their meaning. */
    method AddFilterCondition(logicalOp: Junction, field: string, operator: string, value: GoValue)
      returns (ok: bool, ghost ref: string)
      requires Valid()
      modifies this`names, this`values, this`nameCounter, this`valueCounter,
               this`filterConditions, this`filterOperators, this`filterMeanings
      ensures Valid()
      ensures ok <==> Accepts(policy, field, operator, value)
      ensures Built(policy, old(State()), field, operator, value, State(), ref)
      ensures filterConditions ==
              old(filterConditions) +
              if ok then [BuiltText(policy, field, operator, value, old(valueCounter), ref)] else []
      ensures filterMeanings == old(filterMeanings) + if ok then [Said(policy, field, operator, value)] else []
      ensures filterOperators == old(filterOperators) + if ok && old(filterConditions) != [] then [logicalOp] else []
      ensures old(Sound()) && Clear(policy, old(names), field) && Readable(operator, value) ==> Sound()
      ensures old(Counted()) ==> Counted()
    {
      var text;
      ghost var m;
      ok, text, m, ref := BuildMeant(field, operator, value);
      if ok {
        StoreFilter(logicalOp, text, m);
      }
    }

    method AddConditionExpressionWithOp(logicalOp: Junction, field: string, operator: string, value: GoValue)
      returns (ok: bool, ghost ref: string)
      requires Valid()
      modifies this`names, this`values, this`nameCounter, this`valueCounter,
               this`conditions, this`conditionOperators, this`conditionMeanings
      ensures Valid()
      ensures ok <==> Accepts(policy, field, operator, value)
      ensures Built(policy, old(State()), field, operator, value, State(), ref)
      ensures conditions ==
              old(conditions) + if ok then [BuiltText(policy, field, operator, value, old(valueCounter), ref)] else []
      ensures conditionMeanings == old(conditionMeanings) + if ok then [Said(policy, field, operator, value)] else []
      ensures conditionOperators == old(conditionOperators) + if ok && old(conditions) != [] then [logicalOp] else []
      ensures old(Sound()) && Clear(policy, old(names), field) && Readable(operator, value) ==>
                Sound() && Extends(old(names), names) && Extends(old(values), values)
      ensures old(Counted()) ==> Counted()
    {
      var text;
      ghost var m;
      ok, text, m, ref := BuildMeant(field, operator, value);
      if ok {
        StoreCondition(logicalOp, text, m);
      }
    }

    /**
     A group built elsewhere is parenthesised and its bindings overwrite this builder's. Everything stored keeps its
     meaning when shared placeholders agree, and stays safe for later additions when the group issued none beyond
     this builder's counters.
     */
    method AddGroupFilter(logicalOp: Junction, group: Components, ghost meaning: Meaning)
      requires Valid()
      modifies this`names, this`values, this`filterConditions, this`filterOperators, this`filterMeanings
      ensures Valid()
      ensures names == old(names) + group.names && values == old(values) + group.values
      ensures filterConditions == old(filterConditions) + if group.filter != "" then ["(" + group.filter + ")"] else []
      ensures filterMeanings == old(filterMeanings) + if group.filter != "" then [meaning] else []
      ensures filterOperators ==
              old(filterOperators) + if group.filter != "" && old(filterConditions) != [] then [logicalOp] else []
      ensures old(Sound()) && GroupFits(old(State()), group, meaning) ==> Sound()
      ensures old(Sound() && Counted()) && GroupFits(old(State()), group, meaning) ==> Counted()
    {
      ghost var before := Contents();
      names := names + group.names;
      values := values + group.values;
      if group.filter != "" {
        filterConditions := filterConditions + ["(" + group.filter + ")"];
        filterMeanings := filterMeanings + [meaning];
        if |filterConditions| > 1 {
          filterOperators := filterOperators + [logicalOp];
        }
      }
      ghost var after := before.(bindings := GroupBindings(before.bindings, group),
                                 filter := WithGroup(before.filter, group, meaning));
      assert Contents() == after;
      GroupKeeps(before, group, meaning);
    }

    /** Naming a clear field keeps stored texts. */
    method NameOperand(field: string) returns (ref: string)
      modifies this`names, this`nameCounter
      ensures Named(policy, old(Naming(names, nameCounter)), field, Naming(names, nameCounter), ref)
      ensures old(Counted()) ==> Counted()
      ensures old(Sound()) && Clear(policy, old(names), field) ==> Sound()
    {
      ghost var before := Contents();
      ref := AddNameSecure(field);
      OperandAdded(policy, before, field, Naming(names, nameCounter), ref, []);
      assert Contents() == before.(bindings := Bound'(State(), []));
    }

    /** Binding a value keeps stored texts. */
    method BindOperand(value: GoValue) returns (ok: bool, ref: string)
      modifies this`values, this`valueCounter
      ensures ok <==> AcceptedPrefix(policy, [value]) != []
      ensures values == BindAll(old(values), old(valueCounter), AcceptedPrefix(policy, [value]))
      ensures valueCounter == old(valueCounter) + |AcceptedPrefix(policy, [value])|
      ensures ok ==> ref == ValuePlaceholder(old(valueCounter) + 1)
      ensures old(Sound()) ==> Sound()
    {
      ghost var before := Contents();
      ok, ref := AddValueSecure(value);
      ValuesKeep(before, AcceptedPrefix(policy, [value]));
      assert Contents() == before.(bindings := Bound'(before.bindings, AcceptedPrefix(policy, [value])));
    }

    /** Names a field and binds a value, as every update with an operand begins. */
    method AddOperand(field: string, value: GoValue) returns (ok: bool, ref: string, v: string)
      modifies this`names, this`nameCounter, this`values, this`valueCounter
      ensures ok <==> ValueOk(policy, value)
      ensures Named(policy, old(Naming(names, nameCounter)), field, Naming(names, nameCounter), ref)
      ensures State() == Bound'(Bindings(Naming(names, nameCounter), old(values), old(valueCounter)),
          AcceptedPrefix(policy, [value]))
      ensures ok ==> valueCounter == old(valueCounter) + 1 && v == ValuePlaceholder(valueCounter)
      ensures old(Counted()) ==> Counted()
      ensures old(Sound()) && Clear(policy, old(names), field) ==> Sound()
    {
      AcceptedOne(policy, value);
      ref := NameOperand(field);
      ok, v := BindOperand(value);
    }

    /** Stores the text of a clause, built to do `e`, once its field is named and its values are bound. */
    method Append(c: UT.Clause, ghost e: Effect, ghost before: Store, ghost field: string)
      requires Contents() == before.(bindings := State())
      requires AddedExactly(policy, before, State(), field, c, e) && Collects(Collected(), before, c, valueCounter)
      modifies this`updateExpressions, this`added, this`effects, this`marks
      ensures Collected() == WithClause(old(Collected()), c, valueCounter)
      ensures effects == old(effects) + [e]
      ensures SoundStore(before) ==>
                (Sound() && Extended(before.bindings, State()) <==> Clear(policy, before.bindings.naming.names, field))
      ensures WellNamed(before.bindings.naming) && LastMark(old(marks)) <= before.bindings.valueCounter ==>
                (old(UpdatesSound()) ==> UpdatesSound())
    {
      var a := UT.ActionOf(c);
      var texts := if a in updateExpressions then updateExpressions[a] else [];
      updateExpressions := updateExpressions[a := texts + [UT.ClauseText(c)]];
      added, effects, marks := added + [c], effects + [e], marks + [valueCounter];
      assert Contents() == ClauseStored(before, State(), c, e);
    }

    /** The clause of a SET, once its field is named and its value is bound. */
    method AppendSet(
        name: string, index: Option<nat>, v: string, ghost before: Store, ghost field: string, ghost av: AttributeValue)
      requires Contents() == before.(bindings := State())
      requires Named(policy, before.bindings.naming, field, Naming(names, nameCounter), name)
      requires State() == Bound'(before.bindings.(naming := Naming(names, nameCounter)), [av])
      requires v == ValuePlaceholder(valueCounter)
      modifies this`updateExpressions, this`added, this`effects, this`marks
      ensures Collected() == WithClause(old(Collected()), ValueClause(name, index, valueCounter), valueCounter)
      ensures effects == old(effects) + [SetTo(Place(FieldPath(field), index), Outright(Value(av)))]
      ensures SoundStore(before) ==>
                (Sound() && Extended(before.bindings, State()) <==> Clear(policy, before.bindings.naming.names, field))
      ensures WellNamed(before.bindings.naming) && LastMark(old(marks)) <= before.bindings.valueCounter ==>
                (old(UpdatesSound()) ==> UpdatesSound())
    {
      var c := UT.SetClause(UT.Target(name, index), UT.FromValue(v));
      ghost var e := SetTo(Place(FieldPath(field), index), Outright(Value(av)));
      SetAdded(policy, before, Collected(), field, index, Naming(names, nameCounter), name, av);
      Append(c, e, before, field);
    }

    method SetElement(base: string, index: Option<nat>, value: GoValue) returns (ok: bool, ghost ref: string)
      modifies this`names, this`nameCounter, this`values, this`valueCounter, this`updateExpressions, this`added,
          this`effects, this`marks
      ensures ok <==> ValueOk(policy, value)
      ensures Named(policy, old(Naming(names, nameCounter)), base, Naming(names, nameCounter), ref)
      ensures State() == Operated(policy, old(State()), true, base, AcceptedPrefix(policy, [value]))
      ensures Collected() ==
              if ok then WithClause(old(Collected()), ValueClause(ref, index, valueCounter), valueCounter)
              else old(Collected())
      ensures effects ==
              old(effects) + if ok then [SetTo(Place(FieldPath(base), index), Outright(Converted(value)))] else []
      ensures old(Sound()) && Clear(policy, old(names), base) ==> Sound()
      ensures ok && old(Sound()) ==> (Sound() && Extended(old(State()), State()) <==> Clear(policy, old(names), base))
      ensures old(Counted()) ==> Counted()
      ensures old(Counted() && UpdatesSound()) ==> UpdatesSound()
    {
      ghost var store := Contents();
      var name, v;
      ok, name, v := AddOperand(base, value);
      ref := name;
      if ok {
        AppendSet(name, index, v, store, base, Convert(value).value);
      }
    }

    /** One SET clause, with a value of its own; stored texts stay sound exactly when the field is clear. */
    method AddUpdateSet(field: string, value: GoValue) returns (ok: bool, ghost ref: string)
      modifies this`names, this`nameCounter, this`values, this`valueCounter, this`updateExpressions, this`added,
          this`effects, this`marks
      ensures ok <==> ElementOk(policy, field) && ValueOk(policy, value)
      ensures NamedWhen(policy, ElementOk(policy, field), old(Naming(names, nameCounter)), ElementOf(field).0,
          Naming(names, nameCounter), ref)
      ensures State() ==
              Operated(policy, old(State()), ElementOk(policy, field), ElementOf(field).0,
                       AcceptedPrefix(policy, [value]))
      ensures Collected() ==
              if ok then WithClause(old(Collected()), ValueClause(ref, ElementOf(field).1, valueCounter), valueCounter)
              else old(Collected())
      ensures effects == old(effects) + if ok then [SetTo(ElementPlace(field), Outright(Converted(value)))] else []
      ensures old(Sound()) && Clear(policy, old(names), ElementOf(field).0) ==> Sound()
      ensures ok && old(Sound()) ==>
                (Sound() && Extended(old(State()), State()) <==> Clear(policy, old(names), ElementOf(field).0))
      ensures old(Counted()) ==> Counted()
      ensures old(Counted() && UpdatesSound()) ==> UpdatesSound()
    {
      ok, ref := policy.fieldOk(field) && !ParseListIndex(field).Malformed?, "";
      if ok {
        var (base, index) := ElementOf(field);
        ok, ref := SetElement(base, index, value);
      }
    }

    /** The clause of an ADD, once its field is named and its value is bound. */
    method AppendAdd(name: string, v: string, ghost before: Store, ghost field: string, ghost av: AttributeValue)
      requires Contents() == before.(bindings := State())
      requires Named(policy, before.bindings.naming, field, Naming(names, nameCounter), name)
      requires State() == Bound'(before.bindings.(naming := Naming(names, nameCounter)), [av])
      requires v == ValuePlaceholder(valueCounter)
      modifies this`updateExpressions, this`added, this`effects, this`marks
      ensures Collected() == WithClause(old(Collected()), UT.AddClause(name, v), valueCounter)
      ensures effects == old(effects) + [AddTo(FieldPath(field), Value(av))]
      ensures SoundStore(before) ==>
                (Sound() && Extended(before.bindings, State()) <==> Clear(policy, before.bindings.naming.names, field))
      ensures WellNamed(before.bindings.naming) && LastMark(old(marks)) <= before.bindings.valueCounter ==>
                (old(UpdatesSound()) ==> UpdatesSound())
    {
      var c := UT.AddClause(name, v);
      ghost var e := AddTo(FieldPath(field), Value(av));
      AddAdded(policy, before, Collected(), field, Naming(names, nameCounter), name, av);
      Append(c, e, before, field);
    }

    method AddField(field: string, value: GoValue) returns (ok: bool, ghost ref: string)
      modifies this`names, this`nameCounter, this`values, this`valueCounter, this`updateExpressions, this`added,
          this`effects, this`marks
      ensures ok <==> ValueOk(policy, value)
      ensures Named(policy, old(Naming(names, nameCounter)), field, Naming(names, nameCounter), ref)
      ensures State() == Operated(policy, old(State()), true, field, AcceptedPrefix(policy, [value]))
      ensures Collected() ==
              if ok then WithClause(old(Collected()), UT.AddClause(ref, ValuePlaceholder(valueCounter)), valueCounter)
              else old(Collected())
      ensures effects == old(effects) + if ok then [AddTo(FieldPath(field), Converted(value))] else []
      ensures old(Sound()) && Clear(policy, old(names), field) ==> Sound()
      ensures ok && old(Sound()) ==> (Sound() && Extended(old(State()), State()) <==> Clear(policy, old(names), field))
      ensures old(Counted()) ==> Counted()
      ensures old(Counted() && UpdatesSound()) ==> UpdatesSound()
    {
      ghost var store := Contents();
      AcceptedOne(policy, value);
      var name, v;
      ok, name, v := AddOperand(field, value);
      ref := name;
      if ok {
        AppendAdd(name, v, store, field, Convert(value).value);
      }
    }

    /** One ADD clause, with a value of its own. */
    method AddUpdateAdd(field: string, value: GoValue) returns (ok: bool, ghost ref: string)
      modifies this`names, this`nameCounter, this`values, this`valueCounter, this`updateExpressions, this`added,
          this`effects, this`marks
      ensures ok <==> policy.fieldOk(field) && ValueOk(policy, value)
      ensures NamedWhen(policy, policy.fieldOk(field), old(Naming(names, nameCounter)), field,
          Naming(names, nameCounter), ref)
      ensures State() ==
              Operated(policy, old(State()), policy.fieldOk(field), field, AcceptedPrefix(policy, [value]))
      ensures Collected() ==
              if ok then WithClause(old(Collected()), UT.AddClause(ref, ValuePlaceholder(valueCounter)), valueCounter)
              else old(Collected())
      ensures effects == old(effects) + if ok then [AddTo(FieldPath(field), Converted(value))] else []
      ensures old(Sound()) && Clear(policy, old(names), field) ==> Sound()
      ensures ok && old(Sound()) ==> (Sound() && Extended(old(State()), State()) <==> Clear(policy, old(names), field))
      ensures old(Counted()) ==> Counted()
      ensures old(Counted() && UpdatesSound()) ==> UpdatesSound()
    {
      ok, ref := policy.fieldOk(field), "";
      if ok {
        ok, ref := AddField(field, value);
      }
    }

    method RemoveElement(base: string, index: Option<nat>) returns (ghost ref: string)
      modifies this`names, this`nameCounter, this`updateExpressions, this`added, this`effects, this`marks
      ensures Named(policy, old(Naming(names, nameCounter)), base, Naming(names, nameCounter), ref)
      ensures Collected() == WithClause(old(Collected()), UT.RemoveClause(UT.Target(ref, index)), valueCounter)
      ensures State() == Operated(policy, old(State()), true, base, [])
      ensures effects == old(effects) + [Removed(Place(FieldPath(base), index))]
      ensures old(Sound()) && Clear(policy, old(names), base) ==> Sound()
      ensures old(Sound()) ==> (Sound() && Extended(old(State()), State()) <==> Clear(policy, old(names), base))
      ensures old(Counted()) ==> Counted()
      ensures old(Counted() && UpdatesSound()) ==> UpdatesSound()
    {
      ghost var store := Contents();
      var name := AddNameSecure(base);
      ref := name;
      RemoveAdded(policy, store, Collected(), base, index, Naming(names, nameCounter), ref);
      assert State() == Bound'(store.bindings.(naming := Naming(names, nameCounter)), []);
      Append(UT.RemoveClause(UT.Target(name, index)), Removed(Place(FieldPath(base), index)), store, base);
    }

    /** One REMOVE clause on the attribute or element named. */
    method AddUpdateRemove(field: string) returns (ok: bool, ghost ref: string)
      modifies this`names, this`nameCounter, this`updateExpressions, this`added, this`effects, this`marks
      ensures ok <==> ElementOk(policy, field)
      ensures NamedWhen(policy, ElementOk(policy, field), old(Naming(names, nameCounter)), ElementOf(field).0,
          Naming(names, nameCounter), ref)
      ensures Collected() ==
              if ok then
                WithClause(old(Collected()), UT.RemoveClause(UT.Target(ref, ElementOf(field).1)), valueCounter)
              else old(Collected())
      ensures State() == Operated(policy, old(State()), ElementOk(policy, field), ElementOf(field).0, [])
      ensures effects == old(effects) + if ok then [Removed(ElementPlace(field))] else []
      ensures old(Sound()) && Clear(policy, old(names), ElementOf(field).0) ==> Sound()
      ensures ok && old(Sound()) ==>
                (Sound() && Extended(old(State()), State()) <==> Clear(policy, old(names), ElementOf(field).0))
      ensures old(Counted()) ==> Counted()
      ensures old(Counted() && UpdatesSound()) ==> UpdatesSound()
    {
      ok, ref := policy.fieldOk(field) && !ParseListIndex(field).Malformed?, "";
      if ok {
        var (base, index) := ElementOf(field);
        ref := RemoveElement(base, index);
      }
    }

    method DeleteField(field: string, value: GoValue) returns (ok: bool, ghost ref: string)
      modifies this`names, this`nameCounter, this`values, this`valueCounter, this`updateExpressions, this`added,
          this`effects, this`marks
      ensures ok <==> policy.toSet(value).Ok?
      ensures Named(policy, old(Naming(names, nameCounter)), field, Naming(names, nameCounter), ref)
      ensures State() == Operated(policy, old(State()), true, field, SetValues(policy, value))
      ensures Collected() ==
              if ok then
                WithClause(old(Collected()), UT.DeleteClause(ref, ValuePlaceholder(valueCounter)), valueCounter)
              else old(Collected())
      ensures effects ==
              old(effects) + if ok then [DeletedFrom(FieldPath(field), Value(policy.toSet(value).value))] else []
      ensures old(Sound()) && Clear(policy, old(names), field) ==> Sound()
      ensures ok && old(Sound()) ==> (Sound() && Extended(old(State()), State()) <==> Clear(policy, old(names), field))
      ensures old(Counted()) ==> Counted()
      ensures old(Counted() && UpdatesSound()) ==> UpdatesSound()
    {
      ghost var store := Contents();
      var name, v;
      ok, name, v := AddSetOperand(field, value);
      ref := name;
      if ok {
        DeleteAdded(policy, store, Collected(), field, Naming(names, nameCounter), ref, policy.toSet(value).value);
        Append(UT.DeleteClause(name, v), DeletedFrom(FieldPath(field), Value(policy.toSet(value).value)), store, field);
      }
    }

    /** One DELETE clause; `policy.toSet` stands for the conversion of a Go slice to a set value. */
    method AddUpdateDelete(field: string, value: GoValue) returns (ok: bool, ghost ref: string)
      modifies this`names, this`nameCounter, this`values, this`valueCounter, this`updateExpressions, this`added,
          this`effects, this`marks
      ensures ok <==> policy.fieldOk(field) && policy.toSet(value).Ok?
      ensures NamedWhen(policy, policy.fieldOk(field), old(Naming(names, nameCounter)), field,
          Naming(names, nameCounter), ref)
      ensures State() == Operated(policy, old(State()), policy.fieldOk(field), field, SetValues(policy, value))
      ensures Collected() ==
              if ok then
                WithClause(old(Collected()), UT.DeleteClause(ref, ValuePlaceholder(valueCounter)), valueCounter)
              else old(Collected())
      ensures effects ==
              old(effects) + if ok then [DeletedFrom(FieldPath(field), Value(policy.toSet(value).value))] else []
      ensures old(Sound()) && Clear(policy, old(names), field) ==> Sound()
      ensures ok && old(Sound()) ==> (Sound() && Extended(old(State()), State()) <==> Clear(policy, old(names), field))
      ensures old(Counted()) ==> Counted()
      ensures old(Counted() && UpdatesSound()) ==> UpdatesSound()
    {
      ok, ref := policy.fieldOk(field), "";
      if ok {
        ok, ref := DeleteField(field, value);
      }
    }

    method AddValueAsSet(value: GoValue) returns (ok: bool, v: string)
      modifies this`values, this`valueCounter
      ensures ok <==> policy.toSet(value).Ok?
      ensures values == BindAll(old(values), old(valueCounter), SetValues(policy, value))
      ensures valueCounter == old(valueCounter) + |SetValues(policy, value)|
      ensures ok ==> v == ValuePlaceholder(valueCounter)
      ensures old(Sound()) ==> Sound()
    {
      ghost var before := Contents();
      v := "";
      var av := policy.toSet(value);
      ok := av.Ok?;
      if ok {
        valueCounter := valueCounter + 1;
        v := ValuePlaceholder(valueCounter);
        values := values[v := av.value];
        assert SetValues(policy, value)[..0] == [];
      }
      assert values == BindAll(before.bindings.values, before.bindings.valueCounter, SetValues(policy, value));
      ValuesKeep(before, SetValues(policy, value));
      assert Contents() == before.(bindings := Bound'(before.bindings, SetValues(policy, value)));
    }

    method AddSetOperand(field: string, value: GoValue) returns (ok: bool, ref: string, v: string)
      modifies this`names, this`nameCounter, this`values, this`valueCounter
      ensures ok <==> policy.toSet(value).Ok?
      ensures Named(policy, old(Naming(names, nameCounter)), field, Naming(names, nameCounter), ref)
      ensures State() == Bound'(Bindings(Naming(names, nameCounter), old(values), old(valueCounter)),
          SetValues(policy, value))
      ensures ok ==> valueCounter == old(valueCounter) + 1 && v == ValuePlaceholder(valueCounter)
      ensures old(Counted()) ==> Counted()
      ensures old(Sound()) && Clear(policy, old(names), field) ==> Sound()
    {
      ref := NameOperand(field);
      ok, v := AddValueAsSet(value);
    }

    method AddOperands(field: string, elems: seq<GoValue>) returns (ok: bool, ref: string)
      modifies this`names, this`nameCounter, this`values, this`valueCounter
      ensures ok == (|AcceptedPrefix(policy, elems)| == |elems|)
      ensures Named(policy, old(Naming(names, nameCounter)), field, Naming(names, nameCounter), ref)
      ensures State() == Bound'(Bindings(Naming(names, nameCounter), old(values), old(valueCounter)),
          AcceptedPrefix(policy, elems))
      ensures old(Counted()) ==> Counted()
      ensures old(Sound()) && Clear(policy, old(names), field) ==> Sound()
    {
      ref := NameOperand(field);
      ok := BindOperands(elems);
    }

    /** Binding values keeps stored texts. */
    method BindOperands(elems: seq<GoValue>) returns (ok: bool)
      modifies this`values, this`valueCounter
      ensures ok == (|AcceptedPrefix(policy, elems)| == |elems|)
      ensures values == BindAll(old(values), old(valueCounter), AcceptedPrefix(policy, elems))
      ensures valueCounter == old(valueCounter) + |AcceptedPrefix(policy, elems)|
      ensures old(Sound()) ==> Sound()
    {
      ghost var before := Contents();
      var refs;
      ok, refs := AddValues(elems);
      ValuesKeep(before, AcceptedPrefix(policy, elems));
      assert Contents() == before.(bindings := Bound'(before.bindings, AcceptedPrefix(policy, elems)));
    }

    method CallFunction(field: string, form: FunctionForm, elems: seq<GoValue>) returns (ok: bool, ghost ref: string)
      requires |elems| == FormArity(form)
      modifies this`names, this`nameCounter, this`values, this`valueCounter, this`updateExpressions, this`added,
          this`effects, this`marks
      ensures ok <==> |AcceptedPrefix(policy, elems)| == |elems|
      ensures Named(policy, old(Naming(names, nameCounter)), field, Naming(names, nameCounter), ref)
      ensures State() == Operated(policy, old(State()), true, field, AcceptedPrefix(policy, elems))
      ensures Collected() ==
              if ok then WithClause(old(Collected()), FormClause(form, ref, old(valueCounter)), valueCounter)
              else old(Collected())
      ensures effects ==
              old(effects) +
              if ok then
                [SetTo(Place(FieldPath(field), None), FormAssigned(form, field, AcceptedPrefix(policy, elems)))]
              else []
      ensures old(Sound()) && Clear(policy, old(names), field) ==> Sound()
      ensures ok && old(Sound()) ==> (Sound() && Extended(old(State()), State()) <==> Clear(policy, old(names), field))
      ensures old(Counted()) ==> Counted()
      ensures old(Counted() && UpdatesSound()) ==> UpdatesSound()
    {
      ghost var store := Contents();
      var counter := valueCounter;
      var name;
      ok, name := AddOperands(field, elems);
      ref := name;
      if ok {
        StoreForm(field, form, name, counter, store, AcceptedPrefix(policy, elems));
      }
    }

    /** The clause of a function call, once its field is named and its operands are bound. */
    method StoreForm(
      field: string, form: FunctionForm, name: string, counter: nat, ghost before: Store,
      ghost avs: seq<AttributeValue>)
      requires |avs| == FormArity(form) && counter == before.bindings.valueCounter
      requires Named(policy, before.bindings.naming, field, Naming(names, nameCounter), name)
      requires State() == Bound'(before.bindings.(naming := Naming(names, nameCounter)), avs)
      requires Contents() == before.(bindings := State())
      modifies this`updateExpressions, this`added, this`effects, this`marks
      ensures Collected() == WithClause(old(Collected()), FormClause(form, name, counter), valueCounter)
      ensures effects == old(effects) + [SetTo(Place(FieldPath(field), None), FormAssigned(form, field, avs))]
      ensures SoundStore(before) ==>
                (Sound() && Extended(before.bindings, State()) <==> Clear(policy, before.bindings.naming.names, field))
      ensures WellNamed(before.bindings.naming) && LastMark(old(marks)) <= before.bindings.valueCounter ==>
                (old(UpdatesSound()) ==> UpdatesSound())
    {
      var c := FormClause(form, name, counter);
      ghost var e := SetTo(Place(FieldPath(field), None), FormAssigned(form, field, avs));
      FormAdded(policy, before, Collected(), field, form, Naming(names, nameCounter), name, avs);
      Append(c, e, before, field);
    }

    /**
     One SET clause that calls a function. Unlike the other updates this one names the field before it looks at
     anything else and never rejects it: stored texts stay sound exactly when the field is clear, which a rejected one
     is not.
     */
    method AddUpdateFunction(field: string, fn: string, args: seq<GoValue>) returns (ok: bool, ghost ref: string)
      modifies this`names, this`nameCounter, this`values, this`valueCounter, this`updateExpressions, this`added,
          this`effects, this`marks
      ensures ok <==> FunctionOk(policy, field, fn, args)
      ensures Named(policy, old(Naming(names, nameCounter)), field, Naming(names, nameCounter), ref)
      ensures State() == Operated(policy, old(State()), true, field, FunctionValues(policy, field, fn, args))
      ensures Collected() ==
              if ok then
                WithClause(old(Collected()), FormClause(FormOf(field, fn, args).value, ref, old(valueCounter)),
                           valueCounter)
              else old(Collected())
      ensures effects == old(effects) + if ok then [FunctionEffect(policy, field, fn, args)] else []
      ensures old(Sound()) && Clear(policy, old(names), field) ==> Sound()
      ensures ok && old(Sound()) ==> (Sound() && Extended(old(State()), State()) <==> Clear(policy, old(names), field))
      ensures old(Counted()) ==> Counted()
      ensures old(Counted() && UpdatesSound()) ==> UpdatesSound()
    {
      var form := FormOf(field, fn, args);
      FunctionAccepted(policy, field, fn, args);
      if form.Some? {
        if FunctionOk(policy, field, fn, args) {
          FormSaid(policy, field, fn, args);
        }
        ok, ref := CallFunction(field, form.value, FormOperands(form.value, args));
      } else {
        var name;
        ok, name := AddOperands(field, []);
        ok, ref := false, name;
      }
    }

    /** One section for each action that has clauses, in whatever order the map of actions is visited. */
    method BuildUpdate() returns (text: string, order: seq<UT.Action>)
      ensures Distinct(order) && forall a :: a in order <==> TextsFor(updateExpressions, a) != []
      ensures text == Join(Printed(updateExpressions, order), " ")
      ensures UpdatesSound() ==> Prints(text, added)
    {
      var todo, parts := updateExpressions.Keys, [];
      order := [];
      while todo != {}
        invariant todo <= updateExpressions.Keys
        invariant Distinct(order) && parts == Printed(updateExpressions, order)
        invariant forall a :: a in order <==> a !in todo && TextsFor(updateExpressions, a) != []
      {
        var a :| a in todo;
        todo := todo - {a};
        if |updateExpressions[a]| > 0 {
          PrintedLast(updateExpressions, order, a);
          parts := parts + [UT.ActionText(a) + " " + Join(updateExpressions[a], ", ")];
          order := order + [a];
        }
      }
      text := Join(parts, " ");
      if UpdatesSound() {
        PrintedUpdate(Collected(), order);
      }
    }

    /** The condition texts say what the stored conditions were built to say, with AND binding tighter than OR. */
    method BuildConditions() returns (key: string, filter: string, condition: string)
      requires Valid()
      ensures key == RunText(keyConditions, KeyOps(|keyConditions|))
      ensures filter == RunText(filterConditions, filterOperators)
      ensures condition == RunText(conditions, conditionOperators)
      ensures Sound() ==>
                && Emitted(key, names, values, keyMeanings, KeyOps(|keyMeanings|))
                && Emitted(filter, names, values, filterMeanings, filterOperators)
                && Emitted(condition, names, values, conditionMeanings, conditionOperators)
    {
      key := JoinKeys(keyConditions);
      filter := JoinAll(filterConditions, filterOperators);
      condition := JoinAll(conditions, conditionOperators);
      if SoundStore(Contents()) {
        EmittedSays(Contents().key, KeyOps(|keyMeanings|), State(), key);
        EmittedSays(Contents().filter, filterOperators, State(), filter);
        EmittedSays(Contents().condition, conditionOperators, State(), condition);
      }
    }

    /** The condition texts say and the update text does what the stored lists were built to. */
    method Build() returns (c: Components)
      requires Valid()
      ensures c.names == names && c.values == values
      ensures c.keyCondition == RunText(keyConditions, KeyOps(|keyConditions|))
      ensures c.filter == RunText(filterConditions, filterOperators)
      ensures c.condition == RunText(conditions, conditionOperators)
      ensures Sound() ==>
                && Emitted(c.keyCondition, names, values, keyMeanings, KeyOps(|keyMeanings|))
                && Emitted(c.filter, names, values, filterMeanings, filterOperators)
                && Emitted(c.condition, names, values, conditionMeanings, conditionOperators)
      ensures UpdatesSound() ==> Prints(c.update, added)
      ensures UpdatesSound() && Sound() ==> UpdateDoes(c.update, names, values, effects)
    {
      var key, filter, condition := BuildConditions();
      var update, order := BuildUpdate();
      c := Components(names, values, key, filter, condition, update);
    }

    method ResetConditions()
      requires Valid()
      modifies this`conditions, this`conditionOperators, this`conditionMeanings
      ensures Valid() && conditions == []
      ensures old(Sound()) ==> Sound()
    {
      conditions, conditionOperators := [], [];
      conditionMeanings := [];
    }

    /** A copy with the same contents; it is a new object, so additions to either leave the other as it was. */
    method Clone() returns (b: Builder)
      requires Valid()
      ensures fresh(b) && b.policy == policy && b.Valid()
      ensures b.Contents() == Contents()
      ensures b.filterOperators == filterOperators && b.conditionOperators == conditionOperators
      ensures b.Collected() == Collected()
      ensures (Sound() ==> b.Sound()) && (Counted() ==> b.Counted()) && (UpdatesSound() ==> b.UpdatesSound())
    {
      b := new Builder.Copy(this);
    }

    constructor Copy(b: Builder)
      requires b.Valid()
      ensures policy == b.policy && Valid() && Contents() == b.Contents()
      ensures filterOperators == b.filterOperators && conditionOperators == b.conditionOperators
      ensures Collected() == b.Collected()
    {
      policy := b.policy;
      nameCounter, valueCounter := b.nameCounter, b.valueCounter;
      names, values := b.names, b.values;
      keyConditions, keyMeanings := b.keyConditions, b.keyMeanings;
      filterConditions, filterOperators, filterMeanings := b.filterConditions, b.filterOperators, b.filterMeanings;
      conditions, conditionOperators, conditionMeanings := b.conditions, b.conditionOperators, b.conditionMeanings;
      updateExpressions, added, effects, marks := b.updateExpressions, b.added, b.effects, b.marks;
    }
  }

  /** No conditions give no text; otherwise the text means the flat run of the conditions. */
  ghost predicate Emitted(text: string, names: Names, values: Values, ms: seq<Meaning>, ops: seq<Junction>)
    requires |ops| == if ms == [] then 0 else |ms| - 1
  {
    if ms == [] then text == "" else text != "" && Denotes(text, names, values, FlatTree(ms, ops))
  }

  /** No text for no conditions, and a flat run otherwise. */
  function RunText(texts: seq<string>, ops: seq<Junction>): string
    requires |ops| == if texts == [] then 0 else |texts| - 1
  {
    if texts == [] then "" else FlatText(texts, ops)
  }

  lemma EmittedFlat(texts: seq<string>, ops: seq<Junction>, names: Names, values: Values, ms: seq<Meaning>)
    requires AtomsDenote(texts, names, values, ms)
    requires |ops| == if ms == [] then 0 else |ms| - 1
    ensures Emitted(RunText(texts, ops), names, values, ms, ops)
  {
    if texts != [] {
      FlatParses(texts, ops, names, values, ms);
      DenotesNonempty(FlatText(texts, ops), names, values, FlatTree(ms, ops));
    }
  }

  lemma EmittedSays(l: Stored, ops: seq<Junction>, b: Bindings, text: string)
    requires Says(l, b) && |ops| == if l.meanings == [] then 0 else |l.meanings| - 1
    requires text == RunText(l.texts, ops)
    ensures Emitted(text, b.naming.names, b.values, l.meanings, ops)
  {
    EmittedFlat(l.texts, ops, b.naming.names, b.values, l.meanings);
  }

  /** The operators `Build` puts between key conditions. */
  function KeyOps(n: nat): seq<Junction> {
    AllAnd(if n == 0 then 0 else n - 1)
  }

  /** The text from the operator before condition `i` to the end of the run. */
  function TailText(conds: seq<string>, ops: seq<Junction>, i: nat): string
    requires |conds| == |ops| + 1 && 1 <= i <= |conds|
    decreases |conds| - i
  {
    if i == |conds| then "" else " " + JunctionText(ops[i - 1]) + " " + (conds[i] + TailText(conds, ops, i + 1))
  }

  lemma {:induction false} TailFlat(conds: seq<string>, ops: seq<Junction>, i: nat)
    requires |conds| == |ops| + 1 && i < |conds|
    ensures FlatText(conds[i..], ops[i..]) == conds[i] + TailText(conds, ops, i + 1)
    decreases |conds| - i
  {
    if i < |ops| {
      TailFlat(conds, ops, i + 1);
      assert conds[i..][1..] == conds[i + 1..] && ops[i..][1..] == ops[i + 1..];
    }
  }

  /** The loop of `Build` over a list of conditions and the operators between them. */
  method JoinWith(conds: seq<string>, ops: seq<Junction>) returns (text: string)
    requires |conds| == |ops| + 1
    ensures text == FlatText(conds, ops)
  {
    TailFlat(conds, ops, 0);
    assert conds[0..] == conds && ops[0..] == ops;
    text := conds[0];
    var i := 1;
    while i < |conds|
      invariant 1 <= i <= |conds|
      invariant text + TailText(conds, ops, i) == FlatText(conds, ops)
    {
      ghost var before := text;
      var op := " " + JunctionText(ops[i - 1]) + " ";
      text := text + op;
      text := text + conds[i];
      assert before + (op + (conds[i] + TailText(conds, ops, i + 1))) == text + TailText(conds, ops, i + 1);
      i := i + 1;
    }
    assert text + "" == text;
  }

  method JoinAll(conds: seq<string>, ops: seq<Junction>) returns (text: string)
    requires |ops| == if conds == [] then 0 else |conds| - 1
    ensures text == RunText(conds, ops)
  {
    text := "";
    if |conds| > 0 {
      text := JoinWith(conds, ops);
    }
  }

  method JoinKeys(conds: seq<string>) returns (text: string)
    ensures text == RunText(conds, KeyOps(|conds|))
  {
    text := "";
    if |conds| > 0 {
      text := Join(conds, " AND ");
      JoinAnd(conds);
    }
  }

  lemma DenotesNonempty(text: string, names: Names, values: Values, m: Meaning)
    requires Denotes(text, names, values, m)
    ensures text != ""
  {
    assert Lex("") == [];
    assert ParseNot([]).Fail?;
  }

  /** Two maps agree on the keys they share, so that either may overwrite the other. */
  ghost predicate Agree<T(!new)>(a: map<string, T>, b: map<string, T>) {
    forall k :: k in a && k in b ==> a[k] == b[k]
  }
}
