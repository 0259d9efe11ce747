/**
 Which condition each operator spelling stands for (internal/expr/builder.go buildCondition), told by the service's own
 reading of comparators and functions rather than by the builder's table.
 */
module Operators {
  import opened Text
  import opened Attributes
  import opened ConditionGrammar
  import opened ConditionMeaning
  import opened ConditionPrinter
  import opened ExprBuilder
  import opened Placeholders

  /** The comparator's name in words. */
  function Word(c: Comparator): string {
    match c
    case EQ => "EQ"
    case NE => "NE"
    case LT => "LT"
    case LE => "LE"
    case GT => "GT"
    case GE => "GE"
  }

  /** The spelling is the service's own for this comparator, its name in any letter case, or `!=`. */
  predicate Compares(operator: string, c: Comparator) {
    || ComparatorOf(operator) == Done(c, [])
    || EqualFold(operator, Word(c))
    || (operator == "!=" && c == NE)
  }

  /** The spelling is the name of a condition function of the service, in any letter case, or short for it. */
  predicate Calls(operator: string, fn: string) {
    || (IsFunction(fn) && EqualFold(operator, fn))
    || (fn == "attribute_exists" && EqualFold(operator, "EXISTS"))
    || (fn == "attribute_not_exists" && EqualFold(operator, "NOT_EXISTS"))
  }

  /** The functions that take a value besides the field, and those that take the field alone. */
  predicate TakesValue(fn: string) {
    fn == "begins_with" || fn == "contains"
  }

  predicate TakesField(fn: string) {
    fn == "attribute_exists" || fn == "attribute_not_exists"
  }

  predicate BindsAll(p: Policy, elems: seq<GoValue>) {
    forall i :: 0 <= i < |elems| ==> ValueOk(p, elems[i])
  }

  function Terms(elems: seq<GoValue>): (ts: seq<Term>)
    requires forall i :: 0 <= i < |elems| ==> Convert(elems[i]).Ok?
    ensures |ts| == |elems|
  {
    seq(|elems|, i requires 0 <= i < |elems| => Converted(elems[i]))
  }

  /** `m` is what the field, the operator and the value ask for. */
  predicate AsksFor(p: Policy, field: string, operator: string, value: GoValue, m: Meaning) {
    match m
    case Compare(c, x, y) =>
      Compares(operator, c) && ValueOk(p, value) && x == FieldPath(field) && y == Converted(value)
    case Between(x, lo, hi) =>
      && EqualFold(operator, "BETWEEN") && value.Slice? && value.boxed && |value.elems| == 2
      && BindsAll(p, value.elems)
      && x == FieldPath(field) && lo == Converted(value.elems[0]) && hi == Converted(value.elems[1])
    case In(x, xs) =>
      && EqualFold(operator, "IN") && value.Slice? && |value.elems| <= 100 && BindsAll(p, value.elems)
      && x == FieldPath(field) && xs == Terms(value.elems)
    case Call(fn, xs) =>
      && Calls(operator, fn)
      && if TakesValue(fn) then ValueOk(p, value) && xs == [FieldPath(field), Converted(value)]
         else TakesField(fn) && xs == [FieldPath(field)]
    case _ => false
  }

  // ---- The table ----

  lemma UpperSymbol(w: string, symbol: string)
    requires forall i :: 0 <= i < |symbol| ==> IsOperatorChar(symbol[i])
    ensures Upper(w) == symbol <==> w == symbol
  {
    if Upper(w) == symbol {
      forall i | 0 <= i < |w| ensures w[i] == symbol[i] {
        assert UpperChar(w[i]) == Upper(w)[i];
      }
    }
  }

  lemma UpperWord(w: string)
    requires forall i :: 0 <= i < |w| ==> !('a' <= w[i] <= 'z')
    ensures Upper(w) == w
  {
  }

  /** In the letter case the builder compares in. */
  lemma UpperNames()
    ensures forall c :: Upper(Word(c)) == Word(c)
    ensures Upper("BETWEEN") == "BETWEEN" && Upper("IN") == "IN"
    ensures Upper("EXISTS") == "EXISTS" && Upper("NOT_EXISTS") == "NOT_EXISTS"
  {
    forall c ensures Upper(Word(c)) == Word(c) {
      UpperWord(Word(c));
    }
    UpperWord("BETWEEN");
    UpperWord("IN");
    UpperWord("EXISTS");
    UpperWord("NOT_EXISTS");
  }

  lemma UpperFunctions()
    ensures Upper("begins_with") == "BEGINS_WITH" && Upper("contains") == "CONTAINS"
    ensures Upper("attribute_exists") == "ATTRIBUTE_EXISTS"
    ensures Upper("attribute_not_exists") == "ATTRIBUTE_NOT_EXISTS"
  {
  }

  lemma Symbols(w: string)
    ensures Upper(w) == "=" <==> w == "="
    ensures (Upper(w) == "<>" <==> w == "<>") && (Upper(w) == "!=" <==> w == "!=")
    ensures (Upper(w) == "<" <==> w == "<") && (Upper(w) == "<=" <==> w == "<=")
    ensures (Upper(w) == ">" <==> w == ">") && (Upper(w) == ">=" <==> w == ">=")
  {
    UpperSymbol(w, "=");
    UpperSymbol(w, "<>");
    UpperWord("!=");
    if Upper(w) == "!=" {
      assert UpperChar(w[0]) == '!' && UpperChar(w[1]) == '=';
      assert w == "!=";
    }
    UpperSymbol(w, "<");
    UpperSymbol(w, "<=");
    UpperSymbol(w, ">");
    UpperSymbol(w, ">=");
  }

  /** The comparator's own spelling, folded. */
  predicate FoldsTo(u: string, c: Comparator) {
    u == ComparatorText(c) || u == Word(c) || (u == "!=" && c == NE)
  }

  lemma TableFolds(operator: string, c: Comparator)
    ensures OpOf(operator) == Some(Cmp(c)) <==> FoldsTo(Upper(operator), c)
  {
  }

  lemma ComparesFolds(operator: string, c: Comparator)
    ensures Compares(operator, c) <==> FoldsTo(Upper(operator), c)
  {
    Symbols(operator);
    UpperNames();
  }

  lemma ComparatorSpelt(operator: string, c: Comparator)
    ensures OpOf(operator) == Some(Cmp(c)) <==> Compares(operator, c)
  {
    TableFolds(operator, c);
    ComparesFolds(operator, c);
  }

  lemma ListSpelt(operator: string)
    ensures OpOf(operator) == Some(BetweenOp) <==> EqualFold(operator, "BETWEEN")
    ensures OpOf(operator) == Some(InOp) <==> EqualFold(operator, "IN")
  {
    UpperNames();
  }

  lemma CallSpelt(operator: string)
    ensures OpOf(operator) == Some(BeginsWith) <==> Calls(operator, "begins_with")
    ensures OpOf(operator) == Some(Contains) <==> Calls(operator, "contains")
    ensures OpOf(operator) == Some(Exists) <==> Calls(operator, "attribute_exists")
    ensures OpOf(operator) == Some(NotExists) <==> Calls(operator, "attribute_not_exists")
  {
    UpperNames();
    UpperFunctions();
  }

  // ---- What the builder makes of an operator ----

  lemma {:induction false} AllBound(p: Policy, elems: seq<GoValue>)
    ensures |AcceptedPrefix(p, elems)| == |elems| <==> BindsAll(p, elems)
    ensures BindsAll(p, elems) ==> ValueTerms(AcceptedPrefix(p, elems)) == Terms(elems)
    decreases |elems|
  {
    if elems != [] {
      var rest := elems[1..];
      AllBound(p, rest);
      assert BindsAll(p, elems) <==> ValueOk(p, elems[0]) && BindsAll(p, rest) by {
        assert elems == [elems[0]] + rest;
      }
      if BindsAll(p, elems) {
        assert Terms(elems) == [Converted(elems[0])] + Terms(rest);
      }
    }
  }

  lemma AskedList(p: Policy, field: string, operator: string, value: GoValue, m: Meaning)
    requires Validated(p, field, operator, value) && AsksFor(p, field, operator, value, m) && (m.Between? || m.In?)
    ensures Accepts(p, field, operator, value) && m == Said(p, field, operator, value)
  {
    ListSpelt(operator);
    AllBound(p, value.elems);
  }

  lemma AskedComparison(p: Policy, field: string, operator: string, value: GoValue, m: Meaning)
    requires Validated(p, field, operator, value) && AsksFor(p, field, operator, value, m) && m.Compare?
    ensures Accepts(p, field, operator, value) && m == Said(p, field, operator, value)
  {
    ComparatorSpelt(operator, m.cmp);
    AcceptedOne(p, value);
  }

  lemma AskedCall(p: Policy, field: string, operator: string, value: GoValue, m: Meaning)
    requires Validated(p, field, operator, value) && AsksFor(p, field, operator, value, m) && m.Call?
    ensures Accepts(p, field, operator, value) && m == Said(p, field, operator, value)
  {
    CallSpelt(operator);
    AcceptedOne(p, value);
  }

  /** What is asked for is accepted and is what the builder says. */
  lemma AskedIsSaid(p: Policy, field: string, operator: string, value: GoValue, m: Meaning)
    requires Validated(p, field, operator, value) && AsksFor(p, field, operator, value, m)
    ensures Accepts(p, field, operator, value) && m == Said(p, field, operator, value)
  {
    if m.Between? || m.In? {
      AskedList(p, field, operator, value, m);
    } else if m.Compare? {
      AskedComparison(p, field, operator, value, m);
    } else {
      AskedCall(p, field, operator, value, m);
    }
  }

  /** What the builder accepts was asked for. */
  lemma SaidIsAsked(p: Policy, field: string, operator: string, value: GoValue)
    requires Accepts(p, field, operator, value)
    ensures AsksFor(p, field, operator, value, Said(p, field, operator, value))
  {
    match OpOf(operator).value
    case Cmp(c) =>
      ComparatorSpelt(operator, c);
      AcceptedOne(p, value);
    case BetweenOp =>
      ListSpelt(operator);
      AllBound(p, value.elems);
    case InOp =>
      ListSpelt(operator);
      AllBound(p, value.elems);
    case _ =>
      CallSpelt(operator);
      AcceptedOne(p, value);
  }

  /**
   For every operator spelling and value that pass validation: the builder accepts the condition exactly when the
   spelling and the value ask for one, and the condition it is then said to be is that one and no other.
   */
  lemma SaidExactly(p: Policy, field: string, operator: string, value: GoValue)
    requires Validated(p, field, operator, value)
    ensures Accepts(p, field, operator, value) <==> exists m :: AsksFor(p, field, operator, value, m)
    ensures forall m :: AsksFor(p, field, operator, value, m) <==>
                        Accepts(p, field, operator, value) && m == Said(p, field, operator, value)
  {
    forall m | AsksFor(p, field, operator, value, m)
      ensures Accepts(p, field, operator, value) && m == Said(p, field, operator, value)
    {
      AskedIsSaid(p, field, operator, value, m);
    }
    if Accepts(p, field, operator, value) {
      SaidIsAsked(p, field, operator, value);
    }
  }

  lemma AskedReadable(p: Policy, field: string, operator: string, value: GoValue, m: Meaning)
    requires Validated(p, field, operator, value) && AsksFor(p, field, operator, value, m)
    requires m.In? ==> m.choices != []
    ensures Readable(operator, value)
  {
    AskedIsSaid(p, field, operator, value, m);
    ListSpelt(operator);
  }

  /** The text printed for a clear field is read by the service as the condition asked for. */
  lemma TextAsAsked(
    p: Policy, s: Naming, field: string, operator: string, value: GoValue, s': Naming, ref: string, values: Values,
    counter: nat, m: Meaning)
    requires WellNamed(s) && Named(p, s, field, s', ref) && Clear(p, s.names, field) && WellValued(values, counter)
    requires Validated(p, field, operator, value) && AsksFor(p, field, operator, value, m)
    requires m.In? ==> m.choices != []
    ensures Accepts(p, field, operator, value)
    ensures DenotesAtom(BuiltText(p, field, operator, value, counter, ref), s'.names,
                        BindAll(values, counter, Bound(p, operator, value)), m)
  {
    AskedIsSaid(p, field, operator, value, m);
    AskedReadable(p, field, operator, value, m);
    SaidAtom(p, s, field, operator, value, s', ref, values, counter);
  }
}
