/**
 What the service accepts as a key condition, one equality on the partition key and at most one comparison on the sort
 key, and as the filter of a query, which reaches no key attribute (pkg/query/query.go splits the Where conditions).
 */
module KeyConditions {
  import opened Text
  import opened Attributes
  import opened ConditionGrammar
  import opened ConditionMeaning
  import opened ConditionPrinter
  import opened ExprBuilder
  import opened Placeholders

  /** The attributes an index, or the table, is keyed by; an index without a sort key has none. */
  datatype Schema = Schema(partition: string, sort: Option<string>)

  predicate FixesKey(m: Meaning, key: string) {
    m.Compare? && m.cmp == EQ && m.left == FieldPath(key) && m.right.Value?
  }

  predicate BoundsKey(m: Meaning, key: string) {
    match m
    case Compare(cmp, x, y) => cmp != NE && x == FieldPath(key) && y.Value?
    case Between(x, lo, hi) => x == FieldPath(key) && lo.Value? && hi.Value?
    case Call(fn, xs) => fn == "begins_with" && |xs| == 2 && xs[0] == FieldPath(key) && xs[1].Value?
    case _ => false
  }

  predicate BoundsSort(m: Meaning, s: Schema) {
    s.sort.Some? && BoundsKey(m, s.sort.value)
  }

  predicate LegalKey(m: Meaning, s: Schema) {
    || FixesKey(m, s.partition)
    || (m.And? && FixesKey(m.l, s.partition) && BoundsSort(m.r, s))
    || (m.And? && BoundsSort(m.l, s) && FixesKey(m.r, s.partition))
  }

  /** The text is a key condition the service accepts for these keys. */
  ghost predicate LegalKeyText(text: string, names: Names, values: Values, s: Schema) {
    exists m :: Denotes(text, names, values, m) && LegalKey(m, s)
  }

  /** The term starts at a key attribute. */
  predicate OfKey(t: Term, s: Schema) {
    && (t.Path? || t.SizeOf?)
    && t.steps != [] && (t.steps[0].name == s.partition || s.sort == Some(t.steps[0].name))
  }

  predicate AnyOfKey(xs: seq<Term>, s: Schema) {
    exists i :: 0 <= i < |xs| && OfKey(xs[i], s)
  }

  /** The condition reaches a key attribute. */
  predicate ReachesKey(m: Meaning, s: Schema) {
    match m
    case Compare(_, x, y) => OfKey(x, s) || OfKey(y, s)
    case Between(x, lo, hi) => OfKey(x, s) || OfKey(lo, s) || OfKey(hi, s)
    case In(x, xs) => OfKey(x, s) || AnyOfKey(xs, s)
    case Call(_, xs) => AnyOfKey(xs, s)
    case Not(a) => ReachesKey(a, s)
    case And(a, b) => ReachesKey(a, s) || ReachesKey(b, s)
    case Or(a, b) => ReachesKey(a, s) || ReachesKey(b, s)
  }

  predicate NoneReach(ms: seq<Meaning>, s: Schema) {
    forall i :: 0 <= i < |ms| ==> !ReachesKey(ms[i], s)
  }

  /** The text is a filter the service accepts in a query over these keys. */
  ghost predicate LegalFilterText(text: string, names: Names, values: Values, s: Schema) {
    text == "" || exists m :: Denotes(text, names, values, m) && !ReachesKey(m, s)
  }

  // ---- From the emitted run of conditions to its members ----

  lemma {:induction false} FlatReaches(ms: seq<Meaning>, ops: seq<Junction>, s: Schema)
    requires |ms| == |ops| + 1
    ensures ReachesKey(FlatTree(ms, ops), s) <==> !NoneReach(ms, s)
  {
    assert NoneReach(ms, s) <==> !ReachesKey(ms[0], s) && NoneReach(ms[1..], s) by {
      assert ms == [ms[0]] + ms[1..];
    }
    if ops != [] {
      FlatReaches(ms[1..], ops[1..], s);
    }
  }

  /** The text emitted for a run of filters is accepted exactly when none of them reaches a key attribute. */
  lemma FilterEmitted(text: string, names: Names, values: Values, ms: seq<Meaning>, ops: seq<Junction>, s: Schema)
    requires (|ops| == if ms == [] then 0 else |ms| - 1) && Emitted(text, names, values, ms, ops)
    ensures LegalFilterText(text, names, values, s) <==> NoneReach(ms, s)
  {
    if ms != [] {
      var tree := FlatTree(ms, ops);
      FlatReaches(ms, ops, s);
      if m :| Denotes(text, names, values, m) && !ReachesKey(m, s) {
        DenotesUnique(text, names, values, m, tree);
      }
    }
  }

  predicate LegalRun(ms: seq<Meaning>, s: Schema) {
    || (|ms| == 1 && FixesKey(ms[0], s.partition))
    || (|ms| == 2 && FixesKey(ms[0], s.partition) && BoundsSort(ms[1], s))
    || (|ms| == 2 && BoundsSort(ms[0], s) && FixesKey(ms[1], s.partition))
  }

  lemma AndRun(ms: seq<Meaning>)
    requires |ms| >= 2
    ensures FlatTree(ms, AllAnd(|ms| - 1)) == And(ms[0], FlatTree(ms[1..], AllAnd(|ms| - 2)))
  {
    assert AllAnd(|ms| - 1)[1..] == AllAnd(|ms| - 2);
  }

  lemma TreeShape(ms: seq<Meaning>)
    requires ms != []
    ensures var tree := FlatTree(ms, AllAnd(|ms| - 1));
            && (|ms| == 1 ==> tree == ms[0])
            && (|ms| == 2 ==> tree == And(ms[0], ms[1]))
            && (|ms| >= 3 ==> tree.And? && tree.l == ms[0] && tree.r.And?)
  {
    if |ms| >= 2 {
      AndRun(ms);
      if |ms| >= 3 {
        AndRun(ms[1..]);
      }
    }
  }

  lemma LegalTree(ms: seq<Meaning>, tree: Meaning, s: Schema)
    requires ms != [] && (forall i :: 0 <= i < |ms| ==> !ms[i].And?) && tree == FlatTree(ms, AllAnd(|ms| - 1))
    ensures LegalKey(tree, s) <==> LegalRun(ms, s)
  {
    TreeShape(ms);
  }

  /** The text emitted for a run of conditions is a legal key condition exactly when the run is one. */
  lemma LegalEmitted(text: string, names: Names, values: Values, ms: seq<Meaning>, s: Schema)
    requires Emitted(text, names, values, ms, KeyOps(|ms|)) && forall i :: 0 <= i < |ms| ==> !ms[i].And?
    ensures LegalKeyText(text, names, values, s) <==> LegalRun(ms, s)
  {
    if ms == [] {
      if m :| Denotes(text, names, values, m) && LegalKey(m, s) {
        DenotesNonempty(text, names, values, m);
      }
    } else {
      var tree := FlatTree(ms, AllAnd(|ms| - 1));
      LegalTree(ms, tree, s);
      if m :| Denotes(text, names, values, m) && LegalKey(m, s) {
        DenotesUnique(text, names, values, m, tree);
      }
    }
  }

  // ---- From what a condition says to what it was built from ----

  lemma JoinFirst(part: string, rest: seq<string>, sep: string)
    requires rest != []
    ensures Join([part] + rest, sep) == part + sep + Join(rest, sep)
  {
    assert ([part] + rest)[1..] == rest;
  }

  lemma {:induction false} JoinSplit(s: string, c: char)
    ensures Join(Split(s, c), [c]) == s
    decreases |s|
  {
    var n := Span(s, d => d != c);
    if n < |s| {
      JoinSplit(s[n + 1..], c);
      assert s == s[..n] + [c] + s[n + 1..];
      assert Split(s, c) == [s[..n]] + Split(s[n + 1..], c);
      JoinFirst(s[..n], Split(s[n + 1..], c), [c]);
    }
  }

  lemma FieldStepWhole(part: string)
    ensures part == FieldStep(part).name + FieldStep(part).indexes
  {
  }

  lemma FieldPathInjective(a: string, b: string)
    requires FieldPath(a) == FieldPath(b)
    ensures a == b
  {
    var xs, ys := Split(a, '.'), Split(b, '.');
    assert |Steps(xs)| == |Steps(ys)|;
    forall i | 0 <= i < |xs| ensures xs[i] == ys[i] {
      assert Steps(xs)[i] == Steps(ys)[i];
      FieldStepWhole(xs[i]);
      FieldStepWhole(ys[i]);
    }
    assert xs == ys;
    JoinSplit(a, '.');
    JoinSplit(b, '.');
  }

  /** The comparisons a sort key may be bounded by. */
  predicate BoundingOp(op: Op) {
    match op
    case Cmp(c) => c != NE
    case BetweenOp => true
    case BeginsWith => true
    case _ => false
  }

  lemma SaidShape(p: Policy, field: string, operator: string, value: GoValue, key: string)
    requires Accepts(p, field, operator, value)
    ensures FixesKey(Said(p, field, operator, value), key) <==> field == key && OpOf(operator) == Some(Cmp(EQ))
    ensures BoundsKey(Said(p, field, operator, value), key) <==> field == key && BoundingOp(OpOf(operator).value)
    ensures !Said(p, field, operator, value).And?
  {
    AcceptedArity(p, field, operator, value);
    if FieldPath(field) == FieldPath(key) {
      FieldPathInjective(field, key);
    }
    assert "contains" != "begins_with" && "attribute_exists" != "begins_with";
    assert "attribute_not_exists" != "begins_with";
  }

  /** The field starts at a key attribute. */
  predicate InKey(field: string, s: Schema) {
    Head(field) == s.partition || s.sort == Some(Head(field))
  }

  /** A condition on one term and values reaches a key attribute exactly when the term does. */
  lemma ConditionReaches(op: Op, x: Term, ts: seq<Term>, s: Schema)
    requires Arity(op, |ts|) && forall i :: 0 <= i < |ts| ==> !OfKey(ts[i], s)
    ensures ReachesKey(Condition(op, x, ts), s) <==> OfKey(x, s)
  {
    match op
    case Cmp(_) =>
    case BetweenOp =>
    case InOp =>
    case BeginsWith => assert [x, ts[0]][0] == x;
    case Contains => assert [x, ts[0]][0] == x;
    case _ => assert [x][0] == x;
  }

  lemma SaidReaches(p: Policy, field: string, operator: string, value: GoValue, s: Schema)
    requires Accepts(p, field, operator, value)
    ensures ReachesKey(Said(p, field, operator, value), s) <==> InKey(field, s)
  {
    AcceptedArity(p, field, operator, value);
    assert Steps(Split(field, '.'))[0] == FieldStep(Split(field, '.')[0]);
    ConditionReaches(OpOf(operator).value, FieldPath(field), ValueTerms(Bound(p, operator, value)), s);
  }
}
