/**
 Conjoining condition texts: mergeConditionExpressions (pkg/query/query.go), the same loop in
 pkg/transaction/builder.go, and the `(update) AND (query)` of pkg/query/update_builder.go.
 */
module ConditionMerge {
  import opened Text
  import opened Attributes
  import opened ConditionGrammar
  import opened ConditionMeaning

  datatype RawCondition = RawCondition(expression: string, values: map<string, GoValue>)

  function ConjoinText(a: string, b: string): string {
    if a == "" then b else if b == "" then a else "(" + a + ") AND (" + b + ")"
  }

  function MergedText(base: string, raws: seq<RawCondition>): string
    decreases |raws|
  {
    if raws == [] then base
    else
      var k := |raws| - 1;
      ConjoinText(MergedText(base, raws[..k]), raws[k].expression)
  }

  /** The placeholders of `raws[..k]`; those that come with an empty expression are dropped. */
  ghost predicate BoundBefore(raws: seq<RawCondition>, k: nat, key: string)
    requires k <= |raws|
  {
    exists i :: 0 <= i < k && raws[i].expression != "" && key in raws[i].values
  }

  /** No placeholder is used twice and every value converts. */
  ghost predicate Mergeable(base: Values, raws: seq<RawCondition>) {
    MergeableUpTo(base, raws, |raws|)
  }

  /** The bindings after the first `k` raw conditions. */
  ghost predicate MergedInto(base: Values, raws: seq<RawCondition>, k: nat, out: Values)
    requires k <= |raws|
  {
    && Extends(base, out)
    && (forall key :: key in out ==> key in base || BoundBefore(raws, k, key))
    && (forall i, key :: 0 <= i < k && raws[i].expression != "" && key in raws[i].values ==>
          key in out && Convert(raws[i].values[key]) == Ok(out[key]))
  }

  /** `values` is `before` with the keys of `given`, except the pending ones, bound to their converted values. */
  ghost predicate Binding(before: Values, given: map<string, GoValue>, pending: set<string>, values: Values) {
    && (forall key :: key in values <==> key in before || (key in given && key !in pending))
    && (forall key :: key in before ==> key in values && values[key] == before[key])
    && (forall key :: key in given && key !in pending ==>
          key in values && key !in before && Convert(given[key]) == Ok(values[key]))
  }

  lemma BindingNext(before: Values, given: map<string, GoValue>, pending: set<string>, values: Values, key: string,
      av: AttributeValue)
    requires Binding(before, given, pending, values)
    requires key in given && key in pending && key !in before && Convert(given[key]) == Ok(av)
    ensures Binding(before, given, pending - {key}, values[key := av])
  {
  }

  /** Some of the given values are bound, and nothing bound before has changed. */
  ghost predicate PartlyBound(before: Values, given: map<string, GoValue>, values: Values) {
    exists pending: set<string> :: Binding(before, given, pending, values)
  }

  /**
   Binds one raw condition's values, failing on a placeholder that is already taken; the values bound up to the failure
   stay in the map.
   */
  method BindValues(before: Values, given: map<string, GoValue>) returns (ok: bool, values: Values)
    ensures ok <==> forall key :: key in given ==> key !in before && Convert(given[key]).Ok?
    ensures ok ==> Binding(before, given, {}, values)
    ensures PartlyBound(before, given, values)
  {
    values := before;
    var pending := given.Keys;
    while pending != {}
      invariant pending <= given.Keys
      invariant Binding(before, given, pending, values)
      decreases |pending|
    {
      var key :| key in pending;
      if key in values {
        return false, values;
      }
      var converted := Convert(given[key]);
      if converted.Err? {
        return false, values;
      }
      BindingNext(before, given, pending, values, key, converted.value);
      values := values[key := converted.value];
      pending := pending - {key};
    }
    ok := true;
  }

  /** The part of `Mergeable` that concerns the first `k` raw conditions. */
  ghost predicate MergeableUpTo(base: Values, raws: seq<RawCondition>, k: nat)
    requires k <= |raws|
  {
    forall i :: 0 <= i < k ==> MergeableAt(base, raws, i)
  }

  ghost predicate MergeableAt(base: Values, raws: seq<RawCondition>, i: nat)
    requires i < |raws|
  {
    raws[i].expression != "" ==>
      forall key :: key in raws[i].values ==>
        Convert(raws[i].values[key]).Ok? && key !in base && !BoundBefore(raws, i, key)
  }

  lemma BoundNext(raws: seq<RawCondition>, n: nat, key: string)
    requires n < |raws|
    ensures BoundBefore(raws, n + 1, key) <==>
            BoundBefore(raws, n, key) || (raws[n].expression != "" && key in raws[n].values)
  {
  }

  lemma MergedNext(base: Values, raws: seq<RawCondition>, n: nat, before: Values, values: Values)
    requires n < |raws| && MergedInto(base, raws, n, before)
    requires if raws[n].expression == "" then values == before else Binding(before, raws[n].values, {}, values)
    ensures MergedInto(base, raws, n + 1, values)
  {
    forall key | key in values ensures key in base || BoundBefore(raws, n + 1, key) {
      BoundNext(raws, n, key);
    }
  }

  lemma MergeableNext(base: Values, raws: seq<RawCondition>, n: nat, before: Values)
    requires n < |raws| && MergedInto(base, raws, n, before) && raws[n].expression != ""
    ensures MergeableAt(base, raws, n) <==>
            forall key :: key in raws[n].values ==> key !in before && Convert(raws[n].values[key]).Ok?
  {
  }

  /**
   The source writes the values into the map it is given: `values` is that map after the call. After a failure it holds
   what was bound up to then, with every earlier value as it was.
   */
  method MergeConditionExpressions(baseExpr: string, baseValues: Values, raws: seq<RawCondition>)
    returns (ok: bool, text: string, values: Values)
    ensures Extends(baseValues, values)
    ensures ok <==> Mergeable(baseValues, raws)
    ensures ok ==> text == MergedText(baseExpr, raws) && MergedInto(baseValues, raws, |raws|, values)
  {
    text, values := baseExpr, baseValues;
    var n := 0;
    while n < |raws|
      invariant 0 <= n <= |raws|
      invariant text == MergedText(baseExpr, raws[..n])
      invariant MergedInto(baseValues, raws, n, values)
      invariant MergeableUpTo(baseValues, raws, n)
    {
      var raw := raws[n];
      assert raws[..n + 1][..n] == raws[..n];
      ghost var before := values;
      if raw.expression != "" {
        text := if text == "" then raw.expression else "(" + text + ") AND (" + raw.expression + ")";
        var bound, values' := BindValues(values, raw.values);
        MergeableNext(baseValues, raws, n, before);
        if !bound {
          assert !MergeableAt(baseValues, raws, n);
          return false, "", values';
        }
        values := values';
      }
      MergedNext(baseValues, raws, n, before, values);
      n := n + 1;
    }
    assert raws[..n] == raws;
    ok := true;
  }

  // ---- What the merged text means ----

  lemma ConjoinDenotes(a: string, b: string, names: Names, values: Values, m: Meaning, m': Meaning)
    requires a != "" && b != ""
    requires Denotes(a, names, values, m) && Denotes(b, names, values, m')
    ensures Denotes(ConjoinText(a, b), names, values, And(m, m'))
  {
    ParenthesisedAtom(a, names, values, m);
    ParenthesisedAtom(b, names, values, m');
    var conds, ops, ms := ["(" + a + ")", "(" + b + ")"], [ConditionMeaning.AND], [m, m'];
    FlatParses(conds, ops, names, values, ms);
    assert ops[1..] == [] && ms[1..] == [m'];
    assert FlatTree(ms, ops) == And(m, m');
    ConjoinIsFlat(a, b);
  }

  lemma ConjoinIsFlat(a: string, b: string)
    requires a != "" && b != ""
    ensures FlatText(["(" + a + ")", "(" + b + ")"], [ConditionMeaning.AND]) == ConjoinText(a, b)
  {
    var conds, ops := ["(" + a + ")", "(" + b + ")"], [ConditionMeaning.AND];
    assert conds[1..] == ["(" + b + ")"] && ops[1..] == [];
    assert FlatText(conds[1..], ops[1..]) == "(" + b + ")";
    assert ") AND (" == ")" + " " + "AND" + " " + "(";
  }

  function ConjoinMeaning(base: Meaning, ms: seq<Meaning>): Meaning
    decreases |ms|
  {
    if ms == [] then base else And(ConjoinMeaning(base, ms[..|ms| - 1]), ms[|ms| - 1])
  }

  lemma {:induction false} ConjoinMeaningEval(base: Meaning, ms: seq<Meaning>, holds: Meaning -> bool)
    ensures Eval(ConjoinMeaning(base, ms), holds) <==>
            Eval(base, holds) && forall i :: 0 <= i < |ms| ==> Eval(ms[i], holds)
    decreases |ms|
  {
    if ms != [] {
      var k := |ms| - 1;
      ConjoinMeaningEval(base, ms[..k], holds);
      assert forall i :: 0 <= i < k ==> ms[..k][i] == ms[i];
    }
  }

  lemma {:induction false} MergedDenotes(
    base: string, raws: seq<RawCondition>, names: Names, values: Values, m: Meaning, ms: seq<Meaning>)
    requires |ms| == |raws| && base != "" && Denotes(base, names, values, m)
    requires forall i :: 0 <= i < |raws| ==>
               raws[i].expression != "" && Denotes(raws[i].expression, names, values, ms[i])
    ensures MergedText(base, raws) != ""
    ensures Denotes(MergedText(base, raws), names, values, ConjoinMeaning(m, ms))
    decreases |raws|
  {
    if raws != [] {
      var k := |raws| - 1;
      forall i | 0 <= i < k
        ensures raws[..k][i].expression != "" && Denotes(raws[..k][i].expression, names, values, ms[..k][i])
      {
        assert Denotes(raws[i].expression, names, values, ms[i]);
      }
      MergedDenotes(base, raws[..k], names, values, m, ms[..k]);
      assert Denotes(raws[k].expression, names, values, ms[k]);
      ConjoinDenotes(MergedText(base, raws[..k]), raws[k].expression, names, values, ConjoinMeaning(m, ms[..k]), ms[k]);
    }
  }

  /**
   Whatever raw conditions are merged onto a base condition, top-level ORs in either included, the service
   accepts an item exactly when the base holds under its own bindings and so does every raw condition.
   */
  lemma MergeKeepsGuard(
    base: string, baseValues: Values, raws: seq<RawCondition>, names: Names, values: Values,
    m: Meaning, ms: seq<Meaning>, holds: Meaning -> bool)
    requires MergedInto(baseValues, raws, |raws|, values)
    requires base != "" && Denotes(base, names, baseValues, m) && Closed(m)
    requires |ms| == |raws|
    requires forall i :: 0 <= i < |raws| ==>
               raws[i].expression != "" && Denotes(raws[i].expression, names, values, ms[i])
    ensures exists merged ::
              && Denotes(MergedText(base, raws), names, values, merged)
              && (Eval(merged, holds) <==>
                  Eval(m, holds) && forall i :: 0 <= i < |ms| ==> Eval(ms[i], holds))
  {
    DenotesKept(base, names, baseValues, names, values, m);
    MergedDenotes(base, raws, names, values, m, ms);
    ConjoinMeaningEval(m, ms, holds);
  }

  /** Without a base, the first raw condition takes its place. */
  lemma MergeWithoutBase(raws: seq<RawCondition>)
    requires raws != [] && raws[0].expression != ""
    ensures MergedText("", raws) == MergedText(raws[0].expression, raws[1..])
    decreases |raws|
  {
    var k := |raws| - 1;
    if k == 0 {
      assert raws[..0] == [];
    } else {
      MergeWithoutBase(raws[..k]);
      assert raws[..k][1..] == raws[1..][..k - 1] && raws[1..][k - 1] == raws[k];
    }
  }

  // ---- Truth of merged text ----

  /** Conjoining texts conjoins what they say, whichever of them is absent. */
  lemma ConjoinHolds(a: string, b: string, names: Names, values: Values, holds: Meaning -> bool)
    requires Means(a, names, values) && Means(b, names, values)
    ensures Means(ConjoinText(a, b), names, values)
    ensures TextHolds(ConjoinText(a, b), names, values, holds) <==>
            TextHolds(a, names, values, holds) && TextHolds(b, names, values, holds)
  {
    if a != "" && b != "" {
      var m :| Denotes(a, names, values, m);
      var m' :| Denotes(b, names, values, m');
      ConjoinDenotes(a, b, names, values, m, m');
      OneTruth(a, names, values, m, holds);
      OneTruth(b, names, values, m', holds);
      OneTruth(ConjoinText(a, b), names, values, And(m, m'), holds);
    }
  }

  lemma OneTruth(text: string, names: Names, values: Values, m: Meaning, holds: Meaning -> bool)
    requires text != "" && Denotes(text, names, values, m)
    ensures TextHolds(text, names, values, holds) <==> Eval(m, holds)
  {
    if TextHolds(text, names, values, holds) {
      var m' :| Denotes(text, names, values, m') && Eval(m', holds);
      DenotesUnique(text, names, values, m, m');
    }
  }

  ghost predicate RawsMean(raws: seq<RawCondition>, names: Names, values: Values) {
    forall i :: 0 <= i < |raws| ==> Means(raws[i].expression, names, values)
  }

  ghost predicate RawsHold(raws: seq<RawCondition>, names: Names, values: Values, holds: Meaning -> bool) {
    forall i :: 0 <= i < |raws| ==> TextHolds(raws[i].expression, names, values, holds)
  }

  /** The merged text holds exactly when the base, if there is one, and every raw condition hold. */
  lemma {:induction false} MergedHolds(base: string, raws: seq<RawCondition>, names: Names, values: Values,
      holds: Meaning -> bool)
    requires Means(base, names, values) && RawsMean(raws, names, values)
    ensures Means(MergedText(base, raws), names, values)
    ensures TextHolds(MergedText(base, raws), names, values, holds) <==>
            TextHolds(base, names, values, holds) && RawsHold(raws, names, values, holds)
    decreases |raws|
  {
    if raws != [] {
      var k := |raws| - 1;
      forall i | 0 <= i < k ensures Means(raws[..k][i].expression, names, values) {
        assert Means(raws[i].expression, names, values);
      }
      MergedHolds(base, raws[..k], names, values, holds);
      ConjoinHolds(MergedText(base, raws[..k]), raws[k].expression, names, values, holds);
      assert RawsHold(raws, names, values, holds) <==>
             RawsHold(raws[..k], names, values, holds) && TextHolds(raws[k].expression, names, values, holds) by {
        if RawsHold(raws[..k], names, values, holds) && TextHolds(raws[k].expression, names, values, holds) {
          forall i | 0 <= i < |raws| ensures TextHolds(raws[i].expression, names, values, holds) {
            if i < k { assert TextHolds(raws[..k][i].expression, names, values, holds); }
          }
        }
        if RawsHold(raws, names, values, holds) {
          forall i | 0 <= i < k ensures TextHolds(raws[..k][i].expression, names, values, holds) {
            assert TextHolds(raws[i].expression, names, values, holds);
          }
        }
      }
    }
  }
}
