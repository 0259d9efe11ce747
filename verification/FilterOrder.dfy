/** Exactly when AND conditions placed behind a flat filter keep the meaning the caller gave them. */
module FilterOrder {
  import opened ConditionMeaning

  predicate AllTrue(bs: seq<bool>) {
    forall i :: 0 <= i < |bs| ==> bs[i]
  }

  /** With these truth values, the compiled filter agrees with "the filters, and every condition behind them". */
  ghost predicate AgreesOn(bs: seq<bool>, ops: seq<Junction>, ws: seq<bool>)
    requires |bs| == |ops| + 1
  {
    SomeRunHolds(bs + ws, ops + AllAnd(|ws|)) <==> SomeRunHolds(bs, ops) && AllTrue(ws)
  }

  lemma NoOrsConjunction(bs: seq<bool>, ops: seq<Junction>)
    requires |bs| == |ops| + 1 && OR !in ops
    ensures SomeRunHolds(bs, ops) <==> AllTrue(bs)
  {
    RunEndOr(ops);
    RunsSplit(bs, ops);
  }

  lemma AllTrueCat(a: seq<bool>, b: seq<bool>)
    ensures AllTrue(a + b) <==> AllTrue(a) && AllTrue(b)
  {
    if AllTrue(a + b) {
      forall i | 0 <= i < |a| ensures a[i] { assert (a + b)[i]; }
      forall i | 0 <= i < |b| ensures b[i] { assert (a + b)[|a| + i]; }
    }
  }

  lemma AgreesWithoutOr(bs: seq<bool>, ops: seq<Junction>, ws: seq<bool>)
    requires |bs| == |ops| + 1 && (OR !in ops || ws == [])
    ensures AgreesOn(bs, ops, ws)
  {
    if ws == [] {
      assert bs + ws == bs && ops + AllAnd(0) == ops;
    } else {
      NoOrsConjunction(bs, ops);
      NoOrsConjunction(bs + ws, ops + AllAnd(|ws|));
      AllTrueCat(bs, ws);
    }
  }

  /** The run in front of the first OR holds and nothing else does: the conditions behind the filter are ignored. */
  lemma DisagreesWithOr(ops: seq<Junction>, n: nat) returns (bs: seq<bool>, ws: seq<bool>)
    requires OR in ops && n > 0
    ensures |bs| == |ops| + 1 && |ws| == n && !AgreesOn(bs, ops, ws)
    ensures SomeRunHolds(bs + ws, ops + AllAnd(n)) && !AllTrue(ws)
  {
    var k := RunEnd(ops);
    RunEndOr(ops);
    bs := seq(|ops| + 1, i => i <= k);
    ws := seq(n, _ => false);
    assert IsRun(ops + AllAnd(n), 0, k);
    assert forall x :: 0 <= x <= k ==> (bs + ws)[x];
    assert !ws[0];
  }

  /**
   Conditions compiled behind a flat filter are conjoined with it, for every outcome of every condition, if and only if
   the filter has no OR or nothing was put behind it.
   */
  lemma WhereBehindFilterExact(ops: seq<Junction>, n: nat)
    ensures (forall bs, ws | |bs| == |ops| + 1 && |ws| == n :: AgreesOn(bs, ops, ws)) <==> (OR !in ops || n == 0)
  {
    if OR in ops && n > 0 {
      var bs, ws := DisagreesWithOr(ops, n);
    } else {
      forall bs, ws | |bs| == |ops| + 1 && |ws| == n ensures AgreesOn(bs, ops, ws) {
        AgreesWithoutOr(bs, ops, ws);
      }
    }
  }

  /** Otherwise the conditions bind to the last AND-run of the filter alone. */
  lemma {:induction false} BindsToLastRun(bs: seq<bool>, ops: seq<Junction>, ws: seq<bool>)
    requires |bs| == |ops| + 1
    ensures SomeRunHolds(bs + ws, ops + AllAnd(|ws|)) <==>
            exists i: nat, j: nat :: IsRun(ops, i, j) && RunTrue(bs, i, j) && (j == |ops| ==> AllTrue(ws))
  {
    var all, ops' := bs + ws, ops + AllAnd(|ws|);
    if SomeRunHolds(all, ops') {
      var i: nat, j: nat :| IsRun(ops', i, j) && forall x :: i <= x <= j ==> all[x];
      var j' := if j < |ops| then j else |ops|;
      assert i <= |ops|;
      assert forall x :: i <= x < j' ==> ops[x] == ops'[x];
      assert forall x :: i <= x <= j' ==> bs[x] == all[x];
      assert IsRun(ops, i, j') && RunTrue(bs, i, j');
      if j' == |ops| {
        assert j == |ops'|;
        forall x | 0 <= x < |ws| ensures ws[x] {
          assert all[|bs| + x];
        }
      }
    }
    if i: nat, j: nat :| IsRun(ops, i, j) && RunTrue(bs, i, j) && (j == |ops| ==> AllTrue(ws)) {
      var j' := if j < |ops| then j else |ops'|;
      forall x | i <= x <= j' ensures all[x] {
        if x >= |bs| { assert all[x] == ws[x - |bs|]; }
      }
      assert IsRun(ops', i, j');
    }
  }

  predicate RunTrue(bs: seq<bool>, i: nat, j: nat)
    requires j < |bs|
  {
    forall x :: i <= x <= j ==> bs[x]
  }
}
