/** What a parsed condition says about an item, once its placeholders are looked up. */
module ConditionMeaning {
  import opened Text
  import opened Attributes
  import opened ConditionGrammar

  /** One step of a document path: an attribute name and the list indexes written after it. */
  datatype Step = Step(name: string, indexes: string)

  datatype Term =
    | Path(steps: seq<Step>)
    | SizeOf(steps: seq<Step>)
    | Value(value: AttributeValue)
    | Unbound

  type Meaning = Expr<Term>

  function ResolveStep(part: string, names: Names): Option<Step> {
    var n := Span(part, c => c != '[');
    if part == "" || part[0] != '#' then Some(Step(part[..n], part[n..]))
    else if part[..n] in names then Some(Step(names[part[..n]], part[n..]))
    else None
  }

  function ResolveSteps(parts: seq<string>, names: Names): Option<seq<Step>> {
    if parts == [] then Some([])
    else
      match (ResolveStep(parts[0], names), ResolveSteps(parts[1..], names))
      case (Some(step), Some(steps)) => Some([step] + steps)
      case _ => None
  }

  function ResolvePath(w: string, names: Names): Option<seq<Step>> {
    ResolveSteps(Split(w, '.'), names)
  }

  function ResolveOperand(x: Operand, names: Names, values: Values): Term {
    match x
    case Size(w) =>
      (match ResolvePath(w, names)
       case Some(steps) => SizeOf(steps)
       case None => Unbound)
    case Ref(w) =>
      if w != "" && w[0] == ':' then
        if w in values then Value(values[w]) else Unbound
      else
        match ResolvePath(w, names)
        case Some(steps) => Path(steps)
        case None => Unbound
  }

  function ResolveOperands(xs: seq<Operand>, names: Names, values: Values): (ts: seq<Term>)
    ensures |ts| == |xs|
    ensures forall i :: 0 <= i < |xs| ==> ts[i] == ResolveOperand(xs[i], names, values)
  {
    seq(|xs|, i requires 0 <= i < |xs| => ResolveOperand(xs[i], names, values))
  }

  function Resolve(e: Syntax, names: Names, values: Values): Meaning {
    match e
    case Compare(c, x, y) => Compare(c, ResolveOperand(x, names, values), ResolveOperand(y, names, values))
    case Between(x, lo, hi) =>
      Between(ResolveOperand(x, names, values), ResolveOperand(lo, names, values), ResolveOperand(hi, names, values))
    case In(x, xs) => In(ResolveOperand(x, names, values), ResolveOperands(xs, names, values))
    case Call(f, xs) => Call(f, ResolveOperands(xs, names, values))
    case Not(a) => Not(Resolve(a, names, values))
    case And(a, b) => And(Resolve(a, names, values), Resolve(b, names, values))
    case Or(a, b) => Or(Resolve(a, names, values), Resolve(b, names, values))
  }

  /** Every placeholder of the condition is bound. */
  predicate Closed(m: Meaning) {
    match m
    case Compare(_, x, y) => x != Unbound && y != Unbound
    case Between(x, lo, hi) => x != Unbound && lo != Unbound && hi != Unbound
    case In(x, xs) => x != Unbound && Unbound !in xs
    case Call(_, xs) => Unbound !in xs
    case Not(a) => Closed(a)
    case And(a, b) => Closed(a) && Closed(b)
    case Or(a, b) => Closed(a) && Closed(b)
  }

  /** Truth of a condition on an item, where `holds` is the service's answer for each comparison and function. */
  predicate Eval(m: Meaning, holds: Meaning -> bool) {
    match m
    case Not(a) => !Eval(a, holds)
    case And(a, b) => Eval(a, holds) && Eval(b, holds)
    case Or(a, b) => Eval(a, holds) || Eval(b, holds)
    case _ => holds(m)
  }

  /** The text is one well-formed condition, and under these bindings it means `m`. */
  ghost predicate Denotes(text: string, names: Names, values: Values, m: Meaning) {
    exists e :: ParsesTo(text, e) && Resolve(e, names, values) == m
  }

  /** A text that keeps its meaning next to AND and OR: one comparison, function call or parenthesised group. */
  ghost predicate DenotesAtom(text: string, names: Names, values: Values, m: Meaning) {
    exists e :: ReadsAtom(text, e) && Resolve(e, names, values) == m
  }

  ghost predicate ReadsAtom(text: string, e: Syntax) {
    ParseNot(Lex(text)) == Done(e, [])
  }

  lemma AtomIsText(text: string, names: Names, values: Values, m: Meaning)
    requires DenotesAtom(text, names, values, m)
    ensures Denotes(text, names, values, m)
  {
    var e :| ReadsAtom(text, e) && Resolve(e, names, values) == m;
    assert ParsesTo(text, e);
  }

  /** A text has one meaning. */
  lemma DenotesUnique(text: string, names: Names, values: Values, m: Meaning, m': Meaning)
    requires Denotes(text, names, values, m) && Denotes(text, names, values, m')
    ensures m == m'
  {
    var e :| ParsesTo(text, e) && Resolve(e, names, values) == m;
    var e' :| ParsesTo(text, e') && Resolve(e', names, values) == m';
  }

  /** The truth of an expression text on an item; an absent expression excludes nothing. */
  ghost predicate TextHolds(text: string, names: Names, values: Values, holds: Meaning -> bool) {
    text == "" || exists m :: Denotes(text, names, values, m) && Eval(m, holds)
  }

  /** The text is absent or well formed. */
  ghost predicate Means(text: string, names: Names, values: Values) {
    text == "" || exists m :: Denotes(text, names, values, m)
  }

  // ---- Later bindings leave earlier text alone as long as nothing it uses is rebound ----

  /** `b` binds everything `a` does, to the same thing. */
  ghost predicate Extends<T(!new)>(a: map<string, T>, b: map<string, T>) {
    forall k :: k in a ==> k in b && b[k] == a[k]
  }

  lemma {:induction false} ResolveStepsKept(parts: seq<string>, names: Names, names': Names)
    requires Extends(names, names') && ResolveSteps(parts, names).Some?
    ensures ResolveSteps(parts, names') == ResolveSteps(parts, names)
  {
    if parts != [] {
      ResolveStepsKept(parts[1..], names, names');
    }
  }

  lemma ResolveOperandKept(x: Operand, names: Names, values: Values, names': Names, values': Values)
    requires Extends(names, names') && Extends(values, values')
    requires ResolveOperand(x, names, values) != Unbound
    ensures ResolveOperand(x, names', values') == ResolveOperand(x, names, values)
  {
    if ResolvePath(x.name, names).Some? {
      ResolveStepsKept(Split(x.name, '.'), names, names');
    }
  }

  lemma ResolveOperandsKept(xs: seq<Operand>, names: Names, values: Values, names': Names, values': Values)
    requires Extends(names, names') && Extends(values, values')
    requires Unbound !in ResolveOperands(xs, names, values)
    ensures ResolveOperands(xs, names', values') == ResolveOperands(xs, names, values)
  {
    forall i | 0 <= i < |xs|
      ensures ResolveOperand(xs[i], names', values') == ResolveOperand(xs[i], names, values)
    {
      assert ResolveOperands(xs, names, values)[i] != Unbound;
      ResolveOperandKept(xs[i], names, values, names', values');
    }
  }

  lemma {:induction false} ResolveKept(e: Syntax, names: Names, values: Values, names': Names, values': Values)
    requires Extends(names, names') && Extends(values, values')
    requires Closed(Resolve(e, names, values))
    ensures Resolve(e, names', values') == Resolve(e, names, values)
  {
    match e
    case Compare(_, x, y) =>
      ResolveOperandKept(x, names, values, names', values');
      ResolveOperandKept(y, names, values, names', values');
    case Between(x, lo, hi) =>
      ResolveOperandKept(x, names, values, names', values');
      ResolveOperandKept(lo, names, values, names', values');
      ResolveOperandKept(hi, names, values, names', values');
    case In(x, xs) =>
      ResolveOperandKept(x, names, values, names', values');
      ResolveOperandsKept(xs, names, values, names', values');
    case Call(_, xs) => ResolveOperandsKept(xs, names, values, names', values');
    case Not(a) => ResolveKept(a, names, values, names', values');
    case And(a, b) =>
      ResolveKept(a, names, values, names', values');
      ResolveKept(b, names, values, names', values');
    case Or(a, b) =>
      ResolveKept(a, names, values, names', values');
      ResolveKept(b, names, values, names', values');
  }

  lemma DenotesKept(text: string, names: Names, values: Values, names': Names, values': Values, m: Meaning)
    requires Extends(names, names') && Extends(values, values') && Closed(m)
    ensures Denotes(text, names, values, m) ==> Denotes(text, names', values', m)
    ensures DenotesAtom(text, names, values, m) ==> DenotesAtom(text, names', values', m)
  {
    if Denotes(text, names, values, m) {
      var e :| ParsesTo(text, e) && Resolve(e, names, values) == m;
      ResolveKept(e, names, values, names', values');
    }
    if DenotesAtom(text, names, values, m) {
      var e :| ReadsAtom(text, e) && Resolve(e, names, values) == m;
      ResolveKept(e, names, values, names', values');
    }
  }

  // ---- Parentheses ----

  lemma LexParens(text: string)
    ensures Lex("(" + text + ")") == ["("] + Lex(text) + [")"]
  {
    LexCat("(" + text, ")");
    LexCat("(", text);
    assert "("[..1] == "(" && "("[1..] == "" && ")"[..1] == ")" && ")"[1..] == "";
  }

  lemma ParenthesisedAtom(text: string, names: Names, values: Values, m: Meaning)
    requires Denotes(text, names, values, m)
    ensures DenotesAtom("(" + text + ")", names, values, m)
  {
    var e :| ParsesTo(text, e) && Resolve(e, names, values) == m;
    LexParens(text);
    var toks := ["("] + Lex(text) + [")"];
    assert toks[1..] == Lex(text) + [")"];
    OrThen(Lex(text), [")"]);
    assert [] + [")"] == [")"];
    assert ParsePrimary(toks) == Done(e, []);
    assert ReadsAtom("(" + text + ")", e);
  }

  // ---- A flat run of conditions joined by AND and OR ----

  datatype Junction = AND | OR

  function AllAnd(n: nat): (ops: seq<Junction>)
    ensures |ops| == n && OR !in ops
  {
    seq(n, _ => AND)
  }

  function JunctionText(j: Junction): string {
    if j == AND then "AND" else "OR"
  }

  /** `c0 op0 c1 op1 c2 ...`, with a space on either side of each operator. */
  function FlatText(conds: seq<string>, ops: seq<Junction>): string
    requires |conds| == |ops| + 1
  {
    if ops == [] then conds[0]
    else conds[0] + " " + JunctionText(ops[0]) + " " + FlatText(conds[1..], ops[1..])
  }

  /** The tree the grammar gives a flat run: each AND joins the run to its right, each OR starts a new one. */
  function FlatTree<A>(ms: seq<Expr<A>>, ops: seq<Junction>): (m: Expr<A>)
    requires |ms| == |ops| + 1
    ensures OR in ops ==> m.Or?
  {
    if ops == [] then ms[0]
    else
      var rest := FlatTree(ms[1..], ops[1..]);
      if ops[0] == OR then Or(ms[0], rest)
      else if OR in ops[1..] then Or(And(ms[0], rest.l), rest.r)
      else And(ms[0], rest)
  }

  /** Where the leading run of ANDs stops. */
  function RunEnd(ops: seq<Junction>): (k: nat)
    ensures k <= |ops|
    ensures forall i :: 0 <= i < k ==> ops[i] == AND
    ensures k < |ops| ==> ops[k] == OR
  {
    if ops == [] then 0
    else
      match ops[0]
      case OR => 0
      case AND =>
        var rest := ops[1..];
        assert ops == [AND] + rest;
        1 + RunEnd(rest)
  }

  /** Condition `i` to condition `j` is a whole run of ANDs with an OR, or nothing, on either side. */
  predicate IsRun(ops: seq<Junction>, i: nat, j: nat) {
    && i <= j <= |ops|
    && (i == 0 || ops[i - 1] == OR)
    && (j == |ops| || ops[j] == OR)
    && forall k :: i <= k < j ==> ops[k] == AND
  }

  ghost predicate SomeRunHolds(bs: seq<bool>, ops: seq<Junction>)
    requires |bs| == |ops| + 1
  {
    exists i: nat, j: nat :: IsRun(ops, i, j) && forall k :: i <= k <= j ==> bs[k]
  }

  function Truths(ms: seq<Meaning>, holds: Meaning -> bool): (bs: seq<bool>)
    ensures |bs| == |ms|
    ensures forall i :: 0 <= i < |ms| ==> bs[i] == Eval(ms[i], holds)
  {
    seq(|ms|, i requires 0 <= i < |ms| => Eval(ms[i], holds))
  }

  /** The first maximal AND-run, and the runs after it. */
  lemma RunsSplit(bs: seq<bool>, ops: seq<Junction>)
    requires |bs| == |ops| + 1
    ensures var k := RunEnd(ops);
            SomeRunHolds(bs, ops) <==>
            (forall x :: 0 <= x <= k ==> bs[x]) || (k < |ops| && SomeRunHolds(bs[k + 1..], ops[k + 1..]))
  {
    var k := RunEnd(ops);
    if forall x :: 0 <= x <= k ==> bs[x] {
      assert IsRun(ops, 0, k);
    }
    if k < |ops| && SomeRunHolds(bs[k + 1..], ops[k + 1..]) {
      LaterRun(bs, ops, k + 1);
    }
    FirstOrLater(bs, ops);
  }

  lemma FirstOrLater(bs: seq<bool>, ops: seq<Junction>)
    requires |bs| == |ops| + 1
    ensures var k := RunEnd(ops);
            SomeRunHolds(bs, ops) ==>
            (forall x :: 0 <= x <= k ==> bs[x]) || (k < |ops| && SomeRunHolds(bs[k + 1..], ops[k + 1..]))
  {
    var k := RunEnd(ops);
    if SomeRunHolds(bs, ops) {
      var i: nat, j: nat :| IsRun(ops, i, j) && forall x :: i <= x <= j ==> bs[x];
      if i == 0 {
        assert j == k;
      } else {
        assert i > k;
        assert IsRun(ops[k + 1..], i - k - 1, j - k - 1);
        var later := bs[k + 1..];
        forall x | i - k - 1 <= x <= j - k - 1 ensures later[x] {
          assert bs[x + k + 1];
        }
      }
    }
  }

  lemma LaterRun(bs: seq<bool>, ops: seq<Junction>, d: nat)
    requires |bs| == |ops| + 1 && 1 <= d <= |ops| && ops[d - 1] == OR
    requires SomeRunHolds(bs[d..], ops[d..])
    ensures SomeRunHolds(bs, ops)
  {
    var i: nat, j: nat :| IsRun(ops[d..], i, j) && forall x :: i <= x <= j ==> bs[d..][x];
    assert forall x :: i + d <= x < j + d ==> ops[x] == ops[d..][x - d];
    assert forall x :: i + d <= x <= j + d ==> bs[x] == bs[d..][x - d];
    assert IsRun(ops, i + d, j + d);
  }

  predicate HeadRunHolds(bs: seq<bool>, ops: seq<Junction>)
    requires |bs| == |ops| + 1
  {
    forall x :: 0 <= x <= RunEnd(ops) ==> bs[x]
  }

  /** An AND in front puts one more condition into the first run and leaves the later runs alone. */
  lemma AndInFront(bs: seq<bool>, ops: seq<Junction>)
    requires |bs| == |ops| + 1 && ops != [] && ops[0] == AND
    ensures RunEnd(ops) == RunEnd(ops[1..]) + 1
    ensures HeadRunHolds(bs, ops) <==> bs[0] && HeadRunHolds(bs[1..], ops[1..])
  {
    var k := RunEnd(ops[1..]);
    if HeadRunHolds(bs, ops) {
      forall x | 0 <= x <= k ensures bs[1..][x] {
        assert bs[x + 1];
      }
    }
    if bs[0] && HeadRunHolds(bs[1..], ops[1..]) {
      forall x | 0 <= x <= k + 1 ensures bs[x] {
        if x > 0 { assert bs[1..][x - 1]; }
      }
    }
  }

  lemma RunEndOr(ops: seq<Junction>)
    ensures RunEnd(ops) < |ops| <==> OR in ops
  {
    var k := RunEnd(ops);
    if k < |ops| {
      assert ops[k] in ops;
    }
  }

  /** A flat run holds exactly when every condition of some maximal AND-run holds. */
  lemma {:induction false} FlatEval(ms: seq<Meaning>, ops: seq<Junction>, holds: Meaning -> bool)
    requires |ms| == |ops| + 1
    ensures Eval(FlatTree(ms, ops), holds) <==> SomeRunHolds(Truths(ms, holds), ops)
    ensures OR in ops ==> (Eval(FlatTree(ms, ops).l, holds) <==> HeadRunHolds(Truths(ms, holds), ops))
    ensures OR in ops ==>
              (Eval(FlatTree(ms, ops).r, holds) <==>
               SomeRunHolds(Truths(ms, holds)[RunEnd(ops) + 1..], ops[RunEnd(ops) + 1..]))
  {
    var bs := Truths(ms, holds);
    RunsSplit(bs, ops);
    RunEndOr(ops);
    if ops != [] {
      var bs', ops' := bs[1..], ops[1..];
      assert bs' == Truths(ms[1..], holds);
      FlatEval(ms[1..], ops', holds);
      if ops[0] == AND {
        AndInFront(bs, ops);
        RunEndOr(ops');
        RunsSplit(bs', ops');
        var k := RunEnd(ops');
        if OR in ops' {
          assert bs[k + 2..] == bs'[k + 1..] && ops[k + 2..] == ops'[k + 1..];
        }
      }
    }
  }

  /** With AND throughout, a flat run is the conjunction of its conditions. */
  lemma FlatAllAnd(ms: seq<Meaning>, ops: seq<Junction>, holds: Meaning -> bool)
    requires |ms| == |ops| + 1 && OR !in ops
    ensures Eval(FlatTree(ms, ops), holds) <==> forall i :: 0 <= i < |ms| ==> Eval(ms[i], holds)
  {
    FlatEval(ms, ops, holds);
    RunsSplit(Truths(ms, holds), ops);
    assert forall i :: 0 <= i < |ms| ==> Truths(ms, holds)[i] == Eval(ms[i], holds);
  }

  lemma LexJoined(c: string, word: string, rest: string)
    requires IsName(word)
    ensures Lex(c + " " + word + " " + rest) == Lex(c) + [word] + Lex(rest)
  {
    calc {
      Lex(c + " " + word + " " + rest);
      {
        assert c + " " + word + " " + rest == c + (" " + (word + (" " + rest)));
        LexCat(c, " " + (word + (" " + rest)));
      }
      Lex(c) + Lex(" " + (word + (" " + rest)));
      { LexSpace(word + (" " + rest)); }
      Lex(c) + Lex(word + (" " + rest));
      { LexCat(word, " " + rest); LexName(word); LexSpace(rest); }
      Lex(c) + ([word] + Lex(rest));
    }
  }

  lemma LexSpace(s: string)
    ensures Lex(" " + s) == Lex(s)
  {
    assert (" " + s)[1..] == s;
  }

  /** One condition put in front of a run already read; `more` says whether an OR splits that run. */
  function Joined(e0: Syntax, op: Junction, e1: Syntax, more: bool): Syntax {
    if op == OR then Or(e0, e1)
    else if more && e1.Or? then Or(And(e0, e1.l), e1.r)
    else And(e0, e1)
  }

  /** The tokens of a flat run read as `e`; `more` says whether an OR splits it. */
  ghost predicate ReadsAs(toks: Tokens, e: Syntax, more: bool) {
    && ParseOr(toks) == Done(e, [])
    && ParseAnd(toks).Done?
    && (ParseAnd(toks).rest != [] <==> more)
  }

  lemma FlatStep(t0: Tokens, op: Junction, rest: Tokens, e0: Syntax, e1: Syntax, more: bool)
    requires ParseNot(t0) == Done(e0, []) && ReadsAs(rest, e1, more)
    ensures ReadsAs(t0 + [JunctionText(op)] + rest, Joined(e0, op, e1, more), op == OR || more)
  {
    var tail := [JunctionText(op)] + rest;
    NotThen(t0, tail);
    assert [] + tail == tail && t0 + [JunctionText(op)] + rest == t0 + tail;
    JoinSyntax(e0, op, e1, t0 + tail, rest);
  }

  /** Parsing one condition, an operator, and the rest of the run. */
  lemma JoinSyntax(e0: Syntax, op: Junction, e1: Syntax, toks: Tokens, rest: Tokens)
    requires ParseNot(toks) == Done(e0, [JunctionText(op)] + rest)
    requires ParseOr(rest) == Done(e1, [])
    ensures ParseOr(toks) == Done(Joined(e0, op, e1, ParseAnd(rest).rest != []), [])
    ensures ParseAnd(toks).Done? && (ParseAnd(toks).rest == [] <==> op == AND && ParseAnd(rest).rest == [])
  {
    var tail := [JunctionText(op)] + rest;
    assert tail[1..] == rest;
    assert Upper("AND") == "AND" && Upper("OR") == "OR";
    if op == OR {
      assert ParseAnd(toks) == Done(e0, tail);
    } else {
      assert ParseAnd(toks) == Done(And(e0, ParseAnd(rest).value), ParseAnd(rest).rest);
    }
  }

  lemma {:induction false} FlatReads(conds: seq<string>, ops: seq<Junction>, es: seq<Syntax>)
    requires |conds| == |es| == |ops| + 1
    requires forall i :: 0 <= i < |conds| ==> ReadsAtom(conds[i], es[i])
    ensures ReadsAs(Lex(FlatText(conds, ops)), FlatTree(es, ops), OR in ops)
    decreases |ops|
  {
    assert ReadsAtom(conds[0], es[0]);
    if ops == [] {
      assert ParseOr(Lex(conds[0])) == Done(es[0], []);
    } else {
      forall i | 0 <= i < |conds| - 1 ensures ReadsAtom(conds[1..][i], es[1..][i]) {
        assert ReadsAtom(conds[i + 1], es[i + 1]);
      }
      FlatReads(conds[1..], ops[1..], es[1..]);
      var rest := FlatText(conds[1..], ops[1..]);
      LexJoined(conds[0], JunctionText(ops[0]), rest);
      FlatStep(Lex(conds[0]), ops[0], Lex(rest), es[0], FlatTree(es[1..], ops[1..]), OR in ops[1..]);
      assert ops == [ops[0]] + ops[1..];
    }
  }

  lemma {:induction false} ResolveFlat(
    es: seq<Syntax>, ms: seq<Meaning>, ops: seq<Junction>, names: Names, values: Values)
    requires |es| == |ms| == |ops| + 1
    requires forall i :: 0 <= i < |es| ==> Resolve(es[i], names, values) == ms[i]
    ensures Resolve(FlatTree(es, ops), names, values) == FlatTree(ms, ops)
    decreases |ops|
  {
    assert Resolve(es[0], names, values) == ms[0];
    if ops != [] {
      forall i | 0 <= i < |es| - 1 ensures Resolve(es[1..][i], names, values) == ms[1..][i] {
        assert Resolve(es[i + 1], names, values) == ms[i + 1];
      }
      ResolveFlat(es[1..], ms[1..], ops[1..], names, values);
    }
  }

  /** The service reads the flat text as the flat tree over what each condition denotes. */
  lemma FlatParses(conds: seq<string>, ops: seq<Junction>, names: Names, values: Values, ms: seq<Meaning>)
    requires |conds| == |ms| == |ops| + 1
    requires forall i :: 0 <= i < |conds| ==> DenotesAtom(conds[i], names, values, ms[i])
    ensures Denotes(FlatText(conds, ops), names, values, FlatTree(ms, ops))
  {
    var es := AtomSyntaxes(conds, names, values, ms);
    FlatReads(conds, ops, es);
    ResolveFlat(es, ms, ops, names, values);
    assert ParsesTo(FlatText(conds, ops), FlatTree(es, ops));
  }

  lemma {:induction false} AtomSyntaxes(conds: seq<string>, names: Names, values: Values,
      ms: seq<Meaning>) returns (es: seq<Syntax>)
    requires |conds| == |ms|
    requires forall i :: 0 <= i < |conds| ==> DenotesAtom(conds[i], names, values, ms[i])
    ensures |es| == |conds|
    ensures forall i :: 0 <= i < |conds| ==> ReadsAtom(conds[i], es[i])
    ensures forall i :: 0 <= i < |conds| ==> Resolve(es[i], names, values) == ms[i]
  {
    if conds == [] {
      es := [];
    } else {
      var k := |conds| - 1;
      es := AtomSyntaxes(conds[..k], names, values, ms[..k]);
      assert DenotesAtom(conds[k], names, values, ms[k]);
      var e :| ReadsAtom(conds[k], e) && Resolve(e, names, values) == ms[k];
      forall i | 0 <= i < k ensures ReadsAtom(conds[i], es[i]) && Resolve(es[i], names, values) == ms[i] {
        assert ReadsAtom(conds[..k][i], es[i]) && Resolve(es[i], names, values) == ms[..k][i];
      }
      es := es + [e];
    }
  }
}
