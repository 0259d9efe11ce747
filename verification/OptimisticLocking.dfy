/** Concurrent Query.Update calls guarded by the version condition (pkg/query/query.go). */
module OptimisticLocking {
  import opened Text
  import opened Attributes
  import opened ConditionGrammar
  import opened ConditionMeaning
  import opened ConditionMerge
  import opened ConditionPrinter
  import opened Placeholders
  import opened ExprBuilder
  import opened QueryCompile
  import opened UpdateAction
  import opened UpdateClauses
  import opened UpdateExecute
  import opened UpdateMeaning
  import opened UpdateReading
  import BR = BuilderRuns
  import UT = UpdateText

  // ---- The guard, and what the service makes of it ----

  /** `version = current`, as appendUpdatedAtAndVersionUpdates adds it before every other condition. */
  function VersionGuard(attr: string, current: int): Meaning {
    FieldCondition(Cmp(EQ), attr, [N(IntText(current))])
  }

  lemma GuardInjective(attr: string, a: int, b: int)
    requires VersionGuard(attr, a) == VersionGuard(attr, b)
    ensures a == b
  {
    assert VersionGuard(attr, a).right == Value(N(IntText(a))) && VersionGuard(attr, b).right == Value(N(IntText(b)));
    IntTextInjective(a, b);
  }

  /** The version attribute and the other attributes of the one item the clients contend for. */
  datatype Row = Row(version: int, fields: Item)

  /**
   The version attribute, the service's answers to everything but comparisons of the version with a number, and what it
   makes of every other effect than an assignment to an attribute or an addition of whole numbers.
   */
  datatype Service =
    Service(attr: string, answers: (Row, Meaning) -> bool, other: (Item, Effect) -> Item)

  /** What the service answers on a stored item: a comparison of the version with a number is true when it has it. */
  ghost function RowHolds(svc: Service, row: Row): Meaning -> bool {
    m => if exists n :: m == VersionGuard(svc.attr, n) then m == VersionGuard(svc.attr, row.version)
         else svc.answers(row, m)
  }

  /** The guard is true of exactly the items with its version. */
  lemma GuardHolds(svc: Service, row: Row, current: int)
    ensures Eval(VersionGuard(svc.attr, current), RowHolds(svc, row)) <==> row.version == current
  {
    if VersionGuard(svc.attr, current) == VersionGuard(svc.attr, row.version) {
      GuardInjective(svc.attr, current, row.version);
    }
  }

  // ---- The protocol, one atomic step at a time ----

  /** What a client assigns, as a function of the item it read. */
  type Edit = Item -> Item

  /** The condition and the update an Update call sends. */
  datatype Sending = Sending(text: string, names: Names, values: Values, update: string)

  datatype Step =
    /** A read may be stale: it returns any state committed so far. */
    | Read(client: nat, state: nat)
    /** An Update call, meant to assign `edit` of what the client last read, and what it sends to that end. */
    | Update(client: nat, edit: Edit, sent: Sending)

  /** One successful update: the item its client had read, and its edit. */
  datatype Commit = Commit(basis: Row, edit: Edit)

  /** `past` is every state the item has had; the last one is the item as stored. */
  datatype State = State(past: seq<Row>, commits: seq<Commit>, models: map<nat, Row>)

  function Stored(s: State): Row
    requires s.past != []
  {
    s.past[|s.past| - 1]
  }

  /** The edited attributes replaced and the version counted up, as an Update is meant to leave the item. */
  function Written(stored: Row, sets: Item): Row {
    Row(stored.version + 1, stored.fields + sets)
  }

  /** The item a row is stored as. */
  function RowItem(attr: string, row: Row): Item {
    row.fields[attr := N(IntText(row.version))]
  }

  /** The row an item stores; the version counts only when it is a whole number. */
  ghost function RowOf(attr: string, item: Item): Row {
    var version := if attr in item && item[attr].N? then IntOf(item[attr].n) else None;
    Row(if version.Some? then version.value else 0, item - {attr})
  }

  /** The service accepts an update when it takes the update text and the condition holds on the stored item. */
  ghost predicate Accepted(svc: Service, s: State, sent: Sending)
    requires s.past != []
  {
    && LegalUpdateText(sent.update, sent.names, sent.values)
    && TextHolds(sent.text, sent.names, sent.values, RowHolds(svc, Stored(s)))
  }

  /** The stored item after the update text has been performed on it. */
  ghost function After(svc: Service, s: State, sent: Sending): Row
    requires s.past != []
  {
    RowOf(svc.attr, Performed(RowItem(svc.attr, Stored(s)), sent.update, sent.names, sent.values, svc.other))
  }

  ghost function Next(svc: Service, s: State, step: Step): (s': State)
    requires s.past != []
    ensures s'.past != []
  {
    match step
    case Read(client, state) =>
      if state < |s.past| then s.(models := s.models[client := s.past[state]]) else s
    case Update(client, edit, sent) =>
      if client !in s.models || !Accepted(svc, s, sent) then s
      else
        var model := s.models[client];
        s.(past := s.past + [After(svc, s, sent)], commits := s.commits + [Commit(model, edit)])
  }

  ghost function Run(svc: Service, s: State, steps: seq<Step>): (s': State)
    requires s.past != []
    ensures s'.past != []
  {
    if steps == [] then s else Next(svc, Run(svc, s, steps[..|steps| - 1]), steps[|steps| - 1])
  }

  function Start(initial: Row): State {
    State([initial], [], map[])
  }

  /** What is sent holds exactly when every condition, the guard among them, and every raw condition holds. */
  ghost predicate SentExactly(sent: Sending, ms: seq<Meaning>, raws: seq<RawCondition>) {
    forall holds: Meaning -> bool ::
      TextHolds(sent.text, sent.names, sent.values, holds) <==>
      AllHold(ms, holds) && RawsHold(raws, sent.names, sent.values, holds)
  }

  /** The text is the version guard for `current`, with any other conditions and raw conditions behind it. */
  ghost predicate SendsGuard(attr: string, sent: Sending, current: int) {
    exists ms, raws :: ms != [] && ms[0] == VersionGuard(attr, current) && SentExactly(sent, ms, raws)
  }

  /** One attribute an Update assigns. */
  datatype Assignment = Assignment(attr: string, value: AttributeValue)

  function SetEffects(sets: seq<Assignment>): (es: seq<Effect>)
    ensures |es| == |sets|
    ensures forall i :: 0 <= i < |sets| ==>
              es[i] == SetTo(Place(FieldPath(sets[i].attr), None), Outright(Value(sets[i].value)))
  {
    seq(|sets|, i requires 0 <= i < |sets| =>
      SetTo(Place(FieldPath(sets[i].attr), None), Outright(Value(sets[i].value))))
  }

  /** The SET clauses and the ADD clause that counts the version up. */
  function UpdateEffects(attr: string, sets: seq<Assignment>): seq<Effect> {
    SetEffects(sets) + [AddTo(FieldPath(attr), Value(N(IntText(1))))]
  }

  /** The assigned attributes. */
  function Overlay(sets: seq<Assignment>): Item {
    if sets == [] then map[] else Overlay(sets[..|sets| - 1])[sets[|sets| - 1].attr := sets[|sets| - 1].value]
  }

  /** Attributes are assigned, the version not among them. */
  predicate Spares(attr: string, sets: seq<Assignment>) {
    forall i :: 0 <= i < |sets| ==> IsAttribute(sets[i].attr) && sets[i].attr != attr
  }

  /** The update text assigns these attributes and counts the version up. */
  ghost predicate SendsWrite(attr: string, sent: Sending, fields: Item) {
    exists sets ::
      && Spares(attr, sets) && Overlay(sets) == fields
      && UpdateDoes(sent.update, sent.names, sent.values, UpdateEffects(attr, sets))
  }

  /** Clients send what Update makes of the model they last read. */
  ghost predicate Legal(svc: Service, s: State, step: Step) {
    step.Update? && step.client in s.models ==>
      var model := s.models[step.client];
      SendsGuard(svc.attr, step.sent, model.version) && SendsWrite(svc.attr, step.sent, step.edit(model.fields))
  }

  ghost predicate LegalRun(svc: Service, s: State, steps: seq<Step>)
    requires s.past != []
  {
    steps == [] ||
    (LegalRun(svc, s, steps[..|steps| - 1]) && Legal(svc, Run(svc, s, steps[..|steps| - 1]), steps[|steps| - 1]))
  }

  // ---- What the sent text comes to ----

  lemma {:induction false} KindOf(es: seq<Effect>, a: UT.Action)
    requires forall i :: 0 <= i < |es| ==> EffectAction(es[i]) == a
    ensures forall b :: OfKind(es, b) == if b == a then es else []
  {
    if es != [] {
      var k := |es| - 1;
      KindOf(es[..k], a);
      assert es[..k] + [es[k]] == es;
    }
  }

  lemma UpdateSections(attr: string, sets: seq<Assignment>)
    ensures InSections(UpdateEffects(attr, sets)) == UpdateEffects(attr, sets)
  {
    var es, add := SetEffects(sets), AddTo(FieldPath(attr), Value(N(IntText(1))));
    KindOf(es, UT.SET);
    forall a ensures OfKind(es + [add], a) == OfKind(es, a) + if a == UT.ADD then [add] else [] {
      assert (es + [add])[..|es|] == es;
    }
  }

  lemma {:induction false} SetsPerformed(item: Item, sets: seq<Assignment>, other: (Item, Effect) -> Item)
    requires forall i :: 0 <= i < |sets| ==> IsAttribute(sets[i].attr)
    ensures ActAll(item, SetEffects(sets), other) == item + Overlay(sets)
  {
    if sets == [] {
      assert item + map[] == item;
    } else {
      var k := |sets| - 1;
      var e := SetTo(Place(FieldPath(sets[k].attr), None), Outright(Value(sets[k].value)));
      SetsPerformed(item, sets[..k], other);
      assert SetEffects(sets) == SetEffects(sets[..k]) + [e];
      ActNext(item, SetEffects(sets[..k]), e, other);
      SetPerformed(item + Overlay(sets[..k]), sets[k], other);
      OverlayNext(item, Overlay(sets[..k]), sets[k]);
    }
  }

  lemma ActNext(item: Item, es: seq<Effect>, e: Effect, other: (Item, Effect) -> Item)
    ensures ActAll(item, es + [e], other) == Act(ActAll(item, es, other), e, other)
  {
    assert (es + [e])[..|es|] == es;
  }

  lemma OverlayNext(item: Item, fields: Item, a: Assignment)
    ensures (item + fields)[a.attr := a.value] == item + fields[a.attr := a.value]
  {
  }

  lemma SetPerformed(item: Item, a: Assignment, other: (Item, Effect) -> Item)
    requires IsAttribute(a.attr)
    ensures Act(item, SetTo(Place(FieldPath(a.attr), None), Outright(Value(a.value))), other) == item[a.attr := a.value]
  {
    TopOf(a.attr);
  }

  lemma {:induction false} OverlayKeys(attr: string, sets: seq<Assignment>)
    requires Spares(attr, sets)
    ensures attr !in Overlay(sets)
  {
    if sets != [] {
      OverlayKeys(attr, sets[..|sets| - 1]);
    }
  }

  predicate NamedOnce(sets: seq<Assignment>) {
    forall i, j :: 0 <= i < j < |sets| ==> sets[i].attr != sets[j].attr
  }

  lemma AttributeRoute(name: string, rhs: Assigned)
    requires IsAttribute(name)
    ensures Route(SetTo(Place(FieldPath(name), None), rhs)) == [Attr(Step(name, ""))]
    ensures forall v :: Route(AddTo(FieldPath(name), v)) == [Attr(Step(name, ""))]
  {
    SplitDotless(name);
    FieldStepPlain(name);
    assert Hops(Steps([name])) == [Attr(Step(name, ""))];
  }

  /** The service refuses an Update that names a field twice, and no other. */
  lemma NoOverlapExactly(attr: string, sets: seq<Assignment>)
    requires IsAttribute(attr) && Spares(attr, sets)
    ensures NoOverlap(UpdateEffects(attr, sets)) <==> NamedOnce(sets)
  {
    var es := UpdateEffects(attr, sets);
    AttributeRoute(attr, Outright(Unbound));
    forall i | 0 <= i < |sets| ensures Route(es[i]) == [Attr(Step(sets[i].attr, ""))] {
      AttributeRoute(sets[i].attr, Outright(Value(sets[i].value)));
    }
    assert Route(es[|sets|]) == [Attr(Step(attr, ""))];
    if NoOverlap(es) {
      forall i, j | 0 <= i < j < |sets| ensures sets[i].attr != sets[j].attr {
        assert !Overlap(es[i], es[j]);
      }
    }
    if NamedOnce(sets) {
      forall i, j | 0 <= i < j < |es| ensures !Overlap(es[i], es[j]) {
        assert Route(es[i])[0] != Route(es[j])[0];
      }
    }
  }

  /** Counting the version of a stored row up. */
  lemma VersionCounted(attr: string, row: Row, other: (Item, Effect) -> Item)
    requires IsAttribute(attr)
    ensures Act(RowItem(attr, row), AddTo(FieldPath(attr), Value(N(IntText(1)))), other) ==
            RowItem(attr, row.(version := row.version + 1))
  {
    TopOf(attr);
    IntOfText(1);
    IntOfText(row.version);
  }

  lemma RowBack(attr: string, row: Row)
    requires attr !in row.fields
    ensures RowOf(attr, RowItem(attr, row)) == row
  {
    IntOfText(row.version);
    assert RowItem(attr, row) - {attr} == row.fields;
  }

  lemma RowOverlaid(attr: string, row: Row, fields: Item)
    requires attr !in fields
    ensures RowItem(attr, row) + fields == RowItem(attr, Row(row.version, row.fields + fields))
  {
  }

  lemma EffectsPerformed(attr: string, row: Row, sets: seq<Assignment>, other: (Item, Effect) -> Item)
    requires IsAttribute(attr) && Spares(attr, sets)
    ensures ActAll(RowItem(attr, row), UpdateEffects(attr, sets), other) == RowItem(attr, Written(row, Overlay(sets)))
  {
    var item, add := RowItem(attr, row), AddTo(FieldPath(attr), Value(N(IntText(1))));
    var between := Row(row.version, row.fields + Overlay(sets));
    ActCat(item, SetEffects(sets), [add], other);
    SetsPerformed(item, sets, other);
    OverlayKeys(attr, sets);
    RowOverlaid(attr, row, Overlay(sets));
    OneAct(RowItem(attr, between), add, other);
    VersionCounted(attr, between, other);
  }

  /** An update text that assigns these attributes and counts the version up leaves the item as it was meant to be. */
  lemma WrittenExactly(svc: Service, s: State, sent: Sending, fields: Item)
    requires s.past != [] && SendsWrite(svc.attr, sent, fields)
    requires IsAttribute(svc.attr) && svc.attr !in Stored(s).fields
    ensures After(svc, s, sent) == Written(Stored(s), fields) && svc.attr !in fields
  {
    var sets :| Spares(svc.attr, sets) && Overlay(sets) == fields
                && UpdateDoes(sent.update, sent.names, sent.values, UpdateEffects(svc.attr, sets));
    PerformedIs(RowItem(svc.attr, Stored(s)), sent.update, sent.names, sent.values, svc.other,
      UpdateEffects(svc.attr, sets));
    UpdateSections(svc.attr, sets);
    EffectsPerformed(svc.attr, Stored(s), sets, svc.other);
    OverlayKeys(svc.attr, sets);
    RowBack(svc.attr, Written(Stored(s), fields));
  }

  /**
   An update is accepted exactly when its text reaches no place twice, the stored version is its guard's and everything
   else sent along holds.
   */
  lemma AcceptedExactly(svc: Service, s: State, sent: Sending, current: int, ms: seq<Meaning>, raws: seq<RawCondition>,
      es: seq<Effect>)
    requires s.past != [] && ms != [] && ms[0] == VersionGuard(svc.attr, current) && SentExactly(sent, ms, raws)
    requires UpdateDoes(sent.update, sent.names, sent.values, es)
    ensures var holds := RowHolds(svc, Stored(s));
            Accepted(svc, s, sent) <==>
            && es != [] && NoOverlap(es)
            && Stored(s).version == current && AllHold(ms[1..], holds)
            && RawsHold(raws, sent.names, sent.values, holds)
  {
    LegalUpdateExactly(sent.update, sent.names, sent.values, es);
    ConditionExactly(svc, s, sent, current, ms, raws);
  }

  lemma ConditionExactly(svc: Service, s: State, sent: Sending, current: int, ms: seq<Meaning>, raws: seq<RawCondition>)
    requires s.past != [] && ms != [] && ms[0] == VersionGuard(svc.attr, current) && SentExactly(sent, ms, raws)
    ensures var holds := RowHolds(svc, Stored(s));
            TextHolds(sent.text, sent.names, sent.values, holds) <==>
            Stored(s).version == current && AllHold(ms[1..], holds) && RawsHold(raws, sent.names, sent.values, holds)
  {
    var holds := RowHolds(svc, Stored(s));
    GuardHolds(svc, Stored(s), current);
    if AllHold(ms, holds) {
      assert Eval(ms[0], holds);
      forall i | 0 <= i < |ms[1..]| ensures Eval(ms[1..][i], holds) {
        assert Eval(ms[i + 1], holds);
      }
    }
    if Stored(s).version == current && AllHold(ms[1..], holds) {
      forall i | 0 <= i < |ms| ensures Eval(ms[i], holds) {
        assert i > 0 ==> Eval(ms[1..][i - 1], holds);
      }
    }
  }

  // ---- What every run keeps ----

  /** The states, as if the successful updates had run one after the other, each reading what the one before wrote. */
  function Sequential(initial: Row, commits: seq<Commit>): Row {
    if commits == [] then initial
    else
      var before := Sequential(initial, commits[..|commits| - 1]);
      Written(before, commits[|commits| - 1].edit(before.fields))
  }

  ghost predicate Invariant(attr: string, initial: Row, s: State) {
    && IsAttribute(attr) && (forall i :: 0 <= i < |s.past| ==> attr !in s.past[i].fields)
    && |s.past| == |s.commits| + 1
    && (forall i :: 0 <= i < |s.past| ==> s.past[i].version == initial.version + i)
    && (forall i :: 0 <= i < |s.past| ==> s.past[i] == Sequential(initial, s.commits[..i]))
    && (forall i :: 0 <= i < |s.commits| ==> s.commits[i].basis == s.past[i])
    && (forall c :: c in s.models ==> s.models[c] in s.past)
  }

  /** A client whose guarded update is accepted has read the stored item itself. */
  lemma CurrentModel(svc: Service, initial: Row, s: State, client: nat, sent: Sending)
    requires Invariant(svc.attr, initial, s) && client in s.models && Accepted(svc, s, sent)
    requires SendsGuard(svc.attr, sent, s.models[client].version)
    ensures s.models[client] == Stored(s)
  {
    var current := s.models[client].version;
    var ms, raws :| ms != [] && ms[0] == VersionGuard(svc.attr, current) && SentExactly(sent, ms, raws);
    ConditionExactly(svc, s, sent, current, ms, raws);
    var i :| 0 <= i < |s.past| && s.past[i] == s.models[client];
  }

  lemma CommitKeeps(attr: string, initial: Row, s: State, client: nat, edit: Edit)
    requires Invariant(attr, initial, s) && client in s.models && s.models[client] == Stored(s)
    requires attr !in edit(Stored(s).fields)
    ensures Invariant(attr, initial, s.(past := s.past + [Written(Stored(s), edit(s.models[client].fields))],
                                        commits := s.commits + [Commit(s.models[client], edit)]))
  {
    var s' := s.(past := s.past + [Written(Stored(s), edit(s.models[client].fields))],
                 commits := s.commits + [Commit(s.models[client], edit)]);
    var n := |s.commits|;
    assert s'.commits[..n] == s.commits && s.commits[..n] == s.commits;
    assert s'.commits[..n + 1] == s'.commits;
    forall i | 0 <= i < |s'.past| ensures s'.past[i] == Sequential(initial, s'.commits[..i]) {
      if i <= n {
        assert s'.commits[..i] == s.commits[..i];
        assert s'.past[i] == s.past[i];
      }
    }
  }

  lemma NextKeeps(svc: Service, initial: Row, s: State, step: Step)
    requires Invariant(svc.attr, initial, s) && Legal(svc, s, step)
    ensures Invariant(svc.attr, initial, Next(svc, s, step))
  {
    if step.Update? && step.client in s.models && Accepted(svc, s, step.sent) {
      CurrentModel(svc, initial, s, step.client, step.sent);
      WrittenExactly(svc, s, step.sent, step.edit(Stored(s).fields));
      CommitKeeps(svc.attr, initial, s, step.client, step.edit);
    }
  }

  /**
   No lost updates: in every interleaving of reads, fresh or stale, and updates of any number of clients, each of which
   sends the guard for the version it last read and an update text that assigns its attributes and counts the version
   up, each successful update was based on the immediately preceding committed state, the version is the initial one
   plus the number of successes, and the item is what the successful updates give one after the other.
   */
  lemma {:induction false} NoLostUpdates(svc: Service, initial: Row, steps: seq<Step>)
    requires IsAttribute(svc.attr) && svc.attr !in initial.fields && LegalRun(svc, Start(initial), steps)
    ensures var s := Run(svc, Start(initial), steps);
            && |s.past| == |s.commits| + 1
            && (forall i :: 0 <= i < |s.commits| ==> s.commits[i].basis == s.past[i])
            && Stored(s).version == initial.version + |s.commits|
            && Stored(s) == Sequential(initial, s.commits)
    ensures Invariant(svc.attr, initial, Run(svc, Start(initial), steps))
  {
    if steps != [] {
      NoLostUpdates(svc, initial, steps[..|steps| - 1]);
      NextKeeps(svc, initial, Run(svc, Start(initial), steps[..|steps| - 1]), steps[|steps| - 1]);
    }
    var s := Run(svc, Start(initial), steps);
    assert s.commits[..|s.commits|] == s.commits;
  }

  /** Of all the updates based on one version, at most one succeeds. */
  lemma OneWinner(svc: Service, initial: Row, steps: seq<Step>, i: nat, j: nat)
    requires IsAttribute(svc.attr) && svc.attr !in initial.fields && LegalRun(svc, Start(initial), steps)
    requires i < |Run(svc, Start(initial), steps).commits| && j < |Run(svc, Start(initial), steps).commits|
    requires Run(svc, Start(initial), steps).commits[i].basis.version ==
             Run(svc, Start(initial), steps).commits[j].basis.version
    ensures i == j
  {
    NoLostUpdates(svc, initial, steps);
    var s := Run(svc, Start(initial), steps);
    assert s.past[i].version == initial.version + i && s.past[j].version == initial.version + j;
  }

  // ---- The guard in the condition text ----

  /**
   Whatever write, Where and raw conditions are sent along, with top-level ORs or not, the service accepts the update
   only where the version guard holds.
   */
  lemma GuardIsNecessary(
    base: string, raws: seq<RawCondition>, names: Names, values: Values, ms: seq<Meaning>, attr: string, current: int,
    holds: Meaning -> bool)
    requires ms != [] && ms[0] == VersionGuard(attr, current)
    requires Emitted(base, names, values, ms, AllAnd(|ms| - 1)) && RawsMean(raws, names, values)
    requires TextHolds(MergedText(base, raws), names, values, holds)
    ensures Eval(VersionGuard(attr, current), holds)
  {
    MergedHolds(base, raws, names, values, holds);
    EmittedHolds(base, names, values, ms, AllAnd(|ms| - 1), holds);
    PassesAll(ms, AllAnd(|ms| - 1), holds);
  }

  /** The conditions of an Update call in the order they are added, the guard first. */
  function UpdateConditions(attr: string, current: int, others: seq<Cond>): seq<Cond> {
    [Cond(attr, "=", Scalar(N(IntText(current))))] + others
  }

  lemma GuardSaid(p: Policy, attr: string, current: int, others: seq<Cond>)
    requires AllAccepted(p, UpdateConditions(attr, current, others))
    ensures SaidAll(p, UpdateConditions(attr, current, others))[0] == VersionGuard(attr, current)
  {
    var c := UpdateConditions(attr, current, others)[0];
    assert OpOf("=") == Some(Cmp(EQ)) by { assert Upper("=") == "="; }
    assert [c.value][1..] == [];
    assert AcceptedPrefix(p, [c.value]) == [N(IntText(current))];
  }


  // ---- Update ----

  lemma SentText(p: Policy, cs: seq<Cond>, base: string, raws: seq<RawCondition>, names: Names, baseValues: Values,
      values: Values, update: string)
    requires Asked(p, cs, base, names, baseValues)
    requires MergedInto(baseValues, raws, |raws|, values) && RawsMean(raws, names, values)
    ensures SentExactly(Sending(MergedText(base, raws), names, values, update), SaidAll(p, cs), raws)
  {
    var asked := Filters(SaidAll(p, cs), KeyOps(|cs|));
    EmittedKept(base, asked, names, baseValues, names, values);
    forall holds: Meaning -> bool
      ensures TextHolds(MergedText(base, raws), names, values, holds) <==>
              AllHold(asked.ms, holds) && RawsHold(raws, names, values, holds)
    {
      EmittedHolds(base, names, values, asked.ms, asked.ops, holds);
      PassesAll(asked.ms, asked.ops, holds);
      MergedHolds(base, raws, names, values, holds);
    }
  }

  /** A field of the model that is to be updated, under its attribute's name. */
  datatype Field = Field(attr: string, value: GoValue)

  function SetCalls(fields: seq<Field>): (calls: seq<BR.Call>)
    ensures |calls| == |fields|
    ensures forall i :: 0 <= i < |fields| ==> calls[i] == BR.Set(fields[i].attr, fields[i].value)
  {
    seq(|fields|, i requires 0 <= i < |fields| => BR.Set(fields[i].attr, fields[i].value))
  }

  function GuardCall(c: Cond): BR.Call {
    BR.Guard(ConditionMeaning.AND, c.field, c.operator, c.value)
  }

  function GuardCalls(cs: seq<Cond>): (calls: seq<BR.Call>)
    ensures |calls| == |cs|
    ensures forall i :: 0 <= i < |cs| ==> calls[i] == GuardCall(cs[i])
  {
    seq(|cs|, i requires 0 <= i < |cs| => GuardCall(cs[i]))
  }

  /** The SET clauses, the version guard, the ADD clause of the version, and then the other conditions. */
  function UpdateCalls(attr: string, current: int, fields: seq<Field>, others: seq<Cond>): seq<BR.Call> {
    SetCalls(fields) + GuardCalls(UpdateConditions(attr, current, [])) + [BR.Add(attr, Scalar(N(IntText(1))))] +
    GuardCalls(others)
  }

  predicate FieldOk(p: Policy, f: Field) {
    IsAttribute(f.attr) && p.fieldOk(f.attr) && ValueOk(p, f.value)
  }

  predicate FieldsOk(p: Policy, fields: seq<Field>) {
    forall i :: 0 <= i < |fields| ==> FieldOk(p, fields[i])
  }

  function Assigned(p: Policy, fields: seq<Field>): (sets: seq<Assignment>)
    requires FieldsOk(p, fields)
    ensures |sets| == |fields|
    ensures forall i :: 0 <= i < |fields| ==>
              sets[i] == Assignment(fields[i].attr, Convert(fields[i].value).value)
  {
    seq(|fields|, i requires 0 <= i < |fields| && FieldOk(p, fields[i]) =>
      Assignment(fields[i].attr, Convert(fields[i].value).value))
  }

  lemma SetSaid(p: Policy, f: Field)
    requires FieldOk(p, f)
    ensures BR.AsEffect(p, BR.Set(f.attr, f.value)) ==
            [SetTo(Place(FieldPath(f.attr), None), Outright(Value(Convert(f.value).value)))]
    ensures BR.AsGuard(p, BR.Set(f.attr, f.value)) == []
  {
    assert ParseListIndex(f.attr) == FieldIndex.Plain;
  }

  lemma SetsSaid(p: Policy, fields: seq<Field>)
    requires FieldsOk(p, fields)
    ensures BR.EffectsSaid(p, SetCalls(fields)) == SetEffects(Assigned(p, fields))
    ensures BR.GuardsSaid(p, SetCalls(fields)) == []
  {
    var calls, es := SetCalls(fields), SetEffects(Assigned(p, fields));
    forall i | 0 <= i < |calls|
      ensures BR.AsEffectBy(p)(calls[i]) == [es[i]] && BR.AsGuardBy(p)(calls[i]) == []
    {
      assert FieldOk(p, fields[i]);
      SetSaid(p, fields[i]);
    }
    BR.CollectEach(calls, BR.AsEffectBy(p), es);
    BR.CollectNone(calls, BR.AsGuardBy(p));
  }

  lemma OtherSaid(p: Policy, c: Cond)
    requires AcceptsCond(p, c)
    ensures BR.AsEffect(p, GuardCall(c)) == [] && BR.AsGuard(p, GuardCall(c)) == [SaidBy(p, c)]
  {
  }

  lemma OthersSaid(p: Policy, cs: seq<Cond>)
    requires AllAccepted(p, cs)
    ensures BR.EffectsSaid(p, GuardCalls(cs)) == []
    ensures BR.GuardsSaid(p, GuardCalls(cs)) == SaidAll(p, cs)
  {
    var calls := GuardCalls(cs);
    forall i | 0 <= i < |calls|
      ensures BR.AsGuardBy(p)(calls[i]) == [SaidAll(p, cs)[i]] && BR.AsEffectBy(p)(calls[i]) == []
    {
      assert AcceptsCond(p, cs[i]);
      OtherSaid(p, cs[i]);
    }
    BR.CollectEach(calls, BR.AsGuardBy(p), SaidAll(p, cs));
    BR.CollectNone(calls, BR.AsEffectBy(p));
  }

  lemma {:induction false} AllAnded(p: Policy, calls: seq<BR.Call>)
    requires forall i :: 0 <= i < |calls| && calls[i].Guard? ==> calls[i].op == ConditionMeaning.AND
    ensures ConditionMeaning.OR !in BR.GuardOpsSaid(p, calls)
  {
    if calls != [] {
      AllAnded(p, calls[..|calls| - 1]);
    }
  }

  /** Whether every value and condition of an Update is accepted. */
  predicate Updatable(p: Policy, attr: string, current: int, fields: seq<Field>, others: seq<Cond>) {
    && FieldsOk(p, fields) && p.fieldOk(attr) && p.valueOk(Scalar(N(IntText(1))))
    && AllAccepted(p, UpdateConditions(attr, current, others))
  }

  lemma GuardAccepted(p: Policy, attr: string, current: int, fields: seq<Field>, others: seq<Cond>)
    requires Updatable(p, attr, current, fields, others)
    ensures AllAccepted(p, UpdateConditions(attr, current, [])) && AllAccepted(p, others)
  {
    AcceptedParts(p, UpdateConditions(attr, current, []), others);
    assert UpdateConditions(attr, current, []) + others == UpdateConditions(attr, current, others);
  }

  lemma AcceptedParts(p: Policy, a: seq<Cond>, b: seq<Cond>)
    requires AllAccepted(p, a + b)
    ensures AllAccepted(p, a) && AllAccepted(p, b)
  {
    forall i | 0 <= i < |a| ensures AcceptsCond(p, a[i]) {
      assert AcceptsCond(p, (a + b)[i]);
    }
    forall i | 0 <= i < |b| ensures AcceptsCond(p, b[i]) {
      assert AcceptsCond(p, (a + b)[|a| + i]);
    }
  }

  lemma UpdateChanges(p: Policy, attr: string, current: int, fields: seq<Field>, others: seq<Cond>)
    requires Updatable(p, attr, current, fields, others)
    ensures BR.EffectsSaid(p, UpdateCalls(attr, current, fields, others)) == UpdateEffects(attr, Assigned(p, fields))
  {
    var add, guard := BR.Add(attr, Scalar(N(IntText(1)))), UpdateConditions(attr, current, []);
    GuardAccepted(p, attr, current, fields, others);
    SetsSaid(p, fields);
    OthersSaid(p, guard);
    OthersSaid(p, others);
    AddSaid(p, attr);
    UpdateCat(BR.AsEffectBy(p), SetCalls(fields), GuardCalls(guard), add, GuardCalls(others));
  }

  lemma AddSaid(p: Policy, attr: string)
    requires p.fieldOk(attr) && p.valueOk(Scalar(N(IntText(1))))
    ensures BR.AsEffect(p, BR.Add(attr, Scalar(N(IntText(1))))) == [AddTo(FieldPath(attr), Value(N(IntText(1))))]
    ensures BR.AsGuard(p, BR.Add(attr, Scalar(N(IntText(1))))) == []
  {
  }

  lemma GuardedCat(p: Policy, attr: string, current: int, others: seq<Cond>)
    requires AllAccepted(p, UpdateConditions(attr, current, [])) && AllAccepted(p, others)
    ensures AllAccepted(p, UpdateConditions(attr, current, others))
    ensures SaidAll(p, UpdateConditions(attr, current, others)) ==
            SaidAll(p, UpdateConditions(attr, current, [])) + SaidAll(p, others)
  {
    var guard := UpdateConditions(attr, current, []);
    assert guard + others == UpdateConditions(attr, current, others);
    SaidCat(p, guard, others);
  }

  lemma UpdateGuards(p: Policy, attr: string, current: int, fields: seq<Field>, others: seq<Cond>)
    requires Updatable(p, attr, current, fields, others)
    ensures BR.GuardsSaid(p, UpdateCalls(attr, current, fields, others)) ==
            SaidAll(p, UpdateConditions(attr, current, others))
  {
    var add, guard := BR.Add(attr, Scalar(N(IntText(1)))), UpdateConditions(attr, current, []);
    GuardAccepted(p, attr, current, fields, others);
    SetsSaid(p, fields);
    OthersSaid(p, guard);
    OthersSaid(p, others);
    AddSaid(p, attr);
    UpdateCat(BR.AsGuardBy(p), SetCalls(fields), GuardCalls(guard), add, GuardCalls(others));
    GuardedCat(p, attr, current, others);
  }

  lemma UpdateSaid(p: Policy, attr: string, current: int, fields: seq<Field>, others: seq<Cond>)
    requires Updatable(p, attr, current, fields, others)
    ensures var calls, cs := UpdateCalls(attr, current, fields, others), UpdateConditions(attr, current, others);
            && BR.EffectsSaid(p, calls) == UpdateEffects(attr, Assigned(p, fields))
            && BR.GuardsSaid(p, calls) == SaidAll(p, cs)
            && BR.GuardOpsSaid(p, calls) == KeyOps(|cs|)
  {
    var calls, n := UpdateCalls(attr, current, fields, others), |UpdateConditions(attr, current, others)|;
    UpdateChanges(p, attr, current, fields, others);
    UpdateGuards(p, attr, current, fields, others);
    AllAnded(p, calls);
    OnlyAnd(BR.GuardOpsSaid(p, calls), n - 1);
  }

  lemma OnlyAnd(ops: seq<Junction>, n: nat)
    requires |ops| == n && ConditionMeaning.OR !in ops
    ensures ops == AllAnd(n)
  {
    forall i | 0 <= i < n ensures ops[i] == AllAnd(n)[i] {
      assert ops[i] in ops;
    }
  }

  lemma UpdateCat<T>(
    part: BR.Call -> seq<T>, a: seq<BR.Call>, b: seq<BR.Call>, c: BR.Call, d: seq<BR.Call>)
    ensures BR.Collect(a + b + [c] + d, part) ==
            BR.Collect(a, part) + BR.Collect(b, part) + part(c) + BR.Collect(d, part)
  {
    BR.CollectCat(a + b + [c], d, part);
    BR.CollectNext(a + b, c, part);
    BR.CollectCat(a, b, part);
  }

  /** The calls of an Update keep to a vocabulary. */
  ghost predicate SpokenUpdate(p: Policy, words: set<string>, attr: string, fields: seq<Field>, others: seq<Cond>) {
    && BR.Vocabulary(p, words) && BR.Speaks(p, words, attr) && Spoken(p, words, others)
    && forall i :: 0 <= i < |fields| ==> IsAttribute(fields[i].attr) && BR.Speaks(p, words, fields[i].attr)
  }

  lemma UpdateProper(p: Policy, words: set<string>, attr: string, current: int, fields: seq<Field>, others: seq<Cond>)
    requires SpokenUpdate(p, words, attr, fields, others)
    ensures BR.Proper(p, words, UpdateCalls(attr, current, fields, others))
  {
    var calls := UpdateCalls(attr, current, fields, others);
    forall i | 0 <= i < |calls| ensures BR.Welcome(p, words, BR.BindingsAt(p, calls[..i]), calls[i]) {
      if i < |fields| {
        assert calls[i] == BR.Set(fields[i].attr, fields[i].value) && IsAttribute(fields[i].attr);
        assert ParseListIndex(fields[i].attr) == FieldIndex.Plain;
      } else if i == |fields| {
        assert calls[i] == GuardCall(UpdateConditions(attr, current, [])[0]);
      } else if i > |fields| + 1 {
        assert calls[i] == GuardCall(others[i - |fields| - 2]);
        assert SpokenCond(p, words, others[i - |fields| - 2]);
      }
    }
  }

  /** What a builder that has made the calls of an Update prints. */
  method BuildUpdate(policy: Policy, attr: string, current: int, fields: seq<Field>, others: seq<Cond>,
      ghost words: set<string>)
    returns (c: Components)
    requires SpokenUpdate(policy, words, attr, fields, others) && Updatable(policy, attr, current, fields, others)
    ensures Asked(policy, UpdateConditions(attr, current, others), c.condition, c.names, c.values)
    ensures c.values == BR.BindingsAt(policy, UpdateCalls(attr, current, fields, others)).values
    ensures UpdateDoes(c.update, c.names, c.values, UpdateEffects(attr, Assigned(policy, fields)))
  {
    UpdateProper(policy, words, attr, current, fields, others);
    var b := BR.PerformAll(policy, UpdateCalls(attr, current, fields, others), words);
    UpdateSaid(policy, attr, current, fields, others);
    GuardsClosed(b);
    c := b.Build();
  }

  /**
   Update: the version guard comes first and nothing sent along can make up for it, and the update text assigns the
   fields and counts the version up. So what is sent is a sending the clients of the protocol may make. It fails exactly
   when a call is refused or a raw condition's placeholder is taken or has a value that does not convert.
   */
  method Update(policy: Policy, attr: string, current: int, fields: seq<Field>, others: seq<Cond>,
      raws: seq<RawCondition>, ghost words: set<string>)
    returns (ok: bool, sent: Sending)
    requires SpokenUpdate(policy, words, attr, fields, others)
    ensures ok <==> Updatable(policy, attr, current, fields, others) &&
                    Mergeable(BR.BindingsAt(policy, UpdateCalls(attr, current, fields, others)).values, raws)
    ensures ok ==> UpdateDoes(sent.update, sent.names, sent.values, UpdateEffects(attr, Assigned(policy, fields)))
    ensures ok && RawsMean(raws, sent.names, sent.values) ==>
              && SentExactly(sent, SaidAll(policy, UpdateConditions(attr, current, others)), raws)
              && SendsGuard(attr, sent, current)
    ensures ok && Spares(attr, Assigned(policy, fields)) ==>
              SendsWrite(attr, sent, Overlay(Assigned(policy, fields)))
  {
    sent := Sending("", map[], map[], "");
    ok := Updatable(policy, attr, current, fields, others);
    if !ok {
      return;
    }
    var c := BuildUpdate(policy, attr, current, fields, others, words);
    var text, values;
    ok, text, values := MergeConditionExpressions(c.condition, c.values, raws);
    if !ok {
      return;
    }
    sent := Sending(text, c.names, values, c.update);
    UpdateKept(c.update, c.names, c.values, c.names, values, UpdateEffects(attr, Assigned(policy, fields)));
    GuardSaid(policy, attr, current, others);
    if RawsMean(raws, c.names, values) {
      SentText(policy, UpdateConditions(attr, current, others), c.condition, raws, c.names, c.values, values, c.update);
    }
  }
}
