/** What the update functions of the builder make of a stored item (internal/expr/builder.go AddUpdateFunction). */
module UpdateFunctions {
  import opened Text
  import opened Attributes
  import opened ConditionMeaning
  import opened ExprBuilder
  import opened Placeholders
  import opened UpdateAction
  import opened UpdateClauses
  import opened UpdateMeaning
  import opened UpdateReading

  /** The list an argument of list_append gives: what the field holds for its own name, else the argument's list. */
  predicate Gives(item: Item, field: string, named: bool, arg: GoValue, xs: seq<AttributeValue>) {
    if named then field in item && item[field] == L(xs) else Convert(arg) == Ok(L(xs))
  }

  /** The item with the field assigned `av`. */
  ghost predicate Leaves(c: Components, item: Item, field: string, av: AttributeValue) {
    forall other :: Performed(item, c.update, c.names, c.values, other) == item[field := av]
  }

  /** list_append leaves the two lists one behind the other, in the order of the arguments. */
  ghost predicate Appends(c: Components, field: string, args: seq<GoValue>)
    requires |args| == 2
  {
    forall item, xs, ys ::
      && Gives(item, field, IsField(field, args[0]), args[0], xs)
      && Gives(item, field, !IsField(field, args[0]) && IsField(field, args[1]), args[1], ys) ==>
        Leaves(c, item, field, L(xs + ys))
  }

  /** if_not_exists leaves an attribute that is there, and gives one that is not its default. */
  ghost predicate Defaults(c: Components, field: string, value: GoValue)
    requires Convert(value).Ok?
  {
    forall item :: Leaves(c, item, field, if field in item then item[field] else Convert(value).value)
  }

  lemma OneOfKind(e: Effect)
    ensures InSections([e]) == [e]
  {
    forall a ensures OfKind([e], a) == if EffectAction(e) == a then [e] else [] {
      assert [e][..0] == [];
    }
  }

  lemma CallPerforms(c: Components, item: Item, e: Effect, field: string, av: AttributeValue)
    requires UpdateDoes(c.update, c.names, c.values, [e])
    requires forall other :: Act(item, e, other) == item[field := av]
    ensures Leaves(c, item, field, av)
  {
    forall other ensures Performed(item, c.update, c.names, c.values, other) == item[field := av] {
      PerformedIs(item, c.update, c.names, c.values, other, [e]);
      OneOfKind(e);
      OneAct(item, e, other);
    }
  }

  lemma AppendPerforms(p: Policy, c: Components, field: string, args: seq<GoValue>)
    requires IsAttribute(field) && FunctionOk(p, field, "list_append", args)
    requires UpdateDoes(c.update, c.names, c.values, [FunctionEffect(p, field, "list_append", args)])
    ensures Appends(c, field, args)
  {
    TopOf(field);
    var e := FunctionEffect(p, field, "list_append", args);
    forall item, xs, ys |
      && Gives(item, field, IsField(field, args[0]), args[0], xs)
      && Gives(item, field, !IsField(field, args[0]) && IsField(field, args[1]), args[1], ys)
      ensures Leaves(c, item, field, L(xs + ys))
    {
      CallPerforms(c, item, e, field, L(xs + ys));
    }
  }

  lemma DefaultPerforms(p: Policy, c: Components, field: string, args: seq<GoValue>)
    requires IsAttribute(field) && FunctionOk(p, field, "if_not_exists", args)
    requires UpdateDoes(c.update, c.names, c.values, [FunctionEffect(p, field, "if_not_exists", args)])
    ensures Defaults(c, field, args[1])
  {
    TopOf(field);
    var e := FunctionEffect(p, field, "if_not_exists", args);
    forall item ensures Leaves(c, item, field, if field in item then item[field] else Convert(args[1]).value) {
      CallPerforms(c, item, e, field, if field in item then item[field] else Convert(args[1]).value);
    }
  }

  method AddCall(b: Builder, field: string, fn: string, args: seq<GoValue>) returns (ok: bool)
    requires b.Sound() && b.Counted() && b.UpdatesSound() && b.effects == [] && Clear(b.policy, b.names, field)
    modifies b`names, b`nameCounter, b`values, b`valueCounter, b`updateExpressions, b`added, b`effects, b`marks
    ensures b.Sound() && b.UpdatesSound() && (ok <==> FunctionOk(b.policy, field, fn, args))
    ensures ok ==> b.effects == [FunctionEffect(b.policy, field, fn, args)]
  {
    ghost var ref;
    ok, ref := b.AddUpdateFunction(field, fn, args);
  }

  method Printed(policy: Policy, field: string, fn: string, args: seq<GoValue>) returns (ok: bool, c: Components)
    requires Clear(policy, map[], field)
    ensures ok <==> FunctionOk(policy, field, fn, args)
    ensures ok ==> UpdateDoes(c.update, c.names, c.values, [FunctionEffect(policy, field, fn, args)])
  {
    var b := new Builder(policy);
    ok := AddCall(b, field, fn, args);
    c := b.Build();
  }

  /**
   One call, from its arguments to the stored item: performing the text Build prints appends, in the order of the
   arguments, or gives a default.
   */
  method Call(policy: Policy, field: string, fn: string, args: seq<GoValue>) returns (ok: bool, c: Components)
    requires Clear(policy, map[], field)
    ensures ok <==> FunctionOk(policy, field, fn, args)
    ensures ok && IsAttribute(field) && fn == "list_append" ==> Appends(c, field, args)
    ensures ok && IsAttribute(field) && fn == "if_not_exists" ==> Defaults(c, field, args[1])
  {
    ok, c := Printed(policy, field, fn, args);
    if ok && IsAttribute(field) {
      if fn == "list_append" {
        AppendPerforms(policy, c, field, args);
      } else {
        DefaultPerforms(policy, c, field, args);
      }
    }
  }
}
