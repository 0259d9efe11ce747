/** The update clauses a builder has collected, and the text `Build` prints for them (internal/expr/builder.go). */
module UpdateClauses {
  import opened Text
  import opened Attributes
  import opened ConditionMeaning
  import opened Placeholders
  import opened UpdateMeaning
  import opened UpdateReparse
  import opened UpdateText

  /** The stored texts by action, the clauses behind them in the order of the calls, and the counter after each call. */
  datatype Updates = Updates(texts: map<Action, seq<string>>, added: seq<Clause>, marks: seq<nat>)

  /** The clauses of one action, in the order they were added. */
  function OfAction(cs: seq<Clause>, a: Action): (picked: seq<Clause>)
    ensures forall c :: c in picked ==> c in cs && ActionOf(c) == a
  {
    if cs == [] then []
    else
      var k := |cs| - 1;
      OfAction(cs[..k], a) + if ActionOf(cs[k]) == a then [cs[k]] else []
  }

  function TextsFor(m: map<Action, seq<string>>, a: Action): seq<string> {
    if a in m then m[a] else []
  }

  function WithClause(u: Updates, c: Clause, mark: nat): Updates {
    var a := ActionOf(c);
    Updates(u.texts[a := TextsFor(u.texts, a) + [ClauseText(c)]], u.added + [c], u.marks + [mark])
  }

  /** The value placeholders of a clause. */
  function Uses(c: Clause): set<string> {
    match c
    case SetClause(_, FromValue(v)) => {v}
    case SetClause(_, IfNotExists(_, d)) => {d}
    case SetClause(_, ListAppend(a, b)) => set w | w in {a, b} && IsValuePlaceholder(w)
    case AddClause(_, v) => {v}
    case RemoveClause(_) => {}
    case DeleteClause(_, v) => {v}
  }

  predicate Numbered(w: string, lo: nat, hi: nat) {
    exists k: nat :: lo < k <= hi && w == ValuePlaceholder(k)
  }

  /** The clause's values were issued when the counter went from `lo` to `hi`. */
  predicate IssuedBetween(c: Clause, lo: nat, hi: nat) {
    forall w :: w in Uses(c) ==> Numbered(w, lo, hi)
  }

  function LastMark(marks: seq<nat>): nat {
    if marks == [] then 0 else marks[|marks| - 1]
  }

  /** Each clause has values of its own. */
  predicate Marked(cs: seq<Clause>, marks: seq<nat>) {
    && |marks| == |cs|
    && (forall i, j :: 0 <= i < j < |marks| ==> marks[i] <= marks[j])
    && (forall i :: 0 <= i < |cs| ==> IssuedBetween(cs[i], LastMark(marks[..i]), marks[i]))
  }

  ghost predicate SoundAction(u: Updates, a: Action) {
    && TextsFor(u.texts, a) == ClauseTexts(OfAction(u.added, a))
    && (a in u.texts <==> OfAction(u.added, a) != [])
  }

  /** The stored texts are printed clauses of one word per placeholder, and no two clauses share a value. */
  ghost predicate SoundUpdates(u: Updates) {
    (forall a :: SoundAction(u, a)) && AllWellFormed(u.added) && Marked(u.added, u.marks)
  }

  lemma NoUpdates(u: Updates)
    requires u == Updates(map[], [], [])
    ensures SoundUpdates(u)
  {
    forall a ensures SoundAction(u, a) {
      assert ClauseTexts([]) == [];
    }
  }

  lemma ActionJoins(u: Updates, c: Clause, mark: nat, a: Action)
    requires SoundAction(u, a)
    ensures SoundAction(WithClause(u, c, mark), a)
  {
    var cs := OfAction(u.added, a);
    assert (u.added + [c])[..|u.added|] == u.added;
    assert ClauseTexts(cs + [c]) == ClauseTexts(cs) + [ClauseText(c)];
    assert cs + [] == cs;
  }

  lemma MarkJoins(cs: seq<Clause>, marks: seq<nat>, c: Clause, mark: nat)
    requires Marked(cs, marks) && LastMark(marks) <= mark && IssuedBetween(c, LastMark(marks), mark)
    ensures Marked(cs + [c], marks + [mark])
  {
    forall i | 0 <= i <= |cs|
      ensures IssuedBetween((cs + [c])[i], LastMark((marks + [mark])[..i]), (marks + [mark])[i])
    {
      assert (marks + [mark])[..i] == marks[..i];
      assert i == |cs| ==> marks[..i] == marks;
    }
  }

  /** The clause's values were issued since the last clause was added. */
  predicate Joins(u: Updates, c: Clause, mark: nat) {
    WellFormed(c) && LastMark(u.marks) <= mark && IssuedBetween(c, LastMark(u.marks), mark)
  }

  /** A clause whose values were just issued joins the collected ones. */
  lemma ClauseJoins(u: Updates, c: Clause, mark: nat)
    requires SoundUpdates(u) && Joins(u, c, mark)
    ensures SoundUpdates(WithClause(u, c, mark))
  {
    forall a ensures SoundAction(WithClause(u, c, mark), a) {
      ActionJoins(u, c, mark, a);
    }
    MarkJoins(u.added, u.marks, c, mark);
  }

  lemma UsesDistinct(cs: seq<Clause>, marks: seq<nat>, i: nat, j: nat)
    requires Marked(cs, marks) && i < j < |cs|
    ensures Uses(cs[i]) !! Uses(cs[j])
  {
    assert marks[..j][|marks[..j]| - 1] == marks[j - 1];
    forall w | w in Uses(cs[i]) && w in Uses(cs[j]) ensures false {
      assert Numbered(w, LastMark(marks[..i]), marks[i]) && Numbered(w, LastMark(marks[..j]), marks[j]);
      var a: nat :| LastMark(marks[..i]) < a <= marks[i] && w == ValuePlaceholder(a);
      var b: nat :| LastMark(marks[..j]) < b <= marks[j] && w == ValuePlaceholder(b);
      ValuePlaceholderInjective(a, b);
    }
  }

  // ---- Printing ----

  predicate Distinct(order: seq<Action>) {
    forall i, j :: 0 <= i < j < |order| ==> order[i] != order[j]
  }

  /** The sections of an update, in the order its actions are visited. */
  function Sections(cs: seq<Clause>, order: seq<Action>): (ss: seq<Section>)
    ensures |ss| == |order|
    ensures forall i :: 0 <= i < |order| ==> ss[i] == Section(order[i], OfAction(cs, order[i]))
  {
    if order == [] then [] else [Section(order[0], OfAction(cs, order[0]))] + Sections(cs, order[1..])
  }

  function Printed(texts: map<Action, seq<string>>, order: seq<Action>): (ps: seq<string>)
    ensures |ps| == |order|
  {
    if order == [] then []
    else [ActionText(order[0]) + " " + Join(TextsFor(texts, order[0]), ", ")] + Printed(texts, order[1..])
  }

  lemma {:induction false} PrintedLast(texts: map<Action, seq<string>>, order: seq<Action>, a: Action)
    ensures Printed(texts, order + [a]) ==
            Printed(texts, order) + [ActionText(a) + " " + Join(TextsFor(texts, a), ", ")]
  {
    if order == [] {
      assert [a][1..] == [] && order + [a] == [a];
    } else {
      assert (order + [a])[1..] == order[1..] + [a];
      PrintedLast(texts, order[1..], a);
    }
  }

  lemma {:induction false} PrintedSections(u: Updates, order: seq<Action>)
    requires forall a :: SoundAction(u, a)
    ensures Printed(u.texts, order) == SectionTexts(Sections(u.added, order))
  {
    if order != [] {
      assert SoundAction(u, order[0]);
      PrintedSections(u, order[1..]);
      assert Sections(u.added, order)[1..] == Sections(u.added, order[1..]);
    }
  }

  lemma {:induction false} SectionClauses(cs: seq<Clause>, order: seq<Action>, a: Action)
    ensures ClausesOf(Sections(cs, order), a) == if a in order then OfAction(cs, a) else []
  {
    if order != [] && order[0] != a {
      assert Sections(cs, order)[1..] == Sections(cs, order[1..]);
      SectionClauses(cs, order[1..], a);
    }
  }

  /** Each action that has clauses is visited once. */
  predicate Visits(order: seq<Action>, cs: seq<Clause>) {
    Distinct(order) && forall a :: a in order <==> OfAction(cs, a) != []
  }

  lemma SectionsWellFormed(cs: seq<Clause>, order: seq<Action>)
    requires AllWellFormed(cs) && Visits(order, cs)
    ensures WellFormedSections(Sections(cs, order))
    ensures forall a :: ClausesOf(Sections(cs, order), a) == OfAction(cs, a)
  {
    forall a ensures ClausesOf(Sections(cs, order), a) == OfAction(cs, a) {
      SectionClauses(cs, order, a);
    }
    forall i | 0 <= i < |order| ensures OfAction(cs, order[i]) != [] {
      assert order[i] in order;
    }
    forall i, j | 0 <= i < |order| && 0 <= j < |OfAction(cs, order[i])|
      ensures WellFormed(OfAction(cs, order[i])[j]) && ActionOf(OfAction(cs, order[i])[j]) == order[i]
    {
      assert OfAction(cs, order[i])[j] in OfAction(cs, order[i]);
    }
  }

  /** The text is these clauses, in sections whose order is open. */
  ghost predicate Prints(text: string, cs: seq<Clause>) {
    AllWellFormed(cs) && exists order :: Visits(order, cs) && text == UpdateExpression(Sections(cs, order))
  }

  /** Whatever order the actions are visited in, what is printed is exactly the stored clauses. */
  lemma PrintedUpdate(u: Updates, order: seq<Action>)
    requires SoundUpdates(u)
    requires Distinct(order) && forall a :: a in order <==> TextsFor(u.texts, a) != []
    ensures Prints(Join(Printed(u.texts, order), " "), u.added)
  {
    PrintedSections(u, order);
    forall a ensures TextsFor(u.texts, a) != [] <==> OfAction(u.added, a) != [] {
      assert SoundAction(u, a);
    }
  }

  /** The text is the clauses of an update that does this, and every placeholder in it is bound. */
  ghost predicate UpdateDoes(text: string, names: Names, values: Values, es: seq<Effect>) {
    exists cs :: Prints(text, cs) && AllDo(cs, names, values, es)
  }

  lemma UpdateKept(text: string, names: Names, values: Values, names': Names, values': Values, es: seq<Effect>)
    requires UpdateDoes(text, names, values, es) && Extends(names, names') && Extends(values, values')
    ensures UpdateDoes(text, names', values', es)
  {
    var cs :| Prints(text, cs) && AllDo(cs, names, values, es);
    AllDoKept(cs, names, values, names', values', es);
  }
}
