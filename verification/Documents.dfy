/** Document paths of an item: attributes, map entries and list elements, as DynamoDB reads them. */
module Documents {
  import opened Text
  import opened Attributes
  import opened ConditionMeaning

  /** The element behind a run of list indexes such as `[3][0]`. */
  function Below(v: AttributeValue, indexes: string): Option<AttributeValue>
    decreases |indexes|
  {
    if indexes == "" then Some(v)
    else
      var n := Span(indexes[1..], c => IsDigit(c));
      if indexes[0] != '[' || n == 0 || n + 1 == |indexes| || indexes[n + 1] != ']' || !v.L? then None
      else
        var k := DecimalValue(indexes[1..][..n]);
        if k < |v.items| then Below(v.items[k], indexes[n + 2..]) else None
  }

  /** The value under a document path, which goes through maps and lists. */
  function AtPath(fields: Item, steps: seq<Step>): Option<AttributeValue>
    decreases |steps|
  {
    if steps == [] || steps[0].name !in fields then None
    else
      var found := Below(fields[steps[0].name], steps[0].indexes);
      if |steps| == 1 || found.None? then found
      else if found.value.M? then AtPath(found.value.fields, steps[1..])
      else None
  }

  /** Keys are strings, numbers and bytes. */
  predicate IsScalar(v: AttributeValue) {
    v.S? || v.N? || v.B?
  }

  /** Nothing is stored below a scalar. */
  lemma ScalarPath(fields: Item, steps: seq<Step>)
    requires steps != [] && (|steps| > 1 || steps[0].indexes != "")
    requires forall a :: a in fields ==> IsScalar(fields[a])
    ensures AtPath(fields, steps) == None
  {
  }
}
