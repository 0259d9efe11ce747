/** How the builder names attributes and values: addNameSecure and addValueSecure (internal/expr/builder.go). */
module Placeholders {
  import opened Text
  import opened Attributes
  import opened ConditionGrammar
  import opened ConditionMeaning
  import opened ConditionPrinter

  predicate IsUpperWord(w: string) {
    w != "" && forall i :: 0 <= i < |w| ==> 'A' <= w[i] <= 'Z'
  }

  /** The table of reserved words is a set of upper-case words. */
  type ReservedWords = ws: set<string> | forall w :: w in ws ==> IsUpperWord(w) witness {}

  /** The reserved words, the accept-or-reject answers of pkg/validation, and the conversion of slices to sets. */
  datatype Policy = Policy(
    reserved: ReservedWords,
    fieldOk: string -> bool,
    operatorOk: string -> bool,
    valueOk: GoValue -> bool,
    toSet: GoValue -> Result<AttributeValue>)

  function NamePlaceholder(k: nat): string {
    "#n" + Itoa(k)
  }

  function ReservedPlaceholder(part: string): string {
    "#" + Upper(part)
  }

  function ValuePlaceholder(k: nat): string {
    ":v" + Itoa(k)
  }

  predicate IsReserved(p: Policy, part: string) {
    Upper(part) in p.reserved
  }

  // ---- Names ----

  datatype Naming = Naming(names: Names, counter: nat)

  function PlaceholderFor(p: Policy, counter: nat, part: string): string {
    if IsReserved(p, part) then ReservedPlaceholder(part) else NamePlaceholder(counter + 1)
  }

  function AddPart(p: Policy, s: Naming, part: string): Naming {
    Naming(s.names[PlaceholderFor(p, s.counter, part) := part], s.counter + 1)
  }

  /** Parts are named from left to right, up to the first one that validation rejects. */
  function AddParts(p: Policy, s: Naming, parts: seq<string>): Naming
    decreases |parts|
  {
    if parts == [] || !p.fieldOk(parts[0]) then s else AddParts(p, AddPart(p, s, parts[0]), parts[1..])
  }

  function PartRefs(p: Policy, counter: nat, parts: seq<string>): seq<string>
    decreases |parts|
  {
    if parts == [] then [] else [PlaceholderFor(p, counter, parts[0])] + PartRefs(p, counter + 1, parts[1..])
  }

  predicate PartsOk(p: Policy, parts: seq<string>) {
    forall i :: 0 <= i < |parts| ==> p.fieldOk(parts[i])
  }

  /**
   addNameSecure: every state and placeholder it can end with; which of several bound placeholders it finds is open.
   */
  ghost predicate Named(p: Policy, s: Naming, name: string, s': Naming, ref: string) {
    if !p.fieldOk(name) then s' == s && ref == "#invalid"
    else if name in s.names.Values then s' == s && ref in s.names && s.names[ref] == name
    else
      var parts := Split(name, '.');
      && s' == AddParts(p, s, parts)
      && ref == if PartsOk(p, parts) then Join(PartRefs(p, s.counter, parts), ".") else "#invalid"
  }

  /** What is bound afterwards does not depend on the placeholder that is found. */
  function NamingAfter(p: Policy, s: Naming, name: string): Naming {
    if !p.fieldOk(name) || name in s.names.Values then s else AddParts(p, s, Split(name, '.'))
  }

  lemma NamedAfter(p: Policy, s: Naming, name: string, s': Naming, ref: string)
    requires Named(p, s, name, s', ref)
    ensures s' == NamingAfter(p, s, name)
  {
  }

  /**
   Placeholders are plain `#` words for dotless names, none is bound that the counter has yet to issue, and the word
   that stands for rejected names is never bound.
   */
  ghost predicate WellNamed(s: Naming) {
    && (forall ph :: ph in s.names ==> IsPlainRef(ph) && '.' !in s.names[ph])
    && (forall k: nat :: k > s.counter ==> NamePlaceholder(k) !in s.names)
    && "#invalid" !in s.names
  }

  predicate IsPlainRef(ph: string) {
    IsNameRef(ph) && '.' !in ph && '[' !in ph
  }

  /** A reserved part whose placeholder is taken by another spelling would be rebound. */
  predicate SpelledAs(p: Policy, names: Names, part: string) {
    IsReserved(p, part) && ReservedPlaceholder(part) in names ==> names[ReservedPlaceholder(part)] == part
  }

  /** Reserved words are spelled one way throughout a path and as they were spelled before. */
  predicate PartsClear(p: Policy, names: Names, parts: seq<string>) {
    && PartsOk(p, parts)
    && (forall i :: 0 <= i < |parts| ==> SpelledAs(p, names, parts[i]))
    && (forall i, j :: 0 <= i < j < |parts| && IsReserved(p, parts[i]) && Upper(parts[i]) == Upper(parts[j]) ==>
          parts[i] == parts[j])
  }

  /** Nothing bound so far is going to be respelled. */
  predicate Unrespelled(p: Policy, names: Names, name: string) {
    p.fieldOk(name) && (name in names.Values || PartsClear(p, names, Split(name, '.')))
  }

  /** The caller can check this before adding `name`: it holds no list index and respells nothing bound so far. */
  predicate Clear(p: Policy, names: Names, name: string) {
    Unrespelled(p, names, name) && '[' !in name
  }

  /** One part of a field name, as validation lets it be written: an attribute and the list indexes behind it. */
  function FieldStep(part: string): Step {
    var n := Span(part, c => c != '[');
    Step(part[..n], part[n..])
  }

  function Steps(parts: seq<string>): (steps: seq<Step>)
    ensures |steps| == |parts|
    ensures forall i :: 0 <= i < |parts| ==> steps[i] == FieldStep(parts[i])
  {
    seq(|parts|, i requires 0 <= i < |parts| => FieldStep(parts[i]))
  }

  /** The attribute a field starts at. */
  function Head(field: string): string {
    FieldStep(Split(field, '.')[0]).name
  }

  /** The attribute path a field name stands for. */
  function FieldPath(name: string): Term {
    Path(Steps(Split(name, '.')))
  }

  function LiteralSteps(parts: seq<string>): (steps: seq<Step>)
    ensures |steps| == |parts|
    ensures forall i :: 0 <= i < |parts| ==> steps[i] == Step(parts[i], "")
  {
    seq(|parts|, i requires 0 <= i < |parts| => Step(parts[i], ""))
  }

  /** The path whose attributes are called what the parts are, brackets and all. */
  function LiteralPath(name: string): Term {
    Path(LiteralSteps(Split(name, '.')))
  }

  lemma FieldStepPlain(part: string)
    ensures FieldStep(part) == Step(part, "") <==> '[' !in part
  {
    if '[' !in part {
      SpanCat(part, "", c => c != '[');
      assert part + "" == part && part[..|part|] == part;
    }
  }

  /** A field is taken literally for what it stands for exactly when it holds no list index. */
  lemma LiteralExactly(name: string)
    ensures LiteralPath(name) == FieldPath(name) <==> '[' !in name
  {
    var parts := Split(name, '.');
    SplitHas(name, '.', '[');
    forall i | 0 <= i < |parts| ensures Steps(parts)[i] == LiteralSteps(parts)[i] <==> '[' !in parts[i] {
      FieldStepPlain(parts[i]);
    }
    if '[' !in name {
      assert Steps(parts) == LiteralSteps(parts);
    } else {
      var i :| 0 <= i < |parts| && '[' in parts[i];
      assert Steps(parts)[i] != LiteralSteps(parts)[i];
    }
  }

  lemma NamePlaceholderPlain(k: nat)
    ensures IsPlainRef(NamePlaceholder(k)) && NamePlaceholder(k) != "#invalid"
  {
    var d := Itoa(k);
    var w := NamePlaceholder(k);
    assert w[1] == 'n' && "#invalid"[1] == 'i';
    forall i | 0 <= i < |w| ensures IsNameChar(w[i]) && w[i] != '.' && w[i] != '[' {
      if i >= 2 {
        assert w[i] == d[i - 2] && IsDigit(d[i - 2]);
      }
    }
  }

  lemma ReservedPlaceholderPlain(p: Policy, part: string)
    requires IsReserved(p, part)
    ensures IsPlainRef(ReservedPlaceholder(part)) && ReservedPlaceholder(part) != "#invalid"
    ensures forall k: nat :: NamePlaceholder(k) != ReservedPlaceholder(part)
  {
    var u := Upper(part);
    assert IsUpperWord(u);
    var w := ReservedPlaceholder(part);
    assert w[1] == u[0] && "#invalid"[1] == 'i';
    forall i | 0 <= i < |w| ensures IsNameChar(w[i]) && w[i] != '.' && w[i] != '[' {
      if i >= 1 {
        assert w[i] == u[i - 1];
      }
    }
    forall k: nat ensures NamePlaceholder(k) != w {
      assert NamePlaceholder(k)[1] == 'n' && w[1] == u[0];
    }
  }

  lemma NamePlaceholderInjective(a: nat, b: nat)
    requires NamePlaceholder(a) == NamePlaceholder(b)
    ensures a == b
  {
    assert NamePlaceholder(a)[2..] == Itoa(a) && NamePlaceholder(b)[2..] == Itoa(b);
    ItoaInjective(a, b);
  }

  lemma AddPartStep(p: Policy, s: Naming, part: string)
    requires WellNamed(s) && '.' !in part
    ensures WellNamed(AddPart(p, s, part))
    ensures SpelledAs(p, s.names, part) <==> Extends(s.names, AddPart(p, s, part).names)
  {
    var ph := PlaceholderFor(p, s.counter, part);
    if IsReserved(p, part) {
      ReservedPlaceholderPlain(p, part);
    } else {
      NamePlaceholderPlain(s.counter + 1);
      assert ph !in s.names;
    }
    forall k: nat | k > s.counter + 1 ensures NamePlaceholder(k) !in AddPart(p, s, part).names {
      if NamePlaceholder(k) == ph {
        NamePlaceholderInjective(k, s.counter + 1);
      }
    }
    if !SpelledAs(p, s.names, part) {
      assert ph in s.names && AddPart(p, s, part).names[ph] != s.names[ph];
    }
  }

  predicate Dotless(parts: seq<string>) {
    forall i :: 0 <= i < |parts| ==> '.' !in parts[i]
  }

  lemma {:induction false} AddPartsWellNamed(p: Policy, s: Naming, parts: seq<string>)
    requires WellNamed(s) && Dotless(parts)
    ensures WellNamed(AddParts(p, s, parts))
    decreases |parts|
  {
    if parts != [] && p.fieldOk(parts[0]) {
      AddPartStep(p, s, parts[0]);
      AddPartsWellNamed(p, AddPart(p, s, parts[0]), parts[1..]);
    }
  }

  lemma ClearTail(p: Policy, s: Naming, parts: seq<string>)
    requires WellNamed(s) && Dotless(parts) && parts != [] && PartsClear(p, s.names, parts)
    ensures PartsClear(p, AddPart(p, s, parts[0]).names, parts[1..])
  {
    var ph := PlaceholderFor(p, s.counter, parts[0]);
    var rest := parts[1..];
    assert forall i :: 0 <= i < |rest| ==> rest[i] == parts[i + 1];
    forall i | 0 <= i < |rest| ensures SpelledAs(p, AddPart(p, s, parts[0]).names, rest[i]) {
      assert SpelledAs(p, s.names, parts[i + 1]);
      if IsReserved(p, rest[i]) && ReservedPlaceholder(rest[i]) == ph {
        ReservedPlaceholderPlain(p, rest[i]);
        assert IsReserved(p, parts[0]);
        assert ReservedPlaceholder(rest[i])[1..] == Upper(rest[i]) && ph[1..] == Upper(parts[0]);
      }
    }
  }

  /** Naming a clear path extends the bindings, and its placeholders stand for its parts. */
  lemma {:induction false} AddPartsClear(p: Policy, s: Naming, parts: seq<string>)
    requires WellNamed(s) && Dotless(parts) && PartsClear(p, s.names, parts)
    ensures Extends(s.names, AddParts(p, s, parts).names)
    ensures var refs := PartRefs(p, s.counter, parts);
            && |refs| == |parts|
            && forall i :: 0 <= i < |parts| ==>
                 IsPlainRef(refs[i]) && refs[i] in AddParts(p, s, parts).names &&
                 AddParts(p, s, parts).names[refs[i]] == parts[i]
    decreases |parts|
  {
    if parts != [] {
      var s' := AddPart(p, s, parts[0]);
      AddPartStep(p, s, parts[0]);
      ClearTail(p, s, parts);
      AddPartsClear(p, s', parts[1..]);
      var refs := PartRefs(p, s.counter, parts);
      var ph := PlaceholderFor(p, s.counter, parts[0]);
      assert ph in s'.names && IsPlainRef(ph);
      forall i | 0 <= i < |parts|
        ensures IsPlainRef(refs[i]) && refs[i] in AddParts(p, s, parts).names
        ensures AddParts(p, s, parts).names[refs[i]] == parts[i]
      {
        assert i > 0 ==> refs[i] == PartRefs(p, s'.counter, parts[1..])[i - 1];
      }
    }
  }

  lemma SplitDotless(s: string)
    ensures Dotless(Split(s, '.'))
    ensures '.' !in s ==> Split(s, '.') == [s]
  {
    SplitParts(s, '.');
    if '.' !in s {
      SplitJoin([s], '.');
    }
  }

  lemma {:induction false} JoinedRefs(refs: seq<string>)
    requires refs != [] && forall i :: 0 <= i < |refs| ==> IsPlainRef(refs[i])
    ensures IsNameRef(Join(refs, ".")) && '[' !in Join(refs, ".")
  {
    if |refs| > 1 {
      JoinedRefs(refs[1..]);
      var a, b := refs[0], Join(refs[1..], ".");
      var w := Join(refs, ".");
      assert w == a + "." + b;
      forall i | 0 <= i < |w| ensures IsNameChar(w[i]) && w[i] != '[' {
        if i > |a| {
          assert w[i] == b[i - |a| - 1];
        }
      }
    }
  }

  lemma {:induction false} ResolveRefs(refs: seq<string>, parts: seq<string>, names: Names)
    requires |refs| == |parts|
    requires forall i :: 0 <= i < |refs| ==> IsPlainRef(refs[i]) && refs[i] in names && names[refs[i]] == parts[i]
    ensures ResolveSteps(refs, names) == Some(LiteralSteps(parts))
  {
    if refs != [] {
      var ph := refs[0];
      SpanCat(ph, "", c => c != '[');
      assert ph + "" == ph && ph[..|ph|] == ph && ph[|ph|..] == "";
      assert ResolveStep(ph, names) == Some(Step(parts[0], ""));
      ResolveRefs(refs[1..], parts[1..], names);
      assert LiteralSteps(parts) == [Step(parts[0], "")] + LiteralSteps(parts[1..]);
    }
  }

  /** Placeholders that stand for these parts, joined by dots, mean the path of the parts. */
  lemma JoinedLiteral(refs: seq<string>, parts: seq<string>, names: Names)
    requires refs != [] && |refs| == |parts|
    requires forall i :: 0 <= i < |refs| ==> IsPlainRef(refs[i]) && refs[i] in names && names[refs[i]] == parts[i]
    ensures IsNameRef(Join(refs, ".")) && '[' !in Join(refs, ".")
    ensures forall values :: ResolveOperand(Ref(Join(refs, ".")), names, values) == Path(LiteralSteps(parts))
  {
    ResolveRefs(refs, parts, names);
    JoinedRefs(refs);
    SplitJoin(refs, '.');
    assert [ '.' ] == ".";
  }

  /** A name that respells nothing gets a reference that takes it literally, and nothing bound before changes. */
  lemma NameLiteral(p: Policy, s: Naming, name: string, s': Naming, ref: string)
    requires WellNamed(s) && Named(p, s, name, s', ref) && Unrespelled(p, s.names, name)
    ensures Extends(s.names, s'.names)
    ensures IsNameRef(ref) && '[' !in ref
    ensures forall values :: ResolveOperand(Ref(ref), s'.names, values) == LiteralPath(name)
  {
    SplitDotless(name);
    if name in s.names.Values {
      assert '.' !in s.names[ref];
      JoinedLiteral([ref], [name], s'.names);
    } else {
      AddPartsClear(p, s, Split(name, '.'));
      JoinedLiteral(PartRefs(p, s.counter, Split(name, '.')), Split(name, '.'), s'.names);
    }
  }

  /** A clear name gets a reference that means it, and nothing bound before changes. */
  lemma NameMeans(p: Policy, s: Naming, name: string, s': Naming, ref: string)
    requires WellNamed(s) && Named(p, s, name, s', ref) && Clear(p, s.names, name)
    ensures Extends(s.names, s'.names)
    ensures IsNameRef(ref) && '[' !in ref
    ensures forall values :: ResolveOperand(Ref(ref), s'.names, values) == FieldPath(name)
  {
    NameLiteral(p, s, name, s', ref);
    LiteralExactly(name);
  }

  lemma {:induction false} PartRefsPlain(p: Policy, counter: nat, parts: seq<string>)
    ensures |PartRefs(p, counter, parts)| == |parts|
    ensures forall i :: 0 <= i < |parts| ==> IsPlainRef(PartRefs(p, counter, parts)[i])
    decreases |parts|
  {
    if parts != [] {
      if IsReserved(p, parts[0]) {
        ReservedPlaceholderPlain(p, parts[0]);
      } else {
        NamePlaceholderPlain(counter + 1);
      }
      PartRefsPlain(p, counter + 1, parts[1..]);
    }
  }

  /** Whatever a name becomes, its reference is one printable word. */
  lemma NamedRef(p: Policy, s: Naming, name: string, s': Naming, ref: string)
    requires WellNamed(s) && Named(p, s, name, s', ref)
    ensures IsNameRef(ref) && '[' !in ref
  {
    if ref == "#invalid" {
    } else if name !in s.names.Values {
      var refs := PartRefs(p, s.counter, Split(name, '.'));
      PartRefsPlain(p, s.counter, Split(name, '.'));
      JoinedRefs(refs);
    }
  }

  lemma NamedWellNamed(p: Policy, s: Naming, name: string, s': Naming, ref: string)
    requires WellNamed(s) && Named(p, s, name, s', ref)
    ensures WellNamed(s')
  {
    SplitDotless(name);
    AddPartsWellNamed(p, s, Split(name, '.'));
  }

  /** A run of placeholders that means these parts has each of them bound to its own part, which holds no index. */
  lemma {:induction false} RefsResolved(refs: seq<string>, parts: seq<string>, names: Names)
    requires |refs| == |parts| && forall i :: 0 <= i < |refs| ==> IsPlainRef(refs[i])
    requires ResolveSteps(refs, names) == Some(Steps(parts))
    ensures forall i :: 0 <= i < |refs| ==> refs[i] in names && names[refs[i]] == parts[i] && '[' !in parts[i]
  {
    if refs != [] {
      RefResolved(refs[0], parts[0], names, Steps(parts)[0]);
      assert Steps(parts)[1..] == Steps(parts[1..]);
      assert ResolveSteps(refs[1..], names) == Some(Steps(parts)[1..]);
      RefsResolved(refs[1..], parts[1..], names);
    }
  }

  lemma RefResolved(ref: string, part: string, names: Names, step: Step)
    requires IsPlainRef(ref) && step == FieldStep(part) && ResolveStep(ref, names) == Some(step)
    ensures ref in names && names[ref] == part && '[' !in part
  {
    SpanCat(ref, "", c => c != '[');
    assert ref + "" == ref && ref[..|ref|] == ref && ref[|ref|..] == "";
    var n := Span(part, c => c != '[');
    assert part == part[..n] + part[n..];
    FieldStepPlain(part);
  }

  lemma {:induction false} PartRefAt(p: Policy, counter: nat, parts: seq<string>, i: nat)
    requires i < |parts|
    ensures |PartRefs(p, counter, parts)| == |parts|
    ensures PartRefs(p, counter, parts)[i] == PlaceholderFor(p, counter + i, parts[i])
    decreases |parts|
  {
    PartRefsPlain(p, counter, parts);
    if i > 0 {
      PartRefAt(p, counter + 1, parts[1..], i - 1);
    }
  }

  /** Parts whose placeholders all mean them, with nothing bound before changed, respell no reserved word. */
  lemma ResolvedPartsClear(p: Policy, s: Naming, parts: seq<string>, names: Names)
    requires PartsOk(p, parts) && Extends(s.names, names)
    requires ResolveSteps(PartRefs(p, s.counter, parts), names) == Some(Steps(parts))
    ensures PartsClear(p, s.names, parts) && forall i :: 0 <= i < |parts| ==> '[' !in parts[i]
  {
    var refs := PartRefs(p, s.counter, parts);
    PartRefsPlain(p, s.counter, parts);
    RefsResolved(refs, parts, names);
    forall i | 0 <= i < |parts| ensures IsReserved(p, parts[i]) ==> refs[i] == ReservedPlaceholder(parts[i]) {
      PartRefAt(p, s.counter, parts, i);
    }
  }

  /** No attribute is meant by the word that stands for rejected names. */
  lemma InvalidUnbound(s: Naming, values: Values)
    requires WellNamed(s)
    ensures ResolveOperand(Ref("#invalid"), s.names, values) == Unbound
  {
    PlainUnbound("#invalid", s.names, values);
  }

  lemma PlainUnbound(ref: string, names: Names, values: Values)
    requires IsPlainRef(ref) && ref !in names
    ensures ResolveOperand(Ref(ref), names, values) == Unbound
  {
    SplitDotless(ref);
    SpanCat(ref, "", c => c != '[');
    assert ref + "" == ref && ref[..|ref|] == ref;
    assert ResolveStep(ref, names) == None;
  }

  /** The reference means the name it was made for, and everything bound before is bound as it was. */
  ghost predicate NamedAsMeant(s: Naming, name: string, s': Naming, ref: string) {
    Extends(s.names, s'.names) && forall values :: ResolveOperand(Ref(ref), s'.names, values) == FieldPath(name)
  }

  /** What a name's parts were named, when their joined placeholders mean the name. */
  lemma JoinedMeans(p: Policy, counter: nat, name: string, names: Names)
    requires ResolveOperand(Ref(Join(PartRefs(p, counter, Split(name, '.')), ".")), names, map[]) == FieldPath(name)
    ensures ResolveSteps(PartRefs(p, counter, Split(name, '.')), names) == Some(Steps(Split(name, '.')))
  {
    var refs := PartRefs(p, counter, Split(name, '.'));
    PartRefsPlain(p, counter, Split(name, '.'));
    SplitJoin(refs, '.');
    assert ['.'] == ".";
  }

  lemma MeantIsClear(p: Policy, s: Naming, name: string, s': Naming, ref: string)
    requires WellNamed(s) && Named(p, s, name, s', ref) && NamedAsMeant(s, name, s', ref)
    ensures Clear(p, s.names, name)
  {
    NamedWellNamed(p, s, name, s', ref);
    InvalidUnbound(s', map[]);
    assert ResolveOperand(Ref(ref), s'.names, map[]) == FieldPath(name);
    if name in s.names.Values {
      NameLiteral(p, s, name, s', ref);
      LiteralExactly(name);
    } else {
      JoinedMeans(p, s.counter, name, s'.names);
      ResolvedPartsClear(p, s, Split(name, '.'), s'.names);
      SplitHas(name, '.', '[');
    }
  }

  /**
   The condition is exact, for every name, dotted or not, accepted or not: adding a name gives a reference that means
   it and leaves every earlier binding alone if and only if the name is accepted, part by part, holds no list index,
   and is already bound or respells no reserved word in use.
   */
  lemma RespellingExact(p: Policy, s: Naming, name: string, s': Naming, ref: string)
    requires WellNamed(s) && Named(p, s, name, s', ref)
    ensures NamedAsMeant(s, name, s', ref) <==> Clear(p, s.names, name)
  {
    if Clear(p, s.names, name) {
      NameMeans(p, s, name, s', ref);
    }
    if NamedAsMeant(s, name, s', ref) {
      MeantIsClear(p, s, name, s', ref);
    }
  }

  // ---- Values ----

  /** Binding values one after the other. */
  function BindAll(values: Values, counter: nat, avs: seq<AttributeValue>): Values
    decreases |avs|
  {
    if avs == [] then values
    else
      var k := |avs| - 1;
      BindAll(values, counter, avs[..k])[ValuePlaceholder(counter + k + 1) := avs[k]]
  }

  function ValueRefs(counter: nat, n: nat): (refs: seq<string>)
    ensures |refs| == n
    ensures forall i :: 0 <= i < n ==> refs[i] == ValuePlaceholder(counter + i + 1)
  {
    seq(n, i requires 0 <= i < n => ValuePlaceholder(counter + i + 1))
  }

  /** No placeholder is bound that the counter has yet to issue. */
  ghost predicate WellValued(values: Values, counter: nat) {
    forall k: nat :: k > counter ==> ValuePlaceholder(k) !in values
  }

  lemma ValuePlaceholderPlain(k: nat)
    ensures IsValueRef(ValuePlaceholder(k)) && '[' !in ValuePlaceholder(k)
  {
    var d := Itoa(k);
    var w := ValuePlaceholder(k);
    forall i | 0 <= i < |w| ensures IsNameChar(w[i]) && w[i] != '[' {
      if i >= 2 {
        assert w[i] == d[i - 2] && IsDigit(d[i - 2]);
      }
    }
  }

  lemma ValuePlaceholderInjective(a: nat, b: nat)
    requires ValuePlaceholder(a) == ValuePlaceholder(b)
    ensures a == b
  {
    assert ValuePlaceholder(a)[2..] == Itoa(a) && ValuePlaceholder(b)[2..] == Itoa(b);
    ItoaInjective(a, b);
  }

  /** The `i`-th value is found under the `i`-th placeholder issued after `counter`. */
  predicate BindsAt(out: Values, counter: nat, avs: seq<AttributeValue>, i: nat)
    requires i < |avs|
  {
    ValuePlaceholder(counter + i + 1) in out && out[ValuePlaceholder(counter + i + 1)] == avs[i]
  }

  /** Fresh placeholders: earlier bindings stay, and each new reference means its value. */
  lemma {:induction false} BindAllFresh(values: Values, counter: nat, avs: seq<AttributeValue>)
    requires WellValued(values, counter)
    ensures Extends(values, BindAll(values, counter, avs))
    ensures WellValued(BindAll(values, counter, avs), counter + |avs|)
    ensures forall i :: 0 <= i < |avs| ==> BindsAt(BindAll(values, counter, avs), counter, avs, i)
    decreases |avs|
  {
    if avs != [] {
      var k := |avs| - 1;
      BindAllFresh(values, counter, avs[..k]);
      var before := BindAll(values, counter, avs[..k]);
      var ph := ValuePlaceholder(counter + k + 1);
      assert ph !in before;
      assert BindAll(values, counter, avs) == before[ph := avs[k]];
      forall j: nat | j > counter + |avs| ensures ValuePlaceholder(j) !in before[ph := avs[k]] {
        if ValuePlaceholder(j) == ph { ValuePlaceholderInjective(j, counter + k + 1); }
      }
      forall i | 0 <= i < |avs| ensures BindsAt(BindAll(values, counter, avs), counter, avs, i) {
        if i < k {
          assert BindsAt(before, counter, avs[..k], i);
        }
      }
    }
  }

  // ---- One condition ----

  function ValueTerms(avs: seq<AttributeValue>): (ts: seq<Term>)
    ensures |ts| == |avs|
    ensures forall i :: 0 <= i < |avs| ==> ts[i] == Value(avs[i])
  {
    seq(|avs|, i requires 0 <= i < |avs| => Value(avs[i]))
  }

  /** The condition `field op values`, in the caller's terms. */
  function FieldCondition(op: Op, field: string, avs: seq<AttributeValue>): Meaning
    requires Arity(op, |avs|)
  {
    Condition(op, FieldPath(field), ValueTerms(avs))
  }

  lemma FieldConditionClosed(op: Op, field: string, avs: seq<AttributeValue>)
    requires Arity(op, |avs|)
    ensures Closed(FieldCondition(op, field, avs))
  {
    forall t | t in ValueTerms(avs) ensures t != Unbound {
      var i :| 0 <= i < |avs| && ValueTerms(avs)[i] == t;
    }
  }

  /** The references to the values bound last mean those values. */
  lemma ValuesMean(names: Names, values: Values, counter: nat, avs: seq<AttributeValue>)
    requires forall i :: 0 <= i < |avs| ==> BindsAt(values, counter, avs, i)
    ensures AreValueRefs(ValueRefs(counter, |avs|))
    ensures ResolveOperands(Refs(ValueRefs(counter, |avs|)), names, values) == ValueTerms(avs)
  {
    var refs := ValueRefs(counter, |avs|);
    forall i | 0 <= i < |refs|
      ensures IsValueRef(refs[i]) && ResolveOperand(Refs(refs)[i], names, values) == Value(avs[i])
    {
      ValuePlaceholderPlain(counter + i + 1);
      assert BindsAt(values, counter, avs, i);
    }
  }

  /** The text printed for a condition means that condition under the bindings made for it. */
  lemma ConditionDenotes(
    p: Policy, s: Naming, field: string, s': Naming, ref: string,
    op: Op, values: Values, counter: nat, avs: seq<AttributeValue>)
    requires WellNamed(s) && Named(p, s, field, s', ref) && Clear(p, s.names, field)
    requires WellValued(values, counter)
    requires Arity(op, |avs|) && !(op == InOp && avs == [])
    ensures DenotesAtom(ConditionText(op, ref, ValueRefs(counter, |avs|)), s'.names, BindAll(values, counter, avs),
                        FieldCondition(op, field, avs))
  {
    var refs := ValueRefs(counter, |avs|);
    var values' := BindAll(values, counter, avs);
    NameMeans(p, s, field, s', ref);
    BindAllFresh(values, counter, avs);
    ValuesMean(s'.names, values', counter, avs);
    ReadCondition(op, ref, refs);
    ResolveCondition(op, Ref(ref), Refs(refs), s'.names, values');
    assert ReadsAtom(ConditionText(op, ref, refs), Condition(op, Ref(ref), Refs(refs)));
  }

  lemma ResolveCondition(op: Op, x: Operand, xs: seq<Operand>, names: Names, values: Values)
    requires Arity(op, |xs|)
    ensures Resolve(Condition(op, x, xs), names, values) ==
            Condition(op, ResolveOperand(x, names, values), ResolveOperands(xs, names, values))
  {
    if op.BeginsWith? || op.Contains? {
      assert ResolveOperands([x, xs[0]], names, values) ==
             [ResolveOperand(x, names, values), ResolveOperands(xs, names, values)[0]];
    } else if op.Exists? || op.NotExists? {
      assert ResolveOperands([x], names, values) == [ResolveOperand(x, names, values)];
    }
  }
}
