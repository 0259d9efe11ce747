/**
 The condition texts that `Builder.buildCondition` formats (internal/expr/builder.go), and how the service reads them.
 */
module ConditionPrinter {
  import opened Text
  import opened Attributes
  import opened ConditionGrammar
  import opened ConditionMeaning

  /** The operators `buildCondition` supports, after its aliases are folded together. */
  datatype Op =
    | Cmp(cmp: Comparator)
    | BetweenOp
    | InOp
    | BeginsWith
    | Contains
    | Exists
    | NotExists

  /** The case split of `buildCondition` on `strings.ToUpper(operator)`. */
  function OpOf(operator: string): Option<Op> {
    var u := Upper(operator);
    if u == "=" || u == "EQ" then Some(Cmp(EQ))
    else if u == "!=" || u == "<>" || u == "NE" then Some(Cmp(NE))
    else if u == "<" || u == "LT" then Some(Cmp(LT))
    else if u == "<=" || u == "LE" then Some(Cmp(LE))
    else if u == ">" || u == "GT" then Some(Cmp(GT))
    else if u == ">=" || u == "GE" then Some(Cmp(GE))
    else if u == "BETWEEN" then Some(BetweenOp)
    else if u == "IN" then Some(InOp)
    else if u == "BEGINS_WITH" then Some(BeginsWith)
    else if u == "CONTAINS" then Some(Contains)
    else if u == "EXISTS" || u == "ATTRIBUTE_EXISTS" then Some(Exists)
    else if u == "NOT_EXISTS" || u == "ATTRIBUTE_NOT_EXISTS" then Some(NotExists)
    else None
  }

  function ComparatorText(c: Comparator): string {
    match c
    case EQ => "="
    case NE => "<>"
    case LT => "<"
    case LE => "<="
    case GT => ">"
    case GE => ">="
  }

  /** The number of value placeholders an operator's text takes, or any number up to 100 for IN. */
  predicate Arity(op: Op, n: nat) {
    match op
    case BetweenOp => n == 2
    case InOp => n <= 100
    case Exists => n == 0
    case NotExists => n == 0
    case _ => n == 1
  }

  function ConditionText(op: Op, name: string, refs: seq<string>): string
    requires Arity(op, |refs|)
  {
    match op
    case Cmp(c) => name + " " + ComparatorText(c) + " " + refs[0]
    case BetweenOp => name + " BETWEEN " + refs[0] + " AND " + refs[1]
    case InOp => name + " IN (" + Join(refs, ", ") + ")"
    case BeginsWith => "begins_with(" + name + ", " + refs[0] + ")"
    case Contains => "contains(" + name + ", " + refs[0] + ")"
    case Exists => "attribute_exists(" + name + ")"
    case NotExists => "attribute_not_exists(" + name + ")"
  }

  /** The condition in the caller's terms: an attribute path, an operator and its values. */
  function Condition<A>(op: Op, subject: A, args: seq<A>): Expr<A>
    requires Arity(op, |args|)
  {
    match op
    case Cmp(c) => Compare(c, subject, args[0])
    case BetweenOp => Between(subject, args[0], args[1])
    case InOp => In(subject, args)
    case BeginsWith => Call("begins_with", [subject, args[0]])
    case Contains => Call("contains", [subject, args[0]])
    case Exists => Call("attribute_exists", [subject])
    case NotExists => Call("attribute_not_exists", [subject])
  }

  predicate IsNameRef(w: string) {
    IsName(w) && w[0] == '#'
  }

  predicate IsValueRef(w: string) {
    IsName(w) && w[0] == ':'
  }

  predicate AreValueRefs(refs: seq<string>) {
    forall i :: 0 <= i < |refs| ==> IsValueRef(refs[i])
  }

  lemma PlaceholderToken(w: string)
    requires IsNameRef(w) || IsValueRef(w)
    ensures IsRefToken(w) && !IsFunction(w) && w != "size" && Upper(w) != "NOT" && w != "("
  {
    assert Upper(w)[0] == w[0];
  }

  function Refs(ws: seq<string>): (xs: seq<Operand>)
    ensures |xs| == |ws|
    ensures forall i :: 0 <= i < |ws| ==> xs[i] == Ref(ws[i])
  {
    seq(|ws|, i requires 0 <= i < |ws| => Ref(ws[i]))
  }

  // ---- Lexing ----

  /** A token, a space, and more text. */
  lemma LexWordThen(w: string, rest: string)
    requires IsName(w) || (w != "" && forall i :: 0 <= i < |w| ==> IsOperatorChar(w[i]))
    ensures Lex(w + " " + rest) == [w] + Lex(rest)
  {
    if IsName(w) { LexName(w); } else { LexOperator(w); }
    assert w + " " + rest == w + (" " + rest);
    LexCat(w, " " + rest);
    LexSpace(rest);
  }

  /** A token, a punctuation mark, and more text. */
  lemma LexPunctThen(w: string, p: char, rest: string)
    requires IsName(w) && IsPunct(p)
    ensures Lex(w + [p] + rest) == [w, [p]] + Lex(rest)
  {
    LexName(w);
    assert w + [p] + rest == w + ([p] + rest);
    LexCat(w, [p] + rest);
    assert ([p] + rest)[..1] == [p] && ([p] + rest)[1..] == rest;
    assert [w] + ([[p]] + Lex(rest)) == [w, [p]] + Lex(rest);
  }

  function CommaTokens(ws: seq<string>): Tokens {
    if |ws| == 0 then []
    else if |ws| == 1 then [ws[0]]
    else [ws[0], ","] + CommaTokens(ws[1..])
  }

  lemma CommaThen(w: string, rest: string)
    requires IsName(w)
    ensures Lex(w + ", " + rest) == [w, ","] + Lex(rest)
  {
    assert w + ", " + rest == w + "," + (" " + rest);
    LexPunctThen(w, ',', " " + rest);
    LexSpace(rest);
  }

  lemma {:induction false} LexCommaList(ws: seq<string>)
    requires AreValueRefs(ws)
    ensures Lex(Join(ws, ", ") + ")") == CommaTokens(ws) + [")"]
  {
    if |ws| == 0 {
      assert Join(ws, ", ") + ")" == ")" && ")"[..1] == ")" && ")"[1..] == "";
    } else if |ws| == 1 {
      LexPunctThen(ws[0], ')', "");
      assert ws[0] + ")" + "" == ws[0] + ")";
    } else {
      var rest := Join(ws[1..], ", ") + ")";
      LexCommaList(ws[1..]);
      assert Join(ws, ", ") + ")" == ws[0] + ", " + rest;
      CommaThen(ws[0], rest);
      assert [ws[0], ","] + (CommaTokens(ws[1..]) + [")"]) == CommaTokens(ws) + [")"];
    }
  }

  lemma {:induction false} ParseCommaList(ws: seq<string>)
    requires ws != [] && AreValueRefs(ws)
    ensures ParseOperandList(CommaTokens(ws) + [")"]) == Done(Refs(ws), [])
  {
    var toks := CommaTokens(ws) + [")"];
    PlaceholderToken(ws[0]);
    if |ws| == 1 {
      assert toks[1..] == [")"];
      assert Refs(ws) == [Ref(ws[0])];
    } else {
      var rest := CommaTokens(ws[1..]) + [")"];
      assert toks[1..] == [","] + rest;
      assert toks[1..][1..] == rest;
      ParseCommaList(ws[1..]);
      assert Refs(ws) == [Ref(ws[0])] + Refs(ws[1..]);
    }
  }

  // ---- Reading each form back: first its tokens, then the tree ----

  lemma LexCompare(c: Comparator, name: string, v: string)
    requires IsNameRef(name) && IsValueRef(v)
    ensures Lex(name + " " + ComparatorText(c) + " " + v) == [name, ComparatorText(c), v]
  {
    var o := ComparatorText(c);
    assert name + " " + o + " " + v == name + " " + (o + " " + v);
    LexWordThen(name, o + " " + v);
    LexWordThen(o, v);
    LexName(v);
  }

  lemma TreeCompare(c: Comparator, name: string, v: string)
    requires IsNameRef(name) && IsValueRef(v)
    ensures ParseNot([name, ComparatorText(c), v]) == Done(Compare(c, Ref(name), Ref(v)), [])
  {
    PlaceholderToken(name);
    PlaceholderToken(v);
    var o := ComparatorText(c);
    var toks := [name, o, v];
    assert Upper(o)[0] == o[0] && Upper(o) != "IN" && ComparatorOf(o) == Done(c, []);
    assert toks[1..] == [o, v] && [o, v][1..] == [v] && [v][1..] == [];
    assert ParsePredicate(Ref(name), [o, v]) == Done(Compare(c, Ref(name), Ref(v)), []);
    assert ParseSimple(toks) == Done(Compare(c, Ref(name), Ref(v)), []);
  }

  lemma LexThree(a: string, word: string, b: string)
    requires IsName(a) && IsName(word) && IsName(b)
    ensures Lex(a + " " + word + " " + b) == [a, word, b]
  {
    assert a + " " + word + " " + b == a + " " + (word + " " + b);
    LexWordThen(a, word + " " + b);
    LexWordThen(word, b);
    LexName(b);
  }

  lemma LexBetween(name: string, lo: string, hi: string)
    requires IsNameRef(name) && IsValueRef(lo) && IsValueRef(hi)
    ensures Lex(name + " BETWEEN " + lo + " AND " + hi) == [name, "BETWEEN", lo, "AND", hi]
  {
    var tail := lo + " " + "AND" + " " + hi;
    LexThree(lo, "AND", hi);
    LexKeyword(name, "BETWEEN", tail);
    assert name + " BETWEEN " + lo + " AND " + hi == name + " " + "BETWEEN" + " " + tail by {
      assert " BETWEEN " == " " + "BETWEEN" + " " && " AND " == " " + "AND" + " ";
    }
  }

  lemma LexKeyword(a: string, word: string, tail: string)
    requires IsName(a) && IsName(word)
    ensures Lex(a + " " + word + " " + tail) == [a, word] + Lex(tail)
  {
    assert a + " " + word + " " + tail == a + " " + (word + " " + tail);
    LexWordThen(a, word + " " + tail);
    LexWordThen(word, tail);
  }

  lemma TreeBetween(name: string, lo: string, hi: string)
    requires IsNameRef(name) && IsValueRef(lo) && IsValueRef(hi)
    ensures ParseNot([name, "BETWEEN", lo, "AND", hi]) == Done(Between(Ref(name), Ref(lo), Ref(hi)), [])
  {
    PlaceholderToken(name);
    PlaceholderToken(lo);
    PlaceholderToken(hi);
    assert Upper("BETWEEN") == "BETWEEN" && Upper("AND") == "AND";
    var toks := [name, "BETWEEN", lo, "AND", hi];
    var t1 := ["BETWEEN", lo, "AND", hi];
    assert toks[1..] == t1 && t1[1..] == [lo, "AND", hi];
    assert [lo, "AND", hi][1..] == ["AND", hi] && ["AND", hi][1..] == [hi] && [hi][1..] == [];
    assert ParsePredicate(Ref(name), t1) == Done(Between(Ref(name), Ref(lo), Ref(hi)), []);
    assert ParseSimple(toks) == Done(Between(Ref(name), Ref(lo), Ref(hi)), []);
  }

  lemma LexOpen(rest: string)
    ensures Lex("(" + rest) == ["("] + Lex(rest)
  {
    assert ("(" + rest)[..1] == "(" && ("(" + rest)[1..] == rest;
  }

  lemma LexIn(name: string, refs: seq<string>)
    requires IsNameRef(name) && AreValueRefs(refs)
    ensures Lex(name + " IN (" + Join(refs, ", ") + ")") == [name, "IN", "("] + (CommaTokens(refs) + [")"])
  {
    var list := Join(refs, ", ") + ")";
    LexCommaList(refs);
    InTokens(name, list);
    assert name + " IN (" + Join(refs, ", ") + ")" == name + " IN (" + list;
  }

  lemma InTokens(name: string, list: string)
    requires IsNameRef(name)
    ensures Lex(name + " IN (" + list) == [name, "IN", "("] + Lex(list)
  {
    LexKeyword(name, "IN", "(" + list);
    LexOpen(list);
    assert name + " IN (" + list == name + " " + "IN" + " " + ("(" + list) by {
      assert " IN (" == " " + "IN" + " " + "(";
    }
  }

  lemma TreeIn(name: string, refs: seq<string>)
    requires IsNameRef(name) && AreValueRefs(refs)
    ensures refs != [] ==>
              ParseNot([name, "IN", "("] + (CommaTokens(refs) + [")"])) == Done(In(Ref(name), Refs(refs)), [])
    ensures refs == [] ==> ParseNot([name, "IN", "("] + (CommaTokens(refs) + [")"])).Fail?
  {
    PlaceholderToken(name);
    assert Upper("IN") == "IN";
    var t2 := CommaTokens(refs) + [")"];
    var toks := [name, "IN", "("] + t2;
    assert toks[1..] == ["IN", "("] + t2 && (["IN", "("] + t2)[2..] == t2;
    if refs != [] {
      ParseCommaList(refs);
      assert ParsePredicate(Ref(name), toks[1..]) == Done(In(Ref(name), Refs(refs)), []);
      assert ParseSimple(toks) == Done(In(Ref(name), Refs(refs)), []);
    } else {
      assert IsPunct(")"[0]);
      assert t2 == [")"] && !IsName(")");
      assert ParsePredicate(Ref(name), toks[1..]).Fail?;
      assert ParseSimple(toks).Fail?;
    }
  }

  /** `IN ()`, which `buildCondition` emits for an empty list, is no condition at all. */
  lemma EmptyInUnreadable(name: string, e: Syntax)
    requires IsNameRef(name)
    ensures !ParsesTo(ConditionText(InOp, name, []), e)
  {
    LexIn(name, []);
    TreeIn(name, []);
    assert ParseAnd([name, "IN", "("] + (CommaTokens([]) + [")"])).Fail?;
  }

  lemma LexArguments(name: string, v: string)
    requires IsNameRef(name) && IsValueRef(v)
    ensures Lex(name + ", " + v + ")") == [name, ",", v, ")"]
  {
    var tail := v + ")" + "";
    assert name + ", " + v + ")" == name + "," + (" " + tail);
    LexPunctThen(name, ',', " " + tail);
    LexSpace(tail);
    LexPunctThen(v, ')', "");
  }

  lemma LexCall2(fn: string, name: string, v: string)
    requires IsFunction(fn) && IsNameRef(name) && IsValueRef(v)
    ensures Lex(fn + "(" + name + ", " + v + ")") == [fn, "(", name, ",", v, ")"]
  {
    var args := name + ", " + v + ")";
    assert fn + "(" + name + ", " + v + ")" == fn + "(" + args;
    LexPunctThen(fn, '(', args);
    LexArguments(name, v);
  }

  lemma TreeCall2(fn: string, name: string, v: string)
    requires IsFunction(fn) && IsNameRef(name) && IsValueRef(v)
    ensures ParseNot([fn, "(", name, ",", v, ")"]) == Done(Call(fn, [Ref(name), Ref(v)]), [])
  {
    PlaceholderToken(name);
    PlaceholderToken(v);
    var toks := [fn, "(", name, ",", v, ")"];
    assert toks[2..] == [name, ",", v, ")"] && [name, ",", v, ")"][2..] == [v, ")"] && [v, ")"][2..] == [];
    assert ParseArguments([v, ")"]) == Done([Ref(v)], []);
    assert [Ref(name)] + [Ref(v)] == [Ref(name), Ref(v)];
    assert ParseArguments([name, ",", v, ")"]) == Done([Ref(name), Ref(v)], []);
    CallStarts(fn, toks);
  }

  lemma CallStarts(fn: string, toks: Tokens)
    requires IsFunction(fn) && |toks| >= 2 && toks[0] == fn && toks[1] == "("
    requires ParseArguments(toks[2..]).Done? && ParseArguments(toks[2..]).rest == []
    ensures ParseNot(toks) == Done(Call(fn, ParseArguments(toks[2..]).value), [])
  {
    assert Upper(fn) != "NOT";
  }

  lemma LexCall1(fn: string, name: string)
    requires IsFunction(fn) && IsNameRef(name)
    ensures Lex(fn + "(" + name + ")") == [fn, "(", name, ")"]
  {
    var t1 := name + ")" + "";
    assert fn + "(" + name + ")" == fn + "(" + t1;
    LexPunctThen(fn, '(', t1);
    LexPunctThen(name, ')', "");
  }

  lemma TreeCall1(fn: string, name: string)
    requires IsFunction(fn) && IsNameRef(name)
    ensures ParseNot([fn, "(", name, ")"]) == Done(Call(fn, [Ref(name)]), [])
  {
    PlaceholderToken(name);
    var toks := [fn, "(", name, ")"];
    assert toks[2..] == [name, ")"] && [name, ")"][2..] == [];
    assert ParseArguments(toks[2..]) == Done([Ref(name)], []);
    CallStarts(fn, toks);
  }

  /** Every text `buildCondition` can emit is read back as the condition it was built from, except `IN ()`. */
  lemma ReadCondition(op: Op, name: string, refs: seq<string>)
    requires Arity(op, |refs|) && IsNameRef(name) && AreValueRefs(refs)
    requires !(op == InOp && refs == [])
    ensures ReadsAtom(ConditionText(op, name, refs), Condition(op, Ref(name), Refs(refs)))
  {
    match op
    case Cmp(c) =>
      LexCompare(c, name, refs[0]);
      TreeCompare(c, name, refs[0]);
    case BetweenOp =>
      LexBetween(name, refs[0], refs[1]);
      TreeBetween(name, refs[0], refs[1]);
    case InOp =>
      LexIn(name, refs);
      TreeIn(name, refs);
    case BeginsWith =>
      LexCall2("begins_with", name, refs[0]);
      TreeCall2("begins_with", name, refs[0]);
      assert "begins_with(" == "begins_with" + "(";
    case Contains =>
      LexCall2("contains", name, refs[0]);
      TreeCall2("contains", name, refs[0]);
      assert "contains(" == "contains" + "(";
    case Exists =>
      LexCall1("attribute_exists", name);
      TreeCall1("attribute_exists", name);
      assert "attribute_exists(" == "attribute_exists" + "(";
    case NotExists =>
      LexCall1("attribute_not_exists", name);
      TreeCall1("attribute_not_exists", name);
      assert "attribute_not_exists(" == "attribute_not_exists" + "(";
  }
}
