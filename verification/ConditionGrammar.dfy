/**
 DynamoDB's condition-expression grammar, as the service reads the text the library emits: a lexer over
 characters and a parser in which NOT binds tighter than AND, AND tighter than OR, and the AND inside
 `x BETWEEN :a AND :b` belongs to the BETWEEN.
 */
module ConditionGrammar {
  import opened Text

  // ---- Lexer ----

  predicate IsPunct(c: char) {
    c == '(' || c == ')' || c == ','
  }

  predicate IsOperatorChar(c: char) {
    c == '=' || c == '<' || c == '>'
  }

  predicate IsNameChar(c: char) {
    !IsSpace(c) && !IsPunct(c) && !IsOperatorChar(c)
  }

  /** A token never runs across a delimiter. */
  predicate IsDelimiter(c: char) {
    IsSpace(c) || IsPunct(c)
  }

  /** Length of the token that a nonempty text without leading space begins with. */
  function TokenLength(s: string): (n: nat)
    requires s != "" && !IsSpace(s[0])
    ensures 1 <= n <= |s|
  {
    if IsPunct(s[0]) then 1
    else if IsOperatorChar(s[0]) then Span(s, IsOperatorChar)
    else Span(s, IsNameChar)
  }

  function Lex(s: string): seq<string>
    decreases |s|
  {
    if s == "" then []
    else if IsSpace(s[0]) then Lex(s[1..])
    else
      var n := TokenLength(s);
      [s[..n]] + Lex(s[n..])
  }

  lemma {:induction false} SpanPrefix(a: string, b: string, p: char -> bool)
    requires b != "" && !p(b[0])
    ensures Span(a + b, p) == Span(a, p)
  {
    if a == "" {
      assert a + b == b;
    } else if p(a[0]) {
      assert (a + b)[1..] == a[1..] + b;
      SpanPrefix(a[1..], b, p);
    }
  }

  /** Text cut at a delimiter is lexed piece by piece. */
  lemma {:induction false} LexCat(a: string, b: string)
    requires a == "" || b == "" || IsDelimiter(a[|a| - 1]) || IsDelimiter(b[0])
    ensures Lex(a + b) == Lex(a) + Lex(b)
    decreases |a|
  {
    if a == "" {
      assert a + b == b;
    } else if b == "" {
      assert a + b == a;
    } else if IsSpace(a[0]) {
      assert (a + b)[1..] == a[1..] + b;
      LexCat(a[1..], b);
    } else {
      TokenLengthCat(a, b);
      var n := TokenLength(a);
      assert (a + b)[..n] == a[..n];
      assert (a + b)[n..] == a[n..] + b;
      LexCat(a[n..], b);
      assert [a[..n]] + (Lex(a[n..]) + Lex(b)) == [a[..n]] + Lex(a[n..]) + Lex(b);
    }
  }

  lemma TokenLengthCat(a: string, b: string)
    requires a != "" && b != "" && !IsSpace(a[0])
    requires IsDelimiter(a[|a| - 1]) || IsDelimiter(b[0])
    ensures TokenLength(a + b) == TokenLength(a)
  {
    if IsPunct(a[0]) {
    } else if IsDelimiter(b[0]) {
      SpanPrefix(a, b, IsOperatorChar);
      SpanPrefix(a, b, IsNameChar);
    } else {
      var k := |a| - 1;
      assert a == a[..k] + a[k..] && a + b == a[..k] + (a[k..] + b);
      SpanPrefix(a[..k], a[k..], IsOperatorChar);
      SpanPrefix(a[..k], a[k..], IsNameChar);
      SpanPrefix(a[..k], a[k..] + b, IsOperatorChar);
      SpanPrefix(a[..k], a[k..] + b, IsNameChar);
    }
  }

  /** A text that lexes to itself: a placeholder, keyword, function name or document path. */
  predicate IsName(w: string) {
    w != "" && forall i :: 0 <= i < |w| ==> IsNameChar(w[i])
  }

  lemma LexName(w: string)
    requires IsName(w)
    ensures Lex(w) == [w]
  {
    SpanCat(w, "", IsNameChar);
    assert w + "" == w;
    assert w[|w|..] == "";
  }

  lemma LexOperator(w: string)
    requires w != "" && forall i :: 0 <= i < |w| ==> IsOperatorChar(w[i])
    ensures Lex(w) == [w]
  {
    SpanCat(w, "", IsOperatorChar);
    assert w + "" == w;
    assert w[|w|..] == "";
  }

  // ---- Abstract syntax ----

  datatype Comparator = EQ | NE | LT | LE | GT | GE

  datatype Operand = Ref(name: string) | Size(name: string)

  /** A condition over operands of type `A`: tokens when parsed, attributes and values once resolved. */
  datatype Expr<A> =
    | Compare(cmp: Comparator, left: A, right: A)
    | Between(subject: A, lo: A, hi: A)
    | In(subject: A, choices: seq<A>)
    | Call(fn: string, args: seq<A>)
    | Not(e: Expr<A>)
    | And(l: Expr<A>, r: Expr<A>)
    | Or(l: Expr<A>, r: Expr<A>)

  type Syntax = Expr<Operand>

  // ---- Parser ----

  type Tokens = seq<string>

  datatype Parsed<T> = Fail | Done(value: T, rest: Tokens)

  predicate Starts(toks: Tokens, word: string) {
    toks != [] && Upper(toks[0]) == word
  }

  predicate IsKeyword(w: string) {
    Upper(w) in {"AND", "OR", "NOT", "BETWEEN", "IN"}
  }

  predicate IsFunction(w: string) {
    w in {"attribute_exists", "attribute_not_exists", "attribute_type", "begins_with", "contains"}
  }

  /** A token that may stand for a path or a value. */
  predicate IsRefToken(w: string) {
    IsName(w) && !IsKeyword(w)
  }

  function ComparatorOf(w: string): Parsed<Comparator> {
    if w == "=" then Done(EQ, [])
    else if w == "<>" then Done(NE, [])
    else if w == "<" then Done(LT, [])
    else if w == "<=" then Done(LE, [])
    else if w == ">" then Done(GT, [])
    else if w == ">=" then Done(GE, [])
    else Fail
  }

  function ParseOperand(toks: Tokens): (p: Parsed<Operand>)
    ensures p.Done? ==> |p.rest| < |toks|
  {
    if toks == [] || !IsRefToken(toks[0]) then Fail
    else if toks[0] == "size" && |toks| >= 2 && toks[1] == "(" then
      if |toks| >= 4 && IsRefToken(toks[2]) && toks[3] == ")" then Done(Size(toks[2]), toks[4..]) else Fail
    else Done(Ref(toks[0]), toks[1..])
  }

  /** The operands after the first one in `IN (a, b, ...)`, up to and with the closing parenthesis. */
  function ParseOperandList(toks: Tokens): (p: Parsed<seq<Operand>>)
    ensures p.Done? ==> |p.rest| < |toks|
    decreases |toks|
  {
    match ParseOperand(toks)
    case Fail => Fail
    case Done(x, rest) =>
      if rest == [] then Fail
      else if rest[0] == ")" then Done([x], rest[1..])
      else if rest[0] != "," then Fail
      else
        match ParseOperandList(rest[1..])
        case Fail => Fail
        case Done(xs, rest') => Done([x] + xs, rest')
  }

  function ParseArguments(toks: Tokens): (p: Parsed<seq<Operand>>)
    ensures p.Done? ==> |p.rest| < |toks|
    decreases |toks|
  {
    if |toks| < 2 || !IsRefToken(toks[0]) then Fail
    else if toks[1] == ")" then Done([Ref(toks[0])], toks[2..])
    else if toks[1] != "," then Fail
    else
      match ParseArguments(toks[2..])
      case Fail => Fail
      case Done(xs, rest) => Done([Ref(toks[0])] + xs, rest)
  }

  function ParseSimple(toks: Tokens): (p: Parsed<Syntax>)
    ensures p.Done? ==> |p.rest| < |toks|
  {
    if |toks| >= 2 && toks[1] == "(" && IsFunction(toks[0]) then
      match ParseArguments(toks[2..])
      case Fail => Fail
      case Done(args, rest) => Done(Call(toks[0], args), rest)
    else
      match ParseOperand(toks)
      case Fail => Fail
      case Done(x, rest) => ParsePredicate(x, rest)
  }

  function ParsePredicate(x: Operand, rest: Tokens): (p: Parsed<Syntax>)
    ensures p.Done? ==> |p.rest| < |rest|
  {
    if Starts(rest, "BETWEEN") then
      match ParseOperand(rest[1..])
      case Fail => Fail
      case Done(lo, rest1) =>
        if !Starts(rest1, "AND") then Fail
        else
          match ParseOperand(rest1[1..])
          case Fail => Fail
          case Done(hi, rest2) => Done(Between(x, lo, hi), rest2)
    else if Starts(rest, "IN") then
      if |rest| < 2 || rest[1] != "(" then Fail
      else
        match ParseOperandList(rest[2..])
        case Fail => Fail
        case Done(xs, rest1) => Done(In(x, xs), rest1)
    else if rest == [] || ComparatorOf(rest[0]).Fail? then Fail
    else
      match ParseOperand(rest[1..])
      case Fail => Fail
      case Done(y, rest1) => Done(Compare(ComparatorOf(rest[0]).value, x, y), rest1)
  }

  function ParsePrimary(toks: Tokens): (p: Parsed<Syntax>)
    ensures p.Done? ==> |p.rest| < |toks|
    decreases |toks|, 0
  {
    if toks != [] && toks[0] == "(" then
      match ParseOr(toks[1..])
      case Fail => Fail
      case Done(e, rest) => if rest != [] && rest[0] == ")" then Done(e, rest[1..]) else Fail
    else ParseSimple(toks)
  }

  function ParseNot(toks: Tokens): (p: Parsed<Syntax>)
    ensures p.Done? ==> |p.rest| < |toks|
    decreases |toks|, 1
  {
    if Starts(toks, "NOT") then
      match ParseNot(toks[1..])
      case Fail => Fail
      case Done(e, rest) => Done(Not(e), rest)
    else ParsePrimary(toks)
  }

  function ParseAnd(toks: Tokens): (p: Parsed<Syntax>)
    ensures p.Done? ==> |p.rest| < |toks|
    decreases |toks|, 2
  {
    match ParseNot(toks)
    case Fail => Fail
    case Done(l, rest) =>
      if Starts(rest, "AND") then
        match ParseAnd(rest[1..])
        case Fail => Fail
        case Done(r, rest') => Done(And(l, r), rest')
      else Done(l, rest)
  }

  function ParseOr(toks: Tokens): (p: Parsed<Syntax>)
    ensures p.Done? ==> |p.rest| < |toks|
    decreases |toks|, 3
  {
    match ParseAnd(toks)
    case Fail => Fail
    case Done(l, rest) =>
      if Starts(rest, "OR") then
        match ParseOr(rest[1..])
        case Fail => Fail
        case Done(r, rest') => Done(Or(l, r), rest')
      else Done(l, rest)
  }

  /** What the service makes of a condition text. */
  ghost predicate ParsesTo(text: string, e: Syntax) {
    ParseOr(Lex(text)) == Done(e, [])
  }

  // ---- What may follow a parsed expression ----

  lemma {:induction false} OperandThen(toks: Tokens, s: Tokens)
    requires ParseOperand(toks).Done?
    requires s == [] || s[0] != "("
    ensures ParseOperand(toks + s) == Done(ParseOperand(toks).value, ParseOperand(toks).rest + s)
  {
    if toks[0] == "size" && |toks| >= 2 && toks[1] == "(" {
      assert (toks + s)[4..] == toks[4..] + s;
    } else {
      assert (toks + s)[1..] == toks[1..] + s;
    }
  }

  lemma {:induction false} OperandListThen(toks: Tokens, s: Tokens)
    requires ParseOperandList(toks).Done?
    requires s == [] || s[0] != "("
    ensures ParseOperandList(toks + s) == Done(ParseOperandList(toks).value, ParseOperandList(toks).rest + s)
    decreases |toks|
  {
    OperandThen(toks, s);
    var rest := ParseOperand(toks).rest;
    assert (rest + s)[1..] == rest[1..] + s;
    if rest[0] == "," {
      OperandListThen(rest[1..], s);
    }
  }

  lemma {:induction false} ArgumentsThen(toks: Tokens, s: Tokens)
    requires ParseArguments(toks).Done?
    ensures ParseArguments(toks + s) == Done(ParseArguments(toks).value, ParseArguments(toks).rest + s)
    decreases |toks|
  {
    assert (toks + s)[2..] == toks[2..] + s;
    if toks[1] == "," {
      ArgumentsThen(toks[2..], s);
    }
  }

  lemma {:induction false} PredicateThen(x: Operand, rest: Tokens, s: Tokens)
    requires ParsePredicate(x, rest).Done?
    requires s == [] || s[0] != "("
    ensures ParsePredicate(x, rest + s) == Done(ParsePredicate(x, rest).value, ParsePredicate(x, rest).rest + s)
  {
    assert (rest + s)[1..] == rest[1..] + s;
    if Starts(rest, "BETWEEN") {
      OperandThen(rest[1..], s);
      var rest1 := ParseOperand(rest[1..]).rest;
      assert (rest1 + s)[1..] == rest1[1..] + s;
      OperandThen(rest1[1..], s);
    } else if Starts(rest, "IN") {
      assert (rest + s)[2..] == rest[2..] + s;
      OperandListThen(rest[2..], s);
    } else {
      OperandThen(rest[1..], s);
    }
  }

  lemma {:induction false} SimpleThen(toks: Tokens, s: Tokens)
    requires ParseSimple(toks).Done?
    requires s == [] || s[0] != "("
    ensures ParseSimple(toks + s) == Done(ParseSimple(toks).value, ParseSimple(toks).rest + s)
  {
    if |toks| >= 2 && toks[1] == "(" && IsFunction(toks[0]) {
      assert (toks + s)[2..] == toks[2..] + s;
      ArgumentsThen(toks[2..], s);
    } else {
      OperandThen(toks, s);
      PredicateThen(ParseOperand(toks).value, ParseOperand(toks).rest, s);
    }
  }

  lemma {:induction false} PrimaryThen(toks: Tokens, s: Tokens)
    requires ParsePrimary(toks).Done?
    requires s == [] || s[0] != "("
    ensures ParsePrimary(toks + s) == Done(ParsePrimary(toks).value, ParsePrimary(toks).rest + s)
    decreases |toks|, 0
  {
    if toks[0] == "(" {
      assert (toks + s)[1..] == toks[1..] + s;
      var p := ParseOr(toks[1..]);
      OrThen(toks[1..], s);
      assert (p.rest + s)[1..] == p.rest[1..] + s;
    } else {
      SimpleThen(toks, s);
    }
  }

  lemma {:induction false} NotThen(toks: Tokens, s: Tokens)
    requires ParseNot(toks).Done?
    requires s == [] || s[0] != "("
    ensures ParseNot(toks + s) == Done(ParseNot(toks).value, ParseNot(toks).rest + s)
    decreases |toks|, 1
  {
    if Starts(toks, "NOT") {
      assert (toks + s)[1..] == toks[1..] + s;
      NotThen(toks[1..], s);
    } else {
      PrimaryThen(toks, s);
    }
  }

  lemma {:induction false} AndThen(toks: Tokens, s: Tokens)
    requires ParseAnd(toks).Done?
    requires s == [] || s[0] != "("
    requires ParseAnd(toks).rest == [] ==> !Starts(s, "AND")
    ensures ParseAnd(toks + s) == Done(ParseAnd(toks).value, ParseAnd(toks).rest + s)
    decreases |toks|, 2
  {
    NotThen(toks, s);
    var rest := ParseNot(toks).rest;
    assert rest != [] ==> (rest + s)[0] == rest[0];
    if Starts(rest, "AND") {
      assert (rest + s)[1..] == rest[1..] + s;
      AndThen(rest[1..], s);
    } else if rest == [] {
      assert rest + s == s;
    }
  }

  lemma {:induction false} OrThen(toks: Tokens, s: Tokens)
    requires ParseOr(toks).Done?
    requires s == [] || s[0] != "("
    requires ParseOr(toks).rest == [] ==> !Starts(s, "AND") && !Starts(s, "OR")
    ensures ParseOr(toks + s) == Done(ParseOr(toks).value, ParseOr(toks).rest + s)
    decreases |toks|, 3
  {
    AndThen(toks, s);
    var rest := ParseAnd(toks).rest;
    if Starts(rest, "OR") {
      assert (rest + s)[1..] == rest[1..] + s;
      OrThen(rest[1..], s);
    } else if rest == [] {
      assert rest + s == s;
    }
  }
}
