/** The parser (json.hpp:8853-9119) against the grammar of RFC 8259: it accepts exactly the texts of syntax
    trees, and gives the value of the tree. */
module JsonGrammar {
  import opened Strings
  import opened JsonValue
  import opened JsonLexer
  import opened JsonScanner
  import opened JsonParser
  import opened JsonTokens

  /** A syntax tree; its leaves are tokens. */
  datatype Tree =
    | Leaf(token: Lexeme)
    | ArrayOf(elems: Elements)
    | ObjectOf(members: Members)

  datatype Elements = NoElement | Element(first: Tree, more: Elements)

  datatype Members = NoMember | Member(name: Lexeme, value: Tree, more: Members)

  predicate GoodTree(t: Tree) {
    match t
    case Leaf(x) =>
      && x.kind in {NullLiteral, TrueLiteral, FalseLiteral, StringToken, NumberToken}
      && (x.kind == StringToken ==> IsStringToken(x.text))
    case ArrayOf(es) => GoodElements(es)
    case ObjectOf(ms) => GoodMembers(ms)
  }

  predicate GoodElements(es: Elements) {
    es.Element? ==> GoodTree(es.first) && GoodElements(es.more)
  }

  predicate GoodMembers(ms: Members) {
    ms.Member? ==> GoodName(ms.name) && GoodTree(ms.value) && GoodMembers(ms.more)
  }

  predicate GoodName(x: Lexeme) {
    x.kind == StringToken && IsStringToken(x.text)
  }

  /** Punctuation has but one spelling. */
  function Mark(kind: Kind): Lexeme {
    Lexeme(kind, match kind
      case BeginArray => "["
      case EndArray => "]"
      case BeginObject => "{"
      case EndObject => "}"
      case NameSeparator => ":"
      case ValueSeparator => ","
      case _ => "")
  }

  function Tokens(t: Tree): seq<Lexeme> {
    match t
    case Leaf(x) => [x]
    case ArrayOf(es) => [Mark(BeginArray)] + ElementTokens(es, true) + [Mark(EndArray)]
    case ObjectOf(ms) => [Mark(BeginObject)] + MemberTokens(ms, true) + [Mark(EndObject)]
  }

  function ElementTokens(es: Elements, first: bool): seq<Lexeme> {
    match es
    case NoElement => []
    case Element(t, more) =>
      (if first then [] else [Mark(ValueSeparator)]) + Tokens(t) + ElementTokens(more, false)
  }

  function MemberTokens(ms: Members, first: bool): seq<Lexeme> {
    match ms
    case NoMember => []
    case Member(name, t, more) =>
      (if first then [] else [Mark(ValueSeparator)]) + [name, Mark(NameSeparator)] + Tokens(t) +
      MemberTokens(more, false)
  }

  /** The value of a tree, or the error of the first token that has none. Of members with the same name
      the last one counts. */
  function Value(t: Tree): Result<Json>
    requires GoodTree(t)
    decreases t
  {
    match t
    case Leaf(x) => LeafValue(x)
    case ArrayOf(es) => ArrayValue([], es)
    case ObjectOf(ms) => ObjectValue(map[], ms)
  }

  function LeafValue(x: Lexeme): Result<Json>
    requires GoodTree(Leaf(x))
  {
    match x.kind
    case NullLiteral => Ok(Null)
    case TrueLiteral => Ok(Bool(true))
    case FalseLiteral => Ok(Bool(false))
    case StringToken => (match StringValue(x.text) case Ok(s) => Ok(Str(s)) case Err(e) => Err(e))
    case _ => NumberValue(x.text)
  }

  function ArrayValue(a: seq<Json>, es: Elements): Result<Json>
    requires GoodElements(es)
    decreases es
  {
    match es
    case NoElement => Ok(Arr(a))
    case Element(t, more) =>
      match Value(t)
      case Err(e) => Err(e)
      case Ok(v) => ArrayValue(a + [v], more)
  }

  function ObjectValue(m: map<string, Json>, ms: Members): Result<Json>
    requires GoodMembers(ms)
    decreases ms
  {
    match ms
    case NoMember => Ok(Obj(m))
    case Member(name, t, more) =>
      match StringValue(name.text)
      case Err(e) => Err(e)
      case Ok(k) =>
        match Value(t)
        case Err(e) => Err(e)
        case Ok(v) => ObjectValue(m[k := v], more)
  }

  function Outcome(r: Result<Json>, rest: seq<Lexeme>): Parsed {
    match r case Ok(v) => Done(v, rest) case Err(e) => Failed(e)
  }

  // ----- every tree is parsed -----

  ghost predicate Yields(ls: seq<Lexeme>, p: Parsed) {
    Readable(ls) && ParseValue(ls) == p
  }

  lemma ReadableMark(kind: Kind, ls: seq<Lexeme>)
    requires kind != StringToken && Readable(ls)
    ensures Readable([Mark(kind)] + ls) && ([Mark(kind)] + ls)[1..] == ls && Head([Mark(kind)] + ls) == kind
  {
    hide IsStringToken;
    ReadableOne(Mark(kind));
    ReadableAppend([Mark(kind)], ls);
  }

  lemma LeafIsParsed(x: Lexeme, rest: seq<Lexeme>)
    requires GoodTree(Leaf(x)) && Readable(rest)
    ensures Yields([x] + rest, Outcome(LeafValue(x), rest))
  {
    hide IsStringToken, StringValue, NumberValue;
    ReadableOne(x);
    ReadableAppend([x], rest);
    assert ([x] + rest)[1..] == rest;
  }

  lemma TokensStart(t: Tree, rest: seq<Lexeme>)
    requires GoodTree(t)
    ensures Head(Tokens(t) + rest) != ValueSeparator && Head(Tokens(t) + rest) != EndArray
  {
    hide IsStringToken, ElementTokens, MemberTokens;
  }

  lemma {:induction false} TreeIsParsed(t: Tree, rest: seq<Lexeme>)
    requires GoodTree(t) && Readable(rest)
    ensures Yields(Tokens(t) + rest, Outcome(Value(t), rest))
    decreases t
  {
    hide IsStringToken, ParseArray, ParseObject, ElementTokens, MemberTokens, ArrayValue, ObjectValue, Readable,
         ParseElements, ParseMembers, LeafValue, Outcome;
    match t
    case Leaf(x) => LeafIsParsed(x, rest);
    case ArrayOf(es) =>
      var body := ElementTokens(es, true) + ([Mark(EndArray)] + rest);
      assert Tokens(t) + rest == [Mark(BeginArray)] + body;
      ReadableMark(EndArray, rest);
      BodyIsParsed(es, rest);
      ReadableMark(BeginArray, body);
      ArrayOpens(body);
    case ObjectOf(ms) =>
      var body := MemberTokens(ms, true) + ([Mark(EndObject)] + rest);
      assert Tokens(t) + rest == [Mark(BeginObject)] + body;
      ReadableMark(EndObject, rest);
      ObjectBodyIsParsed(ms, rest);
      ReadableMark(BeginObject, body);
      ObjectOpens(body);
  }

  lemma ArrayOpens(body: seq<Lexeme>)
    requires Readable(body)
    ensures Yields([Mark(BeginArray)] + body, ParseArray(body))
  {
    hide IsStringToken, ParseArray;
    ReadableMark(BeginArray, body);
  }

  lemma ObjectOpens(body: seq<Lexeme>)
    requires Readable(body)
    ensures Yields([Mark(BeginObject)] + body, ParseObject(body))
  {
    hide IsStringToken, ParseObject;
    ReadableMark(BeginObject, body);
  }

  lemma BodyIsParsed(es: Elements, rest: seq<Lexeme>)
    requires GoodElements(es) && Readable(rest)
    ensures var body := ElementTokens(es, true) + ([Mark(EndArray)] + rest);
            Readable(body) && ParseArray(body) == Outcome(ArrayValue([], es), rest)
    decreases es, 1
  {
    hide IsStringToken, ParseElements, Tokens, ArrayValue, Readable, GoodTree;
    var body := ElementTokens(es, true) + ([Mark(EndArray)] + rest);
    ReadableMark(EndArray, rest);
    match es
    case NoElement =>
      assert body == [Mark(EndArray)] + rest;
      NoMoreValues([]);
    case Element(t, more) =>
      ElementsAreParsed([], es, rest);
      assert body == Tokens(t) + (ElementTokens(more, false) + ([Mark(EndArray)] + rest)) by {
        FirstElement(es, [Mark(EndArray)] + rest);
      }
      TokensStart(t, ElementTokens(more, false) + ([Mark(EndArray)] + rest));
  }

  lemma NoMoreValues(a: seq<Json>)
    ensures ArrayValue(a, NoElement) == Ok(Arr(a))
  {
  }

  lemma FirstElement(es: Elements, tail: seq<Lexeme>)
    requires es.Element?
    ensures ElementTokens(es, true) + tail == Tokens(es.first) + (ElementTokens(es.more, false) + tail)
    ensures ElementTokens(es, false) + tail == [Mark(ValueSeparator)] + (ElementTokens(es, true) + tail)
  {
    hide Tokens, ElementTokens;
    ElementsUnfold(es, true);
    ElementsUnfold(es, false);
    ThreeAndTail([], Tokens(es.first), ElementTokens(es.more, false), tail);
    ThreeAndTail([Mark(ValueSeparator)], Tokens(es.first), ElementTokens(es.more, false), tail);
    assert [] + (Tokens(es.first) + (ElementTokens(es.more, false) + tail)) ==
           Tokens(es.first) + (ElementTokens(es.more, false) + tail);
  }

  lemma ElementsUnfold(es: Elements, first: bool)
    requires es.Element?
    ensures ElementTokens(es, first) ==
            (if first then [] else [Mark(ValueSeparator)]) + Tokens(es.first) + ElementTokens(es.more, false)
  {
    hide Tokens;
  }

  lemma ThreeAndTail<T>(a: seq<T>, b: seq<T>, c: seq<T>, tail: seq<T>)
    ensures a + b + c + tail == a + (b + (c + tail))
  {
  }

  lemma {:induction false} ElementsAreParsed(a: seq<Json>, es: Elements, rest: seq<Lexeme>)
    requires es.Element? && GoodElements(es) && Readable(rest)
    ensures var ls := ElementTokens(es, true) + ([Mark(EndArray)] + rest);
            Readable(ls) && ParseElements(a, ls) == Outcome(ArrayValue(a, es), rest)
    decreases es, 0
  {
    hide IsStringToken, ParseElements, AfterElement, ParseValue, Tokens, ElementTokens, Value, Readable, GoodTree;
    var close := [Mark(EndArray)] + rest;
    var ls, after := ElementTokens(es, true) + close, ElementTokens(es.more, false) + close;
    FirstElement(es, close);
    ReadableMark(EndArray, rest);
    match es.more {
      case NoElement => NoneLeft(close);
      case Element(_, _) =>
        match Value(es.first) {
          case Ok(v) => ElementsAreParsed(a + [v], es.more, rest);
          case Err(_) => ElementsAreParsed(a, es.more, rest);
        }
        FirstElement(es.more, close);
        ReadableMark(ValueSeparator, ElementTokens(es.more, true) + close);
    }
    TreeIsParsed(es.first, after);
    ElementStep(a, ls);
    match Value(es.first)
    case Err(_) =>
    case Ok(v) =>
      if es.more.NoElement? {
        ElementEnd(a + [v], after);
        NoMoreValues(a + [v]);
      } else {
        ElementAfterComma(a + [v], after);
      }
  }

  lemma NoneLeft(close: seq<Lexeme>)
    ensures ElementTokens(NoElement, false) + close == close
  {
  }

  lemma ObjectBodyIsParsed(ms: Members, rest: seq<Lexeme>)
    requires GoodMembers(ms) && Readable(rest)
    ensures var body := MemberTokens(ms, true) + ([Mark(EndObject)] + rest);
            Readable(body) && ParseObject(body) == Outcome(ObjectValue(map[], ms), rest)
    decreases ms, 1
  {
    hide IsStringToken, ParseMembers, Tokens, ObjectValue, Readable, GoodTree;
    var body := MemberTokens(ms, true) + ([Mark(EndObject)] + rest);
    ReadableMark(EndObject, rest);
    match ms
    case NoMember =>
      assert body == [Mark(EndObject)] + rest;
      NoMoreMemberValues(map[]);
    case Member(name, t, more) =>
      MembersAreParsed(map[], ms, rest);
      FirstMember(ms, [Mark(EndObject)] + rest);
  }

  lemma NoMoreMemberValues(m: map<string, Json>)
    ensures ObjectValue(m, NoMember) == Ok(Obj(m))
  {
  }

  lemma FirstMember(ms: Members, tail: seq<Lexeme>)
    requires ms.Member?
    ensures MemberTokens(ms, true) + tail ==
            [ms.name] + ([Mark(NameSeparator)] + (Tokens(ms.value) + (MemberTokens(ms.more, false) + tail)))
    ensures MemberTokens(ms, false) + tail == [Mark(ValueSeparator)] + (MemberTokens(ms, true) + tail)
    ensures Head(MemberTokens(ms, true) + tail) == ms.name.kind
  {
    hide Tokens, MemberTokens;
    MembersUnfold(ms, true);
    MembersUnfold(ms, false);
    MemberAndTail([], ms.name, Mark(NameSeparator), Tokens(ms.value), MemberTokens(ms.more, false), tail);
    MemberAndTail([Mark(ValueSeparator)], ms.name, Mark(NameSeparator), Tokens(ms.value), MemberTokens(ms.more, false),
                  tail);
    var all := [ms.name] + ([Mark(NameSeparator)] + (Tokens(ms.value) + (MemberTokens(ms.more, false) + tail)));
    assert [] + all == all;
  }

  lemma MembersUnfold(ms: Members, first: bool)
    requires ms.Member?
    ensures MemberTokens(ms, first) == (if first then [] else [Mark(ValueSeparator)]) +
            [ms.name, Mark(NameSeparator)] + Tokens(ms.value) + MemberTokens(ms.more, false)
  {
    hide Tokens;
  }

  lemma MemberAndTail<T>(a: seq<T>, x: T, y: T, b: seq<T>, c: seq<T>, tail: seq<T>)
    ensures a + [x, y] + b + c + tail == a + ([x] + ([y] + (b + (c + tail))))
  {
  }

  lemma {:induction false} MembersAreParsed(m: map<string, Json>, ms: Members, rest: seq<Lexeme>)
    requires ms.Member? && GoodMembers(ms) && Readable(rest)
    ensures var ls := MemberTokens(ms, true) + ([Mark(EndObject)] + rest);
            Readable(ls) && ParseMembers(m, ls) == Outcome(ObjectValue(m, ms), rest)
    decreases ms, 0
  {
    hide IsStringToken, ParseMembers, AfterMember, ParseValue, Tokens, MemberTokens, Value, Readable, GoodTree,
         StringValue;
    var close := [Mark(EndObject)] + rest;
    var ls, after := MemberTokens(ms, true) + close, MemberTokens(ms.more, false) + close;
    FirstMember(ms, close);
    ReadableMark(EndObject, rest);
    match ms.more {
      case NoMember => NoMemberLeft(close);
      case Member(_, _, _) =>
        match (StringValue(ms.name.text), Value(ms.value)) {
          case (Ok(k), Ok(v)) => MembersAreParsed(m[k := v], ms.more, rest);
          case _ => MembersAreParsed(m, ms.more, rest);
        }
        FirstMember(ms.more, close);
        ReadableMark(ValueSeparator, MemberTokens(ms.more, true) + close);
    }
    TreeIsParsed(ms.value, after);
    NamedStart(ms.name, Tokens(ms.value) + after);
    MemberStep(m, ls);
    match (StringValue(ms.name.text), Value(ms.value))
    case (Ok(k), Ok(v)) =>
      if ms.more.NoMember? {
        MemberEnd(m[k := v], after);
        NoMoreMemberValues(m[k := v]);
      } else {
        MemberAfterComma(m[k := v], after);
      }
    case _ =>
  }

  lemma NoMemberLeft(close: seq<Lexeme>)
    ensures MemberTokens(NoMember, false) + close == close
  {
  }

  lemma NamedStart(name: Lexeme, ls: seq<Lexeme>)
    requires GoodName(name) && Readable(ls)
    ensures var all := [name] + ([Mark(NameSeparator)] + ls);
            && Readable(all) && Head(all) == StringToken && all[0] == name
            && Head(all[1..]) == NameSeparator && all[1..][1..] == ls
  {
    hide IsStringToken;
    ReadableMark(NameSeparator, ls);
    ReadableOne(name);
    ReadableAppend([name], [Mark(NameSeparator)] + ls);
    assert ([name] + ([Mark(NameSeparator)] + ls))[1..] == [Mark(NameSeparator)] + ls;
  }

  // ----- nothing else is parsed -----

  predicate IsMark(kind: Kind) {
    kind in {BeginArray, EndArray, BeginObject, EndObject, NameSeparator, ValueSeparator}
  }

  predicate Spelled(ls: seq<Lexeme>) {
    forall l | l in ls :: IsMark(l.kind) ==> l == Mark(l.kind)
  }

  lemma SpelledTail(ls: seq<Lexeme>)
    requires Spelled(ls) && ls != []
    ensures Spelled(ls[1..]) && (IsMark(ls[0].kind) ==> ls[0] == Mark(ls[0].kind)) && ls == [ls[0]] + ls[1..]
  {
    assert ls[0] in ls;
    forall l | l in ls[1..] ensures l in ls {
    }
  }

  lemma SpelledRest(front: seq<Lexeme>, rest: seq<Lexeme>)
    requires Spelled(front + rest)
    ensures Spelled(rest)
  {
    forall l | l in rest ensures l in front + rest {
    }
  }

  /** The tokens that a parse has taken are those of a tree, whose value it gives. */
  ghost predicate TakesTree(ls: seq<Lexeme>, t: Tree, p: Parsed)
    requires p.Done?
  {
    GoodTree(t) && Value(t) == Ok(p.value) && ls == Tokens(t) + p.rest
  }

  lemma {:induction false} ParsedIsTree(ls: seq<Lexeme>) returns (t: Tree)
    requires Readable(ls) && Spelled(ls) && ParseValue(ls).Done?
    ensures TakesTree(ls, t, ParseValue(ls)) && Spelled(ParseValue(ls).rest)
    decreases |ls|, 0
  {
    hide IsStringToken, ParseArray, ParseObject, ArrayValue, ObjectValue, ElementTokens, MemberTokens, StringValue,
         NumberValue, Spelled, GoodElements, GoodMembers;
    var rest := ls[1..];
    SpelledTail(ls);
    ReadableTail(ls);
    t := Leaf(ls[0]);
    match ls[0].kind {
      case BeginArray =>
        var es := ArrayFound(rest);
        t := ArrayOf(es);
        var p := ParseArray(rest);
        assert [Mark(BeginArray)] + (ElementTokens(es, true) + ([Mark(EndArray)] + p.rest)) == Tokens(t) + p.rest;
      case BeginObject =>
        var ms := ObjectFound(rest);
        t := ObjectOf(ms);
        var p := ParseObject(rest);
        assert [Mark(BeginObject)] + (MemberTokens(ms, true) + ([Mark(EndObject)] + p.rest)) == Tokens(t) + p.rest;
      case _ =>
    }
  }

  lemma ArrayFound(ls: seq<Lexeme>) returns (es: Elements)
    requires Readable(ls) && Spelled(ls) && ParseArray(ls).Done?
    ensures var p := ParseArray(ls);
            && GoodElements(es) && ArrayValue([], es) == Ok(p.value) && Spelled(p.rest)
            && ls == ElementTokens(es, true) + ([Mark(EndArray)] + p.rest)
    decreases |ls|, 2
  {
    hide IsStringToken, ParseElements, Readable, Spelled;
    if Head(ls) == EndArray {
      SpelledTail(ls);
      es := NoElement;
      NoElements(ls);
    } else {
      es := ElementsFound([], ls);
    }
  }

  lemma NoElements(ls: seq<Lexeme>)
    ensures ElementTokens(NoElement, true) + ls == ls && MemberTokens(NoMember, true) + ls == ls
  {
  }

  lemma {:induction false} ElementsFound(a: seq<Json>, ls: seq<Lexeme>) returns (es: Elements)
    requires Readable(ls) && Spelled(ls) && ParseElements(a, ls).Done?
    ensures var p := ParseElements(a, ls);
            && es.Element? && GoodElements(es) && ArrayValue(a, es) == Ok(p.value) && Spelled(p.rest)
            && ls == ElementTokens(es, true) + ([Mark(EndArray)] + p.rest)
    decreases |ls|, 1
  {
    hide IsStringToken, ParseElements, AfterElement, ParseValue, Readable, Spelled, Tokens, ElementTokens, Value,
         GoodTree;
    ElementStep(a, ls);
    var p := ParseValue(ls);
    var t := ParsedIsTree(ls);
    assert Shorter(p, ls);
    var end := ParseElements(a, ls);
    if Head(p.rest) == ValueSeparator {
      ElementAfterComma(a + [p.value], p.rest);
      SpelledTail(p.rest);
      var more := ElementsFound(a + [p.value], p.rest[1..]);
      es := Element(t, more);
      FirstElement(more, [Mark(EndArray)] + end.rest);
    } else {
      ElementEnd(a + [p.value], p.rest);
      SpelledTail(p.rest);
      es := Element(t, NoElement);
      NoMoreValues(a + [p.value]);
      NoneLeft([Mark(EndArray)] + end.rest);
    }
    FirstElement(es, [Mark(EndArray)] + end.rest);
  }

  lemma ObjectFound(ls: seq<Lexeme>) returns (ms: Members)
    requires Readable(ls) && Spelled(ls) && ParseObject(ls).Done?
    ensures var p := ParseObject(ls);
            && GoodMembers(ms) && ObjectValue(map[], ms) == Ok(p.value) && Spelled(p.rest)
            && ls == MemberTokens(ms, true) + ([Mark(EndObject)] + p.rest)
    decreases |ls|, 2
  {
    hide IsStringToken, ParseMembers, Readable, Spelled;
    if Head(ls) == EndObject {
      SpelledTail(ls);
      ms := NoMember;
      NoElements(ls);
    } else {
      ms := MembersFound(map[], ls);
    }
  }

  lemma {:induction false} MembersFound(m: map<string, Json>, ls: seq<Lexeme>) returns (ms: Members)
    requires Readable(ls) && Spelled(ls) && ParseMembers(m, ls).Done?
    ensures var p := ParseMembers(m, ls);
            && ms.Member? && GoodMembers(ms) && ObjectValue(m, ms) == Ok(p.value) && Spelled(p.rest)
            && ls == MemberTokens(ms, true) + ([Mark(EndObject)] + p.rest)
    decreases |ls|, 1
  {
    hide IsStringToken, ParseMembers, AfterMember, ParseValue, Readable, Spelled, Tokens, MemberTokens, Value, GoodTree,
         StringValue;
    MemberStep(m, ls);
    var name, inside := ls[0], ls[1..][1..];
    SpelledTail(ls);
    SpelledTail(ls[1..]);
    var k := StringValue(name.text).value;
    var p := ParseValue(inside);
    var t := ParsedIsTree(inside);
    assert Shorter(p, inside);
    var end := ParseMembers(m, ls);
    if Head(p.rest) == ValueSeparator {
      MemberAfterComma(m[k := p.value], p.rest);
      SpelledTail(p.rest);
      var more := MembersFound(m[k := p.value], p.rest[1..]);
      ms := Member(name, t, more);
      FirstMember(more, [Mark(EndObject)] + end.rest);
    } else {
      MemberEnd(m[k := p.value], p.rest);
      SpelledTail(p.rest);
      ms := Member(name, t, NoMember);
      NoMoreMemberValues(m[k := p.value]);
      NoMemberLeft([Mark(EndObject)] + end.rest);
    }
    FirstMember(ms, [Mark(EndObject)] + end.rest);
  }

  // ----- texts -----

  /** The text consists of these tokens, with gaps in front of them; the last one ends it. */
  ghost predicate Spells(s: string, ls: seq<Lexeme>)
    decreases |ls|
  {
    ls != [] && exists gap: string, rest: string ::
      && Gap(gap) && GoodToken(ls[0].kind, ls[0].text, rest) && s == gap + (ls[0].text + rest)
      && if ls[0].kind == EndOfInput then |ls| == 1 else Spells(rest, ls[1..])
  }

  lemma LexUnfolds(s: string)
    ensures var t := Scan(s);
            Lex(s) == [Lexeme(t.kind, t.text)] + if IsLast(t.kind) then [] else Lex(t.rest)
  {
    hide Scan;
  }

  /** The tokens that a text is spelled with are those the lexer finds. */
  lemma {:induction false} SpelledIsLexed(s: string, ls: seq<Lexeme>)
    requires Spells(s, ls)
    ensures Lex(s) == ls
    decreases |ls|
  {
    hide Scan, Lex, Gap, GoodToken;
    var gap: string, rest: string :|
      && Gap(gap) && GoodToken(ls[0].kind, ls[0].text, rest) && s == gap + (ls[0].text + rest)
      && if ls[0].kind == EndOfInput then |ls| == 1 else Spells(rest, ls[1..]);
    TokenIsScanned(gap, ls[0].kind, ls[0].text, rest);
    NoErrorToken(ls[0].kind, ls[0].text, rest);
    LexUnfolds(s);
    assert ls == [ls[0]] + ls[1..];
    if ls[0].kind != EndOfInput {
      SpelledIsLexed(rest, ls[1..]);
    }
  }

  lemma NoErrorToken(kind: Kind, text: string, rest: string)
    requires GoodToken(kind, text, rest)
    ensures kind != ParseError
  {
  }

  predicate Ended(ls: seq<Lexeme>) {
    ls != [] && ls[|ls| - 1].kind == EndOfInput
  }

  lemma {:induction false} LexedIsSpelled(s: string)
    requires Ended(Lex(s))
    ensures Spells(s, Lex(s))
    decreases |s|
  {
    hide Scan, Lex, Gap, GoodToken;
    var t := Scan(s);
    LexUnfolds(s);
    var ls := Lex(s);
    if t.kind == ParseError {
      ErrorEnds(s);
    }
    var gap := ScannedIsToken(s);
    if t.kind != EndOfInput {
      assert ls[1..] == Lex(t.rest);
      assert ls[|ls| - 1] == Lex(t.rest)[|ls| - 2];
      LexedIsSpelled(t.rest);
    }
    assert Gap(gap) && GoodToken(ls[0].kind, ls[0].text, t.rest) && s == gap + (ls[0].text + t.rest);
  }

  lemma ErrorEnds(s: string)
    requires Scan(s).kind == ParseError
    ensures !Ended(Lex(s))
  {
    hide Scan, Lex;
    LexUnfolds(s);
  }

  /** The end of the input is the last token, and there is no other end. */
  lemma {:induction false} EndIsLast(s: string, i: nat)
    requires i < |Lex(s)| && Lex(s)[i].kind == EndOfInput
    ensures i == |Lex(s)| - 1
    decreases |s|
  {
    hide Scan, Lex;
    LexUnfolds(s);
    var t := Scan(s);
    if i > 0 {
      assert !IsLast(t.kind);
      assert Lex(s)[i] == Lex(t.rest)[i - 1];
      EndIsLast(t.rest, i - 1);
    }
  }

  lemma {:induction false} LexIsSpelled(s: string)
    ensures Spelled(Lex(s))
    decreases |s|
  {
    hide Scan, Lex;
    LexUnfolds(s);
    var t := Scan(s);
    if !IsLast(t.kind) {
      LexIsSpelled(t.rest);
      var gap := ScannedIsToken(s);
      MarkIsSpelled(t.kind, t.text, t.rest);
    }
  }

  lemma MarkIsSpelled(kind: Kind, text: string, rest: string)
    requires GoodToken(kind, text, rest)
    ensures IsMark(kind) ==> text == Mark(kind).text
  {
  }

  /** The text is one of the tree: its tokens, with gaps around them, and the end of the input. */
  ghost predicate TextOf(s: string, t: Tree) {
    GoodTree(t) && exists end: string :: Spells(s, Tokens(t) + [Lexeme(EndOfInput, end)])
  }

  lemma TreeText(s: string, t: Tree)
    requires TextOf(s, t)
    ensures Parse(s) == Value(t)
  {
    hide Lex, Tokens, Spells, GoodTree, IsStringToken, Readable, ParseValue;
    var end: string :| Spells(s, Tokens(t) + [Lexeme(EndOfInput, end)]);
    SpelledIsLexed(s, Tokens(t) + [Lexeme(EndOfInput, end)]);
    ReadableOne(Lexeme(EndOfInput, end));
    TreeIsParsed(t, [Lexeme(EndOfInput, end)]);
  }

  lemma TextTree(s: string) returns (t: Tree)
    requires Parse(s).Ok?
    ensures TextOf(s, t) && Value(t) == Parse(s)
  {
    hide Lex, Tokens, Spells, GoodTree, IsStringToken, Readable, ParseValue, Value;
    LexIsReadable(s);
    LexIsSpelled(s);
    var p := ParseValue(Lex(s));
    t := ParsedIsTree(Lex(s));
    TreeHasNoEnd(t);
    SomethingLeft(s, t, p.rest);
    LexedIsSpelled(s);
  }

  lemma SomethingLeft(s: string, t: Tree, rest: seq<Lexeme>)
    requires GoodTree(t) && Lex(s) == Tokens(t) + rest && Head(rest) == EndOfInput
    requires Tokens(t) != [] && !IsLast(Tokens(t)[|Tokens(t)| - 1].kind)
    ensures Ended(Lex(s)) && |rest| == 1 && rest == [Lexeme(EndOfInput, rest[0].text)]
  {
    hide Lex, Tokens, GoodTree;
    LastIsLast(s);
    AppendNothing(Tokens(t));
    if rest != [] {
      EndIsLast(s, |Tokens(t)|);
    }
  }

  lemma AppendNothing<T>(a: seq<T>)
    ensures a + [] == a
  {
  }

  lemma {:induction false} LastIsLast(s: string)
    ensures Lex(s) != [] && IsLast(Lex(s)[|Lex(s)| - 1].kind)
    decreases |s|
  {
    hide Scan, Lex;
    LexUnfolds(s);
    var t := Scan(s);
    if !IsLast(t.kind) {
      LastIsLast(t.rest);
      assert Lex(s)[|Lex(s)| - 1] == Lex(t.rest)[|Lex(t.rest)| - 1];
    }
  }

  lemma TreeHasNoEnd(t: Tree)
    requires GoodTree(t)
    ensures Tokens(t) != [] && !IsLast(Tokens(t)[|Tokens(t)| - 1].kind)
  {
    hide IsStringToken, ElementTokens, MemberTokens, GoodElements, GoodMembers;
  }

  /** The parser accepts exactly the texts of trees all of whose tokens have a value, and gives the value of
      the tree. */
  lemma ParseIsGrammar(s: string, v: Json)
    ensures Parse(s) == Ok(v) <==> exists t: Tree :: TextOf(s, t) && Value(t) == Ok(v)
  {
    hide Parse, Value, GoodTree, Spells, Tokens;
    if Parse(s) == Ok(v) {
      var t := TextTree(s);
    }
    if t: Tree :| TextOf(s, t) && Value(t) == Ok(v) {
      TreeText(s, t);
    }
  }

  // ----- errors -----

  /** No number is stored as a float, unless that is `allowed`. */
  predicate NoFloats(ls: seq<Lexeme>, allowed: bool) {
    allowed || forall l | l in ls && l.kind == NumberToken :: NumberValue(l.text).Ok?
  }

  predicate Usual(p: Parsed, allowed: bool) {
    p.Failed? ==> p.error == InvalidArgument || (allowed && p.error == FloatingPoint)
  }

  lemma {:induction false} UnescapedError(body: string)
    requires WellFormed(body) && Unescaped(body).Err?
    ensures Unescaped(body).error == InvalidArgument
    decreases |body|
  {
    hide WellFormed, HexNumber, Utf8;
    match Decode(body)
    case Err(_) => DecodeError(body);
    case Ok((_, n)) => UnescapedError(body[n..]);
  }

  lemma DecodeError(body: string)
    requires WellFormed(body) && body != "" && Decode(body).Err?
    ensures Decode(body).error == InvalidArgument
  {
    hide WellFormed, HexNumber;
  }

  lemma NumberError(text: string)
    ensures NumberValue(text).Err? ==> NumberValue(text).error == FloatingPoint
  {
    hide Accumulated;
  }

  lemma StringError(text: string)
    requires IsStringToken(text)
    ensures StringValue(text).Err? ==> StringValue(text).error == InvalidArgument
  {
    hide WellFormed, Unescaped;
    if StringValue(text).Err? {
      UnescapedError(text[1..|text| - 1]);
    }
  }

  lemma NoFloatsIn(ls: seq<Lexeme>, front: seq<Lexeme>, rest: seq<Lexeme>, allowed: bool)
    requires NoFloats(ls, allowed) && ls == front + rest
    ensures NoFloats(rest, allowed)
  {
    hide NumberValue;
  }

  lemma NoFloatsTail(ls: seq<Lexeme>, allowed: bool)
    requires NoFloats(ls, allowed) && ls != []
    ensures NoFloats(ls[1..], allowed)
    ensures ls[0].kind == NumberToken ==> NumberValue(ls[0].text).Ok? || allowed
  {
    hide NumberValue;
    NoFloatsIn(ls, [ls[0]], ls[1..], allowed);
    assert ls[0] in ls;
  }

  lemma {:induction false} ValueErrors(ls: seq<Lexeme>, allowed: bool)
    requires Readable(ls) && Spelled(ls) && NoFloats(ls, allowed)
    ensures Usual(ParseValue(ls), allowed)
    decreases |ls|, 0
  {
    hide IsStringToken, ParseArray, ParseObject, StringValue, NumberValue, Spelled, NoFloats;
    if ls != [] {
      SpelledTail(ls);
      ReadableTail(ls);
      NoFloatsTail(ls, allowed);
      match ls[0].kind
      case BeginArray => ArrayErrors(ls[1..], allowed);
      case BeginObject => ObjectErrors(ls[1..], allowed);
      case StringToken => StringError(ls[0].text);
      case NumberToken => NumberError(ls[0].text);
      case _ =>
    }
  }

  lemma ArrayErrors(ls: seq<Lexeme>, allowed: bool)
    requires Readable(ls) && Spelled(ls) && NoFloats(ls, allowed)
    ensures Usual(ParseArray(ls), allowed)
    decreases |ls|, 2
  {
    hide IsStringToken, ParseElements, Readable, Spelled, NoFloats;
    if Head(ls) != EndArray && Head(ls) != ValueSeparator {
      ElementsErrors([], ls, allowed);
    }
  }

  /** What is left when a value has been taken. */
  lemma LeftFine(ls: seq<Lexeme>, allowed: bool)
    requires Readable(ls) && Spelled(ls) && NoFloats(ls, allowed) && ParseValue(ls).Done?
    ensures var rest := ParseValue(ls).rest;
            |rest| < |ls| && Readable(rest) && Spelled(rest) && NoFloats(rest, allowed)
  {
    hide ParseValue, IsStringToken, NoFloats, Spelled, Tokens, GoodTree, Value;
    var t := ParsedIsTree(ls);
    assert Shorter(ParseValue(ls), ls);
    NoFloatsIn(ls, Tokens(t), ParseValue(ls).rest, allowed);
  }

  lemma {:induction false} ElementsErrors(a: seq<Json>, ls: seq<Lexeme>, allowed: bool)
    requires Readable(ls) && Spelled(ls) && NoFloats(ls, allowed)
    ensures Usual(ParseElements(a, ls), allowed)
    decreases |ls|, 1
  {
    hide IsStringToken, ParseElements, AfterElement, ParseValue, Readable, Spelled, NoFloats;
    ElementStep(a, ls);
    ValueErrors(ls, allowed);
    var p := ParseValue(ls);
    if p.Done? {
      LeftFine(ls, allowed);
      if Head(p.rest) == ValueSeparator {
        ElementAfterComma(a + [p.value], p.rest);
        SpelledTail(p.rest);
        NoFloatsTail(p.rest, allowed);
        ElementsErrors(a + [p.value], p.rest[1..], allowed);
      } else {
        ElementEnd(a + [p.value], p.rest);
      }
    }
  }

  lemma ObjectErrors(ls: seq<Lexeme>, allowed: bool)
    requires Readable(ls) && Spelled(ls) && NoFloats(ls, allowed)
    ensures Usual(ParseObject(ls), allowed)
    decreases |ls|, 2
  {
    hide IsStringToken, ParseMembers, Readable, Spelled, NoFloats;
    if Head(ls) != EndObject && Head(ls) != ValueSeparator {
      MembersErrors(map[], ls, allowed);
    }
  }

  lemma {:induction false} MembersErrors(m: map<string, Json>, ls: seq<Lexeme>, allowed: bool)
    requires Readable(ls) && Spelled(ls) && NoFloats(ls, allowed)
    ensures Usual(ParseMembers(m, ls), allowed)
    decreases |ls|, 1
  {
    hide IsStringToken, ParseMembers, AfterMember, ParseValue, Readable, Spelled, NoFloats, StringValue;
    MemberStep(m, ls);
    if Head(ls) == StringToken {
      StringError(ls[0].text);
      SpelledTail(ls);
      NoFloatsTail(ls, allowed);
      var key := StringValue(ls[0].text);
      if key.Ok? && Head(ls[1..]) == NameSeparator {
        SpelledTail(ls[1..]);
        NoFloatsTail(ls[1..], allowed);
        var inside := ls[1..][1..];
        ValueErrors(inside, allowed);
        var p := ParseValue(inside);
        if p.Done? {
          LeftFine(inside, allowed);
          MembersGoOn(m[key.value := p.value], p.rest, |ls|, allowed);
        }
      }
    }
  }

  lemma MembersGoOn(m: map<string, Json>, ls: seq<Lexeme>, bound: nat, allowed: bool)
    requires Readable(ls) && Spelled(ls) && NoFloats(ls, allowed) && |ls| < bound
    ensures Usual(AfterMember(m, ls), allowed)
    decreases bound, 0
  {
    hide IsStringToken, ParseMembers, AfterMember, Readable, Spelled, NoFloats;
    if Head(ls) == ValueSeparator {
      MemberAfterComma(m, ls);
      SpelledTail(ls);
      NoFloatsTail(ls, allowed);
      MembersErrors(m, ls[1..], allowed);
    } else {
      MemberEnd(m, ls);
    }
  }

  /** A text that is not accepted is an invalid argument, or has a number that would be stored as a float. */
  lemma ParseErrorIs(s: string)
    ensures Parse(s).Err? ==> Parse(s).error == InvalidArgument || Parse(s).error == FloatingPoint
    ensures NoFloats(Lex(s), false) && Parse(s).Err? ==> Parse(s).error == InvalidArgument
  {
    hide Lex, ParseValue, Readable, Spelled, NumberValue;
    LexIsReadable(s);
    LexIsSpelled(s);
    ValueErrors(Lex(s), true);
    if NoFloats(Lex(s), false) {
      ValueErrors(Lex(s), false);
    }
  }
}
