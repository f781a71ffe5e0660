/** The recursive-descent parser (json.hpp:8853-9119), and the promise that parsing what dump wrote
    gives the value back. */
module JsonParser {
  import opened JsonValue
  import opened Decimal
  import opened Ordering
  import opened JsonDump
  import opened JsonLexer
  import opened JsonScanner

  // ----- the grammar, on token lists -----

  ghost predicate Readable(ls: seq<Lexeme>) {
    forall l | l in ls :: l.kind == StringToken ==> IsStringToken(l.text)
  }

  function Head(ls: seq<Lexeme>): Kind {
    if ls == [] then EndOfInput else ls[0].kind
  }

  datatype Parsed = Done(value: Json, rest: seq<Lexeme>) | Failed(error: Error)

  ghost predicate Shorter(r: Parsed, ls: seq<Lexeme>) {
    r.Done? ==> |r.rest| < |ls| && Readable(r.rest)
  }

  lemma ReadableTail(ls: seq<Lexeme>)
    requires Readable(ls) && ls != []
    ensures Readable(ls[1..]) && (ls[0].kind == StringToken ==> IsStringToken(ls[0].text))
  {
    hide IsStringToken;
    assert ls[0] in ls;
    forall l | l in ls[1..] ensures l in ls {
    }
  }

  /** A value, and the tokens after it. */
  ghost function ParseValue(ls: seq<Lexeme>): (r: Parsed)
    requires Readable(ls)
    ensures Shorter(r, ls)
    decreases |ls|, 2
  {
    if ls == [] then Failed(InvalidArgument)
    else
      ReadableTail(ls);
      var rest := ls[1..];
      match ls[0].kind
      case BeginObject => ParseObject(rest)
      case BeginArray => ParseArray(rest)
      case NullLiteral => Done(Null, rest)
      case TrueLiteral => Done(Bool(true), rest)
      case FalseLiteral => Done(Bool(false), rest)
      case StringToken =>
        (match StringValue(ls[0].text)
         case Ok(s) => Done(Str(s), rest)
         case Err(e) => Failed(e))
      case NumberToken =>
        (match NumberValue(ls[0].text)
         case Ok(n) => Done(n, rest)
         case Err(e) => Failed(e))
      case _ => Failed(InvalidArgument)
  }

  /** After an opening brace. */
  ghost function ParseObject(ls: seq<Lexeme>): (r: Parsed)
    requires Readable(ls)
    ensures r.Done? ==> |r.rest| < |ls| && Readable(r.rest)
    decreases |ls|, 1
  {
    if Head(ls) == EndObject then (ReadableTail(ls); Done(Obj(map[]), ls[1..]))
    else if Head(ls) == ValueSeparator then Failed(InvalidArgument)
    else ParseMembers(map[], ls)
  }

  ghost function ParseMembers(m: map<string, Json>, ls: seq<Lexeme>): (r: Parsed)
    requires Readable(ls)
    ensures r.Done? ==> |r.rest| < |ls| && Readable(r.rest)
    decreases |ls|, 0
  {
    if Head(ls) != StringToken then Failed(InvalidArgument)
    else
      ReadableTail(ls);
      match StringValue(ls[0].text)
      case Err(e) => Failed(e)
      case Ok(key) =>
        if Head(ls[1..]) != NameSeparator then Failed(InvalidArgument)
        else
          ReadableTail(ls[1..]);
          match ParseValue(ls[1..][1..])
          case Failed(e) => Failed(e)
          case Done(v, rest) => AfterMember(m[key := v], rest)
  }

  ghost function AfterMember(m: map<string, Json>, ls: seq<Lexeme>): (r: Parsed)
    requires Readable(ls)
    ensures r.Done? ==> |r.rest| < |ls| && Readable(r.rest)
    decreases |ls|, 0
  {
    if Head(ls) == ValueSeparator then (ReadableTail(ls); ParseMembers(m, ls[1..]))
    else if Head(ls) == EndObject then (ReadableTail(ls); Done(Obj(m), ls[1..]))
    else Failed(InvalidArgument)
  }

  /** After an opening bracket. */
  ghost function ParseArray(ls: seq<Lexeme>): (r: Parsed)
    requires Readable(ls)
    ensures r.Done? ==> |r.rest| < |ls| && Readable(r.rest)
    decreases |ls|, 4
  {
    if Head(ls) == EndArray then (ReadableTail(ls); Done(Arr([]), ls[1..]))
    else if Head(ls) == ValueSeparator then Failed(InvalidArgument)
    else ParseElements([], ls)
  }

  ghost function ParseElements(a: seq<Json>, ls: seq<Lexeme>): (r: Parsed)
    requires Readable(ls)
    ensures r.Done? ==> |r.rest| < |ls| && Readable(r.rest)
    decreases |ls|, 3
  {
    match ParseValue(ls)
    case Failed(e) => Failed(e)
    case Done(v, rest) => AfterElement(a + [v], rest)
  }

  ghost function AfterElement(a: seq<Json>, ls: seq<Lexeme>): (r: Parsed)
    requires Readable(ls)
    ensures r.Done? ==> |r.rest| < |ls| && Readable(r.rest)
    decreases |ls|, 0
  {
    if Head(ls) == ValueSeparator then (ReadableTail(ls); ParseElements(a, ls[1..]))
    else if Head(ls) == EndArray then (ReadableTail(ls); Done(Arr(a), ls[1..]))
    else Failed(InvalidArgument)
  }

  lemma LexIsReadable(s: string)
    ensures Readable(Lex(s))
  {
  }

  /** `parse(s)`. */
  ghost function Parse(s: string): Result<Json> {
    LexIsReadable(s);
    match ParseValue(Lex(s))
    case Failed(e) => Err(e)
    case Done(v, rest) => if Head(rest) == EndOfInput then Ok(v) else Err(InvalidArgument)
  }

  // One step of the grammar's loops.

  lemma ElementStep(a: seq<Json>, ls: seq<Lexeme>)
    requires Readable(ls)
    ensures var p := ParseValue(ls);
            ParseElements(a, ls) == if p.Done? then AfterElement(a + [p.value], p.rest) else p
  {
    hide ParseValue, AfterElement, Readable;
  }

  lemma ElementAfterComma(a: seq<Json>, ls: seq<Lexeme>)
    requires Readable(ls) && Head(ls) == ValueSeparator
    ensures ls != [] && Readable(ls[1..]) && AfterElement(a, ls) == ParseElements(a, ls[1..])
  {
    hide ParseElements, Readable;
    ReadableTail(ls);
  }

  lemma ElementEnd(a: seq<Json>, ls: seq<Lexeme>)
    requires Readable(ls) && Head(ls) != ValueSeparator
    ensures AfterElement(a, ls) == if Head(ls) == EndArray then Done(Arr(a), ls[1..]) else Failed(InvalidArgument)
  {
    hide ParseElements, Readable;
  }

  lemma MemberStep(m: map<string, Json>, ls: seq<Lexeme>)
    requires Readable(ls)
    ensures Head(ls) == StringToken ==> ls != [] && IsStringToken(ls[0].text) && Readable(ls[1..])
    ensures Head(ls) == StringToken && Head(ls[1..]) == NameSeparator ==> Readable(ls[1..][1..])
    ensures ParseMembers(m, ls) ==
            if Head(ls) != StringToken then Failed(InvalidArgument)
            else
              var key := StringValue(ls[0].text);
              if key.Err? then Failed(key.error)
              else if Head(ls[1..]) != NameSeparator then Failed(InvalidArgument)
              else
                var p := ParseValue(ls[1..][1..]);
                if p.Done? then AfterMember(m[key.value := p.value], p.rest) else p
  {
    hide ParseValue, AfterMember, Readable, IsStringToken, StringValue;
    if Head(ls) == StringToken {
      ReadableTail(ls);
      if Head(ls[1..]) == NameSeparator {
        ReadableTail(ls[1..]);
      }
    }
  }

  lemma MemberAfterComma(m: map<string, Json>, ls: seq<Lexeme>)
    requires Readable(ls) && Head(ls) == ValueSeparator
    ensures ls != [] && Readable(ls[1..]) && AfterMember(m, ls) == ParseMembers(m, ls[1..])
  {
    hide ParseMembers, Readable;
    ReadableTail(ls);
  }

  lemma MemberEnd(m: map<string, Json>, ls: seq<Lexeme>)
    requires Readable(ls) && Head(ls) != ValueSeparator
    ensures AfterMember(m, ls) == if Head(ls) == EndObject then Done(Obj(m), ls[1..]) else Failed(InvalidArgument)
  {
    hide ParseMembers, Readable;
  }

  // ----- parsing the tokens of a value -----

  /** What comes back: a signed number that is not negative returns as an unsigned one. */
  function Unsigned(j: Json): Json {
    match j
    case Int(i) => if i < 0 then j else Uint(i)
    case Arr(a) => Arr(seq(|a|, i requires 0 <= i < |a| => Unsigned(a[i])))
    case Obj(m) => Obj(map k | k in m :: Unsigned(m[k]))
    case _ => j
  }

  /** The comparison operator sees no difference. */
  lemma {:induction false} UnsignedEqual(j: Json)
    ensures Equal(Unsigned(j), j)
  {
    match j
    case Arr(a) =>
      forall i | 0 <= i < |a| ensures Equal(Unsigned(a[i]), a[i]) {
        UnsignedEqual(a[i]);
      }
    case Obj(m) =>
      forall k | k in m ensures Equal(Unsigned(m[k]), m[k]) {
        UnsignedEqual(m[k]);
      }
    case _ =>
  }

  lemma IntegerRoundTrip(i: int)
    requires -TWO63 <= i < TWO64
    ensures NumberValue(IntegerText(i)) == Ok(if i < 0 then Int(i) else Uint(i))
  {
    hide DecimalText, DigitsValue, NumberValue;
    var n: nat := if i < 0 then -i else i;
    DecimalValue(n);
    if i < 0 {
      NegativeLiteral(DecimalText(n));
    } else {
      UnsignedLiteral(DecimalText(n));
    }
  }

  ghost predicate ParsesTo(tokens: seq<Lexeme>, v: Json, rest: seq<Lexeme>) {
    Readable(tokens) && ParseValue(tokens) == Done(v, rest)
  }

  lemma ReadableAppend(a: seq<Lexeme>, b: seq<Lexeme>)
    requires Readable(a) && Readable(b)
    ensures Readable(a + b)
  {
    hide IsStringToken;
  }

  lemma ReadableOne(l: Lexeme)
    requires l.kind == StringToken ==> IsStringToken(l.text)
    ensures Readable([l])
  {
    hide IsStringToken;
  }

  lemma ParseSimple(l: Lexeme, v: Json, rest: seq<Lexeme>)
    requires Readable(rest)
    requires match l.kind
             case NullLiteral => v == Null
             case TrueLiteral => v == Bool(true)
             case FalseLiteral => v == Bool(false)
             case StringToken => IsStringToken(l.text) && v.Str? && StringValue(l.text) == Ok(v.s)
             case NumberToken => NumberValue(l.text) == Ok(v)
             case _ => false
    ensures ParsesTo([l] + rest, v, rest)
  {
    hide IsStringToken, StringValue, NumberValue;
    ReadableOne(l);
    ReadableAppend([l], rest);
    assert ([l] + rest)[1..] == rest;
  }

  lemma {:induction false} ParseLexemes(j: Json, rest: seq<Lexeme>)
    requires Readable(rest)
    ensures ParsesTo(Lexemes(j) + rest, Unsigned(j), rest)
    decreases j, 1, 0
  {
    hide Quoted, IntegerText, ParsesTo, ElementLexemes, MemberLexemes, SortedKeys, IsStringToken, StringValue,
         NumberValue, Readable;
    match j
    case Str(s) =>
      QuotedIsToken(s);
      ParseSimple(Lexeme(StringToken, Quoted(s)), j, rest);
    case Int(i) =>
      IntegerRoundTrip(i);
      ParseSimple(Lexeme(NumberToken, IntegerText(i)), Unsigned(j), rest);
    case Uint(u) =>
      IntegerRoundTrip(u);
      ParseSimple(Lexeme(NumberToken, IntegerText(u)), j, rest);
    case Arr(a) =>
      ParseArrayLexemes(j, rest);
    case Obj(m) =>
      ParseObjectLexemes(j, rest);
    case _ =>
      ParseSimple(Lexemes(j)[0], j, rest);
  }

  // Arrays.

  /** The tokens from element `i` on, without the comma in front of it. */
  function ElementsFrom(j: Json, i: nat, rest: seq<Lexeme>): seq<Lexeme>
    requires j.Arr? && i < |j.elems|
  {
    Lexemes(j.elems[i]) + (ElementLexemes(j, i + 1) + ([Lexeme(EndArray, "]")] + rest))
  }

  function UnsignedElements(a: seq<Json>): seq<Json> {
    seq(|a|, i requires 0 <= i < |a| => Unsigned(a[i]))
  }

  lemma {:induction false} ParseArrayLexemes(j: Json, rest: seq<Lexeme>)
    requires j.Arr? && Readable(rest)
    ensures ParsesTo(Lexemes(j) + rest, Unsigned(j), rest)
    decreases j, 0, |j.elems| + 1
  {
    hide Lexemes, Unsigned, Readable, IsStringToken;
    var close := [Lexeme(EndArray, "]")] + rest;
    ReadableOne(Lexeme(EndArray, "]"));
    ReadableAppend([Lexeme(EndArray, "]")], rest);
    if j.elems == [] {
      EmptyArray(j, rest);
    } else {
      assert j.elems[..0] == [] && UnsignedElements([]) == [];
      ParseElementLexemes(j, 0, rest);
      ArrayTokens(j, rest);
      UnsignedArray(j);
      StartsValue(j.elems[0]);
      ParseAfterBracket(j, rest);
    }
  }

  lemma OpenArray(inside: seq<Lexeme>)
    requires Readable(inside)
    ensures var ls := [Lexeme(BeginArray, "[")] + inside; Readable(ls) && ParseValue(ls) == ParseArray(inside)
  {
    hide IsStringToken, ParseArray;
    ReadableOne(Lexeme(BeginArray, "["));
    ReadableAppend([Lexeme(BeginArray, "[")], inside);
    assert ([Lexeme(BeginArray, "[")] + inside)[1..] == inside;
  }

  lemma EmptyArray(j: Json, rest: seq<Lexeme>)
    requires j == Arr([]) && Readable(rest)
    ensures ParsesTo(Lexemes(j) + rest, Unsigned(j), rest)
  {
    hide IsStringToken, ParseValue, ParseElements;
    var close := [Lexeme(EndArray, "]")] + rest;
    ReadableOne(Lexeme(EndArray, "]"));
    ReadableAppend([Lexeme(EndArray, "]")], rest);
    OpenArray(close);
    assert Lexemes(j) + rest == [Lexeme(BeginArray, "[")] + close;
    assert close[1..] == rest;
    assert Unsigned(j) == Arr([]);
  }

  lemma UnsignedArray(j: Json)
    requires j.Arr?
    ensures Unsigned(j) == Arr(UnsignedElements(j.elems))
  {
  }

  lemma ArrayTokens(j: Json, rest: seq<Lexeme>)
    requires j.Arr? && j.elems != []
    ensures Lexemes(j) + rest == [Lexeme(BeginArray, "[")] + ElementsFrom(j, 0, rest)
  {
    hide ElementLexemes;
    var x, y, close := Lexemes(j.elems[0]), ElementLexemes(j, 1), [Lexeme(EndArray, "]")];
    ElementLexemesStep(j, 0);
    ArrayRegroup([Lexeme(BeginArray, "[")], x, y, close, rest);
    assert [] + x + y == x + y;
  }

  lemma ArrayRegroup(a: seq<Lexeme>, x: seq<Lexeme>, y: seq<Lexeme>, c: seq<Lexeme>, rest: seq<Lexeme>)
    ensures a + (x + y) + c + rest == a + (x + (y + (c + rest)))
  {
  }

  lemma ElementLexemesStep(j: Json, i: nat)
    requires j.Arr?
    ensures ElementLexemes(j, i) ==
            if i >= |j.elems| then []
            else (if i == 0 then [] else [Comma()]) + Lexemes(j.elems[i]) + ElementLexemes(j, i + 1)
  {
    hide Lexemes;
  }

  /** No value starts with a closing bracket or a comma. */
  lemma StartsValue(j: Json)
    ensures Lexemes(j) != [] && Lexemes(j)[0].kind !in {EndArray, EndObject, ValueSeparator}
  {
    hide ElementLexemes, MemberLexemes;
  }

  lemma ParseAfterBracket(j: Json, rest: seq<Lexeme>)
    requires j.Arr? && j.elems != [] && Lexemes(j.elems[0]) != []
    requires Lexemes(j.elems[0])[0].kind !in {EndArray, EndObject, ValueSeparator}
    requires Readable(ElementsFrom(j, 0, rest))
    requires ParseElements([], ElementsFrom(j, 0, rest)) == Done(Arr(UnsignedElements(j.elems)), rest)
    ensures ParsesTo([Lexeme(BeginArray, "[")] + ElementsFrom(j, 0, rest), Arr(UnsignedElements(j.elems)), rest)
  {
    hide ParseValue, ParseElements, Lexemes, ElementLexemes, UnsignedElements, Readable;
    var inside := ElementsFrom(j, 0, rest);
    OpenArray(inside);
    assert Head(inside) == Lexemes(j.elems[0])[0].kind;
  }

  lemma {:induction false} ParseElementLexemes(j: Json, i: nat, rest: seq<Lexeme>)
    requires j.Arr? && i < |j.elems| && Readable(rest)
    ensures var ls := ElementsFrom(j, i, rest);
            Readable(ls) && ParseElements(UnsignedElements(j.elems[..i]), ls)
                == Done(Arr(UnsignedElements(j.elems)), rest)
    decreases j, 0, |j.elems| - i
  {
    hide Lexemes, Unsigned, Readable, IsStringToken, ElementLexemes, ParseValue, ParseElements, UnsignedElements,
         AfterElement;
    var a, close := j.elems, [Lexeme(EndArray, "]")] + rest;
    ReadableOne(Lexeme(EndArray, "]"));
    ReadableAppend([Lexeme(EndArray, "]")], rest);
    var after := ElementLexemes(j, i + 1) + close;
    ElementLexemesStep(j, i + 1);
    if i + 1 == |a| {
      assert after == close;
      assert a[..i + 1] == a;
      CloseArray(UnsignedElements(a), rest);
    } else {
      ParseElementLexemes(j, i + 1, rest);
      NextElement(j, i + 1, rest);
      CommaInArray(UnsignedElements(a[..i + 1]), ElementsFrom(j, i + 1, rest));
    }
    ParseLexemes(a[i], after);
    UnsignedStep(a, i);
    OneElement(UnsignedElements(a[..i]), Lexemes(a[i]) + after, Unsigned(a[i]), after);
  }

  lemma UnsignedStep(a: seq<Json>, i: nat)
    requires i < |a|
    ensures UnsignedElements(a[..i + 1]) == UnsignedElements(a[..i]) + [Unsigned(a[i])]
  {
    hide Unsigned;
  }

  lemma NextElement(j: Json, i: nat, rest: seq<Lexeme>)
    requires j.Arr? && 0 < i < |j.elems|
    ensures ElementLexemes(j, i) + ([Lexeme(EndArray, "]")] + rest) == [Comma()] + ElementsFrom(j, i, rest)
  {
    hide Lexemes, ElementLexemes;
    ElementLexemesStep(j, i);
    ThreeAndRest([Comma()], Lexemes(j.elems[i]), ElementLexemes(j, i + 1), [Lexeme(EndArray, "]")] + rest);
  }

  lemma CloseArray(a: seq<Json>, rest: seq<Lexeme>)
    requires Readable(rest)
    ensures Readable([Lexeme(EndArray, "]")] + rest) && AfterElement(a, [Lexeme(EndArray, "]")] + rest)
            == Done(Arr(a), rest)
  {
    hide IsStringToken, ParseElements;
    ReadableOne(Lexeme(EndArray, "]"));
    ReadableAppend([Lexeme(EndArray, "]")], rest);
    assert ([Lexeme(EndArray, "]")] + rest)[1..] == rest;
  }

  lemma CommaInArray(a: seq<Json>, ls: seq<Lexeme>)
    requires Readable(ls)
    ensures Readable([Comma()] + ls) && AfterElement(a, [Comma()] + ls) == ParseElements(a, ls)
  {
    hide IsStringToken, ParseElements;
    ReadableOne(Comma());
    ReadableAppend([Comma()], ls);
    assert ([Comma()] + ls)[1..] == ls;
  }

  lemma OneElement(a: seq<Json>, ls: seq<Lexeme>, v: Json, after: seq<Lexeme>)
    requires ParsesTo(ls, v, after)
    ensures Readable(ls) && Readable(after) && ParseElements(a, ls) == AfterElement(a + [v], after)
  {
    hide IsStringToken, ParseValue, AfterElement;
  }

  // Objects.

  function MembersFrom(j: Json, keys: seq<string>, rest: seq<Lexeme>): seq<Lexeme>
    requires j.Obj? && keys != [] && forall i | 0 <= i < |keys| :: keys[i] in j.members
  {
    [Lexeme(StringToken, Quoted(keys[0]))] + ([Lexeme(NameSeparator, ":")] +
    (Lexemes(j.members[keys[0]]) + (MemberLexemes(j, keys[1..], false) + ([Lexeme(EndObject, "}")] + rest))))
  }

  /** The members of `m` other than those with the keys in `left`. */
  function UnsignedMembers(m: map<string, Json>, left: set<string>): map<string, Json> {
    map k | k in m && k !in left :: Unsigned(m[k])
  }

  lemma UnsignedObject(j: Json)
    requires j.Obj?
    ensures Unsigned(j) == Obj(UnsignedMembers(j.members, {}))
    ensures UnsignedMembers(j.members, j.members.Keys) == map[]
  {
  }

  lemma MemberLexemesStep(j: Json, keys: seq<string>, first: bool, rest: seq<Lexeme>)
    requires j.Obj? && keys != [] && forall i | 0 <= i < |keys| :: keys[i] in j.members
    ensures MemberLexemes(j, keys, first) + ([Lexeme(EndObject, "}")] + rest) ==
            if first then MembersFrom(j, keys, rest) else [Comma()] + MembersFrom(j, keys, rest)
  {
    hide Lexemes, Quoted;
    MemberAndRest(if first then [] else [Comma()], Lexeme(StringToken, Quoted(keys[0])), Lexeme(NameSeparator, ":"),
                  Lexemes(j.members[keys[0]]), MemberLexemes(j, keys[1..], false), [Lexeme(EndObject, "}")] + rest);
    assert [] + MembersFrom(j, keys, rest) == MembersFrom(j, keys, rest);
  }

  lemma {:induction false} ParseObjectLexemes(j: Json, rest: seq<Lexeme>)
    requires j.Obj? && Readable(rest)
    ensures ParsesTo(Lexemes(j) + rest, Unsigned(j), rest)
    decreases j, 0, |j.members| + 1
  {
    hide Unsigned, Readable, IsStringToken, MemberLexemes, SortedKeys, ParsesTo, ParseMembers, MembersFrom,
         UnsignedMembers;
    var m, keys := j.members, SortedKeys(j.members.Keys);
    var open, close := [Lexeme(BeginObject, "{")], [Lexeme(EndObject, "}")];
    UnsignedObject(j);
    ObjectRegroup(open, MemberLexemes(j, keys, true), close, rest);
    if keys == [] {
      NoKeys(m);
      NoMembers(j);
      assert [] + (close + rest) == close + rest;
      EmptyObject(rest);
    } else {
      MemberLexemesStep(j, keys, true, rest);
      ParseMemberLexemes(j, m.Keys, keys, rest);
      ParseAfterBrace(MembersFrom(j, keys, rest), Obj(UnsignedMembers(m, {})), rest);
    }
  }

  lemma NoKeys(m: map<string, Json>)
    requires SortedKeys(m.Keys) == []
    ensures m == map[]
  {
    hide SortedKeys;
    assert |m.Keys| == 0;
  }

  lemma ObjectRegroup(open: seq<Lexeme>, body: seq<Lexeme>, close: seq<Lexeme>, rest: seq<Lexeme>)
    ensures open + body + close + rest == open + (body + (close + rest))
  {
  }

  lemma OpenObject(inside: seq<Lexeme>)
    requires Readable(inside)
    ensures var ls := [Lexeme(BeginObject, "{")] + inside; Readable(ls) && ParseValue(ls) == ParseObject(inside)
  {
    hide IsStringToken, ParseObject;
    ReadableOne(Lexeme(BeginObject, "{"));
    ReadableAppend([Lexeme(BeginObject, "{")], inside);
    assert ([Lexeme(BeginObject, "{")] + inside)[1..] == inside;
  }

  lemma EmptyObject(rest: seq<Lexeme>)
    requires Readable(rest)
    ensures ParsesTo([Lexeme(BeginObject, "{")] + ([Lexeme(EndObject, "}")] + rest), Obj(map[]), rest)
  {
    hide IsStringToken, ParseValue, ParseMembers;
    var close := [Lexeme(EndObject, "}")] + rest;
    ReadableOne(Lexeme(EndObject, "}"));
    ReadableAppend([Lexeme(EndObject, "}")], rest);
    OpenObject(close);
    assert close[1..] == rest;
  }

  lemma ParseAfterBrace(inside: seq<Lexeme>, v: Json, rest: seq<Lexeme>)
    requires Readable(inside) && Head(inside) == StringToken && ParseMembers(map[], inside) == Done(v, rest)
    ensures ParsesTo([Lexeme(BeginObject, "{")] + inside, v, rest)
  {
    hide ParseValue, ParseMembers, Readable;
    OpenObject(inside);
  }

  lemma {:induction false} ParseMemberLexemes(j: Json, left: set<string>, keys: seq<string>, rest: seq<Lexeme>)
    requires j.Obj? && keys != [] && Readable(rest) && left <= j.members.Keys && Enumerates(keys, left)
    requires forall i | 0 <= i < |keys| :: keys[i] in j.members
    ensures var ls := MembersFrom(j, keys, rest);
            && Readable(ls) && Head(ls) == StringToken
            && ParseMembers(UnsignedMembers(j.members, left), ls) == Done(Obj(UnsignedMembers(j.members, {})), rest)
    decreases j, 0, |keys|
  {
    hide Lexemes, Unsigned, Readable, IsStringToken, MemberLexemes, ParseValue, ParseMembers, UnsignedMembers,
         AfterMember, Quoted, Enumerates;
    var m, k := j.members, keys[0];
    var close := [Lexeme(EndObject, "}")] + rest;
    ReadableOne(Lexeme(EndObject, "}"));
    ReadableAppend([Lexeme(EndObject, "}")], rest);
    var after := MemberLexemes(j, keys[1..], false) + close;
    var left' := left - {k};
    RestOfKeys(keys, left);
    if keys[1..] == [] {
      NoMoreMembers(j);
      assert [] + close == close;
      CloseObject(UnsignedMembers(m, left'), rest);
    } else {
      ParseMemberLexemes(j, left', keys[1..], rest);
      MemberLexemesStep(j, keys[1..], false, rest);
      CommaInObject(UnsignedMembers(m, left'), MembersFrom(j, keys[1..], rest));
    }
    ParseLexemes(m[k], after);
    MembersGrow(m, left, k);
    OneMember(UnsignedMembers(m, left), k, Lexemes(m[k]) + after, Unsigned(m[k]), after);
  }

  lemma NoMoreMembers(j: Json)
    requires j.Obj?
    ensures MemberLexemes(j, [], false) == []
  {
  }

  lemma RestOfKeys(keys: seq<string>, left: set<string>)
    requires keys != [] && Enumerates(keys, left)
    ensures keys[0] in left && Enumerates(keys[1..], left - {keys[0]}) && (keys[1..] == [] ==> left - {keys[0]} == {})
  {
    assert keys == [keys[0]] + keys[1..];
    assert keys[0] in keys;
  }

  lemma MembersGrow(m: map<string, Json>, left: set<string>, k: string)
    requires k in m && k in left
    ensures UnsignedMembers(m, left - {k}) == UnsignedMembers(m, left)[k := Unsigned(m[k])]
  {
    hide Unsigned;
  }

  lemma CloseObject(m: map<string, Json>, rest: seq<Lexeme>)
    requires Readable(rest)
    ensures Readable([Lexeme(EndObject, "}")] + rest) && AfterMember(m, [Lexeme(EndObject, "}")] + rest)
            == Done(Obj(m), rest)
  {
    hide IsStringToken, ParseMembers;
    ReadableOne(Lexeme(EndObject, "}"));
    ReadableAppend([Lexeme(EndObject, "}")], rest);
    assert ([Lexeme(EndObject, "}")] + rest)[1..] == rest;
  }

  lemma CommaInObject(m: map<string, Json>, ls: seq<Lexeme>)
    requires Readable(ls)
    ensures Readable([Comma()] + ls) && AfterMember(m, [Comma()] + ls) == ParseMembers(m, ls)
  {
    hide IsStringToken, ParseMembers;
    ReadableOne(Comma());
    ReadableAppend([Comma()], ls);
    assert ([Comma()] + ls)[1..] == ls;
  }

  lemma OneMember(m: map<string, Json>, k: string, ls: seq<Lexeme>, v: Json, after: seq<Lexeme>)
    requires ParsesTo(ls, v, after)
    ensures var all := [Lexeme(StringToken, Quoted(k))] + ([Lexeme(NameSeparator, ":")] + ls);
            && Readable(all) && Head(all) == StringToken && Readable(after)
            && ParseMembers(m, all) == AfterMember(m[k := v], after)
  {
    hide IsStringToken, ParseValue, AfterMember, Quoted, StringValue;
    var name, colon := Lexeme(StringToken, Quoted(k)), Lexeme(NameSeparator, ":");
    QuotedIsToken(k);
    ReadableOne(name);
    ReadableOne(colon);
    ReadableAppend([colon], ls);
    ReadableAppend([name], [colon] + ls);
    assert ([name] + ([colon] + ls))[1..] == [colon] + ls;
    assert ([colon] + ls)[1..] == ls;
  }

  // ----- the promise -----

  /** Parsing dumped text gives the value back, in compact form and at every indent, and the
      comparison operator finds it equal to the original. */
  lemma ParseOfDump(j: Json, indent: int)
    ensures Parse(Dump(j, indent)) == Ok(Unsigned(j)) && Equal(Unsigned(j), j)
  {
    hide Lex, Dump, Lexemes, Unsigned, Equal, IsStringToken, ParseValue;
    var end := [Lexeme(EndOfInput, "")];
    LexDump(j, indent);
    ReadableOne(Lexeme(EndOfInput, ""));
    ParseLexemes(j, end);
    UnsignedEqual(j);
  }
}
