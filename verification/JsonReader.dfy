/** The parser object (json.hpp:8853-9119): a lexer that moves a cursor through its buffer, and the
    last token it read. Its methods are the grammar of JsonParser. */
module JsonReader {
  import opened JsonValue
  import opened JsonLexer
  import opened JsonScanner
  import opened JsonParser

  class Parser {
    const buffer: string
    var start: nat
    var cursor: nat
    var lastToken: Kind

    ghost predicate Valid()
      reads this
    {
      start <= cursor <= |buffer| && (lastToken == StringToken ==> IsStringToken(buffer[start..cursor]))
    }

    /** The last token, and the tokens that are still to be read. */
    ghost function Remaining(): (ls: seq<Lexeme>)
      requires Valid()
      reads this
      ensures ls != [] && Head(ls) == lastToken && Readable(ls)
      ensures !IsLast(lastToken) ==> ls[1..] == Lex(buffer[cursor..])
    {
      var now := Lexeme(lastToken, buffer[start..cursor]);
      var later := if IsLast(lastToken) then [] else Lex(buffer[cursor..]);
      ReadableNow(now, later);
      assert ([now] + later)[1..] == later;
      [now] + later
    }

    /** The constructor reads the first token. */
    constructor (s: string)
      ensures Valid() && fresh(this) && buffer == s && Remaining() == Lex(s)
    {
      buffer := s;
      start, cursor, lastToken := 0, 0, EndOfInput;
      new;
      assert s[0..] == s;
      Read();
    }

    /** One call of scan. */
    method Read()
      requires cursor <= |buffer|
      modifies this
      ensures Valid() && Remaining() == Lex(buffer[old(cursor)..])
    {
      hide Scan, IsStringToken;
      ghost var s := buffer[cursor..];
      var t := Scan(buffer[cursor..]);
      ScanWithin(s);
      WithinBuffer(t, buffer, cursor);
      cursor := |buffer| - |t.rest|;
      start := cursor - |t.text|;
      lastToken := t.kind;
    }

    method GetToken()
      requires Valid() && !IsLast(lastToken)
      modifies this
      ensures Valid() && Remaining() == old(Remaining())[1..]
    {
      Read();
    }

    method Parse() returns (r: Result<Json>)
      requires Valid()
      modifies this
      ensures r == match ParseValue(old(Remaining()))
                   case Failed(e) => Err(e)
                   case Done(v, rest) => if Head(rest) == EndOfInput then Ok(v) else Err(InvalidArgument)
    {
      hide ParseValue, Valid;
      r := ParseInternal();
      if r.Ok? && lastToken != EndOfInput {
        r := Err(InvalidArgument);
      }
    }

    /** What a parsing method has done: it returns what the grammar says, and stands behind it. */
    ghost predicate Follows(p: Parsed, r: Result<Json>)
      reads this
    {
      Valid() &&
      match p
      case Failed(e) => r == Err(e)
      case Done(v, rest) => r == Ok(v) && Remaining() == rest
    }

    /** parse_internal. */
    method ParseInternal() returns (r: Result<Json>)
      requires Valid()
      modifies this
      ensures Follows(ParseValue(old(Remaining())), r)
      decreases |Remaining()|, 0
    {
      hide ParseObject, ParseArray, IsStringToken, StringValue, NumberValue, Lex;
      match lastToken
      case BeginObject =>
        GetToken();
        r := ParseObjectBody();
      case BeginArray =>
        GetToken();
        r := ParseArrayBody();
      case NullLiteral =>
        GetToken();
        r := Ok(Null);
      case TrueLiteral =>
        GetToken();
        r := Ok(Bool(true));
      case FalseLiteral =>
        GetToken();
        r := Ok(Bool(false));
      case StringToken =>
        var s := GetString(buffer[start..cursor]);
        if s.Err? {
          return Err(s.error);
        }
        GetToken();
        r := Ok(Str(s.value));
      case NumberToken =>
        r := GetNumber(buffer[start..cursor]);
        GetToken();
      case _ =>
        r := Err(InvalidArgument);
    }

    method ParseArrayBody() returns (r: Result<Json>)
      requires Valid()
      modifies this
      ensures Follows(ParseArray(old(Remaining())), r)
      decreases |Remaining()|, 2
    {
      hide ParseElements, Lex, IsStringToken;
      if lastToken == EndArray {
        GetToken();
        return Ok(Arr([]));
      }
      if lastToken == ValueSeparator {
        return Err(InvalidArgument);
      }
      r := ParseElementLoop();
    }

    /** The do-while loop over the elements. */
    method ParseElementLoop() returns (r: Result<Json>)
      requires Valid() && lastToken != ValueSeparator
      modifies this
      ensures Follows(ParseElements([], old(Remaining())), r)
      decreases |Remaining()|, 1
    {
      hide ParseValue, ParseElements, AfterElement, Lex, IsStringToken, Valid, Remaining;
      ghost var whole := ParseElements([], Remaining());
      ghost var bound := |Remaining()|;
      var result: seq<Json> := [];
      var more := true;
      while more
        invariant Valid() && |Remaining()| <= bound
        invariant more && lastToken != ValueSeparator ==> whole == ParseElements(result, Remaining())
        invariant more && lastToken == ValueSeparator ==>
                    |Remaining()| < bound && whole == AfterElement(result, Remaining())
        invariant !more ==> whole == AfterElement(result, Remaining()) && lastToken != ValueSeparator
        decreases |Remaining()|, more
      {
        if lastToken == ValueSeparator {
          ElementAfterComma(result, Remaining());
          GetToken();
        }
        ghost var before := Remaining();
        ElementStep(result, before);
        var value := ParseInternal();
        if value.Err? {
          return Err(value.error);
        }
        result := result + [value.value];
        more := lastToken == ValueSeparator;
      }
      ElementEnd(result, Remaining());
      if lastToken != EndArray {
        return Err(InvalidArgument);
      }
      GetToken();
      r := Ok(Arr(result));
    }

    method ParseObjectBody() returns (r: Result<Json>)
      requires Valid()
      modifies this
      ensures Follows(ParseObject(old(Remaining())), r)
      decreases |Remaining()|, 2
    {
      hide ParseMembers, Lex, IsStringToken;
      if lastToken == EndObject {
        GetToken();
        return Ok(Obj(map[]));
      }
      if lastToken == ValueSeparator {
        return Err(InvalidArgument);
      }
      r := ParseMemberLoop();
    }

    /** The do-while loop over the members. */
    method ParseMemberLoop() returns (r: Result<Json>)
      requires Valid() && lastToken != ValueSeparator
      modifies this
      ensures Follows(ParseMembers(map[], old(Remaining())), r)
      decreases |Remaining()|, 1
    {
      hide ParseValue, ParseMembers, AfterMember, Lex, IsStringToken, Valid, Remaining, StringValue;
      ghost var whole := ParseMembers(map[], Remaining());
      ghost var bound := |Remaining()|;
      var result: map<string, Json> := map[];
      var more := true;
      while more
        invariant Valid() && |Remaining()| <= bound
        invariant more && lastToken != ValueSeparator ==> whole == ParseMembers(result, Remaining())
        invariant more && lastToken == ValueSeparator ==>
                    |Remaining()| < bound && whole == AfterMember(result, Remaining())
        invariant !more ==> whole == AfterMember(result, Remaining()) && lastToken != ValueSeparator
        decreases |Remaining()|, more
      {
        if lastToken == ValueSeparator {
          MemberAfterComma(result, Remaining());
          GetToken();
        }
        ghost var before := Remaining();
        MemberStep(result, before);
        if lastToken != StringToken {
          return Err(InvalidArgument);
        }
        var key := KeyText();
        if key.Err? {
          return Err(key.error);
        }
        GetToken();
        if lastToken != NameSeparator {
          return Err(InvalidArgument);
        }
        GetToken();
        var value := ParseInternal();
        if value.Err? {
          return Err(value.error);
        }
        result := result[key.value := value.value];
        more := lastToken == ValueSeparator;
      }
      MemberEnd(result, Remaining());
      if lastToken != EndObject {
        return Err(InvalidArgument);
      }
      GetToken();
      r := Ok(Obj(result));
    }

    method KeyText() returns (r: Result<string>)
      requires Valid() && lastToken == StringToken
      ensures IsStringToken(Remaining()[0].text) && r == StringValue(Remaining()[0].text)
    {
      hide IsStringToken, StringValue;
      r := GetString(buffer[start..cursor]);
    }
  }

  /** `json::parse(s)`. */
  method ParseText(s: string) returns (r: Result<Json>)
    ensures r == Parse(s)
  {
    hide ParseValue, Lex;
    LexIsReadable(s);
    var parser := new Parser(s);
    r := parser.Parse();
  }

  lemma ReadableNow(now: Lexeme, later: seq<Lexeme>)
    requires now.kind == StringToken ==> IsStringToken(now.text)
    requires Readable(later)
    ensures Readable([now] + later)
  {
    hide IsStringToken;
  }

  lemma WithinBuffer(t: Scanned, buffer: string, cursor: nat)
    requires cursor <= |buffer| && Within(t, buffer[cursor..])
    ensures |t.text| + |t.rest| <= |buffer|
    ensures buffer[|buffer| - |t.rest|..] == t.rest
    ensures buffer[|buffer| - |t.rest| - |t.text|..|buffer| - |t.rest|] == t.text
  {
    WithinLonger(t, buffer, cursor);
  }
}
