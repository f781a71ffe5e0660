/** The scanner (json.hpp:7664-8465), and what it makes of the text that dump writes. */
module JsonScanner {
  import opened Strings
  import opened Hexadecimal
  import opened JsonValue
  import opened Decimal
  import opened Ordering
  import opened JsonDump
  import opened JsonLexer

  /** A token and what is left of the buffer after it. */
  datatype Scanned = Scanned(kind: Kind, text: string, rest: string)

  predicate IsBlank(c: char) {
    c == ' ' || c as int == 0x09 || c as int == 0x0a || c as int == 0x0d
  }

  predicate StartsWith(s: string, p: string) {
    |p| <= |s| && s[..|p|] == p
  }

  predicate StartsWithBom(s: string) {
    |s| >= 3 && s[0] as int == 0xEF && s[1] as int == 0xBB && s[2] as int == 0xBF
  }

  function Punctuation(c: char): Option<Kind> {
    if c == '[' then Some(BeginArray)
    else if c == ']' then Some(EndArray)
    else if c == '{' then Some(BeginObject)
    else if c == '}' then Some(EndObject)
    else if c == ':' then Some(NameSeparator)
    else if c == ',' then Some(ValueSeparator)
    else None
  }

  function Token(kind: Kind, s: string, n: nat): Scanned
    requires n <= |s|
  {
    Scanned(kind, s[..n], s[n..])
  }

  /** scan. A parse error moves past one character; the parser never asks for a token after it. */
  function Scan(s: string): (t: Scanned)
    ensures |t.rest| <= |s|
    ensures t.kind != EndOfInput ==> |t.rest| < |s|
    ensures t.kind == StringToken ==> IsStringToken(t.text)
    decreases |s|
  {
    if s == "" then Scanned(EndOfInput, "", "")
    else if s[0] == '\0' then Token(EndOfInput, s, 1)
    else if IsBlank(s[0]) then Scan(s[1..])
    else if StartsWithBom(s) then Scan(s[3..])
    else if Punctuation(s[0]).Some? then Token(Punctuation(s[0]).value, s, 1)
    else if s[0] == '"' then ScanString(s)
    else if NumberEnd(s) > 0 then Token(NumberToken, s, NumberEnd(s))
    else if StartsWith(s, "true") then Token(TrueLiteral, s, 4)
    else if StartsWith(s, "false") then Token(FalseLiteral, s, 5)
    else if StartsWith(s, "null") then Token(NullLiteral, s, 4)
    else Token(ParseError, s, 1)
  }

  function ScanString(s: string): (t: Scanned)
    requires s != "" && s[0] == '"'
    ensures |t.rest| < |s|
    ensures t.kind == StringToken ==> IsStringToken(t.text)
    ensures t.kind == StringToken || t.kind == ParseError
  {
    match StringEnd(s[1..])
    case None => Token(ParseError, s, 1)
    case Some(n) =>
      StringBodyWellFormed(s[1..]);
      assert s[..n + 2][1..n + 1] == s[1..][..n];
      Token(StringToken, s, n + 2)
  }

  /** The token is the stretch of the buffer in front of the rest. */
  ghost predicate Within(t: Scanned, s: string) {
    |t.text| + |t.rest| <= |s| && s[|s| - |t.rest|..] == t.rest
        && s[|s| - |t.rest| - |t.text|..|s| - |t.rest|] == t.text
  }

  lemma {:induction false} ScanWithin(s: string)
    ensures Within(Scan(s), s)
    decreases |s|
  {
    hide NumberEnd, StringEnd, Within;
    if s == "" || s[0] == '\0' {
      TokenWithin(EndOfInput, s, if s == "" then 0 else 1);
    } else if IsBlank(s[0]) {
      ScanWithin(s[1..]);
      WithinLonger(Scan(s[1..]), s, 1);
    } else if StartsWithBom(s) {
      ScanWithin(s[3..]);
      WithinLonger(Scan(s[3..]), s, 3);
    } else {
      var t := Scan(s);
      assert exists n | 0 <= n <= |s| :: t == Token(t.kind, s, n);
      var n :| 0 <= n <= |s| && t == Token(t.kind, s, n);
      TokenWithin(t.kind, s, n);
    }
  }

  lemma TokenWithin(kind: Kind, s: string, n: nat)
    requires n <= |s|
    ensures Within(Token(kind, s, n), s)
  {
  }

  lemma WithinLonger(t: Scanned, s: string, n: nat)
    requires n <= |s| && Within(t, s[n..])
    ensures Within(t, s)
  {
    var from, end := |s| - |t.rest| - |t.text|, |s| - |t.rest|;
    assert s[n..][from - n..end - n] == s[from..end];
    assert s[n..][end - n..] == s[end..];
  }

  datatype Lexeme = Lexeme(kind: Kind, text: string)

  predicate IsLast(kind: Kind) {
    kind == EndOfInput || kind == ParseError
  }

  /** All tokens, up to the first at which the parser stops in any case. */
  function Lex(s: string): (ls: seq<Lexeme>)
    ensures ls != []
    ensures forall l | l in ls :: l.kind == StringToken ==> IsStringToken(l.text)
    decreases |s|
  {
    var t := Scan(s);
    [Lexeme(t.kind, t.text)] + if IsLast(t.kind) then [] else Lex(t.rest)
  }

  // ----- the tokens of dumped text -----

  lemma LexBlank(c: char, s: string)
    requires IsBlank(c)
    ensures Lex([c] + s) == Lex(s)
  {
    assert ([c] + s)[1..] == s;
  }

  lemma {:induction false} LexSpaces(n: nat, s: string)
    ensures Lex(Spaces(n) + s) == Lex(s)
  {
    hide Lex;
    if n == 0 {
      assert Spaces(n) + s == s;
    } else {
      LexSpaces(n - 1, s);
      LexBlank(' ', Spaces(n - 1) + s);
      assert Spaces(n) + s == [' '] + (Spaces(n - 1) + s);
    }
  }

  lemma LexNewline(l: Layout, s: string)
    ensures Lex(Newline(l) + s) == Lex(s)
  {
    hide Lex;
    LexBlank('\n', s);
    assert "" + s == s;
  }

  lemma ScanPunctuation(c: char, s: string)
    requires Punctuation(c).Some?
    ensures Scan([c] + s) == Token(Punctuation(c).value, [c] + s, 1)
  {
    hide NumberEnd, ScanString;
  }

  lemma LexPunctuation(c: char, s: string)
    requires Punctuation(c).Some?
    ensures Lex([c] + s) == [Lexeme(Punctuation(c).value, [c])] + Lex(s)
  {
    ScanPunctuation(c, s);
    LexStep([c], s, Punctuation(c).value);
  }

  function Comma(): Lexeme {
    Lexeme(ValueSeparator, ",")
  }

  lemma LexSeparator(l: Layout, first: bool, s: string)
    ensures Lex(Separator(l, first) + s) == (if first then [] else [Comma()]) + Lex(s)
  {
    hide Lex, Newline;
    if first {
      assert Separator(l, first) + s == s;
    } else {
      LexPunctuation(',', Newline(l) + s);
      LexNewline(l, s);
      assert Separator(l, first) + s == [','] + (Newline(l) + s);
    }
  }

  lemma LexColon(l: Layout, s: string)
    ensures Lex(Colon(l) + s) == [Lexeme(NameSeparator, ":")] + Lex(s)
  {
    hide Lex;
    if l.pretty {
      LexBlank(' ', s);
      LexPunctuation(':', [' '] + s);
      assert Colon(l) + s == [':'] + ([' '] + s);
    } else {
      LexPunctuation(':', s);
    }
  }

  function WordKind(w: string): Kind {
    if w == "true" then TrueLiteral else if w == "false" then FalseLiteral else NullLiteral
  }

  lemma LexWord(w: string, s: string)
    requires w == "true" || w == "false" || w == "null"
    ensures Lex(w + s) == [Lexeme(WordKind(w), w)] + Lex(s)
  {
    hide Scan, Lex;
    ScanWord(w, s);
    LexStep(w, s, WordKind(w));
  }

  lemma ScanWord(w: string, s: string)
    requires w == "true" || w == "false" || w == "null"
    ensures Scan(w + s) == Token(WordKind(w), w + s, |w|)
  {
    hide NumberEnd, ScanString;
    var x := w + s;
    NotANumber(x);
    assert x[..|w|] == w && x[0] == w[0];
    assert StartsWith(x, w);
  }

  lemma NotANumber(s: string)
    requires s != "" && s[0] != '-' && !IsDigit(s[0])
    ensures NumberEnd(s) == 0
  {
  }

  /** One token, then the rest. */
  lemma LexStep(text: string, rest: string, kind: Kind)
    requires Scan(text + rest) == Token(kind, text + rest, |text|) && !IsLast(kind)
    ensures Lex(text + rest) == [Lexeme(kind, text)] + Lex(rest)
  {
    hide Scan;
    assert (text + rest)[..|text|] == text && (text + rest)[|text|..] == rest;
  }

  // Strings.

  /** The escape of one character is one unit of a string token. */
  lemma UnitOfEscapedChar(c: char, rest: string)
    ensures var x := EscapedChar(c) + rest;
            UnitLength(x) == |EscapedChar(c)| && x != "" && x[0] != '"' && x[|EscapedChar(c)|..] == rest
  {
  }

  /** It stands for that character. */
  lemma DecodeEscapedChar(c: char, rest: string)
    requires WellFormed(EscapedChar(c) + rest)
    ensures Decode(EscapedChar(c) + rest) == Ok(([c], |EscapedChar(c)|))
  {
    hide WellFormed;
    if ShortEscape(c).None? && IsControl(c) {
      ControlCode(c, rest);
    }
  }

  lemma ControlCode(c: char, rest: string)
    requires ShortEscape(c).None? && IsControl(c)
    ensures var code := (EscapedChar(c) + rest)[2..6];
            (forall i | 0 <= i < 4 :: IsHex(code[i])) && HexNumber(code) == c as int
                && ToUnicode(c as int, 0) == Ok([c])
  {
    var code := (EscapedChar(c) + rest)[2..6];
    assert code == ['0', '0', HexDigit(c as int / 16), HexDigit(c as int % 16)];
    HexDigitValue(c as int / 16);
    HexDigitValue(c as int % 16);
  }

  /** get_string undoes escape_string, for every byte string. */
  lemma {:induction false} UnescapedEscaped(s: string)
    ensures WellFormed(Escaped(s)) && Unescaped(Escaped(s)) == Ok(s)
  {
    hide EscapedChar, UnitLength, Decode;
    if s != "" {
      UnescapedEscaped(s[1..]);
      UnitOfEscapedChar(s[0], Escaped(s[1..]));
      DecodeEscapedChar(s[0], Escaped(s[1..]));
      assert s == [s[0]] + s[1..];
    }
  }

  /** The closing quote is found behind the escaped text. */
  lemma {:induction false} StringEndOfEscaped(s: string, rest: string)
    ensures StringEnd(Escaped(s) + ("\"" + rest)) == Some(|Escaped(s)|)
  {
    hide EscapedChar, UnitLength, StringEnd;
    if s == "" {
      assert "" + ("\"" + rest) == "\"" + rest;
      StringEndHere("\"" + rest);
    } else {
      StringEndOfEscaped(s[1..], rest);
      var tail := Escaped(s[1..]) + ("\"" + rest);
      UnitOfEscapedChar(s[0], tail);
      assert Escaped(s) + ("\"" + rest) == EscapedChar(s[0]) + tail;
      StringEndLater(EscapedChar(s[0]) + tail);
    }
  }

  lemma StringEndHere(x: string)
    requires x != "" && x[0] == '"'
    ensures StringEnd(x) == Some(0)
  {
  }

  lemma StringEndLater(x: string)
    requires x != "" && x[0] != '"' && UnitLength(x) > 0
    ensures StringEnd(x)
            == match StringEnd(x[UnitLength(x)..]) case None => None case Some(n) => Some(UnitLength(x) + n)
  {
    hide UnitLength;
  }

  lemma QuotedIsToken(x: string)
    ensures IsStringToken(Quoted(x)) && StringValue(Quoted(x)) == Ok(x)
  {
    hide WellFormed, Unescaped, Escaped;
    UnescapedEscaped(x);
    assert Quoted(x)[1..|Quoted(x)| - 1] == Escaped(x);
  }

  lemma LexString(x: string, s: string)
    ensures Lex(Quoted(x) + s) == [Lexeme(StringToken, Quoted(x))] + Lex(s)
  {
    hide Scan, Lex, Quoted;
    ScanQuoted(x, s);
    LexStep(Quoted(x), s, StringToken);
  }

  lemma ScanQuoted(x: string, s: string)
    ensures Scan(Quoted(x) + s) == Token(StringToken, Quoted(x) + s, |Quoted(x)|)
  {
    hide StringEnd, Escaped, WellFormed;
    StringEndOfEscaped(x, s);
    assert (Quoted(x) + s)[1..] == Escaped(x) + ("\"" + s);
  }

  // Numbers.

  /** What may follow a number without becoming part of it. */
  predicate Delimited(rest: string) {
    rest == "" || !(IsDigit(rest[0]) || rest[0] == '.' || rest[0] == 'e' || rest[0] == 'E')
  }

  lemma NumberEndOfDigits(digits: string, rest: string, sign: string)
    requires digits != "" && AllDigits(digits) && (digits[0] == '0' ==> digits == "0") && Delimited(rest)
    requires sign == "" || sign == "-"
    ensures NumberEnd(sign + digits + rest) == |sign + digits|
  {
    var s := sign + digits + rest;
    assert IsDigit(digits[0]);
    assert s[|sign|..] == digits + rest;
    SpanUnique(digits + rest, Digit, |digits|);
  }

  lemma IntegerTextShape(i: int)
    ensures NumberShape(IntegerText(i), if i < 0 then "-" else "", DecimalText(if i < 0 then -i else i))
  {
    hide DecimalText;
    var n: nat := if i < 0 then -i else i;
    DecimalValue(n);
    assert "" + DecimalText(n) == DecimalText(n);
  }

  predicate NumberShape(text: string, sign: string, digits: string) {
    && digits != "" && AllDigits(digits) && (digits[0] == '0' ==> digits == "0")
    && (sign == "" || sign == "-") && text == sign + digits
  }

  lemma LexNumber(i: int, s: string)
    requires Delimited(s)
    ensures Lex(IntegerText(i) + s) == [Lexeme(NumberToken, IntegerText(i))] + Lex(s)
  {
    hide Scan, Lex, IntegerText, Delimited, NumberEnd;
    var sign, digits := if i < 0 then "-" else "", DecimalText(if i < 0 then -i else i);
    IntegerTextShape(i);
    NumberEndOfDigits(digits, s, sign);
    ScanNumber(sign, digits, s);
    LexStep(IntegerText(i), s, NumberToken);
  }

  lemma ScanNumber(sign: string, digits: string, s: string)
    requires NumberShape(sign + digits, sign, digits) && NumberEnd(sign + digits + s) == |sign + digits|
    ensures Scan(sign + digits + s) == Token(NumberToken, sign + digits + s, |sign + digits|)
  {
    hide NumberEnd;
    var x := sign + digits + s;
    assert IsDigit(digits[0]);
    assert x[0] == '-' || IsDigit(x[0]);
  }

  // ----- dumped values -----

  /** The tokens of a value, without any layout. */
  function Lexemes(j: Json): (ls: seq<Lexeme>)
    decreases j, 1, 0
  {
    match j
    case Null => [Lexeme(NullLiteral, "null")]
    case Bool(b) => if b then [Lexeme(TrueLiteral, "true")] else [Lexeme(FalseLiteral, "false")]
    case Str(s) => [Lexeme(StringToken, Quoted(s))]
    case Int(i) => [Lexeme(NumberToken, IntegerText(i))]
    case Uint(u) => [Lexeme(NumberToken, IntegerText(u))]
    case Arr(a) => [Lexeme(BeginArray, "[")] + ElementLexemes(j, 0) + [Lexeme(EndArray, "]")]
    case Obj(m) => [Lexeme(BeginObject, "{")] + MemberLexemes(j, SortedKeys(m.Keys), true) + [Lexeme(EndObject, "}")]
  }

  function ElementLexemes(j: Json, i: nat): seq<Lexeme>
    requires j.Arr?
    decreases j, 0, |j.elems| - i
  {
    if i >= |j.elems| then []
    else (if i == 0 then [] else [Comma()]) + Lexemes(j.elems[i]) + ElementLexemes(j, i + 1)
  }

  function MemberLexemes(j: Json, keys: seq<string>, first: bool): seq<Lexeme>
    requires j.Obj? && forall i | 0 <= i < |keys| :: keys[i] in j.members
    decreases j, 0, |keys|
  {
    if keys == [] then []
    else (if first then [] else [Comma()]) + [Lexeme(StringToken, Quoted(keys[0])), Lexeme(NameSeparator, ":")] +
         Lexemes(j.members[keys[0]]) + MemberLexemes(j, keys[1..], false)
  }

  /** The layout leaves no trace in the tokens. */
  lemma {:induction false} LexDumped(j: Json, l: Layout, indent: nat, rest: string)
    requires Delimited(rest)
    ensures Lex(Dumped(j, l, indent) + rest) == Lexemes(j) + Lex(rest)
    decreases j, 1, 0
  {
    hide Lex, IntegerText, Quoted, DumpedElements, DumpedMembers, SortedKeys, Bracketed, Deeper, ElementLexemes,
         MemberLexemes;
    match j
    case Null => LexWord("null", rest);
    case Bool(b) => LexWord(if b then "true" else "false", rest);
    case Str(s) => LexString(s, rest);
    case Int(i) => LexNumber(i, rest);
    case Uint(u) => LexNumber(u, rest);
    case Arr(a) =>
      if a == [] {
        NoElements(j);
        LexEmpty('[', ']', rest);
      } else {
        var inner := Deeper(l, indent);
        LexElements(j, l, inner, 0, Newline(l) + (Spaces(Shallower(l, inner)) + ("]" + rest)));
        LexBracketed(l, inner, '[', DumpedElements(j, l, inner, 0), ']', rest, ElementLexemes(j, 0));
      }
    case Obj(m) =>
      var keys := SortedKeys(m.Keys);
      if m == map[] {
        assert keys == [];
        NoMembers(j);
        LexEmpty('{', '}', rest);
      } else {
        var inner := Deeper(l, indent);
        LexMembers(j, l, inner, keys, true, Newline(l) + (Spaces(Shallower(l, inner)) + ("}" + rest)));
        LexBracketed(l, inner, '{', DumpedMembers(j, l, inner, keys, true), '}', rest, MemberLexemes(j, keys, true));
      }
  }

  lemma NoElements(j: Json)
    requires j == Arr([])
    ensures ElementLexemes(j, 0) == []
  {
  }

  lemma NoMembers(j: Json)
    requires j.Obj?
    ensures MemberLexemes(j, [], true) == []
  {
  }

  lemma LexEmpty(open: char, close: char, rest: string)
    requires Punctuation(open).Some? && Punctuation(close).Some?
    ensures Lex([open, close] + rest) ==
            [Lexeme(Punctuation(open).value, [open])] + [] + [Lexeme(Punctuation(close).value, [close])] + Lex(rest)
  {
    hide Lex;
    LexPunctuation(open, [close] + rest);
    LexPunctuation(close, rest);
    assert [open, close] + rest == [open] + ([close] + rest);
  }

  lemma LexBracketed(l: Layout, inner: nat, open: char, body: string, close: char, rest: string, tokens: seq<Lexeme>)
    requires Punctuation(open).Some? && Punctuation(close).Some?
    requires var tail := Newline(l) + (Spaces(Shallower(l, inner)) + ([close] + rest));
             Lex(body + tail) == tokens + Lex(tail)
    ensures Lex(Bracketed(l, inner, [open], body, [close]) + rest) ==
            [Lexeme(Punctuation(open).value, [open])] + tokens + [Lexeme(Punctuation(close).value, [close])] + Lex(rest)
  {
    hide Lex, Newline, Spaces, Shallower;
    var indent := Spaces(Shallower(l, inner));
    var tail := Newline(l) + (indent + ([close] + rest));
    LexPunctuation(close, rest);
    LexSpaces(Shallower(l, inner), [close] + rest);
    LexNewline(l, indent + ([close] + rest));
    LexNewline(l, body + tail);
    LexPunctuation(open, Newline(l) + (body + tail));
    assert Bracketed(l, inner, [open], body, [close]) + rest == [open] + (Newline(l) + (body + tail));
  }

  lemma {:induction false} LexElements(j: Json, l: Layout, indent: nat, i: nat, rest: string)
    requires j.Arr? && Delimited(rest)
    ensures Lex(DumpedElements(j, l, indent, i) + rest) == ElementLexemes(j, i) + Lex(rest)
    decreases j, 0, |j.elems| - i
  {
    hide Lex, Dumped, Lexemes, Spaces, Separator, Delimited;
    if i >= |j.elems| {
      assert "" + rest == rest;
      assert [] + Lex(rest) == Lex(rest);
    } else {
      var after := DumpedElements(j, l, indent, i + 1) + rest;
      LexElements(j, l, indent, i + 1, rest);
      ElementsAreDelimited(j, l, indent, i + 1, rest);
      LexDumped(j.elems[i], l, indent, after);
      LexSpaces(indent, Dumped(j.elems[i], l, indent) + after);
      LexSeparator(l, i == 0, Spaces(indent) + (Dumped(j.elems[i], l, indent) + after));
      FourAndRest(Separator(l, i == 0), Spaces(indent), Dumped(j.elems[i], l, indent),
          DumpedElements(j, l, indent, i + 1), rest);
      ThreeAndRest(if i == 0 then [] else [Comma()], Lexemes(j.elems[i]), ElementLexemes(j, i + 1), Lex(rest));
    }
  }

  lemma ThreeAndRest(a: seq<Lexeme>, b: seq<Lexeme>, c: seq<Lexeme>, rest: seq<Lexeme>)
    ensures a + b + c + rest == a + (b + (c + rest))
  {
  }

  lemma MemberAndRest(a: seq<Lexeme>, x: Lexeme, y: Lexeme, b: seq<Lexeme>, c: seq<Lexeme>, rest: seq<Lexeme>)
    ensures a + [x, y] + b + c + rest == a + ([x] + ([y] + (b + (c + rest))))
  {
  }

  lemma FourAndRest(a: string, b: string, c: string, d: string, rest: string)
    ensures a + b + c + d + rest == a + (b + (c + (d + rest)))
  {
  }

  lemma SixAndRest(a: string, b: string, c: string, d: string, e: string, f: string, rest: string)
    ensures a + b + c + d + e + f + rest == a + (b + (c + (d + (e + (f + rest)))))
  {
  }

  lemma ElementsAreDelimited(j: Json, l: Layout, indent: nat, i: nat, rest: string)
    requires j.Arr? && Delimited(rest) && 0 < i
    ensures Delimited(DumpedElements(j, l, indent, i) + rest)
  {
    hide Dumped, Spaces;
    if i >= |j.elems| {
      assert "" + rest == rest;
    } else {
      assert DumpedElements(j, l, indent, i)[0] == ',';
    }
  }

  lemma MembersAreDelimited(j: Json, l: Layout, indent: nat, keys: seq<string>, rest: string)
    requires j.Obj? && (forall i | 0 <= i < |keys| :: keys[i] in j.members) && Delimited(rest)
    ensures Delimited(DumpedMembers(j, l, indent, keys, false) + rest)
  {
    hide Dumped, Spaces, Quoted, Colon;
    if keys == [] {
      assert "" + rest == rest;
    } else {
      assert DumpedMembers(j, l, indent, keys, false)[0] == ',';
    }
  }

  lemma {:induction false} LexMembers(j: Json, l: Layout, indent: nat, keys: seq<string>, first: bool, rest: string)
    requires j.Obj? && (forall i | 0 <= i < |keys| :: keys[i] in j.members) && Delimited(rest)
    ensures Lex(DumpedMembers(j, l, indent, keys, first) + rest) == MemberLexemes(j, keys, first) + Lex(rest)
    decreases j, 0, |keys|
  {
    hide Lex, Dumped, Lexemes, Spaces, Separator, Quoted, Colon, Delimited;
    if keys == [] {
      assert "" + rest == rest;
      assert [] + Lex(rest) == Lex(rest);
    } else {
      var k, v := keys[0], j.members[keys[0]];
      var after := DumpedMembers(j, l, indent, keys[1..], false) + rest;
      LexMembers(j, l, indent, keys[1..], false, rest);
      MembersAreDelimited(j, l, indent, keys[1..], rest);
      LexDumped(v, l, indent, after);
      LexColon(l, Dumped(v, l, indent) + after);
      LexString(k, Colon(l) + (Dumped(v, l, indent) + after));
      LexSpaces(indent, Quoted(k) + (Colon(l) + (Dumped(v, l, indent) + after)));
      LexSeparator(l, first, Spaces(indent) + (Quoted(k) + (Colon(l) + (Dumped(v, l, indent) + after))));
      SixAndRest(Separator(l, first), Spaces(indent), Quoted(k), Colon(l), Dumped(v, l, indent),
                 DumpedMembers(j, l, indent, keys[1..], false), rest);
      MemberAndRest(if first then [] else [Comma()], Lexeme(StringToken, Quoted(k)), Lexeme(NameSeparator, ":"),
                    Lexemes(v), MemberLexemes(j, keys[1..], false), Lex(rest));
    }
  }

  /** Dumped text is read as the tokens of the value. */
  lemma LexDump(j: Json, indent: int)
    ensures Lex(Dump(j, indent)) == Lexemes(j) + [Lexeme(EndOfInput, "")]
  {
    hide Dumped, Lexemes;
    LexDumped(j, LayoutOf(indent), 0, "");
    assert Dump(j, indent) + "" == Dump(j, indent);
  }
}
