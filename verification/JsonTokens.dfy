/** The tokens of JSON text by the grammar of RFC 8259 (sections 2, 3, 6 and 7), and the scanner
    (json.hpp:7664-8465) against them: it finds exactly these, each as long as it can be. */
module JsonTokens {
  import opened Strings
  import opened Hexadecimal
  import opened JsonValue
  import opened Decimal
  import opened JsonLexer
  import opened JsonScanner

  // ----- numbers -----

  /** [ minus ] int [ frac ] [ exp ]; an absent part is an empty string. */
  datatype Number = Number(minus: string, whole: string, frac: string, exp: string)

  predicate SomeDigits(s: string) {
    s != "" && AllDigits(s)
  }

  predicate IsFrac(s: string) {
    s == "" || (s[0] == '.' && SomeDigits(s[1..]))
  }

  /** An exponent, `e` or `E`, perhaps a sign, and digits. */
  predicate IsExp(s: string) {
    s == "" || (IsE(s[0]) && |s| >= 2 && (SomeDigits(s[1..]) || (IsSign(s[1]) && SomeDigits(s[2..]))))
  }

  predicate IsE(c: char) {
    c == 'e' || c == 'E'
  }

  predicate IsSign(c: char) {
    c == '+' || c == '-'
  }

  predicate GoodNumber(n: Number) {
    && (n.minus == "" || n.minus == "-")
    && SomeDigits(n.whole) && (n.whole[0] == '0' ==> n.whole == "0")
    && IsFrac(n.frac) && IsExp(n.exp)
  }

  function NumberText(n: Number): string {
    n.minus + n.whole + n.frac + n.exp
  }

  predicate ContinuesInteger(n: Number, rest: string) {
    n.whole != "0" && StartsWithDigit(rest)
  }

  predicate BeginsFrac(rest: string) {
    |rest| >= 2 && rest[0] == '.' && IsDigit(rest[1])
  }

  predicate BeginsExp(rest: string) {
    |rest| >= 2 && IsE(rest[0]) && (IsDigit(rest[1]) || (|rest| >= 3 && IsSign(rest[1]) && IsDigit(rest[2])))
  }

  /** What follows would make the number longer. */
  predicate Extends(n: Number, rest: string)
    requires GoodNumber(n)
  {
    if n.exp != "" then StartsWithDigit(rest)
    else if n.frac != "" then StartsWithDigit(rest) || BeginsExp(rest)
    else ContinuesInteger(n, rest) || BeginsFrac(rest) || BeginsExp(rest)
  }

  lemma SpanOf(digits: string, rest: string)
    requires AllDigits(digits) && !StartsWithDigit(rest)
    ensures Span(digits + rest, Digit) == |digits|
  {
    hide Span;
    SpanUnique(digits + rest, Digit, |digits|);
  }

  lemma ExponentIsRead(front: string, exp: string, rest: string)
    requires IsExp(exp) && (if exp != "" then !StartsWithDigit(rest) else !BeginsExp(rest))
    ensures ExponentEnd(front + exp + rest, |front|) == |front + exp|
  {
    hide Span;
    var s, n := front + exp + rest, |front|;
    if exp != "" {
      assert s[n] == exp[0] && s[n + 1] == exp[1];
      if IsSign(exp[1]) {
        assert s[n + 2..] == exp[2..] + rest;
        SpanOf(exp[2..], rest);
        assert IsDigit(exp[2..][0]) && s[n + 2] == exp[2];
      } else {
        assert s[n + 1..] == exp[1..] + rest;
        SpanOf(exp[1..], rest);
        assert IsDigit(exp[1..][0]);
      }
    } else {
      assert s == front + rest && s[n..] == rest;
      NoExponent(s, n, rest);
    }
  }

  lemma NoExponent(s: string, n: nat, rest: string)
    requires n <= |s| && s[n..] == rest && !BeginsExp(rest)
    ensures ExponentEnd(s, n) == n
  {
    hide Span;
    assert forall i | 0 <= i < |rest| :: rest[i] == s[n + i];
  }

  lemma FractionIsRead(front: string, frac: string, rest: string)
    requires IsFrac(frac) && (if frac != "" then !StartsWithDigit(rest) else !BeginsFrac(rest))
    ensures FractionEnd(front + frac + rest, |front|) == |front + frac|
  {
    hide Span;
    var s, n := front + frac + rest, |front|;
    if frac != "" {
      assert s[n] == '.' && IsDigit(frac[1..][0]) && s[n + 1] == frac[1];
      assert s[n + 1..] == frac[1..] + rest;
      SpanOf(frac[1..], rest);
    } else {
      assert s == front + rest && s[n..] == rest;
      assert forall i | 0 <= i < |rest| :: rest[i] == s[n + i];
    }
  }

  /** What follows the integer part. */
  lemma TailStarts(frac: string, exp: string, rest: string)
    requires IsFrac(frac) && IsExp(exp)
    ensures frac != "" ==> !StartsWithDigit(frac + (exp + rest))
    ensures frac == "" && exp != "" ==> !StartsWithDigit(frac + (exp + rest)) && !BeginsFrac(exp + rest)
    ensures exp != "" ==> !StartsWithDigit(exp + rest)
    ensures frac == "" ==> frac + (exp + rest) == exp + rest
    ensures exp == "" ==> exp + rest == rest
  {
  }

  lemma IntegerEnd(minus: string, whole: string, tail: string)
    requires (minus == "" || minus == "-") && SomeDigits(whole) && (whole[0] == '0' ==> whole == "0")
    requires whole != "0" ==> !StartsWithDigit(tail)
    ensures var s := minus + whole + tail; var start := |minus|;
            && (if s != "" && s[0] == '-' then 1 else 0) == start && start < |s| && IsDigit(s[start])
            && (if s[start] == '0' then start + 1 else start + Span(s[start..], Digit)) == |minus + whole|
  {
    hide Span;
    var s := minus + whole + tail;
    assert IsDigit(whole[0]) && s[|minus|] == whole[0];
    assert s[|minus|..] == whole + tail;
    if whole != "0" {
      SpanOf(whole, tail);
    }
  }

  lemma EndIsThere(s: string, start: nat, m: nat)
    requires (if s != "" && s[0] == '-' then 1 else 0) == start && start < |s| && IsDigit(s[start])
    requires (if s[start] == '0' then start + 1 else start + Span(s[start..], Digit)) == m && m <= |s|
    ensures NumberEnd(s) == ExponentEnd(s, FractionEnd(s, m))
  {
    hide Span, FractionEnd, ExponentEnd;
  }

  lemma Regrouped(a: string, b: string, c: string, d: string, rest: string)
    ensures a + b + c + d + rest == a + b + (c + (d + rest))
    ensures a + b + c + d + rest == a + b + c + (d + rest)
  {
  }

  lemma TailFollows(n: Number, rest: string)
    requires GoodNumber(n) && !Extends(n, rest)
    ensures n.whole != "0" ==> !StartsWithDigit(n.frac + (n.exp + rest))
    ensures if n.frac != "" then !StartsWithDigit(n.exp + rest) else !BeginsFrac(n.exp + rest)
    ensures if n.exp != "" then !StartsWithDigit(rest) else !BeginsExp(rest)
  {
    hide IsFrac, IsExp, BeginsFrac, BeginsExp;
    TailStarts(n.frac, n.exp, rest);
  }

  /** A number is read to its end, if what follows does not make it longer. */
  lemma NumberIsRead(n: Number, rest: string)
    requires GoodNumber(n) && !Extends(n, rest)
    ensures NumberEnd(NumberText(n) + rest) == |NumberText(n)| > 0
  {
    hide Span, NumberEnd, FractionEnd, ExponentEnd, IsFrac, IsExp, BeginsFrac, BeginsExp, Extends, StartsWithDigit;
    TailFollows(n, rest);
    Regrouped(n.minus, n.whole, n.frac, n.exp, rest);
    IntegerEnd(n.minus, n.whole, n.frac + (n.exp + rest));
    EndIsThere(NumberText(n) + rest, |n.minus|, |n.minus + n.whole|);
    FractionIsRead(n.minus + n.whole, n.frac, n.exp + rest);
    ExponentIsRead(n.minus + n.whole + n.frac, n.exp, rest);
  }

  lemma SpanFound(s: string, n: nat)
    requires n < |s| && IsDigit(s[n])
    ensures var m := n + Span(s[n..], Digit);
            n < m <= |s| && SomeDigits(s[n..m]) && !StartsWithDigit(s[m..])
  {
    hide Span;
    var k := Span(s[n..], Digit);
    assert s[n..][0] == s[n];
    var digits := s[n..n + k];
    forall i | 0 <= i < |digits| ensures IsDigit(digits[i]) {
      assert digits[i] == s[n..][i];
    }
  }

  lemma ExponentFound(s: string, n: nat)
    requires n <= |s|
    ensures var m := ExponentEnd(s, n);
            n <= m <= |s| && IsExp(s[n..m])
            && (if m > n then !StartsWithDigit(s[m..]) else !BeginsExp(s[n..]))
  {
    hide Span;
    var m := ExponentEnd(s, n);
    if m > n {
      var at := if s[n + 1] == '+' || s[n + 1] == '-' then n + 2 else n + 1;
      SpanFound(s, at);
      assert s[n..m][at - n..] == s[at..m];
    } else {
      assert forall i | 0 <= i < |s| - n :: s[n..][i] == s[n + i];
      NothingBegins(s, n);
    }
  }

  lemma NothingBegins(s: string, n: nat)
    requires n <= |s| && ExponentEnd(s, n) == n
    ensures !BeginsExp(s[n..])
  {
    hide Span;
    if BeginsExp(s[n..]) {
      var at := if s[n + 1] == '+' || s[n + 1] == '-' then n + 2 else n + 1;
      SpanFound(s, at);
    }
  }

  lemma FractionFound(s: string, n: nat)
    requires n <= |s|
    ensures var m := FractionEnd(s, n);
            n <= m <= |s| && IsFrac(s[n..m])
            && (if m > n then !StartsWithDigit(s[m..]) else !BeginsFrac(s[n..]))
  {
    hide Span;
    var m := FractionEnd(s, n);
    if n + 1 < |s| && s[n] == '.' && IsDigit(s[n + 1]) {
      SpanFound(s, n + 1);
      assert s[n..m][1..] == s[n + 1..m];
    }
  }

  lemma WholeFound(s: string, start: nat)
    requires start < |s| && IsDigit(s[start])
    ensures var m := if s[start] == '0' then start + 1 else start + Span(s[start..], Digit);
            && start < m <= |s| && SomeDigits(s[start..m])
            && (s[start] == '0' ==> s[start..m] == "0")
            && (s[start..m] != "0" ==> !StartsWithDigit(s[m..]))
  {
    hide Span;
    SpanFound(s, start);
    if s[start] == '0' {
      assert s[start..start + 1] == "0";
    }
  }

  /** And what is read is a number that could not be longer. */
  lemma NumberFound(s: string) returns (n: Number)
    requires NumberEnd(s) > 0
    ensures GoodNumber(n) && |NumberText(n)| == NumberEnd(s) && s == NumberText(n) + s[NumberEnd(s)..]
    ensures !Extends(n, s[NumberEnd(s)..])
  {
    hide Span, FractionEnd, ExponentEnd, IsFrac, IsExp, BeginsFrac, BeginsExp, StartsWithDigit;
    var start := if s != "" && s[0] == '-' then 1 else 0;
    assert start < |s| && IsDigit(s[start]);
    var m := if s[start] == '0' then start + 1 else start + Span(s[start..], Digit);
    WholeFound(s, start);
    FractionFound(s, m);
    var f := FractionEnd(s, m);
    ExponentFound(s, f);
    var e := ExponentEnd(s, f);
    assert e == NumberEnd(s);
    n := Number(s[..start], s[start..m], s[m..f], s[f..e]);
    assert s[..start] == if start == 1 then "-" else "";
    Pieces(s, start, m, f, e);
    assert s[start..m][0] == s[start];
    assert f == m ==> s[m..f] == "";
    assert e == f ==> s[f..e] == "";
  }

  lemma Pieces(s: string, a: nat, b: nat, c: nat, d: nat)
    requires a <= b <= c <= d <= |s|
    ensures |s[..a] + s[a..b] + s[b..c] + s[c..d]| == d
    ensures s == s[..a] + s[a..b] + s[b..c] + s[c..d] + s[d..]
  {
  }

  /** No number begins where none is found. */
  lemma NoNumber(s: string)
    ensures NumberEnd(s) == 0 <==>
            !(StartsWithDigit(s) || (|s| >= 2 && s[0] == '-' && IsDigit(s[1])))
  {
    hide FractionEnd, ExponentEnd, Span;
    if NumberEnd(s) == 0 {
      var start := if s != "" && s[0] == '-' then 1 else 0;
      if start < |s| && IsDigit(s[start]) {
        WholeFound(s, start);
      }
    }
  }

  lemma {:induction false} NotAnInteger(text: string, value: nat, max: nat, i: nat)
    requires value <= max && i < |text| && !IsDigit(text[i])
    ensures Accumulated(text, value, max) == None
    decreases |text|
  {
    if IsDigit(text[0]) {
      var next := (value * 10 + (text[0] - '0') as nat) % TWO64;
      if next >= value && next <= max {
        NotAnInteger(text[1..], next, max, i - 1);
      }
    }
  }

  /** A number with a fraction or an exponent is stored as a float. */
  lemma FractionIsFloat(n: Number)
    requires GoodNumber(n) && (n.frac != "" || n.exp != "")
    ensures NumberValue(NumberText(n)) == Err(FloatingPoint)
  {
    hide Accumulated;
    var text := NumberText(n);
    var i := |n.minus| + |n.whole|;
    assert text[i] == if n.frac != "" then n.frac[0] else n.exp[0];
    assert IsDigit(n.whole[0]) && text[|n.minus|] == n.whole[0];
    if n.minus == "-" {
      assert text[0] == '-' && text[1..][i - 1] == text[i];
      NotAnInteger(text[1..], 0, TWO63, i - 1);
    } else {
      NotAnInteger(text, 0, TWO64 - 1, i);
    }
  }

  // ----- strings -----

  /** What may stand between the quotes, one at a time: a character other than a quote, a backslash or a
      control character, or an escape. */
  predicate GoodUnit(u: string) {
    || (|u| == 1 && u[0] != '"' && u[0] != '\\' && u[0] as int >= 0x20)
    || (|u| == 2 && u[0] == '\\' && u[1] in {'"', '\\', '/', 'b', 'f', 'n', 'r', 't'})
    || (|u| == 6 && u[0] == '\\' && u[1] == 'u' && IsHex(u[2]) && IsHex(u[3]) && IsHex(u[4]) && IsHex(u[5]))
  }

  predicate GoodUnits(us: seq<string>) {
    forall i | 0 <= i < |us| :: GoodUnit(us[i])
  }

  function Joined(us: seq<string>): string {
    if us == [] then "" else us[0] + Joined(us[1..])
  }

  lemma UnitIsRead(u: string, rest: string)
    requires GoodUnit(u)
    ensures UnitLength(u + rest) == |u| > 0 && (u + rest)[|u|..] == rest && (u + rest)[0] == u[0] != '"'
  {
  }

  lemma UnitFound(s: string)
    requires UnitLength(s) > 0
    ensures GoodUnit(s[..UnitLength(s)]) && s[0] != '"'
  {
  }

  /** The closing quote is the first one that is not part of a unit. */
  lemma {:induction false} UnitsAreRead(us: seq<string>, rest: string)
    requires GoodUnits(us)
    ensures StringEnd(Joined(us) + ("\"" + rest)) == Some(|Joined(us)|)
  {
    hide UnitLength, GoodUnit, StringEnd;
    if us == [] {
      assert "" + ("\"" + rest) == "\"" + rest;
      StringEndHere("\"" + rest);
    } else {
      assert GoodUnit(us[0]);
      UnitsAreRead(us[1..], rest);
      var tail := Joined(us[1..]) + ("\"" + rest);
      assert Joined(us) + ("\"" + rest) == us[0] + tail;
      UnitIsRead(us[0], tail);
      StringEndLater(us[0] + tail);
    }
  }

  lemma {:induction false} UnitsFound(s: string) returns (us: seq<string>)
    requires StringEnd(s).Some?
    ensures GoodUnits(us) && Joined(us) == s[..StringEnd(s).value]
    decreases |s|
  {
    hide UnitLength, GoodUnit;
    if s[0] == '"' {
      us := [];
      assert s[..0] == "";
    } else {
      var n := UnitLength(s);
      var more := UnitsFound(s[n..]);
      UnitFound(s);
      us := [s[..n]] + more;
      assert us[1..] == more;
      assert s[..n] + s[n..][..StringEnd(s[n..]).value] == s[..n + StringEnd(s[n..]).value];
    }
  }

  // ----- tokens -----

  /** What may stand between tokens: the four blank characters, and byte order marks. */
  predicate Gap(g: string) {
    || g == ""
    || (g[0] as int in {0x20, 0x09, 0x0A, 0x0D} && Gap(g[1..]))
    || (|g| >= 3 && g[0] as int == 0xEF && g[1] as int == 0xBB && g[2] as int == 0xBF && Gap(g[3..]))
  }

  ghost predicate GoodString(text: string) {
    exists us: seq<string> :: GoodUnits(us) && text == "\"" + Joined(us) + "\""
  }

  ghost predicate NumberToEnd(text: string, rest: string) {
    exists n: Number :: GoodNumber(n) && text == NumberText(n) && !Extends(n, rest)
  }

  /** A token in front of `rest`. */
  ghost predicate GoodToken(kind: Kind, text: string, rest: string) {
    match kind
    case TrueLiteral => text == "true"
    case FalseLiteral => text == "false"
    case NullLiteral => text == "null"
    case BeginArray => text == "["
    case EndArray => text == "]"
    case BeginObject => text == "{"
    case EndObject => text == "}"
    case NameSeparator => text == ":"
    case ValueSeparator => text == ","
    case StringToken => GoodString(text)
    case NumberToken => NumberToEnd(text, rest)
    case EndOfInput => (text == "" && rest == "") || text == "\0"
    case ParseError => false
  }

  lemma BlankIs(c: char)
    ensures IsBlank(c) <==> c as int in {0x20, 0x09, 0x0A, 0x0D}
  {
  }

  lemma {:induction false} GapIsSkipped(g: string, s: string)
    requires Gap(g)
    ensures Scan(g + s) == Scan(s)
    decreases |g|
  {
    hide Scan;
    if g == "" {
      assert g + s == s;
    } else if g[0] as int in {0x20, 0x09, 0x0A, 0x0D} {
      BlankIs(g[0]);
      GapIsSkipped(g[1..], s);
      assert g + s == [g[0]] + (g[1..] + s);
      SkipsBlank(g[0], g[1..] + s);
    } else {
      GapIsSkipped(g[3..], s);
      assert g + s == [g[0], g[1], g[2]] + (g[3..] + s);
      SkipsMark(g[0], g[1], g[2], g[3..] + s);
    }
  }

  lemma SkipsBlank(c: char, s: string)
    requires IsBlank(c)
    ensures Scan([c] + s) == Scan(s)
  {
    assert ([c] + s)[1..] == s;
  }

  lemma SkipsMark(a: char, b: char, c: char, s: string)
    requires a as int == 0xEF && b as int == 0xBB && c as int == 0xBF
    ensures Scan([a, b, c] + s) == Scan(s)
  {
    hide NumberEnd, ScanString;
    assert ([a, b, c] + s)[3..] == s;
    assert !IsBlank(a) && a != '\0';
  }

  lemma EndIsRead(text: string, rest: string)
    requires GoodToken(EndOfInput, text, rest)
    ensures Scan(text + rest) == Scanned(EndOfInput, text, rest)
  {
    hide NumberEnd, ScanString;
  }

  lemma StringIsRead(text: string, rest: string)
    requires GoodString(text)
    ensures Scan(text + rest) == Scanned(StringToken, text, rest)
  {
    hide NumberEnd, StringEnd, WellFormed, UnitLength;
    var us: seq<string> :| GoodUnits(us) && text == "\"" + Joined(us) + "\"";
    UnitsAreRead(us, rest);
    var s := text + rest;
    assert s[1..] == Joined(us) + ("\"" + rest);
    assert s[..|text|] == text && s[|text|..] == rest;
    QuoteStarts(s);
  }

  lemma QuoteStarts(s: string)
    requires s != "" && s[0] == '"'
    ensures Scan(s) == ScanString(s)
  {
    hide NumberEnd, ScanString;
  }

  lemma NumberTokenIsRead(text: string, rest: string)
    requires NumberToEnd(text, rest)
    ensures Scan(text + rest) == Scanned(NumberToken, text, rest)
  {
    hide NumberEnd, ScanString, GoodNumber, NumberText, Extends, Scan;
    var n: Number :| GoodNumber(n) && text == NumberText(n) && !Extends(n, rest);
    NumberIsRead(n, rest);
    NumberStarts(n);
    var s := text + rest;
    assert s[0] == text[0] && s[..|text|] == text && s[|text|..] == rest;
    ScanHere(s);
  }

  lemma NumberStarts(n: Number)
    requires GoodNumber(n)
    ensures NumberText(n) != "" && (NumberText(n)[0] == '-' || IsDigit(NumberText(n)[0]))
  {
    assert IsDigit(n.whole[0]);
  }

  lemma WordIsRead(kind: Kind, text: string, rest: string)
    requires kind in {TrueLiteral, FalseLiteral, NullLiteral} && GoodToken(kind, text, rest)
    ensures Scan(text + rest) == Scanned(kind, text, rest)
  {
    hide Scan;
    ScanWord(text, rest);
    assert (text + rest)[..|text|] == text && (text + rest)[|text|..] == rest;
  }

  lemma MarkIsRead(kind: Kind, text: string, rest: string)
    requires kind in {BeginArray, EndArray, BeginObject, EndObject, NameSeparator, ValueSeparator}
    requires GoodToken(kind, text, rest)
    ensures Scan(text + rest) == Scanned(kind, text, rest)
  {
    hide Scan;
    assert text == [text[0]] && Punctuation(text[0]) == Some(kind);
    ScanPunctuation(text[0], rest);
    assert (text + rest)[..1] == text && (text + rest)[1..] == rest;
  }

  /** A token behind a gap is found. */
  lemma TokenIsScanned(gap: string, kind: Kind, text: string, rest: string)
    requires Gap(gap) && GoodToken(kind, text, rest)
    ensures Scan(gap + (text + rest)) == Scanned(kind, text, rest)
  {
    hide Scan, Gap, GoodString, NumberToEnd;
    GapIsSkipped(gap, text + rest);
    match kind
    case StringToken => StringIsRead(text, rest);
    case NumberToken => NumberTokenIsRead(text, rest);
    case EndOfInput => EndIsRead(text, rest);
    case TrueLiteral => WordIsRead(kind, text, rest);
    case FalseLiteral => WordIsRead(kind, text, rest);
    case NullLiteral => WordIsRead(kind, text, rest);
    case _ => MarkIsRead(kind, text, rest);
  }

  lemma GapGrows(g: string, c: char)
    requires Gap(g) && IsBlank(c)
    ensures Gap([c] + g)
  {
    BlankIs(c);
    assert ([c] + g)[1..] == g;
  }

  lemma GapGrowsMark(g: string, m: string)
    requires Gap(g) && |m| == 3 && StartsWithBom(m)
    ensures Gap(m + g)
  {
    assert (m + g)[3..] == g;
  }

  /** And what is found is a token behind a gap. */
  lemma {:induction false} ScannedIsToken(s: string) returns (gap: string)
    requires Scan(s).kind != ParseError
    ensures var t := Scan(s); Gap(gap) && s == gap + (t.text + t.rest) && GoodToken(t.kind, t.text, t.rest)
    decreases |s|
  {
    hide *;
    var t := Scan(s);
    var n := GapAt(s);
    if n == 0 {
      gap := "";
      NoGap();
      NoGapAt(s);
      FoundHere(s);
      assert "" + (t.text + t.rest) == t.text + t.rest;
    } else {
      GapIsAt(s, n);
      var more := ScannedIsToken(s[n..]);
      GapLonger(s, n, more);
      gap := s[..n] + more;
      AppendAssociative(s[..n], more, t.text + t.rest);
      SplitInTwo(s, n);
    }
  }

  /** The length of the blank or byte order mark at the front. */
  function GapAt(s: string): nat {
    if s != "" && IsBlank(s[0]) then 1 else if StartsWithBom(s) then 3 else 0
  }

  lemma NoGapAt(s: string)
    requires GapAt(s) == 0
    ensures (s != "" ==> !IsBlank(s[0])) && !StartsWithBom(s)
  {
  }

  lemma GapIsAt(s: string, n: nat)
    requires n == GapAt(s) > 0
    ensures n <= |s| && Scan(s) == Scan(s[n..])
  {
    hide Scan, IsBlank, StartsWithBom;
    if n == 1 {
      FrontOne(s);
      SkipsBlank(s[0], s[1..]);
    } else {
      BomIs(s);
      SkipsMark(s[0], s[1], s[2], s[3..]);
    }
  }

  lemma FrontOne(s: string)
    requires s != ""
    ensures s == [s[0]] + s[1..]
  {
  }

  lemma BomIs(s: string)
    requires StartsWithBom(s)
    ensures |s| >= 3 && s[0] as int == 0xEF && s[1] as int == 0xBB && s[2] as int == 0xBF
    ensures s == [s[0], s[1], s[2]] + s[3..]
  {
  }

  lemma GapLonger(s: string, n: nat, more: string)
    requires n == GapAt(s) > 0 && n <= |s| && Gap(more)
    ensures Gap(s[..n] + more)
  {
    hide Gap;
    if n == 1 {
      assert s[..1] == [s[0]];
      GapGrows(more, s[0]);
    } else {
      GapGrowsMark(more, s[..3]);
    }
  }

  lemma NoGap()
    ensures Gap("")
  {
  }

  /** The cases of scan without a gap. */
  lemma ScanHere(s: string)
    requires s != "" && s[0] != '\0' && !IsBlank(s[0]) && !StartsWithBom(s)
    ensures Scan(s) ==
            if Punctuation(s[0]).Some? then Token(Punctuation(s[0]).value, s, 1)
            else if s[0] == '"' then ScanString(s)
            else if NumberEnd(s) > 0 then Token(NumberToken, s, NumberEnd(s))
            else if StartsWith(s, "true") then Token(TrueLiteral, s, 4)
            else if StartsWith(s, "false") then Token(FalseLiteral, s, 5)
            else if StartsWith(s, "null") then Token(NullLiteral, s, 4)
            else Token(ParseError, s, 1)
  {
    hide NumberEnd, ScanString, IsBlank, StartsWithBom, Punctuation;
  }

  lemma FoundHere(s: string)
    requires (s != "" ==> !IsBlank(s[0])) && !StartsWithBom(s) && Scan(s).kind != ParseError
    ensures var t := Scan(s); s == t.text + t.rest && GoodToken(t.kind, t.text, t.rest)
  {
    hide Scan, NumberEnd, ScanString, GoodString, NumberToEnd, IsBlank, StartsWithBom, Punctuation, StartsWith,
         GoodToken;
    if s == "" || s[0] == '\0' {
      EndFound(s);
    } else {
      ScanHere(s);
      if Punctuation(s[0]).Some? {
        MarkFound(s);
      } else if s[0] == '"' {
        StringFound(s);
        assert GoodToken(StringToken, ScanString(s).text, ScanString(s).rest) by {
          StringIsGood(ScanString(s).text, ScanString(s).rest);
        }
      } else if NumberEnd(s) > 0 {
        NumberTokenFound(s);
      } else {
        WordFound(s);
      }
    }
  }

  lemma EndFound(s: string)
    requires s == "" || s[0] == '\0'
    ensures var t := Scan(s); s == t.text + t.rest && GoodToken(t.kind, t.text, t.rest)
  {
    hide NumberEnd, ScanString;
    if s != "" {
      assert s[..1] == "\0" && s == s[..1] + s[1..];
    }
  }

  lemma MarkFound(s: string)
    requires s != "" && Punctuation(s[0]).Some?
    ensures var t := Token(Punctuation(s[0]).value, s, 1); s == t.text + t.rest && GoodToken(t.kind, t.text, t.rest)
  {
    hide GoodString, NumberToEnd;
    assert s[..1] == [s[0]] && s == s[..1] + s[1..];
  }

  lemma StringIsGood(text: string, rest: string)
    requires GoodString(text)
    ensures GoodToken(StringToken, text, rest)
  {
  }

  lemma NumberTokenFound(s: string)
    requires NumberEnd(s) > 0
    ensures var t := Token(NumberToken, s, NumberEnd(s)); s == t.text + t.rest && GoodToken(t.kind, t.text, t.rest)
  {
    hide NumberEnd, GoodString, GoodNumber, NumberText, Extends, NumberToEnd;
    var n := NumberFound(s);
    var m := NumberEnd(s);
    assert s[..m] == NumberText(n) && s == s[..m] + s[m..];
    IsNumberToEnd(n, s[m..]);
  }

  lemma WordFound(s: string)
    requires StartsWith(s, "true") || StartsWith(s, "false") || StartsWith(s, "null")
    ensures var t := if StartsWith(s, "true") then Token(TrueLiteral, s, 4)
                else if StartsWith(s, "false") then Token(FalseLiteral, s, 5) else Token(NullLiteral, s, 4);
            s == t.text + t.rest && GoodToken(t.kind, t.text, t.rest)
  {
    hide GoodString, NumberToEnd;
    var n := if StartsWith(s, "false") then 5 else 4;
    assert s == s[..n] + s[n..];
  }

  lemma IsNumberToEnd(n: Number, rest: string)
    requires GoodNumber(n) && !Extends(n, rest)
    ensures NumberToEnd(NumberText(n), rest)
  {
  }

  lemma StringFound(s: string)
    requires s != "" && s[0] == '"' && ScanString(s).kind != ParseError
    ensures var t := ScanString(s); s == t.text + t.rest && t.kind == StringToken && GoodString(t.text)
  {
    hide StringEnd, WellFormed, UnitLength;
    var n := StringEnd(s[1..]).value;
    var us := UnitsFound(s[1..]);
    assert s[..n + 2] == "\"" + Joined(us) + "\"" by {
      assert s[..n + 2] == [s[0]] + s[1..][..n] + [s[1..][n]];
    }
    assert s == s[..n + 2] + s[n + 2..];
  }
}
