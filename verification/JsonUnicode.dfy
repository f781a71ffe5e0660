/** The text of string tokens (json.hpp:7550-7622, 8558-8661) against the encoding it is promised to
    have: UTF-8 as RFC 3629 defines it, and the escapes of RFC 8259, section 7. */
module JsonUnicode {
  import opened Strings
  import opened Hexadecimal
  import opened JsonValue
  import opened JsonLexer
  import opened JsonDump

  // ----- reading UTF-8 -----

  predicate Continues(c: char) {
    0x80 <= c as int <= 0xBF
  }

  predicate Surrogate(n: nat) {
    HighSurrogate(n) || LowSurrogate(n)
  }

  /** How many bytes a first byte announces (RFC 3629, section 4); 0 for a byte that starts nothing. */
  function Width(c: char): nat {
    var b := c as int;
    if b < 0x80 then 1
    else if 0xC2 <= b <= 0xDF then 2
    else if 0xE0 <= b <= 0xEF then 3
    else if 0xF0 <= b <= 0xF4 then 4
    else 0
  }

  /** The six bits of a continuation byte. */
  function Bits(c: char): nat
    requires Continues(c)
  {
    c as int - 0x80
  }

  /** The code point that exactly these bytes encode: no longer form than needed, no surrogate, and
      nothing above 0x10ffff. */
  function ReadUtf8(s: string): Option<nat> {
    if s == "" || |s| != Width(s[0]) || exists i | 1 <= i < |s| :: !Continues(s[i]) then None
    else
      var b := s[0] as int;
      if |s| == 1 then Some(b)
      else if |s| == 2 then Some((b - 0xC0) * 0x40 + Bits(s[1]))
      else if |s| == 3 then
        var n := (b - 0xE0) * 0x1000 + Bits(s[1]) * 0x40 + Bits(s[2]);
        if n < 0x800 || Surrogate(n) then None else Some(n)
      else
        var n := (b - 0xF0) * 0x40000 + Bits(s[1]) * 0x1000 + Bits(s[2]) * 0x40 + Bits(s[3]);
        if n < 0x10000 || n > 0x10ffff then None else Some(n)
  }

  /** A text, code point by code point. */
  function ReadText(s: string): Option<seq<nat>>
    decreases |s|
  {
    if s == "" then Some([])
    else
      var w := Width(s[0]);
      if w == 0 || w > |s| then None
      else match (ReadUtf8(s[..w]), ReadText(s[w..]))
        case (Some(n), Some(ns)) => Some([n] + ns)
        case _ => None
  }

  lemma ReadNext(w: string, n: nat, rest: string)
    requires ReadUtf8(w) == Some(n)
    ensures ReadText(w + rest) == match ReadText(rest) case Some(ns) => Some([n] + ns) case None => None
  {
    hide ReadUtf8;
    ReadWidth(w);
    assert (w + rest)[..|w|] == w && (w + rest)[|w|..] == rest;
  }

  lemma ReadWidth(w: string)
    requires ReadUtf8(w).Some?
    ensures w != "" && |w| == Width(w[0])
  {
  }

  /** to_unicode writes every code point so that it can be read back, except a surrogate. */
  lemma Utf8IsRead(n: nat)
    requires n <= 0x10ffff
    ensures Utf8(n).Ok? && ReadUtf8(Utf8(n).value) == if Surrogate(n) then None else Some(n)
  {
    var s := Utf8(n).value;
    if n < 0x80 {
    } else if n <= 0x7ff {
      assert Continues(s[1]);
    } else if n <= 0xffff {
      ThreeBytes(n);
      assert Continues(s[1]) && Continues(s[2]);
    } else {
      FourBytes(n);
      assert Continues(s[1]) && Continues(s[2]) && Continues(s[3]);
    }
  }

  lemma ThreeBytes(n: nat)
    requires n <= 0xffff
    ensures n / 0x1000 * 0x1000 + n / 0x40 % 0x40 * 0x40 + n % 0x40 == n && n / 0x1000 <= 0xF
  {
    assert n / 0x40 / 0x40 == n / 0x1000;
  }

  lemma FourBytes(n: nat)
    requires n <= 0x10ffff
    ensures n / 0x40000 * 0x40000 + n / 0x1000 % 0x40 * 0x1000 + n / 0x40 % 0x40 * 0x40 + n % 0x40 == n
    ensures n / 0x40000 <= 4
  {
    assert n / 0x40 / 0x40 == n / 0x1000 && n / 0x1000 / 0x40 == n / 0x40000;
  }

  /** And nothing else is the encoding of that code point. */
  lemma Utf8IsUnique(s: string, n: nat)
    requires ReadUtf8(s) == Some(n)
    ensures n <= 0x10ffff && !Surrogate(n) && Utf8(n) == Ok(s)
  {
    hide Utf8;
    ReadWidth(s);
    assert forall i | 1 <= i < |s| :: Continues(s[i]);
    if |s| == 1 {
      OneByte(n);
      assert s == [n as char];
    } else if |s| == 2 {
      assert s == [s[0], s[1]];
      TwoUnique(s[0], s[1]);
    } else if |s| == 3 {
      assert s == [s[0], s[1], s[2]];
      ThreeUnique(s[0], s[1], s[2]);
    } else {
      assert s == [s[0], s[1], s[2], s[3]];
      FourUnique(s[0], s[1], s[2], s[3]);
    }
  }

  lemma OneByte(n: nat)
    requires n < 0x80
    ensures Utf8(n) == Ok([n as char])
  {
  }

  lemma TwoUnique(a: char, b: char)
    requires Width(a) == 2 && Continues(b)
    ensures Utf8((a as int - 0xC0) * 0x40 + Bits(b)) == Ok([a, b])
  {
    Digits(a as int - 0xC0, Bits(b));
  }

  lemma ThreeUnique(a: char, b: char, c: char)
    requires Width(a) == 3 && Continues(b) && Continues(c)
    requires (a as int - 0xE0) * 0x1000 + Bits(b) * 0x40 + Bits(c) >= 0x800
    ensures Utf8((a as int - 0xE0) * 0x1000 + Bits(b) * 0x40 + Bits(c)) == Ok([a, b, c])
  {
    hide Bits;
    var n := (a as int - 0xE0) * 0x1000 + Bits(b) * 0x40 + Bits(c);
    BitsBound(b);
    BitsBound(c);
    Digits(a as int - 0xE0, Bits(b));
    Digits((a as int - 0xE0) * 0x40 + Bits(b), Bits(c));
    ThreeBytes(n);
  }

  lemma BitsBound(c: char)
    requires Continues(c)
    ensures Bits(c) < 0x40 && (0x80 + Bits(c)) as char == c
  {
  }

  lemma FourUnique(a: char, b: char, c: char, d: char)
    requires Width(a) == 4 && Continues(b) && Continues(c) && Continues(d)
    requires 0x10000 <= (a as int - 0xF0) * 0x40000 + Bits(b) * 0x1000 + Bits(c) * 0x40 + Bits(d) <= 0x10ffff
    ensures Utf8((a as int - 0xF0) * 0x40000 + Bits(b) * 0x1000 + Bits(c) * 0x40 + Bits(d)) == Ok([a, b, c, d])
  {
    hide Bits;
    var n := (a as int - 0xF0) * 0x40000 + Bits(b) * 0x1000 + Bits(c) * 0x40 + Bits(d);
    BitsBound(b);
    BitsBound(c);
    BitsBound(d);
    Digits(a as int - 0xF0, Bits(b));
    Digits((a as int - 0xF0) * 0x40 + Bits(b), Bits(c));
    Digits(((a as int - 0xF0) * 0x40 + Bits(b)) * 0x40 + Bits(c), Bits(d));
    FourBytes(n);
    assert n / 0x40 / 0x40 == n / 0x1000 && n / 0x1000 / 0x40 == n / 0x40000;
  }

  lemma Digits(high: nat, low: nat)
    requires low < 0x40
    ensures (high * 0x40 + low) / 0x40 == high && (high * 0x40 + low) % 0x40 == low
  {
  }

  // ----- the pieces of a string token -----

  /** What may stand inside the quotes: a character as it is, one of the two-character escapes, or a code
      point in hexadecimal digits of either case, with a surrogate pair above 0xffff. */
  datatype Piece =
    | Plain(bytes: string)
    | Short(c: char)
    | Unit(digits: string)
    | Pair(high: string, low: string)

  predicate FourHex(s: string) {
    |s| == 4 && forall i | 0 <= i < 4 :: IsHex(s[i])
  }

  /** The number that four digits write: "09af" and "09AF" alike. */
  function HexReading(s: string): nat
    requires FourHex(s)
  {
    Nibble(s[0]) * 0x1000 + Nibble(s[1]) * 0x100 + Nibble(s[2]) * 0x10 + Nibble(s[3])
  }

  function Nibble(c: char): (n: nat)
    requires IsHex(c)
    ensures n < 16 && ("0123456789abcdef"[n] == c || "0123456789ABCDEF"[n] == c)
  {
    if c <= '9' then c as int - 0x30 else if c <= 'F' then c as int - 0x37 else c as int - 0x57
  }

  /** The two-character escapes of RFC 8259, section 7, and what they stand for. */
  const SHORT: map<char, nat> := map[
    '"' := 0x22, '\\' := 0x5C, '/' := 0x2F, 'b' := 0x08, 'f' := 0x0C, 'n' := 0x0A, 'r' := 0x0D, 't' := 0x09]

  ghost predicate Good(p: Piece) {
    match p
    case Plain(bytes) => ReadUtf8(bytes).Some? && bytes[0] != '"' && bytes[0] != '\\' && bytes[0] as int >= 0x20
    case Short(c) => c in SHORT
    case Unit(digits) => FourHex(digits) && !Surrogate(HexReading(digits))
    case Pair(high, low) =>
      FourHex(high) && FourHex(low) && HighSurrogate(HexReading(high)) && LowSurrogate(HexReading(low))
  }

  function Spelled(p: Piece): string {
    match p
    case Plain(bytes) => bytes
    case Short(c) => ['\\', c]
    case Unit(digits) => "\\u" + digits
    case Pair(high, low) => "\\u" + high + ("\\u" + low)
  }

  /** The code point a piece stands for; the two halves of a pair hold ten bits each. */
  ghost function Meant(p: Piece): nat
    requires Good(p)
  {
    match p
    case Plain(bytes) => ReadUtf8(bytes).value
    case Short(c) => SHORT[c]
    case Unit(digits) => HexReading(digits)
    case Pair(high, low) => 0x10000 + (HexReading(high) - 0xD800) * 0x400 + (HexReading(low) - 0xDC00)
  }

  lemma HexNumberIsRead(s: string)
    requires FourHex(s)
    ensures HexNumber(s) == HexReading(s)
  {
    NibbleIsValue(s[0]);
    NibbleIsValue(s[1]);
    NibbleIsValue(s[2]);
    NibbleIsValue(s[3]);
  }

  lemma NibbleIsValue(c: char)
    requires IsHex(c)
    ensures HexValue(c) == Nibble(c)
  {
  }

  /** One step of get_string over a piece. */
  ghost predicate ReadAs(p: Piece, text: string, rest: string)
    requires WellFormed(rest)
  {
    && WellFormed(Spelled(p) + rest)
    && Unescaped(Spelled(p) + rest) == Concat(text, Unescaped(rest))
  }

  lemma PieceIsRead(p: Piece, rest: string) returns (text: string)
    requires Good(p) && WellFormed(rest)
    ensures ReadUtf8(text) == Some(Meant(p)) && ReadAs(p, text, rest)
  {
    hide ReadUtf8, Utf8, WellFormed, Unescaped, Decode;
    match p
    case Plain(bytes) =>
      text := bytes;
      PlainIsRead(bytes, rest);
    case Short(c) =>
      text := [SHORT[c] as char];
      ShortIsRead(c, rest);
    case Unit(digits) =>
      Utf8IsRead(HexReading(digits)) by { HexBound(digits); }
      text := Utf8(HexReading(digits)).value;
      UnitIsRead(digits, rest);
    case Pair(high, low) =>
      var n := Meant(p);
      Utf8IsRead(n);
      text := Utf8(n).value;
      PairIsRead(high, low, rest);
  }

  lemma HexBound(s: string)
    requires FourHex(s)
    ensures HexReading(s) <= 0xffff
  {
  }

  predicate PlainByte(c: char) {
    c != '"' && c != '\\' && c as int >= 0x20
  }

  lemma ByteIsRead(c: char, rest: string)
    requires PlainByte(c) && WellFormed(rest)
    ensures WellFormed([c] + rest) && Unescaped([c] + rest) == Concat([c], Unescaped(rest))
  {
    hide Utf8;
    assert ([c] + rest)[1..] == rest;
  }

  lemma {:induction false} BytesAreRead(bytes: string, rest: string)
    requires (forall i | 0 <= i < |bytes| :: PlainByte(bytes[i])) && WellFormed(rest)
    ensures WellFormed(bytes + rest) && Unescaped(bytes + rest) == Concat(bytes, Unescaped(rest))
  {
    hide WellFormed, Unescaped, PlainByte;
    if bytes == "" {
      assert bytes + rest == rest;
      ConcatNothing(Unescaped(rest));
    } else {
      BytesAreRead(bytes[1..], rest);
      ByteIsRead(bytes[0], bytes[1..] + rest);
      assert bytes + rest == [bytes[0]] + (bytes[1..] + rest);
      ConcatTwice([bytes[0]], bytes[1..], Unescaped(rest));
      assert bytes == [bytes[0]] + bytes[1..];
    }
  }

  lemma PlainIsRead(bytes: string, rest: string)
    requires Good(Plain(bytes)) && WellFormed(rest)
    ensures ReadAs(Plain(bytes), bytes, rest)
  {
    hide WellFormed, Unescaped;
    forall i | 0 <= i < |bytes| ensures PlainByte(bytes[i]) {
      if i > 0 {
        assert Continues(bytes[i]);
      }
    }
    BytesAreRead(bytes, rest);
  }

  lemma ShortMeans(c: char)
    requires c in SHORT
    ensures IsSimpleEscape(c) && c != 'u' && SimpleEscape(c) as int == SHORT[c] < 0x80
    ensures ReadUtf8([SHORT[c] as char]) == Some(SHORT[c])
  {
  }

  lemma ShortIsRead(c: char, rest: string)
    requires c in SHORT && WellFormed(rest)
    ensures SHORT[c] < 0x80 && ReadAs(Short(c), [SHORT[c] as char], rest)
    ensures ReadUtf8([SHORT[c] as char]) == Some(SHORT[c])
  {
    hide Utf8, ReadUtf8, IsSimpleEscape, SimpleEscape;
    ShortMeans(c);
    var x := ['\\', c] + rest;
    assert x[2..] == rest && UnitLength(x) == 2;
    assert Decode(x) == Ok(([SimpleEscape(c)], 2)) by { ShortDecodes(x, c); }
    assert SimpleEscape(c) == SHORT[c] as char;
  }

  lemma ShortDecodes(x: string, c: char)
    requires WellFormed(x) && |x| >= 2 && x[0] == '\\' && x[1] == c && c != 'u'
    ensures Decode(x) == Ok(([SimpleEscape(c)], 2))
  {
  }

  /** An escape is one unit of the token. */
  lemma UnitIsWellFormed(digits: string, rest: string)
    requires FourHex(digits) && WellFormed(rest)
    ensures var x := "\\u" + digits + rest;
            WellFormed(x) && |x| >= 6 && x[0] == '\\' && x[1] == 'u' && x[2..6] == digits && x[6..] == rest
  {
    var x := "\\u" + digits + rest;
    assert x[2..6] == digits && x[6..] == rest;
    assert forall i | 2 <= i < 6 :: x[i] == digits[i - 2];
    assert UnitLength(x) == 6;
  }

  lemma UnitIsRead(digits: string, rest: string)
    requires FourHex(digits) && !HighSurrogate(HexReading(digits)) && WellFormed(rest)
    ensures Utf8(HexReading(digits)).Ok? && ReadAs(Unit(digits), Utf8(HexReading(digits)).value, rest)
  {
    hide WellFormed, ReadUtf8, HexNumber, HexReading;
    UnitIsWellFormed(digits, rest);
    HexNumberIsRead(digits);
    var x := "\\u" + digits + rest;
    var n := HexReading(digits);
    Utf8IsRead(n) by { HexNumberBound(digits); }
    assert Decode(x) == Ok((Utf8(n).value, 6));
  }

  lemma HexNumberBound(s: string)
    requires FourHex(s)
    ensures HexReading(s) <= 0xffff
  {
    hide Nibble;
  }

  lemma PairIsRead(high: string, low: string, rest: string)
    requires Good(Pair(high, low)) && WellFormed(rest)
    ensures var n := Meant(Pair(high, low));
            n <= 0x10ffff && Utf8(n).Ok? && ReadAs(Pair(high, low), Utf8(n).value, rest)
  {
    hide WellFormed, ReadUtf8, HexNumber, HexReading, Utf8, Decode;
    var after := "\\u" + low + rest;
    UnitIsWellFormed(low, rest);
    UnitIsWellFormed(high, after);
    var x := "\\u" + high + after;
    assert Spelled(Pair(high, low)) + rest == x;
    assert x[6..] == after && x[12..] == after[6..];
    PairDecodes(high, low, rest);
  }

  lemma PairDecodes(high: string, low: string, rest: string)
    requires Good(Pair(high, low)) && WellFormed(rest)
    ensures var n := Meant(Pair(high, low)); var x := "\\u" + high + ("\\u" + low + rest);
            n <= 0x10ffff && Utf8(n).Ok? && WellFormed(x) && Decode(x) == Ok((Utf8(n).value, 12))
  {
    hide WellFormed, HexNumber, HexReading, Utf8;
    var after := "\\u" + low + rest;
    UnitIsWellFormed(low, rest);
    UnitIsWellFormed(high, after);
    var x := "\\u" + high + after;
    assert x[6] == after[0] && x[7] == after[1] && x[8..12] == after[2..6];
    HexNumberIsRead(high);
    HexNumberIsRead(low);
    SurrogatePair(HexReading(high), HexReading(low));
  }

  // ----- whole tokens -----

  function AllSpelled(ps: seq<Piece>): string {
    if ps == [] then "" else Spelled(ps[0]) + AllSpelled(ps[1..])
  }

  ghost predicate AllGood(ps: seq<Piece>) {
    forall i | 0 <= i < |ps| :: Good(ps[i])
  }

  ghost function AllMeant(ps: seq<Piece>): seq<nat>
    requires AllGood(ps)
  {
    if ps == [] then [] else [Meant(ps[0])] + AllMeant(ps[1..])
  }

  lemma {:induction false} PiecesAreRead(ps: seq<Piece>)
    requires AllGood(ps)
    ensures WellFormed(AllSpelled(ps)) && Unescaped(AllSpelled(ps)).Ok?
    ensures ReadText(Unescaped(AllSpelled(ps)).value) == Some(AllMeant(ps))
  {
    hide WellFormed, Unescaped, ReadText, ReadUtf8, Good, Meant, Spelled;
    if ps == [] {
      NothingIsRead();
    } else {
      assert Good(ps[0]);
      PiecesAreRead(ps[1..]);
      var text := PieceIsRead(ps[0], AllSpelled(ps[1..]));
      ReadNext(text, Meant(ps[0]), Unescaped(AllSpelled(ps[1..])).value);
    }
  }

  lemma NothingIsRead()
    ensures WellFormed("") && Unescaped("") == Ok("") && ReadText("") == Some([])
  {
  }

  /** The value of a string token is the UTF-8 text of the code points that its characters and escapes
      stand for, however they are written. */
  lemma TokenIsRead(ps: seq<Piece>)
    requires AllGood(ps)
    ensures var token := "\"" + AllSpelled(ps) + "\"";
            IsStringToken(token) && StringValue(token).Ok? && ReadText(StringValue(token).value) == Some(AllMeant(ps))
  {
    hide WellFormed, Unescaped, ReadText, AllSpelled, AllMeant, AllGood;
    PiecesAreRead(ps);
    var token := "\"" + AllSpelled(ps) + "\"";
    assert token[1..|token| - 1] == AllSpelled(ps);
  }

  /** One hexadecimal escape alone: a first half of a pair is an error, a second half gives bytes that are
      not UTF-8, and anything else its code point. */
  lemma UnitTokenIs(digits: string)
    requires FourHex(digits)
    ensures var token := "\"\\u" + digits + "\""; var n := HexReading(digits);
            && IsStringToken(token)
            && (StringValue(token).Ok? <==> !HighSurrogate(n))
            && (StringValue(token).Err? ==> StringValue(token).error == InvalidArgument)
            && (StringValue(token).Ok? ==>
                  ReadText(StringValue(token).value) == if LowSurrogate(n) then None else Some([n]))
  {
    hide WellFormed, ReadText, ReadUtf8, HexNumber, HexReading, Utf8;
    var token, n, x := "\"\\u" + digits + "\"", HexReading(digits), "\\u" + digits;
    assert token[1..|token| - 1] == x && x + "" == x;
    NothingIsRead();
    UnitIsWellFormed(digits, "");
    if HighSurrogate(n) {
      HexNumberIsRead(digits);
      assert Decode(x) == Err(InvalidArgument);
    } else {
      UnitIsRead(digits, "");
      Utf8IsRead(n) by { HexNumberBound(digits); }
      var text := Utf8(n).value;
      assert text + "" == text;
      if LowSurrogate(n) {
        LowIsNotText(n);
      } else {
        ReadNext(text, n, "");
        assert [n] + [] == [n];
      }
    }
  }

  lemma LowIsNotText(n: nat)
    requires LowSurrogate(n)
    ensures Utf8(n).Ok? && ReadText(Utf8(n).value) == None
  {
    Utf8IsRead(n);
    var s := Utf8(n).value;
    assert Width(s[0]) == 3 && s[..3] == s;
  }

  /** The first half of a pair needs the second half right behind it. */
  lemma HighNeedsLow(digits: string, rest: string)
    requires FourHex(digits) && HighSurrogate(HexReading(digits)) && WellFormed(rest)
    requires !(|rest| >= 6 && rest[..2] == "\\u" && FourHex(rest[2..6]) && LowSurrogate(HexReading(rest[2..6])))
    ensures WellFormed("\\u" + digits + rest) && Unescaped("\\u" + digits + rest) == Err(InvalidArgument)
  {
    hide HexNumber, HexReading, Utf8;
    UnitIsWellFormed(digits, rest);
    HexNumberIsRead(digits);
    var x := "\\u" + digits + rest;
    if rest != "" && rest[0] == '\\' && rest[1] == 'u' {
      assert UnitLength(rest) == 6;
      assert rest[..2] == "\\u" && x[8..12] == rest[2..6];
      HexNumberIsRead(rest[2..6]);
    }
    assert Decode(x) == Err(InvalidArgument);
  }
}
