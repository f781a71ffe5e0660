/** Lexical analysis of JSON text (json.hpp:7624-8465) as a function from the rest of the buffer to
    the next token, and the conversion of string and number tokens (json.hpp:7583-7622, 8558-8661,
    8744-8827). Reading past the end of the buffer finds the terminating NUL of `c_str`. */
module JsonLexer {
  import opened Strings
  import opened Hexadecimal
  import opened Power
  import opened JsonValue
  import opened Decimal

  datatype Kind =
    | TrueLiteral
    | FalseLiteral
    | NullLiteral
    | StringToken
    | NumberToken
    | BeginArray
    | BeginObject
    | EndArray
    | EndObject
    | NameSeparator
    | ValueSeparator
    | ParseError
    | EndOfInput

  // ----- strings -----

  predicate IsSimpleEscape(c: char) {
    c in "\"\\/bfnrt"
  }

  /** The length of the escape sequence or plain character at the front of the inside of a string;
      0 where the token cannot go on. */
  function UnitLength(s: string): (n: nat)
    ensures n <= |s|
  {
    if s == "" || s[0] == '"' || s[0] as int < 0x20 then 0
    else if s[0] != '\\' then 1
    else if |s| >= 2 && IsSimpleEscape(s[1]) then 2
    else if |s| >= 6 && s[1] == 'u' && forall i | 2 <= i < 6 :: IsHex(s[i]) then 6
    else 0
  }

  /** The position of the closing quote, after an opening quote. */
  function StringEnd(s: string): (r: Option<nat>)
    ensures r.Some? ==> r.value < |s| && s[r.value] == '"'
    decreases |s|
  {
    if s != "" && s[0] == '"' then Some(0)
    else if UnitLength(s) == 0 then None
    else
      match StringEnd(s[UnitLength(s)..])
      case None => None
      case Some(n) => Some(UnitLength(s) + n)
  }

  /** The inside of a string token. */
  predicate WellFormed(body: string)
    decreases |body|
  {
    body == "" || (UnitLength(body) != 0 && WellFormed(body[UnitLength(body)..]))
  }

  lemma UnitOfPrefix(s: string, n: nat)
    requires UnitLength(s) <= n <= |s|
    ensures UnitLength(s[..n]) == UnitLength(s)
  {
  }

  lemma {:induction false} StringBodyWellFormed(s: string)
    requires StringEnd(s).Some?
    ensures WellFormed(s[..StringEnd(s).value])
    decreases |s|
  {
    hide UnitLength;
    var n := StringEnd(s).value;
    if s[0] != '"' {
      var u := UnitLength(s);
      StringBodyWellFormed(s[u..]);
      UnitOfPrefix(s, n);
      assert s[..n][u..] == s[u..][..n - u];
    } else {
      assert s[..n] == "";
    }
  }

  /** `strtoul` of four hexadecimal digits. */
  function HexNumber(s: string): (n: nat)
    requires |s| == 4 && forall i | 0 <= i < 4 :: IsHex(s[i])
    ensures n < 0x10000
  {
    ((HexValue(s[0]) * 16 + HexValue(s[1])) * 16 + HexValue(s[2])) * 16 + HexValue(s[3])
  }

  predicate HighSurrogate(n: nat) {
    0xD800 <= n <= 0xDBFF
  }

  predicate LowSurrogate(n: nat) {
    0xDC00 <= n <= 0xDFFF
  }

  /** The code point that to_unicode builds from one or two code units. */
  function CodePoint(unit1: nat, unit2: nat): Result<nat> {
    if !HighSurrogate(unit1) then Ok(unit1)
    else if LowSurrogate(unit2) then Ok(unit1 * 0x400 + unit2 - 0x35FDC00)
    else Err(InvalidArgument)
  }

  /** The UTF-8 bytes of a code point. */
  function Utf8(n: nat): Result<string> {
    if n < 0x80 then Ok([n as char])
    else if n <= 0x7ff then Ok([(0xC0 + n / 0x40) as char, (0x80 + n % 0x40) as char])
    else if n <= 0xffff then Ok([(0xE0 + n / 0x1000) as char, (0x80 + n / 0x40 % 0x40) as char,
        (0x80 + n % 0x40) as char])
    else if n <= 0x10ffff then
      Ok([(0xF0 + n / 0x40000) as char, (0x80 + n / 0x1000 % 0x40) as char, (0x80 + n / 0x40 % 0x40) as char,
          (0x80 + n % 0x40) as char])
    else Err(OutOfRange)
  }

  function ToUnicode(unit1: nat, unit2: nat): Result<string> {
    var n :- CodePoint(unit1, unit2);
    Utf8(n)
  }

  /** A surrogate pair stands for the code point that UTF-16 gives it, and no pair is out of range. */
  lemma SurrogatePair(high: nat, low: nat)
    requires HighSurrogate(high) && LowSurrogate(low)
    ensures CodePoint(high, low) == Ok(0x10000 + (high - 0xD800) * 0x400 + (low - 0xDC00))
    ensures CodePoint(high, low).value <= 0x10ffff && ToUnicode(high, low).Ok?
  {
  }

  function Concat(front: string, r: Result<string>): Result<string> {
    match r
    case Ok(s) => Ok(front + s)
    case Err(e) => Err(e)
  }

  function SimpleEscape(c: char): char {
    if c == 't' then 9 as char
    else if c == 'b' then 8 as char
    else if c == 'f' then 12 as char
    else if c == 'n' then 10 as char
    else if c == 'r' then 13 as char
    else c
  }

  /** What one step of the loop of get_string appends, and how far it moves. */
  function Decode(body: string): (r: Result<(string, nat)>)
    requires WellFormed(body) && body != ""
    ensures r.Ok? ==> 0 < r.value.1 <= |body| && WellFormed(body[r.value.1..])
  {
    if body[0] != '\\' then Ok(([body[0]], 1))
    else if body[1] != 'u' then Ok(([SimpleEscape(body[1])], 2))
    else
      var unit := HexNumber(body[2..6]);
      if HighSurrogate(unit) then
        if |body| < 8 || body[6] != '\\' || body[7] != 'u' then Err(InvalidArgument)
        else
          assert WellFormed(body[6..]) && UnitLength(body[6..]) == 6;
          assert body[6..][2..6] == body[8..12] && body[6..][6..] == body[12..];
          match ToUnicode(unit, HexNumber(body[8..12]))
          case Ok(text) => Ok((text, 12))
          case Err(e) => Err(e)
      else
        match ToUnicode(unit, 0)
        case Ok(text) => Ok((text, 6))
        case Err(e) => Err(e)
  }

  /** get_string, on the inside of a token. */
  function Unescaped(body: string): Result<string>
    requires WellFormed(body)
    decreases |body|
  {
    if body == "" then Ok("")
    else
      match Decode(body)
      case Err(e) => Err(e)
      case Ok((text, n)) => Concat(text, Unescaped(body[n..]))
  }

  predicate IsStringToken(token: string) {
    |token| >= 2 && token[0] == '"' && token[|token| - 1] == '"' && WellFormed(token[1..|token| - 1])
  }

  function StringValue(token: string): Result<string>
    requires IsStringToken(token)
  {
    Unescaped(token[1..|token| - 1])
  }

  /** The loop of get_string. */
  method GetString(token: string) returns (r: Result<string>)
    requires IsStringToken(token)
    ensures r == StringValue(token)
  {
    hide Decode, ToUnicode, Decoding, WellFormed;
    var body := token[1..|token| - 1];
    var result := "";
    var i := 0;
    DecodingStart(body);
    while i < |body|
      invariant Decoding(body, result, i)
    {
      DecodingStep(body, result, i);
      var step := Decode(body[i..]);
      if step.Err? {
        return Err(step.error);
      }
      result := result + step.value.0;
      i := i + step.value.1;
    }
    DecodingStep(body, result, i);
    r := Ok(result);
  }

  /** The result so far, and the text that is left. */
  ghost predicate Decoding(body: string, result: string, i: nat) {
    && i <= |body|
    && WellFormed(body)
    && WellFormed(body[i..])
    && Unescaped(body) == Concat(result, Unescaped(body[i..]))
  }

  lemma DecodingStart(body: string)
    requires WellFormed(body)
    ensures Decoding(body, "", 0)
  {
    hide Unescaped, WellFormed;
    assert body[0..] == body;
    ConcatNothing(Unescaped(body));
  }

  lemma DecodingStep(body: string, result: string, i: nat)
    requires Decoding(body, result, i)
    ensures i <= |body| && WellFormed(body[i..])
    ensures i == |body| ==> Unescaped(body) == Ok(result)
    ensures i < |body| ==> match Decode(body[i..])
                           case Ok((text, n)) => Decoding(body, result + text, i + n)
                           case Err(e) => Unescaped(body) == Err(e)
  {
    hide Decode, WellFormed;
    if i < |body| {
      match Decode(body[i..])
      case Ok((text, n)) =>
        assert body[i..][n..] == body[i + n..];
        ConcatTwice(result, text, Unescaped(body[i + n..]));
      case Err(e) =>
    } else {
      assert result + "" == result;
    }
  }

  lemma ConcatNothing(r: Result<string>)
    ensures Concat("", r) == r
  {
    if r.Ok? {
      assert "" + r.value == r.value;
    }
  }

  lemma ConcatTwice(a: string, b: string, r: Result<string>)
    ensures Concat(a, Concat(b, r)) == Concat(a + b, r)
  {
    if r.Ok? {
      assert a + (b + r.value) == a + b + r.value;
    }
  }

  // ----- numbers -----

  /** The length of the number at the front of the text; 0 if there is none. */
  function NumberEnd(s: string): (n: nat)
    ensures n <= |s|
  {
    var start := if s != "" && s[0] == '-' then 1 else 0;
    if start >= |s| || !IsDigit(s[start]) then 0
    else ExponentEnd(s, FractionEnd(s, if s[start] == '0' then start + 1 else start + Span(s[start..], Digit)))
  }

  function FractionEnd(s: string, n: nat): (m: nat)
    requires n <= |s|
    ensures n <= m <= |s|
  {
    if n + 1 < |s| && s[n] == '.' && IsDigit(s[n + 1]) then n + 1 + Span(s[n + 1..], Digit) else n
  }

  function ExponentEnd(s: string, n: nat): (m: nat)
    requires n <= |s|
    ensures n <= m <= |s|
  {
    if n < |s| && (s[n] == 'e' || s[n] == 'E') then
      var at := if n + 1 < |s| && (s[n + 1] == '+' || s[n + 1] == '-') then n + 2 else n + 1;
      if at < |s| && IsDigit(s[at]) then at + Span(s[at..], Digit) else n
    else n
  }

  /** The integer part of get_number, with its 64-bit wrap-around: `None` once the token counts as a
      float. */
  function Accumulated(text: string, value: nat, max: nat): (r: Option<nat>)
    requires value <= max
    ensures r.Some? ==> r.value <= max
  {
    if text == "" then Some(value)
    else if !IsDigit(text[0]) then None
    else
      var next := (value * 10 + (text[0] - '0') as nat) % TWO64;
      if next < value || next > max then None else Accumulated(text[1..], next, max)
  }

  function NumberValue(token: string): Result<Json> {
    if token != "" && token[0] == '-' then
      match Accumulated(token[1..], 0, TWO63)
      case Some(v) => Ok(Int(0 - v))
      case None => Err(FloatingPoint)
    else
      match Accumulated(token, 0, TWO64 - 1)
      case Some(v) => Ok(Uint(v))
      case None => Err(FloatingPoint)
  }

  /** The type that get_number tracks while it reads. */
  datatype NumberType = Integer | Unsigned | Float

  /** The loop of get_number. */
  method GetNumber(token: string) returns (r: Result<Json>)
    ensures r == NumberValue(token)
  {
    var kind, max, start := Unsigned, TWO64 - 1, 0;
    if token != "" && token[0] == '-' {
      kind, max, start := Integer, TWO63, 1;
    }
    hide Accumulated;
    ghost var whole := Accumulated(token[start..], 0, max);
    var value: nat := 0;
    var i := start;
    var digits := true;
    while i < |token| && digits
      invariant start <= i <= |token| && value <= max
      invariant kind.Float? ==> whole == None
      invariant !kind.Float? ==> digits && kind == (if start == 1 then Integer else Unsigned)
      invariant !kind.Float? ==> whole == Accumulated(token[i..], value, max)
      decreases |token| - i, digits
    {
      AccumulatedStep(token, i, value, max);
      var c := token[i];
      if !IsDigit(c) {
        kind := Float;
        if c == '.' {
          i := i + 1;
        } else {
          digits := false;
        }
      } else {
        if !kind.Float? {
          var temp := (value * 10 + (c - '0') as nat) % TWO64;
          if temp < value || temp > max {
            kind := Float;
          } else {
            value := temp;
          }
        }
        i := i + 1;
      }
    }
    AccumulatedEnd(token, value, max);
    match kind
    case Unsigned => r := Ok(Uint(value));
    case Integer => r := Ok(Int(0 - value));
    case Float => r := Err(FloatingPoint);
  }

  lemma AccumulatedStep(token: string, i: nat, value: nat, max: nat)
    requires i < |token| && value <= max
    ensures Accumulated(token[i..], value, max) ==
            if !IsDigit(token[i]) then None
            else
              var next := (value * 10 + (token[i] - '0') as nat) % TWO64;
              if next < value || next > max then None else Accumulated(token[i + 1..], next, max)
  {
    assert token[i..][0] == token[i] && token[i..][1..] == token[i + 1..];
  }

  lemma AccumulatedEnd(token: string, value: nat, max: nat)
    requires value <= max
    ensures Accumulated(token[|token|..], value, max) == Some(value)
  {
  }

  /** Every literal that fits is read exactly. */
  lemma {:induction false} AccumulatedExactly(done: string, text: string, max: nat)
    requires AllDigits(done) && AllDigits(text) && AllDigits(done + text)
    requires DigitsValue(done) <= max && DigitsValue(done + text) <= max < TWO64
    ensures Accumulated(text, DigitsValue(done), max) == Some(DigitsValue(done + text))
    decreases |text|
  {
    hide DigitsValue;
    if text == "" {
      assert done + text == done;
    } else {
      var c := text[0];
      assert done + text == done + [c] + text[1..];
      DigitsValueAppend(done, c);
      DigitsValueGrows(done + [c], text[1..]);
      var next := DigitsValue(done) * 10 + (c - '0') as nat;
      assert next % TWO64 == next;
      AccumulatedExactly(done + [c], text[1..], max);
    }
  }

  lemma {:induction false} DigitsValueGrows(s: string, t: string)
    requires AllDigits(s) && AllDigits(t) && AllDigits(s + t)
    ensures DigitsValue(s) <= DigitsValue(s + t)
    decreases |t|
  {
    hide DigitsValue;
    if t == "" {
      assert s + t == s;
    } else {
      assert s + t == s + [t[0]] + t[1..];
      DigitsValueAppend(s, t[0]);
      DigitsValueGrows(s + [t[0]], t[1..]);
    }
  }

  lemma NoDigits()
    ensures DigitsValue("") == 0
  {
  }

  /** An unsigned literal is read as its value exactly when that value fits 64 bits. */
  lemma UnsignedLiteral(token: string)
    requires token != "" && AllDigits(token)
    ensures DigitsValue(token) < TWO64 <==>
            exists u: Uint64 :: NumberValue(token) == Ok(Uint(u)) && u == DigitsValue(token)
  {
    hide DigitsValue, Accumulated;
    assert IsDigit(token[0]);
    if DigitsValue(token) < TWO64 {
      NoDigits();
      assert "" + token == token;
      AccumulatedExactly("", token, TWO64 - 1);
      assert NumberValue(token) == Ok(Uint(DigitsValue(token)));
    }
  }

  /** A negative literal is read as its value exactly when that value fits 64 bits. */
  lemma NegativeLiteral(digits: string)
    requires digits != "" && AllDigits(digits)
    ensures DigitsValue(digits) <= TWO63 <==>
            exists i: Int64 :: NumberValue("-" + digits) == Ok(Int(i)) && i == 0 - DigitsValue(digits)
  {
    hide DigitsValue, Accumulated;
    assert ("-" + digits)[1..] == digits;
    if DigitsValue(digits) <= TWO63 {
      NoDigits();
      assert "" + digits == digits;
      AccumulatedExactly("", digits, TWO63);
      assert NumberValue("-" + digits) == Ok(Int(0 - DigitsValue(digits)));
    }
  }

  // ----- every literal, whether or not it fits -----

  /** What is left of the value of the digits in 64 bits. */
  function Residue(digits: string): Uint64
    requires AllDigits(digits)
  {
    DigitsValue(digits) % TWO64
  }

  /** The `n`-th digit does not make the residue fall or take it beyond `max`. */
  predicate RisesAt(digits: string, n: nat, max: nat)
    requires AllDigits(digits) && n < |digits|
  {
    Residue(digits[..n]) <= Residue(digits[..n + 1]) <= max
  }

  /** No digit does, from the `i`-th on. */
  predicate RisesFrom(digits: string, i: nat, max: nat)
    requires AllDigits(digits)
  {
    forall n | i <= n < |digits| :: RisesAt(digits, n, max)
  }

  lemma RisesNowhere(digits: string, i: nat, max: nat)
    requires AllDigits(digits) && i >= |digits|
    ensures RisesFrom(digits, i, max)
  {
  }

  lemma RisesOn(digits: string, i: nat, max: nat)
    requires AllDigits(digits) && i < |digits|
    ensures RisesFrom(digits, i, max) <==> RisesAt(digits, i, max) && RisesFrom(digits, i + 1, max)
  {
    hide RisesAt;
  }

  lemma RisesWithin(digits: string, max: nat)
    requires AllDigits(digits) && RisesFrom(digits, 0, max)
    ensures Residue(digits) <= max
  {
    hide Residue;
    if digits == "" {
      ResidueOfNothing(digits);
    } else {
      assert digits[..|digits|] == digits;
      assert RisesAt(digits, |digits| - 1, max);
    }
  }

  lemma ResidueStep(v: nat, d: nat)
    ensures (v % TWO64 * 10 + d) % TWO64 == (v * 10 + d) % TWO64
  {
    var q, r := v / TWO64, v % TWO64;
    assert v * 10 + d == (r * 10 + d) + q * 10 * TWO64;
    ModuloMultiple(r * 10 + d, q * 10);
  }

  lemma {:induction false} ModuloMultiple(r: nat, q: nat)
    ensures (r + q * TWO64) % TWO64 == r % TWO64
  {
    if q > 0 {
      ModuloMultiple(r, q - 1);
      assert r + q * TWO64 == (r + (q - 1) * TWO64) + TWO64;
    }
  }

  /** One digit more. */
  lemma NextResidue(digits: string, i: nat)
    requires AllDigits(digits) && i < |digits|
    ensures (Residue(digits[..i]) * 10 + (digits[i] - '0') as nat) % TWO64 == Residue(digits[..i + 1])
  {
    hide DigitsValue;
    assert digits[..i + 1] == digits[..i] + [digits[i]];
    DigitsValueAppend(digits[..i], digits[i]);
    ResidueStep(DigitsValue(digits[..i]), (digits[i] - '0') as nat);
  }

  /** The accumulator holds the residue of the digits read; the literal gets through exactly if no digit
      makes it fall or takes it beyond the maximum. */
  lemma {:induction false} AccumulatedIff(digits: string, i: nat, max: nat)
    requires AllDigits(digits) && i <= |digits| && Residue(digits[..i]) <= max
    ensures Accumulated(digits[i..], Residue(digits[..i]), max) ==
            if RisesFrom(digits, i, max) then Some(Residue(digits)) else None
    decreases |digits| - i
  {
    hide Residue, Accumulated, RisesFrom;
    if i == |digits| {
      assert digits[..i] == digits;
      assert RisesFrom(digits, i, max) by { RisesNowhere(digits, i, max); }
      AccumulatedEnd(digits, Residue(digits), max);
    } else {
      AccumulatedStep(digits, i, Residue(digits[..i]), max);
      NextResidue(digits, i);
      RisesOn(digits, i, max);
      if RisesAt(digits, i, max) {
        AccumulatedIff(digits, i + 1, max);
      }
    }
  }

  lemma ResidueOfNothing(digits: string)
    requires AllDigits(digits)
    ensures Residue(digits[..0]) == 0 && digits[0..] == digits
  {
    NoDigits();
    assert digits[..0] == "";
  }

  /** What get_number makes of any run of digits: their residue if it never falls from one digit to the
      next, and a float otherwise. */
  lemma UnsignedLiteralIs(digits: string)
    requires digits != "" && AllDigits(digits)
    ensures NumberValue(digits) ==
            if RisesFrom(digits, 0, TWO64 - 1) then Ok(Uint(Residue(digits))) else Err(FloatingPoint)
  {
    hide Residue, Accumulated, RisesFrom;
    assert IsDigit(digits[0]);
    ResidueOfNothing(digits);
    AccumulatedIff(digits, 0, TWO64 - 1);
  }

  /** The same behind a minus sign, where the residue must not exceed 2^63 either. */
  lemma NegativeLiteralIs(digits: string)
    requires AllDigits(digits)
    ensures RisesFrom(digits, 0, TWO63) ==> Residue(digits) <= TWO63
    ensures NumberValue("-" + digits) ==
            if RisesFrom(digits, 0, TWO63) then Ok(Int(0 - Residue(digits))) else Err(FloatingPoint)
  {
    hide Residue, Accumulated, RisesFrom;
    assert ("-" + digits)[1..] == digits;
    ResidueOfNothing(digits);
    AccumulatedIff(digits, 0, TWO63);
    if RisesFrom(digits, 0, TWO63) {
      RisesWithin(digits, TWO63);
    }
  }

  /** A literal is read as a number other than its own exactly when it does not fit 64 bits and its residues
      never fall. */
  lemma MisreadIff(digits: string)
    requires digits != "" && AllDigits(digits)
    ensures (exists u: Uint64 :: NumberValue(digits) == Ok(Uint(u)) && u != DigitsValue(digits))
            <==> DigitsValue(digits) >= TWO64 && RisesFrom(digits, 0, TWO64 - 1)
  {
    hide DigitsValue, RisesFrom, NumberValue;
    UnsignedLiteralIs(digits);
    UnsignedLiteral(digits);
  }

  /** The same behind a minus sign. */
  lemma NegativeMisreadIff(digits: string)
    requires digits != "" && AllDigits(digits)
    ensures (exists i: Int64 :: NumberValue("-" + digits) == Ok(Int(i)) && i != 0 - DigitsValue(digits))
            <==> DigitsValue(digits) > TWO63 && RisesFrom(digits, 0, TWO63)
  {
    hide DigitsValue, RisesFrom, NumberValue;
    NegativeLiteralIs(digits);
    NegativeLiteral(digits);
  }

  lemma DigitStep(text: string, c: char, value: nat, max: nat)
    requires IsDigit(c) && value <= max
    ensures var next := (value * 10 + (c - '0') as nat) % TWO64;
            Accumulated([c] + text, value, max) == if next < value || next > max then None
                else Accumulated(text, next, max)
  {
    assert ([c] + text)[1..] == text;
  }

  lemma PowTen(n: nat, v: nat)
    requires n > 0
    ensures v * Pow(10, n) == v * 10 * Pow(10, n - 1) && v * 10 <= v * Pow(10, n)
  {
    var p := Pow(10, n - 1);
    PowPositive(10, n - 1);
    assert v * (10 * p) == v * 10 * p;
    assert v * 10 <= v * 10 * p by { MulMonotone(v * 10, v * 10, 1, p); }
  }

  /** Zeros multiply the value, as long as it fits. */
  lemma {:induction false} ZerosRead(n: nat, v: nat, max: nat)
    requires v * Pow(10, n) <= max < TWO64
    ensures v <= max
    ensures Accumulated(Repeat('0', n) + "0", v, max) == Accumulated("0", v * Pow(10, n), max)
  {
    hide Accumulated, Pow;
    var text := Repeat('0', n) + "0";
    if n == 0 {
      PowZero(10);
      assert text == "0";
    } else {
      PowTen(n, v);
      ZerosRead(n - 1, v * 10, max);
      assert text == ['0'] + (Repeat('0', n - 1) + "0");
      DigitStep(Repeat('0', n - 1) + "0", '0', v, max);
    }
  }

  lemma PowZero(b: nat)
    ensures Pow(b, 0) == 1
  {
  }

  /** The wrap-around test misses some overflows: this literal, three times ten to the nineteenth, is
      read as a different number. */
  lemma OverflowIsMissed()
    ensures NumberValue("3" + Repeat('0', 18) + "0") == Ok(Uint(11553255926290448384))
  {
    var zeros := Repeat('0', 18) + "0";
    var token := "3" + Repeat('0', 18) + "0";
    assert token == ['3'] + zeros && token[0] == '3';
    TenToThe18();
    ZerosRead(18, 3, TWO64 - 1);
    DigitStep(zeros, '3', 0, TWO64 - 1);
    DigitStep("", '0', 3_000_000_000_000_000_000, TWO64 - 1);
    assert ['0'] + "" == "0";
  }

  /** And this one, behind a minus sign. */
  lemma NegativeOverflowIsMissed()
    ensures NumberValue("-25" + Repeat('0', 17) + "0") == Ok(Int(-6553255926290448384))
  {
    hide Accumulated;
    var zeros := Repeat('0', 17) + "0";
    AccumulatedEnd("", 6553255926290448384, TWO63);
    assert ""[|""|..] == "";
    var token := "-25" + Repeat('0', 17) + "0";
    assert token == ['-'] + (['2'] + (['5'] + zeros)) && token[0] == '-';
    assert token[1..] == ['2'] + (['5'] + zeros);
    TenToThe17();
    ZerosRead(17, 25, TWO63);
    DigitStep(['5'] + zeros, '2', 0, TWO63);
    DigitStep(zeros, '5', 2, TWO63);
    DigitStep("", '0', 2_500_000_000_000_000_000, TWO63);
    assert ['0'] + "" == "0";
  }

  lemma TenToThe17()
    ensures Pow(10, 17) == 100_000_000_000_000_000
  {
    assert Pow(10, 4) == 10000;
    PowAdd(10, 4, 4);
    PowAdd(10, 8, 8);
    PowAdd(10, 16, 1);
    assert Pow(10, 1) == 10;
  }

  lemma TenToThe18()
    ensures Pow(10, 18) == 1_000_000_000_000_000_000
  {
    assert Pow(10, 3) == 1000;
    PowAdd(10, 3, 3);
    PowAdd(10, 6, 3);
    PowAdd(10, 9, 9);
  }
}
