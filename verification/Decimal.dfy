/** Decimal text: `std::to_string` of an unsigned number and `std::stoi`. */
module Decimal {
  import opened Strings
  import opened Radix
  import opened JsonValue

  const TWO31: int := 0x8000_0000

  predicate AllDigits(s: string) {
    forall i | 0 <= i < |s| :: IsDigit(s[i])
  }

  function DigitText(ds: seq<nat>): (s: string)
    requires Numeral(ds, 10)
    ensures |s| == |ds| && AllDigits(s)
  {
    seq(|ds|, i requires 0 <= i < |ds| => '0' + ds[i] as char)
  }

  function DigitValues(s: string): (ds: seq<nat>)
    requires AllDigits(s)
    ensures |ds| == |s| && Numeral(ds, 10)
  {
    seq(|s|, i requires 0 <= i < |s| => (s[i] - '0') as nat)
  }

  /** The number that a run of digits writes. */
  function DigitsValue(s: string): nat
    requires AllDigits(s)
  {
    FromRadix(DigitValues(s), 10)
  }

  /** `std::to_string(n)`. */
  function DecimalText(n: nat): (s: string)
    ensures s != [] && AllDigits(s)
  {
    if n == 0 then "0" else (FromToRadix(n, 10); DigitText(ToRadix(n, 10)))
  }

  lemma DecimalValue(n: nat)
    ensures DigitsValue(DecimalText(n)) == n
    ensures DecimalText(n)[0] == '0' <==> n == 0
    ensures n == 0 ==> DecimalText(n) == "0"
  {
    if n == 0 {
      SingleDigit(0, 10);
      assert DigitValues("0") == [0];
    } else {
      FromToRadix(n, 10);
      assert DigitValues(DigitText(ToRadix(n, 10))) == ToRadix(n, 10);
    }
  }

  lemma DecimalInjective(m: nat, n: nat)
    requires DecimalText(m) == DecimalText(n)
    ensures m == n
  {
    DecimalValue(m);
    DecimalValue(n);
  }

  /** `std::stoi`: white space, an optional sign, then at least one digit; what follows the digits is
      ignored, and the value has to fit an `int`. */
  function Stoi(s: string): Result<int> {
    var t := s[Span(s, Space)..];
    var signed := t != [] && (t[0] == '+' || t[0] == '-');
    var body := if signed then t[1..] else t;
    var digits := body[..Span(body, Digit)];
    if digits == [] then Err(InvalidArgument)
    else
      var v: int := if signed && t[0] == '-' then 0 - DigitsValue(digits) else DigitsValue(digits);
      if -TWO31 <= v < TWO31 then Ok(v) else Err(OutOfRange)
  }

  /** An index survives to_string and stoi exactly when it fits an `int`. */
  lemma StoiOfDecimal(n: nat)
    ensures Stoi(DecimalText(n)) == if n < TWO31 then Ok(n) else Err(OutOfRange)
  {
    var s := DecimalText(n);
    DecimalValue(n);
    assert IsDigit(s[0]);
    SpanUnique(s, Space, 0);
    assert s[0..] == s;
    SpanUnique(s, Digit, |s|);
    assert s[..|s|] == s;
  }

  predicate AllSpaces(s: string) {
    forall i | 0 <= i < |s| :: IsSpace(s[i])
  }

  predicate StartsWithDigit(s: string) {
    s != "" && IsDigit(s[0])
  }

  /** What `stoi` reads: the digits between white space with a sign and anything else. */
  lemma StoiReads(space: string, sign: string, digits: string, rest: string)
    requires AllSpaces(space) && sign in {"", "+", "-"}
    requires digits != "" && AllDigits(digits) && !StartsWithDigit(rest)
    ensures var v: int := if sign == "-" then 0 - DigitsValue(digits) else DigitsValue(digits);
            Stoi(space + sign + digits + rest) == if -TWO31 <= v < TWO31 then Ok(v) else Err(OutOfRange)
  {
    hide DigitsValue, Span, AllDigits, AllSpaces, Stoi;
    var body := digits + rest;
    Reassociated(space, sign, digits, rest);
    Taken(digits, rest);
    FirstDigit(digits, rest);
    BehindSign(sign, body);
    Skipped(space, sign + body);
    StoiOf(space + (sign + body), sign + body, body, digits);
  }

  lemma Reassociated(a: string, b: string, c: string, d: string)
    ensures a + b + c + d == a + (b + (c + d))
  {
  }

  lemma BehindSign(sign: string, body: string)
    requires sign in {"", "+", "-"} && body != ""
    ensures sign + body != "" && (sign + body)[0] == if sign == "" then body[0] else sign[0]
    ensures (sign + body)[1..] == if sign == "" then body[1..] else body
    ensures sign == "" ==> sign + body == body
  {
  }

  lemma StoiOf(s: string, t: string, body: string, digits: string)
    requires s[Span(s, Space)..] == t && t != ""
    requires body == (if t[0] == '+' || t[0] == '-' then t[1..] else t)
    requires body[..Span(body, Digit)] == digits && digits != "" && AllDigits(digits)
    ensures var v: int := if t[0] == '-' then 0 - DigitsValue(digits) else DigitsValue(digits);
            Stoi(s) == if -TWO31 <= v < TWO31 then Ok(v) else Err(OutOfRange)
  {
    hide DigitsValue, Span;
  }

  lemma FirstDigit(digits: string, rest: string)
    requires digits != "" && AllDigits(digits)
    ensures IsDigit((digits + rest)[0])
  {
  }

  lemma Skipped(space: string, tail: string)
    requires AllSpaces(space) && (tail != "" ==> !IsSpace(tail[0]))
    ensures (space + tail)[Span(space + tail, Space)..] == tail
  {
    hide Span;
    SpanUnique(space + tail, Space, |space|);
  }

  lemma Taken(digits: string, rest: string)
    requires AllDigits(digits) && !StartsWithDigit(rest)
    ensures (digits + rest)[..Span(digits + rest, Digit)] == digits
  {
    hide Span;
    SpanUnique(digits + rest, Digit, |digits|);
  }

  /** What it does not read: no digit where the number should begin. */
  lemma StoiRejects(space: string, sign: string, rest: string)
    requires AllSpaces(space) && sign in {"", "+", "-"} && !StartsWithDigit(rest)
    requires sign == "" && rest != "" ==> !IsSpace(rest[0]) && rest[0] != '+' && rest[0] != '-'
    ensures Stoi(space + sign + rest) == Err(InvalidArgument)
  {
    hide DigitsValue, Span, AllDigits, AllSpaces;
    assert space + sign + rest == space + (sign + rest);
    assert sign == "" ==> sign + rest == rest;
    assert sign != "" ==> (sign + rest)[1..] == rest && (sign + rest)[0] == sign[0];
    Skipped(space, sign + rest);
    NoDigits(rest);
  }

  lemma NoDigits(rest: string)
    requires !StartsWithDigit(rest)
    ensures Span(rest, Digit) == 0
  {
  }

  /** Digits from the left: each one multiplies what stands before it by ten. */
  lemma DigitsValueAppend(s: string, c: char)
    requires AllDigits(s) && IsDigit(c)
    ensures AllDigits(s + [c]) && DigitsValue(s + [c]) == DigitsValue(s) * 10 + (c - '0') as nat
    ensures DigitsValue("") == 0
  {
    assert DigitValues(s + [c])[..|s|] == DigitValues(s);
  }
}
