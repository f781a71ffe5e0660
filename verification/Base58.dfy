/** iotchain/src/base58.cpp: base58_encode and base58_decode, on byte strings. */
module Base58 {
  import opened Strings
  import opened Power
  import opened Radix

  // ----- the alphabet -----

  /** pszBase58[d]: "1".."9", then the upper-case letters without I and O, then the lower-case
      letters without l. */
  function Letter(d: nat): (c: char)
    requires d < 58
  {
    if d < 9 then '1' + d as char
    else if d < 17 then 'A' + (d - 9) as char
    else if d < 22 then 'J' + (d - 17) as char
    else if d < 33 then 'P' + (d - 22) as char
    else if d < 44 then 'a' + (d - 33) as char
    else 'm' + (d - 44) as char
  }

  /** The position of a character in the alphabet. */
  function Position(c: char): (r: Option<nat>)
    ensures r.Some? ==> r.value < 58
  {
    if '1' <= c <= '9' then Some((c - '1') as nat)
    else if 'A' <= c <= 'H' then Some((c - 'A') as nat + 9)
    else if 'J' <= c <= 'N' then Some((c - 'J') as nat + 17)
    else if 'P' <= c <= 'Z' then Some((c - 'P') as nat + 22)
    else if 'a' <= c <= 'k' then Some((c - 'a') as nat + 33)
    else if 'm' <= c <= 'z' then Some((c - 'm') as nat + 44)
    else None
  }

  /** The alphabet lists 58 different characters: `Position` and `Letter` are inverse to each other. */
  lemma PositionInvertsLetter(c: char, d: nat)
    requires d < 58
    ensures Position(c) == Some(d) <==> Letter(d) == c
  {
  }

  predicate Alphanumeric(c: char) {
    '0' <= c <= '9' || 'A' <= c <= 'Z' || 'a' <= c <= 'z'
  }

  /** They are the digits and letters that cannot be mistaken for each other, in the order of their codes. */
  lemma AlphabetIs(c: char, d: nat, e: nat)
    requires d < e < 58
    ensures Position(c).Some? <==> Alphanumeric(c) && c !in {'0', 'O', 'I', 'l'}
    ensures Letter(d) < Letter(e)
  {
  }

  /** strchr over the alphabet. */
  method Find(c: char) returns (r: Option<nat>)
    ensures r == Position(c)
  {
    for d := 0 to 58
      invariant forall k | 0 <= k < d :: Letter(k) != c
    {
      if Letter(d) == c {
        return Some(d);
      }
    }
    r := None;
    if Position(c).Some? {
      PositionInvertsLetter(c, Position(c).value);
      assert false;
    }
  }

  predicate InAlphabet(c: char) {
    Position(c).Some?
  }

  /** The digit of an alphabet letter. */
  function Digit(c: char): (d: nat)
    requires InAlphabet(c)
    ensures d < 58
  {
    Position(c).value
  }

  // ----- specification -----

  function Letters(ds: seq<nat>): (s: string)
    requires Numeral(ds, 58)
    ensures |s| == |ds|
  {
    seq(|ds|, i requires 0 <= i < |ds| => Letter(ds[i]))
  }

  function Digits(s: string): (ds: seq<nat>)
    requires forall i | 0 <= i < |s| :: InAlphabet(s[i])
    ensures |ds| == |s| && Numeral(ds, 58)
  {
    seq(|s|, i requires 0 <= i < |s| => Digit(s[i]))
  }

  function LeadingZeros(b: seq<Byte>): (n: nat)
    ensures n <= |b| && b[..n] == Repeat<Byte>(0, n)
    ensures n < |b| ==> b[n] != 0
  {
    if b == [] || b[0] != 0 then 0 else 1 + LeadingZeros(b[1..])
  }

  function LeadingOnes(b: string): (n: nat)
    ensures n <= |b|
  {
    Span(b, One)
  }

  lemma {:induction false} LeadingZerosUnique(b: seq<Byte>, n: nat)
    requires n <= |b| && forall i | 0 <= i < n :: b[i] == 0
    requires n < |b| ==> b[n] != 0
    ensures LeadingZeros(b) == n
  {
    if n != 0 {
      LeadingZerosUnique(b[1..], n - 1);
    }
  }

  /** What base58_encode computes: one '1' for each leading zero byte, then the base-58 numeral. */
  function Encoding(b: seq<Byte>): string {
    Repeat('1', LeadingZeros(b)) + Letters(ToRadix(FromRadix(b, 256), 58))
  }

  /** The bytes of a `std::string` that its `c_str` shows: those before the first NUL. */
  function CString(s: string): (r: string) {
    s[..Span(s, NotNul)]
  }

  /** Leading and trailing white space removed. */
  function Trim(s: string): string {
    var t := s[Span(s, Space)..];
    t[..TrimmedLength(t)]
  }

  function TrimmedLength(s: string): (n: nat)
    ensures n <= |s|
    ensures forall i | n <= i < |s| :: IsSpace(s[i])
    ensures n > 0 ==> !IsSpace(s[n - 1])
  {
    if s == [] then 0
    else if IsSpace(s[|s| - 1]) then TrimmedLength(s[..|s| - 1])
    else |s|
  }

  predicate AllInAlphabet(s: string) {
    forall i | 0 <= i < |s| :: InAlphabet(s[i])
  }

  /** The number that a string of letters writes in base 58. */
  function LettersValue(s: string): nat
    requires AllInAlphabet(s)
  {
    FromRadix(Digits(s), 58)
  }

  /** The bytes that a trimmed string of letters stands for. */
  function Decoded(t: string): (b: seq<Byte>)
    requires AllInAlphabet(t)
  {
    var z := LeadingOnes(t);
    Repeat<Byte>(0, z) + ToRadix(LettersValue(t[z..]), 256)
  }

  function Decoding(s: string): Option<seq<Byte>> {
    var t := Trim(CString(s));
    if AllInAlphabet(t) then Some(Decoded(t)) else None
  }

  // ----- the size of the buffers -----

  lemma EncodeRatio()
    ensures Pow(256, 8) <= Pow(58, 11)
  {
    PowAdd(256, 4, 4);
    PowAdd(58, 5, 6);
    assert Pow(256, 4) == 256 * 256 * 256 * 256;
    assert Pow(58, 5) == 58 * 58 * 58 * 58 * 58;
    assert Pow(58, 6) == 58 * 58 * 58 * 58 * 58 * 58;
  }

  // 58 and 256 to the powers that they are named after.
  const C58_16 := 0x34fde3761da26b26e1410000
  const C58_32 := 0xaf820335d9b3d9cf58b911d87035677fb7f528100000000
  const C58_64 := 0x7853026ae25f4ce0c69893e6f1f86f67aef4db69563516064adeb967a9d66f4fe64b09ec94e5010000000000000000
  const C256_16 := 0x100000000000000000000000000000000
  const C256_32 := 0x10000000000000000000000000000000000000000000000000000000000000000
  const C256_48 := 0x1000000000000000000000000000000000000000000000000000000000000000000000000000000000000000000000000

  lemma DecodeRatio()
    ensures Pow(58, 71) <= Pow(256, 52)
  {
    DecodeProducts();
    assert Pow(58, 3) == 195112 && Pow(58, 4) == 0xacad10 && Pow(256, 4) == 0x1_0000_0000;
    PowSum(58, 4, 3, 0xacad10, 195112, 2207984167552);
    PowSum(58, 4, 4, 0xacad10, 0xacad10, 0x7479027ea100);
    PowSum(58, 8, 8, 0x7479027ea100, 0x7479027ea100, C58_16);
    PowSum(58, 16, 16, C58_16, C58_16, C58_32);
    PowSum(58, 32, 32, C58_32, C58_32, C58_64);
    PowSum(58, 64, 7, C58_64, 2207984167552, C58_64 * 2207984167552);
    PowSum(256, 4, 4, 0x1_0000_0000, 0x1_0000_0000, 0x1_0000_0000_0000_0000);
    PowSum(256, 8, 8, 0x1_0000_0000_0000_0000, 0x1_0000_0000_0000_0000, C256_16);
    PowSum(256, 16, 16, C256_16, C256_16, C256_32);
    PowSum(256, 32, 16, C256_32, C256_16, C256_48);
    PowSum(256, 48, 4, C256_48, 0x1_0000_0000, C256_48 * 0x1_0000_0000);
  }

  lemma DecodeProducts()
    ensures 0xacad10 * 195112 == 2207984167552 && 0xacad10 * 0xacad10 == 0x7479027ea100
    ensures 0x7479027ea100 * 0x7479027ea100 == C58_16 && C58_16 * C58_16 == C58_32 && C58_32 * C58_32 == C58_64
    ensures 0x1_0000_0000_0000_0000 * 0x1_0000_0000_0000_0000 == C256_16
    ensures C256_16 * C256_16 == C256_32 && C256_32 * C256_16 == C256_48
    ensures C58_64 * 2207984167552 <= C256_48 * 0x1_0000_0000
  {
  }

  lemma PowSum(b: nat, m: nat, n: nat, x: nat, y: nat, z: nat)
    requires Pow(b, m) == x && Pow(b, n) == y && x * y == z
    ensures Pow(b, m + n) == z
  {
    PowAdd(b, m, n);
  }

  /** base58.cpp:77: the buffer of n*138/100 + 1 base-58 digits holds every n-byte number. */
  lemma EncodeBufferSuffices(n: nat)
    ensures Pow(256, n) <= Pow(58, n * 138 / 100 + 1)
  {
    EncodeRatio();
    Rescale(256, 58, 8, 11, n, n * 138 / 100 + 1);
  }

  /** base58.cpp:21: the buffer of n*733/1000 + 1 bytes holds every n-letter number. */
  lemma DecodeBufferSuffices(n: nat)
    ensures Pow(58, n) <= Pow(256, n * 733 / 1000 + 1)
  {
    DecodeRatio();
    Rescale(58, 256, 71, 52, n, n * 733 / 1000 + 1);
  }

  // ----- the two programs -----

  /** base58_encode. */
  method Encode(b: seq<Byte>) returns (str: string)
    ensures str == Encoding(b)
  {
    // Skip and count leading zero bytes.
    var zeroes: nat := 0;
    while zeroes < |b| && b[zeroes] == 0
      invariant zeroes <= |b|
      invariant forall i | 0 <= i < zeroes :: b[i] == 0
    {
      zeroes := zeroes + 1;
    }
    hide FromRadix, ToRadix, Letters, LeadingZeros, Numeral, AllZero;
    LeadingZerosUnique(b, zeroes);
    var b58, length := EncodeDigits(b[zeroes..]);
    ZerosDoNotCount(b, zeroes);
    var it := SkipZeros(b58, b58.Length - length, 58);
    var letters := Translate(b58, it);
    str := Repeat('1', zeroes) + letters;
  }

  lemma ZerosDoNotCount(b: seq<Byte>, n: nat)
    requires n <= |b| && forall i | 0 <= i < n :: b[i] == 0
    ensures FromRadix(b, 256) == FromRadix(b[n..], 256)
  {
    LowPart(b, n, 256);
  }

  /** The base-58 digits of the bytes `body`, in a fresh buffer. */
  method EncodeDigits(body: seq<Byte>) returns (b58: array<nat>, length: nat)
    ensures fresh(b58) && length <= b58.Length
    ensures Numeral(b58[..], 58) && AllZero(b58[..b58.Length - length])
    ensures FromRadix(b58[..], 58) == FromRadix(body, 256)
  {
    hide *;
    var size := |body| * 138 / 100 + 1;
    b58 := new nat[size](_ => 0);
    length := 0;
    ZeroDigits(b58[..], 58);
    assert b58[..][..size] == b58[..size];
    NoDigits(body);
    BytesAreDigits(body);
    EncodeBufferSuffices(|body|);
    for at := 0 to |body|
      invariant length <= size == b58.Length && fresh(b58)
      invariant Numeral(b58[..], 58) && AllZero(b58[..size - length])
      invariant FromRadix(b58[..], 58) == FromRadix(body[..at], 256)
    {
      PrefixStep(body, at, 256, Pow(58, size));
      length := MultiplyAdd(b58, 58, 256, body[at], length);
    }
    assert body[..|body|] == body;
  }

  lemma NoDigits(body: seq<nat>)
    ensures FromRadix(body[..0], 256) == 0
  {
  }

  lemma BytesAreDigits(body: seq<Byte>)
    ensures Numeral(body, 256)
  {
  }

  /** Appends the letters of the remaining digits one at a time. */
  method Translate(digits: array<nat>, from: nat) returns (str: string)
    requires from <= digits.Length && Numeral(digits[..], 58)
    ensures str == Letters(digits[from..])
  {
    str := [];
    for it := from to digits.Length
      invariant str == Letters(digits[from..it])
    {
      assert digits[it] == digits[from..][it - from];
      assert digits[from..it + 1] == digits[from..it] + [digits[it]];
      str := str + [Letter(digits[it])];
    }
  }

  /** The value of one more digit still fits in the buffer. */
  lemma PrefixStep(body: seq<nat>, n: nat, radix: nat, limit: nat)
    requires 1 <= radix && n < |body| && Numeral(body, radix) && Pow(radix, |body|) <= limit
    ensures FromRadix(body[..n + 1], radix) == FromRadix(body[..n], radix) * radix + body[n] < limit
  {
    assert body[..n + 1][..n] == body[..n];
    FromRadixBound(body[..n + 1], radix);
    PowMonotoneExponent(radix, n + 1, |body|);
  }

  /** Both programs end by stepping over the leading zero digits of the buffer. */
  method SkipZeros(digits: array<nat>, from: nat, radix: nat) returns (it: nat)
    requires 2 <= radix && from <= digits.Length
    requires Numeral(digits[..], radix) && AllZero(digits[..from])
    ensures it <= digits.Length && digits[it..] == ToRadix(FromRadix(digits[..], radix), radix)
  {
    it := from;
    while it < digits.Length && digits[it] == 0
      invariant from <= it <= digits.Length && AllZero(digits[..it])
    {
      it := it + 1;
    }
    FromRadixZeros(digits[..it], digits[it..], radix);
    assert digits[..] == digits[..it] + digits[it..];
    ToFromRadix(digits[it..], radix);
  }

  /** `*psz`: past its last byte a `std::string` shows a NUL. */
  function At(s: string, p: nat): (c: char) {
    if p < |s| then s[p] else '\0'
  }

  /** base58_decode. `None` is the return value false. */
  method Decode(s: string) returns (r: Option<seq<Byte>>)
    ensures r == Decoding(s)
  {
    hide Trim, CString, TrimmedLength, AllInAlphabet, Decoded, LettersValue, ToRadix, FromRadix, Numeral, AllZero;
    NoNulInCString(s);
    var psz := CString(s);  // the overload for std::string goes through c_str
    var start := SkipSpaces(psz, 0);
    var p := SkipOnes(psz, start);
    var ok, stop, b256, length := Accumulate(psz, p);
    if !ok {
      Rejected(psz, start, stop, stop);
      return None;
    }
    var end := SkipSpaces(psz, stop);
    if At(psz, end) != '\0' {
      Rejected(psz, start, stop, end);
      return None;
    }
    Accepted(psz, start, p, stop);
    var it := SkipZeros(b256, b256.Length - length, 256);
    var tail := CopyBytes(b256, it);
    r := Some(Repeat<Byte>(0, p - start) + tail);
  }

  /** Skips and counts leading '1's. */
  method SkipOnes(psz: string, start: nat) returns (p: nat)
    requires start <= |psz|
    ensures start <= p <= |psz| && (p < |psz| ==> psz[p] != '1')
    ensures forall i | start <= i < p :: psz[i] == '1'
  {
    p := start;
    while At(psz, p) == '1'
      invariant start <= p <= |psz|
      invariant forall i | start <= i < p :: psz[i] == '1'
      decreases |psz| - p
    {
      p := p + 1;
    }
  }

  /** Copies the remaining digits, bytes in fact, to the output. */
  method CopyBytes(digits: array<nat>, from: nat) returns (vch: seq<Byte>)
    requires from <= digits.Length && Numeral(digits[..], 256)
    ensures vch == digits[from..]
  {
    vch := [];
    for it := from to digits.Length
      invariant |vch| == it - from
      invariant forall i | 0 <= i < |vch| :: vch[i] == digits[from + i]
    {
      assert digits[it] == digits[..][it];
      vch := vch + [digits[it]];
    }
  }

  lemma NoNulInCString(s: string)
    ensures NulFree(CString(s))
  {
    forall i | 0 <= i < |CString(s)| ensures CString(s)[i] != '\0' {
      assert Is(s[i], NotNul);
    }
  }

  predicate NulFree(psz: string) {
    forall i | 0 <= i < |psz| :: psz[i] != '\0'
  }

  /** Steps over white space. */
  method SkipSpaces(psz: string, p: nat) returns (q: nat)
    requires p <= |psz|
    ensures p <= q <= |psz| && !IsSpace(At(psz, q))
    ensures p == 0 ==> Leading(psz, q)
    ensures forall i | p <= i < q :: IsSpace(psz[i])
  {
    q := p;
    while IsSpace(At(psz, q))
      invariant p <= q <= |psz|
      invariant forall i | p <= i < q :: IsSpace(psz[i])
      decreases |psz| - q
    {
      q := q + 1;
    }
  }

  /** Reads letters up to the end of the string or the first white space into a fresh buffer. */
  method Accumulate(psz: string, from: nat) returns (ok: bool, p: nat, b256: array<nat>, length: nat)
    requires from <= |psz| && NulFree(psz)
    ensures from <= p <= |psz| && AllInAlphabet(psz[from..p])
    ensures !ok ==> p < |psz| && !IsSpace(psz[p]) && !InAlphabet(psz[p])
    ensures ok ==> p < |psz| ==> IsSpace(psz[p])
    ensures from < p ==> !IsSpace(psz[p - 1])
    ensures length <= b256.Length && Numeral(b256[..], 256) && AllZero(b256[..b256.Length - length])
    ensures FromRadix(b256[..], 256) == LettersValue(psz[from..p])
  {
    hide *;
    var strlen := |psz| - from;
    var size := strlen * 733 / 1000 + 1;
    b256 := new nat[size](_ => 0);
    length, p, ok := 0, from, true;
    ZeroDigits(b256[..], 256);
    assert b256[..][..size] == b256[..size];
    NoLetters(psz[from..from]);
    DecodeBufferSuffices(strlen);
    ghost var value: nat := 0;
    while At(psz, p) != '\0' && !IsSpace(At(psz, p))
      invariant from <= p <= |psz| && length <= size == b256.Length && fresh(b256)
      invariant AllInAlphabet(psz[from..p]) && value == LettersValue(psz[from..p])
      invariant from < p ==> !IsSpace(psz[p - 1])
      invariant Numeral(b256[..], 256) && AllZero(b256[..size - length])
      invariant FromRadix(b256[..], 256) == value
      decreases |psz| - p
    {
      InText(psz, p);
      var ch := Find(psz[p]);
      LetterOrNot(psz[p]);
      if ch.None? {
        return false, p, b256, length;
      }
      LetterStep(psz, from, p, strlen, Pow(256, size));
      value := value * 58 + ch.value;
      length := MultiplyAdd(b256, 256, 58, ch.value, length);
      p := p + 1;
    }
    EndOrSpace(psz, p);
  }

  /** Reading behind the end finds the NUL. */
  lemma InText(psz: string, p: nat)
    requires p <= |psz| && At(psz, p) != '\0'
    ensures p < |psz| && At(psz, p) == psz[p]
  {
  }

  lemma EndOrSpace(psz: string, p: nat)
    requires NulFree(psz) && p <= |psz| && (At(psz, p) == '\0' || IsSpace(At(psz, p)))
    ensures p < |psz| ==> IsSpace(psz[p])
  {
  }

  lemma LetterOrNot(c: char)
    ensures InAlphabet(c) <==> Position(c).Some?
    ensures InAlphabet(c) ==> Position(c).value == Digit(c) < 58
  {
  }

  lemma NoLetters(s: string)
    requires s == ""
    ensures AllInAlphabet(s) && LettersValue(s) == 0
  {
  }

  lemma LetterStep(c: string, from: nat, p: nat, strlen: nat, limit: nat)
    requires from <= p < |c| && strlen == |c| - from && Pow(58, strlen) <= limit
    requires AllInAlphabet(c[from..p]) && InAlphabet(c[p])
    ensures AllInAlphabet(c[from..p + 1])
    ensures LettersValue(c[from..p + 1]) == LettersValue(c[from..p]) * 58 + Digit(c[p]) < limit
  {
    assert c[from..p + 1] == c[from..p] + [c[p]];
    var ds := Digits(c[from..p + 1]);
    assert ds[..p - from] == Digits(c[from..p]);
    PowMonotoneExponent(58, |ds|, strlen);
    PrefixStep(ds, p - from, 58, limit);
    assert ds[..p + 1 - from] == ds;
  }

  /** `start` is the end of the leading white space. */
  predicate Leading(psz: string, start: nat) {
    && start <= |psz| && !IsSpace(At(psz, start))
    && forall i | 0 <= i < start :: IsSpace(psz[i])
  }

  /** The shape of an accepted string: white space, ones, letters, white space. */
  lemma Accepted(psz: string, start: nat, p: nat, stop: nat)
    requires Leading(psz, start) && start <= p <= stop <= |psz|
    requires forall i | start <= i < p :: psz[i] == '1'
    requires AllInAlphabet(psz[p..stop]) && (p < stop ==> psz[p] != '1')
    requires start < stop ==> !IsSpace(psz[stop - 1])
    requires forall i | stop <= i < |psz| :: IsSpace(psz[i])
    ensures AllInAlphabet(Trim(psz))
    ensures Decoded(Trim(psz)) == Repeat<Byte>(0, p - start) + ToRadix(LettersValue(psz[p..stop]), 256)
  {
    hide ToRadix, LettersValue, Trim, Leading, Letter;
    var t := psz[start..stop];
    Trimmed(psz, start, stop);
    assert t == psz[start..p] + psz[p..stop];
    SpanUnique(t, One, p - start);
    assert t[p - start..] == psz[p..stop];
  }

  lemma Trimmed(psz: string, start: nat, stop: nat)
    requires Leading(psz, start) && start <= stop <= |psz|
    requires start < stop ==> !IsSpace(psz[stop - 1])
    requires forall i | stop <= i < |psz| :: IsSpace(psz[i])
    ensures Trim(psz) == psz[start..stop]
  {
    SpanUnique(psz, Space, start);
    TrimmedUnique(psz[start..], stop - start);
  }

  /** A byte outside the alphabet that trimming keeps makes the string unacceptable. */
  lemma Rejected(psz: string, start: nat, k: nat, w: nat)
    requires Leading(psz, start) && start <= k <= w < |psz| && !IsSpace(psz[w]) && !InAlphabet(psz[k])
    ensures !AllInAlphabet(Trim(psz))
  {
    SpanUnique(psz, Space, start);
    var t := psz[start..];
    assert !IsSpace(t[w - start]);
    assert w - start < TrimmedLength(t);
    assert Trim(psz)[k - start] == psz[k];
  }

  lemma {:induction false} TrimmedUnique(t: string, n: nat)
    requires n <= |t| && (n > 0 ==> !IsSpace(t[n - 1]))
    requires forall i | n <= i < |t| :: IsSpace(t[i])
    ensures TrimmedLength(t) == n
  {
    if n < |t| {
      assert IsSpace(t[|t| - 1]);
      TrimmedUnique(t[..|t| - 1], n);
    }
  }

  // ----- the round trips -----

  /** Letters are neither NUL nor white space, so nothing is trimmed from a string of letters. */
  lemma LettersAreKept(s: string)
    requires AllInAlphabet(s)
    ensures CString(s) == s && Trim(s) == s
  {
    forall i | 0 <= i < |s| ensures Is(s[i], NotNul) && !IsSpace(s[i]) {
      assert InAlphabet(s[i]);
    }
    SpanUnique(s, NotNul, |s|);
    Trimmed(s, 0, |s|);
    assert s[0..|s|] == s;
  }

  lemma LettersDigits(ds: seq<nat>)
    requires Numeral(ds, 58)
    ensures AllInAlphabet(Letters(ds)) && Digits(Letters(ds)) == ds
    ensures Canonical(ds) && ds != [] ==> Letters(ds)[0] != '1'
  {
    forall i | 0 <= i < |ds| ensures Position(Letters(ds)[i]) == Some(ds[i]) {
      PositionInvertsLetter(Letters(ds)[i], ds[i]);
    }
  }

  lemma DigitsLetters(s: string)
    requires AllInAlphabet(s)
    ensures Letters(Digits(s)) == s
    ensures s != [] && s[0] != '1' ==> Canonical(Digits(s))
  {
    forall i | 0 <= i < |s| ensures Letter(Digits(s)[i]) == s[i] {
      PositionInvertsLetter(s[i], Digits(s)[i]);
    }
  }

  /** What follows the leading zeros is a canonical numeral with the value of all. */
  lemma NumbersAbove(b: seq<Byte>)
    ensures var rest := b[LeadingZeros(b)..];
            Numeral(rest, 256) && Canonical(rest) && FromRadix(rest, 256) == FromRadix(b, 256)
  {
    hide FromRadix;
    var z := LeadingZeros(b);
    forall i | 0 <= i < z ensures b[i] == 0 {
      assert b[i] == b[..z][i];
    }
    ZerosDoNotCount(b, z);
  }

  /** So a byte sequence is its leading zeros and the canonical numeral of its value. */
  lemma SplitBytes(b: seq<Byte>)
    ensures b == Repeat<Byte>(0, LeadingZeros(b)) + ToRadix(FromRadix(b, 256), 256)
  {
    hide *;
    var z := LeadingZeros(b);
    NumbersAbove(b);
    ToFromRadix(b[z..], 256);
    SplitInTwo(b, z);
  }

  lemma JoinBytes(z: nat, v: nat)
    ensures var b := Repeat<Byte>(0, z) + ToRadix(v, 256); LeadingZeros(b) == z && FromRadix(b, 256) == v
  {
    var b: seq<Byte> := Repeat<Byte>(0, z) + ToRadix(v, 256);
    LeadingZerosUnique(b, z);
    FromRadixZeros(Repeat<Byte>(0, z), ToRadix(v, 256), 256);
    FromToRadix(v, 256);
  }

  lemma SplitLetters(t: string)
    requires AllInAlphabet(t)
    ensures t == Repeat('1', LeadingOnes(t)) + Letters(ToRadix(LettersValue(t[LeadingOnes(t)..]), 58))
  {
    var z := LeadingOnes(t);
    assert t[..z] == Repeat('1', z);
    assert t == t[..z] + t[z..];
    DigitsLetters(t[z..]);
    ToFromRadix(Digits(t[z..]), 58);
  }

  lemma JoinLetters(z: nat, v: nat)
    ensures var t := Repeat('1', z) + Letters(ToRadix(v, 58));
            AllInAlphabet(t) && LeadingOnes(t) == z && LettersValue(t[z..]) == v
  {
    var ds := ToRadix(v, 58);
    var t := Repeat('1', z) + Letters(ds);
    LettersDigits(ds);
    assert t[z..] == Letters(ds);
    SpanUnique(t, One, z);
    FromToRadix(v, 58);
  }

  /** Decoding an encoding gives the bytes back, leading zeros included. */
  lemma DecodeOfEncode(b: seq<Byte>)
    ensures Decoding(Encoding(b)) == Some(b)
  {
    JoinLetters(LeadingZeros(b), FromRadix(b, 256));
    LettersAreKept(Encoding(b));
    SplitBytes(b);
  }

  /** Encoding what an accepted string decodes to gives that string back, less the white space
      around it (and less whatever follows a NUL byte). */
  lemma EncodeOfDecode(s: string)
    requires Decoding(s).Some?
    ensures Encoding(Decoding(s).value) == Trim(CString(s))
  {
    var t := Trim(CString(s));
    JoinBytes(LeadingOnes(t), LettersValue(t[LeadingOnes(t)..]));
    SplitLetters(t);
  }

  /** The six white-space characters. */
  predicate Blank(s: string) {
    forall i | 0 <= i < |s| :: s[i] as int in {0x20, 0x09, 0x0A, 0x0B, 0x0C, 0x0D}
  }

  lemma BlankIsSpace(c: char)
    ensures IsSpace(c) <==> c as int in {0x20, 0x09, 0x0A, 0x0B, 0x0C, 0x0D}
  {
  }

  lemma LetterIsNoSpace(c: char)
    requires InAlphabet(c)
    ensures !IsSpace(c) && c != '\0'
  {
  }

  lemma {:induction false} TrimmedBlank(b: string, c: string)
    requires AllInAlphabet(b) && Blank(c)
    ensures TrimmedLength(b + c) == |b|
    decreases |c|
  {
    hide InAlphabet, IsSpace;
    if c == "" {
      assert b + c == b;
      if b != "" {
        LetterIsNoSpace(b[|b| - 1]);
      }
    } else {
      BlankIsSpace(c[|c| - 1]);
      assert (b + c)[..|b + c| - 1] == b + c[..|c| - 1];
      TrimmedBlank(b, c[..|c| - 1]);
    }
  }

  lemma TrimmedAround(a: string, b: string, c: string)
    requires Blank(a) && AllInAlphabet(b) && Blank(c)
    ensures Trim(a + b + c) == b && CString(a + b + c) == a + b + c
  {
    hide InAlphabet, IsSpace, TrimmedLength, Span;
    var s := a + b + c;
    forall i | 0 <= i < |s| ensures Is(s[i], NotNul) && (i < |a| ==> Is(s[i], Space)) {
      if |a| <= i < |a| + |b| {
        assert s[i] == b[i - |a|];
        LetterIsNoSpace(s[i]);
      } else {
        assert s[i] == if i < |a| then a[i] else c[i - |a| - |b|];
        BlankIsSpace(s[i]);
      }
    }
    SpanUnique(s, NotNul, |s|);
    assert s[..|s|] == s;
    if b == "" {
      OnlyBlank(a, c);
    } else {
      assert s[|a|] == b[0];
      LetterIsNoSpace(b[0]);
      SpanUnique(s, Space, |a|);
      assert s[|a|..] == b + c;
      TrimmedBlank(b, c);
      assert (b + c)[..|b|] == b;
    }
  }

  lemma OnlyBlank(a: string, c: string)
    requires Blank(a) && Blank(c)
    ensures Trim(a + "" + c) == ""
  {
    hide IsSpace, TrimmedLength, Span;
    var s := a + "" + c;
    forall i | 0 <= i < |s| ensures Is(s[i], Space) {
      assert s[i] == if i < |a| then a[i] else c[i - |a|];
      BlankIsSpace(s[i]);
    }
    SpanUnique(s, Space, |s|);
    assert s[|s|..] == "";
  }

  /** White space around the letters does not matter. */
  lemma BlanksAreIgnored(a: string, b: string, c: string)
    requires Blank(a) && AllInAlphabet(b) && Blank(c)
    ensures Decoding(a + b + c) == Decoding(b) == Some(Decoded(b))
  {
    hide InAlphabet, Decoded, Trim, CString;
    TrimmedAround(a, b, c);
    TrimmedAround("", b, "");
    assert "" + b + "" == b;
  }

  /** Nor does what follows a NUL. */
  lemma NulEndsText(x: string, y: string)
    requires NulFree(x)
    ensures Decoding(x + "\0" + y) == Decoding(x)
  {
    hide Trim, Decoded, InAlphabet, Span;
    var s := x + "\0" + y;
    assert s[|x|] == '\0' && s[..|x|] == x && x[..|x|] == x;
    forall i | 0 <= i < |x| ensures Is(s[i], NotNul) && Is(x[i], NotNul) {
    }
    SpanUnique(s, NotNul, |x|);
    SpanUnique(x, NotNul, |x|);
  }

  lemma BlankPrefix(s: string)
    ensures Blank(s[..Span(s, Space)])
  {
    hide IsSpace;
    forall i | 0 <= i < Span(s, Space) ensures s[i] as int in {0x20, 0x09, 0x0A, 0x0B, 0x0C, 0x0D} {
      BlankIsSpace(s[i]);
      assert Is(s[i], Space);
    }
  }

  lemma BlankSuffix(s: string)
    ensures Blank(s[TrimmedLength(s)..])
  {
    hide IsSpace;
    forall i | TrimmedLength(s) <= i < |s| ensures s[i] as int in {0x20, 0x09, 0x0A, 0x0B, 0x0C, 0x0D} {
      BlankIsSpace(s[i]);
    }
  }

  /** A string is accepted exactly when it is white space, letters and white space, up to a NUL or its end. */
  lemma AcceptedIff(s: string)
    ensures Decoding(s).Some? <==>
            exists a: string, b: string, c: string ::
              Blank(a) && AllInAlphabet(b) && Blank(c) && CString(s) == a + b + c
  {
    hide InAlphabet, Decoded, Span, TrimmedLength, Blank;
    var x := CString(s);
    if Decoding(s).Some? {
      var n := Span(x, Space);
      var t := x[n..];
      var m := TrimmedLength(t);
      BlankPrefix(x);
      BlankSuffix(t);
      assert x == x[..n] + t[..m] + t[m..];
    }
    if a: string, b: string, c: string :| Blank(a) && AllInAlphabet(b) && Blank(c) && x == a + b + c {
      TrimmedAround(a, b, c);
    }
  }

  /** Two accepted strings that decode alike are the same but for white space around them. */
  lemma DecodeIsInjective(s: string, t: string)
    requires Decoding(s).Some? && Decoding(s) == Decoding(t)
    ensures Trim(CString(s)) == Trim(CString(t))
  {
    EncodeOfDecode(s);
    EncodeOfDecode(t);
  }
}
