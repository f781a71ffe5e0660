/** Bytes as hexadecimal text (iotchain/src/serialization.cpp:9-32). */
module HexText {
  import opened Strings
  import opened Hexadecimal

  function Digits(data: seq<Byte>): (s: string)
    ensures |s| == 2 * |data|
  {
    if data == [] then "" else [HexDigit(data[0] / 16), HexDigit(data[0] % 16)] + Digits(data[1..])
  }

  /** hex_buffer: the prefix is left out for an empty buffer. */
  function HexBuffer(data: seq<Byte>): string {
    if data == [] then "" else "0x" + Digits(data)
  }

  lemma {:induction false} DigitsSnoc(data: seq<Byte>, i: nat)
    requires i < |data|
    ensures Digits(data[..i + 1]) == Digits(data[..i]) + [HexDigit(data[i] / 16), HexDigit(data[i] % 16)]
    decreases i
  {
    if i > 0 {
      DigitsSnoc(data[1..], i - 1);
      assert data[..i + 1][1..] == data[1..][..i] && data[..i][1..] == data[1..][..i - 1];
    }
  }

  /** The loop over the stream of hex_buffer. */
  method WriteHex(data: seq<Byte>) returns (s: string)
    ensures s == HexBuffer(data)
  {
    s := "";
    if |data| > 0 {
      s := "0x";
    }
    ghost var prefix := s;
    for i := 0 to |data|
      invariant s == prefix + Digits(data[..i])
    {
      DigitsSnoc(data, i);
      s := s + [HexDigit(data[i] / 16), HexDigit(data[i] % 16)];
    }
    assert data[..|data|] == data;
  }

  /** `strtol(s, NULL, 16)` on at most two characters, cast to a byte: white space and a sign may stand
      in front, and what is not a digit ends the number. */
  function Strtol(s: string): (b: Byte)
    requires |s| <= 2
  {
    var t := s[Span(s, Space)..];
    if t == "" then 0
    else if t[0] == '-' || t[0] == '+' then
      var v := if |t| == 2 && IsHex(t[1]) then HexValue(t[1]) else 0;
      if t[0] == '-' then (0 - v) % 0x100 else v
    else if !IsHex(t[0]) then 0
    else if |t| == 2 && IsHex(t[1]) then HexValue(t[0]) * 16 + HexValue(t[1])
    else HexValue(t[0])
  }

  lemma StrtolOfByte(b: Byte)
    ensures Strtol([HexDigit(b / 16), HexDigit(b % 16)]) == b
  {
    var high, low := HexDigit(b / 16), HexDigit(b % 16);
    DigitBack(b / 16);
    DigitBack(b % 16);
    assert Span([high, low], Space) == 0;
    assert [high, low][0..] == [high, low];
  }

  lemma DigitBack(n: int)
    requires 0 <= n < 16
    ensures IsHex(HexDigit(n)) && HexValue(HexDigit(n)) == n && !IsSpace(HexDigit(n))
    ensures HexDigit(n) != '-' && HexDigit(n) != '+'
  {
  }

  /** How many bytes integer_buffer writes. */
  function ByteCount(data: string): nat {
    if |data| <= 2 then 0 else (|data| - 1) / 2
  }

  /** The bytes that it writes. */
  function Bytes(data: string): (b: seq<Byte>)
    ensures |b| == ByteCount(data)
  {
    seq(ByteCount(data), i requires 0 <= i < ByteCount(data) => Strtol(Pair(data, 2 * i + 2)))
  }

  /** `substr(i, 2)`. */
  function Pair(data: string, i: nat): (s: string)
    requires i < |data|
    ensures |s| <= 2
  {
    if i + 2 <= |data| then data[i..i + 2] else data[i..]
  }

  /** integer_buffer fills the front of a buffer that has to be large enough. */
  method ReadHex(data: string, out: array<Byte>)
    requires ByteCount(data) <= out.Length
    modifies out
    ensures out[..ByteCount(data)] == Bytes(data)
    ensures out[ByteCount(data)..] == old(out[ByteCount(data)..])
  {
    if data == "" {
      return;
    }
    hide *;
    CountIs(data);
    ghost var before := out[..];
    var i, n := 2, 0;
    FillStarts(Bytes(data), before);
    while i < |data|
      invariant i == 2 * n + 2 && n <= ByteCount(data) && (i < |data| <==> n < ByteCount(data))
      invariant FilledUpTo(out[..], Bytes(data), before, n)
    {
      BytesAt(data, n);
      FillGoesOn(out[..], Bytes(data), before, n);
      CountIs(data);
      ghost var now := out[..];
      out[n] := Strtol(Pair(data, i));
      assert out[..] == now[n := Strtol(Pair(data, i))];
      i, n := i + 2, n + 1;
    }
    FillEnds(out[..], Bytes(data), before);
    assert out[..][..n] == out[..n] && out[..][n..] == out[n..];
  }

  /** The first `n` bytes are written, and the others are as before. */
  ghost predicate FilledUpTo(now: seq<Byte>, bytes: seq<Byte>, before: seq<Byte>, n: nat) {
    && |now| == |before| && n <= |bytes| <= |now|
    && now[..n] == bytes[..n] && now[n..] == before[n..]
  }

  lemma FillStarts(bytes: seq<Byte>, before: seq<Byte>)
    requires |bytes| <= |before|
    ensures FilledUpTo(before, bytes, before, 0)
  {
  }

  lemma FillGoesOn(now: seq<Byte>, bytes: seq<Byte>, before: seq<Byte>, n: nat)
    requires FilledUpTo(now, bytes, before, n) && n < |bytes|
    ensures FilledUpTo(now[n := bytes[n]], bytes, before, n + 1)
  {
    assert now[n + 1..] == now[n..][1..] == before[n..][1..] == before[n + 1..];
    assert bytes[..n + 1] == bytes[..n] + [bytes[n]];
    assert now[n := bytes[n]][..n + 1] == now[..n] + [bytes[n]];
  }

  lemma FillEnds(now: seq<Byte>, bytes: seq<Byte>, before: seq<Byte>)
    requires FilledUpTo(now, bytes, before, |bytes|)
    ensures |now| == |before| && |bytes| <= |now| && now[..|bytes|] == bytes && now[|bytes|..] == before[|bytes|..]
  {
    assert bytes[..|bytes|] == bytes;
  }

  lemma CountIs(data: string)
    ensures forall n: nat :: 2 * n + 2 < |data| <==> n < ByteCount(data)
  {
  }

  lemma BytesAt(data: string, n: nat)
    requires n < ByteCount(data)
    ensures 2 * n + 2 < |data| && Bytes(data)[n] == Strtol(Pair(data, 2 * n + 2))
  {
    hide Strtol, Pair;
  }

  lemma {:induction false} DigitsAt(data: seq<Byte>, i: nat)
    requires i < |data|
    ensures Digits(data)[2 * i..2 * i + 2] == [HexDigit(data[i] / 16), HexDigit(data[i] % 16)]
  {
    if i > 0 {
      DigitsAt(data[1..], i - 1);
      assert Digits(data)[2 * i..2 * i + 2] == Digits(data[1..])[2 * (i - 1)..2 * (i - 1) + 2];
    }
  }

  /** integer_buffer undoes hex_buffer, for every byte sequence. */
  lemma HexRoundTrip(data: seq<Byte>)
    ensures Bytes(HexBuffer(data)) == data
  {
    hide Strtol, Digits, HexDigit, Pair;
    var text := HexBuffer(data);
    if data != [] {
      assert ByteCount(text) == |data|;
      forall i | 0 <= i < |data| ensures Bytes(text)[i] == data[i] {
        DigitsAt(data, i);
        PairBehindPrefix(Digits(data), 2 * i);
        StrtolOfByte(data[i]);
      }
    }
  }

  lemma PairBehindPrefix(digits: string, i: nat)
    requires i + 2 <= |digits|
    ensures Pair("0x" + digits, i + 2) == digits[i..i + 2]
  {
    assert ("0x" + digits)[i + 2..i + 4] == digits[i..i + 2];
  }

  /** `resize(length / 2 - 1)` on the text of a buffer (98, 107): right for every buffer that is not
      empty, but zero minus one for the empty one, which wraps around. */
  lemma ResizeIsRightIff(data: seq<Byte>)
    ensures |HexBuffer(data)| / 2 - 1 == |data| <==> data != []
  {
  }
}
