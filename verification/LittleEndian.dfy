/** Unsigned integers of a fixed width as little-endian bytes, as they lie in the memory that the
    repository copies to and from its byte streams. */
module LittleEndian {
  import opened Strings
  import opened Power

  /** The low `k` bytes of `n`. */
  function Encoded(n: nat, k: nat): (b: seq<Byte>)
    ensures |b| == k
  {
    if k == 0 then [] else [n % 0x100] + Encoded(n / 0x100, k - 1)
  }

  function Value(b: seq<Byte>): nat {
    if b == [] then 0 else b[0] + 0x100 * Value(b[1..])
  }

  lemma {:induction false} ValueOfEncoded(n: nat, k: nat)
    requires n < Pow(0x100, k)
    ensures Value(Encoded(n, k)) == n
  {
    if k > 0 {
      Shrinks(n, Pow(0x100, k - 1));
      ValueOfEncoded(n / 0x100, k - 1);
      assert Encoded(n, k)[1..] == Encoded(n / 0x100, k - 1);
    }
  }

  lemma Shrinks(n: nat, p: nat)
    requires n < 0x100 * p
    ensures n / 0x100 < p
  {
  }

  lemma SplitByte(x: Byte, v: nat)
    ensures (x + 0x100 * v) % 0x100 == x && (x + 0x100 * v) / 0x100 == v
  {
  }

  lemma {:induction false} EncodedOfValue(b: seq<Byte>)
    ensures Encoded(Value(b), |b|) == b
  {
    if b != [] {
      EncodedOfValue(b[1..]);
      SplitByte(b[0], Value(b[1..]));
      assert b == [b[0]] + b[1..];
    }
  }

  lemma {:induction false} ValueBound(b: seq<Byte>)
    ensures Value(b) < Pow(0x100, |b|)
  {
    if b != [] {
      ValueBound(b[1..]);
    }
  }

  lemma Width4()
    ensures Pow(0x100, 4) == 0x1_0000_0000
  {
    assert Pow(0x100, 2) == 0x1_0000;
    PowAdd(0x100, 2, 2);
  }

  lemma Width8()
    ensures Pow(0x100, 8) == 0x1_0000_0000_0000_0000
  {
    Width4();
    PowAdd(0x100, 4, 4);
  }
}
