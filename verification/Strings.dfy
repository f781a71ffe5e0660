/** Strings and byte sequences. The repository's `std::string` is a sequence of bytes; here it is a
    `string` with one `char` per byte. Nothing below depends on a `char` being less than 256, so what
    is proved for all strings holds for all byte strings. Binary data are sequences of `Byte`. */
module Strings {
  type Byte = b: int | 0 <= b < 256

  datatype Option<+T> = None | Some(value: T)

  /** `isspace` in the "C" locale. */
  predicate IsSpace(c: char) {
    c == ' ' || '\t' <= c <= '\r'
  }

  predicate IsDigit(c: char) {
    '0' <= c <= '9'
  }

  /** `n` copies of `c`. */
  function Repeat<T>(c: T, n: nat): (s: seq<T>)
    ensures |s| == n
  {
    seq(n, _ => c)
  }

  /** The character classes that the repository's loops skip over. */
  datatype Class = Space | Digit | One | NotNul

  predicate Is(c: char, k: Class) {
    match k
    case Space => IsSpace(c)
    case Digit => IsDigit(c)
    case One => c == '1'
    case NotNul => c != '\0'
  }

  /** The length of the longest prefix of `s` in the class `k`. */
  function Span(s: string, k: Class): (n: nat)
    ensures n <= |s|
    ensures forall i | 0 <= i < n :: Is(s[i], k)
    ensures n < |s| ==> !Is(s[n], k)
  {
    if s == "" || !Is(s[0], k) then 0 else 1 + Span(s[1..], k)
  }

  lemma {:induction false} SpanUnique(s: string, k: Class, n: nat)
    requires n <= |s|
    requires forall i | 0 <= i < n :: Is(s[i], k)
    requires n < |s| ==> !Is(s[n], k)
    ensures Span(s, k) == n
  {
    if n != 0 {
      assert Is(s[0], k);
      SpanUnique(s[1..], k, n - 1);
    }
  }

  lemma AppendAssociative<T>(a: seq<T>, b: seq<T>, c: seq<T>)
    ensures a + (b + c) == a + b + c
  {
  }

  lemma SplitInTwo<T>(s: seq<T>, n: nat)
    requires n <= |s|
    ensures s == s[..n] + s[n..]
  {
  }

  /** A sequence around one of its elements. */
  lemma SplitAt<T>(s: seq<T>, n: nat)
    requires n < |s|
    ensures s == s[..n] + ([s[n]] + s[n + 1..])
  {
  }
}
