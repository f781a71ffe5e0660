/** Big-endian positional numerals: their value, the canonical numeral of a value, and the in-place
    "multiply by a factor and add a digit" step that both directions of base58.cpp share. */
module Radix {
  import opened Power

  predicate Numeral(ds: seq<nat>, radix: nat) {
    forall i | 0 <= i < |ds| :: ds[i] < radix
  }

  /** No leading zero digit. */
  predicate Canonical(ds: seq<nat>) {
    ds != [] ==> ds[0] != 0
  }

  predicate AllZero(ds: seq<nat>) {
    forall i | 0 <= i < |ds| :: ds[i] == 0
  }

  function FromRadix(ds: seq<nat>, radix: nat): nat {
    if ds == [] then 0 else FromRadix(ds[..|ds| - 1], radix) * radix + ds[|ds| - 1]
  }

  lemma DivideLess(v: nat, radix: nat)
    requires 2 <= radix && 0 < v
    ensures 0 <= v / radix < v && v == (v / radix) * radix + v % radix
    ensures v / radix == 0 ==> v % radix == v
  {
    var q := v / radix;
    assert v == q * radix + v % radix;
    assert q >= v ==> q * radix >= q * 2 by {
      if q >= v { MulMonotone(q, q, 2, radix); }
    }
  }

  function ToRadix(v: nat, radix: nat): (ds: seq<nat>)
    requires 2 <= radix
    ensures Numeral(ds, radix) && Canonical(ds)
  {
    if v == 0 then []
    else
      DivideLess(v, radix);
      ToRadix(v / radix, radix) + [v % radix]
  }

  lemma {:induction false} FromToRadix(v: nat, radix: nat)
    requires 2 <= radix
    ensures FromRadix(ToRadix(v, radix), radix) == v
  {
    if v != 0 {
      DivideLess(v, radix);
      FromToRadix(v / radix, radix);
      var ds := ToRadix(v, radix);
      assert ds[..|ds| - 1] == ToRadix(v / radix, radix);
    }
  }

  lemma {:induction false} DivModUnique(q: nat, r: nat, radix: nat)
    requires r < radix
    ensures (q * radix + r) / radix == q && (q * radix + r) % radix == r
  {
    var v := q * radix + r;
    assert v == (v / radix) * radix + v % radix;
    var d := v / radix - q;
    assert d * radix == r - v % radix;
    assert d == 0 by {
      assert d >= 1 ==> d * radix >= radix;
      assert d <= -1 ==> d * radix <= -1 * radix;
    }
  }

  lemma {:induction false} ToFromRadix(ds: seq<nat>, radix: nat)
    requires 2 <= radix && Numeral(ds, radix) && Canonical(ds)
    ensures ToRadix(FromRadix(ds, radix), radix) == ds
  {
    if ds != [] {
      var front, last := ds[..|ds| - 1], ds[|ds| - 1];
      ToFromRadix(front, radix);
      var v := FromRadix(front, radix);
      DivModUnique(v, last, radix);
      assert v * radix + last != 0 by {
        if front != [] {
          assert ToRadix(v, radix) != [];
          assert v * radix >= radix by { MulMonotone(1, v, radix, radix); }
        }
      }
      assert ds == front + [last];
    }
  }

  lemma {:induction false} FromRadixAppend(a: seq<nat>, b: seq<nat>, radix: nat)
    ensures FromRadix(a + b, radix) == FromRadix(a, radix) * Pow(radix, |b|) + FromRadix(b, radix)
  {
    if b == [] {
      assert a + b == a;
    } else {
      var front, last := b[..|b| - 1], b[|b| - 1];
      FromRadixAppend(a, front, radix);
      assert (a + b)[..|a + b| - 1] == a + front;
      Shift(FromRadix(a, radix), Pow(radix, |front|), FromRadix(front, radix), radix, last);
    }
  }

  lemma Shift(x: nat, p: nat, y: nat, radix: nat, last: nat)
    ensures (x * p + y) * radix + last == x * (radix * p) + (y * radix + last)
  {
    assert (x * p) * radix == x * (p * radix) == x * (radix * p);
  }

  lemma {:induction false} FromRadixBound(ds: seq<nat>, radix: nat)
    requires Numeral(ds, radix)
    ensures FromRadix(ds, radix) < Pow(radix, |ds|)
  {
    if ds != [] {
      FromRadixBound(ds[..|ds| - 1], radix);
      var v, p := FromRadix(ds[..|ds| - 1], radix), Pow(radix, |ds| - 1);
      MulMonotone(v + 1, p, radix, radix);
      assert (v + 1) * radix == v * radix + radix;
      assert p * radix == radix * p;
    }
  }

  lemma {:induction false} FromRadixZeros(zs: seq<nat>, ds: seq<nat>, radix: nat)
    requires AllZero(zs)
    ensures FromRadix(zs + ds, radix) == FromRadix(ds, radix)
  {
    FromRadixAppend(zs, ds, radix);
    FromRadixZero(zs, radix);
  }

  lemma {:induction false} FromRadixZero(zs: seq<nat>, radix: nat)
    requires AllZero(zs)
    ensures FromRadix(zs, radix) == 0
  {
    if zs != [] {
      FromRadixZero(zs[..|zs| - 1], radix);
    }
  }

  /** A fresh buffer is the number zero. */
  lemma ZeroDigits(ds: seq<nat>, radix: nat)
    requires 1 <= radix && forall i | 0 <= i < |ds| :: ds[i] == 0
    ensures Numeral(ds, radix) && AllZero(ds[..|ds|]) && FromRadix(ds, radix) == 0
  {
    hide FromRadix;
    FromRadixZero(ds, radix);
  }

  /** One inner loop of base58_encode or base58_decode: digits := digits * factor + addend, in place,
      least significant digit last. `length` digits may be non-zero on entry; the result says how
      many may be afterwards. The buffer has to be able to hold the new value. */
  method MultiplyAdd(digits: array<nat>, radix: nat, factor: nat, addend: nat, length: nat)
    returns (length': nat)
    requires 2 <= radix && length <= digits.Length
    requires Numeral(digits[..], radix) && AllZero(digits[..digits.Length - length])
    requires FromRadix(digits[..], radix) * factor + addend < Pow(radix, digits.Length)
    modifies digits
    ensures length' <= digits.Length
    ensures Numeral(digits[..], radix) && AllZero(digits[..digits.Length - length'])
    ensures FromRadix(digits[..], radix) == FromRadix(old(digits[..]), radix) * factor + addend
  {
    hide Carrying, FromRadix, Pow, Numeral, AllZero;
    var size := digits.Length;
    ghost var before := digits[..];
    var carry: nat, i: nat := addend, 0;
    CarryingStart(before, radix, factor, addend);
    while (carry != 0 || i < length) && i < size
      invariant i <= size && Carrying(before, digits[..], radix, factor, addend, carry, i)
      decreases size - i
    {
      ghost var now := digits[..];
      var at := size - 1 - i;
      CarryingStep(before, now, radix, factor, addend, carry, i);
      var quotient: nat, digit: nat := Carry(carry, factor, digits[at], radix);
      assert digits[at] == now[at];
      SetDigit(digits, at, digit);
      carry := quotient;
      i := i + 1;
    }
    CarriedOut(before, digits[..], radix, factor, addend, carry, i, length);
    assert carry == 0;  // the program's own assertion
    length' := i;
  }

  method SetDigit(digits: array<nat>, at: nat, digit: nat)
    requires at < digits.Length
    modifies digits
    ensures digits[..] == old(digits[..])[at := digit]
  {
    digits[at] := digit;
  }

  /** The digit arithmetic of one step. */
  method Carry(carry: nat, factor: nat, d: nat, radix: nat) returns (quotient: nat, digit: nat)
    requires 0 < radix
    ensures quotient == (carry + factor * d) / radix && digit == (carry + factor * d) % radix
  {
    MulMonotone(0, factor, 0, d);
    quotient, digit := (carry + factor * d) / radix, (carry + factor * d) % radix;
  }

  /** The loop invariant: the last `i` digits and the carry hold the new value of the last `i` digits,
      and the digits before them are untouched. */
  ghost predicate Carrying(before: seq<nat>, now: seq<nat>, radix: nat, factor: nat, addend: nat, carry: nat, i: nat) {
    && |now| == |before| && i <= |before|
    && Numeral(now, radix)
    && now[..|before| - i] == before[..|before| - i]
    && carry * Pow(radix, i) + FromRadix(now[|before| - i..], radix)
       == FromRadix(before[|before| - i..], radix) * factor + addend
  }

  lemma CarryingStart(before: seq<nat>, radix: nat, factor: nat, addend: nat)
    requires Numeral(before, radix)
    ensures Carrying(before, before, radix, factor, addend, addend, 0)
  {
    assert before[|before|..] == [];
    assert FromRadix([], radix) == 0;
  }

  lemma {:induction false} CarryingStep(before: seq<nat>, now: seq<nat>, radix: nat, factor: nat, addend: nat,
      carry: nat, i: nat)
    requires 2 <= radix && i < |before| && Carrying(before, now, radix, factor, addend, carry, i)
    ensures var at := |before| - 1 - i; var total: nat := carry + factor * now[at];
            var digit: nat := total % radix;
            Carrying(before, now[at := digit], radix, factor, addend, total / radix, i + 1)
  {
    hide FromRadix, Pow, Numeral;
    var at := |before| - 1 - i;
    var total: nat := carry + factor * now[at];
    DigitSet(before, now, at, total % radix);
    NumeralSet(now, at, total % radix, radix);
    StepValue(before[at], before[at + 1..], now[at + 1..], radix, factor, carry, addend);
  }

  lemma DigitSet(before: seq<nat>, now: seq<nat>, at: nat, digit: nat)
    requires |now| == |before| && at < |now| && now[..at + 1] == before[..at + 1]
    ensures var next := now[at := digit];
            && now[at] == before[at] && next[..at] == before[..at]
            && next[at..] == [digit] + now[at + 1..] && before[at..] == [before[at]] + before[at + 1..]
  {
    assert now[at] == now[..at + 1][at] == before[..at + 1][at] == before[at];
    assert now[at := digit][..at] == now[..at + 1][..at] == before[..at + 1][..at] == before[..at];
  }

  lemma NumeralSet(ds: seq<nat>, at: nat, digit: nat, radix: nat)
    requires at < |ds| && Numeral(ds, radix) && digit < radix
    ensures Numeral(ds[at := digit], radix)
  {
  }

  /** When the loop has stopped, nothing is left to carry and the whole buffer holds the new value. */
  lemma {:induction false} CarriedOut(before: seq<nat>, after: seq<nat>, radix: nat, factor: nat, addend: nat,
      carry: nat, i: nat, length: nat)
    requires 2 <= radix && Carrying(before, after, radix, factor, addend, carry, i)
    requires length <= |before| && AllZero(before[..|before| - length])
    requires i == |before| || (carry == 0 && length <= i)
    requires FromRadix(before, radix) * factor + addend < Pow(radix, |before|)
    ensures carry == 0 && FromRadix(after, radix) == FromRadix(before, radix) * factor + addend
    ensures Numeral(after, radix) && i <= |before| == |after| && AllZero(after[..|before| - i])
  {
    hide FromRadix, Pow, Numeral;
    var n := |before|;
    if i == n {
      assert after[n - i..] == after && before[n - i..] == before;
      NothingToCarry(carry, FromRadix(after, radix), Pow(radix, n));
    } else {
      assert 0 * Pow(radix, i) == 0;
      FewerZeros(before, n - length, n - i);
      LowPart(before, n - i, radix);
      LowPart(after, n - i, radix);
    }
  }

  lemma NothingToCarry(carry: nat, value: nat, p: nat)
    requires carry * p + value < p
    ensures carry == 0 && carry * p + value == value
  {
    if carry != 0 {
      MulMonotone(1, carry, p, p);
    }
  }

  lemma FewerZeros(ds: seq<nat>, m: nat, k: nat)
    requires k <= m <= |ds| && AllZero(ds[..m])
    ensures AllZero(ds[..k])
  {
    assert ds[..k] == ds[..m][..k];
  }

  /** Leading zeros do not count. */
  lemma LowPart(ds: seq<nat>, k: nat, radix: nat)
    requires k <= |ds| && AllZero(ds[..k])
    ensures FromRadix(ds, radix) == FromRadix(ds[k..], radix)
  {
    hide FromRadix;
    FromRadixZeros(ds[..k], ds[k..], radix);
    assert ds == ds[..k] + ds[k..];
  }

  /** The carry equation of one digit step. */
  lemma {:induction false} StepValue(d: nat, tailBefore: seq<nat>, tail: seq<nat>, radix: nat, factor: nat,
      carry: nat, addend: nat)
    requires 2 <= radix && |tail| == |tailBefore|
    requires carry * Pow(radix, |tail|) + FromRadix(tail, radix) == FromRadix(tailBefore, radix) * factor + addend
    ensures var total := carry + factor * d;
            (total / radix) * Pow(radix, |tail| + 1) + FromRadix([total % radix] + tail, radix)
            == FromRadix([d] + tailBefore, radix) * factor + addend
  {
    var total, p := carry + factor * d, Pow(radix, |tail|);
    FromRadixAppend([d], tailBefore, radix);
    FromRadixAppend([total % radix], tail, radix);
    SingleDigit(d, radix);
    SingleDigit(total % radix, radix);
    StepArithmetic(d, radix, factor, carry, total / radix, total % radix, p, FromRadix(tail, radix),
        FromRadix(tailBefore, radix), addend);
  }

  lemma StepArithmetic(d: nat, radix: nat, factor: nat, carry: nat, q: nat, r: nat, p: nat, t: nat, tBefore: nat,
      addend: nat)
    requires carry + factor * d == q * radix + r
    requires carry * p + t == tBefore * factor + addend
    ensures q * (radix * p) + (r * p + t) == (d * p + tBefore) * factor + addend
  {
    assert (carry + factor * d) * p == carry * p + (factor * d) * p;
    assert (q * radix + r) * p == (q * radix) * p + r * p;
    assert (q * radix) * p == q * (radix * p);
    assert (factor * d) * p == (d * p) * factor;
    assert (d * p + tBefore) * factor == (d * p) * factor + tBefore * factor;
  }

  lemma {:induction false} SingleDigit(d: nat, radix: nat)
    ensures FromRadix([d], radix) == d
  {
    assert [d][..0] == [];
    assert FromRadix([], radix) == 0;
  }
}
