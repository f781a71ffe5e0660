/** Exponentiation of the virtual machine (___sunum/vm.cpp:543-554), which halves the exponent and keeps
    the intermediate result in an `int`. */
module VmExp {
  import opened Strings
  import opened Power

  const WORDS: int := 0x1_0000_0000_0000_0000
  const INTS: int := 0x1_0000_0000
  const INT_LIMIT: int := 0x8000_0000

  type Word = n: int | 0 <= n < WORDS

  /** The conversion to `int` wraps around. */
  function ToInt(v: Word): int {
    var low := v % INTS;
    if low < INT_LIMIT then low else low - INTS
  }

  /** `None` where the product of two ints overflows. */
  function Exp(v1: Word, v2: Word): Option<Word>
    decreases v2
  {
    if v2 == 0 then Some(1)
    else
      match Exp(v1, v2 / 2)
      case None => None
      case Some(r) =>
        var temp := ToInt(r);
        if v2 % 2 == 0 then (if temp * temp < INT_LIMIT then Some(temp * temp) else None)
        else Some((v1 * (temp % WORDS)) % WORDS * (temp % WORDS) % WORDS)
  }

  /** The largest power that an exponent of this parity allows. */
  function Limit(v2: nat): int {
    if v2 != 0 && v2 % 2 == 0 then INT_LIMIT else WORDS
  }

  lemma PowHalf(b: nat, e: nat)
    requires e > 0
    ensures Pow(b, e) == (if e % 2 == 0 then 1 else b) * (Pow(b, e / 2) * Pow(b, e / 2))
  {
    var h := e / 2;
    PowAdd(b, h, h);
    if e % 2 == 1 {
      assert Pow(b, e) == b * Pow(b, h + h);
    }
  }

  lemma SquareMonotone(a: nat, b: nat)
    requires a <= b
    ensures a * a <= b * b
  {
    MulMonotone(a, b, a, b);
  }

  /** The half power fits an `int`, except in one case, where it wraps around twice without harm. */
  lemma HalfFits(b: nat, h: nat)
    requires b * (Pow(b, h) * Pow(b, h)) < WORDS
    ensures Pow(b, h) < INT_LIMIT || (b == 2 && h == 31)
  {
    var p := Pow(b, h);
    if p >= INT_LIMIT {
      SquareMonotone(INT_LIMIT, p);
      MulMonotone(b, b, INT_LIMIT * INT_LIMIT, p * p);
      assert b < 4;
      SmallBases(b, h);
    }
  }

  lemma SmallBases(b: nat, h: nat)
    requires b < 4 && Pow(b, h) >= INT_LIMIT && b * (Pow(b, h) * Pow(b, h)) < WORDS
    ensures b == 2 && h == 31
  {
    if b <= 1 {
      PowOfBit(b, h);
    } else if b == 2 {
      TwoPowers(h);
    } else {
      NoThreePower(h);
    }
  }

  lemma {:induction false} PowOfBit(b: nat, h: nat)
    requires b <= 1
    ensures Pow(b, h) <= 1
  {
    if h > 0 {
      PowOfBit(b, h - 1);
      assert b * Pow(b, h - 1) <= 1;
    }
  }

  lemma {:induction false} PowGrows(b: nat, m: nat, n: nat)
    requires b >= 1 && m <= n
    ensures Pow(b, m) <= Pow(b, n)
    decreases n - m
  {
    if m < n {
      PowGrows(b, m, n - 1);
      PowPositive(b, n - 1);
      MulMonotone(1, b, Pow(b, n - 1), Pow(b, n - 1));
    }
  }

  lemma TwoTo31()
    ensures Pow(2, 31) == INT_LIMIT
  {
    assert Pow(2, 4) == 16;
    PowAdd(2, 4, 4);
    PowAdd(2, 8, 8);
    assert Pow(2, 16) == 0x1_0000;
    PowAdd(2, 15, 16);
    assert 2 * Pow(2, 15) == Pow(2, 16);
  }

  lemma TwoBelow(h: nat)
    requires h < 31
    ensures Pow(2, h) < INT_LIMIT
  {
    TwoTo31();
    PowGrows(2, h, 30);
    assert Pow(2, 31) == 2 * Pow(2, 30);
  }

  lemma TwoAbove(h: nat)
    requires h > 31
    ensures Pow(2, h) >= INTS
  {
    TwoTo31();
    PowGrows(2, 32, h);
    assert Pow(2, 32) == 2 * Pow(2, 31);
  }

  lemma TwoPowers(h: nat)
    requires Pow(2, h) >= INT_LIMIT && 2 * (Pow(2, h) * Pow(2, h)) < WORDS
    ensures h == 31
  {
    if h < 31 {
      TwoBelow(h);
    }
    if h > 31 {
      TwoAbove(h);
      SquareMonotone(INTS, Pow(2, h));
    }
  }

  lemma NoThreePower(h: nat)
    requires Pow(3, h) >= INT_LIMIT
    ensures 3 * (Pow(3, h) * Pow(3, h)) >= WORDS
  {
    assert Pow(3, 5) == 243;
    PowAdd(3, 5, 5);
    PowAdd(3, 10, 10);
    assert Pow(3, 20) == 3486784401 && Pow(3, 20) == 3 * Pow(3, 19);
    if h < 20 {
      PowGrows(3, h, 19);
    }
    PowGrows(3, 20, h);
    SquareMonotone(3486784401, Pow(3, h));
  }

  lemma ToIntSmall(v: Word)
    ensures v < INT_LIMIT ==> ToInt(v) == v
    ensures v == INT_LIMIT ==> ToInt(v) == 0 - INT_LIMIT
  {
  }

  lemma OddProduct(b: Word, p: nat)
    requires b * (p * p) < WORDS && p < INT_LIMIT
    ensures (b * (p % WORDS)) % WORDS * (p % WORDS) % WORDS == b * (p * p)
  {
    assert p % WORDS == p;
    if p == 0 {
      assert b * (p * p) == 0;
    } else {
      MulMonotone(b * p, b * p, 1, p);
      assert b * p * p == b * (p * p);
      assert b * p <= b * p * p;
      assert (b * p) % WORDS == b * p;
    }
  }

  lemma SixtyThird()
    ensures (2 * ((0 - INT_LIMIT) % WORDS)) % WORDS * ((0 - INT_LIMIT) % WORDS) % WORDS == 2 * (INT_LIMIT * INT_LIMIT)
  {
  }

  /** The result is the power exactly when that fits: 31 bits for a positive even exponent, 64 bits
      otherwise. */
  lemma {:induction false} ExpIsExactIff(b: Word, e: Word)
    ensures Exp(b, e) == Some(Pow(b, e)) <==> Pow(b, e) < Limit(e)
    decreases e
  {
    hide Pow, ToInt;
    if e == 0 {
      PowNone(b);
    } else {
      var h := e / 2;
      var p := Pow(b, h);
      PowHalf(b, e);
      if Pow(b, e) < Limit(e) {
        HalfIsExact(b, e);
        ExpIsExactIff(b, h);
        ToIntSmall(p);
        if e % 2 == 1 {
          if p < INT_LIMIT {
            OddProduct(b, p);
          } else {
            SixtyThird();
          }
        }
      } else {
        EvenIsSmall(b, e);
      }
    }
  }

  lemma PowNone(b: nat)
    ensures Pow(b, 0) == 1
  {
  }

  /** If the power fits, so does the half power, and it is small enough to be an int or just too large. */
  lemma HalfIsExact(b: Word, e: Word)
    requires e > 0 && Pow(b, e) < Limit(e)
    requires Pow(b, e) == (if e % 2 == 0 then 1 else b) * (Pow(b, e / 2) * Pow(b, e / 2))
    ensures Pow(b, e / 2) < Limit(e / 2)
    ensures Pow(b, e / 2) < INT_LIMIT || (e % 2 == 1 && b == 2 && Pow(b, e / 2) == INT_LIMIT)
  {
    hide Pow;
    var h := e / 2;
    var p := Pow(b, h);
    if e % 2 == 0 {
      assert p * p < INT_LIMIT;
      if p >= INT_LIMIT {
        SquareMonotone(INT_LIMIT, p);
      }
    } else {
      HalfFits(b, h);
      if b == 2 && h == 31 {
        TwoTo31();
      }
    }
  }

  /** An even exponent never yields more than an int. */
  lemma EvenIsSmall(b: Word, e: Word)
    requires e > 0
    ensures Exp(b, e).Some? ==> Exp(b, e).value < Limit(e)
  {
    hide Pow;
  }
}
