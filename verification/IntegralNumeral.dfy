/** Strings packed into unsigned integers as numerals: the class template IntegralValueTMS. */
module IntegralNumeral {
  import opened Common
  import opened ConstexprMath

  /** A signed char: bytes from 128 up are negative. */
  type Char = x: int | -128 <= x <= 127
  type Text = seq<Char>

  datatype Error = InvalidInput

  /** A template instance IntegralValueTMS<T, begin, end, isShortInputOk, throwOnInvalid>; T has `size` bytes
      and std::size_t has 64 bits. */
  datatype Config = Config(size: nat, begin: nat, end: nat, shortOk: bool, throws: bool) {
    predicate Valid() {
      size > 0 && begin < end < 65536
    }

    function Base(): (b: nat)
      requires Valid()
      ensures b > 0
    {
      end - begin
    }

    /** The number of values of T. */
    function Range(): (r: nat)
      ensures r > 0
    {
      Pow2(8 * size)
    }

    /** An entry of the table Pows, computed in std::size_t. */
    function Power(p: nat): nat
      requires Valid()
    {
      PowEntry(Base(), size, Pow2(64) - 1, p)
    }

    function Sentinel(): nat {
      if shortOk then Range() - 1 else 0
    }

    /** The largest digit a signed character can stand for. */
    function TopDigit(): nat
      requires Valid()
    {
      if begin > 127 then 0 else if end <= 128 then end - begin - 1 else 127 - begin
    }
  }

  predicate IsDigit(c: Config, ch: Char)
    requires c.Valid()
  {
    0 <= ch - c.begin < c.Base()
  }

  predicate Digits(c: Config, s: Text)
    requires c.Valid()
  {
    forall i :: 0 <= i < |s| ==> IsDigit(c, s[i])
  }

  function Digit(c: Config, ch: Char): (d: nat)
    requires c.Valid() && IsDigit(c, ch)
    ensures d < c.Base()
  {
    ch - c.begin
  }

  /** A digit times its power. */
  function Term(d: nat, power: nat): nat {
    d * power
  }

  /** isValid(). */
  predicate Accepted(c: Config, s: Text)
    requires c.Valid()
  {
    |s| <= c.size && (|s| == c.size || c.shortOk) && Digits(c, s)
  }

  /** What the string denotes: a numeral in base `Base`, most significant digit first. */
  function Numeral(c: Config, s: Text): nat
    requires c.Valid() && Digits(c, s)
  {
    if s == [] then 0
    else Term(Digit(c, s[0]), Pow(c.Base(), |s| - 1)) + Numeral(c, s[1..])
  }

  /** What `init` accumulates: the products in std::size_t, the sum in T. */
  function Accumulated(c: Config, s: Text): (r: nat)
    requires c.Valid() && Digits(c, s)
    ensures r < c.Range()
  {
    if s == [] then 0
    else (Accumulated(c, s[1..]) + Term(Digit(c, s[0]), c.Power(|s| - 1)) % Pow2(64)) % c.Range()
  }

  // ---- When the computed value is the numeral ----

  /** base^0 + base^1 + ... + base^(n-1). */
  function Repunit(base: nat, n: nat): nat {
    if n == 0 then 0 else Pow(base, n - 1) + Repunit(base, n - 1)
  }

  /** The condition on the template arguments: the largest product fits std::size_t, and the largest
      numeral fits T. */
  predicate NoWrap(c: Config)
    requires c.Valid()
  {
    && c.TopDigit() * Pow(c.Base(), c.size - 1) < Pow2(64)
    && c.TopDigit() * Repunit(c.Base(), c.size) < c.Range()
  }

  predicate Exact(c: Config, s: Text)
    requires c.Valid() && Digits(c, s)
  {
    Accumulated(c, s) == Numeral(c, s)
  }

  lemma ModBelow(x: nat, m: nat)
    requires m > 0
    ensures x % m <= x
    ensures x % m == x <==> x < m
  {
    if x < m {
      RemainderUnique(x, m, 0, x);
    } else {
      assert x % m < m;
    }
  }

  /** Wrapping only loses: the computed value never exceeds the numeral. */
  lemma {:induction false} AtMostNumeral(c: Config, s: Text)
    requires c.Valid() && Digits(c, s)
    ensures Accumulated(c, s) <= Numeral(c, s)
  {
    if s != [] {
      var d, p := Digit(c, s[0]), Pow(c.Base(), |s| - 1);
      AtMostNumeral(c, s[1..]);
      MulMonotone(d, d, c.Power(|s| - 1), p);
      var product := Term(d, c.Power(|s| - 1));
      ModBelow(product, Pow2(64));
      ModBelow(Accumulated(c, s[1..]) + product % Pow2(64), c.Range());
    }
  }

  predicate ProductsFit(c: Config, s: Text)
    requires c.Valid() && Digits(c, s)
  {
    s == [] || (Term(Digit(c, s[0]), Pow(c.Base(), |s| - 1)) < Pow2(64) && ProductsFit(c, s[1..]))
  }

  /** The term of the first digit, and what it does to the three recursions. */
  lemma HeadTerm(c: Config, s: Text) returns (product: nat)
    requires c.Valid() && Digits(c, s) && 0 < |s| <= c.size
    requires Pow(c.Base(), c.size - 1) < Pow2(64)
    ensures Accumulated(c, s) == (Accumulated(c, s[1..]) + product % Pow2(64)) % c.Range()
    ensures Numeral(c, s) == product + Numeral(c, s[1..])
    ensures ProductsFit(c, s) <==> product < Pow2(64) && ProductsFit(c, s[1..])
  {
    product := Term(Digit(c, s[0]), Pow(c.Base(), |s| - 1));
    assert c.Power(|s| - 1) == Pow(c.Base(), |s| - 1);
  }

  /** When the powers fit std::size_t: the value is the numeral if and only if no product leaves std::size_t and
      the numeral fits T. */
  lemma {:induction false} ExactWithPowers(c: Config, s: Text)
    requires c.Valid() && Digits(c, s) && |s| <= c.size
    requires Pow(c.Base(), c.size - 1) < Pow2(64)
    ensures Exact(c, s) <==> ProductsFit(c, s) && Numeral(c, s) < c.Range()
  {
    if s != [] {
      ExactWithPowers(c, s[1..]);
      AtMostNumeral(c, s[1..]);
      var product := HeadTerm(c, s);
      ExactStep(Accumulated(c, s[1..]), Numeral(c, s[1..]), product, Pow2(64), c.Range());
    }
  }

  /** One step: nothing is lost exactly when nothing was before, the product fits, and the sum does. */
  lemma ExactStep(acc: nat, num: nat, product: nat, m: nat, range: nat)
    requires acc <= num && m > 0 && range > 0
    ensures (acc + product % m) % range == product + num <==> acc == num && product < m && product + num < range
  {
    ModBelow(product, m);
    ModBelow(acc + product % m, range);
    assert (acc + product % m) % range < range;
  }

  lemma DigitAtMostTop(c: Config, ch: Char)
    requires c.Valid() && IsDigit(c, ch)
    ensures ch - c.begin <= c.TopDigit()
  {
  }

  lemma Distributes(d: nat, p: nat, r: nat)
    ensures d * (p + r) == Term(d, p) + d * r
  {
  }

  lemma AddTerm(x: nat, d: nat, p: nat, r: nat)
    requires x <= d
    ensures x * p + d * r <= d * (p + r)
  {
    MulMonotone(x, d, p, p);
    assert d * (p + r) == d * p + d * r;
  }

  lemma {:induction false} NumeralAtMostTop(c: Config, s: Text)
    requires c.Valid() && Digits(c, s)
    ensures Numeral(c, s) <= c.TopDigit() * Repunit(c.Base(), |s|)
  {
    if s != [] {
      NumeralAtMostTop(c, s[1..]);
      DigitAtMostTop(c, s[0]);
      AddTerm(s[0] - c.begin, c.TopDigit(), Pow(c.Base(), |s| - 1), Repunit(c.Base(), |s| - 1));
    }
  }

  lemma {:induction false} RepunitMonotone(base: nat, a: nat, b: nat)
    requires a <= b
    ensures Repunit(base, a) <= Repunit(base, b)
  {
    if a < b {
      RepunitMonotone(base, a, b - 1);
    }
  }

  lemma {:induction false} ProductsFitBelow(c: Config, s: Text)
    requires c.Valid() && Digits(c, s) && |s| <= c.size
    requires c.TopDigit() * Pow(c.Base(), c.size - 1) < Pow2(64)
    ensures ProductsFit(c, s)
  {
    if s != [] {
      PowMonotone(c.Base(), |s| - 1, c.size - 1);
      MulMonotone(s[0] - c.begin, c.TopDigit(), Pow(c.Base(), |s| - 1), Pow(c.Base(), c.size - 1));
      ProductsFitBelow(c, s[1..]);
    }
  }

  /** With no digit but zero, nothing is ever added. */
  lemma {:induction false} ZerosGiveZero(c: Config, s: Text)
    requires c.Valid() && (forall i :: 0 <= i < |s| ==> s[i] == c.begin)
    ensures Digits(c, s) && Numeral(c, s) == 0 && Accumulated(c, s) == 0
  {
    if s != [] {
      ZerosGiveZero(c, s[1..]);
      assert 0 * Pow(c.Base(), |s| - 1) == 0 && 0 * c.Power(|s| - 1) == 0;
      ModBelow(0, Pow2(64));
      ModBelow(0, c.Range());
    }
  }

  lemma NoWrapIsEnough(c: Config, s: Text)
    requires c.Valid() && NoWrap(c) && Digits(c, s) && |s| <= c.size
    ensures Exact(c, s) && Numeral(c, s) < c.Range()
  {
    NumeralAtMostTop(c, s);
    RepunitMonotone(c.Base(), |s|, c.size);
    MulMonotone(c.TopDigit(), c.TopDigit(), Repunit(c.Base(), |s|), Repunit(c.Base(), c.size));
    if c.TopDigit() == 0 {
      forall i | 0 <= i < |s|
        ensures s[i] == c.begin
      {
        DigitAtMostTop(c, s[i]);
      }
      ZerosGiveZero(c, s);
    } else {
      MulMonotone(1, c.TopDigit(), Pow(c.Base(), c.size - 1), Pow(c.Base(), c.size - 1));
      ProductsFitBelow(c, s);
      ExactWithPowers(c, s);
    }
  }

  /** The string of `n` largest digits. */
  function TopText(c: Config, n: nat): (s: Text)
    requires c.Valid() && c.begin <= 127
    ensures |s| == n && Digits(c, s)
  {
    seq(n, i => c.begin + c.TopDigit())
  }

  lemma {:induction false} TopNumeral(c: Config, n: nat)
    requires c.Valid() && c.begin <= 127
    ensures Numeral(c, TopText(c, n)) == c.TopDigit() * Repunit(c.Base(), n)
    ensures n > 0 && ProductsFit(c, TopText(c, n)) ==> c.TopDigit() * Pow(c.Base(), n - 1) < Pow2(64)
  {
    var d := c.TopDigit();
    if n == 0 {
      assert d * 0 == 0;
    } else {
      TopNumeral(c, n - 1);
      assert TopText(c, n)[1..] == TopText(c, n - 1);
      assert Digit(c, TopText(c, n)[0]) == d;
      Distributes(d, Pow(c.Base(), n - 1), Repunit(c.Base(), n - 1));
    }
  }

  /** When the largest power does not fit std::size_t, the table is all zero and so is every value. */
  lemma {:induction false} ZeroTableGivesZero(c: Config, s: Text)
    requires c.Valid() && Digits(c, s) && Pow(c.Base(), c.size - 1) >= Pow2(64)
    ensures Accumulated(c, s) == 0
  {
    if s != [] {
      ZeroTableGivesZero(c, s[1..]);
      assert (s[0] - c.begin) * 0 == 0;
      ModBelow(0, Pow2(64));
      ModBelow(0, c.Range());
    }
  }

  lemma {:induction false} OnlyZerosGiveZero(c: Config, s: Text)
    requires c.Valid() && Digits(c, s) && Numeral(c, s) == 0
    ensures forall i :: 0 <= i < |s| ==> s[i] == c.begin
  {
    if s != [] {
      PowMonotone(c.Base(), 0, |s| - 1);
      MulMonotone(s[0] - c.begin, s[0] - c.begin, 1, Pow(c.Base(), |s| - 1));
      OnlyZerosGiveZero(c, s[1..]);
      assert forall i :: 0 < i < |s| ==> s[i] == s[1..][i - 1];
    }
  }

  /** String by string, for every instance: the value is the numeral if and only if no product leaves std::size_t
      and the numeral fits T; where already the largest power leaves std::size_t, only for the strings of zeros. */
  lemma ExactIff(c: Config, s: Text)
    requires c.Valid() && Digits(c, s) && |s| <= c.size
    ensures Exact(c, s) <==> if Pow(c.Base(), c.size - 1) < Pow2(64) then ProductsFit(c, s) && Numeral(c, s) < c.Range()
                             else forall i :: 0 <= i < |s| ==> s[i] == c.begin
  {
    if Pow(c.Base(), c.size - 1) < Pow2(64) {
      ExactWithPowers(c, s);
    } else {
      ZeroTableGivesZero(c, s);
      if Numeral(c, s) == 0 {
        OnlyZerosGiveZero(c, s);
      } else if forall i :: 0 <= i < |s| ==> s[i] == c.begin {
        ZerosGiveZero(c, s);
      }
    }
  }

  /** Every accepted string is read exactly if and only if the template arguments satisfy NoWrap. */
  lemma ExactForAllIff(c: Config)
    requires c.Valid()
    ensures (forall s :: Accepted(c, s) ==> Exact(c, s)) <==> NoWrap(c)
  {
    if NoWrap(c) {
      forall s | Accepted(c, s)
        ensures Exact(c, s)
      {
        NoWrapIsEnough(c, s);
      }
    } else {
      assert c.TopDigit() > 0 by {
        assert 0 * Pow(c.Base(), c.size - 1) == 0 && 0 * Repunit(c.Base(), c.size) == 0;
      }
      TopIsWrong(c);
      assert Accepted(c, TopText(c, c.size));
    }
  }

  lemma TopIsWrong(c: Config)
    requires c.Valid() && !NoWrap(c) && c.begin <= 127 && c.TopDigit() > 0
    ensures !Exact(c, TopText(c, c.size))
  {
    var s := TopText(c, c.size);
    TopNumeral(c, c.size);
    if Pow(c.Base(), c.size - 1) >= Pow2(64) {
      ZeroTableGivesZero(c, s);
      MulMonotone(1, c.TopDigit(), 1, Repunit(c.Base(), c.size));
    } else {
      ExactWithPowers(c, s);
    }
  }

  // ---- Instances that never wrap, and those that do ----

  lemma {:induction false} RepunitBound(d: nat, base: nat, n: nat)
    requires d < base
    ensures d * Repunit(base, n) < Pow(base, n)
  {
    if n > 0 {
      RepunitBound(d, base, n - 1);
      BoundStep(d, base, Pow(base, n - 1), Repunit(base, n - 1));
    }
  }

  lemma BoundStep(d: nat, base: nat, p: nat, r: nat)
    requires d < base && d * r < p
    ensures d * (p + r) < p * base
  {
    Distributes(d, p, r);
    MulMonotone(p, p, d + 1, base);
    Distributes(p, d, 1);
  }

  lemma {:induction false} PowOf256(n: nat)
    ensures Pow(256, n) == Pow2(8 * n)
  {
    if n > 0 {
      PowOf256(n - 1);
      assert Pow2(8) == 256;
      Pow2Add(8 * (n - 1), 8);
    }
  }

  /** Up to eight bytes and base 256, nothing ever wraps. */
  lemma NarrowNeverWraps(c: Config)
    requires c.Valid() && c.Base() <= 256 && c.size <= 8
    ensures NoWrap(c)
  {
    var d, b := c.TopDigit(), c.Base();
    RepunitBound(d, b, c.size);
    PowBaseMonotone(b, 256, c.size);
    PowOf256(c.size);
    MulMonotone(d, b, Pow(b, c.size - 1), Pow(b, c.size - 1));
    Pow2Monotone(8 * c.size, 64);
    TopBelowNext(d, b, c.size);
  }

  lemma TopBelowNext(d: nat, b: nat, n: nat)
    requires d < b && n > 0
    ensures d * Pow(b, n - 1) < Pow(b, n)
  {
    PowPositive(b, n - 1);
    MulMonotone(d + 1, b, Pow(b, n - 1), Pow(b, n - 1));
    assert (d + 1) * Pow(b, n - 1) == d * Pow(b, n - 1) + Pow(b, n - 1);
  }

  /** So there the value is the numeral, and lies below Base^length. */
  lemma NarrowIsExact(c: Config, s: Text)
    requires c.Valid() && c.Base() <= 256 && c.size <= 8 && Accepted(c, s)
    ensures Accumulated(c, s) == Numeral(c, s) < Pow(c.Base(), |s|) <= c.Range()
  {
    NarrowNeverWraps(c);
    NoWrapIsEnough(c, s);
    NumeralAtMostTop(c, s);
    RepunitBound(c.TopDigit(), c.Base(), |s|);
    PowMonotone(c.Base(), |s|, c.size);
    PowBaseMonotone(c.Base(), 256, c.size);
    PowOf256(c.size);
  }

  /** The 128-bit instances over ASCII characters are exact up to base 16 only: beyond it a digit times a power
      leaves std::size_t before it is widened. */
  lemma WideIsExactIff(c: Config)
    requires c.Valid() && c.size == 16 && c.end <= 128
    ensures (forall s :: Accepted(c, s) ==> Exact(c, s)) <==> c.Base() <= 16
  {
    ExactForAllIff(c);
    if c.Base() <= 16 {
      SmallBaseFits(c);
    } else {
      LargeBaseWraps(c);
    }
  }

  lemma SmallBaseFits(c: Config)
    requires c.Valid() && c.size == 16 && c.Base() <= 16
    ensures NoWrap(c)
  {
    var d, b := c.TopDigit(), c.Base();
    RepunitBound(d, b, 16);
    TopBelowNext(d, b, 16);
    PowBaseMonotone(b, 16, 16);
    SixteenToSixteen();
    Pow2Monotone(64, 128);
  }

  lemma LargeBaseWraps(c: Config)
    requires c.Valid() && c.size == 16 && c.end <= 128 && c.Base() > 16
    ensures !NoWrap(c)
  {
    var d, b := c.TopDigit(), c.Base();
    PowBaseMonotone(17, b, 15);
    MulMonotone(16, d, Pow(17, 15), Pow(b, 15));
    SeventeenToFifteen();
  }

  lemma {:induction false} PowAdd(base: nat, a: nat, b: nat)
    ensures Pow(base, a + b) == Pow(base, a) * Pow(base, b)
  {
    if b > 0 {
      PowAdd(base, a, b - 1);
      MulAssociates(Pow(base, a), Pow(base, b - 1), base);
      assert a + b - 1 == a + (b - 1);
    }
  }

  lemma MulAssociates(x: nat, y: nat, z: nat)
    ensures x * (y * z) == x * y * z
  {
  }

  lemma SixtyFourBits()
    ensures Pow2(64) == 0x1_0000_0000_0000_0000
  {
    assert Pow2(4) == 16;
    Pow2Add(4, 4);
    Pow2Add(8, 8);
    Pow2Add(16, 16);
    Pow2Add(32, 32);
  }

  lemma SixteenToSixteen()
    ensures Pow(16, 16) == Pow2(64)
  {
    SixtyFourBits();
    assert Pow(16, 4) == 65536;
    PowAdd(16, 4, 4);
    PowAdd(16, 8, 8);
  }

  lemma SeventeenToFifteen()
    ensures 16 * Pow(17, 15) >= Pow2(64)
  {
    SixtyFourBits();
    assert Pow(17, 5) == 1419857;
    PowAdd(17, 5, 5);
    PowAdd(17, 5, 10);
  }

  // ---- Order and injectivity ----

  /** Lexicographic order on strings of equal length. */
  predicate LexLess(s: Text, t: Text)
    requires |s| == |t|
  {
    s != [] && (s[0] < t[0] || (s[0] == t[0] && LexLess(s[1..], t[1..])))
  }

  lemma {:induction false} NumeralBound(c: Config, s: Text)
    requires c.Valid() && Digits(c, s)
    ensures Numeral(c, s) < Pow(c.Base(), |s|)
  {
    NumeralAtMostTop(c, s);
    RepunitBound(c.TopDigit(), c.Base(), |s|);
  }

  /** Numerals of equal length are ordered exactly as the strings are, lexicographically. */
  lemma {:induction false} OrderIsLexicographic(c: Config, s: Text, t: Text)
    requires c.Valid() && Digits(c, s) && Digits(c, t) && |s| == |t|
    ensures Numeral(c, s) < Numeral(c, t) <==> LexLess(s, t)
    ensures Numeral(c, s) == Numeral(c, t) <==> s == t
  {
    if s != [] {
      OrderIsLexicographic(c, s[1..], t[1..]);
      NumeralBound(c, s[1..]);
      NumeralBound(c, t[1..]);
      var p := Pow(c.Base(), |s| - 1);
      HeadDecides(s[0] - c.begin, t[0] - c.begin, Numeral(c, s[1..]), Numeral(c, t[1..]), p);
      HeadDecides(t[0] - c.begin, s[0] - c.begin, Numeral(c, t[1..]), Numeral(c, s[1..]), p);
      assert s == [s[0]] + s[1..] && t == [t[0]] + t[1..];
    }
  }

  lemma HeadDecides(a: nat, b: nat, x: nat, y: nat, p: nat)
    requires x < p && y < p
    ensures a < b ==> a * p + x < b * p + y
  {
    if a < b {
      MulMonotone(a + 1, b, p, p);
      assert (a + 1) * p == a * p + p;
    }
  }

  /** The string with zero digits in front up to length `n`. */
  function Padded(c: Config, s: Text, n: nat): (r: Text)
    requires c.Valid() && c.begin <= 127 && Digits(c, s) && |s| <= n
    ensures |r| == n && Digits(c, r)
    decreases n - |s|
  {
    if |s| == n then s else Padded(c, [c.begin] + s, n)
  }

  lemma {:induction false} PaddedNumeral(c: Config, s: Text, n: nat)
    requires c.Valid() && c.begin <= 127 && Digits(c, s) && |s| <= n
    ensures Numeral(c, Padded(c, s, n)) == Numeral(c, s)
    decreases n - |s|
  {
    if |s| < n {
      PaddedNumeral(c, [c.begin] + s, n);
      assert ([c.begin] + s)[1..] == s;
      assert 0 * Pow(c.Base(), |s|) == 0;
    }
  }

  /** Two accepted strings of an instance that never wraps get the same value exactly when they differ by
      leading zero digits alone; so equal lengths never collide, and shorter ones can. */
  lemma SameValueIff(c: Config, s: Text, t: Text)
    requires c.Valid() && c.begin <= 127 && NoWrap(c) && Accepted(c, s) && Accepted(c, t)
    ensures Accumulated(c, s) == Accumulated(c, t) <==> Padded(c, s, c.size) == Padded(c, t, c.size)
    ensures |s| == |t| ==> (Accumulated(c, s) < Accumulated(c, t) <==> LexLess(s, t))
  {
    NoWrapIsEnough(c, s);
    NoWrapIsEnough(c, t);
    PaddedNumeral(c, s, c.size);
    PaddedNumeral(c, t, c.size);
    OrderIsLexicographic(c, Padded(c, s, c.size), Padded(c, t, c.size));
    if |s| == |t| {
      OrderIsLexicographic(c, s, t);
    }
  }

  // ---- The invalid value ----

  /** What the constructor does with a string: the value it holds, or the exception. */
  function Built(c: Config, s: Text): Result<nat, Error>
    requires c.Valid()
  {
    var v := if Accepted(c, s) then Accumulated(c, s) else c.Sentinel();
    if v == c.Sentinel() && c.throws then Err(InvalidInput) else Ok(v)
  }

  lemma {:induction false} ZeroNumeralIff(c: Config, s: Text)
    requires c.Valid() && Digits(c, s)
    ensures Numeral(c, s) == 0 <==> forall i :: 0 <= i < |s| ==> s[i] == c.begin
  {
    if s != [] {
      ZeroNumeralIff(c, s[1..]);
      PowPositive(c.Base(), |s| - 1);
      HeadDecides(0, s[0] - c.begin, 0, Numeral(c, s[1..]), Pow(c.Base(), |s| - 1)) by {
        NumeralBound(c, s[1..]);
      }
      assert forall i :: 0 < i < |s| ==> s[i] == s[1..][i - 1];
      assert forall i :: 0 <= i < |s| - 1 ==> s[1..][i] == s[i + 1];
      assert 0 * Pow(c.Base(), |s| - 1) == 0;
    }
  }

  lemma {:induction false} Repunit256(n: nat)
    ensures 255 * Repunit(256, n) == Pow(256, n) - 1
  {
    if n > 0 {
      Repunit256(n - 1);
    }
  }

  lemma {:induction false} RepunitBaseMonotone(a: nat, b: nat, n: nat)
    requires a <= b
    ensures Repunit(a, n) <= Repunit(b, n)
  {
    if n > 0 {
      RepunitBaseMonotone(a, b, n - 1);
      PowBaseMonotone(a, b, n - 1);
    }
  }

  lemma BelowLargest(c: Config, s: Text)
    requires c.Valid() && c.Base() <= 256 && Accepted(c, s)
    ensures Numeral(c, s) < c.Range() - 1
  {
    var d, r := c.TopDigit(), Repunit(c.Base(), |s|);
    NumeralAtMostTop(c, s);
    RepunitMonotone(c.Base(), |s|, c.size);
    RepunitBaseMonotone(c.Base(), 256, c.size);
    Repunit256(c.size);
    PowOf256(c.size);
    MulMonotone(d, 127, r, Repunit(256, c.size));
    assert Repunit(256, c.size) > 0;
  }

  /** The accepted strings: no longer than T has bytes, as long unless short ones are allowed, of characters from
      `begin` up to `end`. */
  lemma AcceptedIff(c: Config, s: Text)
    requires c.Valid()
    ensures Accepted(c, s) <==>
      (if c.shortOk then |s| <= c.size else |s| == c.size) && forall i :: 0 <= i < |s| ==> c.begin <= s[i] < c.end
  {
    assert Digits(c, s) <==> forall i :: 0 <= i < |s| ==> c.begin <= s[i] < c.end by {
      assert forall i :: 0 <= i < |s| ==> (IsDigit(c, s[i]) <==> c.begin <= s[i] < c.end);
    }
  }

  /** With short input allowed, a value that is the numeral is never the invalid one; without, it is exactly
      for the string of zero digits. So, with exceptions on, the constructor takes exactly the strings of admitted
      length over the admitted characters, except, when short input is not allowed, the one of `begin` characters
      alone, which isValid accepts. */
  lemma RefusedIff(c: Config, s: Text)
    requires c.Valid() && c.Base() <= 256 && NoWrap(c) && c.throws
    ensures Built(c, s).Ok? <==>
      && (if c.shortOk then |s| <= c.size else |s| == c.size) && (forall i :: 0 <= i < |s| ==> c.begin <= s[i] < c.end)
      && (c.shortOk || exists i :: 0 <= i < |s| && s[i] != c.begin)
    ensures Built(c, s).Ok? ==> Digits(c, s) && Built(c, s).value == Numeral(c, s)
  {
    AcceptedIff(c, s);
    if Accepted(c, s) {
      NoWrapIsEnough(c, s);
      BelowLargest(c, s);
      ZeroNumeralIff(c, s);
    }
  }

  // ---- The class IntegralValueTMS ----

  class TMS {
    const c: Config
    const pows: seq<nat>
    var value: nat

    ghost predicate Valid()
      reads this
    {
      && c.Valid() && value < c.Range()
      && |pows| == c.size && forall p :: 0 <= p < c.size ==> pows[p] == c.Power(p)
    }

    /** The table of powers is built first, and the value starts at zero. */
    constructor (c: Config)
      requires c.Valid()
      ensures Valid() && this.c == c && value == 0
    {
      BaseFits();
      var table := IntPows(c.Base(), c.size, Pow2(64) - 1);
      this.c, pows, value := c, table[..], 0;
    }

    /** isValid(std::string_view). */
    method IsValid(s: Text) returns (b: bool)
      requires Valid()
      ensures b <==> (if c.shortOk then |s| <= c.size else |s| == c.size) && forall i :: 0 <= i < |s| ==> c.begin <= s[i] < c.end
      ensures b <==> Accepted(c, s)
    {
      AcceptedIff(c, s);
      if |s| > c.size || (|s| < c.size && !c.shortOk) {
        return false;
      }
      for p := 0 to |s|
        invariant forall i :: 0 <= i < p ==> IsDigit(c, s[i])
      {
        var v := s[p] - c.begin;
        if v < 0 || v >= c.Base() {
          return false;
        }
      }
      return true;
    }

    /** init(): from the last character to the first. */
    method Init(s: Text)
      requires Valid() && value == 0
      modifies this
      ensures Valid()
      ensures value == if Accepted(c, s) then Accumulated(c, s) else c.Sentinel()
    {
      var ok := IsValid(s);
      if !ok {
        value := c.Sentinel();
        return;
      }
      assert s[|s|..] == [];
      for p := 0 to |s|
        invariant Valid() && value == Accumulated(c, s[|s| - p..])
      {
        var v := s[|s| - p - 1] - c.begin;
        assert s[|s| - p - 1..][1..] == s[|s| - p..];
        value := (value + Term(v, pows[p]) % Pow2(64)) % c.Range();
      }
      assert s[0..] == s;
    }

    /** The constructor from a string: init, then the exception. */
    method Construct(s: Text) returns (r: Result<nat, Error>)
      requires Valid() && value == 0
      modifies this
      ensures Valid() && r == Built(c, s) && (r.Ok? ==> r.value == value)
    {
      Init(s);
      if value == c.Sentinel() && c.throws {
        return Err(InvalidInput);
      }
      return Ok(value);
    }
  }

  lemma BaseFits()
    ensures 65536 <= Pow2(64) - 1
  {
    assert Pow2(8) == 256;
    Pow2Add(8, 8);
    Pow2Monotone(16, 64);
  }
}
