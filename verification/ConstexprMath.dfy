/** Powers, sums, bit counts and the alphanumeric tables that the string packers rest on. Unsigned
    integers of a given width are naturals below the corresponding power of two. */
module ConstexprMath {
  import opened Common

  // ---- Powers ----

  function Pow(base: nat, exp: nat): nat {
    if exp == 0 then 1 else Pow(base, exp - 1) * base
  }

  lemma {:induction false} PowPositive(base: nat, exp: nat)
    requires base > 0
    ensures Pow(base, exp) > 0
  {
    if exp > 0 {
      PowPositive(base, exp - 1);
      assert Pow(base, exp - 1) * base > 0;
    }
  }

  lemma {:induction false} PowMonotone(base: nat, a: nat, b: nat)
    requires base > 0 && a <= b
    ensures Pow(base, a) <= Pow(base, b)
  {
    if a < b {
      PowMonotone(base, a, b - 1);
      assert Pow(base, b - 1) * base >= Pow(base, b - 1);
    }
  }

  function Pow2(exp: nat): (r: nat)
    ensures r > 0
  {
    if exp == 0 then 1 else 2 * Pow2(exp - 1)
  }

  lemma {:induction false} Pow2Monotone(a: nat, b: nat)
    requires a <= b
    ensures Pow2(a) <= Pow2(b)
    ensures a < b ==> 2 * Pow2(a) <= Pow2(b)
  {
    if a < b {
      Pow2Monotone(a, b - 1);
    }
  }

  lemma {:induction false} Pow2Add(a: nat, b: nat)
    ensures Pow2(a + b) == Pow2(a) * Pow2(b)
  {
    if b > 0 {
      Pow2Add(a, b - 1);
      assert Pow2(a) * (2 * Pow2(b - 1)) == 2 * (Pow2(a) * Pow2(b - 1));
    }
  }

  lemma {:induction false} PowBaseMonotone(a: nat, b: nat, exp: nat)
    requires a <= b
    ensures Pow(a, exp) <= Pow(b, exp)
  {
    if exp > 0 {
      PowBaseMonotone(a, b, exp - 1);
      MulMonotone(Pow(a, exp - 1), Pow(b, exp - 1), a, b);
    }
  }

  lemma MulMonotone(a: nat, b: nat, c: nat, d: nat)
    requires a <= b && c <= d
    ensures a * c <= b * d
  {
    assert a * c <= b * c;
    assert b * c <= b * d;
  }

  /** ConstevalIntPows: entry `p` of the table of the powers base^0 .. base^(size-1) in a type with the
      given maximum. */
  function PowEntry(base: nat, size: nat, max: nat, p: nat): nat
    requires size > 0
  {
    if Pow(base, size - 1) <= max then Pow(base, p) else 0
  }

  /** The constructor's loop: it holds every power exactly when the largest fits the type and zeroes
      otherwise, and no multiplication it carries out leaves the type. */
  method IntPows(base: nat, size: nat, max: nat) returns (values: array<nat>)
    requires size > 0 && 0 < base <= max
    ensures fresh(values) && values.Length == size
    ensures forall p :: 0 <= p < size ==> values[p] == PowEntry(base, size, max, p)
  {
    values := new nat[size](i => 0);
    values[0] := 1;
    var pos := 1;
    while pos < size
      invariant 1 <= pos <= size
      invariant forall p {:trigger values[p]} :: 0 <= p < pos ==> values[p] == Pow(base, p)
      invariant Pow(base, pos - 1) <= max
    {
      var previous := values[pos - 1];
      NextPower(max, base, pos, previous);
      if max / base < previous {
        PowMonotone(base, pos, size - 1);
        values := new nat[size](i => 0);
        return;
      }
      values[pos] := previous * base;
      pos := pos + 1;
    }
  }

  /** One turn of the loop: the guard holds exactly when the product would leave the type. */
  lemma NextPower(max: nat, base: nat, pos: nat, previous: nat)
    requires base > 0 && pos > 0 && previous == Pow(base, pos - 1)
    ensures Pow(base, pos) == previous * base
    ensures max / base < previous <==> max < Pow(base, pos)
  {
    DivisionGuard(max, base, previous);
  }

  /** The guard `max / base < v` is the exact overflow test for `v * base`. */
  lemma DivisionGuard(max: nat, base: nat, v: nat)
    requires base > 0
    ensures max / base < v <==> max < v * base
  {
    var q := max / base;
    assert max == base * q + max % base;
    if q < v {
      MulMonotone(q + 1, v, base, base);
      assert (q + 1) * base == base * q + base;
    } else {
      MulMonotone(v, q, base, base);
      assert q * base == base * q;
    }
  }

  /** ConstevalIntSums: the multiples 0, base, 2*base, ... below `limit`; its `_invalidValues` has the
      maximum in its first place and zeros after it. */
  method IntSums(base: nat, limit: nat, max: nat) returns (values: array<nat>)
    requires 0 < base <= limit && base <= max
    ensures fresh(values) && values.Length == limit / base
    ensures if (limit / base - 1) * base <= max then forall p :: 0 <= p < values.Length ==> values[p] == p * base
            else values[0] == max && forall p :: 0 < p < values.Length ==> values[p] == 0
    ensures limit <= max ==> forall p :: 0 <= p < values.Length ==> values[p] == p * base
  {
    var size := limit / base;
    DivisionGuard(limit, base, 1);
    assert size >= 1;
    QuotientBound(limit, base);
    values := new nat[size](i => 0);
    var pos := 1;
    while pos < size
      invariant 1 <= pos <= size
      invariant forall p :: 0 <= p < pos ==> values[p] == p * base <= max
    {
      assert (pos - 1) * base + base == pos * base;
      if max - base < values[pos - 1] {
        MulMonotone(pos, size - 1, base, base);
        forall i | 0 <= i < size {
          values[i] := if i == 0 then max else 0;
        }
        return;
      }
      values[pos] := values[pos - 1] + base;
      pos := pos + 1;
    }
  }

  lemma QuotientBound(limit: nat, base: nat)
    requires 0 < base <= limit
    ensures limit / base >= 1 && (limit / base - 1) * base + base <= limit
  {
    var q := limit / base;
    assert limit == base * q + limit % base;
    assert (q - 1) * base + base == base * q;
  }

  // ---- Bits ----

  /** v >> k. */
  function ShiftRight(v: nat, k: nat): nat {
    if k == 0 then v else ShiftRight(v / 2, k - 1)
  }

  lemma {:induction false} ShiftRightAdds(v: nat, a: nat, b: nat)
    ensures ShiftRight(v, a + b) == ShiftRight(ShiftRight(v, a), b)
  {
    if a > 0 {
      ShiftRightAdds(v / 2, a - 1, b);
    }
  }

  /** Shifting drops the low bits and keeps the rest. */
  lemma {:induction false} ShiftRightDrops(low: nat, high: nat, k: nat)
    requires low < Pow2(k)
    ensures ShiftRight(low + Pow2(k) * high, k) == high
  {
    if k > 0 {
      assert Pow2(k) * high == 2 * (Pow2(k - 1) * high);
      ShiftRightDrops(low / 2, high, k - 1);
    }
  }

  /** isBitSet. */
  predicate Bit(x: nat, i: nat) {
    if i == 0 then x % 2 == 1 else Bit(x / 2, i - 1)
  }

  function BitOr(a: nat, b: nat): nat
    decreases a + b
  {
    if a == 0 then b else if b == 0 then a
    else 2 * BitOr(a / 2, b / 2) + (if a % 2 == 1 || b % 2 == 1 then 1 else 0)
  }

  function BitAnd(a: nat, b: nat): nat
    decreases a + b
  {
    if a == 0 || b == 0 then 0
    else 2 * BitAnd(a / 2, b / 2) + (if a % 2 == 1 && b % 2 == 1 then 1 else 0)
  }

  /** The two operations act bit by bit. */
  lemma {:induction false} BitwiseMeaning(a: nat, b: nat, i: nat)
    ensures Bit(BitOr(a, b), i) <==> Bit(a, i) || Bit(b, i)
    ensures Bit(BitAnd(a, b), i) <==> Bit(a, i) && Bit(b, i)
  {
    ZeroHasNoBits(i);
    if i > 0 && a != 0 && b != 0 {
      BitwiseMeaning(a / 2, b / 2, i - 1);
    }
  }

  lemma {:induction false} ZeroHasNoBits(i: nat)
    ensures !Bit(0, i)
  {
    if i > 0 {
      ZeroHasNoBits(i - 1);
    }
  }

  lemma OrEven(a: nat, h: nat)
    ensures BitOr(a, 2 * h) == 2 * BitOr(a / 2, h) + a % 2
  {
  }

  lemma TwiceProduct(c: nat, p: nat)
    ensures c * (2 * p) == 2 * (c * p)
  {
  }

  /** Or with a field above everything already present is addition. */
  lemma {:induction false} OrDisjoint(a: nat, c: nat, k: nat)
    requires a < Pow2(k)
    ensures BitOr(a, c * Pow2(k)) == a + c * Pow2(k)
  {
    if k > 0 {
      var h := c * Pow2(k - 1);
      TwiceProduct(c, Pow2(k - 1));
      OrDisjoint(a / 2, c, k - 1);
      OrEven(a, h);
      assert a == 2 * (a / 2) + a % 2;
    }
  }

  /** And with k ones is the remainder modulo 2^k. */
  lemma {:induction false} AndMask(x: nat, k: nat)
    ensures BitAnd(x, Pow2(k) - 1) == x % Pow2(k)
  {
    if k > 0 {
      AndMask(x / 2, k - 1);
      assert Pow2(k) - 1 == 2 * (Pow2(k - 1) - 1) + 1;
      HalveRemainder(x, Pow2(k - 1));
    }
  }

  lemma HalveRemainder(x: nat, m: nat)
    requires m > 0
    ensures x % (2 * m) == 2 * (x / 2 % m) + x % 2
  {
    var q := x / 2 / m;
    assert x / 2 == m * q + x / 2 % m;
    assert x == 2 * (x / 2) + x % 2;
    assert x == (2 * m) * q + (2 * (x / 2 % m) + x % 2);
    RemainderUnique(x, 2 * m, q, 2 * (x / 2 % m) + x % 2);
  }

  /** bitNumber: scanning a bitset of `maxBits` bits from the top for the first one; the bitset keeps the
      low bits of `diff`. With no bit among them the scan never ends, so it is not called then. */
  method BitNumber(maxBits: nat, diff: nat) returns (n: nat)
    requires diff % Pow2(maxBits) > 0
    ensures 1 <= n <= maxBits
    ensures var low := diff % Pow2(maxBits); low < Pow2(n) && forall k :: 0 <= k < n ==> Pow2(k) <= low
    ensures diff < Pow2(maxBits) ==> diff < Pow2(n) && forall k :: 0 <= k < n ==> Pow2(k) <= diff
  {
    var bs := diff % Pow2(maxBits);
    if diff < Pow2(maxBits) {
      RemainderUnique(diff, Pow2(maxBits), 0, diff);
    }
    assert maxBits > 0;
    var i := maxBits - 1;
    while !Bit(bs, i)
      invariant 0 <= i < maxBits && bs < Pow2(i + 1)
      decreases i
    {
      ClearTopBit(bs, i);
      assert i > 0;
      i := i - 1;
    }
    SetTopBit(bs, i);
    forall k | 0 <= k < i + 1
      ensures Pow2(k) <= bs
    {
      Pow2Monotone(k, i);
    }
    n := i + 1;
  }

  lemma {:induction false} ClearTopBit(x: nat, i: nat)
    requires x < Pow2(i + 1) && !Bit(x, i)
    ensures x < Pow2(i)
  {
    if i > 0 {
      assert Pow2(i + 1) == 2 * Pow2(i) && Pow2(i) == 2 * Pow2(i - 1);
      ClearTopBit(x / 2, i - 1);
    }
  }

  lemma {:induction false} SetTopBit(x: nat, i: nat)
    requires Bit(x, i)
    ensures Pow2(i) <= x
  {
    if i > 0 {
      SetTopBit(x / 2, i - 1);
    }
  }

  /** getOneElemenMask: setting the lowest `bits` bits one by one gives 2^bits - 1. */
  method LowMask(bits: nat) returns (mask: nat)
    ensures mask == Pow2(bits) - 1
  {
    mask := 0;
    for p := 0 to bits
      invariant mask + 1 == Pow2(p)
    {
      OrDisjoint(mask, 1, p);
      mask := BitOr(mask, Pow2(p));  // setBit(mask, p)
    }
  }

  // ---- The alphanumeric map ----

  const DIGITS := "0123456789"
  const UPPER_A_M := "ABCDEFGHIJKLM"
  const UPPER_N_Z := "NOPQRSTUVWXYZ"
  const LOWER_A_M := "abcdefghijklm"
  const LOWER_N_Z := "nopqrstuvwxyz"

  /** AlphaNumericCharset. */
  const CHARSET := DIGITS + UPPER_A_M + UPPER_N_Z + "-" + LOWER_A_M + LOWER_N_Z

  const INVALID: nat := 128

  /** The code of an ASCII character, as the map's constructor assigns it. */
  function Translate(p: nat): nat {
    if '0' as nat <= p <= '9' as nat then p - '0' as nat + 1
    else if 'A' as nat <= p <= 'Z' as nat then p - 'A' as nat + 11
    else if p == '-' as nat then 37
    else if 'a' as nat <= p <= 'z' as nat then p - 'a' as nat + 38
    else INVALID
  }

  predicate InCharset(p: nat) {
    '0' as nat <= p <= '9' as nat || 'A' as nat <= p <= 'Z' as nat || p == '-' as nat || 'a' as nat <= p <= 'z' as nat
  }

  /** The character of a code; code 0 stands for no character. */
  function ReverseTranslate(code: nat): nat {
    if code == 0 then 0
    else if code <= 10 then '0' as nat + code - 1
    else if code <= 36 then 'A' as nat + code - 11
    else if code == 37 then '-' as nat
    else if code <= 63 then 'a' as nat + code - 38
    else INVALID
  }

  /** Codes 1 to 63 and the characters of the set correspond one to one, in the order of the set; no
      character has code 0. */
  lemma CodesAreCharsetPositions(p: nat)
    ensures InCharset(p) <==> Translate(p) != INVALID
    ensures InCharset(p) ==> 1 <= Translate(p) <= |CHARSET| && CHARSET[Translate(p) - 1] as nat == p
    ensures InCharset(p) ==> ReverseTranslate(Translate(p)) == p
    ensures 1 <= p <= |CHARSET| ==> InCharset(ReverseTranslate(p)) && Translate(ReverseTranslate(p)) == p
  {
    if InCharset(p) {
      CharsetAt(Translate(p) - 1);
    }
  }

  lemma DigitsAt(k: nat)
    requires k < 10
    ensures |DIGITS| == 10 && DIGITS[k] as nat == '0' as nat + k
  {
  }

  lemma UpperAt(k: nat)
    requires k < 13
    ensures |UPPER_A_M| == 13 && UPPER_A_M[k] as nat == 'A' as nat + k
    ensures |UPPER_N_Z| == 13 && UPPER_N_Z[k] as nat == 'N' as nat + k
  {
  }

  lemma LowerAt(k: nat)
    requires k < 13
    ensures |LOWER_A_M| == 13 && LOWER_A_M[k] as nat == 'a' as nat + k
    ensures |LOWER_N_Z| == 13 && LOWER_N_Z[k] as nat == 'n' as nat + k
  {
  }

  /** Where each run of the set begins. */
  lemma CharsetRuns(k: nat)
    requires k < 63
    ensures |CHARSET| == 63
    ensures CHARSET[k] == if k < 10 then DIGITS[k] else if k < 23 then UPPER_A_M[k - 10] else if k < 36 then UPPER_N_Z[k - 23]
                          else if k < 37 then '-' else if k < 50 then LOWER_A_M[k - 37] else LOWER_N_Z[k - 50]
  {
  }

  lemma CharsetAt(k: nat)
    requires k < 63
    ensures |CHARSET| == 63 && CHARSET[k] as nat == ReverseTranslate(k + 1)
  {
    CharsetRuns(k);
    if k < 10 {
      DigitsAt(k);
    } else if k < 23 {
      UpperAt(k - 10);
    } else if k < 36 {
      UpperAt(k - 23);
    } else if 37 <= k < 50 {
      LowerAt(k - 37);
    } else if 50 <= k {
      LowerAt(k - 50);
    }
  }

  /** The constructor's loop over all ASCII characters fills both tables. */
  method AlphaNumericTables() returns (forward: array<nat>, backward: array<nat>)
    ensures fresh(forward) && fresh(backward) && forward.Length == 128 && backward.Length == 64
    ensures forall p :: 0 <= p < 128 ==> forward[p] == Translate(p)
    ensures forall c :: 0 <= c < 64 ==> backward[c] == ReverseTranslate(c)
  {
    forward := new nat[128](i => 0);
    backward := new nat[64](i => 0);
    for p := 0 to 128
      invariant forall k :: 0 <= k < p ==> forward[k] == Translate(k)
      invariant forall c :: 0 <= c < 64 ==> backward[c] == if c > 0 && ReverseTranslate(c) < p then ReverseTranslate(c) else 0
    {
      if '0' as nat <= p <= '9' as nat {
        var index := p - '0' as nat + 1;
        forward[p] := index;
        backward[index] := p;
      } else if 'A' as nat <= p <= 'Z' as nat {
        var index := p - 'A' as nat + 11;
        forward[p] := index;
        backward[index] := p;
      } else if p == '-' as nat {
        var index := 37;
        forward[p] := index;
        backward[index] := p;
      } else if 'a' as nat <= p <= 'z' as nat {
        var index := p - 'a' as nat + 38;
        forward[p] := index;
        backward[index] := p;
      } else {
        forward[p] := INVALID;
      }
    }
  }
}
