/** Strings packed into unsigned integers by bit fields: the class template IntegralValueTBit. Characters are
    bytes; ASCII is 0 to 127. */
module IntegralValue {
  import opened Common
  import opened ConstexprMath

  type Text = seq<nat>

  datatype Error = TooLong | OutOfRange

  // ---- Bit fields ----

  /** An entry of the table Shifts: where a field begins. */
  function Shift(bits: nat, p: nat): nat {
    if p == 0 then 0 else Shift(bits, p - 1) + bits
  }

  lemma {:induction false} ShiftIsMultiple(bits: nat, p: nat)
    ensures Shift(bits, p) == bits * p
  {
    if p > 0 {
      ShiftIsMultiple(bits, p - 1);
      assert bits * p == bits * (p - 1) + bits;
    }
  }

  /** The codes laid out as fields of `bits` bits, the first one lowest. */
  function Pack(codes: seq<nat>, bits: nat): nat {
    if codes == [] then 0 else codes[0] + Pow2(bits) * Pack(codes[1..], bits)
  }

  predicate Fit(codes: seq<nat>, bits: nat) {
    forall i :: 0 <= i < |codes| ==> codes[i] < Pow2(bits)
  }

  /** Shift right by `p` fields and mask one field. */
  function Field(v: nat, bits: nat, p: nat): nat
  {
    ShiftRight(v, Shift(bits, p)) % Pow2(bits)
  }

  lemma {:induction false} PackBound(codes: seq<nat>, bits: nat)
    requires Fit(codes, bits)
    ensures Pack(codes, bits) < Pow2(Shift(bits, |codes|))
  {
    if codes != [] {
      PackBound(codes[1..], bits);
      FieldsAdd(bits, |codes|);
      Below(Pow2(bits), Pow2(Shift(bits, |codes| - 1)), codes[0], Pack(codes[1..], bits));
    }
  }

  /** One field and n - 1 fields make n. */
  lemma FieldsAdd(bits: nat, n: nat)
    requires n > 0
    ensures Pow2(Shift(bits, n)) == Pow2(bits) * Pow2(Shift(bits, n - 1))
  {
    Pow2Add(bits, Shift(bits, n - 1));
  }

  lemma Below(q: nat, rest: nat, h: nat, tail: nat)
    requires h < q && tail < rest
    ensures h + q * tail < q * rest
  {
    MulMonotone(q, q, tail + 1, rest);
    assert q * (tail + 1) == q * tail + q;
  }

  /** Appending a code adds it in the next field up. */
  lemma {:induction false} PackAppend(codes: seq<nat>, c: nat, bits: nat)
    ensures Pack(codes + [c], bits) == Pack(codes, bits) + c * Pow2(Shift(bits, |codes|))
  {
    if codes == [] {
      assert (codes + [c])[1..] == [];
      assert Pack([], bits) == 0 && Pow2(Shift(bits, 0)) == 1;
      assert Pow2(bits) * 0 == 0;
    } else {
      assert (codes + [c])[1..] == codes[1..] + [c];
      PackAppend(codes[1..], c, bits);
      FieldsAdd(bits, |codes|);
      Distribute(Pow2(bits), Pack(codes[1..], bits), c, Pow2(Shift(bits, |codes| - 1)));
    }
  }

  /** Shift and mask recover each code, and find zero above the last one. */
  lemma {:induction false} FieldOfPack(codes: seq<nat>, bits: nat, p: nat)
    requires Fit(codes, bits)
    ensures Field(Pack(codes, bits), bits, p) == if p < |codes| then codes[p] else 0
  {
    if codes == [] {
      ShiftRightDrops(0, 0, Shift(bits, p));
      RemainderUnique(0, Pow2(bits), 0, 0);
    } else if p == 0 {
      RemainderUnique(Pack(codes, bits), Pow2(bits), Pack(codes[1..], bits), codes[0]);
    } else {
      FieldOfPack(codes[1..], bits, p - 1);
      ShiftRightDrops(codes[0], Pack(codes[1..], bits), bits);
      ShiftRightAdds(Pack(codes, bits), bits, Shift(bits, p - 1));
    }
  }

  lemma Distribute(q: nat, a: nat, c: nat, rest: nat)
    ensures q * (a + c * rest) == q * a + c * (q * rest)
  {
    assert q * (c * rest) == c * (q * rest);
  }

  /** Packing loses nothing but trailing zero codes. */
  lemma PackInjective(xs: seq<nat>, ys: seq<nat>, bits: nat)
    requires Fit(xs, bits) && Fit(ys, bits) && Pack(xs, bits) == Pack(ys, bits)
    ensures forall p: nat :: (if p < |xs| then xs[p] else 0) == (if p < |ys| then ys[p] else 0)
  {
    forall p: nat
      ensures (if p < |xs| then xs[p] else 0) == (if p < |ys| then ys[p] else 0)
    {
      FieldOfPack(xs, bits, p);
      FieldOfPack(ys, bits, p);
    }
  }

  /** The translation maps: none, or the alphanumeric one. */
  datatype Map = NoTranslation | AlphaNumeric

  /** The code of a byte. Without translation a byte from 128 up is a negative char, which the comparison with
      the bounds sees as a huge std::size_t. */
  function CodeOf(m: Map, ch: nat): nat {
    if m.AlphaNumeric? then Translate(ch) else if ch < 128 then ch else ch + (0x1_0000_0000_0000_0000 - 256)
  }

  function CharOf(m: Map, code: nat): nat {
    if m.AlphaNumeric? then ReverseTranslate(code) else code
  }

  function Codes(m: Map, s: Text): (r: seq<nat>)
    ensures |r| == |s|
  {
    seq(|s|, i requires 0 <= i < |s| => CodeOf(m, s[i]))
  }

  /** A template instance IntegralValueTBit<T, 0, base, map>: T has `maxBits` bits. */
  datatype Config = Config(maxBits: nat, base: nat, m: Map, bits: nat) {
    /** `bits` is what bitNumber gives for base - 1, at most one byte, and one field fits; codes come from
        signed characters, and the alphanumeric map is used with its 64 codes. */
    ghost predicate Valid() {
      && 2 <= base <= 256 && 1 <= bits <= 8 && bits <= maxBits
      && base - 1 < Pow2(bits) && (forall k :: 0 <= k < bits ==> Pow2(k) <= base - 1)
      && (m.AlphaNumeric? ==> base == 64)
    }

    function MaxElements(): nat
      requires bits > 0
    {
      maxBits / bits
    }
  }

  /** Exactly what `init` accepts: short enough, and every character's code in range. */
  predicate Accepted(c: Config, s: Text)
    requires c.bits > 0
  {
    |s| <= c.MaxElements() && forall i :: 0 <= i < |s| ==> CodeOf(c.m, s[i]) < c.base
  }

  predicate Ascii(s: Text) {
    forall i :: 0 <= i < |s| ==> s[i] < 128
  }

  /** Bytes that the map can look up: the alphanumeric table has 128 entries. */
  predicate Readable(c: Config, s: Text) {
    (c.m.AlphaNumeric? ==> Ascii(s)) && forall i :: 0 <= i < |s| ==> s[i] < 256
  }

  function InvalidValue(c: Config): nat
  {
    Pow2(c.maxBits) - 1
  }

  /** The string up to its first NUL, as c_str() reads it. */
  function UntilNul(s: Text): Text {
    if s == [] || s[0] == 0 then [] else [s[0]] + UntilNul(s[1..])
  }

  /** toArray(): every field translated back. */
  function ToChars(c: Config, v: nat): (chars: Text)
    requires c.bits > 0
    ensures |chars| == c.MaxElements()
    ensures forall p :: 0 <= p < |chars| ==> chars[p] == CharOf(c.m, Field(v, c.bits, p))
  {
    seq(c.MaxElements(), p requires 0 <= p < c.MaxElements() => CharOf(c.m, Field(v, c.bits, p)))
  }

  /** toString(): cut at the first NUL. */
  function ToText(c: Config, v: nat): Text
    requires c.bits > 0
  {
    UntilNul(ToChars(c, v))
  }

  lemma FieldsFit(c: Config, n: nat)
    requires c.Valid() && n <= c.MaxElements()
    ensures Shift(c.bits, n) <= c.maxBits
  {
    ShiftIsMultiple(c.bits, n);
    QuotientFits(c.maxBits, c.bits, n);
  }

  lemma QuotientFits(m: nat, b: nat, n: nat)
    requires b > 0 && n <= m / b
    ensures b * n <= m
  {
    MulMonotone(b, b, n, m / b);
    assert m == b * (m / b) + m % b;
  }

  lemma AcceptedFits(c: Config, s: Text)
    requires c.Valid() && Accepted(c, s)
    ensures Fit(Codes(c.m, s), c.bits) && Pack(Codes(c.m, s), c.bits) < Pow2(Shift(c.bits, |s|)) <= Pow2(c.maxBits)
  {
    PackBound(Codes(c.m, s), c.bits);
    FieldsFit(c, |s|);
    Pow2Monotone(Shift(c.bits, |s|), c.maxBits);
  }

  /** Unpacking a packed string returns it up to its first NUL character. */
  lemma RoundTrip(c: Config, s: Text)
    requires c.Valid() && Accepted(c, s) && Readable(c, s)
    ensures ToText(c, Pack(Codes(c.m, s), c.bits)) == UntilNul(s)
  {
    AcceptedFits(c, s);
    var codes, n := Codes(c.m, s), c.MaxElements();
    var chars := ToChars(c, Pack(codes, c.bits));
    forall p | 0 <= p < n
      ensures chars[p] == if p < |s| then s[p] else 0
    {
      FieldOfPack(codes, c.bits, p);
      if p < |s| && c.m.AlphaNumeric? {
        CodesAreCharsetPositions(s[p]);
      }
    }
    PaddingIsCut(s, chars);
  }

  lemma {:induction false} PaddingIsCut(s: Text, chars: Text)
    requires |s| <= |chars| && forall p :: 0 <= p < |chars| ==> chars[p] == if p < |s| then s[p] else 0
    ensures UntilNul(chars) == UntilNul(s)
    decreases |chars|
  {
    if s != [] {
      forall p | 0 <= p < |chars| - 1
        ensures chars[1..][p] == if p < |s| - 1 then s[1..][p] else 0
      {
        assert chars[1..][p] == chars[p + 1];
      }
      PaddingIsCut(s[1..], chars[1..]);
    }
  }

  lemma {:induction false} UntilNulWhole(s: Text)
    ensures UntilNul(s) == s <==> 0 !in s
  {
    if s != [] {
      UntilNulWhole(s[1..]);
      assert s == [s[0]] + s[1..];
      if s[0] != 0 && UntilNul(s) == s {
        assert UntilNul(s)[1..] == UntilNul(s[1..]);
      }
    }
  }

  /** So the round trip returns exactly the string if and only if it holds no NUL character. */
  lemma RoundTripExactIff(c: Config, s: Text)
    requires c.Valid() && Accepted(c, s) && Readable(c, s)
    ensures ToText(c, Pack(Codes(c.m, s), c.bits)) == s <==> 0 !in s
  {
    RoundTrip(c, s);
    UntilNulWhole(s);
  }

  predicate AllOnes(c: Config, s: Text) {
    forall i :: 0 <= i < |s| ==> CodeOf(c.m, s[i]) == Pow2(c.bits) - 1
  }

  /** A packed value is mistaken for the invalid one exactly when the fields fill the type, none is
      missing, and every one is all ones. */
  lemma SentinelCollisionIff(c: Config, s: Text)
    requires c.Valid() && Accepted(c, s)
    ensures Pack(Codes(c.m, s), c.bits) == InvalidValue(c)
            <==> Shift(c.bits, |s|) == c.maxBits && AllOnes(c, s)
  {
    AcceptedFits(c, s);
    FieldsFit(c, |s|);
    var codes := Codes(c.m, s);
    LargestIff(codes, c.bits, c.maxBits);
    assert forall i :: 0 <= i < |s| ==> codes[i] == CodeOf(c.m, s[i]);
  }

  lemma LargestIff(codes: seq<nat>, bits: nat, maxBits: nat)
    requires Fit(codes, bits) && Shift(bits, |codes|) <= maxBits
    ensures Pack(codes, bits) == Pow2(maxBits) - 1
            <==> Shift(bits, |codes|) == maxBits && forall i :: 0 <= i < |codes| ==> codes[i] == Pow2(bits) - 1
  {
    var n := Shift(bits, |codes|);
    AllOnesIff(codes, bits);
    PackBound(codes, bits);
    Pow2Monotone(n, maxBits);
  }

  lemma {:induction false} AllOnesIff(codes: seq<nat>, bits: nat)
    requires Fit(codes, bits)
    ensures Pack(codes, bits) == Pow2(Shift(bits, |codes|)) - 1 <==> forall i :: 0 <= i < |codes| ==> codes[i] == Pow2(bits) - 1
  {
    if codes != [] {
      AllOnesIff(codes[1..], bits);
      PackBound(codes[1..], bits);
      FieldsAdd(bits, |codes|);
      TopIff(Pow2(bits), codes[0], Pack(codes[1..], bits), Pow2(Shift(bits, |codes| - 1)));
      assert forall i :: 0 < i < |codes| ==> codes[i] == codes[1..][i - 1];
      assert forall i :: 0 <= i < |codes| - 1 ==> codes[1..][i] == codes[i + 1];
    }
  }

  lemma TopIff(q: nat, h: nat, tail: nat, rest: nat)
    requires h < q && tail < rest
    ensures h + q * tail == q * rest - 1 <==> h == q - 1 && tail == rest - 1
  {
    assert q * (rest - 1) == q * rest - q;
    if tail < rest - 1 {
      MulMonotone(q, q, tail + 1, rest - 1);
      assert q * (tail + 1) == q * tail + q;
    }
  }

  // ---- The alphanumeric instance: 128 bits, 64 codes of 6 bits ----

  const ALPHA := Config(128, 64, AlphaNumeric, 6)

  /** Every string over the character set of at most 21 characters is accepted, nothing else is; it is
      reported valid, and unpacking returns it, leading and trailing '0' included. */
  lemma AlphaNumericRoundTrip(s: Text)
    requires Ascii(s)
    ensures ALPHA.Valid()
    ensures Accepted(ALPHA, s) <==> |s| <= 21 && forall i :: 0 <= i < |s| ==> InCharset(s[i])
    ensures Accepted(ALPHA, s) ==> Pack(Codes(AlphaNumeric, s), 6) != InvalidValue(ALPHA)
    ensures Accepted(ALPHA, s) ==> ToText(ALPHA, Pack(Codes(AlphaNumeric, s), 6)) == s
  {
    AlphaIsValid();
    forall i | 0 <= i < |s|
      ensures Translate(s[i]) < 64 <==> InCharset(s[i])
    {
      CodesAreCharsetPositions(s[i]);
    }
    if Accepted(ALPHA, s) {
      NeverInvalid(ALPHA, s);
      RoundTripExactIff(ALPHA, s);
    }
  }

  /** Fields of six bits cannot fill 128 bits. */
  lemma NeverInvalid(c: Config, s: Text)
    requires c.Valid() && Accepted(c, s) && c.maxBits == 128 && c.bits == 6
    ensures Pack(Codes(c.m, s), c.bits) != InvalidValue(c)
  {
    SentinelCollisionIff(c, s);
    ShiftIsMultiple(c.bits, |s|);
  }

  lemma AlphaIsValid()
    ensures ALPHA.Valid() && ALPHA.MaxElements() == 21
  {
    assert Pow2(1) == 2 && Pow2(2) == 4 && Pow2(3) == 8 && Pow2(4) == 16 && Pow2(5) == 32 && Pow2(6) == 64;
  }

  /** So no two strings over the set pack to the same number. */
  lemma AlphaNumericInjective(s: Text, t: Text)
    requires Ascii(s) && Ascii(t) && Accepted(ALPHA, s) && Accepted(ALPHA, t)
    requires Pack(Codes(AlphaNumeric, s), 6) == Pack(Codes(AlphaNumeric, t), 6)
    ensures s == t
  {
    AlphaNumericRoundTrip(s);
    AlphaNumericRoundTrip(t);
  }

  // ---- The instances without translation ----

  /** Without translation the accepted strings are those of ASCII characters below the base, short enough; a byte
      from 128 up is never accepted, even by the 256-code instance. */
  lemma AcceptedUntranslatedIff(c: Config, s: Text)
    requires c.Valid() && c.m.NoTranslation? && forall i :: 0 <= i < |s| ==> s[i] < 256
    ensures Accepted(c, s) <==> |s| <= c.maxBits / c.bits && forall i :: 0 <= i < |s| ==> s[i] < 128 && s[i] < c.base
  {
    forall i | 0 <= i < |s|
      ensures CodeOf(c.m, s[i]) < c.base <==> s[i] < 128 && s[i] < c.base
    {
    }
  }

  predicate IsWidth(maxBits: nat) {
    maxBits in {8, 16, 32, 64, 128}
  }

  /** AsciiIntegralValue<T>, and ByteIntegralValue<T>, for T of `maxBits` bits. */
  function AsciiConfig(maxBits: nat): Config {
    Config(maxBits, 128, NoTranslation, 7)
  }

  function ByteConfig(maxBits: nat): Config {
    Config(maxBits, 256, NoTranslation, 8)
  }

  lemma AliasesAreValid(maxBits: nat)
    requires IsWidth(maxBits)
    ensures AsciiConfig(maxBits).Valid() && ByteConfig(maxBits).Valid()
  {
    assert Pow2(1) == 2 && Pow2(2) == 4 && Pow2(3) == 8 && Pow2(4) == 16 && Pow2(5) == 32 && Pow2(6) == 64;
    assert Pow2(7) == 128 && Pow2(8) == 256;
  }

  lemma SevensNeverFill(maxBits: nat, n: nat)
    requires IsWidth(maxBits)
    ensures 7 * n != maxBits && (maxBits == 128 ==> maxBits / 7 == 18)
  {
  }

  lemma AsciiIsValid(maxBits: nat, s: Text)
    requires IsWidth(maxBits) && AsciiConfig(maxBits).Valid() && Accepted(AsciiConfig(maxBits), s) && Ascii(s)
    ensures Pack(s, 7) != InvalidValue(AsciiConfig(maxBits))
  {
    CodesAreBytes(s);
    SentinelCollisionIff(AsciiConfig(maxBits), s);
    ShiftIsMultiple(7, |s|);
    SevensNeverFill(maxBits, |s|);
  }

  /** Every ASCII string that fits is accepted, at most 18 characters in 128 bits, and nothing else is; it is
      reported valid, and without NUL characters it comes back. */
  lemma AsciiRoundTrip(maxBits: nat, s: Text)
    requires IsWidth(maxBits) && forall i :: 0 <= i < |s| ==> s[i] < 256
    ensures AsciiConfig(maxBits).Valid()
    ensures Accepted(AsciiConfig(maxBits), s) <==> |s| <= maxBits / 7 && Ascii(s)
    ensures Accepted(AsciiConfig(maxBits), s) ==> Pack(s, 7) != InvalidValue(AsciiConfig(maxBits))
    ensures Accepted(AsciiConfig(maxBits), s) && 0 !in s ==> ToText(AsciiConfig(maxBits), Pack(s, 7)) == s
    ensures maxBits == 128 ==> maxBits / 7 == 18
  {
    var c := AsciiConfig(maxBits);
    AliasesAreValid(maxBits);
    AcceptedUntranslatedIff(c, s);
    SevensNeverFill(maxBits, 0);
    if Accepted(c, s) {
      CodesAreBytes(s);
      AsciiIsValid(maxBits, s);
      RoundTripExactIff(c, s);
    }
  }

  /** The 256-code instance accepts no more characters, and never produces the invalid value. */
  lemma ByteRoundTrip(maxBits: nat, s: Text)
    requires IsWidth(maxBits) && forall i :: 0 <= i < |s| ==> s[i] < 256
    ensures ByteConfig(maxBits).Valid()
    ensures Accepted(ByteConfig(maxBits), s) <==> |s| <= maxBits / 8 && Ascii(s)
    ensures Accepted(ByteConfig(maxBits), s) ==> Pack(s, 8) != InvalidValue(ByteConfig(maxBits))
    ensures Accepted(ByteConfig(maxBits), s) && 0 !in s ==> ToText(ByteConfig(maxBits), Pack(s, 8)) == s
  {
    var c := ByteConfig(maxBits);
    AliasesAreValid(maxBits);
    AcceptedUntranslatedIff(c, s);
    if Accepted(c, s) {
      CodesAreBytes(s);
      SentinelCollisionIff(c, s);
      ShiftIsMultiple(c.bits, |s|);
      assert Pow2(8) == 256;
      assert |s| > 0 ==> CodeOf(c.m, s[0]) < 128;
      RoundTripExactIff(c, s);
    }
  }

  lemma CodesAreBytes(s: Text)
    requires Ascii(s)
    ensures Codes(NoTranslation, s) == s
  {
  }

  // ---- The class IntegralValueTBit ----

  datatype ErrorPolicy = MaxInvalid | Exception

  class TBit {
    const c: Config
    const policy: ErrorPolicy
    var value: nat
    ghost var text: Option<Text>  // the string that init was given, when it did not throw

    ghost predicate Valid()
      reads this
    {
      && c.Valid() && value < Pow2(c.maxBits)
      && (text.Some? ==> value == if Accepted(c, text.value) then Pack(Codes(c.m, text.value), c.bits) else InvalidValue(c))
    }

    /** IntegralValueTBit(std::string_view): on a default value of zero. */
    constructor (c: Config, policy: ErrorPolicy)
      requires c.Valid()
      ensures Valid() && this.c == c && this.policy == policy && value == 0 && text == None
    {
      this.c, this.policy, value, text := c, policy, 0, None;
      new;
    }

    /** init(): shift every code into its field and or it in. */
    method Init(s: Text) returns (r: Result<(), Error>)
      requires Valid() && value == 0 && text == None && Readable(c, s)
      modifies this
      ensures Valid() && (r.Err? ==> policy == Exception)
      ensures r.Ok? && Accepted(c, s) ==> value == Pack(Codes(c.m, s), c.bits)
      ensures !Accepted(c, s) && policy == Exception ==> r == Err(if |s| > c.MaxElements() then TooLong else OutOfRange)
      ensures !Accepted(c, s) && policy == MaxInvalid ==> r.Ok? && value == InvalidValue(c)
      ensures Accepted(c, s) ==> r.Ok?
      ensures text == if r.Ok? then Some(s) else None
    {
      if |s| > c.MaxElements() {
        if policy == MaxInvalid {
          value, text := InvalidValue(c), Some(s);
          return Ok(());
        }
        return Err(TooLong);
      }
      ghost var codes := Codes(c.m, s);
      assert codes[..0] == [];
      for p := 0 to |s|
        invariant Fit(codes[..p], c.bits) && forall i :: 0 <= i < p ==> CodeOf(c.m, s[i]) < c.base
        invariant value == Pack(codes[..p], c.bits) && value < Pow2(c.maxBits) && text == None
      {
        var v := CodeOf(c.m, s[p]);
        if v >= c.base {
          if policy == MaxInvalid {
            value, text := InvalidValue(c), Some(s);
            return Ok(());
          }
          return Err(OutOfRange);
        }
        OrNextField(c, codes, p);
        value := BitOr(value, v * Pow2(Shift(c.bits, p)) % Pow2(c.maxBits));
      }
      assert codes[..|s|] == codes;
      text := Some(s);
      r := Ok(());
    }

    /** isValid(): the string was accepted, unless its fields fill the type with ones, which is the value kept
        for an invalid one. Every object has been through init. */
    method IsValid() returns (b: bool)
      requires Valid() && text.Some?
      ensures b <==> Accepted(c, text.value) && !(Shift(c.bits, |text.value|) == c.maxBits && AllOnes(c, text.value))
    {
      if Accepted(c, text.value) {
        SentinelCollisionIff(c, text.value);
      }
      b := value != InvalidValue(c);
    }

    /** toArray(): shift, truncate to a byte, mask, translate back. */
    method ToArray() returns (out: array<nat>)
      requires Valid()
      ensures fresh(out) && out.Length == c.MaxElements()
      ensures out[..] == ToChars(c, value)
    {
      var mask := LowMask(c.bits);
      out := new nat[c.MaxElements()](i => 0);
      for p := 0 to out.Length
        invariant forall i :: 0 <= i < p ==> out[i] == CharOf(c.m, Field(value, c.bits, i))
      {
        var shifted := ShiftRight(value, Shift(c.bits, p)) % 256;
        ByteHoldsField(ShiftRight(value, Shift(c.bits, p)), c.bits);
        out[p] := CharOf(c.m, BitAnd(shifted, mask));
      }
      assert out[..] == ToChars(c, value);
    }
  }

  /** One turn of init: the code lands in its own field, inside the type, and or adds it. */
  lemma OrNextField(c: Config, codes: seq<nat>, p: nat)
    requires c.Valid() && p < |codes| <= c.MaxElements() && Fit(codes[..p], c.bits) && codes[p] < c.base
    ensures Fit(codes[..p + 1], c.bits)
    ensures BitOr(Pack(codes[..p], c.bits), codes[p] * Pow2(Shift(c.bits, p)) % Pow2(c.maxBits)) == Pack(codes[..p + 1], c.bits)
    ensures Pack(codes[..p + 1], c.bits) < Pow2(c.maxBits)
  {
    var before, after := codes[..p], codes[..p + 1];
    assert after == before + [codes[p]];
    PackBound(before, c.bits);
    PackBound(after, c.bits);
    PackAppend(before, codes[p], c.bits);
    FieldsFit(c, p + 1);
    Pow2Monotone(Shift(c.bits, p + 1), c.maxBits);
    OrField(Pack(before, c.bits), codes[p], Shift(c.bits, p), c.maxBits);
  }

  lemma OrField(acc: nat, code: nat, shift: nat, width: nat)
    requires acc < Pow2(shift) && acc + code * Pow2(shift) < Pow2(width)
    ensures BitOr(acc, code * Pow2(shift) % Pow2(width)) == acc + code * Pow2(shift)
  {
    var field := code * Pow2(shift);
    RemainderUnique(field, Pow2(width), 0, field);
    OrDisjoint(acc, code, shift);
  }

  /** Truncating to a byte before masking loses no bit of a field of at most eight. */
  lemma ByteHoldsField(x: nat, bits: nat)
    requires 1 <= bits <= 8
    ensures BitAnd(x % 256, Pow2(bits) - 1) == x % Pow2(bits)
  {
    AndMask(x % 256, bits);
    Pow2Add(bits, 8 - bits);
    assert Pow2(2) == 4 && Pow2(4) == 16 && Pow2(6) == 64 && Pow2(8) == 256;
    ModMod(x, Pow2(bits), Pow2(8 - bits));
  }

  lemma ModMod(x: nat, m: nat, k: nat)
    requires m > 0 && k > 0 && m * k > 0
    ensures x % (m * k) % m == x % m
  {
    var n := m * k;
    ModModSteps(x, m, k, n, x / n, x % n);
  }

  lemma ModModSteps(x: nat, m: nat, k: nat, n: nat, a: nat, y: nat)
    requires m > 0 && n == m * k && x == n * a + y
    ensures y % m == x % m
  {
    var b, r := y / m, y % m;
    assert y == m * b + r;
    Regroup(m, k, a, b);
    RemainderUnique(x, m, k * a + b, r);
  }

  lemma Regroup(m: nat, k: nat, a: nat, b: nat)
    ensures (m * k) * a + m * b == m * (k * a + b)
  {
    assert (m * k) * a == m * (k * a);
  }
}
