/**
 * The 8-bit two's-complement addition widget: two sliders over [-128, 127],
 * their 8-digit encodings, the wrapped 8-bit sum and the overflow flag.
 */
module IntegerArithmetic {
  import opened Strings
  import opened Interaction
  import opened Binary

  predicate InRange8(n: int)
  {
    -128 <= n <= 127
  }

  /** The unsigned value `toBinary8` prints: `(1 << 8) + n` for a negative n, n otherwise. */
  function Encode8(n: int): int
  {
    if n < 0 then 256 + n else n
  }

  /** `toBinary8(n)`: `toString(2).padStart(8, "0")` of the encoding, the converter's `toBinary` at width 8. */
  function ToBinary8(n: int): string
    requires InRange8(n)
  {
    ToBinary(Encode8(n), 8)
  }

  /** Reading an 8-digit string as a two's-complement number: the top digit weighs -128. */
  function TwosValue(s: string): int
  {
    if |s| > 0 && s[0] == '1' then ValueOf(s) - 256 else ValueOf(s)
  }

  /** The encoding is the value modulo 256, which lies in [0, 255]. */
  lemma Encode8Mod(n: int)
    requires InRange8(n)
    ensures 0 <= Encode8(n) < 256 && Encode8(n) == n % 256
  {
  }

  /**
   * For n in [-128, 127], `toBinary8(n)` is eight binary digits whose unsigned
   * value is n + 256 for a negative n and n otherwise, and whose two's-complement
   * reading is n again.
   */
  lemma ToBinary8RoundTrip(n: int)
    requires InRange8(n)
    ensures |ToBinary8(n)| == 8 && IsBits(ToBinary8(n))
    ensures ValueOf(ToBinary8(n)) == (if n < 0 then n + 256 else n)
    ensures TwosValue(ToBinary8(n)) == n
  {
    var s := ToBinary8(n);
    assert |s| == 8 && IsBits(s) && ValueOf(s) == Encode8(n) by {
      ToBinaryCorrect(Encode8(n), 8);
    }
    TopDigit(s);
  }

  /** `actualSum`: A + B brought back into [-128, 127] by one correction of 256. */
  function ActualSum(a: int, b: int): (r: int)
    ensures InRange8(a) && InRange8(b) ==> InRange8(r) && (r - (a + b)) % 256 == 0
  {
    var theoretical := a + b;
    if theoretical > 127 then theoretical - 256
    else if theoretical < -128 then theoretical + 256
    else theoretical
  }

  /** `isOverflow`. */
  predicate IsOverflow(a: int, b: int)
  {
    a + b > 127 || a + b < -128
  }

  /**
   * The overflow flag is raised exactly when the true sum leaves [-128, 127];
   * without overflow the shown sum is the true sum, with it the shown sum differs
   * from the true sum by 256.
   */
  lemma OverflowIffOutOfRange(a: int, b: int)
    requires InRange8(a) && InRange8(b)
    ensures IsOverflow(a, b) <==> !InRange8(a + b)
    ensures !IsOverflow(a, b) ==> ActualSum(a, b) == a + b
    ensures IsOverflow(a, b) ==> ActualSum(a, b) == a + b - 256 || ActualSum(a, b) == a + b + 256
  {
  }

  /** The encoding of the shown sum is the unsigned sum of the encodings, modulo 256. */
  lemma EncodeSum(a: int, b: int)
    requires InRange8(a) && InRange8(b)
    ensures Encode8(ActualSum(a, b)) == (Encode8(a) + Encode8(b)) % 256
  {
    var u := Encode8(a) + Encode8(b);
    assert 0 <= u < 512;
    var m := if u >= 256 then u - 256 else u;
    assert u % 256 == m;
  }

  /**
   * Addition is sign-agnostic at the bit level: the digits shown for the sum
   * are the width-8 digits of the low byte of the unsigned sum of the operands'
   * encodings, which are the unsigned values of the operands' digits
   * (`ToBinary8RoundTrip`).
   */
  lemma SumDigitsAreLowByte(a: int, b: int)
    requires InRange8(a) && InRange8(b)
    ensures ToBinary8(ActualSum(a, b)) == ToBinary((Encode8(a) + Encode8(b)) % 256, 8)
  {
    EncodeSum(a, b);
  }

  /** Read back as an unsigned number, the sum's digits are that low byte. */
  lemma SumBitsAreUnsignedSum(a: int, b: int)
    requires InRange8(a) && InRange8(b)
    ensures ValueOf(ToBinary8(ActualSum(a, b))) == (Encode8(a) + Encode8(b)) % 256
  {
    ToBinary8Value(ActualSum(a, b));
    EncodeSum(a, b);
  }

  /** The digits of `toBinary8(n)` denote the encoding of n. */
  lemma ToBinary8Value(n: int)
    requires InRange8(n)
    ensures ValueOf(ToBinary8(n)) == Encode8(n)
  {
    ToBinary8RoundTrip(n);
  }

  /** The widget's state: the two slider values and the interaction latch. */
  class IntegerArithmeticWidget {
    var valA: int
    var valB: int
    var latch: Latch

    ghost predicate Valid()
      reads this
    {
      InRange8(valA) && InRange8(valB) && latch.Valid()
    }

    /** The initial state: A = 120, B = 10. */
    constructor(hasCallback: bool)
      ensures Valid()
      ensures valA == 120 && valB == 10 && latch == Fresh(hasCallback)
    {
      valA := 120;
      valB := 10;
      latch := Fresh(hasCallback);
    }

    /** Slider A: its range is [-128, 127], so the parsed value lies in it. */
    method SetA(value: int)
      requires Valid() && InRange8(value)
      modifies this
      ensures Valid()
      ensures valA == value && valB == old(valB) && latch == old(latch).Fire()
    {
      valA := value;
      latch := latch.Fire();
    }

    /** Slider B. */
    method SetB(value: int)
      requires Valid() && InRange8(value)
      modifies this
      ensures Valid()
      ensures valB == value && valA == old(valA) && latch == old(latch).Fire()
    {
      valB := value;
      latch := latch.Fire();
    }

    /** The result row: the shown sum and its digits, unchanged by the latch. */
    function ResultDigits(): (r: string)
      reads this
      requires Valid()
      ensures |r| == 8 && TwosValue(r) == ActualSum(valA, valB)
    {
      ToBinary8RoundTrip(ActualSum(valA, valB));
      ToBinary8(ActualSum(valA, valB))
    }
  }
}
