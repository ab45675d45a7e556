/**
 * The unsigned binary converter widget: a decimal value clamped to the
 * selected width, its zero-padded base-2 digits, the digits grouped by four,
 * a click on a digit that flips just that digit, and the width switch.
 */
module Binary {
  import opened Wrappers
  import opened Seqs
  import opened Strings
  import opened Interaction

  function Pow2(n: nat): (r: nat)
    ensures r >= 1
  {
    if n == 0 then 1 else 2 * Pow2(n - 1)
  }

  predicate IsBits(s: string)
  {
    forall i :: 0 <= i < |s| ==> s[i] == '0' || s[i] == '1'
  }

  function BitOf(c: char): nat
  {
    if c == '1' then 1 else 0
  }

  /** What a digit contributes at a position of weight `w`. */
  function Weight(c: char, w: nat): nat
  {
    if c == '1' then w else 0
  }

  /** The sum the explanation panel shows: each digit times 2 to the power of its position from the right. */
  function ValueOf(s: string): nat
  {
    if s == [] then 0 else Weight(s[0], Pow2(|s| - 1)) + ValueOf(s[1..])
  }

  /** `num.toString(2)`: base-2 digits without leading zeros, "0" for zero. */
  function ToBase2(n: nat): (r: string)
    ensures |r| >= 1 && IsBits(r)
  {
    if n < 2 then [if n == 1 then '1' else '0']
    else ToBase2(n / 2) + [if n % 2 == 1 then '1' else '0']
  }

  /** `toBinary(num, bits)`: the base-2 digits left-padded with '0' to `bits` characters. */
  function ToBinary(num: nat, bits: nat): string
  {
    PadStart(ToBase2(num), bits, '0')
  }

  // ----- Digit arithmetic -----

  lemma {:induction false} ValueOfSnoc(s: string, c: char)
    ensures ValueOf(s + [c]) == 2 * ValueOf(s) + BitOf(c)
  {
    if s != [] {
      assert (s + [c])[1..] == s[1..] + [c];
      ValueOfSnoc(s[1..], c);
    }
  }

  /** Any digit string of length `k` denotes less than 2^k. */
  lemma {:induction false} ValueOfBound(s: string)
    ensures ValueOf(s) < Pow2(|s|)
  {
    if s != [] {
      ValueOfBound(s[1..]);
    }
  }

  /** The leading digit is 1 exactly when the value reaches the leading digit's weight. */
  lemma TopDigit(s: string)
    requires |s| >= 1
    ensures s[0] == '1' <==> ValueOf(s) >= Pow2(|s| - 1)
  {
    ValueOfBound(s[1..]);
  }

  /** Leading zeros do not change the value. */
  lemma {:induction false} ValueOfZeros(z: string, s: string)
    requires forall k :: 0 <= k < |z| ==> z[k] == '0'
    ensures ValueOf(z + s) == ValueOf(s)
  {
    if z == [] {
      assert z + s == s;
    } else {
      assert (z + s)[0] == '0';
      assert (z + s)[1..] == z[1..] + s;
      ValueOfZeros(z[1..], s);
    }
  }

  /** `toString(2)` denotes its argument. */
  lemma {:induction false} ToBase2Value(n: nat)
    ensures ValueOf(ToBase2(n)) == n
  {
    if n >= 2 {
      ToBase2Value(n / 2);
      ValueOfSnoc(ToBase2(n / 2), if n % 2 == 1 then '1' else '0');
    }
  }

  /** A number below 2^k needs at most k base-2 digits (one digit for zero). */
  lemma {:induction false} ToBase2Length(n: nat, k: nat)
    requires k >= 1 && n < Pow2(k)
    ensures |ToBase2(n)| <= k
  {
    if n >= 2 {
      ToBase2Length(n / 2, k - 1);
    }
  }

  /** For 0 <= n < 2^bits, `toBinary(n, bits)` is exactly `bits` binary digits denoting n. */
  lemma ToBinaryCorrect(n: nat, bits: nat)
    requires bits >= 1 && n < Pow2(bits)
    ensures |ToBinary(n, bits)| == bits
    ensures IsBits(ToBinary(n, bits))
    ensures ValueOf(ToBinary(n, bits)) == n
  {
    ToBase2Length(n, bits);
    ToBase2Value(n);
    var b := ToBase2(n);
    var pad := ToBinary(n, bits)[..bits - |b|];
    assert ToBinary(n, bits) == pad + b;
    ValueOfZeros(pad, b);
  }

  /** Two binary digit strings of one length denoting the same number are the same string. */
  lemma {:induction false} DigitsInjective(s: string, t: string)
    requires IsBits(s) && IsBits(t) && |s| == |t| && ValueOf(s) == ValueOf(t)
    ensures s == t
  {
    if s != [] {
      ValueOfBound(s[1..]);
      ValueOfBound(t[1..]);
      assert s[0] == t[0];
      DigitsInjective(s[1..], t[1..]);
    }
  }

  /** Replacing the digit at index `i` changes the value by the difference of the digits times its weight. */
  lemma {:induction false} ValueOfUpdate(s: string, i: nat, c: char)
    requires i < |s|
    ensures ValueOf(s[i := c]) + Weight(s[i], Pow2(|s| - 1 - i)) == ValueOf(s) + Weight(c, Pow2(|s| - 1 - i))
  {
    if i > 0 {
      assert s[i := c][1..] == s[1..][i - 1 := c];
      ValueOfUpdate(s[1..], i - 1, c);
    }
  }

  /** The digit string with the digit at index `i` flipped. */
  function FlipDigit(s: string, i: nat): string
    requires i < |s|
  {
    s[i := if s[i] == '1' then '0' else '1']
  }

  /** The new value a click on digit `i` computes: subtract its weight if it is 1, add it otherwise. */
  function ClickValue(value: nat, bits: nat, i: nat): int
    requires i < bits
  {
    var weight := Pow2(bits - 1 - i);
    if i < |ToBinary(value, bits)| && ToBinary(value, bits)[i] == '1' then value - weight else value + weight
  }

  /** Flipping digit `i` of a binary digit string moves its value by that digit's weight, within the width. */
  lemma FlipValue(d: string, i: nat)
    requires IsBits(d) && i < |d|
    ensures ValueOf(FlipDigit(d, i)) < Pow2(|d|)
    ensures d[i] == '1' ==> ValueOf(FlipDigit(d, i)) == ValueOf(d) - Pow2(|d| - 1 - i)
    ensures d[i] != '1' ==> ValueOf(FlipDigit(d, i)) == ValueOf(d) + Pow2(|d| - 1 - i)
  {
    var f := FlipDigit(d, i);
    var w := Pow2(|d| - 1 - i);
    ValueOfUpdate(d, i, f[i]);
    ValueOfBound(f);
    assert |f| == |d|;
  }

  /** A click on digit `i` moves the value by that digit's weight and stays within the width. */
  lemma ClickStaysInWidth(value: nat, bits: nat, i: nat)
    requires bits >= 1 && value < Pow2(bits) && i < bits
    ensures 0 <= ClickValue(value, bits, i) < Pow2(bits)
    ensures ClickValue(value, bits, i) == ValueOf(FlipDigit(ToBinary(value, bits), i))
  {
    var d := ToBinary(value, bits);
    assert |d| == bits && IsBits(d) by {
      ToBinaryCorrect(value, bits);
    }
    FlipValue(d, i);
    assert ValueOf(d) == value by {
      ToBinaryCorrect(value, bits);
    }
  }

  /** A click on digit `i` flips that digit and no other. */
  lemma ClickFlipsOneDigit(value: nat, bits: nat, i: nat)
    requires bits >= 1 && value < Pow2(bits) && i < bits
    ensures 0 <= ClickValue(value, bits, i) < Pow2(bits)
    ensures ToBinary(ClickValue(value, bits, i) as nat, bits) == FlipDigit(ToBinary(value, bits), i)
  {
    ClickStaysInWidth(value, bits, i);
    var v: nat := ClickValue(value, bits, i);
    var f := FlipDigit(ToBinary(value, bits), i);
    var e := ToBinary(v, bits);
    assert |f| == bits && IsBits(f) by {
      ToBinaryCorrect(value, bits);
    }
    assert |e| == bits && IsBits(e) && ValueOf(e) == ValueOf(f) by {
      ToBinaryCorrect(v, bits);
    }
    DigitsInjective(e, f);
  }

  // ----- Clamping and grouping -----

  /** `Math.min(Math.max(0, value), maxValue)`. */
  function Clamp(value: int, maxValue: nat): (r: nat)
    ensures r <= maxValue
    ensures 0 <= value <= maxValue ==> r == value
    ensures value < 0 ==> r == 0
    ensures value > maxValue ==> r == maxValue
  {
    if value < 0 then 0 else if value > maxValue then maxValue else value
  }

  function Min(a: int, b: int): int
  {
    if a < b then a else b
  }

  /** The four-digit grouping loop: slices of four from the left, the last one possibly shorter. */
  method GroupDigits(digits: string) returns (groups: seq<string>)
    ensures Concat(groups) == digits
    ensures |groups| == (|digits| + 3) / 4
    ensures forall g :: 0 <= g < |groups| ==> groups[g] == digits[4 * g..Min(4 * g + 4, |digits|)]
    ensures |digits| % 4 == 0 ==> forall g :: 0 <= g < |groups| ==> |groups[g]| == 4
  {
    groups := [];
    var i := 0;
    while i < |digits|
      invariant i == 4 * |groups|
      invariant i <= |digits| + 3
      invariant forall g :: 0 <= g < |groups| ==> 4 * g < |digits| && groups[g] == digits[4 * g..Min(4 * g + 4, |digits|)]
      invariant Concat(groups) == digits[..Min(i, |digits|)]
    {
      var group := digits[i..Min(i + 4, |digits|)];
      ConcatAppend(groups, group);
      assert digits[..Min(i + 4, |digits|)] == digits[..i] + group;
      groups := groups + [group];
      i := i + 4;
    }
    assert digits[..Min(i, |digits|)] == digits;
  }

  /** The converter widget's state: the value, the width (8, 16 or 32) and the interaction latch. */
  class BinaryConverter {
    var decimalValue: nat
    var bitCount: nat
    var latch: Latch

    ghost predicate Valid()
      reads this
    {
      (bitCount == 8 || bitCount == 16 || bitCount == 32) && decimalValue < Pow2(bitCount) && latch.Valid()
    }

    /** The initial state: 42 in 8 bits. */
    constructor(hasCallback: bool)
      ensures Valid()
      ensures decimalValue == 42 && bitCount == 8 && latch == Fresh(hasCallback)
    {
      decimalValue := 42;
      bitCount := 8;
      latch := Fresh(hasCallback);
    }

    function BinaryDigits(): string
      reads this
    {
      ToBinary(decimalValue, bitCount)
    }

    /** `handleChange`: store the value clamped to [0, 2^bits - 1] and fire the latch. */
    method HandleChange(value: int)
      requires Valid()
      modifies this
      ensures Valid()
      ensures decimalValue == Clamp(value, Pow2(bitCount) - 1)
      ensures 0 <= value < Pow2(bitCount) ==> decimalValue == value
      ensures bitCount == old(bitCount) && latch == old(latch).Fire()
    {
      var maxValue := Pow2(bitCount) - 1;
      decimalValue := Clamp(value, maxValue);
      latch := latch.Fire();
    }

    /** The number input: `parseInt(text) || 0`, with `None` for a text that does not parse. */
    method HandleInput(parsed: Option<int>)
      requires Valid()
      modifies this
      ensures Valid()
      ensures decimalValue == Clamp(parsed.GetOr(0), Pow2(bitCount) - 1)
      ensures parsed == None ==> decimalValue == 0
      ensures bitCount == old(bitCount) && latch == old(latch).Fire()
    {
      HandleChange(parsed.GetOr(0));
    }

    /** A width button: the value is lowered to the new maximum only when above it; the latch is not fired. */
    method SelectWidth(bits: nat)
      requires Valid() && (bits == 8 || bits == 16 || bits == 32)
      modifies this
      ensures Valid()
      ensures bitCount == bits && latch == old(latch)
      ensures old(decimalValue) > Pow2(bits) - 1 ==> decimalValue == Pow2(bits) - 1
      ensures old(decimalValue) <= Pow2(bits) - 1 ==> decimalValue == old(decimalValue)
    {
      bitCount := bits;
      if decimalValue > Pow2(bits) - 1 {
        decimalValue := Pow2(bits) - 1;
      }
    }

    /** A click on the digit at `absoluteIndex` (bit position `bitCount - 1 - absoluteIndex`) flips that digit only. */
    method ClickBit(absoluteIndex: nat)
      requires Valid() && absoluteIndex < bitCount
      modifies this
      ensures Valid()
      ensures BinaryDigits() == FlipDigit(old(BinaryDigits()), absoluteIndex)
      ensures bitCount == old(bitCount) && latch == old(latch).Fire()
    {
      ClickFlipsOneDigit(decimalValue, bitCount, absoluteIndex);
      var newValue := ClickValue(decimalValue, bitCount, absoluteIndex);
      HandleChange(newValue);
    }
  }
}
