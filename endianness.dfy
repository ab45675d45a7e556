/**
 * The endianness explorer: a hexadecimal text sanitised and normalised to
 * eight digits, split into four bytes, and laid out from the lowest address
 * in big-endian or little-endian order.
 */
module Endianness {
  import opened Seqs
  import opened Strings
  import opened Interaction

  predicate IsHexDigit(c: char)
  {
    ('0' <= c <= '9') || ('a' <= c <= 'f') || ('A' <= c <= 'F')
  }

  /** The input handler's `replace(/[^0-9a-fA-F]/g, "")`. */
  function Sanitize(text: string): (r: string)
    ensures |r| <= |text|
    ensures forall i :: 0 <= i < |r| ==> IsHexDigit(r[i]) && r[i] in text
    ensures forall i :: 0 <= i < |text| && IsHexDigit(text[i]) ==> text[i] in r
  {
    Filter(text, IsHexDigit)
  }

  /** The sanitiser works piece by piece, so it keeps the hex digits in their order. */
  lemma SanitizeConcat(a: string, b: string)
    ensures Sanitize(a + b) == Sanitize(a) + Sanitize(b)
  {
    FilterConcat(a, b, IsHexDigit);
  }

  /** A text of hex digits only is kept as it is; hence sanitising twice is sanitising once. */
  lemma SanitizeKeepsHex(text: string)
    ensures (forall i :: 0 <= i < |text| ==> IsHexDigit(text[i])) ==> Sanitize(text) == text
    ensures Sanitize(Sanitize(text)) == Sanitize(text)
  {
    if forall i :: 0 <= i < |text| ==> IsHexDigit(text[i]) {
      FilterAll(text, IsHexDigit);
    }
    FilterAll(Sanitize(text), IsHexDigit);
  }

  /** `hexValue.padStart(8, "0").slice(-8)`. */
  function NormalizedHex(hex: string): (r: string)
    ensures |r| == 8
    ensures |hex| <= 8 ==> r == seq(8 - |hex|, _ => '0') + hex
    ensures |hex| > 8 ==> r == hex[|hex| - 8..]
  {
    var padded := PadStart(hex, 8, '0');
    padded[|padded| - 8..]
  }

  lemma NormalizedEmpty()
    ensures NormalizedHex("") == "00000000"
  {
    var r := NormalizedHex("");
    assert r == seq(8, _ => '0');
  }

  /** `bytes`: the four two-digit slices from the left. */
  function Bytes(hex: string): (r: seq<string>)
    requires |hex| == 8
    ensures |r| == 4
    ensures forall k :: 0 <= k < 4 ==> r[k] == hex[2 * k..2 * k + 2]
  {
    [hex[0..2], hex[2..4], hex[4..6], hex[6..8]]
  }

  /** The bytes are consecutive: together they are the normalised text. */
  lemma BytesConcat(hex: string)
    requires |hex| == 8
    ensures Concat(Bytes(hex)) == hex
    ensures forall k :: 0 <= k < 4 ==> |Bytes(hex)[k]| == 2
  {
    var b := Bytes(hex);
    assert Concat(b[3..]) == b[3] by {
      assert b[3..][1..] == [];
    }
    assert Concat(b[2..]) == b[2] + b[3] by {
      assert b[2..][1..] == b[3..];
    }
    assert Concat(b[1..]) == b[1] + b[2] + b[3] by {
      assert b[1..][1..] == b[2..];
    }
    assert hex == hex[0..2] + hex[2..4] + hex[4..6] + hex[6..8];
  }

  /** `displayBytes`: the bytes from the lowest address on. */
  function DisplayBytes(bytes: seq<string>, isLittleEndian: bool): seq<string>
  {
    if isLittleEndian then Reverse(bytes) else bytes
  }

  /** The label under the byte at address offset `idx`. */
  function ByteLabel(idx: nat, isLittleEndian: bool): int
  {
    if isLittleEndian then 3 - idx else idx
  }

  /**
   * The label names which byte is shown: the byte at address offset `idx` is
   * `bytes[label]`. In little-endian order the lowest address holds the last,
   * least significant byte; in big-endian order the first, most significant one.
   */
  lemma LabelNamesShownByte(bytes: seq<string>, isLittleEndian: bool, idx: nat)
    requires |bytes| == 4 && idx < 4
    ensures 0 <= ByteLabel(idx, isLittleEndian) < 4
    ensures DisplayBytes(bytes, isLittleEndian)[idx] == bytes[ByteLabel(idx, isLittleEndian)]
    ensures DisplayBytes(bytes, true)[0] == bytes[3] && DisplayBytes(bytes, false)[0] == bytes[0]
  {
  }

  /** The two layouts are each other's reverse, so switching the order twice restores the layout. */
  lemma ToggleTwice(bytes: seq<string>, isLittleEndian: bool)
    ensures DisplayBytes(bytes, !isLittleEndian) == Reverse(DisplayBytes(bytes, isLittleEndian))
    ensures DisplayBytes(bytes, !!isLittleEndian) == DisplayBytes(bytes, isLittleEndian)
  {
    ReverseReverse(bytes);
  }

  /** The explorer's state: the sanitised text, the byte order and the latch. */
  class EndiannessExplorer {
    var hexValue: string
    var isLittleEndian: bool
    var latch: Latch

    ghost predicate Valid()
      reads this
    {
      (forall i :: 0 <= i < |hexValue| ==> IsHexDigit(hexValue[i])) && latch.Valid()
    }

    /** The initial state: "12345678", little-endian. */
    constructor(hasCallback: bool)
      ensures Valid()
      ensures hexValue == "12345678" && isLittleEndian && latch == Fresh(hasCallback)
    {
      hexValue := "12345678";
      isLittleEndian := true;
      latch := Fresh(hasCallback);
    }

    /** The text input: store the sanitised text and fire the latch. */
    method HandleInput(text: string)
      requires Valid()
      modifies this
      ensures Valid()
      ensures hexValue == Sanitize(text) && isLittleEndian == old(isLittleEndian) && latch == old(latch).Fire()
    {
      hexValue := Sanitize(text);
      latch := latch.Fire();
    }

    /** The order button: flip the byte order and fire the latch. */
    method ToggleEndianness()
      requires Valid()
      modifies this
      ensures Valid()
      ensures isLittleEndian == !old(isLittleEndian) && hexValue == old(hexValue) && latch == old(latch).Fire()
    {
      isLittleEndian := !isLittleEndian;
      latch := latch.Fire();
    }

    /** The memory row as shown. */
    function Layout(): (r: seq<string>)
      reads this
      ensures |r| == 4
      ensures Concat(if isLittleEndian then Reverse(r) else r) == NormalizedHex(hexValue)
    {
      var bytes := Bytes(NormalizedHex(hexValue));
      BytesConcat(NormalizedHex(hexValue));
      ReverseReverse(bytes);
      DisplayBytes(bytes, isLittleEndian)
    }
  }
}
