/**
 Hexadecimal text as JavaScript prints and reads it: `Number.prototype.toString(16)`,
 `String.prototype.padStart` and `parseInt(_, 16)`.
 */
module Hex {
  import opened Wrappers

  const DIGITS: string := "0123456789abcdef"

  type Byte = x: int | 0 <= x < 256

  function Digits(n: nat): (s: string)
    ensures |s| >= 1
  {
    if n < 16 then [DIGITS[n]] else Digits(n / 16) + [DIGITS[n % 16]]
  }

  /** `n.toString(16)`: a sign, then the digits of the magnitude. */
  function ToHex(n: int): string {
    if n < 0 then "-" + Digits(-n) else Digits(n)
  }

  function PadStart(s: string, pad: nat): string
    decreases pad - |s|
  {
    if |s| >= pad then s else PadStart("0" + s, pad)
  }

  function ToPaddedHex(c: int, pad: nat := 2): string {
    PadStart(ToHex(c), pad)
  }

  function RgbToHex(r: Byte, g: Byte, b: Byte): string {
    ToPaddedHex(r) + ToPaddedHex(g) + ToPaddedHex(b)
  }

  function DigitValue(c: char): Option<nat> {
    if '0' <= c <= '9' then Some(c as int - '0' as int)
    else if 'a' <= c <= 'f' then Some(c as int - 'a' as int + 10)
    else if 'A' <= c <= 'F' then Some(c as int - 'A' as int + 10)
    else None
  }

  /** The longest prefix of `s` made of hex digits. */
  function HexPrefix(s: string): (p: string)
    ensures |p| <= |s|
    ensures forall c <- p :: DigitValue(c).Some?
  {
    if s == "" || DigitValue(s[0]).None? then "" else [s[0]] + HexPrefix(s[1..])
  }

  function Value(s: string): nat
    requires forall c <- s :: DigitValue(c).Some?
  {
    if s == "" then 0 else Value(s[..|s| - 1]) * 16 + DigitValue(s[|s| - 1]).value
  }

  /** White space and line terminators of ECMA-262, sections 12.2 and 12.3. */
  predicate IsSpace(c: char) {
    var u := c as int;
    9 <= u <= 13 || u == 0x20 || u == 0xA0 || u == 0x1680 || 0x2000 <= u <= 0x200A ||
    u == 0x2028 || u == 0x2029 || u == 0x202F || u == 0x205F || u == 0x3000 || u == 0xFEFF
  }

  predicate IsLineTerminator(c: char) {
    var u := c as int;
    u == 10 || u == 13 || u == 0x2028 || u == 0x2029
  }

  function TrimStart(s: string): (t: string)
    ensures |t| <= |s|
  {
    if s != "" && IsSpace(s[0]) then TrimStart(s[1..]) else s
  }

  predicate Signed(t: string) {
    t != "" && (t[0] == '-' || t[0] == '+')
  }

  /** The digits `parseInt` uses: what is left after the sign and a `0x`, up to the first non-digit. */
  function Magnitude(t: string): (digits: string)
    ensures |digits| <= |t|
    ensures forall c <- digits :: DigitValue(c).Some?
  {
    var u := if Signed(t) then t[1..] else t;
    HexPrefix(if |u| >= 2 && u[0] == '0' && (u[1] == 'x' || u[1] == 'X') then u[2..] else u)
  }

  /** `parseInt(s, 16)`; `None` is NaN. */
  function ParseInt16(s: string): Option<int> {
    var t := TrimStart(s);
    var digits := Magnitude(t);
    if digits == "" then None
    else
      var value: int := Value(digits);
      Some(if Signed(t) && t[0] == '-' then -value else value)
  }

  /** The integers that two characters can carry. */
  predicate FitsField(n: int) {
    -15 <= n <= 255
  }

  lemma DigitOf(d: nat)
    requires d < 16
    ensures DigitValue(DIGITS[d]) == Some(d)
    ensures !IsSpace(DIGITS[d]) && !IsLineTerminator(DIGITS[d])
    ensures DIGITS[d] !in "-+xX"
  {
  }

  lemma ValueOfPair(s: string)
    requires |s| == 2 && DigitValue(s[0]).Some? && DigitValue(s[1]).Some?
    ensures Value(s) == 16 * DigitValue(s[0]).value + DigitValue(s[1]).value
  {
    assert s[..1] == [s[0]] && s[..1][..0] == "";
    assert Value(s[..1]) == DigitValue(s[0]).value;
  }

  lemma SingleValue(s: string)
    requires |s| == 1 && DigitValue(s[0]).Some?
    ensures Value(s) == DigitValue(s[0]).value
  {
    assert s[..0] == "";
  }

  /** A byte prints as two digits: the high one, then the low one. */
  lemma PaddedByte(n: Byte)
    ensures ToPaddedHex(n) == [DIGITS[n / 16], DIGITS[n % 16]]
  {
    if n < 16 {
      assert PadStart("0" + [DIGITS[n]], 2) == "0" + [DIGITS[n]];
    } else {
      assert Digits(n) == Digits(n / 16) + [DIGITS[n % 16]];
    }
  }

  lemma PaddedNegative(n: int)
    requires -15 <= n < 0
    ensures ToPaddedHex(n) == ['-', DIGITS[-n]]
  {
  }

  lemma NegativeRoundTrip(n: int)
    requires -15 <= n < 0
    ensures ParseInt16(ToPaddedHex(n)) == Some(n)
  {
    PaddedNegative(n);
    DigitOf(-n);
    var digits := [DIGITS[-n]];
    assert ToPaddedHex(n)[1..] == digits && digits[1..] == "" && HexPrefix(digits) == digits;
    SingleValue(digits);
  }

  lemma ByteRoundTrip(n: Byte)
    ensures ParseInt16(ToPaddedHex(n)) == Some(n)
  {
    PaddedByte(n);
    DigitOf(n / 16);
    DigitOf(n % 16);
    var s := ToPaddedHex(n);
    assert s[1..] == [s[1]] && s[1..][1..] == "";
    assert HexPrefix(s[1..]) == s[1..];
    assert HexPrefix(s) == [s[0]] + [s[1]] == s;
    ValueOfPair(s);
  }

  /** Printing a field on two characters and reading it back gives the field. */
  lemma FieldRoundTrip(n: int)
    requires FitsField(n)
    ensures |ToPaddedHex(n)| == 2
    ensures ParseInt16(ToPaddedHex(n)) == Some(n)
    ensures !IsLineTerminator(ToPaddedHex(n)[0]) && !IsLineTerminator(ToPaddedHex(n)[1])
  {
    if n < 0 {
      PaddedNegative(n);
      DigitOf(-n);
      NegativeRoundTrip(n);
    } else {
      PaddedByte(n);
      DigitOf(n / 16);
      DigitOf(n % 16);
      ByteRoundTrip(n);
    }
  }

  /** Whatever two characters `parseInt` is given, the number it returns fits on two characters. */
  lemma ParsedFits(s: string)
    requires |s| <= 2 && ParseInt16(s).Some?
    ensures FitsField(ParseInt16(s).value)
  {
    var digits := Magnitude(TrimStart(s));
    assert forall c <- digits :: DigitValue(c).value < 16;
    if |digits| == 1 {
      SingleValue(digits);
    } else {
      ValueOfPair(digits);
    }
  }

  /** Six digits name one opaque colour. */
  lemma RgbToHexInjective(r: Byte, g: Byte, b: Byte, r': Byte, g': Byte, b': Byte)
    ensures |RgbToHex(r, g, b)| == 6
    ensures RgbToHex(r, g, b) == RgbToHex(r', g', b') <==> (r, g, b) == (r', g', b')
  {
    FieldRoundTrip(r);
    FieldRoundTrip(g);
    FieldRoundTrip(b);
    FieldRoundTrip(r');
    FieldRoundTrip(g');
    FieldRoundTrip(b');
    var s, s' := RgbToHex(r, g, b), RgbToHex(r', g', b');
    assert s[..2] == ToPaddedHex(r) && s[2..4] == ToPaddedHex(g) && s[4..] == ToPaddedHex(b);
    assert s'[..2] == ToPaddedHex(r') && s'[2..4] == ToPaddedHex(g') && s'[4..] == ToPaddedHex(b');
  }
}
