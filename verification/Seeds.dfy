/**
 Seed parts from a hash: a right shift and a cast to `uintSize` bits done on the text of a number, and
 the number read back from that text.
 */
module Seeds {
  import opened Hex
  import opened Wrappers

  function Pow(b: nat, e: nat): (p: nat)
    ensures b > 0 ==> p > 0
  {
    if e == 0 then 1 else b * Pow(b, e - 1)
  }

  function ShiftRight(value: nat, shiftAmount: nat): nat {
    value / Pow(2, shiftAmount)
  }

  /** The digits of `toHexString`, which come in pairs. */
  function EvenDigits(n: nat): (s: string)
    ensures |s| >= 2 && |s| % 2 == 0
  {
    if |Digits(n)| % 2 == 1 then "0" + Digits(n) else Digits(n)
  }

  /** `substring` takes a negative start for 0. */
  function Substring(s: string, start: int): string {
    if start < 0 then s else if start > |s| then "" else s[start..]
  }

  /** The start is the whole part of `length - uintSize / 4`. */
  function ShiftRightAndCast(value: nat, shiftAmount: nat, uintSize: nat): string {
    var shifted := "0x" + EvenDigits(ShiftRight(value, shiftAmount));
    "0x" + Substring(shifted, |shifted| - DigitsFor(uintSize))
  }

  function DigitsFor(uintSize: nat): nat {
    (uintSize + 3) / 4
  }

  predicate AllDigits(s: string) {
    forall c <- s :: DigitValue(c).Some?
  }

  /** Reading a number from text: `0x` and at least one digit, or the reader throws. */
  function ReadNumber(s: string): Option<nat> {
    if |s| > 2 && s[0] == '0' && s[1] == 'x' && AllDigits(s[2..]) then Some(Value(s[2..])) else None
  }

  function Offset(i: nat, uintSize: nat): nat {
    i * uintSize
  }

  function GetPseudorandomPart(value: nat, partCount: nat, shiftAmount: nat, uintSize: nat): Option<nat> {
    match ReadNumber(ShiftRightAndCast(value, shiftAmount, uintSize))
    case None => None
    case Some(n) => if partCount == 0 then None else Some(n % partCount)
  }

  /** An object made of parts: one part that throws loses it. */
  function Collect(parts: seq<Option<nat>>): (r: Option<seq<nat>>)
    ensures r.Some? <==> forall part <- parts :: part.Some?
    ensures r.Some? ==> |r.value| == |parts| && forall i :: 0 <= i < |parts| ==> parts[i] == Some(r.value[i])
  {
    if parts == [] then Some([])
    else
      var n := |parts| - 1;
      match (Collect(parts[..n]), parts[n])
      case (Some(before), Some(part)) => Some(before + [part])
      case _ => None
  }

  /** The parts of a seed, each `uintSize` bits further along the hash. */
  function SeedParts(hash: nat, partCounts: seq<nat>, uintSize: nat): Option<seq<nat>> {
    Collect(seq(|partCounts|, i requires 0 <= i < |partCounts| =>
      GetPseudorandomPart(hash, partCounts[i], Offset(i, uintSize), uintSize)))
  }

  // ---------- digits and values ----------

  lemma {:induction false} PowAdd(b: nat, m: nat, n: nat)
    ensures Pow(b, m + n) == Pow(b, m) * Pow(b, n)
  {
    if m == 0 {
    } else {
      PowAdd(b, m - 1, n);
      Reassociate(b, Pow(b, m - 1), Pow(b, n));
    }
  }

  lemma Reassociate(a: nat, b: nat, c: nat)
    ensures a * (b * c) == (a * b) * c
  {
  }

  lemma {:induction false} PowSixteen(k: nat)
    ensures Pow(16, k) == Pow(2, 4 * k)
  {
    if k > 0 {
      PowSixteen(k - 1);
      PowAdd(2, 4, 4 * (k - 1));
      assert Pow(2, 3) == 2 * Pow(2, 2) && Pow(2, 2) == 2 * Pow(2, 1);
    }
  }

  /** Printing then reading the digits of a number gives the number. */
  lemma {:induction false} DigitsValue(n: nat)
    ensures AllDigits(Digits(n)) && Value(Digits(n)) == n
  {
    if n < 16 {
      DigitOf(n);
      SingleValue(Digits(n));
    } else {
      DigitsValue(n / 16);
      DigitOf(n % 16);
      assert Digits(n)[..|Digits(n)| - 1] == Digits(n / 16);
    }
  }

  lemma {:induction false} LeadingZero(s: string)
    requires AllDigits(s)
    ensures AllDigits("0" + s) && Value("0" + s) == Value(s)
  {
    if s == "" {
      SingleValue("0" + s);
    } else {
      LeadingZero(s[..|s| - 1]);
      assert ("0" + s)[..|s|] == "0" + s[..|s| - 1];
    }
  }

  lemma EvenDigitsValue(n: nat)
    ensures AllDigits(EvenDigits(n)) && Value(EvenDigits(n)) == n
  {
    DigitsValue(n);
    LeadingZero(Digits(n));
  }

  lemma Remainder(a: nat, d: nat, p: nat)
    requires d < 16 && p > 0
    ensures (a * 16 + d) % (16 * p) == (a % p) * 16 + d
  {
    var q, r := a / p, a % p;
    assert a * 16 + d == (16 * p) * q + (r * 16 + d) by {
      assert a == p * q + r;
    }
    RemainderIs(16 * p, q, r * 16 + d);
  }

  lemma RemainderIs(m: nat, q: nat, r: nat)
    requires r < m
    ensures (m * q + r) % m == r
  {
    var x := m * q + r;
    assert x == m * (x / m) + x % m;
    Factor(m, x / m, q + 1);
    Factor(m, q, x / m + 1);
  }

  lemma Factor(m: nat, a: nat, b: nat)
    ensures m * a < m * b ==> a < b
  {
  }

  /** The last `k` digits of a number are the number modulo 16 to the `k`. */
  lemma {:induction false} LastDigits(s: string, k: nat)
    requires AllDigits(s) && k <= |s|
    ensures AllDigits(s[|s| - k..]) && Value(s[|s| - k..]) == Value(s) % Pow(16, k)
  {
    var tail := s[|s| - k..];
    if k > 0 {
      var init := s[..|s| - 1];
      LastDigits(init, k - 1);
      assert tail[..k - 1] == init[|init| - (k - 1)..];
      DigitSmall(s[|s| - 1]);
      Remainder(Value(init), DigitValue(s[|s| - 1]).value, Pow(16, k - 1));
    }
  }

  lemma DigitSmall(c: char)
    requires DigitValue(c).Some?
    ensures DigitValue(c).value < 16
  {
  }

  // ---------- when the text is a number ----------

  /**
   The text reads back as the shifted value modulo 16 to the number of digits kept exactly when at least
   one digit is kept and the shifted value prints with at least that many; any other call makes a text
   that cannot be read.
   */
  lemma CastExact(value: nat, shiftAmount: nat, uintSize: nat)
    ensures var shifted, k := ShiftRight(value, shiftAmount), DigitsFor(uintSize);
            ReadNumber(ShiftRightAndCast(value, shiftAmount, uintSize)) ==
            if 1 <= k <= |EvenDigits(shifted)| then Some(shifted % Pow(16, k)) else None
  {
    var shifted, k := ShiftRight(value, shiftAmount), DigitsFor(uintSize);
    var digits := EvenDigits(shifted);
    var text := "0x" + digits;
    EvenDigitsValue(shifted);
    var kept := Substring(text, |text| - k);
    var all := "0x" + kept;
    assert all[2..] == kept;
    if k <= |digits| {
      LastDigits(digits, k);
      assert kept == digits[|digits| - k..];
    } else {
      var at := if k == |digits| + 1 then 0 else 1;
      assert kept[at] == 'x';
      assert DigitValue('x').None?;
    }
  }

  lemma WholeDigits(uintSize: nat)
    requires uintSize % 4 == 0
    ensures DigitsFor(uintSize) == uintSize / 4 && Pow(16, DigitsFor(uintSize)) == Pow(2, uintSize)
  {
    PowSixteen(uintSize / 4);
  }

  /** For a size in whole digits that is the shift and the cast of the integer. */
  lemma CastIsShiftAndMask(value: nat, shiftAmount: nat, uintSize: nat)
    requires uintSize % 4 == 0
    ensures ReadNumber(ShiftRightAndCast(value, shiftAmount, uintSize)) == Some(ShiftRight(value, shiftAmount) % Pow(2, uintSize)) <==>
            1 <= uintSize / 4 <= |EvenDigits(ShiftRight(value, shiftAmount))|
  {
    CastExact(value, shiftAmount, uintSize);
    WholeDigits(uintSize);
  }

  /** The window of the hash that part `i` reads. */
  function Window(hash: nat, i: nat, uintSize: nat): nat {
    ShiftRight(hash, Offset(i, uintSize)) % Pow(2, uintSize)
  }

  /** Part `i` is there exactly when its count is positive and enough digits are left from its window on. */
  predicate HasPart(hash: nat, partCount: nat, i: nat, uintSize: nat) {
    partCount > 0 && |EvenDigits(ShiftRight(hash, Offset(i, uintSize)))| >= DigitsFor(uintSize) > 0
  }

  lemma PartExact(hash: nat, partCount: nat, i: nat, uintSize: nat)
    requires uintSize % 4 == 0
    ensures GetPseudorandomPart(hash, partCount, Offset(i, uintSize), uintSize) ==
            if HasPart(hash, partCount, i, uintSize) then Some(Window(hash, i, uintSize) % partCount) else None
  {
    CastExact(hash, Offset(i, uintSize), uintSize);
    WholeDigits(uintSize);
  }

  lemma {:induction false} DigitsBound(n: nat, k: nat)
    requires k >= 1
    ensures |Digits(n)| <= k <==> n < Pow(16, k)
  {
    if k > 1 {
      DigitsBound(n / 16, k - 1);
    }
  }

  lemma EvenLength(n: nat)
    ensures |EvenDigits(n)| == if |Digits(n)| % 2 == 1 then |Digits(n)| + 1 else |Digits(n)|
  {
  }

  lemma Rounded(d: nat, m: nat)
    requires m % 2 == 0
    ensures var even := if d % 2 == 1 then d + 1 else d; (even <= m <==> d <= m) && (even <= m + 1 <==> d <= m)
  {
  }

  /** Digits come in pairs, so that an even number of them is there from one digit less on. */
  lemma EnoughDigits(n: nat, k: nat)
    requires k >= 1
    ensures |EvenDigits(n)| >= k <==> k <= 2 || n >= Pow(16, if k % 2 == 0 then k - 2 else k - 1)
  {
    if k > 2 {
      var m := if k % 2 == 0 then k - 2 else k - 1;
      EvenLength(n);
      Rounded(|Digits(n)|, m);
      DigitsBound(n, m);
    }
  }

  lemma SeedOfParts(hash: nat, partCounts: seq<nat>, uintSize: nat)
    requires uintSize % 4 == 0
    ensures var seed := SeedParts(hash, partCounts, uintSize);
            && (seed.Some? <==> forall i :: 0 <= i < |partCounts| ==> HasPart(hash, partCounts[i], i, uintSize))
            && (seed.Some? ==>
                && |seed.value| == |partCounts|
                && forall i :: 0 <= i < |partCounts| && partCounts[i] > 0 ==> seed.value[i] == Window(hash, i, uintSize) % partCounts[i])
  {
    var parts := seq(|partCounts|, i requires 0 <= i < |partCounts| =>
      GetPseudorandomPart(hash, partCounts[i], Offset(i, uintSize), uintSize));
    forall i | 0 <= i < |partCounts|
      ensures parts[i] == if HasPart(hash, partCounts[i], i, uintSize) then Some(Window(hash, i, uintSize) % partCounts[i]) else None
    {
      PartExact(hash, partCounts[i], i, uintSize);
    }
  }

  /** The hash, without the bits before part `i`, is large enough for the digits of the part. */
  predicate Reaches(hash: nat, i: nat, uintSize: nat) {
    var digits := uintSize / 4;
    digits > 0 && (digits <= 2 || hash / Pow(2, i * uintSize) >= Pow(16, if digits % 2 == 0 then digits - 2 else digits - 1))
  }

  lemma HasPartReaches(hash: nat, partCount: nat, i: nat, uintSize: nat)
    requires uintSize % 4 == 0
    ensures HasPart(hash, partCount, i, uintSize) <==> partCount > 0 && Reaches(hash, i, uintSize)
  {
    if uintSize / 4 > 0 {
      EnoughDigits(ShiftRight(hash, Offset(i, uintSize)), uintSize / 4);
    }
  }

  lemma PartReached(hash: nat, partCount: nat, i: nat, uintSize: nat)
    requires uintSize % 4 == 0
    ensures GetPseudorandomPart(hash, partCount, Offset(i, uintSize), uintSize) ==
            if partCount > 0 && Reaches(hash, i, uintSize) then Some(hash / Pow(2, i * uintSize) % Pow(2, uintSize) % partCount) else None
  {
    PartExact(hash, partCount, i, uintSize);
    HasPartReaches(hash, partCount, i, uintSize);
  }

  /**
   A seed is made exactly when each part's count is positive and the hash reaches its digits; then each
   part is its window of the hash modulo its count, and the `i`-th window starts at bit `i * uintSize`.
   */
  lemma SeedOfWindows(hash: nat, partCounts: seq<nat>, uintSize: nat)
    requires uintSize % 4 == 0
    ensures var seed := SeedParts(hash, partCounts, uintSize);
            && (seed.Some? <==> forall i :: 0 <= i < |partCounts| ==> partCounts[i] > 0 && Reaches(hash, i, uintSize))
            && (seed.Some? ==>
                && |seed.value| == |partCounts|
                && forall i :: 0 <= i < |partCounts| && partCounts[i] > 0 ==>
                     seed.value[i] == hash / Pow(2, i * uintSize) % Pow(2, uintSize) % partCounts[i])
  {
    var parts := seq(|partCounts|, i requires 0 <= i < |partCounts| =>
      GetPseudorandomPart(hash, partCounts[i], Offset(i, uintSize), uintSize));
    forall i | 0 <= i < |partCounts|
      ensures parts[i] == if partCounts[i] > 0 && Reaches(hash, i, uintSize)
                          then Some(hash / Pow(2, i * uintSize) % Pow(2, uintSize) % partCounts[i]) else None
    {
      PartReached(hash, partCounts[i], i, uintSize);
    }
  }

  lemma ShiftBound(value: nat, m: nat, n: nat)
    requires value < Pow(16, m + n)
    ensures value / Pow(16, m) < Pow(16, n)
  {
    PowAdd(16, m, n);
    DivisionBound(value, Pow(16, m), Pow(16, n));
  }

  lemma DivisionBound(a: nat, p: nat, q: nat)
    requires p > 0 && a < p * q
    ensures a / p < q
  {
    Factor(p, a / p, q);
  }

  /** Shifting out all but `left` of the digits leaves too few for a cast to more digits. */
  lemma NoWindowLeft(hash: nat, partCount: nat, i: nat, gone: nat, left: nat, uintSize: nat)
    requires left >= 1 && |Digits(hash)| <= gone + left && DigitsFor(uintSize) > left + 1
    requires Offset(i, uintSize) == 4 * gone
    ensures !HasPart(hash, partCount, i, uintSize)
  {
    DigitsBound(hash, gone + left);
    PowSixteen(gone);
    ShiftBound(hash, gone, left);
    DigitsBound(ShiftRight(hash, 4 * gone), left);
  }

  /** The sixth part starts at bit 240 of a hash of 64 digits, where four digits are left of twelve: no seed of six parts or more is ever made. */
  lemma NoSeedOfSixParts(hash: nat, partCounts: seq<nat>)
    requires |Digits(hash)| <= 64 && |partCounts| >= 6
    ensures SeedParts(hash, partCounts, 48) == None
  {
    SeedOfParts(hash, partCounts, 48);
    NoWindowLeft(hash, partCounts[5], 5, 60, 4, 48);
  }

  /** A value shifted down to one byte: the text has two prefixes and is no number. */
  lemma SmallValueFails()
    ensures ShiftRightAndCast(5, 0, 48) == "0x0x05"
    ensures ReadNumber(ShiftRightAndCast(5, 0, 48)) == None
  {
    CastExact(5, 0, 48);
  }
}
