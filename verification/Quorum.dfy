/** `dynamicQuorumVotes`: the quorum as a function of the votes against, in floor arithmetic. */
module Quorum {
  import opened Numbers
  import opened Wrappers

  const MAX_I32: int := 0x7FFF_FFFF

  /** `BigInt.div` rounds toward zero. */
  function TruncDiv(a: int, b: int): int
    requires b != 0
  {
    if a >= 0 && b > 0 then a / b
    else
      var q := (if a < 0 then -a else a) / (if b < 0 then -b else b);
      if (a < 0) == (b < 0) then q else -q
  }

  function AdjustedBPS(againstVotes: int, totalSupply: int, minBPS: int, coefficient: int): int
    requires totalSupply != 0
  {
    var againstVotesBPS := TruncDiv(againstVotes * 10000, totalSupply);
    TruncDiv(coefficient * againstVotesBPS, 1000000) + minBPS
  }

  /** `None` is an aborted handler: a division by zero, or a number that does not fit in 32 bits. */
  function DynamicQuorumVotes(againstVotes: int, totalSupply: int, minBPS: int, maxBPS: int, coefficient: int): Option<int> {
    if totalSupply == 0 then None
    else
      var adjusted := AdjustedBPS(againstVotes, totalSupply, minBPS, coefficient);
      if !(-MAX_I32 - 1 <= adjusted <= MAX_I32) then None
      else Some(TruncDiv(totalSupply * Min(maxBPS, adjusted), 10000))
  }

  lemma {:induction false} ScaleUp(x: nat, y: nat, k: nat)
    requires x <= y
    ensures x * k <= y * k && k * x <= k * y
  {
    if k > 0 {
      ScaleUp(x, y, k - 1);
      assert x * k == x * (k - 1) + x && y * k == y * (k - 1) + y;
    }
  }

  lemma DivideDown(x: nat, y: nat, k: nat)
    requires x <= y && k > 0
    ensures x / k <= y / k
  {
    if y / k < x / k {
      ScaleUp(y / k + 1, x / k, k);
    }
  }

  lemma AdjustedUp(a: nat, a': nat, supply: nat, min: nat, min': nat, c: nat, c': nat)
    requires a <= a' && min <= min' && c <= c' && supply > 0
    ensures 0 <= AdjustedBPS(a, supply, min, c) <= AdjustedBPS(a', supply, min', c')
  {
    DivideDown(a * 10000, a' * 10000, supply);
    var v, v' := a * 10000 / supply, a' * 10000 / supply;
    ScaleUp(v, v', c);
    ScaleUp(c, c', v');
    DivideDown(c * v, c' * v', 1000000);
  }

  /** More votes against, or larger parameters, never lower the quorum; whatever is smaller than what fits in 32 bits fits. */
  lemma QuorumMonotone(a: nat, a': nat, supply: nat, min: nat, min': nat, max: nat, max': nat, c: nat, c': nat)
    requires a <= a' && min <= min' && max <= max' && c <= c'
    requires DynamicQuorumVotes(a', supply, min', max', c').Some?
    ensures DynamicQuorumVotes(a, supply, min, max, c).Some?
    ensures DynamicQuorumVotes(a, supply, min, max, c).value <= DynamicQuorumVotes(a', supply, min', max', c').value
  {
    AdjustedUp(a, a', supply, min, min', c, c');
    var q, q' := Min(max, AdjustedBPS(a, supply, min, c)), Min(max', AdjustedBPS(a', supply, min', c'));
    ScaleUp(q, q', supply);
    DivideDown(supply * q, supply * q', 10000);
  }

  /** The quorum never exceeds the maximum's share of the supply. */
  lemma QuorumCapped(a: nat, supply: nat, min: nat, max: nat, c: nat)
    requires DynamicQuorumVotes(a, supply, min, max, c).Some?
    ensures 0 <= DynamicQuorumVotes(a, supply, min, max, c).value <= supply * max / 10000
  {
    AdjustedUp(a, a, supply, min, min, c, c);
    var q := Min(max, AdjustedBPS(a, supply, min, c));
    ScaleUp(q, max, supply);
    DivideDown(supply * q, supply * max, 10000);
  }

  /** The computation is defined exactly when there is a supply and the adjusted basis points fit in 32 bits. */
  lemma DefinedExact(a: nat, supply: nat, min: nat, max: nat, c: nat)
    ensures DynamicQuorumVotes(a, supply, min, max, c).Some? <==>
            supply > 0 && c * (a * 10000 / supply) / 1000000 + min <= MAX_I32
  {
    if supply > 0 {
      AdjustedUp(a, a, supply, min, min, c, c);
      var v := a * 10000 / supply;
      ScaleUp(0, v, c);
      TruncNat(a * 10000, supply);
      TruncNat(c * v, 1000000);
    }
  }

  lemma WholeSupplyAgainst(supply: nat, c: nat)
    requires supply > 0
    ensures supply * 10000 / supply == 10000 && c * 10000 / 1000000 == c / 100
  {
    assert supply * 10000 == 10000 * supply + 0;
  }

  /**
   With no more votes against than there is supply the computation never aborts, if and only if there
   is a supply and a hundredth of the coefficient plus the minimum fits in 32 bits, as it does for
   every minimum of 16 bits and coefficient of 32.
   */
  lemma NeverAbortsExact(supply: nat, min: nat, max: nat, c: nat)
    ensures (forall a: nat :: a <= supply ==> DynamicQuorumVotes(a, supply, min, max, c).Some?) <==>
            supply > 0 && c / 100 + min <= MAX_I32
    ensures supply > 0 && min < 0x1_0000 && c < 0x1_0000_0000 ==>
              forall a: nat :: a <= supply ==> DynamicQuorumVotes(a, supply, min, max, c).Some?
  {
    DefinedExact(supply, supply, min, max, c);
    if supply > 0 {
      WholeSupplyAgainst(supply, c);
      if c / 100 + min <= MAX_I32 {
        forall a: nat | a <= supply
          ensures DynamicQuorumVotes(a, supply, min, max, c).Some?
        {
          QuorumMonotone(a, supply, supply, min, min, max, max, c, c);
        }
      } else {
        assert DynamicQuorumVotes(supply, supply, min, max, c).None?;
      }
    } else {
      assert DynamicQuorumVotes(0, supply, min, max, c).None?;
    }
  }

  // ---------- the exact rational quorum ----------

  function MinReal(a: real, b: real): real {
    if a < b then a else b
  }

  /** The quorum without any rounding. */
  function ExactQuorum(a: nat, supply: nat, min: nat, max: nat, c: nat): real
    requires supply > 0
  {
    supply as real * ExactBPS(a, supply, min, max, c) / 10000.0
  }

  function ExactBPS(a: nat, supply: nat, min: nat, max: nat, c: nat): real
    requires supply > 0
  {
    var share := (a * 10000) as real / supply as real;
    MinReal(max as real, min as real + c as real * share / 1000000.0)
  }

  lemma ScaleReal(x: real, y: real, k: real)
    requires k > 0.0
    ensures k * x <= k * y <==> x <= y
    ensures k * x < k * y <==> x < y
  {
    assert k * (y - x) == k * y - k * x;
  }

  lemma RealQuotient(x: real, n: real, d: real, q: real, r: real)
    requires d > 0.0 && x * d == n && n == d * q + r && 0.0 <= r < d
    ensures q <= x < q + 1.0
  {
    ScaleReal(q, x, d);
    ScaleReal(x, q + 1.0, d);
    assert d * (q + 1.0) == d * q + d;
  }

  lemma FloorBound(n: nat, d: nat)
    requires d > 0
    ensures (n / d) as real <= n as real / d as real < (n / d) as real + 1.0
  {
    var q, r := n / d, n % d;
    assert n == d * q + r;
    assert (d * q) as real == d as real * q as real;
    RealQuotient(n as real / d as real, n as real, d as real, q as real, r as real);
  }

  lemma {:induction false} ProductAsReal(c: nat, v: nat)
    ensures (c * v) as real == c as real * v as real
  {
    if v > 0 {
      ProductAsReal(c, v - 1);
      assert c * v == c * (v - 1) + c;
      assert c as real * v as real == c as real * (v - 1) as real + c as real;
    }
  }

  lemma AdjustmentBound(v: nat, share: real, c: nat)
    requires v as real <= share < v as real + 1.0
    ensures var rounded := (c * v / 1000000) as real;
            var exact := c as real * share / 1000000.0;
            rounded <= exact < rounded + 1.0 + c as real / 1000000.0
  {
    ScaleUp(0, v, c);
    FloorBound(c * v, 1000000);
    ProductAsReal(c, v);
    PerMillion(v as real, share, c as real, (c * v / 1000000) as real);
  }

  lemma PartOfOne(c: real, part: real)
    requires 0.0 <= part <= 1.0 && c >= 0.0
    ensures 0.0 <= c * part <= c
  {
  }

  lemma PerMillionLinear(low: real, more: real, c: real, rounded: real)
    requires 0.0 <= more <= c && rounded <= low / 1000000.0 < rounded + 1.0
    ensures rounded <= (low + more) / 1000000.0 < rounded + 1.0 + c / 1000000.0
  {
  }

  lemma PerMillionOfSum(v: real, part: real, c: real, rounded: real)
    requires 0.0 <= part <= 1.0 && c >= 0.0 && rounded <= c * v / 1000000.0 < rounded + 1.0
    ensures rounded <= c * (v + part) / 1000000.0 < rounded + 1.0 + c / 1000000.0
  {
    PartOfOne(c, part);
    PerMillionLinear(c * v, c * part, c, rounded);
    assert c * (v + part) == c * v + c * part;
  }

  lemma PerMillion(v: real, share: real, c: real, rounded: real)
    requires v <= share < v + 1.0 && c >= 0.0 && rounded <= c * v / 1000000.0 < rounded + 1.0
    ensures rounded <= c * share / 1000000.0 < rounded + 1.0 + c / 1000000.0
  {
    PerMillionOfSum(v, share - v, c, rounded);
    assert v + (share - v) == share;
  }

  /** The cap keeps the distance between the rounded and the exact basis points. */
  lemma CapBound(min: nat, max: nat, rounded: nat, exact: real, slack: real)
    requires rounded as real <= exact < rounded as real + slack
    ensures var q := Min(max, rounded + min);
            q as real <= MinReal(max as real, min as real + exact) < q as real + slack
  {
  }

  lemma ShareBound(supply: nat, q: nat, exactBPS: real, slack: real)
    requires supply > 0 && q as real <= exactBPS < q as real + slack
    ensures var exact := supply as real * exactBPS / 10000.0;
            (supply * q / 10000) as real <= exact < (supply * q / 10000) as real + 1.0 + supply as real * slack / 10000.0
  {
    FloorBound(supply * q, 10000);
    assert (supply * q) as real == supply as real * q as real;
    ScaleReal(q as real, exactBPS, supply as real);
    ScaleReal(exactBPS, q as real + slack, supply as real);
    assert supply as real * (q as real + slack) == supply as real * q as real + supply as real * slack;
  }

  /** On natural numbers the truncating divisions are floors. */
  lemma QuorumInNat(a: nat, supply: nat, min: nat, max: nat, c: nat)
    requires DynamicQuorumVotes(a, supply, min, max, c).Some?
    ensures var q := Min(max, c * (a * 10000 / supply) / 1000000 + min);
            0 <= c * (a * 10000 / supply) / 1000000 &&
            q >= 0 && DynamicQuorumVotes(a, supply, min, max, c).value == supply * q / 10000
  {
    var v := a * 10000 / supply;
    ScaleUp(0, v, c);
    TruncNat(a * 10000, supply);
    TruncNat(c * v, 1000000);
    var q := Min(max, c * v / 1000000 + min);
    ScaleUp(0, q, supply);
    TruncNat(supply * q, 10000);
  }

  lemma TruncNat(a: nat, b: nat)
    requires b > 0
    ensures TruncDiv(a, b) == a / b
  {
  }

  lemma BPSBound(a: nat, supply: nat, min: nat, max: nat, c: nat)
    requires supply > 0
    ensures var q := Min(max, c * (a * 10000 / supply) / 1000000 + min);
            q as real <= ExactBPS(a, supply, min, max, c) < q as real + (1.0 + c as real / 1000000.0)
  {
    var v, share := a * 10000 / supply, (a * 10000) as real / supply as real;
    FloorBound(a * 10000, supply);
    AdjustmentBound(v, share, c);
    ScaleUp(0, v, c);
    CapBound(min, max, c * v / 1000000, c as real * share / 1000000.0, 1.0 + c as real / 1000000.0);
  }

  lemma ShareOfBPS(a: nat, supply: nat, min: nat, max: nat, c: nat)
    requires supply > 0 && Min(max, c * (a * 10000 / supply) / 1000000 + min) >= 0
    ensures var quorum := (supply * Min(max, c * (a * 10000 / supply) / 1000000 + min) / 10000) as real;
            quorum <= ExactQuorum(a, supply, min, max, c) < quorum + 1.0 + supply as real * (1.0 + c as real / 1000000.0) / 10000.0
  {
    BPSBound(a, supply, min, max, c);
    ShareBound(supply, Min(max, c * (a * 10000 / supply) / 1000000 + min), ExactBPS(a, supply, min, max, c),
               1.0 + c as real / 1000000.0);
  }

  /** Rounding only lowers the quorum, and by less than one vote plus the supply's share of the two roundings in basis points. */
  lemma RoundingBound(a: nat, supply: nat, min: nat, max: nat, c: nat)
    requires DynamicQuorumVotes(a, supply, min, max, c).Some?
    ensures var quorum := DynamicQuorumVotes(a, supply, min, max, c).value as real;
            var exact := ExactQuorum(a, supply, min, max, c);
            quorum <= exact < quorum + 1.0 + supply as real * (1.0 + c as real / 1000000.0) / 10000.0
  {
    QuorumInNat(a, supply, min, max, c);
    ShareOfBPS(a, supply, min, max, c);
  }
}
