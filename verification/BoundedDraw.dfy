/** Bounded integers from 32-bit draws by multiply-shift, with and without the rejection step. */
module BoundedDraw {
  import opened Bytes
  import opened Divisibility

  const TWO_32: nat := 0x1_0000_0000

  datatype Option<+T> = None | Some(value: T)

  // ---- counting draws ----

  ghost function Between(lo: int, hi: int): (s: set<int>)
    ensures forall d :: d in s <==> lo <= d < hi
    ensures lo <= hi ==> |s| == hi - lo
    decreases hi - lo
  {
    if lo >= hi then {} else Between(lo, hi - 1) + {hi - 1}
  }

  function CeilDiv(a: nat, r: nat): (c: nat)
    requires r > 0
  {
    (a + r - 1) / r
  }

  lemma CeilDivBounds(a: nat, r: nat)
    requires r > 0
    ensures (CeilDiv(a, r) - 1) * r < a <= CeilDiv(a, r) * r
  {
    var c := CeilDiv(a, r);
    var rest := (a + r - 1) % r;
    assert a + r - 1 == c * r + rest;
    assert (c - 1) * r == c * r - r;
  }

  /** The multiples of `r` at or above `a` are the products of `CeilDiv(a, r)` and up. */
  lemma MultipleAtLeast(d: int, a: nat, r: nat)
    requires r > 0
    ensures d * r >= a <==> d >= CeilDiv(a, r)
  {
    var c: int := CeilDiv(a, r);
    CeilDivBounds(a, r);
    if d >= c {
      MultiplesInOrder(c, d, r);
    } else {
      MultiplesInOrder(d, c - 1, r);
    }
  }

  // ---- multiply-shift ----

  function High(draw: nat, outcomes: nat): nat {
    draw * outcomes / TWO_32
  }

  function Low(draw: nat, outcomes: nat): nat {
    draw * outcomes % TWO_32
  }

  /** The rejection-free draw; every outcome is in range. */
  function Lemire(draw: uint32, outcomes: nat): (k: nat)
    requires outcomes > 0
    ensures k < outcomes
  {
    assert draw * outcomes < TWO_32 * outcomes by {
      assert (TWO_32 - draw) * outcomes > 0;
    }
    High(draw, outcomes)
  }

  lemma HighIs(draw: nat, outcomes: nat, k: nat)
    ensures High(draw, outcomes) == k <==> k * TWO_32 <= draw * outcomes < (k + 1) * TWO_32
  {
  }

  ghost function DrawsOf(outcomes: nat, k: nat): set<int> {
    set d | 0 <= d < TWO_32 && High(d, outcomes) == k
  }

  lemma DrawsAreAnInterval(outcomes: nat, k: nat)
    requires k < outcomes
    ensures DrawsOf(outcomes, k) == Between(CeilDiv(k * TWO_32, outcomes), CeilDiv((k + 1) * TWO_32, outcomes))
  {
    forall d | 0 <= d < TWO_32
      ensures High(d, outcomes) == k <==> CeilDiv(k * TWO_32, outcomes) <= d < CeilDiv((k + 1) * TWO_32, outcomes)
    {
      HighIs(d, outcomes, k);
      MultipleAtLeast(d, k * TWO_32, outcomes);
      MultipleAtLeast(d, (k + 1) * TWO_32, outcomes);
    }
    MultipleAtLeast(TWO_32, (k + 1) * TWO_32, outcomes);
    assert TWO_32 * outcomes >= (k + 1) * TWO_32;
  }

  /** An interval of `n` numbers contains between floor(n / r) and ceil(n / r) multiples of `r`. */
  lemma MultiplesInInterval(a: nat, n: nat, r: nat)
    requires r > 0
    ensures n / r <= CeilDiv(a + n, r) - CeilDiv(a, r) <= CeilDiv(n, r)
  {
    var lo, q, c := CeilDiv(a, r), n / r, CeilDiv(n, r);
    CeilDivBounds(a, r);
    CeilDivBounds(n, r);
    assert (lo + c) * r == lo * r + c * r;
    MultipleAtLeast(lo + c, a + n, r);
    assert q * r <= n;
    assert (lo + q - 1) * r == (lo - 1) * r + q * r;
    MultipleAtLeast(lo + q - 1, a + n, r);
  }

  /** Without rejection every outcome has the floor or the ceiling of its fair number of draws. */
  lemma LemireIsNearlyUniform(outcomes: nat, k: nat)
    requires k < outcomes
    ensures TWO_32 / outcomes <= |DrawsOf(outcomes, k)| <= CeilDiv(TWO_32, outcomes)
  {
    MultiplesInInterval(k * TWO_32, TWO_32, outcomes);
    assert (k + 1) * TWO_32 == k * TWO_32 + TWO_32;
    DrawsAreAnInterval(outcomes, k);
  }

  // ---- with rejection ----

  /** The draws left over when 2^32 is not a multiple of the range. */
  function Threshold(range: nat): nat
    requires 0 < range <= TWO_32
  {
    (TWO_32 - range) % range
  }

  lemma ThresholdIsRemainder(range: nat)
    requires 0 < range <= TWO_32
    ensures Threshold(range) == TWO_32 % range && Threshold(range) < range
    ensures TWO_32 == (TWO_32 / range) * range + Threshold(range)
  {
    var q := TWO_32 / range;
    assert TWO_32 - range == (q - 1) * range + TWO_32 % range;
    ModUnique(TWO_32 - range, range, q - 1, TWO_32 % range);
  }

  predicate Accepted(draw: nat, range: nat)
    requires 0 < range <= TWO_32
  {
    Low(draw, range) >= Threshold(range)
  }

  ghost function AcceptedDraws(range: nat, k: nat): set<int>
    requires 0 < range <= TWO_32
  {
    set d | 0 <= d < TWO_32 && Accepted(d, range) && High(d, range) == k
  }

  /** A draw is accepted with outcome `k` when its product lands past the threshold in `k`'s stretch of 2^32. */
  lemma AcceptedIs(draw: nat, range: nat, k: nat)
    requires 0 < range <= TWO_32
    ensures Accepted(draw, range) && High(draw, range) == k
      <==> k * TWO_32 + Threshold(range) <= draw * range < (k + 1) * TWO_32
  {
    HighIs(draw, range, k);
    ThresholdIsRemainder(range);
  }

  /** The accepted stretch is exactly q multiples long, so it holds exactly q draws. */
  lemma AcceptedStretch(d: nat, a: nat, q: nat, range: nat)
    requires range > 0
    ensures a <= d * range < a + q * range <==> CeilDiv(a, range) <= d < CeilDiv(a, range) + q
  {
    MultipleAtLeast(d, a, range);
    MultipleAtLeast(d - q, a, range);
    assert (d - q) * range == d * range - q * range;
  }

  lemma AcceptedDrawsAreAnInterval(range: nat, k: nat, lo: int)
    requires k < range <= TWO_32
    requires lo == CeilDiv(k * TWO_32 + Threshold(range), range)
    ensures AcceptedDraws(range, k) == Between(lo, lo + TWO_32 / range)
  {
    var q, a := TWO_32 / range, k * TWO_32 + Threshold(range);
    ThresholdIsRemainder(range);
    assert (k + 1) * TWO_32 == a + q * range;
    forall d | 0 <= d < TWO_32
      ensures Accepted(d, range) && High(d, range) == k <==> lo <= d < lo + q
    {
      AcceptedIs(d, range, k);
      AcceptedStretch(d, a, q, range);
    }
    assert TWO_32 * range >= (k + 1) * TWO_32;
    AcceptedStretch(TWO_32, a, q, range);
    assert TWO_32 >= lo + q by {
      MultipleAtLeast(TWO_32, a, range);
    }
  }

  /** With rejection the result is exactly uniform: every outcome has the same number of accepted draws. */
  lemma RejectionIsExactlyUniform(range: nat, k: nat)
    requires k < range <= TWO_32
    ensures |AcceptedDraws(range, k)| == TWO_32 / range
  {
    var lo := CeilDiv(k * TWO_32 + Threshold(range), range);
    AcceptedDrawsAreAnInterval(range, k, lo);
    assert TWO_32 / range >= 0;
  }

  /** The index of the first accepted draw. */
  ghost predicate FirstAccepted(draws: seq<uint32>, range: nat, i: nat)
    requires 0 < range <= TWO_32
  {
    && i < |draws| && Accepted(draws[i], range)
    && forall j | 0 <= j < i :: !Accepted(draws[j], range)
  }

  /** NextInt over the draws its generator would make: the outcome of the first accepted one. The threshold
      is only computed when the low word falls below the range. */
  method NextInt(draws: seq<uint32>, range: nat) returns (r: Option<nat>, used: nat)
    requires 0 < range < 0x8000_0000
    ensures r.None? <==> forall j | 0 <= j < |draws| :: !Accepted(draws[j], range)
    ensures r.Some? ==>
      used > 0 && FirstAccepted(draws, range, used - 1) && r.value == High(draws[used - 1], range) < range
  {
    ThresholdIsRemainder(range);
    if draws == [] {
      return None, 0;
    }
    var outcome := Lemire(draws[0], range);
    var low := draws[0] * range % TWO_32;
    used := 1;
    if low < range {
      var threshold := (TWO_32 - range) % range;
      while low < threshold
        invariant 0 < used <= |draws| && low == Low(draws[used - 1], range)
        invariant outcome == High(draws[used - 1], range) < range
        invariant forall j | 0 <= j < used - 1 :: !Accepted(draws[j], range)
        decreases |draws| - used
      {
        if used == |draws| {
          return None, used;
        }
        outcome := Lemire(draws[used], range);
        low := draws[used] * range % TWO_32;
        used := used + 1;
      }
    }
    r := Some(outcome);
  }
}
