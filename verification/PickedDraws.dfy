/** The alias table over the generator's whole 64-bit draws: how many of them give each symbol. */
module PickedDraws {
  import opened AliasTable
  import opened BoundedDraw
  import opened WeightedSymbolPicker

  ghost function Pairs<A, B>(a: set<A>, b: set<B>): set<(A, B)> {
    set x, y | x in a && y in b :: (x, y)
  }

  lemma {:induction false} SizeOfRow<A, B>(x: A, b: set<B>)
    ensures |Pairs({x}, b)| == |b|
    decreases |b|
  {
    if |b| == 0 {
      assert Pairs({x}, b) == {};
    } else {
      var y :| y in b;
      SizeOfRow(x, b - {y});
      assert Pairs({x}, b) == Pairs({x}, b - {y}) + {(x, y)};
    }
  }

  lemma {:induction false} SizeOfPairs<A, B>(a: set<A>, b: set<B>)
    ensures |Pairs(a, b)| == |a| * |b|
    decreases |a|
  {
    if |a| == 0 {
      assert Pairs(a, b) == {};
    } else {
      var x :| x in a;
      SizeOfPairs(a - {x}, b);
      SizeOfRow(x, b);
      FirstRow(a, x, b);
      OneMoreRow(|a|, |b|);
    }
  }

  lemma FirstRow<A, B>(a: set<A>, x: A, b: set<B>)
    requires x in a
    ensures |Pairs(a, b)| == |Pairs(a - {x}, b)| + |Pairs({x}, b)|
  {
    assert Pairs(a, b) == Pairs(a - {x}, b) + Pairs({x}, b);
  }

  lemma OneMoreRow(a: nat, b: nat)
    ensures a * b == (a - 1) * b + b
  {
  }

  /** What a whole draw gives: its high half picks the bucket by multiply-shift, its low half is the coin. */
  ghost predicate Gives(t: seq<Bucket>, high: int, low: int, i: nat)
    requires t != [] && Finished(t)
  {
    && 0 <= high < TWO_32 && 0 <= low < TWO_32
    && Outcome(t, Lemire(high, |t|), low) == i
  }

  /** The draws that give outcome `i` through one of the first `k` buckets. */
  ghost function DrawsThrough(t: seq<Bucket>, k: nat, i: nat): set<(int, int)>
    requires t != [] && Finished(t) && k <= |t|
  {
    set high, low | 0 <= high < TWO_32 && 0 <= low < TWO_32 && Gives(t, high, low, i) && Lemire(high, |t|) < k
      :: (high, low)
  }

  /** All of the 2^64 draws that give outcome `i`. */
  ghost function DrawsGiving(t: seq<Bucket>, i: nat): set<(int, int)>
    requires t != [] && Finished(t)
  {
    DrawsThrough(t, |t|, i)
  }

  lemma OneMoreBucket(t: seq<Bucket>, k: nat, i: nat)
    requires t != [] && Finished(t) && k < |t|
    ensures DrawsThrough(t, k + 1, i) == DrawsThrough(t, k, i) + Pairs(DrawsOf(|t|, k), CoinsFor(t, k, i))
    ensures DrawsThrough(t, k, i) !! Pairs(DrawsOf(|t|, k), CoinsFor(t, k, i))
  {
  }

  /** Each bucket has the floor or the ceiling of its fair number of high halves, and each of its coins goes with
      every one of them. */
  lemma {:induction false} DrawsThroughCount(t: seq<Bucket>, k: nat, i: nat, fair: nat)
    requires t != [] && Finished(t) && k <= |t| && fair == TWO_32 / |t|
    ensures Within(fair, Hits(t, k, i), |DrawsThrough(t, k, i)|)
  {
    if k == 0 {
      assert DrawsThrough(t, 0, i) == {};
    } else {
      DrawsThroughCount(t, k - 1, i, fair);
      var high, coins := |DrawsOf(|t|, k - 1)|, |CoinsFor(t, k - 1, i)|;
      DrawsOfOneBucket(t, k - 1, i);
      HighHalves(|t|, k - 1, fair);
      WithinSum(fair, Hits(t, k - 1, i), |DrawsThrough(t, k - 1, i)|, high, coins, |DrawsThrough(t, k, i)|);
    }
  }

  /** A count of draws for `hits` bucket-and-coin pairs when each bucket has `fair` high halves or one more. */
  ghost predicate Within(fair: nat, hits: nat, count: nat) {
    fair * hits <= count <= (fair + 1) * hits
  }

  lemma WithinSum(fair: nat, hits: nat, count: nat, high: nat, coins: nat, total: nat)
    requires Within(fair, hits, count) && fair <= high <= fair + 1 && total == count + high * coins
    ensures Within(fair, hits + coins, total)
  {
    assert fair * coins <= high * coins <= (fair + 1) * coins;
    assert fair * (hits + coins) == fair * hits + fair * coins;
    assert (fair + 1) * (hits + coins) == (fair + 1) * hits + (fair + 1) * coins;
  }

  lemma DrawsOfOneBucket(t: seq<Bucket>, k: nat, i: nat)
    requires t != [] && Finished(t) && k < |t|
    ensures |DrawsThrough(t, k + 1, i)| == |DrawsThrough(t, k, i)| + |DrawsOf(|t|, k)| * |CoinsFor(t, k, i)|
  {
    OneMoreBucket(t, k, i);
    SizeOfPairs(DrawsOf(|t|, k), CoinsFor(t, k, i));
  }

  lemma HighHalves(outcomes: nat, k: nat, fair: nat)
    requires k < outcomes && fair == TWO_32 / outcomes
    ensures fair <= |DrawsOf(outcomes, k)| <= fair + 1
  {
    LemireIsNearlyUniform(outcomes, k);
    CeilAtMostOneMore(TWO_32, outcomes);
  }

  lemma CeilAtMostOneMore(a: nat, r: nat)
    requires r > 0
    ensures CeilDiv(a, r) <= a / r + 1
  {
    assert (a / r + 1) * r == a / r * r + r;
    MultipleAtLeast(a / r + 1, a, r);
  }

  /** A count of draws, against the mass an outcome holds in coins and the coins it may be off by: each bucket has
      its fair number of high halves to within one. */
  ghost predicate Follows(count: nat, fair: real, mass: real, slack: real) {
    (fair - 1.0) * (mass - slack) <= count as real <= (fair + 1.0) * (mass + slack)
  }

  /** Of the 2^64 draws every outcome gets its mass's share, to within one high half for each coin and one coin for
      each bucket it shares with another outcome. */
  lemma DrawsFollowMass(t: seq<Bucket>, i: nat)
    requires Finished(t) && i < |t| <= TWO_32
    ensures Follows(|DrawsGiving(t, i)|, COINS / |t| as real, Mass(t, i) * COINS, Shared(t, |t|, i) as real)
  {
    var fair, hits := TWO_32 / |t|, Hits(t, |t|, i);
    DrawsThroughCount(t, |t|, i, fair);
    OutcomesFollowMass(t, i);
    FairIsClose(|t|, fair);
    CountBounds(|DrawsGiving(t, i)|, fair, hits, COINS / |t| as real, Mass(t, i) * COINS, Shared(t, |t|, i) as real);
  }

  lemma CountBounds(count: nat, fair: nat, hits: nat, x: real, mass: real, slack: real)
    requires Within(fair, hits, count)
    requires x - 1.0 <= fair as real <= x && x >= 1.0 && -slack <= hits as real - mass <= slack
    ensures Follows(count, x, mass, slack)
  {
    CastProduct(fair, hits);
    CastProduct(fair + 1, hits);
    ScaleBounds(fair as real, x, hits as real, mass, slack);
  }

  lemma CastProduct(a: nat, b: nat)
    ensures (a * b) as real == a as real * b as real
  {
  }

  lemma FairIsClose(n: nat, fair: nat)
    requires 0 < n <= TWO_32 && fair == TWO_32 / n
    ensures COINS / n as real - 1.0 <= fair as real <= COINS / n as real && COINS / n as real >= 1.0
  {
    assert fair * n <= TWO_32 < fair * n + n;
    CastProduct(fair, n);
    QuotientBetween(COINS, n as real, fair as real);
  }

  lemma QuotientBetween(a: real, n: real, q: real)
    requires n > 0.0 && q * n <= a < q * n + n && a >= n
    ensures a / n - 1.0 <= q <= a / n && a / n >= 1.0
  {
    var x := a / n;
    assert x * n == a;
    CancelTimes(n, q, x);
    assert (x - 1.0) * n == x * n - n;
    CancelTimes(n, x - 1.0, q);
    CancelTimes(n, 1.0, x);
  }

  lemma CancelTimes(n: real, b: real, c: real)
    requires n > 0.0 && b * n <= c * n
    ensures b <= c
  {
    if b > c {
      LargerTimes(n, c, b);
    }
  }

  lemma LargerTimes(a: real, b: real, c: real)
    requires a >= 0.0 && b <= c
    ensures b * a <= c * a && (a > 0.0 && b < c ==> b * a < c * a)
  {
    assert (c - b) * a >= 0.0;
    assert (c - b) * a == c * a - b * a;
    if a > 0.0 && b < c {
      assert (c - b) * a > 0.0;
    }
  }

  lemma BothLarger(a: real, b: real, c: real, d: real)
    requires 0.0 <= a <= c && b <= d && d >= 0.0
    ensures a * b <= c * d
  {
    LargerTimes(a, b, d);
    LargerTimes(d, a, c);
    assert b * a == a * b && d * a == a * d;
  }

  lemma ScaleBounds(fair: real, x: real, hits: real, mass: real, slack: real)
    requires x - 1.0 <= fair <= x && x >= 1.0 && hits >= 0.0 && fair >= 0.0
    requires mass - slack <= hits <= mass + slack
    ensures (x - 1.0) * (mass - slack) <= fair * hits
    ensures (fair + 1.0) * hits <= (x + 1.0) * (mass + slack)
  {
    BothLarger(x - 1.0, mass - slack, fair, hits);
    BothLarger(fair + 1.0, hits, x + 1.0, mass + slack);
  }
}
