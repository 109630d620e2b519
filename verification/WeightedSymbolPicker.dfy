/** Vose's construction of the alias table, with both work stacks in one buffer, and the draw that uses it. */
module WeightedSymbolPicker {
  import opened AliasTable
  import opened BoundedDraw
  import opened Bytes

  const COINS: real := 4294967296.0

  // ---- coin thresholds ----

  /** Round to the nearest integer, a half to the even one. */
  function RoundHalfEven(x: real): (r: int)
    ensures -0.5 <= r as real - x <= 0.5
    ensures r as real - x == 0.5 || x - r as real == 0.5 ==> r % 2 == 0
  {
    var down := x.Floor;
    var rest := x - down as real;
    if rest < 0.5 || (rest == 0.5 && down % 2 == 0) then down else down + 1
  }

  /** The number of 32-bit coins that keep a bucket's own outcome. */
  function ToThreshold(probability: real): (t: uint32)
    ensures probability <= 0.0 ==> t == 0
    ensures 0.0 <= probability < 1.0 ==> -1.0 <= t as real - probability * COINS <= 1.0
    ensures probability >= 1.0 ==> t == 0xffff_ffff
    ensures 0.0 < probability && t < 0xffff_ffff ==>
      && -0.5 <= t as real - probability * COINS <= 0.5
      && (t as real - probability * COINS in {-0.5, 0.5} ==> t % 2 == 0)
    ensures t == 0xffff_ffff ==> probability * COINS >= 4294967294.5
  {
    if probability <= 0.0 then 0
    else
      var scaled := RoundHalfEven(probability * COINS);
      if scaled >= 0xffff_ffff then 0xffff_ffff else scaled
  }

  // ---- the two stacks ----

  ghost predicate Live(n: nat, smallTop: nat, largeTop: nat, p: nat) {
    p < smallTop || largeTop <= p < n
  }

  /** The small stack is work[..smallTop], the large one work[largeTop..]. They do not overlap, and between them
      they list every open bucket from `first` on, once, on the side its remaining weight belongs to.
      `at` is where each of these buckets sits. */
  ghost predicate Stacks(work: seq<nat>, at: seq<nat>, smallTop: nat, largeTop: nat, t: seq<Bucket>, s: seq<real>,
                         first: nat)
  {
    && |work| == |at| == |t| == |s| && smallTop <= largeTop <= |work|
    && (forall p | 0 <= p < |work| && Live(|work|, smallTop, largeTop, p) ::
          && first <= work[p] < |t| && t[work[p]].Open? && at[work[p]] == p
          && (s[work[p]] < 1.0 <==> p < smallTop))
    && (forall i | first <= i < |t| && t[i].Open? ::
          at[i] < |work| && Live(|work|, smallTop, largeTop, at[i]) && work[at[i]] == i)
  }

  /** Open buckets still hold positive weight; built ones keep a positive share of at most one for themselves. */
  ghost predicate Shares(t: seq<Bucket>, s: seq<real>) {
    && |t| == |s|
    && forall i | 0 <= i < |t| ::
         if t[i].Open? then s[i] > 0.0 else 0.0 < t[i].share <= 1.0 && t[i].alias < |t|
  }

  /** The arrays hold what the built buckets say. */
  ghost predicate InArrays(t: seq<Bucket>, alias: seq<nat>, threshold: seq<uint32>) {
    && |alias| == |threshold| == |t|
    && forall i | 0 <= i < |t| && t[i].Split? :: alias[i] == t[i].alias && threshold[i] == ToThreshold(t[i].share)
  }

  /** Pushing an open bucket that is on neither stack. */
  lemma PushKeepsStacks(work: seq<nat>, at: seq<nat>, smallTop: nat, largeTop: nat, t: seq<Bucket>, s: seq<real>,
                        i: nat)
    requires Stacks(work, at, smallTop, largeTop, t, s, i + 1) && smallTop < largeTop
    requires i < |t| && t[i].Open?
    ensures s[i] < 1.0 ==> Stacks(work[smallTop := i], at[i := smallTop], smallTop + 1, largeTop, t, s, i)
    ensures s[i] >= 1.0 ==> Stacks(work[largeTop - 1 := i], at[i := largeTop - 1], smallTop, largeTop - 1, t, s, i)
  {
  }

  /** Popping one of each, closing the small one, and pushing the large one back on the side it now belongs to. */
  lemma PairKeepsStacks(work: seq<nat>, at: seq<nat>, smallTop: nat, largeTop: nat, t: seq<Bucket>, s: seq<real>)
    requires Stacks(work, at, smallTop, largeTop, t, s, 0) && smallTop > 0 && largeTop < |work|
    requires Shares(t, s)
    ensures var small, large := work[smallTop - 1], work[largeTop];
      small != large && t[small].Open? && t[large].Open?
    ensures var small, large := work[smallTop - 1], work[largeTop];
      var t', s' := t[small := Split(s[small], large)], s[large := s[large] - (1.0 - s[small])];
      && Shares(t', s')
      && (s'[large] < 1.0 ==>
            Stacks(work[smallTop - 1 := large], at[large := smallTop - 1], smallTop, largeTop + 1, t', s', 0))
      && (s'[large] >= 1.0 ==> Stacks(work, at, smallTop - 1, largeTop, t', s', 0))
  {
    assert Live(|work|, smallTop, largeTop, smallTop - 1) && Live(|work|, smallTop, largeTop, largeTop);
  }

  /** Once the small stack has run out, what is left is exactly one unit per open bucket. */
  lemma LeftoversAreExact(work: seq<nat>, at: seq<nat>, smallTop: nat, largeTop: nat, t: seq<Bucket>, s: seq<real>)
    requires Stacks(work, at, smallTop, largeTop, t, s, 0) && Excess(t, s, |t|) == 0.0
    requires smallTop == 0 || largeTop == |work|
    ensures smallTop == 0
    ensures forall i | 0 <= i < |t| && t[i].Open? :: s[i] == 1.0
  {
    if smallTop == 0 {
      ExcessOfLarge(t, s, |t|);
    } else {
      assert Live(|work|, smallTop, largeTop, 0) && t[work[0]].Open?;
      ExcessOfSmall(t, s, |t|);
    }
  }

  /** Popping a large bucket that holds exactly one unit and giving it the whole of itself. */
  lemma CloseKeepsStacks(work: seq<nat>, at: seq<nat>, largeTop: nat, t: seq<Bucket>, s: seq<real>)
    requires Stacks(work, at, 0, largeTop, t, s, 0) && largeTop < |work| && Shares(t, s)
    ensures t[work[largeTop]].Open?
    ensures Stacks(work, at, 0, largeTop + 1, t[work[largeTop] := Split(1.0, work[largeTop])], s, 0)
    ensures Shares(t[work[largeTop] := Split(1.0, work[largeTop])], s)
  {
    assert Live(|work|, 0, largeTop, largeTop);
  }

  // ---- construction ----

  /** The total, or the reason the weights are refused. */
  datatype Checked = Total(sum: real) | NoWeights | NotPositive(index: nat)

  /** Adds the weights up, stopping at the first that is not positive. */
  method CheckWeights(weights: seq<real>) returns (r: Checked)
    ensures r.NoWeights? <==> weights == []
    ensures r.NotPositive? ==> r.index < |weights| && weights[r.index] <= 0.0
    ensures r.NotPositive? ==> forall i | 0 <= i < r.index :: weights[i] > 0.0
    ensures r.Total? ==> (forall i | 0 <= i < |weights| :: weights[i] > 0.0) && r.sum == Sum(weights, |weights|) > 0.0
  {
    if weights == [] {
      return NoWeights;
    }
    var total := 0.0;
    for i := 0 to |weights|
      invariant total == Sum(weights, i)
      invariant forall j | 0 <= j < i :: weights[j] > 0.0
    {
      if weights[i] <= 0.0 {
        return NotPositive(i);
      }
      total := total + weights[i];
    }
    SumOfPositive(weights, |weights|);
    r := Total(total);
  }

  /** Every bucket is open and holds its weight; the mean is one unit. */
  ghost predicate Fresh(t: seq<Bucket>, s: seq<real>, weight: seq<real>) {
    && |t| == |s| == |weight| && s == weight
    && (forall i | 0 <= i < |t| :: t[i].Open? && s[i] > 0.0)
    && Excess(t, s, |t|) == 0.0
  }

  /** The half-built table: the stacks list what is open and no mass has been lost. */
  ghost predicate Building(work: seq<nat>, at: seq<nat>, smallTop: nat, largeTop: nat, t: seq<Bucket>, s: seq<real>,
                           weight: seq<real>)
  {
    && Stacks(work, at, smallTop, largeTop, t, s, 0)
    && Shares(t, s) && |weight| == |t| && MassKept(t, s, weight) && Excess(t, s, |t|) == 0.0
  }

  ghost function AllOpen(n: nat): (t: seq<Bucket>)
    ensures |t| == n && forall i | 0 <= i < n :: t[i] == Open
  {
    seq(n, _ => Open)
  }

  lemma FreshKeepsMass(t: seq<Bucket>, s: seq<real>, weight: seq<real>)
    requires Fresh(t, s, weight)
    ensures MassKept(t, s, weight)
  {
    forall i | 0 <= i < |t| ensures Own(t, s, i) + Donated(t, |t|, i) == weight[i] {
      NothingDonated(t, |t|, i);
    }
  }

  /** Scaling makes the mean one unit. */
  method Scale(weights: seq<real>, total: real) returns (scaled: array<real>)
    requires |weights| > 0 && total == Sum(weights, |weights|) > 0.0
    requires forall i | 0 <= i < |weights| :: weights[i] > 0.0
    ensures fresh(scaled) && scaled.Length == |weights|
    ensures forall i | 0 <= i < |weights| :: scaled[i] == weights[i] * (|weights| as real / total)
    ensures Fresh(AllOpen(|weights|), scaled[..], scaled[..])
  {
    scaled := new real[|weights|];
    var scale := |weights| as real / total;
    for i := 0 to |weights|
      invariant forall j | 0 <= j < i :: scaled[j] == weights[j] * scale
    {
      scaled[i] := weights[i] * scale;
    }
    ExcessOfScaled(AllOpen(|weights|), weights, scaled[..], scale, |weights|);
    assert forall i | 0 <= i < |weights| :: weights[i] * scale > 0.0;
  }

  /** Sorts the buckets onto the two stacks. */
  method Partition(scaled: array<real>, work: array<nat>, ghost t: seq<Bucket>, ghost weight: seq<real>)
    returns (smallTop: nat, largeTop: nat, ghost at: seq<nat>)
    requires work.Length == scaled.Length && Fresh(t, scaled[..], weight)
    modifies work
    ensures Building(work[..], at, smallTop, largeTop, t, scaled[..], weight)
  {
    smallTop, largeTop := 0, scaled.Length;
    at := seq(scaled.Length, _ => 0);
    var i := scaled.Length;
    while i > 0
      invariant 0 <= i <= scaled.Length && largeTop == smallTop + i
      invariant Stacks(work[..], at, smallTop, largeTop, t, scaled[..], i)
    {
      i := i - 1;
      PushKeepsStacks(work[..], at, smallTop, largeTop, t, scaled[..], i);
      if scaled[i] < 1.0 {
        work[smallTop], at := i, at[i := smallTop];
        smallTop := smallTop + 1;
      } else {
        largeTop := largeTop - 1;
        work[largeTop], at := i, at[i := largeTop];
      }
    }
    FreshKeepsMass(t, scaled[..], weight);
  }

  /** Writes a built bucket into the two arrays. */
  method CloseOnto(alias: array<nat>, threshold: array<uint32>, bucket: nat, other: nat, coins: uint32,
                   ghost share: real, ghost t0: seq<Bucket>)
    returns (ghost t: seq<Bucket>)
    requires InArrays(t0, alias[..], threshold[..]) && bucket < |t0| && coins == ToThreshold(share)
    modifies alias, threshold
    ensures t == t0[bucket := Split(share, other)] && InArrays(t, alias[..], threshold[..])
  {
    threshold[bucket] := coins;
    alias[bucket] := other;
    t := t0[bucket := Split(share, other)];
  }

  lemma PairKeepsBuilding(work: seq<nat>, at: seq<nat>, smallTop: nat, largeTop: nat, t: seq<Bucket>, s: seq<real>,
                          weight: seq<real>)
    requires Building(work, at, smallTop, largeTop, t, s, weight) && smallTop > 0 && largeTop < |work|
    ensures var small, large := work[smallTop - 1], work[largeTop];
      small < |s| && large < |s| && small != large
    ensures var small, large := work[smallTop - 1], work[largeTop];
      var t', s' := t[small := Split(s[small], large)], s[large := s[large] - (1.0 - s[small])];
      if s'[large] < 1.0
      then Building(work[smallTop - 1 := large], at[large := smallTop - 1], smallTop, largeTop + 1, t', s', weight)
      else Building(work, at, smallTop - 1, largeTop, t', s', weight)
  {
    PairKeepsStacks(work, at, smallTop, largeTop, t, s);
    PairKeepsMass(t, s, weight, work[smallTop - 1], work[largeTop]);
  }

  /** Pops a small and a large bucket, closes the small one onto the large one, and pushes the large one back. */
  method PairOnce(alias: array<nat>, threshold: array<uint32>, scaled: array<real>, work: array<nat>,
                  smallTop0: nat, largeTop0: nat, ghost t0: seq<Bucket>)
    returns (smallTop: nat, largeTop: nat, ghost t: seq<Bucket>)
    requires alias != work && scaled.Length == work.Length == |t0|
    requires 0 < smallTop0 <= largeTop0 < work.Length
    requires work[smallTop0 - 1] < |t0| && work[largeTop0] < |t0| && work[smallTop0 - 1] != work[largeTop0]
    requires InArrays(t0, alias[..], threshold[..])
    modifies alias, threshold, scaled, work
    ensures InArrays(t, alias[..], threshold[..])
    ensures var small, large := old(work[smallTop0 - 1]), old(work[largeTop0]);
      && t == t0[small := Split(old(scaled[small]), large)]
      && scaled[..] == old(scaled[..])[large := old(scaled[large] - (1.0 - scaled[small]))]
      && (if scaled[large] < 1.0
          then work[..] == old(work[..])[smallTop0 - 1 := large] && smallTop == smallTop0 && largeTop == largeTop0 + 1
          else work[..] == old(work[..]) && smallTop == smallTop0 - 1 && largeTop == largeTop0)
  {
    smallTop := smallTop0 - 1;
    var small := work[smallTop];
    var large := work[largeTop0];
    largeTop := largeTop0 + 1;

    t := CloseOnto(alias, threshold, small, large, ToThreshold(scaled[small]), scaled[small], t0);

    // What fills the small bucket up to one unit comes out of the large one.
    scaled[large] := scaled[large] - (1.0 - scaled[small]);

    if scaled[large] < 1.0 {
      work[smallTop] := large;
      smallTop := smallTop + 1;
    } else {
      largeTop := largeTop - 1;
      work[largeTop] := large;
    }
  }

  /** One pairing keeps the half-built table sound. */
  method PairStep(alias: array<nat>, threshold: array<uint32>, scaled: array<real>, work: array<nat>,
                  smallTop0: nat, largeTop0: nat, ghost at0: seq<nat>, ghost t0: seq<Bucket>, ghost weight: seq<real>)
    returns (smallTop: nat, largeTop: nat, ghost at: seq<nat>, ghost t: seq<Bucket>)
    requires alias != work && scaled.Length == work.Length
    requires smallTop0 > 0 && largeTop0 < work.Length
    requires Building(work[..], at0, smallTop0, largeTop0, t0, scaled[..], weight)
    requires InArrays(t0, alias[..], threshold[..])
    modifies alias, threshold, scaled, work
    ensures Building(work[..], at, smallTop, largeTop, t, scaled[..], weight)
    ensures InArrays(t, alias[..], threshold[..])
    ensures smallTop - largeTop < smallTop0 - largeTop0
  {
    PairKeepsBuilding(work[..], at0, smallTop0, largeTop0, t0, scaled[..], weight);
    ghost var large, top := work[largeTop0], smallTop0 - 1;
    smallTop, largeTop, t := PairOnce(alias, threshold, scaled, work, smallTop0, largeTop0, t0);
    at := if scaled[large] < 1.0 then at0[large := top] else at0;
  }

  /** Pairs a small bucket with a large one until one stack is empty; then everything left holds exactly one unit
      and none of it is on the small stack. */
  method PairUp(alias: array<nat>, threshold: array<uint32>, scaled: array<real>, work: array<nat>,
                smallTop0: nat, largeTop0: nat, ghost at0: seq<nat>, ghost t0: seq<Bucket>, ghost weight: seq<real>)
    returns (smallTop: nat, largeTop: nat, ghost at: seq<nat>, ghost t: seq<Bucket>)
    requires alias != work && scaled.Length == work.Length
    requires Building(work[..], at0, smallTop0, largeTop0, t0, scaled[..], weight)
    requires InArrays(t0, alias[..], threshold[..])
    modifies alias, threshold, scaled, work
    ensures Building(work[..], at, smallTop, largeTop, t, scaled[..], weight) && InArrays(t, alias[..], threshold[..])
    ensures smallTop == 0 && forall i | 0 <= i < |t| && t[i].Open? :: scaled[i] == 1.0
  {
    smallTop, largeTop, at, t := smallTop0, largeTop0, at0, t0;
    while smallTop > 0 && largeTop < work.Length
      invariant Building(work[..], at, smallTop, largeTop, t, scaled[..], weight)
      invariant InArrays(t, alias[..], threshold[..])
      decreases smallTop + work.Length - largeTop
    {
      smallTop, largeTop, at, t := PairStep(alias, threshold, scaled, work, smallTop, largeTop, at, t, weight);
    }
    LeftoversAreExact(work[..], at, smallTop, largeTop, t, scaled[..]);
  }

  /** Gives every leftover bucket the whole of itself. The small stack is empty here, so its own closing loop
      never runs. */
  method CloseUp(alias: array<nat>, threshold: array<uint32>, scaled: array<real>, work: array<nat>,
                 smallTop0: nat, largeTop0: nat, ghost at: seq<nat>, ghost t0: seq<Bucket>, ghost weight: seq<real>)
    returns (ghost t: seq<Bucket>)
    requires alias != work && scaled.Length == work.Length
    requires Building(work[..], at, smallTop0, largeTop0, t0, scaled[..], weight)
    requires InArrays(t0, alias[..], threshold[..])
    requires smallTop0 == 0 && forall i | 0 <= i < |t0| && t0[i].Open? :: scaled[i] == 1.0
    modifies alias, threshold
    ensures |t| == scaled.Length == |weight| && Shares(t, scaled[..]) && InArrays(t, alias[..], threshold[..])
    ensures MassKept(t, scaled[..], weight)
    ensures forall i | 0 <= i < |t| :: t[i].Split?
  {
    var smallTop, largeTop := smallTop0, largeTop0;
    t := t0;
    while largeTop < work.Length
      invariant Building(work[..], at, 0, largeTop, t, scaled[..], weight)
      invariant InArrays(t, alias[..], threshold[..])
      invariant forall i | 0 <= i < |t| && t[i].Open? :: scaled[i] == 1.0
    {
      CloseKeepsStacks(work[..], at, largeTop, t, scaled[..]);
      CloseKeepsMass(t, scaled[..], weight, work[largeTop]);
      var large := work[largeTop];
      largeTop := largeTop + 1;
      t := CloseOnto(alias, threshold, large, large, 0xffff_ffff, 1.0, t);
    }
    assert smallTop == 0;
  }

  // ---- what a finished table draws ----

  ghost predicate Finished(t: seq<Bucket>) {
    forall i | 0 <= i < |t| :: t[i].Split? && 0.0 < t[i].share <= 1.0 && t[i].alias < |t|
  }

  /** All the mass that leads to outcome `i`: its own bucket's share and what the others give it. */
  ghost function Mass(t: seq<Bucket>, i: nat): real
    requires i < |t| && t[i].Split?
  {
    t[i].share + Donated(t, |t|, i)
  }

  function Outcome(t: seq<Bucket>, b: nat, coin: int): nat
    requires b < |t| && t[b].Split?
  {
    if coin < ToThreshold(t[b].share) then b else t[b].alias
  }

  /** The coins that make bucket `b` give outcome `i`. */
  ghost function CoinsFor(t: seq<Bucket>, b: nat, i: nat): set<int>
    requires b < |t| && t[b].Split?
  {
    set coin | 0 <= coin < TWO_32 && Outcome(t, b, coin) == i
  }

  /** How many (bucket, coin) pairs among the first `k` buckets give outcome `i`. */
  ghost function Hits(t: seq<Bucket>, k: nat, i: nat): nat
    requires k <= |t| && Finished(t)
  {
    if k == 0 then 0 else Hits(t, k - 1, i) + |CoinsFor(t, k - 1, i)|
  }

  /** How many of the first `k` buckets are shared between outcome `i` and another one. */
  ghost function Shared(t: seq<Bucket>, k: nat, i: nat): nat
    requires k <= |t| && Finished(t)
  {
    if k == 0 then 0
    else Shared(t, k - 1, i) + (if (k - 1 == i) != (t[k - 1].alias == i) then 1 else 0)
  }

  /** A bucket gives an outcome all of its coins, or its share of them to within one. */
  lemma CoinsOfBucket(t: seq<Bucket>, b: nat, i: nat)
    requires b < |t| && Finished(t)
    ensures var owed := (if b == i then t[b].share else 0.0) + (if t[b].alias == i then 1.0 - t[b].share else 0.0);
      var slack := if (b == i) != (t[b].alias == i) then 1.0 else 0.0;
      -slack <= |CoinsFor(t, b, i)| as real - owed * COINS <= slack
  {
    var cut := ToThreshold(t[b].share);
    var first, last := if b == i then 0 else cut, if t[b].alias == i then TWO_32 else cut;
    assert CoinsFor(t, b, i) == Between(first, last);
    assert (1.0 - t[b].share) * COINS == COINS - t[b].share * COINS;
  }

  lemma {:induction false} HitsNearMass(t: seq<Bucket>, k: nat, i: nat)
    requires k <= |t| && Finished(t)
    ensures var owed := (if i < k then t[i].share else 0.0) + Donated(t, k, i);
      -(Shared(t, k, i) as real) <= Hits(t, k, i) as real - owed * COINS <= Shared(t, k, i) as real
  {
    if k > 0 {
      HitsNearMass(t, k - 1, i);
      CoinsOfBucket(t, k - 1, i);
    }
  }

  /** Over every bucket and every 32-bit coin, each outcome comes up in proportion to its mass, to within one coin
      for each bucket it shares with another outcome. */
  lemma OutcomesFollowMass(t: seq<Bucket>, i: nat)
    requires Finished(t) && i < |t|
    ensures -(Shared(t, |t|, i) as real) <= Hits(t, |t|, i) as real - Mass(t, i) * COINS <= Shared(t, |t|, i) as real
  {
    HitsNearMass(t, |t|, i);
  }

  ghost predicate AllPositive(weights: seq<real>) {
    |weights| > 0 && forall i | 0 <= i < |weights| :: weights[i] > 0.0
  }

  /** A weight relative to the mean weight. */
  ghost function ScaledWeight(weights: seq<real>, i: nat): real
    requires AllPositive(weights) && i < |weights|
  {
    SumOfPositive(weights, |weights|);
    weights[i] * (|weights| as real / Sum(weights, |weights|))
  }

  /** The three phases in turn, on buckets that all start open. */
  method Vose(scaled: array<real>) returns (alias: array<nat>, threshold: array<uint32>, ghost t: seq<Bucket>)
    requires Fresh(AllOpen(scaled.Length), scaled[..], scaled[..])
    modifies scaled
    ensures fresh(alias) && fresh(threshold)
    ensures |t| == scaled.Length && Finished(t) && InArrays(t, alias[..], threshold[..])
    ensures forall i | 0 <= i < |t| :: Mass(t, i) == old(scaled[i])
  {
    ghost var weight := scaled[..];
    var n := scaled.Length;
    alias, threshold := new nat[n], new uint32[n];
    var work := new nat[n];
    var smallTop, largeTop, at := Partition(scaled, work, AllOpen(n), weight);
    smallTop, largeTop, at, t := PairUp(alias, threshold, scaled, work, smallTop, largeTop, at, AllOpen(n), weight);
    t := CloseUp(alias, threshold, scaled, work, smallTop, largeTop, at, t, weight);
    assert forall i | 0 <= i < n :: Own(t, scaled[..], i) + Donated(t, n, i) == weight[i];
  }

  method Build(weights: seq<real>) returns (alias: array<nat>, threshold: array<uint32>, ghost t: seq<Bucket>)
    requires AllPositive(weights)
    ensures fresh(alias) && fresh(threshold)
    ensures |t| == |weights| && Finished(t) && InArrays(t, alias[..], threshold[..])
    ensures forall i | 0 <= i < |t| :: Mass(t, i) == ScaledWeight(weights, i)
  {
    var checked := CheckWeights(weights);
    var scaled := Scale(weights, checked.sum);
    assert forall i | 0 <= i < |weights| :: scaled[i] == ScaledWeight(weights, i);
    alias, threshold, t := Vose(scaled);
  }

  class WeightedSymbolPicker {
    const alias: array<nat>
    const threshold: array<uint32>
    ghost const table: seq<Bucket>

    ghost predicate Valid()
      reads alias, threshold
    {
      table != [] && Finished(table) && InArrays(table, alias[..], threshold[..])
    }

    /** In exact arithmetic the table holds every weight exactly, scaled so that the mean is one. */
    constructor (weights: seq<real>)
      requires AllPositive(weights)
      ensures Valid() && fresh(alias) && fresh(threshold) && |table| == |weights|
      ensures forall i | 0 <= i < |weights| :: Mass(table, i) == ScaledWeight(weights, i)
    {
      var a, c, t := Build(weights);
      alias, threshold, table := a, c, t;
    }

    /** Draws a symbol: one half of the draw says which bucket, the other is the coin tossed there. */
    method Next(high: uint32, low: uint32) returns (symbol: nat)
      requires Valid()
      ensures symbol < |table| && symbol == Outcome(table, Lemire(high, |table|), low)
    {
      var bucket := Lemire(high, alias.Length);
      symbol := if low < threshold[bucket] then bucket else alias[bucket];
    }
  }
}
