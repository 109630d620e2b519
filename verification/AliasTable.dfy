/** What an alias table has to satisfy: every outcome's own bucket plus what other buckets give it adds up to
    its scaled weight. */
module AliasTable {

  /** A bucket not built yet, or split between its own outcome and an alias. */
  datatype Bucket = Open | Split(share: real, alias: nat)

  ghost function Sum(w: seq<real>, k: nat): real
    requires k <= |w|
  {
    if k == 0 then 0.0 else Sum(w, k - 1) + w[k - 1]
  }

  /** Mass the first `k` buckets hand to outcome `i`. */
  ghost function Donated(t: seq<Bucket>, k: nat, i: nat): real
    requires k <= |t|
  {
    if k == 0 then 0.0
    else Donated(t, k - 1, i) + (if t[k - 1].Split? && t[k - 1].alias == i then 1.0 - t[k - 1].share else 0.0)
  }

  /** How far the open buckets among the first `k` are, together, from holding one unit each. */
  ghost function Excess(t: seq<Bucket>, s: seq<real>, k: nat): real
    requires k <= |t| == |s|
  {
    if k == 0 then 0.0 else Excess(t, s, k - 1) + (if t[k - 1].Open? then s[k - 1] - 1.0 else 0.0)
  }

  /** Own mass of outcome `i`: its share once built, what is left of its weight until then. */
  function Own(t: seq<Bucket>, s: seq<real>, i: nat): real
    requires i < |t| == |s|
  {
    if t[i].Split? then t[i].share else s[i]
  }

  /** Nothing is created or lost: own mass plus donations is the scaled weight. */
  ghost predicate MassKept(t: seq<Bucket>, s: seq<real>, weight: seq<real>)
    requires |t| == |s| == |weight|
  {
    forall i | 0 <= i < |t| :: Own(t, s, i) + Donated(t, |t|, i) == weight[i]
  }

  lemma {:induction false} DonatedAfterSplit(t: seq<Bucket>, k: nat, at: nat, share: real, alias: nat, i: nat)
    requires k <= |t| && at < |t| && t[at].Open?
    ensures Donated(t[at := Split(share, alias)], k, i)
         == Donated(t, k, i) + (if at < k && alias == i then 1.0 - share else 0.0)
  {
    if k > 0 {
      DonatedAfterSplit(t, k - 1, at, share, alias, i);
    }
  }

  lemma {:induction false} ExcessAfterSplit(t: seq<Bucket>, s: seq<real>, k: nat, at: nat, share: real, alias: nat)
    requires k <= |t| == |s| && at < |t| && t[at].Open?
    ensures Excess(t[at := Split(share, alias)], s, k) == Excess(t, s, k) - (if at < k then s[at] - 1.0 else 0.0)
  {
    if k > 0 {
      ExcessAfterSplit(t, s, k - 1, at, share, alias);
    }
  }

  lemma {:induction false} ExcessAfterSet(t: seq<Bucket>, s: seq<real>, k: nat, at: nat, v: real)
    requires k <= |t| == |s| && at < |t| && t[at].Open?
    ensures Excess(t, s[at := v], k) == Excess(t, s, k) + (if at < k then v - s[at] else 0.0)
  {
    if k > 0 {
      ExcessAfterSet(t, s, k - 1, at, v);
    }
  }

  /** The pairing step: the small bucket is closed with its own mass, and the large one gives it exactly its
      shortfall. Mass is kept and the open buckets still hold one unit each on average. */
  lemma PairKeepsMass(t: seq<Bucket>, s: seq<real>, weight: seq<real>, small: nat, large: nat)
    requires |t| == |s| == |weight| && MassKept(t, s, weight)
    requires small < |t| && large < |t| && small != large && t[small].Open? && t[large].Open?
    ensures var t' := t[small := Split(s[small], large)]; var s' := s[large := s[large] - (1.0 - s[small])];
      MassKept(t', s', weight) && Excess(t', s', |t|) == Excess(t, s, |t|)
  {
    var t', s' := t[small := Split(s[small], large)], s[large := s[large] - (1.0 - s[small])];
    forall i | 0 <= i < |t| ensures Own(t', s', i) + Donated(t', |t|, i) == weight[i] {
      DonatedAfterSplit(t, |t|, small, s[small], large, i);
      assert Own(t, s, i) + Donated(t, |t|, i) == weight[i];
    }
    ExcessAfterSplit(t, s, |t|, small, s[small], large);
    ExcessAfterSet(t', s, |t|, large, s'[large]);
  }

  /** Closing a bucket that holds exactly one unit onto itself changes nothing. */
  lemma CloseKeepsMass(t: seq<Bucket>, s: seq<real>, weight: seq<real>, at: nat)
    requires |t| == |s| == |weight| && MassKept(t, s, weight)
    requires at < |t| && t[at].Open? && s[at] == 1.0
    ensures var t' := t[at := Split(1.0, at)]; MassKept(t', s, weight) && Excess(t', s, |t|) == Excess(t, s, |t|)
  {
    var t' := t[at := Split(1.0, at)];
    forall i | 0 <= i < |t| ensures Own(t', s, i) + Donated(t', |t|, i) == weight[i] {
      DonatedAfterSplit(t, |t|, at, 1.0, at, i);
      assert Own(t, s, i) + Donated(t, |t|, i) == weight[i];
    }
    ExcessAfterSplit(t, s, |t|, at, 1.0, at);
  }

  lemma {:induction false} ExcessOfLarge(t: seq<Bucket>, s: seq<real>, k: nat)
    requires k <= |t| == |s| && forall i | 0 <= i < k && t[i].Open? :: s[i] >= 1.0
    ensures Excess(t, s, k) >= 0.0
    ensures Excess(t, s, k) == 0.0 ==> forall i | 0 <= i < k && t[i].Open? :: s[i] == 1.0
  {
    if k > 0 {
      ExcessOfLarge(t, s, k - 1);
    }
  }

  lemma {:induction false} ExcessOfSmall(t: seq<Bucket>, s: seq<real>, k: nat)
    requires k <= |t| == |s| && forall i | 0 <= i < k && t[i].Open? :: s[i] < 1.0
    ensures Excess(t, s, k) <= 0.0
    ensures Excess(t, s, k) == 0.0 ==> forall i | 0 <= i < k :: !t[i].Open?
  {
    if k > 0 {
      ExcessOfSmall(t, s, k - 1);
    }
  }

  lemma {:induction false} SumOfPositive(w: seq<real>, k: nat)
    requires k <= |w| && forall i | 0 <= i < k :: w[i] > 0.0
    ensures Sum(w, k) >= 0.0 && (k > 0 ==> Sum(w, k) > 0.0)
  {
    if k > 0 {
      SumOfPositive(w, k - 1);
    }
  }

  lemma {:induction false} ExcessOfScaled(t: seq<Bucket>, w: seq<real>, s: seq<real>, scale: real, k: nat)
    requires k <= |t| == |w| == |s| && forall i | 0 <= i < |t| :: t[i].Open? && s[i] == w[i] * scale
    ensures Excess(t, s, k) == Sum(w, k) * scale - k as real
  {
    if k > 0 {
      ExcessOfScaled(t, w, s, scale, k - 1);
      assert Sum(w, k) * scale == Sum(w, k - 1) * scale + w[k - 1] * scale;
    }
  }

  lemma {:induction false} NothingDonated(t: seq<Bucket>, k: nat, i: nat)
    requires k <= |t| && forall j | 0 <= j < k :: t[j].Open?
    ensures Donated(t, k, i) == 0.0
  {
    if k > 0 {
      NothingDonated(t, k - 1, i);
    }
  }
}
