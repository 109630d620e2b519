/** Bookkeeping of what became of each sequence number a session has handed out. */
module SequenceLedger {

  datatype Fate = Queued | Skipped | Discarded | Voided

  /** The fates of the numbers `1` to `Length()`, the latest outermost. */
  datatype Ledger = Empty | Entry(past: Ledger, fate: Fate) {
    ghost function Length(): nat {
      if Empty? then 0 else past.Length() + 1
    }

    /** What became of number `n`. */
    ghost function FateOf(n: nat): Fate
      requires 1 <= n <= Length()
    {
      if n == Length() then fate else past.FateOf(n)
    }

    ghost function Total(f: Fate): nat {
      if Empty? then 0 else past.Total(f) + (if fate == f then 1 else 0)
    }

    /** The numbers still going to the consumer, in order. */
    ghost function Survivors(): seq<nat> {
      if Empty? then []
      else if fate == Queued then past.Survivors() + [past.Length() + 1]
      else past.Survivors()
    }

    /** The next `count` numbers, all given the fate `f`. */
    ghost function Assign(f: Fate, count: nat): (r: Ledger)
      ensures r.Length() == Length() + count
    {
      if count == 0 then this else Entry(Assign(f, count - 1), f)
    }

    /** The survivors at positions `from` to `to` turned into discards. */
    ghost function Discard(from: nat, to: nat): (r: Ledger)
      ensures r.Length() == Length()
    {
      if Empty? then Empty
      else Entry(past.Discard(from, to), if fate == Queued && from <= past.Total(Queued) < to then Discarded else fate)
    }
  }

  ghost predicate Increasing(s: seq<nat>) {
    forall i, j | 0 <= i < j < |s| :: s[i] < s[j]
  }

  /** The numbers `1, 2, ..., n`: nothing missing below the last one. */
  ghost predicate Contiguous(s: seq<nat>) {
    forall i | 0 <= i < |s| :: s[i] == i + 1
  }

  /** The `count` numbers starting at `from`. */
  ghost function UpFrom(from: nat, count: nat): (s: seq<nat>)
    ensures |s| == count
    ensures forall i | 0 <= i < count :: s[i] == from + i
  {
    if count == 0 then [] else UpFrom(from, count - 1) + [from + count - 1]
  }

  // ---- what the survivors are ----

  lemma {:induction false} SurvivorsAreTheQueued(l: Ledger)
    ensures Increasing(l.Survivors()) && |l.Survivors()| == l.Total(Queued)
    ensures forall n :: n in l.Survivors() <==> 1 <= n <= l.Length() && l.FateOf(n) == Queued
  {
    if l.Entry? {
      SurvivorsAreTheQueued(l.past);
      var before, s := l.past.Survivors(), l.Survivors();
      forall i, j | 0 <= i < j < |s| ensures s[i] < s[j] {
        assert s[i] == before[i] && before[i] in before;
      }
    }
  }

  /** Conservation: every number has exactly one fate, so the four totals add up. */
  lemma {:induction false} TotalsAddUp(l: Ledger)
    ensures l.Length() == l.Total(Queued) + l.Total(Skipped) + l.Total(Discarded) + l.Total(Voided)
  {
    if l.Entry? {
      TotalsAddUp(l.past);
    }
  }

  /** No number below a queued one was lost. */
  ghost predicate NoneLostBelow(l: Ledger) {
    forall j, k | 1 <= j < k <= l.Length() && l.FateOf(k) == Queued :: l.FateOf(j) == Queued
  }

  lemma ContiguousMeansNoneLost(l: Ledger)
    ensures Contiguous(l.Survivors()) <==> NoneLostBelow(l)
  {
    SurvivorsAreTheQueued(l);
    var s := l.Survivors();
    if Contiguous(s) {
      forall j, k | 1 <= j < k <= l.Length() && l.FateOf(k) == Queued ensures l.FateOf(j) == Queued {
        assert k in s;
        assert s[j - 1] == j;
        assert j in s;
      }
    }
    if NoneLostBelow(l) {
      PrefixSurvivors(l);
    }
  }

  lemma {:induction false} PrefixSurvivors(l: Ledger)
    requires NoneLostBelow(l)
    ensures Contiguous(l.Survivors())
    ensures l.Total(Queued) == l.Length() <==> forall j | 1 <= j <= l.Length() :: l.FateOf(j) == Queued
    ensures |l.Survivors()| == l.Total(Queued) <= l.Length()
  {
    if l.Entry? {
      var past := l.past;
      assert forall j | 1 <= j <= past.Length() :: l.FateOf(j) == past.FateOf(j);
      PrefixSurvivors(past);
      assert l.FateOf(l.Length()) == l.fate;
      if l.fate == Queued {
        assert forall j | 1 <= j <= past.Length() :: past.FateOf(j) == Queued;
      }
    }
  }

  // ---- how the steps of a session move them ----

  lemma {:induction false} AssignTotal(l: Ledger, f: Fate, count: nat, g: Fate)
    ensures l.Assign(f, count).Total(g) == l.Total(g) + (if f == g then count else 0)
  {
    if count > 0 {
      AssignTotal(l, f, count - 1, g);
    }
  }

  lemma {:induction false} AssignSurvivors(l: Ledger, f: Fate, count: nat)
    ensures l.Assign(f, count).Survivors()
         == l.Survivors() + (if f == Queued then UpFrom(l.Length() + 1, count) else [])
  {
    if count > 0 {
      AssignSurvivors(l, f, count - 1);
    }
  }

  lemma {:induction false} AssignedFates(l: Ledger, f: Fate, count: nat)
    ensures forall n | 1 <= n <= l.Length() :: l.Assign(f, count).FateOf(n) == l.FateOf(n)
    ensures forall n | l.Length() < n <= l.Length() + count :: l.Assign(f, count).FateOf(n) == f
  {
    if count > 0 {
      AssignedFates(l, f, count - 1);
    }
  }

  function Clip(i: nat, limit: nat): (r: nat)
    ensures r <= limit
  {
    if i <= limit then i else limit
  }

  lemma {:induction false} DiscardTotals(l: Ledger, from: nat, to: nat)
    requires from <= to
    ensures var n := l.Total(Queued); var r := l.Discard(from, to);
      && r.Total(Discarded) == l.Total(Discarded) + (Clip(to, n) - Clip(from, n))
      && r.Total(Skipped) == l.Total(Skipped) && r.Total(Voided) == l.Total(Voided)
  {
    if l.Entry? {
      DiscardTotals(l.past, from, to);
    }
  }

  lemma {:induction false} DiscardRemovesSurvivors(l: Ledger, from: nat, to: nat)
    requires from <= to
    ensures var s := l.Survivors();
      && |s| == l.Total(Queued)
      && l.Discard(from, to).Survivors() == s[..Clip(from, |s|)] + s[Clip(to, |s|)..]
  {
    if l.Entry? {
      DiscardRemovesSurvivors(l.past, from, to);
      var s, before := l.Survivors(), l.past.Survivors();
      if l.fate == Queued && |before| < from {
        assert s[..Clip(from, |s|)] == s;
      }
    }
  }

  /** A fate, once fixed, only ever changes from queued to discarded. */
  lemma {:induction false} DiscardTouchesOnlyQueued(l: Ledger, from: nat, to: nat)
    ensures forall n | 1 <= n <= l.Length() ::
      var before, after := l.FateOf(n), l.Discard(from, to).FateOf(n);
      before == after || (before == Queued && after == Discarded)
  {
    if l.Entry? {
      DiscardTouchesOnlyQueued(l.past, from, to);
    }
  }
}
