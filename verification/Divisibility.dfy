/** Whole multiples of a positive number. */
module Divisibility {

  predicate OnGrid(x: int, tick: nat)
    requires tick > 0
  {
    x % tick == 0
  }

  lemma ModUnique(a: nat, r: nat, q: nat, m: nat)
    requires r > 0 && a == q * r + m && m < r
    ensures a % r == m
  {
    var q2, m2 := a / r, a % r;
    assert a == q2 * r + m2;
    assert (q2 - q) * r == m - m2;
    if q2 != q {
      NonzeroMultiple(q2 - q, r);
    }
  }

  lemma NonzeroMultiple(x: int, r: nat)
    requires x != 0
    ensures x * r >= r || x * r + r <= 0
  {
    if x > 0 {
      assert (x - 1) * r >= 0;
    } else {
      assert (-1 - x) * r >= 0;
    }
  }

  lemma MultiplesInOrder(x: int, y: int, r: nat)
    requires x <= y
    ensures x * r <= y * r
  {
    assert (y - x) * r >= 0;
  }

  lemma MultipleOnGrid(k: int, tick: nat)
    requires tick > 0
    ensures OnGrid(k * tick, tick)
  {
    var q, r := k * tick / tick, k * tick % tick;
    assert (k - q) * tick == r;
    if k != q {
      NonzeroMultiple(k - q, tick);
    }
  }

  /** Sums and differences of prices on the grid are on the grid. */
  lemma OnGridSum(x: int, y: int, tick: nat)
    requires tick > 0 && OnGrid(x, tick) && OnGrid(y, tick)
    ensures OnGrid(x + y, tick) && OnGrid(x - y, tick)
  {
    var a, b := x / tick, y / tick;
    assert x == a * tick && y == b * tick;
    assert x + y == (a + b) * tick && x - y == (a - b) * tick;
    MultipleOnGrid(a + b, tick);
    MultipleOnGrid(a - b, tick);
  }

  /** Moving by whole ticks stays on the grid. */
  lemma OnGridMoved(x: int, k: int, tick: nat)
    requires tick > 0 && OnGrid(x, tick)
    ensures OnGrid(x + k * tick, tick) && OnGrid(x - k * tick, tick)
  {
    MultipleOnGrid(k, tick);
    OnGridSum(x, k * tick, tick);
  }

  /** A multiple of a multiple. */
  lemma OnFinerGrid(x: int, coarse: nat, times: nat, fine: nat)
    requires fine > 0 && coarse > 0 && coarse == times * fine && OnGrid(x, coarse)
    ensures OnGrid(x, fine)
  {
    var q := x / coarse;
    assert x == q * coarse;
    assert q * (times * fine) == q * times * fine;
    MultipleOnGrid(q * times, fine);
  }

  lemma OnGridNegated(x: int, tick: nat)
    requires tick > 0 && OnGrid(x, tick)
    ensures OnGrid(0 - x, tick)
  {
    MultipleOnGrid(0, tick);
    OnGridSum(0, x, tick);
  }
}
