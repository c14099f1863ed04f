/** Repetition: how often, and due times on a fixed grid, moved on past the present. */
module Intervals {

  /** What a command that repeats for good has as its number of repetitions. */
  const INFINITE_REPETITION: int := -2134896

  /** The grid point `k` intervals after `start`. */
  function GridPoint(start: int, interval: int, k: nat): int {
    start + k * interval
  }

  ghost predicate OnGrid(start: int, interval: int, due: int) {
    exists k: nat :: due == GridPoint(start, interval, k)
  }

  /** The due time once the catch-up loop has moved it past `now`. */
  function NextDue(due: int, interval: int, now: int): (next: int)
    requires 0 < interval
    ensures now < next
    decreases now - due
  {
    if now < due then due else NextDue(due + interval, interval, now)
  }

  /** The catch-up loop. */
  method AdvancePast(due: int, interval: int, now: int) returns (next: int)
    requires 0 < interval
    ensures next == NextDue(due, interval, now)
  {
    next := due;
    while now >= next
      invariant NextDue(next, interval, now) == NextDue(due, interval, now)
      decreases now - next
    {
      next := next + interval;
    }
  }

  /** The loop ends at the first grid point after now, counted from the old due time. */
  lemma {:induction false} NextDueIsLeast(due: int, interval: int, now: int, k: nat)
    requires 0 < interval && now < GridPoint(due, interval, k)
    ensures NextDue(due, interval, now) <= GridPoint(due, interval, k)
    decreases now - due
  {
    if now >= due {
      assert k > 0;
      assert GridPoint(due, interval, k) == GridPoint(due + interval, interval, k - 1);
      NextDueIsLeast(due + interval, interval, now, k - 1);
    } else {
      assert k * interval >= 0;
    }
  }

  lemma {:induction false} NextDueSteps(due: int, interval: int, now: int) returns (k: nat)
    requires 0 < interval
    ensures NextDue(due, interval, now) == GridPoint(due, interval, k)
    ensures k == 0 <==> now < due
    ensures k > 0 ==> NextDue(due, interval, now) - interval <= now
    decreases now - due
  {
    if now < due {
      k := 0;
    } else {
      var j := NextDueSteps(due + interval, interval, now);
      k := j + 1;
      assert GridPoint(due + interval, interval, j) == GridPoint(due, interval, k);
    }
  }

  /** Moving on keeps the grid, however often it is done. */
  lemma {:induction false} StaysOnGrid(start: int, interval: int, due: int, now: int)
    requires 0 < interval && OnGrid(start, interval, due)
    ensures OnGrid(start, interval, NextDue(due, interval, now))
  {
    var j: nat :| due == GridPoint(start, interval, j);
    var k := NextDueSteps(due, interval, now);
    assert GridPoint(due, interval, k) == GridPoint(start, interval, j + k);
  }
}
