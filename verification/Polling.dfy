/** The loop that the `*_with_poll` functions share: check the deadline, read, sleep. */
module Polling {

  /** How long `pg_sleep` sleeps at least: not at all for an interval that is zero or negative. */
  function Pause(interval: int): nat { if interval > 0 then interval else 0 }

  /** Each pass reads the clock at its deadline check, and a sleep takes at least as long as asked. */
  ghost predicate Sleeps(clock: nat -> int, start: int, interval: int) {
    clock(0) >= start && forall i: nat :: clock(i + 1) >= clock(i) + Pause(interval)
  }

  /** The passes that a timeout has room for, `ceil(timeout / interval)`. */
  function Passes(timeout: int, interval: int): nat
    requires interval > 0
  {
    if timeout <= 0 then 0 else (timeout + interval - 1) / interval
  }

  lemma PassesBound(timeout: int, interval: int, n: nat)
    requires interval > 0 && 0 < timeout && n >= 1 && (n - 1) * interval < timeout
    ensures n <= Passes(timeout, interval)
  {
    var p := Passes(timeout, interval);
    assert timeout <= p * interval;
    ProductOrder(n - 1, p, interval);
  }

  lemma ProductOrder(x: int, y: int, d: int)
    requires d > 0 && x * d < y * d
    ensures x < y
  {
  }

  lemma {:induction false} ClockAhead(clock: nat -> int, start: int, interval: int, i: nat, j: nat)
    requires Sleeps(clock, start, interval) && i <= j
    ensures clock(i) <= clock(j) && clock(i) + (j - i) * Pause(interval) <= clock(j)
    decreases j - i
  {
    if i < j {
      var k: nat := j - 1;
      ClockAhead(clock, start, interval, i, k);
      assert clock(k + 1) >= clock(k) + Pause(interval);
      assert (j - i) * Pause(interval) == (k - i) * Pause(interval) + Pause(interval);
    }
  }

  /** With a positive interval the clock reaches the deadline. */
  lemma DeadlineComes(clock: nat -> int, start: int, timeout: int, interval: int)
    requires interval > 0 && Sleeps(clock, start, interval)
    ensures clock(Passes(timeout, interval)) >= start + timeout
  {
    ClockAhead(clock, start, interval, 0, Passes(timeout, interval));
  }

  lemma PassesBeforeDeadline(clock: nat -> int, start: int, timeout: int, interval: int, n: nat)
    requires interval > 0 && Sleeps(clock, start, interval) && n >= 1 && clock(n - 1) < start + timeout
    ensures n <= Passes(timeout, interval)
  {
    ClockAhead(clock, start, interval, 0, n - 1);
    PassesBound(timeout, interval, n);
  }

  /** `batch(i)` is what the `i`-th read would return, whatever other sessions do in between. The loop
      returns the first non-empty batch read before the deadline, if there is one, and it gives up only
      after the deadline; no read after a non-empty one takes place. It ends because the clock is past
      the deadline by the check `limit`, which `DeadlineComes` gives for every positive interval. */
  method Poll<T>(start: int, timeout: int, interval: int, clock: nat -> int, batch: nat -> seq<T>, ghost limit: nat)
    returns (result: seq<T>, passes: nat)
    requires Sleeps(clock, start, interval) && clock(limit) >= start + timeout
    ensures passes <= limit && (interval > 0 ==> passes <= Passes(timeout, interval))
    ensures result == [] ==> clock(passes) >= start + timeout && forall i | 0 <= i < passes :: batch(i) == []
    ensures result != [] ==> passes >= 1 && clock(passes - 1) < start + timeout && result == batch(passes - 1)
                             && forall i | 0 <= i < passes - 1 :: batch(i) == []
    ensures result != [] <==> exists i: nat :: clock(i) < start + timeout && batch(i) != []
  {
    var stopAt := start + timeout;
    passes, result := 0, [];
    while clock(passes) < stopAt
      invariant passes <= limit
      invariant passes == 0 || clock(passes - 1) < stopAt
      invariant result == [] && forall i | 0 <= i < passes :: batch(i) == []
      decreases limit - passes
    {
      if limit <= passes { ClockAhead(clock, start, interval, limit, passes); }
      result := batch(passes);
      passes := passes + 1;
      if result != [] { break; }
    }
    if result == [] {
      forall i: nat | clock(i) < stopAt ensures batch(i) == [] {
        if passes <= i { ClockAhead(clock, start, interval, passes, i); }
      }
    }
    if passes > 0 && interval > 0 { PassesBeforeDeadline(clock, start, timeout, interval, passes); }
  }
}
