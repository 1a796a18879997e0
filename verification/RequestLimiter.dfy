/** The arXiv client's request spacing. */
module RequestLimiter {
  import opened Windows

  const SECOND: int := 1_000_000

  /** Neighbouring starts are at least an interval apart. */
  ghost predicate Spaced(starts: seq<Instant>, interval: int) {
    forall i, j :: 0 <= i && j == i + 1 && j < |starts| ==> starts[j] - starts[i] >= interval
  }

  /** starts: every request start granted so far. */
  class Limiter {
    const interval: int
    var lastStarted: Instant
    var started: bool
    ghost var starts: seq<Instant>

    ghost predicate Valid()
      reads this
    {
      && interval >= 3 * SECOND
      && Spaced(starts, interval)
      && (started <==> starts != [])
      && (started ==> lastStarted == starts[|starts| - 1])
    }

    /** An interval below three seconds is refused by the caller's check. */
    constructor (interval: int)
      requires interval >= 3 * SECOND
      ensures Valid() && starts == [] && this.interval == interval
    {
      this.interval := interval;
      lastStarted, started, starts := 0, false, [];
    }

    /** clock gives the successive readings of a clock that never goes back; sleeping for a
        time lets the next reading be at least that much later. */
    method Acquire(clock: nat -> Instant) returns (granted: Instant)
      requires Valid()
      requires started ==> clock(0) >= lastStarted
      requires started && interval > clock(0) - lastStarted ==> clock(1) - clock(0) >= interval - (clock(0) - lastStarted)
      modifies this
      ensures Valid() && starts == old(starts) + [granted] && lastStarted == granted
      ensures granted == clock(0) || granted == clock(1)
      ensures old(started) && clock(0) - old(lastStarted) >= interval ==> granted == clock(0)
    {
      var now := clock(0);
      if started {
        var remaining := interval - (now - lastStarted);
        if remaining > 0 { now := clock(1); }
      }
      lastStarted, started, starts := now, true, starts + [now];
      granted := now;
    }
  }

  /** The rate this gives: k requests take at least k - 1 intervals. */
  lemma {:induction false} SpreadOut(starts: seq<Instant>, interval: int, i: nat, j: nat)
    requires Spaced(starts, interval) && i <= j < |starts|
    ensures starts[j] - starts[i] >= (j - i) * interval
    decreases j
  {
    if i < j {
      SpreadOut(starts, interval, i, j - 1);
      assert starts[j] - starts[j - 1] >= interval;
      assert (j - i) * interval == (j - 1 - i) * interval + interval;
    }
  }

  /** So a stretch of time sees at most one request more than the intervals that fit into it. */
  lemma RateBound(starts: seq<Instant>, interval: int, i: nat, j: nat, length: nat)
    requires 0 < interval && Spaced(starts, interval) && i <= j < |starts|
    requires starts[j] - starts[i] <= length
    ensures j - i + 1 <= length / interval + 1
  {
    SpreadOut(starts, interval, i, j);
    var k, q := j - i, length / interval;
    assert length == q * interval + length % interval;
    assert (q + 1) * interval == q * interval + interval;
    if k > q { Grows(q + 1, k, interval); }
  }

  lemma Grows(a: int, b: int, c: int)
    requires a <= b && 0 < c
    ensures a * c <= b * c
  {
  }
}
