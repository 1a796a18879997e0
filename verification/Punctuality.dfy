/** The read-only verifier that judges a job's rows, and why its verdict is final. */
module Punctuality {
  import opened Wrappers
  import opened Windows
  import opened Cron
  import opened Rounding
  import opened SchedulerLedger
  import SchedulerProtocol

  const CONTRACT := "scheduler-punctuality-v2"

  datatype Timing = OnTime | Late | TimingMissed | TimingInterrupted | TimingPending

  datatype Judgement = Passed | Failed | Pending

  /** The delay in milliseconds, as the verifier rounds it: by way of a floating-point number of seconds. */
  function Delay(started: Instant, at: Instant): nat {
    if started <= at then 0 else Thousandths(started - at)
  }

  predicate Timely(started: Instant, at: Instant, threshold: nat) {
    Delay(started, at) <= threshold * 1000
  }

  function TimingOf(row: Row, at: Instant, now: Instant, threshold: nat): Timing {
    if row.status == Missed then TimingMissed
    else if row.status == Interrupted then TimingInterrupted
    else if row.started.None? then (if at <= now then TimingMissed else TimingPending)
    else if Timely(row.started.value, at, threshold) then OnTime
    else Late
  }

  predicate Tagged(row: Row) {
    "punctuality_contract" in row.metadata && row.metadata["punctuality_contract"] == Text(CONTRACT)
  }

  /** One listed row: the verifier does not rely on windows being unique. */
  datatype Entry = Entry(at: Instant, row: Row)

  /** What on time means: the rounding lets through 499 or 500 microseconds beyond the threshold,
      depending on the side on which floating point puts the half millisecond. */
  lemma OnTimeExactly(started: Instant, at: Instant, threshold: nat)
    requires threshold < 0x2_0000_0000
    ensures Timely(started, at, threshold) <==> started - at <= Grace(threshold)
  {
    if started > at { ThousandthsAtMost(started - at, threshold); }
  }

  /** For the default of 300 seconds it is 500 microseconds, for a threshold of zero 499. */
  lemma DefaultGrace()
    ensures Grace(300) == 300_000_500 && Grace(0) == 499
  {
    hide Places, Power;
    PowersUsed();
    PlacesAre(300_000_500, MOST, 44);
    PlacesAre(500, MOST, 63);
  }

  // ---------- The verdict ----------

  /** The first tagged window. */
  ghost predicate Starts(rows: seq<Entry>, start: Instant) {
    && (exists i :: 0 <= i < |rows| && Tagged(rows[i].row) && rows[i].at == start)
    && forall i :: 0 <= i < |rows| && Tagged(rows[i].row) ==> start <= rows[i].at
  }

  /** What a passing window needs: it is due and has one tagged row, which a collector ended
      and the scheduler started in time. */
  ghost predicate Punctual(rows: seq<Entry>, at: Instant, now: Instant, threshold: nat) {
    && at <= now
    && exists i :: 0 <= i < |rows|
                   && rows[i].at == at && Tagged(rows[i].row)
                   && (forall k :: 0 <= k < |rows| && rows[k].at == at && Tagged(rows[k].row) ==> k == i)
                   && Outcome(rows[i].row.status)
                   && rows[i].row.started.Some?
                   && Timely(rows[i].row.started.value, at, threshold)
  }

  /** The qualification passes: the first N daily windows are punctual. */
  ghost predicate Qualified(rows: seq<Entry>, now: Instant, threshold: nat, windows: nat) {
    exists start :: Starts(rows, start) && AllPunctual(rows, start, windows, now, threshold)
  }

  function Nth(start: Instant, d: nat): Instant { start + d * DAY }

  ghost predicate AllPunctual(rows: seq<Entry>, start: Instant, windows: nat, now: Instant, threshold: nat) {
    forall d :: 0 <= d < windows ==> Punctual(rows, Nth(start, d), now, threshold)
  }

  /** One of the windows is due and not punctual. */
  ghost predicate SomeSpoiled(rows: seq<Entry>, start: Instant, windows: nat, now: Instant, threshold: nat) {
    exists d :: 0 <= d < windows && Nth(start, d) <= now && !Punctual(rows, Nth(start, d), now, threshold)
  }

  /** The counters of one window: how many tagged rows, how many of them disqualify, how many
      are terminal. */
  method JudgeWindow(rows: seq<Entry>, at: Instant, now: Instant, threshold: nat)
    returns (matching: nat, disqualifying: nat, completed: nat)
    requires at <= now
    ensures disqualifying <= matching && completed <= matching
    ensures matching == 1 && disqualifying == 0 && completed == 1 <==> Punctual(rows, at, now, threshold)
  {
    matching, disqualifying, completed := 0, 0, 0;
    ghost var last := 0;
    var i := 0;
    while i < |rows|
      invariant 0 <= i <= |rows|
      invariant disqualifying <= matching && completed <= matching
      invariant matching == 0 <==> forall k :: 0 <= k < i ==> !(rows[k].at == at && Tagged(rows[k].row))
      invariant matching > 0 ==> last < i && rows[last].at == at && Tagged(rows[last].row)
      invariant matching == 1 <==> matching > 0 && forall k :: 0 <= k < i && rows[k].at == at && Tagged(rows[k].row) ==> k == last
      invariant matching == 1 ==>
                  (disqualifying == 0 && completed == 1 <==>
                   Terminal(rows[last].row.status) && TimingOf(rows[last].row, at, now, threshold) == OnTime)
    {
      if rows[i].at == at && Tagged(rows[i].row) {
        var timing := TimingOf(rows[i].row, at, now, threshold);
        matching := matching + 1;
        if timing == Late || timing == TimingMissed || timing == TimingInterrupted { disqualifying := disqualifying + 1; }
        if Terminal(rows[i].row.status) { completed := completed + 1; }
        last := i;
      }
      i := i + 1;
    }
    if matching > 0 {
      TerminalOnTime(rows[last].row, at, now, threshold);
    }
  }

  /** Terminal and on time is exactly: a collector's outcome, started within the threshold. */
  lemma TerminalOnTime(row: Row, at: Instant, now: Instant, threshold: nat)
    ensures Terminal(row.status) && TimingOf(row, at, now, threshold) == OnTime <==>
            Outcome(row.status) && row.started.Some? && Timely(row.started.value, at, threshold)
  {
  }

  method FirstTagged(rows: seq<Entry>) returns (start: Option<Instant>)
    ensures start.None? <==> forall i :: 0 <= i < |rows| ==> !Tagged(rows[i].row)
    ensures start.Some? ==> Starts(rows, start.value)
  {
    start := None;
    var i := 0;
    while i < |rows|
      invariant 0 <= i <= |rows|
      invariant start.None? <==> forall k :: 0 <= k < i ==> !Tagged(rows[k].row)
      invariant start.Some? ==> exists k :: 0 <= k < i && Tagged(rows[k].row) && rows[k].at == start.value
      invariant start.Some? ==> forall k :: 0 <= k < i && Tagged(rows[k].row) ==> start.value <= rows[k].at
    {
      if Tagged(rows[i].row) && (start.None? || rows[i].at < start.value) { start := Some(rows[i].at); }
      i := i + 1;
    }
  }

  /** The qualification verdict over the first N daily windows from the first tagged one. */
  method Verdict(rows: seq<Entry>, now: Instant, threshold: nat, windows: nat) returns (state: Judgement)
    requires 1 <= windows
    ensures state == Passed <==> Qualified(rows, now, threshold, windows)
    ensures state == Judgement.Failed ==> exists start :: Starts(rows, start) && SomeSpoiled(rows, start, windows, now, threshold)
  {
    var start := FirstTagged(rows);
    if start.None? { return Pending; }
    OneStart(rows, start.value);
    hide Punctual, Starts, TimingOf;
    var missing, duplicates, disqualifying, completed := 0, 0, 0, 0;
    var d := 0;
    while d < windows && Nth(start.value, d) <= now
      invariant 0 <= d <= windows
      invariant missing == 0 && duplicates == 0 && disqualifying == 0 ==> completed <= d
      invariant missing == 0 && duplicates == 0 && disqualifying == 0 && completed == d <==> AllPunctual(rows, start.value, d, now, threshold)
      invariant missing + duplicates + disqualifying > 0 ==> SomeSpoiled(rows, start.value, d, now, threshold)
    {
      var at := Nth(start.value, d);
      var matching, bad, ended := JudgeWindow(rows, at, now, threshold);
      if matching == 0 {
        missing := missing + 1;
      } else {
        duplicates := duplicates + (matching - 1);
        disqualifying := disqualifying + bad;
        completed := completed + ended;
      }
      d := d + 1;
    }
    if missing > 0 || duplicates > 0 || disqualifying > 0 { return Judgement.Failed; }
    assert d < windows ==> !AllPunctual(rows, start.value, windows, now, threshold) by {
      if d < windows { NotDueYet(rows, Nth(start.value, d), now, threshold); }
    }
    state := if completed >= windows then Passed else Pending;
  }

  lemma NotDueYet(rows: seq<Entry>, at: Instant, now: Instant, threshold: nat)
    requires now < at
    ensures !Punctual(rows, at, now, threshold)
  {
  }

  lemma OneStart(rows: seq<Entry>, start: Instant)
    requires Starts(rows, start)
    ensures forall other :: Starts(rows, other) ==> other == start
  {
  }

  // ---------- The verdict on the ledger ----------

  /** The verifier's query: the rows of one job, in order. */
  ghost predicate Lists(entries: seq<Entry>, rows: Rows, job: Job) {
    && (forall i :: 0 <= i < |entries| ==> Slot(job, entries[i].at) in rows && rows[Slot(job, entries[i].at)] == entries[i].row)
    && (forall i, k :: 0 <= i < k < |entries| ==> entries[i].at < entries[k].at)
    && (forall at :: Slot(job, at) in rows ==> exists i :: 0 <= i < |entries| && entries[i].at == at)
  }

  ghost predicate TaggedAt(rows: Rows, job: Job, at: Instant) {
    Slot(job, at) in rows && Tagged(rows[Slot(job, at)])
  }

  ghost predicate StartsAt(rows: Rows, job: Job, start: Instant) {
    TaggedAt(rows, job, start) && forall at :: TaggedAt(rows, job, at) ==> start <= at
  }

  ghost predicate PunctualAt(rows: Rows, job: Job, at: Instant, now: Instant, threshold: nat) {
    && at <= now
    && TaggedAt(rows, job, at)
    && Outcome(rows[Slot(job, at)].status)
    && rows[Slot(job, at)].started.Some?
    && Timely(rows[Slot(job, at)].started.value, at, threshold)
  }

  ghost predicate QualifiedOn(rows: Rows, job: Job, start: Instant, now: Instant, threshold: nat, windows: nat) {
    StartsAt(rows, job, start) && forall d :: 0 <= d < windows ==> PunctualAt(rows, job, Nth(start, d), now, threshold)
  }

  lemma PunctualOnList(entries: seq<Entry>, rows: Rows, job: Job, at: Instant, now: Instant, threshold: nat)
    requires Lists(entries, rows, job)
    ensures Punctual(entries, at, now, threshold) <==> PunctualAt(rows, job, at, now, threshold)
  {
  }

  lemma StartsOnList(entries: seq<Entry>, rows: Rows, job: Job, start: Instant)
    requires Lists(entries, rows, job)
    ensures Starts(entries, start) <==> StartsAt(rows, job, start)
  {
    if Starts(entries, start) {
      forall at | TaggedAt(rows, job, at) ensures start <= at {
        var i :| 0 <= i < |entries| && entries[i].at == at;
      }
    }
    if StartsAt(rows, job, start) {
      var i :| 0 <= i < |entries| && entries[i].at == start;
      assert Tagged(entries[i].row) && entries[i].at == start;
      forall k | 0 <= k < |entries| && Tagged(entries[k].row) ensures start <= entries[k].at {
        assert TaggedAt(rows, job, entries[k].at);
      }
    }
  }

  /** The verdict on the listed rows is a verdict on the ledger. */
  lemma VerdictIsAboutLedger(entries: seq<Entry>, rows: Rows, job: Job, now: Instant, threshold: nat, windows: nat)
    requires Lists(entries, rows, job)
    ensures Qualified(entries, now, threshold, windows) <==> exists start :: QualifiedOn(rows, job, start, now, threshold, windows)
  {
    forall start ensures Starts(entries, start) <==> StartsAt(rows, job, start) {
      StartsOnList(entries, rows, job, start);
    }
    forall at ensures Punctual(entries, at, now, threshold) <==> PunctualAt(rows, job, at, now, threshold) {
      PunctualOnList(entries, rows, job, at, now, threshold);
    }
    hide Starts, StartsAt, Punctual, PunctualAt;
    forall start ensures Starts(entries, start) && AllPunctual(entries, start, windows, now, threshold) <==> QualifiedOn(rows, job, start, now, threshold, windows) {
    }
    if start :| Starts(entries, start) && AllPunctual(entries, start, windows, now, threshold) {
      assert QualifiedOn(rows, job, start, now, threshold, windows);
    }
    if start :| QualifiedOn(rows, job, start, now, threshold, windows) {
      assert Starts(entries, start);
    }
  }

  // ---------- Once passed, always passed ----------

  /** A tag is only ever put on a window that is still ahead. */
  lemma TagsLieAhead(jobs: SchedulerProtocol.Jobs, s: SchedulerProtocol.State, a: SchedulerProtocol.Action, job: Job, at: Instant)
    requires SchedulerProtocol.Enabled(jobs, s, a)
    requires forall j :: j in jobs ==> WellFormed(jobs[j].schedule)
    requires TaggedAt(SchedulerProtocol.Apply(jobs, s, a).rows, job, at) && !TaggedAt(s.rows, job, at)
    ensures s.now < at
  {
  }

  lemma StepStaysQualified(jobs: SchedulerProtocol.Jobs, s: SchedulerProtocol.State, a: SchedulerProtocol.Action,
                           job: Job, start: Instant, threshold: nat, windows: nat)
    requires SchedulerProtocol.Enabled(jobs, s, a) && 1 <= windows
    requires forall j :: j in jobs ==> WellFormed(jobs[j].schedule)
    requires QualifiedOn(s.rows, job, start, s.now, threshold, windows)
    ensures QualifiedOn(SchedulerProtocol.Apply(jobs, s, a).rows, job, start, SchedulerProtocol.Apply(jobs, s, a).now, threshold, windows)
  {
    var s' := SchedulerProtocol.Apply(jobs, s, a);
    assert PunctualAt(s.rows, job, Nth(start, 0), s.now, threshold);
    forall d | 0 <= d < windows ensures PunctualAt(s'.rows, job, Nth(start, d), s'.now, threshold) {
      assert PunctualAt(s.rows, job, Nth(start, d), s.now, threshold);
      SchedulerProtocol.TerminalStep(jobs, s, a, Slot(job, Nth(start, d)));
      ClockAdvances(jobs, s, a);
    }
    assert PunctualAt(s'.rows, job, Nth(start, 0), s'.now, threshold);
    forall at | TaggedAt(s'.rows, job, at) ensures start <= at {
      if !TaggedAt(s.rows, job, at) { TagsLieAhead(jobs, s, a, job, at); }
    }
  }

  lemma ClockAdvances(jobs: SchedulerProtocol.Jobs, s: SchedulerProtocol.State, a: SchedulerProtocol.Action)
    requires SchedulerProtocol.Enabled(jobs, s, a)
    ensures s.now <= SchedulerProtocol.Apply(jobs, s, a).now
  {
  }

  lemma {:induction false} StaysQualified(jobs: SchedulerProtocol.Jobs, states: seq<SchedulerProtocol.State>, actions: seq<SchedulerProtocol.Action>,
                                          i: nat, k: nat, job: Job, start: Instant, threshold: nat, windows: nat)
    requires SchedulerProtocol.Behaviour(jobs, states, actions) && i <= k < |states| && 1 <= windows
    requires forall j :: j in jobs ==> WellFormed(jobs[j].schedule)
    requires QualifiedOn(states[i].rows, job, start, states[i].now, threshold, windows)
    ensures QualifiedOn(states[k].rows, job, start, states[k].now, threshold, windows)
    decreases k
  {
    if i < k {
      StaysQualified(jobs, states, actions, i, k - 1, job, start, threshold, windows);
      StepStaysQualified(jobs, states[k - 1], actions[k - 1], job, start, threshold, windows);
      assert states[(k - 1) + 1] == states[k];
    }
  }

  /** A passed qualification stays passed, whatever the scheduler does afterwards: the rows that
      earned it are terminal, and no later tag can move the first tagged window. */
  lemma OncePassedStaysPassed(jobs: SchedulerProtocol.Jobs, states: seq<SchedulerProtocol.State>, actions: seq<SchedulerProtocol.Action>,
                              i: nat, k: nat, job: Job, threshold: nat, windows: nat, before: seq<Entry>, after: seq<Entry>)
    requires SchedulerProtocol.Behaviour(jobs, states, actions) && i <= k < |states| && 1 <= windows
    requires forall j :: j in jobs ==> WellFormed(jobs[j].schedule)
    requires Lists(before, states[i].rows, job) && Lists(after, states[k].rows, job)
    requires Qualified(before, states[i].now, threshold, windows)
    ensures Qualified(after, states[k].now, threshold, windows)
  {
    VerdictIsAboutLedger(before, states[i].rows, job, states[i].now, threshold, windows);
    VerdictIsAboutLedger(after, states[k].rows, job, states[k].now, threshold, windows);
    var start :| QualifiedOn(states[i].rows, job, start, states[i].now, threshold, windows);
    StaysQualified(jobs, states, actions, i, k, job, start, threshold, windows);
  }
}
