/** The scheduler's ledger: one row per job and window, and the worker's startup repair. */
module SchedulerLedger {
  import opened Wrappers
  import opened Windows
  import opened Cron

  type Job = nat
  type Source = nat

  datatype RowStatus = Scheduled | Running | Succeeded | Partial | Failed | Missed | Interrupted

  predicate Terminal(s: RowStatus) { s != Scheduled && s != Running }

  /** What a collector run may end in. */
  predicate Outcome(s: RowStatus) { s == Succeeded || s == Partial || s == Failed }

  datatype Note = Text(text: string) | Time(at: Instant)

  type Metadata = map<string, Note>

  datatype Row = Row(
    source: Source,
    status: RowStatus,
    started: Option<Instant>,
    finished: Option<Instant>,
    error: Option<string>,
    metadata: Metadata)

  /** The unique key. */
  datatype Slot = Slot(job: Job, at: Instant)

  type Rows = map<Slot, Row>

  function NewRow(source: Source, metadata: Metadata): Row {
    Row(source, Scheduled, None, None, None, metadata)
  }

  // ---------- What each operation does to the rows ----------

  /** Planning adds a row, or adds missing metadata keys to one that is still scheduled. */
  function Planned(rows: Rows, slot: Slot, source: Source, metadata: Metadata): Rows {
    if slot !in rows then rows[slot := NewRow(source, metadata)]
    else
      var row := rows[slot];
      if row.source == source && row.status == Scheduled then rows[slot := row.(metadata := metadata + row.metadata)]
      else rows
  }

  function Claimed(rows: Rows, slot: Slot, now: Instant): Rows {
    if slot in rows && rows[slot].status == Scheduled
    then rows[slot := rows[slot].(status := Running, started := Some(now), error := None)]
    else rows
  }

  function Ended(rows: Rows, slot: Slot, now: Instant, status: RowStatus, error: Option<string>): Rows {
    if slot in rows && rows[slot].status == Running
    then rows[slot := rows[slot].(status := status, finished := Some(now), error := error)]
    else rows
  }

  function ReconciledRow(row: Row, at: Instant, now: Instant): Row {
    if row.status == Running then
      row.(status := Interrupted, error := Some("worker_restarted_during_execution"), finished := Some(now),
           metadata := row.metadata["reconciled_at" := Time(now)])
    else if row.status == Scheduled && at <= now then
      row.(status := Missed, error := Some("worker_unavailable_at_due_time"), finished := Some(now),
           metadata := row.metadata["reconciled_at" := Time(now)])
    else row
  }

  function Reconciled(rows: Rows, job: Job, now: Instant): Rows {
    map slot | slot in rows :: if slot.job == job then ReconciledRow(rows[slot], slot.at, now) else rows[slot]
  }

  datatype Reconciliation = Reconciliation(at: Instant, status: RowStatus)

  /** The rows while the slots in left are still to be looked at. */
  ghost function PartlyReconciled(rows: Rows, job: Job, now: Instant, left: set<Slot>): Rows {
    map slot | slot in rows :: if slot.job == job && slot !in left then ReconciledRow(rows[slot], slot.at, now) else rows[slot]
  }

  ghost predicate Changed(rows: Rows, job: Job, now: Instant, r: Reconciliation) {
    && Slot(job, r.at) in rows
    && ReconciledRow(rows[Slot(job, r.at)], r.at, now) != rows[Slot(job, r.at)]
    && r.status == ReconciledRow(rows[Slot(job, r.at)], r.at, now).status
  }

  lemma NothingReconciled(rows: Rows, job: Job, now: Instant, left: set<Slot>)
    requires left == set slot | slot in rows && slot.job == job && !Terminal(rows[slot].status)
    ensures PartlyReconciled(rows, job, now, left) == rows
    ensures forall r :: Changed(rows, job, now, r) ==> Slot(job, r.at) in left
  {
  }

  lemma EverythingReconciled(rows: Rows, job: Job, now: Instant)
    ensures PartlyReconciled(rows, job, now, {}) == Reconciled(rows, job, now)
    ensures var after := Reconciled(rows, job, now);
            forall r :: Changed(rows, job, now, r) <==>
              Slot(job, r.at) in after && after[Slot(job, r.at)] != rows[Slot(job, r.at)] && r.status == after[Slot(job, r.at)].status
  {
  }

  lemma ReconcileNext(rows: Rows, job: Job, now: Instant, left: set<Slot>, slot: Slot)
    requires slot in left && slot in rows && slot.job == job && !Terminal(rows[slot].status)
    ensures PartlyReconciled(rows, job, now, left - {slot}) == PartlyReconciled(rows, job, now, left)[slot := ReconciledRow(rows[slot], slot.at, now)]
    ensures slot in PartlyReconciled(rows, job, now, left) && PartlyReconciled(rows, job, now, left)[slot] == rows[slot]
    ensures forall r :: Changed(rows, job, now, r) && Slot(job, r.at) !in left - {slot} <==>
                          (Changed(rows, job, now, r) && Slot(job, r.at) !in left)
                          || (ReconciledRow(rows[slot], slot.at, now) != rows[slot]
                              && r == Reconciliation(slot.at, ReconciledRow(rows[slot], slot.at, now).status))
  {
  }

  /** A row is settled exactly when it is running, or scheduled and due. */
  lemma SettlingChanges(row: Row, at: Instant, now: Instant)
    ensures ReconciledRow(row, at, now) != row <==> row.status == Running || (row.status == Scheduled && at <= now)
  {
  }

  datatype PlanResult = Inserted | AlreadyThere | SourceMismatch

  // ---------- The ledger ----------

  class Ledger {
    var rows: Rows

    constructor (rows: Rows)
      ensures this.rows == rows
    {
      this.rows := rows;
    }

    /** The known windows of a job, in order. */
    method MaterializedWindows(job: Job) returns (windows: seq<Instant>)
      ensures forall at :: at in windows <==> Slot(job, at) in rows
      ensures forall i, j :: 0 <= i < j < |windows| ==> windows[i] < windows[j]
    {
      windows := [];
      var left := set slot | slot in rows && slot.job == job;
      while left != {}
        invariant left <= rows.Keys
        invariant forall slot :: slot in left ==> slot.job == job
        invariant forall at :: Slot(job, at) in rows <==> at in windows || Slot(job, at) in left
        invariant forall i, slot :: 0 <= i < |windows| && slot in left ==> windows[i] < slot.at
        invariant forall i, j :: 0 <= i < j < |windows| ==> windows[i] < windows[j]
        decreases left
      {
        ghost var first := EarliestExists(left);
        var slot :| slot in left && forall other :: other in left ==> slot.at <= other.at;
        windows := windows + [slot.at];
        left := left - {slot};
      }
    }

    /** Settles what an earlier process left behind, oldest window first. */
    method Reconcile(job: Job, now: Instant) returns (reconciled: seq<Reconciliation>)
      modifies this
      ensures rows == Reconciled(old(rows), job, now)
      ensures forall r :: r in reconciled <==>
                Slot(job, r.at) in rows && rows[Slot(job, r.at)] != old(rows)[Slot(job, r.at)] && r.status == rows[Slot(job, r.at)].status
      ensures forall i, j :: 0 <= i < j < |reconciled| ==> reconciled[i].at < reconciled[j].at
    {
      hide ReconciledRow, PartlyReconciled, Changed, Reconciled;
      reconciled := [];
      ghost var before := rows;
      var left := set slot | slot in rows && slot.job == job && !Terminal(rows[slot].status);
      NothingReconciled(rows, job, now, left);
      while left != {}
        invariant left <= before.Keys
        invariant forall slot :: slot in left ==> slot.job == job && !Terminal(before[slot].status)
        invariant rows == PartlyReconciled(before, job, now, left)
        invariant forall r :: r in reconciled <==> Changed(before, job, now, r) && Slot(job, r.at) !in left
        invariant forall i, slot :: 0 <= i < |reconciled| && slot in left ==> reconciled[i].at < slot.at
        invariant forall i, j :: 0 <= i < j < |reconciled| ==> reconciled[i].at < reconciled[j].at
        decreases left
      {
        ghost var first := EarliestExists(left);
        var slot :| slot in left && forall other :: other in left ==> slot.at <= other.at;
        ReconcileNext(before, job, now, left, slot);
        SettlingChanges(rows[slot], slot.at, now);
        left := left - {slot};
        if rows[slot].status == Scheduled && slot.at > now { continue; }
        rows := rows[slot := ReconciledRow(rows[slot], slot.at, now)];
        reconciled := reconciled + [Reconciliation(slot.at, rows[slot].status)];
      }
      EverythingReconciled(before, job, now);
    }

    method Plan(job: Job, source: Source, at: Instant, metadata: Metadata) returns (result: PlanResult)
      modifies this
      ensures rows == Planned(old(rows), Slot(job, at), source, metadata)
      ensures result == if Slot(job, at) !in old(rows) then Inserted
                        else if old(rows)[Slot(job, at)].source != source then SourceMismatch
                        else AlreadyThere
    {
      var slot := Slot(job, at);
      if slot !in rows {
        rows := rows[slot := NewRow(source, metadata)];
        return Inserted;
      }
      var existing := rows[slot];
      if existing.source != source { return SourceMismatch; }
      if metadata != map[] && existing.status == Scheduled {
        var merged := metadata + existing.metadata;
        if merged != existing.metadata { rows := rows[slot := existing.(metadata := merged)]; }
      }
      assert existing == existing.(metadata := existing.metadata);
      assert metadata == map[] ==> metadata + existing.metadata == existing.metadata;
      result := AlreadyThere;
    }

    /** Claims a window: true for at most one caller. */
    method Start(job: Job, at: Instant, now: Instant) returns (claimed: bool)
      modifies this
      ensures rows == Claimed(old(rows), Slot(job, at), now)
      ensures claimed <==> Slot(job, at) in old(rows) && old(rows)[Slot(job, at)].status == Scheduled
    {
      var slot := Slot(job, at);
      claimed := slot in rows && rows[slot].status == Scheduled;
      if claimed { rows := rows[slot := rows[slot].(status := Running, started := Some(now), error := None)]; }
    }

    /** False where the ledger raises: a status that is no outcome, or a row that is not running. */
    method Finish(job: Job, at: Instant, now: Instant, status: RowStatus, error: Option<string>) returns (ok: bool)
      modifies this
      ensures ok <==> Outcome(status) && Slot(job, at) in old(rows) && old(rows)[Slot(job, at)].status == Running
      ensures rows == if ok then Ended(old(rows), Slot(job, at), now, status, error) else old(rows)
    {
      if !Outcome(status) { return false; }
      var slot := Slot(job, at);
      ok := slot in rows && rows[slot].status == Running;
      if ok { rows := rows[slot := rows[slot].(status := status, finished := Some(now), error := error)]; }
    }

    /** Plans every elapsed window that is not known yet. */
    method FillGaps(job: Job, source: Source, known: seq<Instant>, elapsed: seq<Instant>)
      requires forall at :: at in known <==> Slot(job, at) in rows
      requires forall i, j :: 0 <= i < j < |elapsed| ==> elapsed[i] < elapsed[j]
      modifies this
      ensures rows == WithPlans(old(rows), SlotsOf(job, elapsed), source)
    {
      ghost var before := rows;
      var i := 0;
      while i < |elapsed|
        invariant 0 <= i <= |elapsed|
        invariant rows == WithPlans(before, SlotsOf(job, elapsed[..i]), source)
      {
        PlanOneMore(before, job, source, elapsed, i);
        if elapsed[i] !in known {
          var planned := Plan(job, source, elapsed[i], map[]);
        }
        i := i + 1;
      }
      assert elapsed[..i] == elapsed;
    }

    /** What a job does before its first plan: fill the gaps in the known windows, then settle
        everything that is due or was left running. */
    method Repair(job: Job, source: Source, c: Schedule, now: Instant)
      requires WellFormed(c)
      modifies this
      ensures rows == Repaired(old(rows), job, source, c, now)
    {
      hide Fires, Planned, WithPlans;
      var known := MaterializedWindows(job);
      if known != [] {
        var elapsed := ElapsedRuns(c, known[0], now);
        ElapsedAreGaps(rows, job, source, c, now, known, elapsed);
        FillGaps(job, source, known, elapsed);
      } else {
        NothingKnown(rows, job, source, c, now, known);
      }
      var settled := Reconcile(job, now);
    }
  }

  lemma {:induction false} EarliestExists(slots: set<Slot>) returns (slot: Slot)
    requires slots != {}
    ensures slot in slots && forall other :: other in slots ==> slot.at <= other.at
    decreases |slots|
  {
    slot :| slot in slots;
    var rest := slots - {slot};
    if rest != {} {
      var best := EarliestExists(rest);
      if best.at < slot.at { slot := best; }
      forall other | other in slots ensures slot.at <= other.at {
        assert other in rest || other in slots - rest;
      }
    } else {
      assert slots == {slot};
    }
  }

  // ---------- Startup repair ----------

  ghost function SlotsOf(job: Job, times: seq<Instant>): set<Slot> {
    set at | at in times :: Slot(job, at)
  }

  /** The rows with a bare plan for every slot that has none. */
  ghost function WithPlans(rows: Rows, slots: set<Slot>, source: Source): Rows {
    rows + map slot | slot in slots - rows.Keys :: NewRow(source, map[])
  }

  ghost predicate IsFirst(rows: Rows, job: Job, at: Instant) {
    Slot(job, at) in rows && forall other :: Slot(job, other) in rows ==> at <= other
  }

  /** The windows of the schedule that should be in the ledger and are not. */
  ghost predicate Gap(rows: Rows, job: Job, c: Schedule, now: Instant, at: Instant) {
    Slot(job, at) !in rows && at <= now && Fires(c, at) && exists first :: IsFirst(rows, job, first) && first < at
  }

  ghost function GapSlots(rows: Rows, job: Job, c: Schedule, now: Instant): (slots: set<Slot>)
    ensures forall slot :: slot in slots <==> slot.job == job && Gap(rows, job, c, now, slot.at)
  {
    if exists first :: IsFirst(rows, job, first) then
      var first :| IsFirst(rows, job, first);
      FirstIsUnique(rows, job, first);
      var times := set at | first < at <= now && Gap(rows, job, c, now, at);
      set at | at in times :: Slot(job, at)
    else {}
  }

  ghost function Filled(rows: Rows, job: Job, source: Source, c: Schedule, now: Instant): Rows {
    WithPlans(rows, GapSlots(rows, job, c, now), source)
  }

  ghost function Repaired(rows: Rows, job: Job, source: Source, c: Schedule, now: Instant): Rows {
    Reconciled(Filled(rows, job, source, c, now), job, now)
  }

  lemma FirstIsUnique(rows: Rows, job: Job, first: Instant)
    requires IsFirst(rows, job, first)
    ensures forall other :: IsFirst(rows, job, other) ==> other == first
  {
  }

  lemma NothingKnown(rows: Rows, job: Job, source: Source, c: Schedule, now: Instant, known: seq<Instant>)
    requires known == [] && forall at :: at in known <==> Slot(job, at) in rows
    ensures Filled(rows, job, source, c, now) == rows
  {
  }

  /** The elapsed runs are the known windows and the gaps between them. */
  lemma ElapsedAreGaps(rows: Rows, job: Job, source: Source, c: Schedule, now: Instant, known: seq<Instant>, elapsed: seq<Instant>)
    requires known != [] && forall at :: at in known <==> Slot(job, at) in rows
    requires forall i, j :: 0 <= i < j < |known| ==> known[i] < known[j]
    requires forall at :: at in elapsed <==> known[0] < at <= now && Fires(c, at)
    ensures WithPlans(rows, SlotsOf(job, elapsed), source) == Filled(rows, job, source, c, now)
  {
    assert IsFirst(rows, job, known[0]) by {
      assert known[0] in known;
      forall at | Slot(job, at) in rows ensures known[0] <= at {
        assert at in known;
      }
    }
    FirstIsUnique(rows, job, known[0]);
    forall slot | slot !in rows ensures slot in SlotsOf(job, elapsed) <==> slot in GapSlots(rows, job, c, now) {
      assert slot in SlotsOf(job, elapsed) <==> slot.job == job && slot.at in elapsed;
    }
  }

  lemma PlanOneMore(rows: Rows, job: Job, source: Source, elapsed: seq<Instant>, i: nat)
    requires i < |elapsed| && elapsed[i] !in elapsed[..i]
    ensures var now, next := WithPlans(rows, SlotsOf(job, elapsed[..i]), source), WithPlans(rows, SlotsOf(job, elapsed[..i + 1]), source);
            && (Slot(job, elapsed[i]) in rows ==> next == now)
            && (Slot(job, elapsed[i]) !in rows ==> next == Planned(now, Slot(job, elapsed[i]), source, map[]))
  {
    var slot := Slot(job, elapsed[i]);
    assert elapsed[..i + 1] == elapsed[..i] + [elapsed[i]];
    assert SlotsOf(job, elapsed[..i + 1]) == SlotsOf(job, elapsed[..i]) + {slot};
    WithOnePlan(rows, SlotsOf(job, elapsed[..i]), slot, source);
  }

  lemma WithOnePlan(rows: Rows, slots: set<Slot>, slot: Slot, source: Source)
    requires slot !in slots
    ensures slot in rows ==> WithPlans(rows, slots + {slot}, source) == WithPlans(rows, slots, source)
    ensures slot !in rows ==> slot !in WithPlans(rows, slots, source)
    ensures slot !in rows ==> WithPlans(rows, slots + {slot}, source) == WithPlans(rows, slots, source)[slot := NewRow(source, map[])]
  {
    if slot in rows {
      assert slots + {slot} - rows.Keys == slots - rows.Keys;
    }
  }

  /** Restart repair, whatever state the ledger was left in. */
  lemma RestartRepair(rows: Rows, job: Job, source: Source, c: Schedule, now: Instant, first: Instant)
    requires IsFirst(rows, job, first)
    ensures var rows' := Repaired(rows, job, source, c, now);
            // every firing after the earliest known window has its row,
            && (forall at :: first < at <= now && Fires(c, at) ==> Slot(job, at) in rows')
            // everything due is terminal and nothing is running,
            && (forall at :: Slot(job, at) in rows' && at <= now ==> Terminal(rows'[Slot(job, at)].status))
            && (forall at :: Slot(job, at) in rows' ==> rows'[Slot(job, at)].status != Running)
            // no row is lost, terminal rows and other jobs' rows are as they were,
            && rows.Keys <= rows'.Keys
            && (forall slot :: slot in rows && (slot.job != job || Terminal(rows[slot].status)) ==> rows'[slot] == rows[slot])
            // and a row that was added stands for a missed firing.
            && (forall slot :: slot in rows' && slot !in rows ==>
                  slot.job == job && first < slot.at <= now && Fires(c, slot.at) && rows'[slot].status == Missed && rows'[slot].source == source)
  {
    FirstIsUnique(rows, job, first);
    var filled := Filled(rows, job, source, c, now);
    forall at | first < at <= now && Fires(c, at) ensures Slot(job, at) in filled {
      if Slot(job, at) !in rows { assert Gap(rows, job, c, now, at); }
    }
  }

  /** A terminal row survives every operation as it is. */
  lemma TerminalRowsStay(rows: Rows, slot: Slot, other: Slot, source: Source, metadata: Metadata, now: Instant, status: RowStatus, error: Option<string>, job: Job)
    requires slot in rows && Terminal(rows[slot].status)
    ensures slot in Planned(rows, other, source, metadata) && Planned(rows, other, source, metadata)[slot] == rows[slot]
    ensures slot in Claimed(rows, other, now) && Claimed(rows, other, now)[slot] == rows[slot]
    ensures slot in Ended(rows, other, now, status, error) && Ended(rows, other, now, status, error)[slot] == rows[slot]
    ensures slot in Reconciled(rows, job, now) && Reconciled(rows, job, now)[slot] == rows[slot]
  {
  }
}
