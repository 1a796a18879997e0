/** What an early leave can do to the bodies that are still running, and when it can. */
module SchedulerExposure {
  import opened Wrappers
  import opened Windows
  import opened Cron
  import opened SchedulerLedger
  import opened SchedulerProtocol

  // ---------- Losing the row of a live execution ----------

  /** The row of a live execution is running, or was interrupted by a repair of its job. */
  lemma LiveRow(jobs: Jobs, s: State, h: HostId, slot: Slot)
    requires Inv(jobs, s) && Executes(s, h, slot)
    ensures slot.job in jobs && slot in s.rows && (RunningSlot(s, slot) || s.rows[slot].status == Interrupted)
    ensures s.hosts[h].phase != Left ==> RunningSlot(s, slot)
  {
    assert HostOk(jobs, s, s.hosts[h]);
    OwnFacts(jobs, s, h, slot.job);
  }

  ghost predicate LostBySettle(states: seq<State>, actions: seq<Action>, k: nat, h: HostId, slot: Slot)
    requires k < |states| && k < |actions|
  {
    actions[k].Settle? && actions[k].job == slot.job && Executes(states[k], h, slot)
  }

  /** The only step that takes the running row from a live execution is a repair of its job. */
  lemma LosingStep(jobs: Jobs, s: State, a: Action, h: HostId, slot: Slot)
    requires Inv(jobs, s) && Enabled(jobs, s, a) && Executes(Apply(jobs, s, a), h, slot) && !RunningSlot(Apply(jobs, s, a), slot)
    ensures Executes(s, h, slot) && (RunningSlot(s, slot) ==> a.Settle? && a.job == slot.job)
  {
    hide Inv;
    if !Executes(s, h, slot) { StartedRuns(jobs, s, a, h, slot); assert false; }
    if a.Complete? && RunningSlot(s, slot) { CompleteSpares(jobs, s, a, h, slot); }
  }

  lemma StartedRuns(jobs: Jobs, s: State, a: Action, h: HostId, slot: Slot)
    requires Enabled(jobs, s, a) && Executes(Apply(jobs, s, a), h, slot) && !Executes(s, h, slot)
    ensures a == Claim(h, slot.job) && TaskAt(jobs, s, h, slot.job) && !s.hosts[h].stopping && RunningSlot(Apply(jobs, s, a), slot)
  {
  }

  lemma CompleteSpares(jobs: Jobs, s: State, a: Action, h: HostId, slot: Slot)
    requires Inv(jobs, s) && Enabled(jobs, s, a) && a.Complete? && RunningSlot(s, slot) && Executes(Apply(jobs, s, a), h, slot)
    ensures RunningSlot(Apply(jobs, s, a), slot)
  {
    var ended := Slot(a.job, TaskOf(s, a.host, a.job).at);
    if ended == slot {
      assert Executes(s, a.host, slot) && Executes(s, h, slot);
    }
  }

  lemma SettleInterrupts(jobs: Jobs, s: State, a: Action, h: HostId, slot: Slot)
    requires Inv(jobs, s) && Enabled(jobs, s, a) && a.Settle? && a.job == slot.job && Executes(s, h, slot)
    ensures slot in Apply(jobs, s, a).rows && Apply(jobs, s, a).rows[slot].status == Interrupted
  {
    LiveRow(jobs, s, h, slot);
    hide Inv;
  }

  /** A live execution's row is not running exactly when a later repair of its job interrupted it. */
  lemma {:induction false} RowLostExactly(jobs: Jobs, states: seq<State>, actions: seq<Action>, i: nat, h: HostId, slot: Slot)
    requires Behaviour(jobs, states, actions) && i < |states| && Executes(states[i], h, slot)
    ensures !RunningSlot(states[i], slot) <==> exists k :: 0 <= k < i && LostBySettle(states, actions, k, h, slot)
    decreases i
  {
    hide Inv, Enabled, Apply, Executes;
    if k :| 0 <= k < i && LostBySettle(states, actions, k, h, slot) {
      Reachable(jobs, states, actions, k);
      SettleInterrupts(jobs, states[k], actions[k], h, slot);
      TerminalRowsNeverChange(jobs, states, actions, k + 1, i, slot);
    } else if !RunningSlot(states[i], slot) {
      LostEarlier(jobs, states, actions, i, h, slot);
    }
  }

  lemma {:induction false} LostEarlier(jobs: Jobs, states: seq<State>, actions: seq<Action>, i: nat, h: HostId, slot: Slot)
    requires Behaviour(jobs, states, actions) && i < |states| == |actions| + 1
    requires Executes(states[i], h, slot) && !RunningSlot(states[i], slot)
    ensures exists k :: 0 <= k < i && LostBySettle(states, actions, k, h, slot)
    decreases i
  {
    hide Run, Inv, Enabled, Apply, RunningSlot;
    assert i > 0;
    Reachable(jobs, states, actions, i - 1);
    LastStep(jobs, states, actions, i);
    hide Executes;
    LosingStep(jobs, states[i - 1], actions[i - 1], h, slot);
    if RunningSlot(states[i - 1], slot) {
      assert LostBySettle(states, actions, i - 1, h, slot);
    } else {
      LostEarlier(jobs, states, actions, i - 1, h, slot);
    }
  }
  // ---------- When it can happen ----------

  /** The body is live in a host that has left, or that may leave because a task of it raised. */
  ghost predicate Exposed(s: State, h: HostId, slot: Slot) {
    Executes(s, h, slot) && (s.hosts[h].phase == Left || (s.hosts[h].phase == Graceful && SomeRaised(s.hosts[h])))
  }

  ghost predicate LostRow(s: State, h: HostId, slot: Slot) {
    Executes(s, h, slot) && !RunningSlot(s, slot)
  }

  /** A leading host executes a body of the same source. */
  ghost predicate Overlapped(jobs: Jobs, s: State, h: HostId, slot: Slot) {
    && Executes(s, h, slot) && slot.job in jobs
    && exists g, other :: Overlaps(jobs, s, h, slot, g, other)
  }

  ghost predicate Overlaps(jobs: Jobs, s: State, h: HostId, slot: Slot, g: HostId, other: Slot)
    requires slot.job in jobs
  {
    g != h && Leads(s, g) && Executes(s, g, other) && other.job in jobs && jobs[other.job].source == jobs[slot.job].source
  }

  /** In this step the host notices no stop and none of its tasks fails. */
  predicate Spares(a: Action, h: HostId) {
    a != NoticeStop(h) && (a.Abort? ==> a.host != h)
  }

  ghost predicate SparingRun(jobs: Jobs, states: seq<State>, actions: seq<Action>, s: State, h: HostId) {
    Run(jobs, states, actions) && states[0] == s && forall i :: 0 <= i < |actions| ==> Spares(actions[i], h)
  }

  /** The row can be lost although the host notices no further stop and no further task of it fails. */
  ghost predicate CanLose(jobs: Jobs, s: State, h: HostId, slot: Slot) {
    exists states, actions :: SparingRun(jobs, states, actions, s, h) && LostRow(states[|actions|], h, slot)
  }

  ghost predicate CanOverlap(jobs: Jobs, s: State, h: HostId, slot: Slot) {
    exists states, actions :: SparingRun(jobs, states, actions, s, h) && Overlapped(jobs, states[|actions|], h, slot)
  }

  // What one step may change about a host:

  lemma PhaseStep(jobs: Jobs, s: State, a: Action, h: HostId)
    requires Enabled(jobs, s, a) && h in Apply(jobs, s, a).hosts
    ensures Apply(jobs, s, a).hosts[h].phase == Graceful ==> a == NoticeStop(h) || (h in s.hosts && s.hosts[h].phase == Graceful)
    ensures Apply(jobs, s, a).hosts[h].phase == Left ==> h in s.hosts && (a == Leave(h) || s.hosts[h].phase == Left)
    ensures h in s.hosts && s.hosts[h].phase == Graceful ==>
              Apply(jobs, s, a).hosts[h].phase == Graceful || Apply(jobs, s, a).hosts[h].phase == Left
    ensures h in s.hosts && s.hosts[h].phase == Left ==> Apply(jobs, s, a).hosts[h].phase == Left
  {
  }

  lemma NewlyRaised(jobs: Jobs, s: State, a: Action, h: HostId, j: Job)
    requires Enabled(jobs, s, a) && TaskAt(jobs, Apply(jobs, s, a), h, j) && TaskOf(Apply(jobs, s, a), h, j).Raised?
    ensures TaskAt(jobs, s, h, j)
    ensures || TaskOf(s, h, j).Raised? || (a.Abort? && a.host == h)
            || (TaskOf(s, h, j).Executing? && !RunningSlot(s, Slot(j, TaskOf(s, h, j).at)))
  {
  }

  lemma RaisedStep(jobs: Jobs, s: State, a: Action, h: HostId)
    requires Inv(jobs, s) && Enabled(jobs, s, a) && h in Apply(jobs, s, a).hosts && SomeRaised(Apply(jobs, s, a).hosts[h])
    ensures h in s.hosts
    ensures SomeRaised(s.hosts[h]) || (a.Abort? && a.host == h) || s.hosts[h].phase == Left
  {
    StepKeeps(jobs, s, a);
    assert HostOk(jobs, Apply(jobs, s, a), Apply(jobs, s, a).hosts[h]);
    hide Inv, Enabled, Apply, RunningSlot;
    var j :| j in Apply(jobs, s, a).hosts[h].tasks && Apply(jobs, s, a).hosts[h].tasks[j].Raised?;
    NewlyRaised(jobs, s, a, h, j);
    if TaskOf(s, h, j).Executing? {
      assert Executes(s, h, Slot(j, TaskOf(s, h, j).at));
      LiveRow(jobs, s, h, Slot(j, TaskOf(s, h, j).at));
    }
  }

  lemma StaysRaised(jobs: Jobs, s: State, a: Action, h: HostId)
    requires Enabled(jobs, s, a) && h in s.hosts && h in Apply(jobs, s, a).hosts
    requires SomeRaised(s.hosts[h]) || (a.Abort? && a.host == h)
    ensures SomeRaised(Apply(jobs, s, a).hosts[h])
  {
    if SomeRaised(s.hosts[h]) {
      var j :| j in s.hosts[h].tasks && s.hosts[h].tasks[j].Raised?;
      assert Apply(jobs, s, a).hosts[h].tasks[j].Raised?;
    } else {
      assert Apply(jobs, s, a).hosts[h].tasks[a.job].Raised?;
    }
  }

  /** A host that has left starts no body. */
  lemma LeftStep(jobs: Jobs, s: State, a: Action, h: HostId, slot: Slot)
    requires Inv(jobs, s) && Enabled(jobs, s, a) && Executes(Apply(jobs, s, a), h, slot) && Apply(jobs, s, a).hosts[h].phase == Left
    ensures Executes(s, h, slot)
    ensures s.hosts[h].phase == Left || (a == Leave(h) && s.hosts[h].phase == Graceful && SomeRaised(s.hosts[h]))
  {
    hide Inv;
    if !Executes(s, h, slot) {
      StartedRuns(jobs, s, a, h, slot);
      OwnFacts(jobs, s, h, slot.job);
      assert false;
    }
    PhaseStep(jobs, s, a, h);
    if s.hosts[h].phase != Left { assert !Over(s.hosts[h].tasks[slot.job]); }
  }

  lemma ExposureStep(jobs: Jobs, s: State, a: Action, h: HostId, slot: Slot)
    requires Inv(jobs, s) && Enabled(jobs, s, a) && Spares(a, h) && Exposed(Apply(jobs, s, a), h, slot)
    ensures Exposed(s, h, slot)
  {
    hide Inv, Enabled, Apply, SomeRaised;
    PhaseStep(jobs, s, a, h);
    if Apply(jobs, s, a).hosts[h].phase == Left {
      LeftStep(jobs, s, a, h, slot);
    } else {
      RaisedStep(jobs, s, a, h);
      if !Executes(s, h, slot) {
        StartedRuns(jobs, s, a, h, slot);
        OwnFacts(jobs, s, h, slot.job);
        assert false;
      }
      PhaseStep(jobs, s, a, h);
    }
  }

  lemma {:induction false} ExposureIsOld(jobs: Jobs, states: seq<State>, actions: seq<Action>, s: State, h: HostId, slot: Slot, i: nat)
    requires Inv(jobs, s) && SparingRun(jobs, states, actions, s, h) && i < |states| && Exposed(states[i], h, slot)
    ensures Exposed(s, h, slot)
    decreases i
  {
    hide Inv, Exposed;
    if i > 0 {
      AlwaysOk(jobs, states, actions, i - 1);
      LastStep(jobs, states, actions, i);
      ExposureStep(jobs, states[i - 1], actions[i - 1], h, slot);
      ExposureIsOld(jobs, states, actions, s, h, slot, i - 1);
    }
  }

  /** Either harm needs a host that has left. */
  lemma HarmNeedsExposure(jobs: Jobs, s: State, h: HostId, slot: Slot)
    requires Inv(jobs, s) && (LostRow(s, h, slot) || Overlapped(jobs, s, h, slot))
    ensures Exposed(s, h, slot)
  {
    LiveRow(jobs, s, h, slot);
    if Overlapped(jobs, s, h, slot) {
      var g, other :| Overlaps(jobs, s, h, slot, g, other);
      OthersHaveLeft(jobs, s, g, h);
    }
  }

  // The other direction: the host leaves or another crashes, and a new one repairs, plans and claims.

  lemma {:induction false} FreshHost(hosts: set<HostId>) returns (h: HostId)
    ensures h !in hosts && forall g :: g in hosts ==> g < h
  {
    if hosts == {} { return 0; }
    var g :| g in hosts;
    h := FreshHost(hosts - {g});
    if h <= g { h := g + 1; }
    forall other | other in hosts ensures other < h { assert other == g || other in hosts - {g}; }
  }

  lemma OneMore(jobs: Jobs, states: seq<State>, actions: seq<Action>, a: Action)
    requires Run(jobs, states, actions) && Enabled(jobs, states[|actions|], a)
    ensures Run(jobs, states + [Apply(jobs, states[|actions|], a)], actions + [a])
  {
  }

  lemma Extend(jobs: Jobs, states: seq<State>, actions: seq<Action>, s: State, h: HostId, a: Action) returns (states': seq<State>, actions': seq<Action>)
    requires SparingRun(jobs, states, actions, s, h) && Enabled(jobs, states[|actions|], a) && Spares(a, h)
    ensures SparingRun(jobs, states', actions', s, h) && states'[|actions'|] == Apply(jobs, states[|actions|], a)
  {
    hide Enabled, Apply, Spares;
    OneMore(jobs, states, actions, a);
    states', actions' := states + [Apply(jobs, states[|actions|], a)], actions + [a];
  }

  /** A new host leads next to the live execution, and its task of the same job has come to t. */
  ghost predicate Replacing(jobs: Jobs, s: State, h: HostId, slot: Slot, n: HostId, t: Task) {
    && n != h && Executes(s, h, slot)
    && Leads(s, n) && !s.hosts[n].stopping && s.hosts[n].holders == map[]
    && TaskAt(jobs, s, n, slot.job) && TaskOf(s, n, slot.job) == t
  }

  lemma LeaveVacates(jobs: Jobs, s: State, h: HostId, slot: Slot)
    requires Exposed(s, h, slot) && s.hosts[h].phase == Graceful
    ensures Enabled(jobs, s, Leave(h)) && Apply(jobs, s, Leave(h)).leader.None? && Executes(Apply(jobs, s, Leave(h)), h, slot)
  {
  }

  lemma CrashVacates(jobs: Jobs, s: State, h: HostId, slot: Slot, g: HostId)
    requires Executes(s, h, slot) && g in s.hosts && g != h && s.leader == Some(g)
    ensures Enabled(jobs, s, Crash(g)) && Apply(jobs, s, Crash(g)).leader.None? && Executes(Apply(jobs, s, Crash(g)), h, slot)
  {
  }

  lemma LeaderLeads(jobs: Jobs, s: State)
    requires Inv(jobs, s) && s.leader.Some?
    ensures Leads(s, s.leader.value)
  {
  }

  lemma CanVacate(jobs: Jobs, s: State, h: HostId, slot: Slot) returns (states: seq<State>, actions: seq<Action>)
    requires Inv(jobs, s) && Exposed(s, h, slot)
    ensures SparingRun(jobs, states, actions, s, h)
    ensures var s' := states[|actions|]; s'.leader.None? && Executes(s', h, slot) && slot.job in jobs
  {
    hide Inv, Enabled, Apply, SomeRaised, RunningSlot;
    LiveRow(jobs, s, h, slot);
    states, actions := [s], [];
    if s.hosts[h].phase == Graceful {
      LeaveVacates(jobs, s, h, slot);
      states, actions := Extend(jobs, states, actions, s, h, Leave(h));
    } else if s.leader.Some? {
      LeaderLeads(jobs, s);
      CrashVacates(jobs, s, h, slot, s.leader.value);
      states, actions := Extend(jobs, states, actions, s, h, Crash(s.leader.value));
    }
  }

  lemma ToStarting(jobs: Jobs, s: State, h: HostId, slot: Slot, n: HostId)
    requires s.leader.None? && Executes(s, h, slot) && slot.job in jobs && n !in s.hosts
    ensures Enabled(jobs, s, Enter(n)) && Replacing(jobs, Apply(jobs, s, Enter(n)), h, slot, n, Starting)
  {
  }

  lemma ToRepairing(jobs: Jobs, s: State, h: HostId, slot: Slot, n: HostId)
    requires Replacing(jobs, s, h, slot, n, Starting)
    ensures var a := BeginRepair(n, slot.job, []);
            Enabled(jobs, s, a) && Replacing(jobs, Apply(jobs, s, a), h, slot, n, Repairing(s.now, []))
  {
  }

  lemma ToIdle(jobs: Jobs, s: State, h: HostId, slot: Slot, n: HostId, observed: Instant)
    requires Replacing(jobs, s, h, slot, n, Repairing(observed, []))
    ensures var a := Settle(n, slot.job);
            && Enabled(jobs, s, a) && Replacing(jobs, Apply(jobs, s, a), h, slot, n, Idle)
            && !RunningSlot(Apply(jobs, s, a), slot)
  {
  }

  predicate StillScheduled(s: State, slot: Slot) {
    slot in s.rows && s.rows[slot].status == Scheduled
  }

  lemma ToWaiting(jobs: Jobs, s: State, h: HostId, slot: Slot, n: HostId)
    requires Replacing(jobs, s, h, slot, n, Idle) && RowsOk(jobs, s) && WellFormed(jobs[slot.job].schedule)
    ensures var at, a := NextRun(jobs[slot.job].schedule, s.now), PlanNext(n, slot.job);
            && Enabled(jobs, s, a) && Replacing(jobs, Apply(jobs, s, a), h, slot, n, Waiting(at))
            && Apply(jobs, s, a).now < at && StillScheduled(Apply(jobs, s, a), Slot(slot.job, at))
  {
    NextRunFires(jobs[slot.job].schedule, s.now);
    hide NextRun, Fires;
  }

  lemma ToDue(jobs: Jobs, s: State, h: HostId, slot: Slot, n: HostId, at: Instant)
    requires Replacing(jobs, s, h, slot, n, Waiting(at)) && s.now < at && StillScheduled(s, Slot(slot.job, at))
    ensures Enabled(jobs, s, Tick(at))
    ensures var s' := Apply(jobs, s, Tick(at));
            Replacing(jobs, s', h, slot, n, Waiting(at)) && s'.now == at && StillScheduled(s', Slot(slot.job, at))
  {
  }

  lemma ToQueued(jobs: Jobs, s: State, h: HostId, slot: Slot, n: HostId, at: Instant)
    requires Replacing(jobs, s, h, slot, n, Waiting(at)) && s.now == at && StillScheduled(s, Slot(slot.job, at))
    ensures Enabled(jobs, s, BecomeDue(n, slot.job))
    ensures var s' := Apply(jobs, s, BecomeDue(n, slot.job));
            Replacing(jobs, s', h, slot, n, Queued(at)) && StillScheduled(s', Slot(slot.job, at))
  {
  }

  lemma ToExecuting(jobs: Jobs, s: State, h: HostId, slot: Slot, n: HostId, at: Instant)
    requires Replacing(jobs, s, h, slot, n, Queued(at)) && StillScheduled(s, Slot(slot.job, at))
    ensures Enabled(jobs, s, Claim(n, slot.job)) && Overlaps(jobs, Apply(jobs, s, Claim(n, slot.job)), h, slot, n, Slot(slot.job, at))
    ensures Overlapped(jobs, Apply(jobs, s, Claim(n, slot.job)), h, slot)
  {
    assert Overlaps(jobs, Apply(jobs, s, Claim(n, slot.job)), h, slot, n, Slot(slot.job, at));
  }

  /** An exposed body can lose its row: the next host repairs its job. */
  lemma ExposedCanLose(jobs: Jobs, s: State, h: HostId, slot: Slot) returns (states: seq<State>, actions: seq<Action>, n: HostId)
    requires Inv(jobs, s) && Exposed(s, h, slot)
    ensures SparingRun(jobs, states, actions, s, h) && LostRow(states[|actions|], h, slot)
    ensures Replacing(jobs, states[|actions|], h, slot, n, Idle)
  {
    states, actions := CanVacate(jobs, s, h, slot);
    hide Inv, Enabled, Apply, Run, SparingRun, Executes, Replacing, RunningSlot;
    n := FreshHost(states[|actions|].hosts.Keys);
    ToStarting(jobs, states[|actions|], h, slot, n);
    states, actions := Extend(jobs, states, actions, s, h, Enter(n));
    ToRepairing(jobs, states[|actions|], h, slot, n);
    var observed := states[|actions|].now;
    states, actions := Extend(jobs, states, actions, s, h, BeginRepair(n, slot.job, []));
    ToIdle(jobs, states[|actions|], h, slot, n, observed);
    states, actions := Extend(jobs, states, actions, s, h, Settle(n, slot.job));
    assert Executes(states[|actions|], h, slot) by { StillExecutes(jobs, states[|actions|], h, slot, n, Idle); }
  }

  lemma StillExecutes(jobs: Jobs, s: State, h: HostId, slot: Slot, n: HostId, t: Task)
    requires Replacing(jobs, s, h, slot, n, t)
    ensures Executes(s, h, slot) && slot.job in jobs
  {
  }

  /** And it can come to run next to a later body of its source. */
  lemma ExposedCanOverlap(jobs: Jobs, s: State, h: HostId, slot: Slot) returns (states: seq<State>, actions: seq<Action>)
    requires Inv(jobs, s) && Exposed(s, h, slot) && slot.job in jobs && WellFormed(jobs[slot.job].schedule)
    ensures SparingRun(jobs, states, actions, s, h) && Overlapped(jobs, states[|actions|], h, slot)
  {
    hide Enabled, Apply, Executes, Replacing, RunningSlot, LostRow, Overlapped, StillScheduled, NextRun, RowsOk, WellFormed;
    var n: HostId;
    states, actions, n := ExposedCanLose(jobs, s, h, slot);
    AlwaysOk(jobs, states, actions, |actions|);
    hide Inv, Run, SparingRun;
    var at := NextRun(jobs[slot.job].schedule, states[|actions|].now);
    ToWaiting(jobs, states[|actions|], h, slot, n);
    states, actions := Extend(jobs, states, actions, s, h, PlanNext(n, slot.job));
    ToDue(jobs, states[|actions|], h, slot, n, at);
    states, actions := Extend(jobs, states, actions, s, h, Tick(at));
    ToQueued(jobs, states[|actions|], h, slot, n, at);
    states, actions := Extend(jobs, states, actions, s, h, BecomeDue(n, slot.job));
    ToExecuting(jobs, states[|actions|], h, slot, n, at);
    states, actions := Extend(jobs, states, actions, s, h, Claim(n, slot.job));
  }

  /** A live execution can lose its row, or be overlapped by another body of its source, without a
      further noticed stop or failure in its host, exactly when it is exposed now. */
  lemma HarmExactlyIfExposed(jobs: Jobs, s: State, h: HostId, slot: Slot)
    requires Inv(jobs, s) && Executes(s, h, slot) && forall j :: j in jobs ==> WellFormed(jobs[j].schedule)
    ensures CanLose(jobs, s, h, slot) <==> Exposed(s, h, slot)
    ensures CanOverlap(jobs, s, h, slot) <==> Exposed(s, h, slot)
  {
    LiveRow(jobs, s, h, slot);
    hide Inv, Exposed, Executes, LostRow, Overlapped, Run, WellFormed;
    if CanLose(jobs, s, h, slot) {
      var states, actions :| SparingRun(jobs, states, actions, s, h) && LostRow(states[|actions|], h, slot);
      HarmComesFromExposure(jobs, states, actions, s, h, slot);
    }
    if CanOverlap(jobs, s, h, slot) {
      var states, actions :| SparingRun(jobs, states, actions, s, h) && Overlapped(jobs, states[|actions|], h, slot);
      HarmComesFromExposure(jobs, states, actions, s, h, slot);
    }
    if Exposed(s, h, slot) {
      var states, actions, n := ExposedCanLose(jobs, s, h, slot);
      var states', actions' := ExposedCanOverlap(jobs, s, h, slot);
    }
  }

  lemma HarmComesFromExposure(jobs: Jobs, states: seq<State>, actions: seq<Action>, s: State, h: HostId, slot: Slot)
    requires Inv(jobs, s) && SparingRun(jobs, states, actions, s, h)
    requires LostRow(states[|actions|], h, slot) || Overlapped(jobs, states[|actions|], h, slot)
    ensures Exposed(s, h, slot)
  {
    hide Inv, Exposed, LostRow, Overlapped;
    AlwaysOk(jobs, states, actions, |actions|);
    HarmNeedsExposure(jobs, states[|actions|], h, slot);
    ExposureIsOld(jobs, states, actions, s, h, slot, |actions|);
  }

  // ---------- Which histories expose a body ----------

  /** Since it entered, the host has noticed a stop. */
  ghost predicate NoticedStop(states: seq<State>, actions: seq<Action>, h: HostId, i: nat)
    requires |states| == |actions| + 1 && i < |states|
    decreases i
  {
    h in states[i].hosts && i > 0 && (actions[i - 1] == NoticeStop(h) || NoticedStop(states, actions, h, i - 1))
  }

  /** Since it entered, an exception has ended a task of the host. */
  ghost predicate TaskFailed(states: seq<State>, actions: seq<Action>, h: HostId, i: nat)
    requires |states| == |actions| + 1 && i < |states|
    decreases i
  {
    h in states[i].hosts && i > 0 && ((actions[i - 1].Abort? && actions[i - 1].host == h) || TaskFailed(states, actions, h, i - 1))
  }

  lemma {:induction false} PastShows(jobs: Jobs, states: seq<State>, actions: seq<Action>, h: HostId, i: nat)
    requires Behaviour(jobs, states, actions) && i < |states| && h in states[i].hosts
    ensures NoticedStop(states, actions, h, i) ==> states[i].hosts[h].phase == Graceful || states[i].hosts[h].phase == Left
    ensures TaskFailed(states, actions, h, i) ==> SomeRaised(states[i].hosts[h])
    ensures states[i].hosts[h].phase == Graceful ==> NoticedStop(states, actions, h, i)
    ensures states[i].hosts[h].phase != Left && SomeRaised(states[i].hosts[h]) ==> TaskFailed(states, actions, h, i)
    decreases i
  {
    hide SomeRaised, Enabled, Apply, Inv;
    if i > 0 {
      var s, a := states[i - 1], actions[i - 1];
      LastStep(jobs, states, actions, i);
      Reachable(jobs, states, actions, i - 1);
      PhaseStep(jobs, s, a, h);
      if SomeRaised(states[i].hosts[h]) { RaisedStep(jobs, s, a, h); }
      StepPlaces(jobs, s, a, h);
      if h in s.hosts {
        PastShows(jobs, states, actions, h, i - 1);
        if SomeRaised(s.hosts[h]) || (a.Abort? && a.host == h) { StaysRaised(jobs, s, a, h); }
      } else {
        assert !NoticedStop(states, actions, h, i - 1) && !TaskFailed(states, actions, h, i - 1);
      }
    }
  }

  lemma StepPlaces(jobs: Jobs, s: State, a: Action, h: HostId)
    requires Enabled(jobs, s, a)
    ensures a == NoticeStop(h) ==> Apply(jobs, s, a).hosts[h].phase == Graceful
    ensures a.Abort? && a.host == h ==> h in s.hosts
  {
  }
  /** A live execution is exposed exactly when its host has noticed a stop and an exception has
      ended a task of it, in either order. */
  lemma {:induction false} ExposedExactly(jobs: Jobs, states: seq<State>, actions: seq<Action>, h: HostId, slot: Slot, i: nat)
    requires Behaviour(jobs, states, actions) && i < |states| && Executes(states[i], h, slot)
    ensures Exposed(states[i], h, slot) <==> NoticedStop(states, actions, h, i) && TaskFailed(states, actions, h, i)
    decreases i
  {
    hide Inv, Enabled, Apply, SomeRaised;
    PastShows(jobs, states, actions, h, i);
    if Exposed(states[i], h, slot) && states[i].hosts[h].phase == Left {
      Reachable(jobs, states, actions, i - 1);
      LastStep(jobs, states, actions, i);
      LeftStep(jobs, states[i - 1], actions[i - 1], h, slot);
      ExposedExactly(jobs, states, actions, h, slot, i - 1);
    }
  }

  /** Over histories: the row of a live execution can be lost, and its source be claimed again,
      exactly when its host has noticed a stop and an exception has ended another of its tasks. */
  lemma HarmExactly(jobs: Jobs, states: seq<State>, actions: seq<Action>, h: HostId, slot: Slot, i: nat)
    requires Behaviour(jobs, states, actions) && i < |states| && Executes(states[i], h, slot)
    requires forall j :: j in jobs ==> WellFormed(jobs[j].schedule)
    ensures CanLose(jobs, states[i], h, slot) <==> NoticedStop(states, actions, h, i) && TaskFailed(states, actions, h, i)
    ensures CanOverlap(jobs, states[i], h, slot) <==> NoticedStop(states, actions, h, i) && TaskFailed(states, actions, h, i)
  {
    Reachable(jobs, states, actions, i);
    hide Inv, Exposed, CanLose, CanOverlap, Executes, WellFormed;
    HarmExactlyIfExposed(jobs, states[i], h, slot);
    ExposedExactly(jobs, states, actions, h, slot, i);
  }

  /** Finishing fails only in a host that noticed a stop and had a task fail: else the row of a
      live execution is running until its own task ends it. */
  lemma LiveRowIsRunning(jobs: Jobs, states: seq<State>, actions: seq<Action>, h: HostId, slot: Slot, i: nat)
    requires Behaviour(jobs, states, actions) && i < |states| && Executes(states[i], h, slot)
    ensures RunningSlot(states[i], slot) || (NoticedStop(states, actions, h, i) && TaskFailed(states, actions, h, i))
  {
    Reachable(jobs, states, actions, i);
    LiveRow(jobs, states[i], h, slot);
    ExposedExactly(jobs, states, actions, h, slot, i);
  }

  /** Two live executions of one source: always in two hosts, one of which noticed a stop and had
      a task fail. */
  lemma SourcesExcludeEachOther(jobs: Jobs, states: seq<State>, actions: seq<Action>, h: HostId, slot: Slot, g: HostId, other: Slot, i: nat)
    requires Behaviour(jobs, states, actions) && i < |states|
    requires Executes(states[i], h, slot) && Executes(states[i], g, other) && (h != g || slot != other)
    requires slot.job in jobs && other.job in jobs && jobs[slot.job].source == jobs[other.job].source
    ensures h != g && slot != other
    ensures || (NoticedStop(states, actions, h, i) && TaskFailed(states, actions, h, i))
            || (NoticedStop(states, actions, g, i) && TaskFailed(states, actions, g, i))
  {
    Reachable(jobs, states, actions, i);
    var s := states[i];
    OwnFacts(jobs, s, h, slot.job);
    OwnFacts(jobs, s, g, other.job);
    assert h != g && slot != other;
    if Leads(s, h) { OthersHaveLeft(jobs, s, h, g); }
    ExposedExactly(jobs, states, actions, h, slot, i);
    ExposedExactly(jobs, states, actions, g, other, i);
  }

  lemma SettleMovesNoBody(jobs: Jobs, s: State, a: Action, h: HostId, slot: Slot)
    requires Enabled(jobs, s, a) && a.Settle? && Executes(s, h, slot)
    ensures Executes(Apply(jobs, s, a), h, slot) && Apply(jobs, s, a).hosts[h].phase == s.hosts[h].phase
  {
  }

  /** Reconciling interrupts the row of a live execution only after its host left it behind. */
  lemma SettleSparesLiveExecutions(jobs: Jobs, states: seq<State>, actions: seq<Action>, h: HostId, slot: Slot, i: nat)
    requires Behaviour(jobs, states, actions) && i < |actions| && actions[i].Settle? && Executes(states[i], h, slot)
    requires RunningSlot(states[i], slot) && !RunningSlot(states[i + 1], slot)
    ensures states[i].hosts[h].phase == Left && NoticedStop(states, actions, h, i) && TaskFailed(states, actions, h, i)
  {
    Reachable(jobs, states, actions, i);
    hide Inv, Enabled, Apply, RunningSlot, Executes;
    StepKeeps(jobs, states[i], actions[i]);
    SettleMovesNoBody(jobs, states[i], actions[i], h, slot);
    LiveRow(jobs, states[i + 1], h, slot);
    ExposedExactly(jobs, states, actions, h, slot, i);
  }

  // ---------- One such history ----------

  const DAILY := Schedule(0, 0, None)
  const TWO_JOBS: Jobs := map[0 := JobSpec(0, DAILY, map[]), 1 := JobSpec(1, DAILY, map[])]
  const FIRST := Slot(0, DAY)

  /** Two daily jobs run their first window; after a stop one of them fails to end its row, the host
      leaves, and the next host repairs the other job. */
  const SCRIPT: seq<Action> := [
    Enter(0), BeginRepair(0, 0, []), Settle(0, 0), BeginRepair(0, 1, []), Settle(0, 1),
    PlanNext(0, 0), PlanNext(0, 1), Tick(DAY), BecomeDue(0, 0), BecomeDue(0, 1), Claim(0, 0), Claim(0, 1),
    Stop(0), NoticeStop(0), Abort(0, 1), Leave(0), Enter(1), BeginRepair(1, 0, []), Settle(1, 0)]

  /** What matters of the first host and of the rows of the two windows. */
  ghost predicate Scene(s: State, now: Instant, first: Task, second: Task, status: Option<RowStatus>, other: Option<RowStatus>) {
    && s.now == now && s.leader == Some(0) && s.hosts.Keys == {0}
    && s.hosts[0].tasks == map[0 := first, 1 := second] && s.hosts[0].phase == Serving && !s.hosts[0].stopping
    && (!first.Executing? ==> s.hosts[0].holders == map[]) && (first.Executing? && !second.Executing? ==> s.hosts[0].holders == map[0 := 0])
    && StatusOf(s, FIRST) == status && StatusOf(s, Slot(1, DAY)) == other
  }

  function StatusOf(s: State, slot: Slot): Option<RowStatus> {
    if slot in s.rows then Some(s.rows[slot].status) else None
  }

  ghost predicate At(s: State, k: nat) {
    if k == 0 then s == State(map[], None, map[], 0, multiset{})
    else if k == 1 then Scene(s, 0, Starting, Starting, None, None)
    else if k == 2 then Scene(s, 0, Repairing(0, []), Starting, None, None)
    else if k == 3 then Scene(s, 0, Idle, Starting, None, None)
    else if k == 4 then Scene(s, 0, Idle, Repairing(0, []), None, None)
    else if k == 5 then Scene(s, 0, Idle, Idle, None, None)
    else if k == 6 then Scene(s, 0, Waiting(DAY), Idle, Some(Scheduled), None)
    else if k == 7 then Scene(s, 0, Waiting(DAY), Waiting(DAY), Some(Scheduled), Some(Scheduled))
    else if k == 8 then Scene(s, DAY, Waiting(DAY), Waiting(DAY), Some(Scheduled), Some(Scheduled))
    else if k == 9 then Scene(s, DAY, Queued(DAY), Waiting(DAY), Some(Scheduled), Some(Scheduled))
    else if k == 10 then Scene(s, DAY, Queued(DAY), Queued(DAY), Some(Scheduled), Some(Scheduled))
    else if k == 11 then Scene(s, DAY, Executing(DAY), Queued(DAY), Some(Running), Some(Scheduled))
    else if k == 12 then Scene(s, DAY, Executing(DAY), Executing(DAY), Some(Running), Some(Running))
    else ToldTail(s, k)
  }

  ghost predicate ToldTail(s: State, k: nat) {
    && Executes(s, 0, FIRST) && 1 in s.hosts[0].tasks && s.now == DAY && StatusOf(s, FIRST) == Some(if k < 19 then Running else Interrupted)
    && (if k == 13 then s.hosts.Keys == {0} && s.hosts[0].phase == Serving && s.hosts[0].stopping && Begun(s.hosts[0]) && s.hosts[0].tasks[1].Executing?
        else if k == 14 then s.hosts.Keys == {0} && s.hosts[0].phase == Graceful && s.hosts[0].tasks[1].Executing?
        else if k == 15 then s.hosts.Keys == {0} && s.hosts[0].phase == Graceful && s.hosts[0].tasks[1].Raised?
        else if k == 16 then s.hosts.Keys == {0} && s.leader.None?
        else if k == 17 then Replacing(TWO_JOBS, s, 0, FIRST, 1, Starting)
        else if k == 18 then Replacing(TWO_JOBS, s, 0, FIRST, 1, Repairing(DAY, []))
        else Replacing(TWO_JOBS, s, 0, FIRST, 1, Idle))
  }

  ghost predicate Told(script: seq<Action>, s: State, k: nat)
    requires k < |script|
  {
    At(s, k) ==> Enabled(TWO_JOBS, s, script[k]) && At(Apply(TWO_JOBS, s, script[k]), k + 1)
  }

  lemma FirstRepairTold(s: State, k: nat)
    requires k < 3
    ensures Told(SCRIPT, s, k)
  {
  }

  lemma SecondRepairTold(s: State, k: nat)
    requires 3 <= k < 5
    ensures Told(SCRIPT, s, k)
  {
  }

  lemma PlansTold(s: State, k: nat)
    requires 5 <= k < 8
    ensures Told(SCRIPT, s, k)
  {
    assert NextRun(DAILY, 0) == DAY;
  }

  lemma DueTold(s: State, k: nat)
    requires 8 <= k < 10
    ensures Told(SCRIPT, s, k)
  {
  }

  lemma ClaimsTold(s: State, k: nat)
    requires 10 <= k < 12
    ensures Told(SCRIPT, s, k)
  {
  }

  lemma StopTold(s: State, k: nat)
    requires 12 <= k < 15
    ensures Told(SCRIPT, s, k)
  {
  }

  lemma LeaveTold(s: State, k: nat)
    requires 15 <= k < 19
    ensures Told(SCRIPT, s, k)
  {
  }

  lemma EndFails(s: State)
    requires At(s, 19)
    ensures var end := Complete(0, 0, Succeeded, None);
            && Executes(s, 0, FIRST) && StatusOf(s, FIRST) == Some(Interrupted)
            && Enabled(TWO_JOBS, s, end) && TaskOf(Apply(TWO_JOBS, s, end), 0, 0) == Raised && Apply(TWO_JOBS, s, end).rows == s.rows
  {
  }

  lemma Tell(script: seq<Action>) returns (states: seq<State>)
    requires forall s, k :: 0 <= k < |script| ==> Told(script, s, k)
    ensures Behaviour(TWO_JOBS, states, script) && |states| == |script| + 1 && At(states[|script|], |script|)
  {
    var first := State(map[], None, map[], 0, multiset{});
    states := [first];
    var k := 0;
    assert At(first, 0);
    assert Run(TWO_JOBS, states, script[..0]);
    hide At, Enabled, Apply, Run;
    while k < |script|
      invariant k <= |script| && |states| == k + 1 && states[0] == first && At(states[k], k)
      invariant Run(TWO_JOBS, states, script[..k])
    {
      assert Told(script, states[k], k);
      OneMore(TWO_JOBS, states, script[..k], script[k]);
      assert script[..k + 1] == script[..k] + [script[k]];
      states, k := states + [Apply(TWO_JOBS, states[k], script[k])], k + 1;
    }
    assert script[..k] == script;
  }

  /** The live body's row is interrupted, and its end fails. */
  lemma EarlyLeaveInterrupts() returns (states: seq<State>)
    ensures Behaviour(TWO_JOBS, states, SCRIPT) && |states| == 20
    ensures var s, end := states[19], Complete(0, 0, Succeeded, None);
            && Executes(s, 0, FIRST) && StatusOf(s, FIRST) == Some(Interrupted)
            && Enabled(TWO_JOBS, s, end) && TaskOf(Apply(TWO_JOBS, s, end), 0, 0) == Raised && Apply(TWO_JOBS, s, end).rows == s.rows
  {
    hide At, Told, Run, Enabled, Apply;
    forall s, k: nat | k < |SCRIPT| ensures Told(SCRIPT, s, k) {
      if k < 3 { FirstRepairTold(s, k); } else if k < 5 { SecondRepairTold(s, k); }
      else if k < 8 { PlansTold(s, k); } else if k < 10 { DueTold(s, k); }
      else if k < 12 { ClaimsTold(s, k); } else if k < 15 { StopTold(s, k); } else { LeaveTold(s, k); }
    }
    states := Tell(SCRIPT);
    EndFails(states[19]);
  }
}
