/** Scheduler hosts and their job tasks as interleaved steps over one ledger. A host may crash
    between any two of them, and one that stops may give up its leadership while a body of it
    is still running. */
module SchedulerProtocol {
  import opened Wrappers
  import opened Windows
  import opened Cron
  import opened SchedulerLedger

  type HostId = nat

  datatype JobSpec = JobSpec(source: Source, schedule: Schedule, metadata: Metadata)

  type Jobs = map<Job, JobSpec>

  /** Where a job's task stands. It ends by returning (Exited) or by an exception (Raised). */
  datatype Task =
    | Starting
    | Repairing(observed: Instant, gaps: seq<Instant>)
    | Idle
    | Waiting(at: Instant)
    | Queued(at: Instant)
    | Executing(at: Instant)
    | Exited
    | Raised

  /** What the host waits for: a first task to end or the stop; after the stop all tasks, or a
      first exception; after an end all tasks, exceptions or not. Left: it has given up its
      leadership, and its process is about to end. */
  datatype Phase = Serving | Graceful | Failing | Left

  /** holders: which job holds the execution lock of a source. */
  datatype Host = Host(tasks: map<Job, Task>, holders: map<Source, Job>, stopping: bool, phase: Phase)

  /** bodies counts how often the body of a window has been started, in all history. */
  datatype State = State(
    rows: Rows,
    leader: Option<HostId>,
    hosts: map<HostId, Host>,
    now: Instant,
    bodies: multiset<Slot>)

  datatype Action =
    | Enter(host: HostId)
    | BeginRepair(host: HostId, job: Job, gaps: seq<Instant>)
    | PlanGap(host: HostId, job: Job)
    | Settle(host: HostId, job: Job)
    | PlanNext(host: HostId, job: Job)
    | BecomeDue(host: HostId, job: Job)
    | Claim(host: HostId, job: Job)
    | Complete(host: HostId, job: Job, status: RowStatus, error: Option<string>)
    | Abort(host: HostId, job: Job)
    | Quit(host: HostId, job: Job)
    | Stop(host: HostId)
    | NoticeStop(host: HostId)
    | NoticeEnd(host: HostId)
    | Leave(host: HostId)
    | Crash(host: HostId)
    | Tick(to: Instant)

  predicate Over(t: Task) {
    t.Exited? || t.Raised?
  }

  /** The repair comes before a task's first wait, so a host that has waited is past all repairs. */
  ghost predicate Begun(host: Host) {
    forall j :: j in host.tasks ==> !host.tasks[j].Starting? && !host.tasks[j].Repairing?
  }

  ghost predicate AllOver(host: Host) {
    forall j :: j in host.tasks ==> Over(host.tasks[j])
  }

  ghost predicate SomeRaised(host: Host) {
    exists j :: j in host.tasks && host.tasks[j].Raised?
  }

  predicate TaskAt(jobs: Jobs, s: State, h: HostId, j: Job) {
    j in jobs && h in s.hosts && j in s.hosts[h].tasks
  }

  function TaskOf(s: State, h: HostId, j: Job): Task
    requires h in s.hosts && j in s.hosts[h].tasks
  {
    s.hosts[h].tasks[j]
  }

  /** One task and the locks of its host moved. */
  function Moved(s: State, h: HostId, j: Job, t: Task, holders: map<Source, Job>): map<HostId, Host>
    requires h in s.hosts
  {
    s.hosts[h := s.hosts[h].(tasks := s.hosts[h].tasks[j := t], holders := holders)]
  }

  function WithTask(s: State, h: HostId, j: Job, t: Task): State
    requires h in s.hosts
  {
    s.(hosts := Moved(s, h, j, t, s.hosts[h].holders))
  }

  predicate RunningSlot(s: State, slot: Slot) {
    slot in s.rows && s.rows[slot].status == Running
  }

  ghost predicate Enabled(jobs: Jobs, s: State, a: Action) {
    match a
    case Enter(h) => s.leader.None? && h !in s.hosts
    case BeginRepair(h, j, _) => TaskAt(jobs, s, h, j) && TaskOf(s, h, j) == Starting
    case PlanGap(h, j) => TaskAt(jobs, s, h, j) && TaskOf(s, h, j).Repairing? && TaskOf(s, h, j).gaps != []
    case Settle(h, j) => TaskAt(jobs, s, h, j) && TaskOf(s, h, j).Repairing? && TaskOf(s, h, j).gaps == []
    case PlanNext(h, j) => TaskAt(jobs, s, h, j) && TaskOf(s, h, j) == Idle && !s.hosts[h].stopping
    case BecomeDue(h, j) => TaskAt(jobs, s, h, j) && TaskOf(s, h, j).Waiting? && TaskOf(s, h, j).at <= s.now && !s.hosts[h].stopping
    case Claim(h, j) => TaskAt(jobs, s, h, j) && TaskOf(s, h, j).Queued? && jobs[j].source !in s.hosts[h].holders
    case Complete(h, j, status, _) => TaskAt(jobs, s, h, j) && TaskOf(s, h, j).Executing? && Outcome(status)
    case Abort(h, j) => TaskAt(jobs, s, h, j) && !Over(TaskOf(s, h, j))
    case Quit(h, j) => TaskAt(jobs, s, h, j) && (TaskOf(s, h, j).Idle? || TaskOf(s, h, j).Waiting?) && s.hosts[h].stopping
    case Stop(h) => h in s.hosts
    case NoticeStop(h) => h in s.hosts && s.hosts[h].phase == Serving && s.hosts[h].stopping && Begun(s.hosts[h])
    case NoticeEnd(h) =>
      h in s.hosts && s.hosts[h].phase == Serving && Begun(s.hosts[h]) && exists j :: j in s.hosts[h].tasks && Over(s.hosts[h].tasks[j])
    case Leave(h) =>
      && h in s.hosts
      && (((s.hosts[h].phase == Graceful || s.hosts[h].phase == Failing) && AllOver(s.hosts[h]))
          || (s.hosts[h].phase == Graceful && SomeRaised(s.hosts[h])))
    case Crash(h) => h in s.hosts
    case Tick(to) => s.now <= to
  }

  /** The state after a step. Losing the process loses its tasks, its locks and its leadership.
      Ending a row that is not running is an error. */
  function Apply(jobs: Jobs, s: State, a: Action): State
    requires Enabled(jobs, s, a)
  {
    match a
    case Enter(h) => s.(leader := Some(h), hosts := s.hosts[h := Host(map j | j in jobs :: Starting, map[], false, Serving)])
    case BeginRepair(h, j, gaps) => WithTask(s, h, j, Repairing(s.now, gaps))
    case PlanGap(h, j) =>
      var t := TaskOf(s, h, j);
      WithTask(s, h, j, Repairing(t.observed, t.gaps[1..])).(rows := Planned(s.rows, Slot(j, t.gaps[0]), jobs[j].source, map[]))
    case Settle(h, j) => WithTask(s, h, j, Idle).(rows := Reconciled(s.rows, j, TaskOf(s, h, j).observed))
    case PlanNext(h, j) =>
      var at := NextRun(jobs[j].schedule, s.now);
      WithTask(s, h, j, Waiting(at)).(rows := Planned(s.rows, Slot(j, at), jobs[j].source, jobs[j].metadata))
    case BecomeDue(h, j) => WithTask(s, h, j, Queued(TaskOf(s, h, j).at))
    case Claim(h, j) =>
      var slot := Slot(j, TaskOf(s, h, j).at);
      if s.hosts[h].stopping then WithTask(s, h, j, Exited)
      else if slot in s.rows && s.rows[slot].status == Scheduled then
        s.(rows := Claimed(s.rows, slot, s.now), bodies := s.bodies + multiset{slot},
           hosts := Moved(s, h, j, Executing(slot.at), s.hosts[h].holders[jobs[j].source := j]))
      else WithTask(s, h, j, Idle)
    case Complete(h, j, status, error) =>
      var slot := Slot(j, TaskOf(s, h, j).at);
      Release(jobs, s, h, j, if RunningSlot(s, slot) then Idle else Raised).(rows := Ended(s.rows, slot, s.now, status, error))
    case Abort(h, j) => if TaskOf(s, h, j).Executing? then Release(jobs, s, h, j, Raised) else WithTask(s, h, j, Raised)
    case Quit(h, j) => WithTask(s, h, j, Exited)
    case Stop(h) => s.(hosts := s.hosts[h := s.hosts[h].(stopping := true)])
    case NoticeStop(h) => s.(hosts := s.hosts[h := s.hosts[h].(phase := Graceful)])
    case NoticeEnd(h) => s.(hosts := s.hosts[h := s.hosts[h].(phase := Failing, stopping := true)])
    case Leave(h) => s.(hosts := s.hosts[h := s.hosts[h].(phase := Left)], leader := None)
    case Crash(h) => s.(hosts := s.hosts - {h}, leader := if s.leader == Some(h) then None else s.leader)
    case Tick(to) => s.(now := to)
  }

  function Release(jobs: Jobs, s: State, h: HostId, j: Job, t: Task): State
    requires TaskAt(jobs, s, h, j)
  {
    s.(hosts := Moved(s, h, j, t, s.hosts[h].holders - {jobs[j].source}))
  }

  // ---------- Invariant ----------

  /** The statuses that mean the body was started. */
  predicate WasRun(status: RowStatus) {
    status != Scheduled && status != Missed
  }

  ghost predicate RowsOk(jobs: Jobs, s: State) {
    && (forall slot :: slot in s.rows && slot.job in jobs ==> s.rows[slot].source == jobs[slot.job].source)
    && (forall slot :: s.bodies[slot] == if slot in s.rows && WasRun(s.rows[slot].status) then 1 else 0)
    && (forall slot :: slot in s.rows && slot.at > s.now ==> s.rows[slot].status == Scheduled)
  }

  ghost predicate Leads(s: State, h: HostId) {
    h in s.hosts && s.hosts[h].phase != Left
  }

  /** The body of the window is live in a task of the host. */
  ghost predicate Executes(s: State, h: HostId, slot: Slot) {
    h in s.hosts && slot.job in s.hosts[h].tasks && s.hosts[h].tasks[slot.job] == Executing(slot.at)
  }

  /** Its row is running, or was until a later host interrupted it. */
  ghost predicate Held(s: State, slot: Slot) {
    slot in s.rows && (s.rows[slot].status == Running || s.rows[slot].status == Interrupted)
  }

  /** Which running row a task allows its job to have. A host that has left allows any. */
  ghost predicate TaskOk(s: State, j: Job, t: Task, left: bool) {
    && (t.Executing? ==> Held(s, Slot(j, t.at)) && (!left ==> RunningSlot(s, Slot(j, t.at))))
    && (!left && (t.Executing? || t.Idle? || t.Waiting? || t.Queued?) ==>
          forall slot :: RunningSlot(s, slot) && slot.job == j ==> t == Executing(slot.at))
    && (t.Queued? ==> t.at <= s.now)
    && (t.Repairing? ==> t.observed <= s.now)
  }

  ghost predicate HoldersOk(jobs: Jobs, host: Host) {
    forall j :: j in host.tasks && j in jobs && host.tasks[j].Executing? ==> jobs[j].source in host.holders && host.holders[jobs[j].source] == j
  }

  ghost predicate HostOk(jobs: Jobs, s: State, host: Host) {
    && host.tasks.Keys == jobs.Keys
    && (forall j :: j in host.tasks ==> TaskOk(s, j, host.tasks[j], host.phase == Left))
    && HoldersOk(jobs, host)
    && (host.phase != Serving ==> host.stopping && Begun(host))
  }

  ghost predicate OneLeader(s: State) {
    forall h: HostId :: s.leader == Some(h) <==> Leads(s, h)
  }

  ghost predicate OneRunning(s: State) {
    forall slot, other :: RunningSlot(s, slot) && RunningSlot(s, other) && slot.job == other.job ==> slot == other
  }

  ghost predicate OneExecution(s: State) {
    forall h, g, slot :: Executes(s, h, slot) && Executes(s, g, slot) ==> h == g
  }

  ghost predicate Inv(jobs: Jobs, s: State) {
    && OneLeader(s) && RowsOk(jobs, s) && OneRunning(s) && OneExecution(s)
    && (forall h :: h in s.hosts ==> HostOk(jobs, s, s.hosts[h]))
  }

  // ---------- Every step keeps it ----------

  /** The rows of the other jobs are as they were. */
  ghost predicate OnlyJob(s: State, s': State, j: Job) {
    forall slot: Slot :: slot.job != j ==> (RunningSlot(s, slot) <==> RunningSlot(s', slot)) && (Held(s, slot) <==> Held(s', slot))
  }

  lemma OtherTask(s: State, s': State, j: Job, i: Job, t: Task, left: bool)
    requires TaskOk(s, i, t, left) && i != j && OnlyJob(s, s', j) && s'.now == s.now
    ensures TaskOk(s', i, t, left)
  {
  }

  lemma ExecutionStep(s: State, s': State, h: HostId, j: Job, t: Task, holders: map<Source, Job>)
    requires OneExecution(s) && h in s.hosts && j in s.hosts[h].tasks && s'.hosts == Moved(s, h, j, t, holders)
    requires t.Executing? ==> NoOtherExecutes(s, h, Slot(j, t.at))
    ensures OneExecution(s')
  {
    forall g, slot | Executes(s', g, slot) && !(g == h && slot.job == j) ensures Executes(s, g, slot) {}
  }

  lemma OtherHost(jobs: Jobs, s: State, s': State, j: Job, host: Host)
    requires HostOk(jobs, s, host) && OnlyJob(s, s', j) && s'.now == s.now
    requires j in jobs && TaskOk(s', j, host.tasks[j], host.phase == Left)
    ensures HostOk(jobs, s', host)
  {
    hide OnlyJob, TaskOk;
    forall i | i in host.tasks ensures TaskOk(s', i, host.tasks[i], host.phase == Left) {
      if i != j { OtherTask(s, s', j, i, host.tasks[i], host.phase == Left); }
    }
  }

  lemma OwnHost(jobs: Jobs, s: State, s': State, j: Job, host: Host, t: Task, holders: map<Source, Job>)
    requires HostOk(jobs, s, host) && OnlyJob(s, s', j) && s'.now == s.now && j in jobs
    requires TaskOk(s', j, t, host.phase == Left) && (host.phase != Serving ==> !t.Starting? && !t.Repairing?)
    requires HoldersOk(jobs, host.(tasks := host.tasks[j := t], holders := holders))
    ensures HostOk(jobs, s', host.(tasks := host.tasks[j := t], holders := holders))
  {
    hide OnlyJob, TaskOk, HoldersOk;
    forall i | i in host.tasks && i != j ensures TaskOk(s', i, host.tasks[i], host.phase == Left) {
      OtherTask(s, s', j, i, host.tasks[i], host.phase == Left);
    }
  }

  /** The tasks that other hosts have of the job are in order with the rows of s'. */
  ghost predicate OthersOk(s: State, s': State, h: HostId, j: Job) {
    forall g :: g in s.hosts && g != h ==> j in s.hosts[g].tasks && TaskOk(s', j, s.hosts[g].tasks[j], s.hosts[g].phase == Left)
  }

  ghost predicate NoOtherExecutes(s: State, h: HostId, slot: Slot) {
    forall g :: g != h ==> !Executes(s, g, slot)
  }

  /** What is left to show when the rows of one job change and one of its tasks moves: the rows,
      the task, and the tasks that other hosts have of the job. */
  ghost predicate TaskMoves(jobs: Jobs, s: State, s': State, h: HostId, j: Job, t: Task, holders: map<Source, Job>) {
    && TaskAt(jobs, s, h, j)
    && s' == s.(rows := s'.rows, bodies := s'.bodies)
    && RowsOk(jobs, s') && OneRunning(s') && OnlyJob(s, s', j)
    && HoldersOk(jobs, s.hosts[h].(tasks := s.hosts[h].tasks[j := t], holders := holders))
    && (s.hosts[h].phase != Serving ==> !t.Starting? && !t.Repairing?)
    && TaskOk(s', j, t, s.hosts[h].phase == Left)
    && OthersOk(s, s', h, j)
    && (t.Executing? ==> NoOtherExecutes(s, h, Slot(j, t.at)))
  }

  lemma HostsStay(jobs: Jobs, s: State, s': State, h: HostId, j: Job, t: Task, holders: map<Source, Job>)
    requires Inv(jobs, s) && TaskMoves(jobs, s, s', h, j, t, holders)
    ensures forall g :: g in s.hosts ==> HostOk(jobs, s', Moved(s, h, j, t, holders)[g])
  {
    hide RowsOk, HoldersOk, OneRunning, OneExecution, OnlyJob, TaskOk, HostOk;
    OwnHost(jobs, s, s', j, s.hosts[h], t, holders);
    forall g | g in s.hosts && g != h ensures HostOk(jobs, s', s.hosts[g]) { OtherHost(jobs, s, s', j, s.hosts[g]); }
  }

  lemma HostOnRows(jobs: Jobs, s: State, s': State, host: Host)
    requires HostOk(jobs, s, host) && s'.rows == s.rows && s'.now == s.now
    ensures HostOk(jobs, s', host)
  {
    forall j | j in host.tasks ensures TaskOk(s', j, host.tasks[j], host.phase == Left) {
      TaskOnRows(s, s', j, host.tasks[j], host.phase == Left);
    }
  }

  lemma TaskOnRows(s: State, s': State, j: Job, t: Task, left: bool)
    requires TaskOk(s, j, t, left) && s'.rows == s.rows && s'.now == s.now
    ensures TaskOk(s', j, t, left)
  {
  }

  lemma SameRowsOk(jobs: Jobs, s: State, s': State)
    requires s'.rows == s.rows && s'.bodies == s.bodies && s'.now == s.now
    ensures RowsOk(jobs, s) <==> RowsOk(jobs, s')
    ensures OneRunning(s) <==> OneRunning(s')
    ensures forall slot :: (RunningSlot(s, slot) <==> RunningSlot(s', slot)) && (Held(s, slot) <==> Held(s', slot))
  {
  }

  lemma LeadersStay(s: State, s': State, h: HostId, j: Job, t: Task, holders: map<Source, Job>)
    requires OneLeader(s) && h in s.hosts && s'.leader == s.leader && s'.hosts == Moved(s, h, j, t, holders)
    ensures OneLeader(s')
  {
    forall g: HostId ensures Leads(s', g) <==> Leads(s, g) {}
  }

  lemma TaskStep(jobs: Jobs, s: State, s': State, h: HostId, j: Job, t: Task, holders: map<Source, Job>)
    requires Inv(jobs, s) && TaskMoves(jobs, s, s', h, j, t, holders)
    ensures Inv(jobs, s'.(hosts := Moved(s, h, j, t, holders)))
  {
    hide RowsOk, HoldersOk, OneRunning, OneLeader, OneExecution, OnlyJob, TaskOk, HostOk, Leads, Executes, RunningSlot, Held, OthersOk, NoOtherExecutes;
    var end := s'.(hosts := Moved(s, h, j, t, holders));
    HostsStay(jobs, s, s', h, j, t, holders);
    LeadersStay(s, end, h, j, t, holders);
    ExecutionStep(s, end, h, j, t, holders);
    SameRowsOk(jobs, s', end);
    forall g | g in end.hosts ensures HostOk(jobs, end, end.hosts[g]) { HostOnRows(jobs, s', end, end.hosts[g]); }
  }

  // ---------- The steps ----------

  /** What the invariant says about one task and its host. */
  lemma OwnFacts(jobs: Jobs, s: State, h: HostId, j: Job)
    requires Inv(jobs, s) && TaskAt(jobs, s, h, j)
    ensures RowsOk(jobs, s) && HoldersOk(jobs, s.hosts[h]) && TaskOk(s, j, TaskOf(s, h, j), s.hosts[h].phase == Left)
    ensures s.hosts[h].phase != Serving ==> s.hosts[h].stopping && Begun(s.hosts[h])
  {
    assert HostOk(jobs, s, s.hosts[h]);
  }

  /** The same rows run and are held in both states. */
  ghost predicate Quiet(s: State, s': State) {
    s'.now == s.now && forall slot :: (RunningSlot(s, slot) <==> RunningSlot(s', slot)) && (Held(s, slot) <==> Held(s', slot))
  }

  lemma QuietTask(s: State, s': State, j: Job, t: Task, left: bool)
    requires Quiet(s, s') && TaskOk(s, j, t, left)
    ensures TaskOk(s', j, t, left)
  {
  }

  lemma QuietRows(s: State, s': State, j: Job)
    requires Quiet(s, s') && OneRunning(s)
    ensures OneRunning(s') && OnlyJob(s, s', j)
  {
  }

  /** A task moves, or ends, without starting a body, and no row starts or stops running. */
  lemma QuietStep(jobs: Jobs, s: State, s': State, h: HostId, j: Job, t: Task, holders: map<Source, Job>)
    requires Inv(jobs, s) && TaskAt(jobs, s, h, j) && s' == s.(rows := s'.rows, bodies := s'.bodies) && Quiet(s, s') && RowsOk(jobs, s')
    requires HoldersOk(jobs, s.hosts[h].(tasks := s.hosts[h].tasks[j := t], holders := holders))
    requires s.hosts[h].phase != Serving ==> !t.Starting? && !t.Repairing?
    requires !t.Executing? && TaskOk(s, j, t, s.hosts[h].phase == Left)
    ensures Inv(jobs, s'.(hosts := Moved(s, h, j, t, holders)))
  {
    hide RowsOk, HoldersOk, TaskOk, Moved, Quiet;
    QuietTask(s, s', j, t, s.hosts[h].phase == Left);
    QuietRows(s, s', j);
    forall g | g in s.hosts && g != h ensures j in s.hosts[g].tasks && TaskOk(s', j, s.hosts[g].tasks[j], s.hosts[g].phase == Left) {
      OwnFacts(jobs, s, g, j);
      QuietTask(s, s', j, s.hosts[g].tasks[j], s.hosts[g].phase == Left);
    }
    TaskStep(jobs, s, s', h, j, t, holders);
  }

  /** What a task may become where it may be what it is, without any row running or being held. */
  lemma NextTask(s: State, j: Job, t: Task, t': Task, left: bool)
    requires TaskOk(s, j, t, left)
    requires || (t.Repairing? && t'.Repairing? && t'.observed == t.observed)
             || (t.Starting? && t'.Repairing? && t'.observed <= s.now)
             || (t.Idle? && t'.Waiting?) || (t.Waiting? && t' == Queued(t.at) && t.at <= s.now) || (t.Queued? && t'.Idle?)
             || Over(t')
    ensures TaskOk(s, j, t', left)
  {
  }

  /** A task that holds no execution lock gives none up. */
  lemma HoldersKept(jobs: Jobs, host: Host, j: Job, t: Task)
    requires HoldersOk(jobs, host) && !t.Executing?
    ensures HoldersOk(jobs, host.(tasks := host.tasks[j := t], holders := host.holders))
  {
  }

  lemma PlannedRows(jobs: Jobs, s: State, j: Job, at: Instant, metadata: Metadata)
    requires RowsOk(jobs, s) && j in jobs
    ensures var s' := s.(rows := Planned(s.rows, Slot(j, at), jobs[j].source, metadata));
            RowsOk(jobs, s') && Quiet(s, s')
  {
  }

  /** The steps that move a task and change no row, or only plan one. */
  lemma MoveStep(jobs: Jobs, s: State, s': State, h: HostId, j: Job, t: Task)
    requires Inv(jobs, s) && TaskAt(jobs, s, h, j) && s' == s.(rows := s'.rows) && Quiet(s, s') && RowsOk(jobs, s')
    requires !t.Executing? && !t.Starting? && (t.Repairing? ==> TaskOf(s, h, j).Repairing? || TaskOf(s, h, j).Starting?)
    requires TaskOk(s, j, TaskOf(s, h, j), s.hosts[h].phase == Left) ==> TaskOk(s, j, t, s.hosts[h].phase == Left)
    ensures Inv(jobs, WithTask(s', h, j, t))
  {
    OwnFacts(jobs, s, h, j);
    hide RowsOk, HoldersOk, TaskOk, Quiet, Inv;
    HoldersKept(jobs, s.hosts[h], j, t);
    QuietStep(jobs, s, s', h, j, t, s.hosts[h].holders);
  }

  lemma PlanStep(jobs: Jobs, s: State, h: HostId, j: Job, at: Instant, metadata: Metadata, t: Task)
    requires Inv(jobs, s) && TaskAt(jobs, s, h, j)
    requires || (TaskOf(s, h, j).Repairing? && t.Repairing? && t.observed == TaskOf(s, h, j).observed)
             || (TaskOf(s, h, j) == Idle && t.Waiting?)
    ensures Inv(jobs, WithTask(s, h, j, t).(rows := Planned(s.rows, Slot(j, at), jobs[j].source, metadata)))
  {
    OwnFacts(jobs, s, h, j);
    hide RowsOk, HoldersOk, TaskOk, Planned, Quiet, Inv;
    PlannedRows(jobs, s, j, at, metadata);
    NextTask(s, j, TaskOf(s, h, j), t, s.hosts[h].phase == Left);
    MoveStep(jobs, s, s.(rows := Planned(s.rows, Slot(j, at), jobs[j].source, metadata)), h, j, t);
  }

  /** The steps that only move a task. */
  lemma BareMove(jobs: Jobs, s: State, h: HostId, j: Job, t: Task)
    requires Inv(jobs, s) && TaskAt(jobs, s, h, j)
    requires || (TaskOf(s, h, j).Starting? && t.Repairing? && t.observed == s.now)
             || (TaskOf(s, h, j).Waiting? && t == Queued(TaskOf(s, h, j).at) && t.at <= s.now)
             || (TaskOf(s, h, j).Queued? && t.Idle?) || Over(t)
    ensures Inv(jobs, WithTask(s, h, j, t))
  {
    OwnFacts(jobs, s, h, j);
    NextTask(s, j, TaskOf(s, h, j), t, s.hosts[h].phase == Left);
    assert Quiet(s, s);
    hide RowsOk, HoldersOk, TaskOk, Quiet, Inv;
    MoveStep(jobs, s, s, h, j, t);
  }

  /** Giving up the lock of one source leaves every other live execution its own. */
  lemma ReleaseKeepsHolders(jobs: Jobs, host: Host, j: Job, t: Task)
    requires HoldersOk(jobs, host) && j in host.tasks && j in jobs && host.tasks[j].Executing? && !t.Executing?
    ensures HoldersOk(jobs, host.(tasks := host.tasks[j := t], holders := host.holders - {jobs[j].source}))
  {
  }

  /** A live execution ends without touching its row. */
  lemma ReleaseStep(jobs: Jobs, s: State, h: HostId, j: Job)
    requires Inv(jobs, s) && TaskAt(jobs, s, h, j) && TaskOf(s, h, j).Executing?
    ensures Inv(jobs, Release(jobs, s, h, j, Raised))
  {
    OwnFacts(jobs, s, h, j);
    NextTask(s, j, TaskOf(s, h, j), Raised, s.hosts[h].phase == Left);
    assert Quiet(s, s);
    hide RowsOk, TaskOk, Quiet, Inv;
    ReleaseKeepsHolders(jobs, s.hosts[h], j, Raised);
    hide HoldersOk;
    QuietStep(jobs, s, s, h, j, Raised, s.hosts[h].holders - {jobs[j].source});
  }

  /** At most one host leads. */
  lemma OthersHaveLeft(jobs: Jobs, s: State, h: HostId, g: HostId)
    requires Inv(jobs, s) && Leads(s, h) && g in s.hosts && g != h
    ensures s.hosts[g].phase == Left
  {
    assert s.leader == Some(h);
    assert s.leader == Some(g) <==> Leads(s, g);
  }

  /** The other hosts, when the leader's rows of a job change and nothing held is let go. */
  lemma LeaderOthers(jobs: Jobs, s: State, s': State, h: HostId, j: Job)
    requires Inv(jobs, s) && TaskAt(jobs, s, h, j) && Leads(s, h) && s'.now == s.now
    requires forall slot :: Held(s, slot) ==> Held(s', slot)
    ensures OthersOk(s, s', h, j)
  {
    forall g | g in s.hosts && g != h ensures j in s.hosts[g].tasks && TaskOk(s', j, s.hosts[g].tasks[j], s.hosts[g].phase == Left) {
      OthersHaveLeft(jobs, s, h, g);
      OwnFacts(jobs, s, g, j);
    }
  }

  lemma ReconciledRows(jobs: Jobs, s: State, j: Job, observed: Instant)
    requires RowsOk(jobs, s) && observed <= s.now
    ensures var s' := s.(rows := Reconciled(s.rows, j, observed));
            && RowsOk(jobs, s')
            && (forall slot :: RunningSlot(s', slot) <==> RunningSlot(s, slot) && slot.job != j)
            && (forall slot :: Held(s', slot) <==> Held(s, slot))
  {
  }

  lemma SettledTask(s: State, s': State, j: Job)
    requires OneRunning(s) && forall slot :: RunningSlot(s', slot) <==> RunningSlot(s, slot) && slot.job != j
    requires forall slot :: Held(s', slot) <==> Held(s, slot)
    ensures OneRunning(s') && OnlyJob(s, s', j) && TaskOk(s', j, Idle, false)
  {
  }

  lemma SettleStep(jobs: Jobs, s: State, h: HostId, j: Job)
    requires Inv(jobs, s) && TaskAt(jobs, s, h, j) && TaskOf(s, h, j).Repairing?
    ensures Inv(jobs, WithTask(s, h, j, Idle).(rows := Reconciled(s.rows, j, TaskOf(s, h, j).observed)))
  {
    var observed := TaskOf(s, h, j).observed;
    var s' := s.(rows := Reconciled(s.rows, j, observed));
    OwnFacts(jobs, s, h, j);
    assert s.hosts[h].phase == Serving && observed <= s.now;
    hide RowsOk, HoldersOk, Reconciled, RunningSlot, Held, TaskOk, OneRunning, OnlyJob, OthersOk;
    ReconciledRows(jobs, s, j, observed);
    HoldersKept(jobs, s.hosts[h], j, Idle);
    SettledTask(s, s', j);
    LeaderOthers(jobs, s, s', h, j);
    TaskStep(jobs, s, s', h, j, Idle, s.hosts[h].holders);
  }

  lemma ClaimedRows(jobs: Jobs, s: State, slot: Slot)
    requires RowsOk(jobs, s) && slot in s.rows && s.rows[slot].status == Scheduled && slot.at <= s.now
    ensures var s' := s.(rows := Claimed(s.rows, slot, s.now), bodies := s.bodies + multiset{slot});
            && RowsOk(jobs, s') && !Held(s, slot)
            && (forall other :: RunningSlot(s', other) <==> RunningSlot(s, other) || other == slot)
            && (forall other :: Held(s', other) <==> Held(s, other) || other == slot)
  {
  }

  /** The claim finds the window's row still scheduled. */
  predicate Claimable(s: State, h: HostId, j: Job)
    requires h in s.hosts && j in s.hosts[h].tasks && s.hosts[h].tasks[j].Queued?
  {
    var slot := Slot(j, s.hosts[h].tasks[j].at);
    !s.hosts[h].stopping && slot in s.rows && s.rows[slot].status == Scheduled
  }

  lemma LockTaken(jobs: Jobs, host: Host, j: Job, at: Instant)
    requires HoldersOk(jobs, host) && j in jobs && jobs[j].source !in host.holders
    ensures HoldersOk(jobs, host.(tasks := host.tasks[j := Executing(at)], holders := host.holders[jobs[j].source := j]))
  {
  }

  lemma ClaimedTask(s: State, s': State, j: Job, slot: Slot)
    requires OneRunning(s) && TaskOk(s, j, Queued(slot.at), false) && slot.job == j
    requires forall other :: RunningSlot(s', other) <==> RunningSlot(s, other) || other == slot
    requires forall other :: Held(s', other) <==> Held(s, other) || other == slot
    requires s'.now == s.now
    ensures OneRunning(s') && OnlyJob(s, s', j) && TaskOk(s', j, Executing(slot.at), false)
  {
  }

  /** What is not held is executed by nobody. */
  lemma FreeSlot(jobs: Jobs, s: State, h: HostId, slot: Slot)
    requires Inv(jobs, s) && slot.job in jobs && !Held(s, slot)
    ensures NoOtherExecutes(s, h, slot)
  {
    forall g | g != h ensures !Executes(s, g, slot) {
      if Executes(s, g, slot) { OwnFacts(jobs, s, g, slot.job); }
    }
  }

  /** A claimed window: its task is the only one of its job, and it holds the source's lock. */
  lemma ClaimedStep(jobs: Jobs, s: State, h: HostId, j: Job)
    requires Inv(jobs, s) && Enabled(jobs, s, Claim(h, j)) && Claimable(s, h, j)
    ensures Inv(jobs, Apply(jobs, s, Claim(h, j)))
  {
    var slot := Slot(j, TaskOf(s, h, j).at);
    var s' := s.(rows := Claimed(s.rows, slot, s.now), bodies := s.bodies + multiset{slot});
    OwnFacts(jobs, s, h, j);
    assert s.hosts[h].phase == Serving && TaskOf(s, h, j) == Queued(slot.at) && slot.at <= s.now;
    hide RowsOk, HoldersOk, Claimed, RunningSlot, Held, TaskOk, OneRunning, OnlyJob, OthersOk, NoOtherExecutes;
    ClaimedRows(jobs, s, slot);
    LockTaken(jobs, s.hosts[h], j, slot.at);
    ClaimedTask(s, s', j, slot);
    LeaderOthers(jobs, s, s', h, j);
    FreeSlot(jobs, s, h, slot);
    TaskStep(jobs, s, s', h, j, Executing(slot.at), s.hosts[h].holders[jobs[j].source := j]);
  }

  lemma ClaimStep(jobs: Jobs, s: State, h: HostId, j: Job)
    requires Inv(jobs, s) && Enabled(jobs, s, Claim(h, j))
    ensures Inv(jobs, Apply(jobs, s, Claim(h, j)))
  {
    hide Inv;
    if Claimable(s, h, j) {
      ClaimedStep(jobs, s, h, j);
    } else {
      BareMove(jobs, s, h, j, if s.hosts[h].stopping then Exited else Idle);
    }
  }

  lemma EndedRows(jobs: Jobs, s: State, slot: Slot, status: RowStatus, error: Option<string>)
    requires RowsOk(jobs, s) && RunningSlot(s, slot) && Outcome(status)
    ensures var s' := s.(rows := Ended(s.rows, slot, s.now, status, error));
            && RowsOk(jobs, s')
            && (forall other :: RunningSlot(s', other) <==> RunningSlot(s, other) && other != slot)
            && (forall other :: Held(s', other) <==> Held(s, other) && other != slot)
  {
  }

  lemma NotRunningRows(s: State, slot: Slot, status: RowStatus, error: Option<string>)
    requires !RunningSlot(s, slot)
    ensures Ended(s.rows, slot, s.now, status, error) == s.rows
  {
  }

  lemma EndedTask(s: State, s': State, j: Job, slot: Slot, left: bool)
    requires OneRunning(s) && TaskOk(s, j, Executing(slot.at), left) && slot.job == j && s'.now == s.now
    requires forall other :: RunningSlot(s', other) <==> RunningSlot(s, other) && other != slot
    requires forall other :: Held(s', other) <==> Held(s, other) && other != slot
    ensures OneRunning(s') && OnlyJob(s, s', j) && TaskOk(s', j, Idle, left)
  {
  }

  lemma EndedOther(s: State, s': State, slot: Slot, t: Task, left: bool)
    requires TaskOk(s, slot.job, t, left) && t != Executing(slot.at) && s'.now == s.now
    requires forall other :: RunningSlot(s', other) <==> RunningSlot(s, other) && other != slot
    requires forall other :: Held(s', other) <==> Held(s, other) && other != slot
    ensures TaskOk(s', slot.job, t, left)
  {
    hide RunningSlot, Held;
  }

  /** Ending one execution leaves the tasks that other hosts have of the job alone. */
  lemma EndedOthers(jobs: Jobs, s: State, s': State, h: HostId, slot: Slot)
    requires Inv(jobs, s) && slot.job in jobs && Executes(s, h, slot) && s'.now == s.now
    requires forall other :: RunningSlot(s', other) <==> RunningSlot(s, other) && other != slot
    requires forall other :: Held(s', other) <==> Held(s, other) && other != slot
    ensures OthersOk(s, s', h, slot.job)
  {
    hide RunningSlot, Held, TaskOk, HoldersOk, RowsOk, OneRunning, OneLeader;
    forall g | g in s.hosts && g != h
      ensures slot.job in s.hosts[g].tasks && TaskOk(s', slot.job, s.hosts[g].tasks[slot.job], s.hosts[g].phase == Left)
    {
      assert HostOk(jobs, s, s.hosts[g]);
      assert !Executes(s, g, slot);
      EndedOther(s, s', slot, s.hosts[g].tasks[slot.job], s.hosts[g].phase == Left);
    }
  }

  lemma CompleteStep(jobs: Jobs, s: State, h: HostId, j: Job, status: RowStatus, error: Option<string>)
    requires Inv(jobs, s) && Enabled(jobs, s, Complete(h, j, status, error))
    ensures Inv(jobs, Apply(jobs, s, Complete(h, j, status, error)))
  {
    var slot := Slot(j, TaskOf(s, h, j).at);
    if !RunningSlot(s, slot) {
      NotRunningRows(s, slot, status, error);
      ReleaseStep(jobs, s, h, j);
    } else {
      var s' := s.(rows := Ended(s.rows, slot, s.now, status, error));
      OwnFacts(jobs, s, h, j);
      assert Executes(s, h, slot);
      ReleaseKeepsHolders(jobs, s.hosts[h], j, Idle);
      hide RowsOk, HoldersOk, Ended, RunningSlot, Held, TaskOk, OneRunning, OnlyJob, OthersOk, Executes;
      EndedRows(jobs, s, slot, status, error);
      EndedTask(s, s', j, slot, s.hosts[h].phase == Left);
      EndedOthers(jobs, s, s', h, slot);
      TaskStep(jobs, s, s', h, j, Idle, s.hosts[h].holders - {jobs[j].source});
    }
  }

  lemma AbortStep(jobs: Jobs, s: State, h: HostId, j: Job)
    requires Inv(jobs, s) && Enabled(jobs, s, Abort(h, j))
    ensures Inv(jobs, Apply(jobs, s, Abort(h, j)))
  {
    hide Inv;
    if TaskOf(s, h, j).Executing? { ReleaseStep(jobs, s, h, j); } else { BareMove(jobs, s, h, j, Raised); }
  }

  // ---------- The steps of hosts ----------

  /** A host goes on with the same tasks and locks, in another phase, perhaps at a later time. */
  lemma HostGoesOn(jobs: Jobs, s: State, s': State, host: Host, host': Host)
    requires HostOk(jobs, s, host) && s'.rows == s.rows && s.now <= s'.now
    requires host'.tasks == host.tasks && host'.holders == host.holders
    requires host'.phase == host.phase || (host'.phase == Left && host.phase != Serving) || (host.phase == Serving && host'.phase != Left)
    requires host'.phase != Serving ==> host'.stopping && Begun(host)
    ensures HostOk(jobs, s', host')
  {
    forall j | j in host.tasks ensures TaskOk(s', j, host.tasks[j], host'.phase == Left) {
      assert TaskOk(s, j, host.tasks[j], host.phase == Left);
    }
  }

  lemma SameExecutions(s: State, s': State)
    requires OneExecution(s) && forall h: HostId, slot :: Executes(s', h, slot) ==> Executes(s, h, slot)
    ensures OneExecution(s')
  {
  }

  lemma HostRows(jobs: Jobs, s: State, s': State)
    requires RowsOk(jobs, s) && OneRunning(s) && s'.rows == s.rows && s'.bodies == s.bodies && s.now <= s'.now
    ensures RowsOk(jobs, s') && OneRunning(s')
  {
  }

  predicate OfHost(a: Action) {
    a.Enter? || a.Stop? || a.NoticeStop? || a.NoticeEnd? || a.Leave? || a.Crash? || a.Tick?
  }

  lemma HostLeaders(jobs: Jobs, s: State, a: Action)
    requires OneLeader(s) && Enabled(jobs, s, a) && OfHost(a)
    ensures OneLeader(Apply(jobs, s, a))
  {
    var s' := Apply(jobs, s, a);
    if !a.Tick? { assert s.leader == Some(a.host) <==> Leads(s, a.host); }
    forall h: HostId ensures s'.leader == Some(h) <==> Leads(s', h) {
      assert s.leader == Some(h) <==> Leads(s, h);
    }
  }

  lemma HostExecutions(jobs: Jobs, s: State, a: Action)
    requires OneExecution(s) && Enabled(jobs, s, a) && OfHost(a)
    ensures OneExecution(Apply(jobs, s, a))
  {
    var s' := Apply(jobs, s, a);
    forall h: HostId, slot | Executes(s', h, slot) ensures Executes(s, h, slot) {}
    SameExecutions(s, s');
  }

  /** A host that was there before goes on; a new one starts with nothing to show. */
  lemma HostHosts(jobs: Jobs, s: State, a: Action, h: HostId)
    requires Enabled(jobs, s, a) && OfHost(a) && h in Apply(jobs, s, a).hosts
    requires h in s.hosts ==> HostOk(jobs, s, s.hosts[h])
    ensures HostOk(jobs, Apply(jobs, s, a), Apply(jobs, s, a).hosts[h])
  {
    if h in s.hosts {
      assert s.hosts[h].phase != Serving ==> s.hosts[h].stopping && Begun(s.hosts[h]);
      hide HostOk;
      HostGoesOn(jobs, s, Apply(jobs, s, a), s.hosts[h], Apply(jobs, s, a).hosts[h]);
    }
  }

  lemma HostWritesNothing(jobs: Jobs, s: State, a: Action)
    requires Enabled(jobs, s, a) && OfHost(a)
    ensures Apply(jobs, s, a).rows == s.rows && Apply(jobs, s, a).bodies == s.bodies && s.now <= Apply(jobs, s, a).now
  {
  }

  lemma HostStep(jobs: Jobs, s: State, a: Action)
    requires Inv(jobs, s) && Enabled(jobs, s, a) && OfHost(a)
    ensures Inv(jobs, Apply(jobs, s, a))
  {
    hide RowsOk, OneRunning, OneLeader, OneExecution, HostOk, Apply, Enabled, OfHost;
    var s' := Apply(jobs, s, a);
    HostWritesNothing(jobs, s, a);
    HostRows(jobs, s, s');
    HostLeaders(jobs, s, a);
    HostExecutions(jobs, s, a);
    forall h | h in s'.hosts ensures HostOk(jobs, s', s'.hosts[h]) { HostHosts(jobs, s, a, h); }
  }

  lemma StepKeeps(jobs: Jobs, s: State, a: Action)
    requires Inv(jobs, s) && Enabled(jobs, s, a)
    ensures Inv(jobs, Apply(jobs, s, a))
  {
    hide Inv;
    match a
    case BeginRepair(h, j, gaps) => BareMove(jobs, s, h, j, Repairing(s.now, gaps));
    case PlanGap(h, j) =>
      var t := TaskOf(s, h, j);
      PlanStep(jobs, s, h, j, t.gaps[0], map[], Repairing(t.observed, t.gaps[1..]));
    case PlanNext(h, j) =>
      var at := NextRun(jobs[j].schedule, s.now);
      PlanStep(jobs, s, h, j, at, jobs[j].metadata, Waiting(at));
    case Settle(h, j) => SettleStep(jobs, s, h, j);
    case BecomeDue(h, j) => BareMove(jobs, s, h, j, Queued(TaskOf(s, h, j).at));
    case Claim(h, j) => ClaimStep(jobs, s, h, j);
    case Complete(h, j, status, error) => CompleteStep(jobs, s, h, j, status, error);
    case Abort(h, j) => AbortStep(jobs, s, h, j);
    case Quit(h, j) => BareMove(jobs, s, h, j, Exited);
    case _ => HostStep(jobs, s, a);
  }
  // ---------- Whole histories ----------

  ghost predicate Run(jobs: Jobs, states: seq<State>, actions: seq<Action>) {
    && |states| == |actions| + 1
    && forall i :: 0 <= i < |actions| ==> Enabled(jobs, states[i], actions[i]) && states[i + 1] == Apply(jobs, states[i], actions[i])
  }

  /** A history: the states visited from the empty ledger on, one step at a time. */
  ghost predicate Behaviour(jobs: Jobs, states: seq<State>, actions: seq<Action>) {
    && Run(jobs, states, actions)
    && states[0].rows == map[] && states[0].leader.None? && states[0].hosts == map[] && states[0].bodies == multiset{}
  }

  lemma LastStep(jobs: Jobs, states: seq<State>, actions: seq<Action>, i: nat)
    requires Run(jobs, states, actions) && 0 < i < |states|
    ensures |states| == |actions| + 1
    ensures Enabled(jobs, states[i - 1], actions[i - 1]) && states[i] == Apply(jobs, states[i - 1], actions[i - 1])
  {
    assert states[(i - 1) + 1] == states[i];
  }

  lemma {:induction false} AlwaysOk(jobs: Jobs, states: seq<State>, actions: seq<Action>, i: nat)
    requires Run(jobs, states, actions) && Inv(jobs, states[0]) && i < |states|
    ensures Inv(jobs, states[i])
    decreases i
  {
    hide Inv, Enabled, Apply;
    if i > 0 {
      AlwaysOk(jobs, states, actions, i - 1);
      LastStep(jobs, states, actions, i);
      StepKeeps(jobs, states[i - 1], actions[i - 1]);
    }
  }

  /** The invariant at every point of every history. */
  lemma Reachable(jobs: Jobs, states: seq<State>, actions: seq<Action>, i: nat)
    requires Behaviour(jobs, states, actions) && i < |states|
    ensures Inv(jobs, states[i])
  {
    assert Inv(jobs, states[0]);
    hide Inv;
    AlwaysOk(jobs, states, actions, i);
  }

  /** In all of history, across hosts, crashes, early leaves and restarts: the body of a window is
      started at most once, and a window that is planned, missed or unknown was never started. */
  lemma BodyRunsAtMostOnce(jobs: Jobs, states: seq<State>, actions: seq<Action>, i: nat, slot: Slot)
    requires Behaviour(jobs, states, actions) && i < |states|
    ensures states[i].bodies[slot] <= 1
    ensures states[i].bodies[slot] == 1 <==> slot in states[i].rows && WasRun(states[i].rows[slot].status)
  {
    Reachable(jobs, states, actions, i);
  }

  lemma AtMostOneRunning(jobs: Jobs, states: seq<State>, actions: seq<Action>, i: nat, slot: Slot, other: Slot)
    requires Behaviour(jobs, states, actions) && i < |states|
    requires RunningSlot(states[i], slot) && RunningSlot(states[i], other) && slot.job == other.job
    ensures slot == other
  {
    Reachable(jobs, states, actions, i);
  }

  /** No plan ever meets a row of another source. */
  lemma PlansNeverMismatch(jobs: Jobs, states: seq<State>, actions: seq<Action>, i: nat, slot: Slot)
    requires Behaviour(jobs, states, actions) && i < |states| && slot.job in jobs && slot in states[i].rows
    ensures states[i].rows[slot].source == jobs[slot.job].source
  {
    Reachable(jobs, states, actions, i);
  }

  lemma TerminalStep(jobs: Jobs, s: State, a: Action, slot: Slot)
    requires Enabled(jobs, s, a) && slot in s.rows && Terminal(s.rows[slot].status)
    ensures slot in Apply(jobs, s, a).rows && Apply(jobs, s, a).rows[slot] == s.rows[slot]
  {
  }

  /** Terminal evidence is final. */
  lemma {:induction false} TerminalRowsNeverChange(jobs: Jobs, states: seq<State>, actions: seq<Action>, i: nat, k: nat, slot: Slot)
    requires Run(jobs, states, actions) && i <= k < |states|
    requires slot in states[i].rows && Terminal(states[i].rows[slot].status)
    ensures slot in states[k].rows && states[k].rows[slot] == states[i].rows[slot]
    decreases k
  {
    hide Enabled, Apply;
    if i < k {
      TerminalRowsNeverChange(jobs, states, actions, i, k - 1, slot);
      LastStep(jobs, states, actions, k);
      TerminalStep(jobs, states[k - 1], actions[k - 1], slot);
    }
  }
}
