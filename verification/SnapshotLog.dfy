/** Daily repository snapshots and the poll state kept beside them: an append-only log, the
    cache of its newest entry, and the read-only verifier that compares the two. */
module SnapshotLog {
  import opened Sorting
  import opened Windows
  import opened Wrappers

  type Date = int
  type RepositoryId = nat

  datatype Facts = Facts(
    stars: nat, forks: nat, openIssues: nat, subscribers: nat, sizeKb: nat,
    language: Option<string>, archived: bool, disabled: bool, defaultBranch: string,
    pushedAt: Option<Instant>, updatedAt: Option<Instant>, topics: seq<string>, license: Option<string>)

  datatype Method = Full200 | Conditional304

  datatype Snapshot = Snapshot(
    observedAt: Instant, date: Date, fullName: string, facts: Facts, run: nat, raw: nat,
    observationMethod: Method, etag: Option<string>)

  datatype Raw = Raw(id: nat, etag: Option<string>, lastModified: Option<string>, status: nat)

  datatype Poll = Poll(
    lastCheckedAt: Option<Instant>, lastSuccessfulAt: Option<Instant>, lastSnapshotAt: Option<Instant>,
    etag: Option<string>, lastModified: Option<string>, lastStatus: Option<nat>,
    consecutiveFailures: nat, nextEligibleAt: Option<Instant>, lastError: Option<string>)

  const NEW_POLL := Poll(None, None, None, None, None, None, 0, None, None)

  /** What the database holds for one repository: snapshots in the order they were recorded. */
  datatype Repo = Repo(rows: seq<Snapshot>, poll: Option<Poll>)

  const NEW_REPO := Repo([], None)

  /** One observation of a repository. */
  datatype Op =
    | Full(at: Instant, fullName: string, facts: Facts, run: nat, raw: Raw, etag: Option<string>)
    | Unchanged(at: Instant, fullName: string, run: nat, raw: Raw)
    | Failure(at: Instant, status: Option<nat>, error: string, nextEligibleAt: Option<Instant>)

  /** An empty validator counts as none. */
  function OrElse(a: Option<string>, b: Option<string>): Option<string> {
    if a.Some? && a.value != "" then a else b
  }

  /** The recorded snapshot of a date. */
  function Daily(rows: seq<Snapshot>, d: Date): (s: Option<Snapshot>)
    ensures s.Some? ==> s.value in rows && s.value.date == d
    ensures s.None? ==> forall x :: x in rows ==> x.date != d
  {
    if rows == [] then None
    else if rows[|rows| - 1].date == d then Some(rows[|rows| - 1])
    else
      assert rows == rows[..|rows| - 1] + [rows[|rows| - 1]];
      Daily(rows[..|rows| - 1], d)
  }

  /** The snapshot with the greatest observation time. */
  function Latest(rows: seq<Snapshot>): (s: Option<Snapshot>)
    ensures s.None? <==> rows == []
    ensures s.Some? ==> s.value in rows && forall x :: x in rows ==> x.observedAt <= s.value.observedAt
  {
    if rows == [] then None
    else
      assert rows == rows[..|rows| - 1] + [rows[|rows| - 1]];
      var rest, last := Latest(rows[..|rows| - 1]), rows[|rows| - 1];
      if rest.Some? && rest.value.observedAt >= last.observedAt then rest else Some(last)
  }

  function PollOf(r: Repo): Poll {
    if r.poll.Some? then r.poll.value else NEW_POLL
  }

  function PollSuccess(at: Instant, s: Snapshot, raw: Raw): Poll {
    Poll(Some(at), Some(at), Some(s.observedAt), OrElse(raw.etag, s.etag), raw.lastModified, Some(raw.status), 0, None, None)
  }

  function PollFailure(p: Poll, at: Instant, status: Option<nat>, error: string, next: Option<Instant>): Poll {
    p.(lastCheckedAt := Some(at), lastStatus := status, consecutiveFailures := p.consecutiveFailures + 1,
       nextEligibleAt := next, lastError := Some(error))
  }

  /** The snapshot an observation would record, when it needs a new one and can make one. */
  function NewSnapshot(rows: seq<Snapshot>, op: Op): Option<Snapshot> {
    match op
    case Full(at, name, facts, run, raw, etag) =>
      Some(Snapshot(at, DayOf(at), name, facts, run, raw.id, Full200, etag))
    case Unchanged(at, name, run, raw) =>
      (match Latest(rows)
       case None => None
       case Some(previous) =>
         Some(Snapshot(at, DayOf(at), name, previous.facts, run, raw.id, Conditional304, OrElse(raw.etag, previous.etag))))
    case Failure(_, _, _, _) => None
  }

  /** What one observation leaves behind. An unchanged answer before any snapshot is an error
      and leaves everything as it was. */
  function Apply(r: Repo, op: Op): Repo {
    if op.Failure? then r.(poll := Some(PollFailure(PollOf(r), op.at, op.status, op.error, op.nextEligibleAt)))
    else
      match Daily(r.rows, DayOf(op.at))
      case Some(s) => r.(poll := Some(PollSuccess(op.at, s, op.raw)))
      case None =>
        match NewSnapshot(r.rows, op)
        case None => r
        case Some(s) => Repo(r.rows + [s], Some(PollSuccess(op.at, s, op.raw)))
  }

  function Run(ops: seq<Op>): Repo {
    if ops == [] then NEW_REPO else Apply(Run(ops[..|ops| - 1]), ops[|ops| - 1])
  }

  // ---------- What holds whatever the clock does ----------

  /** Every snapshot is filed under its own UTC date, and no date has two. */
  ghost predicate RowsOk(rows: seq<Snapshot>) {
    && (forall i :: 0 <= i < |rows| ==> rows[i].date == DayOf(rows[i].observedAt))
    && (forall i, j :: 0 <= i < j < |rows| ==> rows[i].date != rows[j].date)
  }

  /** Snapshots are only ever added; what was recorded stays as it was. */
  lemma {:induction false} RecordsStay(ops: seq<Op>, k: nat)
    requires k <= |ops|
    ensures Run(ops[..k]).rows <= Run(ops).rows && RowsOk(Run(ops).rows)
  {
    hide Apply, RowsOk;
    if k == |ops| { assert ops[..k] == ops; }
    if ops == [] {
      assert RowsOk([]) by { NoRowsOk(); }
    } else {
      var n := |ops| - 1;
      RecordsStay(ops[..n], if k <= n then k else n);
      if k <= n { assert ops[..n][..k] == ops[..k]; }
      OneObservationKeeps(Run(ops[..n]), ops[n]);
    }
  }

  lemma NoRowsOk()
    ensures RowsOk([])
  {
  }

  lemma OneObservationKeeps(r: Repo, op: Op)
    requires RowsOk(r.rows)
    ensures RowsOk(Apply(r, op).rows) && r.rows <= Apply(r, op).rows
  {
  }

  /** The poll state names the time of the newest snapshot. */
  ghost predicate PollAgrees(r: Repo) {
    r.rows != [] ==> r.poll.Some? && r.poll.value.lastSnapshotAt == Some(Latest(r.rows).value.observedAt)
  }

  /** The observation found or recorded a snapshot. */
  predicate Succeeds(r: Repo, op: Op) {
    !op.Failure? && (r.rows != [] || op.Full?)
  }

  /** Times tell snapshots apart, and agree with dates. */
  lemma SameOrLater(rows: seq<Snapshot>, s: Snapshot, l: Snapshot)
    requires RowsOk(rows) && s in rows && l in rows
    ensures s.date == DayOf(s.observedAt) && l.date == DayOf(l.observedAt)
    ensures s.date == l.date ==> s == l
  {
  }

  /** Exactly when the cache is right after an observation that succeeds, whatever it was before:
      when the observation is not on a day before the newest snapshot's. */
  lemma CacheAgreesExactly(r: Repo, op: Op)
    requires RowsOk(r.rows) && Succeeds(r, op)
    ensures PollAgrees(Apply(r, op)) <==> (r.rows == [] || DayOf(op.at) >= Latest(r.rows).value.date)
  {
  }

  /** A failed observation, and an unchanged answer without a baseline, leave log and cache time alone. */
  lemma NoSuccessNoChange(r: Repo, op: Op)
    requires !Succeeds(r, op)
    ensures Apply(r, op).rows == r.rows
    ensures r.rows != [] ==> (PollAgrees(Apply(r, op)) <==> PollAgrees(r))
    ensures !op.Failure? ==> Apply(r, op) == r
  {
  }

  // ---------- What holds when observation times do not fall ----------

  ghost predicate NonDecreasing(ops: seq<Op>) {
    forall i, j :: 0 <= i < j < |ops| ==> ops[i].at <= ops[j].at
  }

  /** Recorded in the order of their dates, none later than now. */
  ghost predicate InDateOrder(rows: seq<Snapshot>, now: Instant) {
    && (forall i, j :: 0 <= i < j < |rows| ==> rows[i].date < rows[j].date && rows[i].observedAt < rows[j].observedAt)
    && (forall i :: 0 <= i < |rows| ==> rows[i].observedAt <= now)
  }

  /** rows[j] is the latest full snapshot recorded before rows[i]. */
  ghost predicate LatestFullBefore(rows: seq<Snapshot>, j: nat, i: nat)
    requires j < i < |rows|
  {
    rows[j].observationMethod == Full200 && forall k :: j < k < i ==> rows[k].observationMethod == Conditional304
  }

  ghost predicate Repeats(rows: seq<Snapshot>, i: nat)
    requires i < |rows|
  {
    exists j :: 0 <= j < i && LatestFullBefore(rows, j, i) && rows[j].facts == rows[i].facts
  }

  /** Every snapshot made from an unchanged answer repeats the latest full one before it. */
  ghost predicate CarriesFacts(rows: seq<Snapshot>) {
    forall i :: 0 <= i < |rows| && rows[i].observationMethod == Conditional304 ==> Repeats(rows, i)
  }

  lemma LastIsLatest(rows: seq<Snapshot>, now: Instant)
    requires rows != [] && InDateOrder(rows, now)
    ensures Latest(rows) == Some(rows[|rows| - 1])
  {
  }

  lemma CarriesOn(rows: seq<Snapshot>, s: Snapshot)
    requires CarriesFacts(rows)
    requires s.observationMethod == Conditional304 ==> rows != [] && s.facts == rows[|rows| - 1].facts
    ensures CarriesFacts(rows + [s])
  {
    var more, n := rows + [s], |rows|;
    forall i | 0 <= i < |more| && more[i].observationMethod == Conditional304 ensures Repeats(more, i) {
      if i < n {
        var j :| 0 <= j < i && LatestFullBefore(rows, j, i) && rows[j].facts == rows[i].facts;
        assert LatestFullBefore(more, j, i);
      } else if rows[n - 1].observationMethod == Conditional304 {
        assert Repeats(rows, n - 1);
        var j :| 0 <= j < n - 1 && LatestFullBefore(rows, j, n - 1) && rows[j].facts == rows[n - 1].facts;
        assert LatestFullBefore(more, j, n);
      } else {
        assert LatestFullBefore(more, n - 1, n);
      }
    }
  }

  /** The state after a history whose times do not fall, the last of them being now. */
  ghost predicate Consistent(r: Repo, now: Instant) {
    RowsOk(r.rows) && InDateOrder(r.rows, now) && CarriesFacts(r.rows) && PollAgrees(r)
  }

  lemma OrderNext(r: Repo, op: Op, now: Instant)
    requires RowsOk(r.rows) && InDateOrder(r.rows, now) && now <= op.at
    ensures InDateOrder(Apply(r, op).rows, op.at)
  {
    if Succeeds(r, op) && Daily(r.rows, DayOf(op.at)).None? {
      forall i | 0 <= i < |r.rows| ensures r.rows[i].date < DayOf(op.at) && r.rows[i].observedAt < op.at {
        assert r.rows[i] in r.rows;
      }
    }
  }

  lemma FactsNext(r: Repo, op: Op, now: Instant)
    requires InDateOrder(r.rows, now) && CarriesFacts(r.rows)
    ensures CarriesFacts(Apply(r, op).rows)
  {
    hide CarriesFacts;
    if r.rows != [] { LastIsLatest(r.rows, now); }
    if Succeeds(r, op) && Daily(r.rows, DayOf(op.at)).None? { CarriesOn(r.rows, NewSnapshot(r.rows, op).value); }
  }

  lemma AgreementNext(r: Repo, op: Op, now: Instant)
    requires RowsOk(r.rows) && InDateOrder(r.rows, now) && PollAgrees(r) && now <= op.at
    ensures PollAgrees(Apply(r, op))
  {
    if Succeeds(r, op) {
      CacheAgreesExactly(r, op);
      if r.rows != [] {
        var i :| 0 <= i < |r.rows| && r.rows[i] == Latest(r.rows).value;
      }
    } else {
      NoSuccessNoChange(r, op);
    }
  }

  lemma ConsistentNext(r: Repo, op: Op, now: Instant)
    requires Consistent(r, now) && now <= op.at
    ensures Consistent(Apply(r, op), op.at)
  {
    hide RowsOk, InDateOrder, CarriesFacts, PollAgrees, Apply;
    OneObservationKeeps(r, op);
    OrderNext(r, op, now);
    FactsNext(r, op, now);
    AgreementNext(r, op, now);
  }

  /** Whole histories: with non-decreasing observation times the cache always names the newest
      snapshot, and unchanged answers always repeat the latest full snapshot. */
  lemma {:induction false} HistoryConsistent(ops: seq<Op>)
    requires NonDecreasing(ops) && ops != []
    ensures Consistent(Run(ops), ops[|ops| - 1].at)
  {
    var n := |ops| - 1;
    if n > 0 {
      HistoryConsistent(ops[..n]);
      ConsistentNext(Run(ops[..n]), ops[n], ops[n - 1].at);
    } else {
      assert ops[..0] == [];
      ConsistentNext(NEW_REPO, ops[0], ops[0].at);
    }
  }

  /** With times that fall, an unchanged answer can repeat facts from after its own day: here
      day 4 repeats day 5, although the full snapshot recorded last is the one of day 3. */
  lemma FallingTimesCarryLaterFacts(early: Facts, late: Facts, raw: Raw)
    ensures var full5 := Full(5 * DAY, "r", late, 0, raw, None);
            var full3 := Full(3 * DAY, "r", early, 1, raw, None);
            var same4 := Unchanged(4 * DAY, "r", 2, raw);
            var r := Run([full5, full3, same4]);
            && |r.rows| == 3 && r.rows[1].facts == early
            && r.rows[2].date == 4 && r.rows[2].facts == late
            && !PollAgrees(r)
  {
    var full5 := Full(5 * DAY, "r", late, 0, raw, None);
    var full3 := Full(3 * DAY, "r", early, 1, raw, None);
    var same4 := Unchanged(4 * DAY, "r", 2, raw);
    var s5, s3 := NewSnapshot([], full5).value, NewSnapshot([], full3).value;
    var two := Run([full5, full3]);
    assert two.rows == [s5, s3] by { TwoFull(full5, full3); }
    RunNext([full5, full3], same4);
    assert [full5, full3] + [same4] == [full5, full3, same4];
    hide Run, Apply, PollAgrees;
    FallsBetween(two, s5, s3, same4);
  }

  lemma FallsBetween(r: Repo, newer: Snapshot, older: Snapshot, op: Op)
    requires r.rows == [newer, older] && RowsOk(r.rows) && op.Unchanged? && older.date < DayOf(op.at) < newer.date
    ensures Apply(r, op).rows == [newer, older, NewSnapshot(r.rows, op).value]
    ensures NewSnapshot(r.rows, op).value.facts == newer.facts && !PollAgrees(Apply(r, op))
  {
  }

  lemma TwoFull(a: Op, b: Op)
    requires a.Full? && b.Full? && DayOf(a.at) != DayOf(b.at)
    ensures Run([a, b]).rows == [NewSnapshot([], a).value, NewSnapshot([], b).value]
  {
    RunNext([], a);
    RunNext([a], b);
    assert [] + [a] == [a] && [a] + [b] == [a, b];
    var s := NewSnapshot([], a).value;
    assert Run([]) == NEW_REPO && Run([a]).rows == [s] && [s][..0] == [];
  }

  lemma RunNext(ops: seq<Op>, op: Op)
    ensures Run(ops + [op]) == Apply(Run(ops), op)
  {
  }

  // ---------- Which facts an unchanged answer repeats, whatever the clock does ----------

  /** The row with the greatest observation time. */
  function Newest(rows: seq<Snapshot>): (n: nat)
    requires rows != []
    ensures n < |rows| && forall k :: 0 <= k < |rows| ==> rows[k].observedAt <= rows[n].observedAt
  {
    var last := |rows| - 1;
    if last == 0 then 0
    else
      var n := Newest(rows[..last]);
      assert forall k :: 0 <= k < last ==> rows[..last][k] == rows[k];
      if rows[n].observedAt >= rows[last].observedAt then n else last
  }

  lemma NewestOfMore(rows: seq<Snapshot>, last: nat)
    requires |rows| == last + 1 && last > 0
    ensures Newest(rows[..last]) < last
    ensures var n := Newest(rows[..last]); Newest(rows) == if rows[n].observedAt >= rows[last].observedAt then n else last
  {
  }

  lemma LatestOfMore(rows: seq<Snapshot>, last: nat)
    requires |rows| == last + 1
    ensures var rest := Latest(rows[..last]);
            Latest(rows) == if rest.Some? && rest.value.observedAt >= rows[last].observedAt then rest else Some(rows[last])
  {
  }

  lemma {:induction false} NewestIsLatest(rows: seq<Snapshot>)
    requires rows != []
    ensures Latest(rows) == Some(rows[Newest(rows)])
  {
    var last := |rows| - 1;
    LatestOfMore(rows, last);
    if last == 0 {
      assert rows[..0] == [];
    } else {
      NewestOfMore(rows, last);
      hide Newest, Latest;
      NewestIsLatest(rows[..last]);
    }
  }

  /** Every snapshot made from an unchanged answer copies the newest one of its moment. */
  ghost predicate CopiesNewest(rows: seq<Snapshot>) {
    forall i :: 0 <= i < |rows| && rows[i].observationMethod == Conditional304 ==>
      0 < i && rows[i].facts == rows[Newest(rows[..i])].facts
  }

  /** The full snapshot a row's facts come from, copy by copy. */
  function Origin(rows: seq<Snapshot>, i: nat): (o: nat)
    requires i < |rows|
    ensures o <= i
    decreases i
  {
    if i == 0 || rows[i].observationMethod == Full200 then i else Origin(rows, Newest(rows[..i]))
  }

  /** At most one row is added, and one for an unchanged answer repeats the latest. */
  lemma OneRowMore(r: Repo, op: Op)
    ensures var rows, more := r.rows, Apply(r, op).rows;
            more == rows || (|more| == |rows| + 1 && more[..|rows|] == rows
                             && (more[|rows|].observationMethod == Conditional304 ==> rows != [] && more[|rows|].facts == Latest(rows).value.facts))
  {
    hide Latest;
  }

  lemma CopiesOn(r: Repo, op: Op)
    requires CopiesNewest(r.rows)
    ensures CopiesNewest(Apply(r, op).rows)
  {
    hide Apply, Newest, Latest;
    var rows, more := r.rows, Apply(r, op).rows;
    OneRowMore(r, op);
    if more != rows {
      forall i | 0 <= i < |more| && more[i].observationMethod == Conditional304
        ensures 0 < i && more[i].facts == more[Newest(more[..i])].facts
      {
        assert more[..i] == rows[..i];
        if i == |rows| {
          assert rows[..i] == rows;
          NewestIsLatest(rows);
        }
      }
    }
  }

  lemma {:induction false} HistoryCopies(ops: seq<Op>)
    ensures CopiesNewest(Run(ops).rows)
  {
    if ops != [] {
      HistoryCopies(ops[..|ops| - 1]);
      CopiesOn(Run(ops[..|ops| - 1]), ops[|ops| - 1]);
    }
  }

  lemma {:induction false} FactsComeFromOrigin(rows: seq<Snapshot>, i: nat)
    requires CopiesNewest(rows) && i < |rows|
    ensures rows[Origin(rows, i)].observationMethod == Full200 && rows[Origin(rows, i)].facts == rows[i].facts
    decreases i
  {
    if rows[i].observationMethod == Conditional304 { FactsComeFromOrigin(rows, Newest(rows[..i])); }
  }

  /** Nothing comes from a full snapshot that was not the newest of its moment. */
  lemma {:induction false} OldFullIsSkipped(rows: seq<Snapshot>, j: nat, e: nat, i: nat)
    requires j < i < |rows| && LatestFullBefore(rows, j, i) && rows[i].observationMethod == Conditional304
    requires e < j && rows[e].observedAt > rows[j].observedAt
    ensures Origin(rows, i) != j
    decreases i
  {
    hide Newest, Latest;
    var n := Newest(rows[..i]);
    assert rows[..i][e] == rows[e] && rows[..i][n] == rows[n];
    if n > j { OldFullIsSkipped(rows, j, e, n); }
  }

  /** Everything up to the next full snapshot comes from one that was. */
  lemma {:induction false} NewFullIsRepeated(rows: seq<Snapshot>, j: nat, i: nat)
    requires j < i < |rows| && LatestFullBefore(rows, j, i) && rows[i].observationMethod == Conditional304
    requires forall k :: 0 <= k < j ==> rows[k].observedAt < rows[j].observedAt
    ensures Origin(rows, i) == j
    decreases i
  {
    hide Newest, Latest;
    var n := Newest(rows[..i]);
    assert rows[..i][j] == rows[j] && rows[..i][n] == rows[n];
    if n < j {
      assert false;
    } else if n > j {
      NewFullIsRepeated(rows, j, n);
    }
  }

  /** Whatever the clock does: a 304 snapshot repeats the facts of the full snapshot it comes
      from, and that is the full one recorded last exactly when that one was, when it was
      recorded, newer than every snapshot before it. */
  lemma RepeatsLastFullExactly(ops: seq<Op>, j: nat, i: nat)
    requires j < i < |Run(ops).rows| && LatestFullBefore(Run(ops).rows, j, i) && Run(ops).rows[i].observationMethod == Conditional304
    ensures var rows := Run(ops).rows;
            && rows[Origin(rows, i)].observationMethod == Full200 && rows[Origin(rows, i)].facts == rows[i].facts
            && (Origin(rows, i) == j <==> forall k :: 0 <= k < j ==> rows[k].observedAt < rows[j].observedAt)
  {
    var rows := Run(ops).rows;
    HistoryCopies(ops);
    FactsComeFromOrigin(rows, i);
    RecordsStay(ops, |ops|);
    if e :| 0 <= e < j && rows[e].observedAt >= rows[j].observedAt {
      assert rows[e].date != rows[j].date;
      OldFullIsSkipped(rows, j, e, i);
    } else {
      NewFullIsRepeated(rows, j, i);
    }
  }

  // ---------- The operations ----------

  /** The rows and poll states of all repositories. */
  class Store {
    var repos: map<RepositoryId, Repo>

    constructor ()
      ensures repos == map[]
    {
      repos := map[];
    }

    function At(id: RepositoryId): Repo
      reads this
    {
      if id in repos then repos[id] else NEW_REPO
    }

    method MarkPollSuccess(id: RepositoryId, at: Instant, s: Snapshot, raw: Raw)
      modifies this
      ensures repos == old(repos)[id := old(At(id)).(poll := Some(PollSuccess(at, s, raw)))]
    {
      var r := At(id);
      var p := PollOf(r);
      p := p.(lastCheckedAt := Some(at), lastSuccessfulAt := Some(at), lastSnapshotAt := Some(s.observedAt));
      p := p.(etag := OrElse(raw.etag, s.etag), lastModified := raw.lastModified, lastStatus := Some(raw.status));
      p := p.(consecutiveFailures := 0, nextEligibleAt := None, lastError := None);
      repos := repos[id := r.(poll := Some(p))];
    }

    method MarkPollFailure(id: RepositoryId, at: Instant, status: Option<nat>, error: string, next: Option<Instant>)
      modifies this
      ensures repos == old(repos)[id := Apply(old(At(id)), Failure(at, status, error, next))]
    {
      var r := At(id);
      repos := repos[id := r.(poll := Some(PollFailure(PollOf(r), at, status, error, next)))];
    }

    method Add(id: RepositoryId, s: Snapshot)
      modifies this
      ensures repos == old(repos)[id := old(At(id)).(rows := old(At(id)).rows + [s])]
    {
      repos := repos[id := At(id).(rows := At(id).rows + [s])];
    }

    /** A full answer: one new snapshot, or the one the day already has. */
    method CreateFullSnapshot(id: RepositoryId, at: Instant, fullName: string, facts: Facts, run: nat, raw: Raw, etag: Option<string>)
      returns (snapshot: Snapshot, created: bool)
      modifies this
      ensures repos == old(repos)[id := Apply(old(At(id)), Full(at, fullName, facts, run, raw, etag))]
      ensures snapshot in At(id).rows && snapshot.date == DayOf(at)
      ensures created <==> forall s :: s in old(At(id)).rows ==> s.date != DayOf(at)
    {
      var existing := Daily(At(id).rows, DayOf(at));
      if existing.Some? {
        MarkPollSuccess(id, at, existing.value, raw);
        return existing.value, false;
      }
      snapshot := Snapshot(at, DayOf(at), fullName, facts, run, raw.id, Full200, etag);
      Add(id, snapshot);
      MarkPollSuccess(id, at, snapshot, raw);
      created := true;
    }

    /** An unchanged answer: the newest snapshot repeated for a new day. Without any snapshot it
        is refused, and nothing is written. */
    method CreateUnchangedSnapshot(id: RepositoryId, at: Instant, fullName: string, run: nat, raw: Raw)
      returns (result: Option<(Snapshot, bool)>)
      modifies this
      ensures result.None? <==> old(At(id)).rows == []
      ensures result.None? ==> repos == old(repos)
      ensures result.Some? ==> repos == old(repos)[id := Apply(old(At(id)), Unchanged(at, fullName, run, raw))]
      ensures result.Some? ==> result.value.0 in At(id).rows && result.value.0.date == DayOf(at)
      ensures result.Some? ==> (result.value.1 <==> forall s :: s in old(At(id)).rows ==> s.date != DayOf(at))
    {
      var rows := At(id).rows;
      var existing := Daily(rows, DayOf(at));
      if existing.Some? {
        MarkPollSuccess(id, at, existing.value, raw);
        return Some((existing.value, false));
      }
      var previous := Latest(rows);
      if previous.None? { return None; }
      var p := previous.value;
      var snapshot := Snapshot(at, DayOf(at), fullName, p.facts, run, raw.id, Conditional304, OrElse(raw.etag, p.etag));
      Add(id, snapshot);
      MarkPollSuccess(id, at, snapshot, raw);
      result := Some((snapshot, true));
    }
  }

  // ---------- The cross-day verifier ----------

  datatype Verdict = Pending | Failed | Passed

  datatype Report = Report(
    verdict: Verdict, changed: nat, unchangedDays: nat,
    fabricated: seq<(RepositoryId, Snapshot)>, rawMismatches: seq<(RepositoryId, Snapshot)>, inconsistent: seq<RepositoryId>)

  /** The fields of a preserved response body, where it has them. */
  datatype Payload = Payload(
    fullName: Option<string>, stars: Option<nat>, forks: Option<nat>, openIssues: Option<nat>,
    subscribers: Option<nat>, sizeKb: Option<nat>)

  /** The preserved body of a response by its row; None where it cannot be loaded or was altered. */
  type Archive = nat -> Option<Payload>

  predicate Matches(p: Payload, fullName: string, facts: Facts) {
    && p.fullName == Some(fullName) && p.stars == Some(facts.stars) && p.forks == Some(facts.forks)
    && p.openIssues == Some(facts.openIssues) && p.subscribers == Some(facts.subscribers) && p.sizeKb == Some(facts.sizeKb)
  }

  /** A full snapshot that does not say what its response said. */
  predicate RawMismatch(archive: Archive, s: Snapshot) {
    s.observationMethod == Full200 && (archive(s.raw).None? || !Matches(archive(s.raw).value, s.fullName, s.facts))
  }

  function FiledUnder(s: Snapshot): Date { s.date }

  /** The last row by date; the newest when every row is filed under its own date. */
  lemma LastByDate(rows: seq<Snapshot>)
    requires rows != [] && RowsOk(rows)
    ensures |SortBy(AtMost, FiledUnder, rows)| == |rows| && Latest(rows) == Some(SortBy(AtMost, FiledUnder, rows)[|rows| - 1])
  {
    var sorted := SortBy(AtMost, FiledUnder, rows);
    AtMostIsTotal();
    SortBySorts(AtMost, FiledUnder, rows);
    SortByHolds(AtMost, FiledUnder, rows);
    hide SortBy;
    var last, l := sorted[|rows| - 1], Latest(rows).value;
    var i :| 0 <= i < |sorted| && sorted[i] == l;
    assert AtMost(FiledUnder(l), FiledUnder(last));
    assert last in rows;
    SameOrLater(rows, last, l);
  }

  predicate SameSignature(a: Snapshot, b: Snapshot) {
    && a.facts.stars == b.facts.stars && a.facts.forks == b.facts.forks && a.facts.openIssues == b.facts.openIssues
    && a.facts.subscribers == b.facts.subscribers && a.facts.sizeKb == b.facts.sizeKb && a.facts.pushedAt == b.facts.pushedAt
    && a.facts.archived == b.facts.archived && a.facts.disabled == b.facts.disabled
  }

  predicate Fabricated(s: Snapshot) {
    s.date != DayOf(s.observedAt)
  }

  predicate Inconsistent(poll: Option<Poll>, latest: Snapshot) {
    poll.None? || poll.value.lastSnapshotAt != Some(latest.observedAt)
  }

  /** The repository's rows carry their own dates, its cache names the newest of them, */
  ghost predicate Sound(r: Repo) {
    (forall s :: s in r.rows ==> !Fabricated(s)) && PollAgrees(r)
  }

  /** and its full snapshots say what was received. */
  ghost predicate Truthful(archive: Archive, r: Repo) {
    forall s :: s in r.rows ==> !RawMismatch(archive, s)
  }

  /** One snapshot per repository and date, as the table's unique key has it. */
  ghost predicate OnePerDate(rows: seq<Snapshot>) {
    forall i, j :: 0 <= i < j < |rows| ==> rows[i].date != rows[j].date
  }

  /** One repository's part of the verification: its rows in date order, each checked against
      its own date and its response, neighbours compared, and the poll state compared with the
      last of them. */
  method CheckRepository(archive: Archive, r: Repo)
    returns (fabricated: seq<Snapshot>, mismatches: seq<Snapshot>, changed: nat, unchangedDays: nat, inconsistent: bool)
    requires OnePerDate(r.rows) && r.rows != []
    ensures fabricated == [] && !inconsistent <==> Sound(r)
    ensures mismatches == [] <==> Truthful(archive, r)
    ensures forall s :: s in fabricated <==> s in r.rows && Fabricated(s)
    ensures forall s :: s in mismatches <==> s in r.rows && RawMismatch(archive, s)
    ensures changed + unchangedDays == |r.rows| - 1
  {
    var rows := SortBy(AtMost, FiledUnder, r.rows);
    AtMostIsTotal();
    SortByHolds(AtMost, FiledUnder, r.rows);
    hide SortBy, Fabricated, RawMismatch;
    fabricated, mismatches, changed, unchangedDays := [], [], 0, 0;
    for i := 0 to |rows|
      invariant forall s :: s in fabricated <==> s in rows[..i] && Fabricated(s)
      invariant forall s :: s in mismatches <==> s in rows[..i] && RawMismatch(archive, s)
    {
      if Fabricated(rows[i]) { fabricated := fabricated + [rows[i]]; }
      if RawMismatch(archive, rows[i]) { mismatches := mismatches + [rows[i]]; }
    }
    assert rows[..|rows|] == rows;
    if mismatches != [] { assert mismatches[0] in r.rows; }
    for i := 1 to |rows|
      invariant changed + unchangedDays == i - 1
    {
      if SameSignature(rows[i - 1], rows[i]) { unchangedDays := unchangedDays + 1; } else { changed := changed + 1; }
    }
    inconsistent := Inconsistent(r.poll, rows[|rows| - 1]);
    if fabricated == [] { SoundExactly(r); } else { assert fabricated[0] in r.rows; }
  }

  lemma SoundExactly(r: Repo)
    requires OnePerDate(r.rows) && r.rows != [] && forall s :: s in r.rows ==> !Fabricated(s)
    ensures |SortBy(AtMost, FiledUnder, r.rows)| == |r.rows|
    ensures Sound(r) <==> !Inconsistent(r.poll, SortBy(AtMost, FiledUnder, r.rows)[|r.rows| - 1])
  {
    assert RowsOk(r.rows) by {
      forall i | 0 <= i < |r.rows| ensures r.rows[i].date == DayOf(r.rows[i].observedAt) {
        assert r.rows[i] in r.rows;
      }
    }
    LastByDate(r.rows);
  }

  function AllDates(repos: seq<(RepositoryId, Repo)>): set<Date> {
    set k, i | 0 <= k < |repos| && 0 <= i < |repos[k].1.rows| :: repos[k].1.rows[i].date
  }

  predicate CrossDay(repos: seq<(RepositoryId, Repo)>) {
    exists k :: 0 <= k < |repos| && |repos[k].1.rows| >= 2
  }

  function Transitions(repos: seq<(RepositoryId, Repo)>): nat {
    if repos == [] then 0
    else
      var n := |repos[|repos| - 1].1.rows|;
      Transitions(repos[..|repos| - 1]) + if n > 0 then n - 1 else 0
  }

  /** Reads the whole log. Apart from the topic deltas, which are compared elsewhere, it reports a
      failure exactly when some repository's rows or cache are not sound or not true. */
  method Verify(archive: Archive, repos: seq<(RepositoryId, Repo)>, deltaFailures: nat) returns (report: Report)
    requires forall k :: 0 <= k < |repos| ==> OnePerDate(repos[k].1.rows)
    ensures report.fabricated == [] && report.inconsistent == [] <==> forall k :: 0 <= k < |repos| ==> Sound(repos[k].1)
    ensures report.rawMismatches == [] <==> forall k :: 0 <= k < |repos| ==> Truthful(archive, repos[k].1)
    ensures report.changed + report.unchangedDays == Transitions(repos)
    ensures report.verdict == Pending <==> |AllDates(repos)| < 2 || !CrossDay(repos)
    ensures report.verdict == Passed <==>
              |AllDates(repos)| >= 2 && CrossDay(repos) && deltaFailures == 0 &&
              forall k :: 0 <= k < |repos| ==> Sound(repos[k].1) && Truthful(archive, repos[k].1)
  {
    hide Sound, Truthful, OnePerDate, AllDates;
    var fabricated, rawMismatches, inconsistent, changed, unchangedDays := [], [], [], 0, 0;
    for k := 0 to |repos|
      invariant fabricated == [] && inconsistent == [] <==> forall n :: 0 <= n < k ==> Sound(repos[n].1)
      invariant rawMismatches == [] <==> forall n :: 0 <= n < k ==> Truthful(archive, repos[n].1)
      invariant changed + unchangedDays == Transitions(repos[..k])
    {
      assert repos[..k + 1][..k] == repos[..k];
      var id, r := repos[k].0, repos[k].1;
      if r.rows == [] {
        NothingIsSound(archive, r);
      } else {
        var bad, raw, c, u, off := CheckRepository(archive, r);
        fabricated := fabricated + seq(|bad|, i requires 0 <= i < |bad| => (id, bad[i]));
        rawMismatches := rawMismatches + seq(|raw|, i requires 0 <= i < |raw| => (id, raw[i]));
        changed, unchangedDays := changed + c, unchangedDays + u;
        if off { inconsistent := inconsistent + [id]; }
      }
    }
    assert repos[..|repos|] == repos;
    var verdict :=
      if |AllDates(repos)| < 2 || !CrossDay(repos) then Pending
      else if rawMismatches != [] || deltaFailures > 0 || fabricated != [] || inconsistent != [] then Failed
      else Passed;
    report := Report(verdict, changed, unchangedDays, fabricated, rawMismatches, inconsistent);
  }

  lemma NothingIsSound(archive: Archive, r: Repo)
    requires r.rows == []
    ensures Sound(r) && Truthful(archive, r)
  {
  }

  /** What a history with non-decreasing times leaves is what the verifier asks for. */
  lemma HistoryIsSound(ops: seq<Op>)
    requires NonDecreasing(ops)
    ensures Sound(Run(ops)) && OnePerDate(Run(ops).rows)
  {
    if ops != [] {
      HistoryConsistent(ops);
      var r := Run(ops);
      forall s | s in r.rows ensures !Fabricated(s) {
        var i :| 0 <= i < |r.rows| && r.rows[i] == s;
      }
    }
  }

  /** And where every full answer was recorded from what was received, the log stays true. */
  lemma {:induction false} HistoryIsTrue(archive: Archive, ops: seq<Op>)
    requires forall i :: 0 <= i < |ops| && ops[i].Full? ==>
               archive(ops[i].raw.id).Some? && Matches(archive(ops[i].raw.id).value, ops[i].fullName, ops[i].facts)
    ensures Truthful(archive, Run(ops))
  {
    if ops != [] {
      var n := |ops| - 1;
      HistoryIsTrue(archive, ops[..n]);
      hide Matches, Latest;
      var rows, more := Run(ops[..n]).rows, Run(ops).rows;
      assert more == rows || (NewSnapshot(rows, ops[n]).Some? && more == rows + [NewSnapshot(rows, ops[n]).value]);
    }
  }
}
