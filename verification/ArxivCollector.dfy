/** The collector itself. Every write goes through Write, which appends the committed
    state to a ghost log: a crash is a log cut short. */
module ArxivCollector {
  import opened Wrappers
  import opened Windows
  import opened ArxivModel
  import opened ArxivEdits
  import opened ArxivHistory

  datatype Outcome = Finished(status: Status, split: Option<(Window, Window)>) | Raised(error: ErrorKind)

  datatype Fetched = Page(body: Body) | Fault(error: ErrorKind)

  datatype RunStatus = RunSucceeded | RunPartial | RunFailed

  /** Refused: nothing was started. Crashed: an error that a run does not catch. */
  datatype RunEnd = Ended(status: RunStatus) | Refused | Crashed

  function TerminalStatus(errors: nat, successfulWindows: nat, stopped: bool): RunStatus {
    if errors > 0 && successfulWindows == 0 then RunFailed
    else if errors > 0 || stopped then RunPartial
    else RunSucceeded
  }

  predicate Transient(code: nat) {
    code == 429 || code == 500 || code == 502 || code == 503 || code == 504
  }

  lemma AttemptsAllowed(cfg: Config)
    requires ConfigOk(cfg)
    ensures 1 <= cfg.retryAttempts <= 5
  {
  }

  /** An answer after which the client tries again, as long as attempts are left. */
  predicate Retried(a: Answer) {
    a.TransportFailure? || Transient(a.code)
  }

  predicate Success(a: Answer) {
    a.Http? && 200 <= a.code < 300
  }

  /** What the parser makes of a response body. */
  function ParseBody(body: Body): Body {
    if body.Feed? && body.itemsPerPage < |body.articles| then Malformed else body
  }

  /** The stored partition, when it is a partition of this window. */
  function PartitionCheckpoint(c: Cursor, w: Window): Option<Partition> {
    if c.partition.Some? && c.partition.value.root == w then c.partition else None
  }

  /** The window a run starting now means to collect for m. */
  function PlannedWindow(cfg: Config, db: Db, m: Mapping, now: Instant): Window {
    IncrementalWindow(cfg, Row(db, m, Incremental), now).1
  }

  /** The incremental cursor of m has succeeded on exactly this window. */
  ghost predicate MappingCollected(db: Db, m: Mapping, w: Window) {
    && Incremental in ShelfOf(db, m).cursors
    && Row(db, m, Incremental).status == Succeeded
    && Row(db, m, Incremental).window == Some(w)
    && Row(db, m, Incremental).lastQuery == Some(w)
  }

  /** The range is tiled by windows whose backfill cursors have all succeeded. */
  ghost predicate RangeCollected(db: Db, m: Mapping, range: Window, ws: seq<Window>) {
    && Tiles(ws, range)
    && forall i :: 0 <= i < |ws| ==> WindowCollected(db, m, ws[i])
  }

  ghost predicate RangeDone(db: Db, m: Mapping, range: Window) {
    exists ws :: RangeCollected(db, m, range, ws)
  }

  ghost predicate WindowCollected(db: Db, m: Mapping, w: Window) {
    && Key.Backfill(w) in ShelfOf(db, m).cursors
    && Row(db, m, Key.Backfill(w)).status == Succeeded
    && Row(db, m, Key.Backfill(w)).window == Some(w)
  }

  /** The window has a backfill cursor. */
  ghost predicate Filed(db: Db, m: Mapping, w: Window) {
    Key.Backfill(w) in ShelfOf(db, m).cursors
  }

  ghost predicate NoneLarge(cfg: Config, known: Option<World>, m: Mapping, ws: seq<Window>) {
    forall i :: 0 <= i < |ws| ==> !Large(cfg, known, m, ws[i])
  }

  /** How far a backfill has come: every planned window has its cursor or is still to come, and
      with a known server no window is split, or filed without being planned, unless a planned one
      is large. */
  ghost predicate Underway(cfg: Config, known: Option<World>, before: Db, db: Db, m: Mapping, planned: seq<Window>, done: seq<Window>, pending: seq<Window>) {
    && (forall i :: 0 <= i < |planned| ==> planned[i] in pending || Filed(db, m, planned[i]))
    && (known.Some? && NoneLarge(cfg, known, m, planned) ==>
          && done + pending == planned
          && forall w :: Filed(db, m, w) ==> Filed(before, m, w) || w in planned)
  }

  /** What a successful backfill leaves of the planned windows. */
  ghost predicate PlanFiled(cfg: Config, known: Option<World>, before: Db, db: Db, m: Mapping, planned: seq<Window>) {
    && (forall i :: 0 <= i < |planned| ==> Filed(db, m, planned[i]))
    && (known.Some? && NoneLarge(cfg, known, m, planned) ==>
          && (forall i :: 0 <= i < |planned| ==> WindowCollected(db, m, planned[i]))
          && forall w :: Filed(db, m, w) ==> Filed(before, m, w) || w in planned)
  }

  lemma UnderwayNext(cfg: Config, known: Option<World>, before: Db, a: Db, b: Db, m: Mapping, planned: seq<Window>, done: seq<Window>,
                     pending: seq<Window>, done': seq<Window>, pending': seq<Window>)
    requires Underway(cfg, known, before, a, m, planned, done, pending) && pending != [] && Filed(b, m, pending[0])
    requires forall w :: w != pending[0] ==> (Filed(a, m, w) <==> Filed(b, m, w))
    requires forall w :: w in pending[1..] ==> w in pending'
    requires (done' == done + [pending[0]] && pending' == pending[1..]) || (known.Some? ==> Large(cfg, known, m, pending[0]))
    ensures Underway(cfg, known, before, b, m, planned, done', pending')
  {
    assert pending == [pending[0]] + pending[1..];
    forall i | 0 <= i < |planned| ensures planned[i] in pending' || Filed(b, m, planned[i]) {
      if planned[i] in pending && planned[i] != pending[0] { assert planned[i] in pending[1..]; }
    }
    if known.Some? && NoneLarge(cfg, known, m, planned) {
      assert (done + pending)[|done|] == pending[0] && planned[|done|] == pending[0];
    }
  }

  /** And what is done is collected. */
  ghost predicate Progress(cfg: Config, known: Option<World>, before: Db, db: Db, m: Mapping, planned: seq<Window>, done: seq<Window>, pending: seq<Window>) {
    && (forall i :: 0 <= i < |done| ==> WindowCollected(db, m, done[i]))
    && Underway(cfg, known, before, db, m, planned, done, pending)
  }

  lemma NoProgress(cfg: Config, known: Option<World>, db: Db, m: Mapping, planned: seq<Window>)
    ensures Progress(cfg, known, db, db, m, planned, [], planned)
  {
  }

  lemma SplitProgress(cfg: Config, known: Option<World>, before: Db, a: Db, b: Db, m: Mapping, planned: seq<Window>, done: seq<Window>,
                      pending: seq<Window>, halves: (Window, Window))
    requires Progress(cfg, known, before, a, m, planned, done, pending) && pending != [] && pending[0] !in done && Filed(b, m, pending[0])
    requires forall w :: w != pending[0] ==> (Filed(a, m, w) <==> Filed(b, m, w)) && (WindowCollected(a, m, w) ==> WindowCollected(b, m, w))
    requires known.Some? ==> Large(cfg, known, m, pending[0])
    ensures Progress(cfg, known, before, b, m, planned, done, [halves.0, halves.1] + pending[1..])
  {
    hide Underway, WindowCollected, Filed, Large;
    UnderwayNext(cfg, known, before, a, b, m, planned, done, pending, done, [halves.0, halves.1] + pending[1..]);
    forall i | 0 <= i < |done| ensures WindowCollected(b, m, done[i]) { assert done[i] in done; }
  }

  lemma SettledProgress(cfg: Config, known: Option<World>, before: Db, a: Db, b: Db, m: Mapping, planned: seq<Window>, done: seq<Window>, pending: seq<Window>)
    requires Progress(cfg, known, before, a, m, planned, done, pending) && pending != [] && Filed(b, m, pending[0])
    requires WindowCollected(b, m, pending[0])
    requires forall w :: w != pending[0] ==> (Filed(a, m, w) <==> Filed(b, m, w)) && (WindowCollected(a, m, w) ==> WindowCollected(b, m, w))
    ensures Progress(cfg, known, before, b, m, planned, done + [pending[0]], pending[1..])
  {
    hide Underway, WindowCollected, Filed, Large;
    UnderwayNext(cfg, known, before, a, b, m, planned, done, pending, done + [pending[0]], pending[1..]);
  }

  lemma ProgressMade(cfg: Config, known: Option<World>, before: Db, db: Db, m: Mapping, planned: seq<Window>, range: Window, done: seq<Window>)
    requires Progress(cfg, known, before, db, m, planned, done, []) && Tiles(done, range)
    ensures PlanFiled(cfg, known, before, db, m, planned) && RangeCollected(db, m, range, done)
  {
    assert done + [] == done;
  }

  lemma SameShelfPlan(cfg: Config, known: Option<World>, a: Db, b: Db, a': Db, b': Db, m: Mapping, planned: seq<Window>)
    requires ShelfOf(a, m) == ShelfOf(a', m) && ShelfOf(b, m) == ShelfOf(b', m) && PlanFiled(cfg, known, a, b, m, planned)
    ensures PlanFiled(cfg, known, a', b', m, planned)
  {
    forall i | 0 <= i < |planned| && WindowCollected(b, m, planned[i]) ensures WindowCollected(b', m, planned[i]) {}
    assert forall w :: Filed(b', m, w) ==> Filed(b, m, w);
    assert forall i :: 0 <= i < |planned| ==> Filed(b, m, planned[i]) ==> Filed(b', m, planned[i]);
  }

  /** What a run does after a mapping. */
  datatype Verdict = GoOn | StopRun | CrashRun

  /** Between the two states nothing but the cursor k of m was written (and papers were added). */
  ghost predicate OnlyCursor(db: Db, db': Db, m: Mapping, k: Key) {
    && db'.at == db.at
    && db.tick <= db'.tick
    && db.shelves.Keys <= db'.shelves.Keys
    && (forall n :: n in db'.shelves && n != m ==> n in db.shelves && db'.shelves[n] == db.shelves[n])
    && (forall j :: j != k ==> (j in ShelfOf(db, m).cursors <==> j in ShelfOf(db', m).cursors))
    && (forall j :: j != k && j in ShelfOf(db, m).cursors ==> Row(db', m, j) == Row(db, m, j))
  }

  lemma OnlyCursorAgain(a: Db, b: Db, c: Db, m: Mapping, k: Key)
    requires OnlyCursor(a, b, m, k) && OnlyCursor(b, c, m, k)
    ensures OnlyCursor(a, c, m, k)
  {
  }

  lemma OnlyCursorStart(db: Db, m: Mapping, k: Key)
    ensures OnlyCursor(db, db, m, k)
  {
  }

  lemma PutFrame(db: Db, m: Mapping, k: Key, c: Cursor, papers: set<Paper>, touched: bool)
    ensures OnlyCursor(db, db, m, k)
    ensures var db' := Put(db, m, k, c, papers, touched);
            && OnlyCursor(db, db', m, k)
            && k in ShelfOf(db', m).cursors
            && Row(db', m, k) == Stamped(db, m, k, c, touched)
            && (Free(ShelfOf(db, m), k) && (k == Incremental ==> c.partition.None?) ==> Free(ShelfOf(db', m), k))
  {
  }

  /** Nothing outside m was written. */
  ghost predicate OnlyMapping(db: Db, db': Db, m: Mapping) {
    && db'.at == db.at
    && db.tick <= db'.tick
    && db.shelves.Keys <= db'.shelves.Keys
    && forall n :: n in db'.shelves && n != m ==> n in db.shelves && db'.shelves[n] == db.shelves[n]
  }

  lemma OnlyMappingAgain(a: Db, b: Db, c: Db, m: Mapping)
    requires OnlyMapping(a, b, m) && OnlyMapping(b, c, m)
    ensures OnlyMapping(a, c, m)
  {
  }

  lemma OnlyCursorIsOnlyMapping(a: Db, b: Db, c: Db, m: Mapping, k: Key)
    requires OnlyMapping(a, b, m) && OnlyCursor(b, c, m, k)
    ensures OnlyMapping(a, c, m)
    ensures forall j :: j != k ==> (j in ShelfOf(b, m).cursors <==> j in ShelfOf(c, m).cursors) && Row(b, m, j) == Row(c, m, j)
  {
  }

  lemma SamePlan(cfg: Config, a: Db, b: Db, m: Mapping, now: Instant)
    requires ShelfOf(a, m) == ShelfOf(b, m)
    ensures PlannedWindow(cfg, a, m, now) == PlannedWindow(cfg, b, m, now)
  {
  }

  lemma SameShelfCollected(a: Db, b: Db, m: Mapping, w: Window)
    requires ShelfOf(a, m) == ShelfOf(b, m)
    ensures MappingCollected(a, m, w) == MappingCollected(b, m, w)
  {
  }

  lemma SameShelfRange(a: Db, b: Db, m: Mapping, range: Window)
    requires ShelfOf(a, m) == ShelfOf(b, m) && RangeDone(a, m, range)
    ensures RangeDone(b, m, range)
  {
    var ws :| RangeCollected(a, m, range, ws);
    forall i | 0 <= i < |ws| ensures WindowCollected(b, m, ws[i]) {
      assert WindowCollected(a, m, ws[i]);
    }
    assert RangeCollected(b, m, range, ws);
  }

  lemma RangeIsDone(db: Db, m: Mapping, range: Window, ws: seq<Window>)
    requires RangeCollected(db, m, range, ws)
    ensures RangeDone(db, m, range)
  {
  }

  /** The next pending window has not been settled yet. */
  lemma FirstPendingIsNew(done: seq<Window>, pending: seq<Window>, range: Window)
    requires Tiles(done + pending, range) && pending != []
    ensures pending[0].from < pending[0].until && pending[0] !in done
  {
    var all := done + pending;
    assert all[|done|] == pending[0];
    forall i | 0 <= i < |done| ensures done[i] != pending[0] {
      TilesIncrease(all, range, i, |done|);
    }
  }

  lemma SplitInTiles(done: seq<Window>, pending: seq<Window>, range: Window, minimum: int)
    requires Tiles(done + pending, range) && pending != [] && 0 < minimum && Split(pending[0], minimum).Some?
    ensures var halves := Split(pending[0], minimum).value;
            Tiles(done + ([halves.0, halves.1] + pending[1..]), range)
  {
    var halves := Split(pending[0], minimum).value;
    var all, k := done + pending, |done|;
    assert all[k] == pending[0];
    SplitTile(all, k, minimum, range);
    assert Replaced(all, k, halves.0, halves.1) == done + ([halves.0, halves.1] + pending[1..]);
  }

  /** A server that honours paging, and a run that reported success: every paper is there. */
  lemma CollectedStores(cfg: Config, world: World, db: Db, m: Mapping, w: Window)
    requires WorldOk(world) && Inv(cfg, Some(world), db) && MappingCollected(db, m, w)
    ensures Collected(world, m, PapersOf(db, m), w.from, w.until)
  {
    SucceededParentCollects(cfg, world, db, m);
  }

  lemma RangeStores(cfg: Config, world: World, db: Db, m: Mapping, range: Window)
    requires WorldOk(world) && Inv(cfg, Some(world), db) && RangeDone(db, m, range)
    ensures Collected(world, m, PapersOf(db, m), range.from, range.until)
  {
    var ws :| RangeCollected(db, m, range, ws);
    forall p | p in world.corpus(m) && range.from <= p.submitted <= range.until ensures p in PapersOf(db, m) {
      var k := TilesCover(ws, range, p.submitted);
      assert WindowCollected(db, m, ws[k]);
      assert CursorOk(Some(world), m, PapersOf(db, m), Key.Backfill(ws[k]), Row(db, m, Key.Backfill(ws[k])));
      StoredWindowCollects(world, m, PapersOf(db, m), ws[k]);
    }
  }

  lemma DayWindowsTile(ws: seq<Window>, root: Window, days: int)
    requires DayWindows(ws, root, days)
    ensures Tiles(ws, root)
  {
  }

  lemma OtherWindowStays(a: Db, b: Db, m: Mapping, k: Key, w: Window)
    requires OnlyCursor(a, b, m, k) && k != Key.Backfill(w) && WindowCollected(a, m, w)
    ensures WindowCollected(b, m, w)
  {
  }

  lemma SettledIsCollected(db: Db, m: Mapping, w: Window)
    requires Key.Backfill(w) in ShelfOf(db, m).cursors && Row(db, m, Key.Backfill(w)).status == Succeeded
    requires Row(db, m, Key.Backfill(w)).window == Some(w)
    ensures WindowCollected(db, m, w)
  {
  }

  lemma OnlyMappingStart(db: Db, m: Mapping)
    ensures OnlyMapping(db, db, m)
  {
  }

  lemma HonestPage(server: (Request, nat) -> Answer, world: World, request: Request, attempt: nat)
    requires Honest(server, world)
    ensures var answer := server(request, attempt);
            answer.Http? && answer.body.Feed? && answer.body.start == request.start ==>
              PageOf(world.results(request.mapping, request.window), request.start, answer.body)
  {
  }

  lemma PageTotal(results: seq<Paper>, start: nat, body: Body)
    requires body.Feed? && PageOf(results, start, body)
    ensures body.total == |results|
  {
  }

  /** Writing the cursor of a child leaves the parent, and with it what is free, alone. */
  lemma FreeAgain(a: Db, b: Db, m: Mapping, k: Key)
    requires OnlyCursor(a, b, m, k) && k != Incremental && Free(ShelfOf(a, m), k)
    ensures Free(ShelfOf(b, m), k)
  {
  }

  class Collector {
    const cfg: Config
    const server: (Request, nat) -> Answer
    const timeUp: nat -> bool
    const storageFails: nat -> bool
    const touched: nat -> bool
    const topicOf: Mapping -> nat
    ghost const known: Option<World>

    var db: Db
    ghost var log: History

    // How far the answers and the clock readings have been used up.
    var attempts: nat
    var readings: nat

    // The accumulator of the current run.
    var apiRequests: nat
    var rawPayloads: nat
    var errors: nat
    var stopped: bool
    var successfulWindows: nat
    var resultsByTopic: map<nat, nat>
    ghost var transportFailures: nat

    ghost predicate Valid()
      reads this
    {
      && ConfigOk(cfg)
      && (known.Some? ==> Honest(server, known.value))
      && |log| > 0 && db == log[|log| - 1]
      && Good(cfg, known, log)
      && Inv(cfg, known, db)
      && apiRequests <= cfg.maxRequests
      && apiRequests == rawPayloads + transportFailures
    }

    /** A process that starts on a committed state. */
    constructor (cfg: Config, server: (Request, nat) -> Answer, timeUp: nat -> bool, storageFails: nat -> bool,
                 touched: nat -> bool, topicOf: Mapping -> nat, ghost known: Option<World>, db: Db)
      requires ConfigOk(cfg) && (known.Some? ==> Honest(server, known.value)) && Inv(cfg, known, db)
      ensures Valid() && this.db == db && log == [db] && this.cfg == cfg && this.known == known
    {
      this.cfg, this.server, this.timeUp, this.storageFails, this.touched := cfg, server, timeUp, storageFails, touched;
      this.topicOf, this.known := topicOf, known;
      this.db, this.log := db, [db];
      attempts, readings := 0, 0;
      apiRequests, rawPayloads, transportFailures := 0, 0, 0;
      errors, stopped, successfulWindows, resultsByTopic := 0, false, 0, map[];
    }

    /** One row written and committed. */
    method Write(m: Mapping, k: Key, c: Cursor, papers: set<Paper>)
      requires Valid() && Writable(cfg, known, db, m, k, c, papers, touched(db.tick))
      requires k in ShelfOf(db, m).cursors ==> c.updated == Row(db, m, k).updated
      modifies this`db, this`log
      ensures Valid() && db == Put(old(db), m, k, c, papers, touched(old(db).tick)) && log == old(log) + [db]
    {
      WriteKeeps(cfg, known, db, m, k, c, papers, touched(db.tick));
      db := Put(db, m, k, c, papers, touched(db.tick));
      log := log + [db];
    }

    /** Moves a cursor to an unfinished state. */
    method Demote(m: Mapping, k: Key, status: Status, error: Option<Reason>)
      requires Valid() && k in ShelfOf(db, m).cursors && Free(ShelfOf(db, m), k)
      requires status == Running || status == Partial || status == Failed
      modifies this`db, this`log
      ensures Valid() && old(log) <= log && OnlyCursor(old(db), db, m, k)
      ensures k in ShelfOf(db, m).cursors
      ensures Row(db, m, k) == old(Row(db, m, k)).(status := status, lastError := error, updated := Row(db, m, k).updated)
    {
      hide Good, Inv, Step, Writable;
      DemoteWritable(cfg, known, db, m, k, status, error, touched(db.tick));
      Write(m, k, Row(db, m, k).(status := status, lastError := error), PapersOf(db, m));
    }

    method RuntimeExceeded() returns (up: bool)
      modifies this`readings
      ensures up == timeUp(old(readings)) && readings == old(readings) + 1
    {
      up := timeUp(readings);
      readings := readings + 1;
    }

    /** The client's retry loop, with the run's request counting as its attempt hook and raw
        preservation as its response hook. A page is only returned for a request that was counted. */
    method Get(request: Request) returns (r: Fetched)
      requires Valid()
      modifies this`readings, this`attempts, this`apiRequests, this`rawPayloads, this`transportFailures
      ensures Valid()
      ensures old(attempts) <= attempts <= old(attempts) + cfg.retryAttempts
      ensures apiRequests - old(apiRequests) == attempts - old(attempts)
      ensures forall n :: old(attempts) <= n < attempts - 1 ==> Retried(server(request, n))
      ensures r.Page? ==> old(attempts) < attempts && Success(server(request, attempts - 1)) && server(request, attempts - 1).body == r.body
      ensures r == Fault(Forbidden) ==> old(attempts) < attempts && server(request, attempts - 1).Http? && server(request, attempts - 1).code == 403
      ensures r == Fault(Client) ==>
                && old(attempts) < attempts && !Success(server(request, attempts - 1))
                && (Retried(server(request, attempts - 1)) ==> attempts == old(attempts) + cfg.retryAttempts)
      ensures r == Fault(Collection) ==> apiRequests >= cfg.maxRequests || (old(readings) < readings && timeUp(readings - 1))
      ensures r.Fault? ==> r.error != Unexpected && r.error != Parse
    {
      hide Good, Inv, Honest, ConfigOk;
      assert 1 <= cfg.retryAttempts by { AttemptsAllowed(cfg); }
      var attempt := 1;
      while attempt <= cfg.retryAttempts
        invariant 1 <= attempt <= cfg.retryAttempts
        invariant Valid()
        invariant old(readings) <= readings
        invariant attempts == old(attempts) + attempt - 1 && apiRequests == old(apiRequests) + attempt - 1
        invariant forall n :: old(attempts) <= n < attempts ==> Retried(server(request, n))
      {
        if apiRequests >= cfg.maxRequests { return Fault(Collection); }
        var up := RuntimeExceeded();
        if up { return Fault(Collection); }
        apiRequests := apiRequests + 1;
        var answer := server(request, attempts);
        attempts := attempts + 1;
        match answer {
          case TransportFailure =>
            transportFailures := transportFailures + 1;
            if attempt == cfg.retryAttempts { return Fault(Client); }
          case Http(code, body) =>
            rawPayloads := rawPayloads + 1;
            if code == 403 { return Fault(Forbidden); }
            if 200 <= code < 300 { return Page(body); }
            if !Transient(code) || attempt == cfg.retryAttempts { return Fault(Client); }
        }
        attempt := attempt + 1;
      }
      assert false;
    }

    /** The cursor k of m is being paged through the window w. */
    ghost predicate Working(m: Mapping, k: Key, w: Window)
      reads this
    {
      && k in ShelfOf(db, m).cursors
      && Free(ShelfOf(db, m), k)
      && Row(db, m, k).partition.None?
      && Row(db, m, k).window == Some(w)
      && Row(db, m, k).status == Running
    }

    /** What a window's outcome says about its cursor. */
    ghost predicate Settled(m: Mapping, k: Key, w: Window, o: Outcome)
      reads this
    {
      && 0 < cfg.minimum
      && k in ShelfOf(db, m).cursors
      && Row(db, m, k).partition.None?
      && Row(db, m, k).window == Some(w)
      && (o.Raised? ==> Row(db, m, k).status != Succeeded)
      && (o.Finished? ==> Row(db, m, k).status == o.status && (o.status == Succeeded || o.status == Partial))
      && (o.Finished? && o.split.Some? ==> o.status == Partial && Split(w, cfg.minimum) == o.split)
      && (o.Finished? && o.split.Some? && known.Some? ==> Large(cfg, known, m, w))
      && (o.Finished? && o.status == Partial && o.split.None? ==> stopped)
    }

    method Pause(m: Mapping, k: Key, w: Window, reason: Reason) returns (o: Outcome)
      requires Valid() && Working(m, k, w)
      modifies this`db, this`log, this`stopped
      ensures Valid() && old(log) <= log && OnlyCursor(old(db), db, m, k)
      ensures o == Finished(Partial, None) && stopped && Settled(m, k, w, o)
      ensures Row(db, m, k).lastError == Some(reason)
    {
      hide Good, Inv, Step;
      stopped := true;
      Demote(m, k, Partial, Some(reason));
      o := Finished(Partial, None);
    }

    /** The limits that are looked at before each page. */
    method Limit(pages: nat, maxPages: Option<nat>, topic: nat) returns (reached: Option<Reason>)
      modifies this`readings
      ensures reached.None? ==> apiRequests < cfg.maxRequests && TopicResults(topic) < cfg.maxResultsPerTopic
      ensures reached.None? && maxPages.Some? ==> pages < maxPages.value
      ensures reached == Some(MaxRequests) <==> apiRequests >= cfg.maxRequests
      ensures reached == Some(MaxRuntime) <==> apiRequests < cfg.maxRequests && timeUp(old(readings))
      ensures reached == Some(MaxPages) <==>
                apiRequests < cfg.maxRequests && !timeUp(old(readings)) && maxPages.Some? && pages >= maxPages.value
      ensures reached == Some(MaxResults) <==>
                apiRequests < cfg.maxRequests && !timeUp(old(readings)) && (maxPages.Some? ==> pages < maxPages.value)
                && TopicResults(topic) >= cfg.maxResultsPerTopic
      ensures reached.Some? ==> reached.value in {MaxRequests, MaxRuntime, MaxPages, MaxResults}
    {
      if apiRequests >= cfg.maxRequests { return Some(MaxRequests); }
      var up := RuntimeExceeded();
      if up { return Some(MaxRuntime); }
      if maxPages.Some? && pages >= maxPages.value { return Some(MaxPages); }
      if TopicResults(topic) >= cfg.maxResultsPerTopic { return Some(MaxResults); }
      reached := None;
    }

    function TopicResults(topic: nat): nat
      reads this`resultsByTopic
    {
      if topic in resultsByTopic then resultsByTopic[topic] else 0
    }

    /** A page is written, and the cursor moved on with it. None: there is more to fetch. */
    method CommitPage(m: Mapping, k: Key, w: Window, body: Body, next: nat) returns (o: Option<Outcome>)
      requires Valid() && Working(m, k, w) && body.Feed?
      requires Writable(cfg, known, db, m, k, AfterPage(Row(db, m, k), w, next, body.total),
                        PapersOf(db, m) + (set a | a in body.articles), touched(db.tick))
      modifies this`db, this`log
      ensures Valid() && old(log) <= log && OnlyCursor(old(db), db, m, k)
      ensures o.None? ==> Working(m, k, w)
      ensures o.Some? ==> o.value == Finished(Succeeded, None) && Settled(m, k, w, o.value)
    {
      hide Good, Writable, Inv, Step, OnlyCursor, Free, ShelfOf, Put, Row, PapersOf, Honest, Split, Large;
      var c := AfterPage(Row(db, m, k), w, next, body.total);
      var papers := PapersOf(db, m) + set a | a in body.articles;
      PutFrame(db, m, k, c, papers, touched(db.tick));
      assert c.updated == Row(db, m, k).updated;
      Write(m, k, c, papers);
      o := if next >= body.total then Some(Finished(Succeeded, None)) else None;
    }

    /** Stores one parsed page. None: there is more to fetch. */
    method StorePage(m: Mapping, k: Key, w: Window, body: Body, topic: nat) returns (o: Option<Outcome>)
      requires Valid() && Working(m, k, w)
      requires body.Feed? && body.start == Row(db, m, k).nextStart
      requires known.Some? ==> PageOf(known.value.results(m, w), body.start, body)
      requires body.start == 0 ==> body.total <= cfg.largeQuery
      modifies this`db, this`log, this`stopped, this`resultsByTopic
      ensures Valid() && old(log) <= log && OnlyCursor(old(db), db, m, k)
      ensures old(stopped) ==> stopped
      ensures o.None? ==> Working(m, k, w)
      ensures o.Some? ==> Settled(m, k, w, o.value)
    {
      hide Good, Writable, Inv, Step, PageOf, OnlyCursor, Free, ShelfOf, Row, PapersOf, AfterPage, Honest, Split, Large;
      resultsByTopic := resultsByTopic[topic := TopicResults(topic) + |body.articles|];
      var advance := Advance(body);
      if advance == 0 && body.start < body.total {
        var paused := Pause(m, k, w, EmptyPage);
        return Some(paused);
      }
      var next := if advance == 0 then body.total else body.start + advance;
      PageWritable(cfg, known, db, m, k, w, body, next, touched(db.tick));
      o := CommitPage(m, k, w, body, next);
    }

    /** One request, and what becomes of its answer. None: there is more to fetch. */
    method Turn(m: Mapping, k: Key, w: Window, topic: nat, maxResults: nat) returns (o: Option<Outcome>)
      requires Valid() && Working(m, k, w)
      modifies this
      ensures Valid() && old(log) <= log && OnlyCursor(old(db), db, m, k)
      ensures old(apiRequests) <= apiRequests && errors == old(errors) && successfulWindows == old(successfulWindows)
      ensures old(stopped) ==> stopped
      ensures o.None? ==> Working(m, k, w) && old(apiRequests) < apiRequests
      ensures o.Some? ==> Settled(m, k, w, o.value)
    {
      hide Good, Inv, Step, Writable, PageOf, OnlyCursor, Free, ShelfOf, Row, Split, Honest;
      OnlyCursorStart(db, m, k);
      var start := Row(db, m, k).nextStart;
      var fetched := Get(Request(m, w, start, maxResults));
      if fetched.Fault? { return Some(Raised(fetched.error)); }
      var body := ParseBody(fetched.body);
      if body.Malformed? || body.start != start {
        Demote(m, k, Failed, Some(Error(ErrorKind.Parse)));
        return Some(Raised(ErrorKind.Parse));
      }
      if start == 0 && body.total > cfg.largeQuery {
        if known.Some? {
          HonestPage(server, known.value, Request(m, w, start, maxResults), attempts - 1);
          PageTotal(known.value.results(m, w), start, body);
        }
        var split := Split(w, cfg.minimum);
        if split.None? {
          var paused := Pause(m, k, w, MinimumPartition);
          return Some(paused);
        }
        Demote(m, k, Partial, Some(LargeQuery));
        return Some(Finished(Partial, split));
      }
      if storageFails(readings) { return Some(Raised(Unexpected)); }
      if known.Some? { HonestPage(server, known.value, Request(m, w, start, maxResults), attempts - 1); }
      o := StorePage(m, k, w, body, topic);
    }

    /** Pages through one window, from where its cursor stands. */
    method CollectWindow(m: Mapping, w: Window, k: Key, given: Cursor, skipSucceeded: bool, pageSize: nat, maxPages: Option<nat>)
      returns (o: Outcome)
      requires Valid()
      requires given.partition.None?
      requires k in ShelfOf(db, m).cursors ==> given.updated == Row(db, m, k).updated
      requires Free(ShelfOf(db, m), k)
      requires skipSucceeded && given.status == Succeeded ==> k in ShelfOf(db, m).cursors && Row(db, m, k) == given && given.window == Some(w)
      requires !(skipSucceeded && given.status == Succeeded) ==>
                 Writable(cfg, known, db, m, k, Started(given, w), PapersOf(db, m), touched(db.tick))
      modifies this
      ensures Valid() && old(log) <= log && OnlyCursor(old(db), db, m, k)
      ensures old(apiRequests) <= apiRequests && errors == old(errors) && successfulWindows == old(successfulWindows)
      ensures old(stopped) ==> stopped
      ensures Settled(m, k, w, o)
    {
      hide Good, Writable, Inv, Step, CursorOk, PageOf, OnlyCursor, Free, ShelfOf, Row, Put, Split, Large, Honest;
      PutFrame(db, m, k, Started(given, w), PapersOf(db, m), touched(db.tick));
      if skipSucceeded && given.status == Succeeded {
        return Finished(Succeeded, None);
      }
      Write(m, k, Started(given, w), PapersOf(db, m));
      var topic, pages := topicOf(m), 0;
      while true
        invariant Valid() && old(log) <= log && OnlyCursor(old(db), db, m, k)
        invariant old(apiRequests) <= apiRequests && errors == old(errors) && successfulWindows == old(successfulWindows)
        invariant old(stopped) ==> stopped
        invariant Working(m, k, w)
        decreases cfg.maxRequests - apiRequests
      {
        var reached := Limit(pages, maxPages, topic);
        if reached.Some? {
          ghost var before := db;
          o := Pause(m, k, w, reached.value);
          OnlyCursorAgain(old(db), before, db, m, k);
          return;
        }
        var remaining := cfg.maxResultsPerTopic - TopicResults(topic);
        ghost var before := db;
        var turned := Turn(m, k, w, topic, if pageSize < remaining then pageSize else remaining);
        OnlyCursorAgain(old(db), before, db, m, k);
        if turned.Some? { return turned.value; }
        pages := pages + 1;
      }
    }

    // ---------- Incremental collection of one mapping ----------

    /** The parent is working through a partition of w. */
    ghost predicate Splitting(m: Mapping, w: Window, part: Partition)
      reads this
    {
      && Incremental in ShelfOf(db, m).cursors
      && part.root == w
      && Row(db, m, Incremental).window == Some(w)
      && Row(db, m, Incremental).partition == Some(part)
      && Row(db, m, Incremental).status != Succeeded
    }

    method SavePartition(m: Mapping, w: Window, part: Partition, reason: Reason)
      requires Valid() && Incremental in ShelfOf(db, m).cursors
      requires part.root == w && Row(db, m, Incremental).window == Some(w)
      requires Row(db, m, Incremental).partition == Some(part) || PartitionOk(cfg, ShelfOf(db, m), part, db.tick)
      modifies this`db, this`log
      ensures Valid() && old(log) <= log && OnlyCursor(old(db), db, m, Incremental) && Splitting(m, w, part)
      ensures Row(db, m, Incremental).status == Partial && Row(db, m, Incremental).lastError == Some(reason)
    {
      hide Good, Inv, Step, PartitionOk;
      PartitionWritable(cfg, known, db, m, part, reason, touched(db.tick));
      Write(m, Incremental, WithPartition(Row(db, m, Incremental), part, reason), PapersOf(db, m));
    }

    /** Whatever went wrong with a window, its cursor says so. */
    method Fail(m: Mapping, k: Key, error: ErrorKind)
      requires Valid() && k in ShelfOf(db, m).cursors && Free(ShelfOf(db, m), k)
      modifies this`db, this`log
      ensures Valid() && old(log) <= log && OnlyCursor(old(db), db, m, k)
      ensures k in ShelfOf(db, m).cursors && Row(db, m, k).status == Failed && Row(db, m, k).lastError == Some(Error(error))
      ensures Row(db, m, k).window == old(Row(db, m, k).window)
      ensures Row(db, m, k).partition == old(Row(db, m, k).partition)
    {
      Demote(m, k, Failed, Some(Error(error)));
    }

    /** A split child is replaced by its halves. */
    method SplitChild(m: Mapping, w: Window, part: Partition, halves: (Window, Window)) returns (next: Partition)
      requires Valid() && Splitting(m, w, part) && part.pending != [] && Split(part.pending[0], cfg.minimum) == Some(halves)
      modifies this`db, this`log
      ensures Valid() && old(log) <= log && OnlyCursor(old(db), db, m, Incremental) && Splitting(m, w, next)
      ensures |next.pending| == |part.pending| + 1 && |next.completed| == |part.completed|
    {
      hide Good, Inv, Step, Writable, PartitionOk, OnlyCursor, Free, ShelfOf, Row, Split, Put, Honest;
      SplitPartitionOk(cfg, known, db, m, part, halves);
      next := Partition(w, [halves.0, halves.1] + part.pending[1..], part.completed);
      SavePartition(m, w, next, LargeQuery);
    }

    /** A child that has succeeded is done with. */
    method CompleteChild(m: Mapping, w: Window, part: Partition) returns (next: Partition)
      requires Valid() && Splitting(m, w, part) && part.pending != []
      requires Part(w, part.pending[0]) in ShelfOf(db, m).cursors && Row(db, m, Part(w, part.pending[0])).status == Succeeded
      modifies this`db, this`log
      ensures Valid() && old(log) <= log && OnlyCursor(old(db), db, m, Incremental) && Splitting(m, w, next)
      ensures |next.pending| == |part.pending| - 1 && |next.completed| == |part.completed| + 1
    {
      hide Good, Inv, Step, Writable, PartitionOk, OnlyCursor, Free, ShelfOf, Row, Split, Put, Honest;
      CompletedPartitionOk(cfg, known, db, m, part);
      next := Partition(w, part.pending[1..], part.completed + [part.pending[0]]);
      SavePartition(m, w, next, LargeQuery);
    }

    /** The cursor of the first pending child is collected. */
    method CollectPending(m: Mapping, w: Window, part: Partition, pageSize: nat, maxPages: Option<nat>) returns (o: Outcome)
      requires Valid() && Splitting(m, w, part) && part.pending != []
      modifies this
      ensures Valid() && old(log) <= log && OnlyMapping(old(db), db, m) && Splitting(m, w, part)
      ensures old(apiRequests) <= apiRequests && errors == old(errors) && successfulWindows == old(successfulWindows)
      ensures old(stopped) ==> stopped
      ensures Settled(m, Part(w, part.pending[0]), part.pending[0], o) && Free(ShelfOf(db, m), Part(w, part.pending[0]))
    {
      hide Good, Inv, Step, Writable, PartitionOk, OnlyCursor, OnlyMapping, Free, ShelfOf, Split, Put, ConfigOk, Honest, Large;
      var child := part.pending[0];
      var k := Part(w, child);
      PendingIsFree(cfg, known, db, m);
      LeafStartWritable(cfg, known, db, m, k, child, touched(db.tick));
      PutFrame(db, m, k, Row(db, m, k), PapersOf(db, m), touched(db.tick));
      OnlyMappingStart(db, m);
      o := CollectWindow(m, child, k, Row(db, m, k), true, pageSize, maxPages);
      OnlyCursorIsOnlyMapping(old(db), old(db), db, m, k);
      FreeAgain(old(db), db, m, k);
    }

    /** One pending child. None: the partition has moved on by one child or one split. */
    method CollectChild(m: Mapping, w: Window, part: Partition, pageSize: nat, maxPages: Option<nat>)
      returns (o: Option<Outcome>, next: Partition)
      requires Valid() && Splitting(m, w, part) && part.pending != []
      modifies this
      ensures Valid() && old(log) <= log && OnlyMapping(old(db), db, m) && Splitting(m, w, next)
      ensures old(apiRequests) <= apiRequests && errors == old(errors) && successfulWindows == old(successfulWindows)
      ensures old(stopped) ==> stopped
      ensures o.None? ==> || (|next.pending| == |part.pending| - 1 && |next.completed| == |part.completed| + 1)
                          || (|next.pending| == |part.pending| + 1 && |next.completed| == |part.completed|)
      ensures o.Some? && o.value.Finished? ==> o.value == Finished(Partial, None) && stopped && Row(db, m, Incremental).status == Partial
    {
      hide Good, Inv, Step, Writable, PartitionOk, OnlyCursor, OnlyMapping, Free, ShelfOf, Row, Split, Put, ConfigOk, Honest, Large;
      var k := Part(w, part.pending[0]);
      var outcome := CollectPending(m, w, part, pageSize, maxPages);
      ghost var after := db;
      next, o := part, None;
      if outcome.Raised? {
        Fail(m, k, outcome.error);
        OnlyCursorIsOnlyMapping(old(db), after, db, m, k);
        return Some(outcome), next;
      }
      if outcome.split.Some? {
        next := SplitChild(m, w, part, outcome.split.value);
      } else if outcome.status != Succeeded {
        var reason := Row(db, m, k).lastError;
        SavePartition(m, w, part, if reason.Some? then reason.value else PartitionIncomplete);
        o := Some(Finished(outcome.status, None));
      } else {
        next := CompleteChild(m, w, part);
      }
      OnlyCursorIsOnlyMapping(old(db), after, db, m, Incremental);
    }

    /** Works through the pending children in order. The number of passes is bounded by how
        many minimum windows fit into the root, whatever the server answers. */
    method CollectPartition(m: Mapping, w: Window, part: Partition, pageSize: nat, maxPages: Option<nat>)
      returns (o: Outcome, ghost passes: nat)
      requires Valid() && Splitting(m, w, part)
      modifies this
      ensures Valid() && old(log) <= log && OnlyMapping(old(db), db, m)
      ensures old(apiRequests) <= apiRequests && errors == old(errors) && successfulWindows == old(successfulWindows)
      ensures old(stopped) ==> stopped
      ensures Incremental in ShelfOf(db, m).cursors && Row(db, m, Incremental).window == Some(w)
      ensures o.Finished? ==> o.split.None? && Row(db, m, Incremental).status == o.status && (o.status == Succeeded || (o.status == Partial && stopped))
      ensures o == Finished(Succeeded, None) ==> Row(db, m, Incremental).lastQuery == Some(w)
      ensures passes <= 2 * (w.Length() / cfg.minimum) - 2
    {
      hide Good, Inv, Step, Writable, PartitionOk, OnlyCursor, OnlyMapping, Free, ShelfOf;
      var current := part;
      ghost var most := w.Length() / cfg.minimum;
      passes := 0;
      PartitionFits(cfg, known, db, m);
      OnlyMappingStart(db, m);
      while current.pending != []
        invariant Valid() && old(log) <= log && OnlyMapping(old(db), db, m) && Splitting(m, w, current)
        invariant old(apiRequests) <= apiRequests && errors == old(errors) && successfulWindows == old(successfulWindows)
        invariant old(stopped) ==> stopped
        invariant 2 <= |current.completed| + |current.pending| <= most
        invariant passes + 2 * (most - |current.completed| - |current.pending|) + |current.pending| <= 2 * most - 2
        decreases 2 * (most - |current.completed| - |current.pending|) + |current.pending|
      {
        ghost var before := db;
        var outcome, next := CollectChild(m, w, current, pageSize, maxPages);
        passes := passes + 1;
        OnlyMappingAgain(old(db), before, db, m);
        if outcome.Some? { return outcome.value, passes; }
        PartitionFits(cfg, known, db, m);
        current := next;
      }
      ghost var before := db;
      ClosedWritable(cfg, known, db, m, w, touched(db.tick));
      PutFrame(db, m, Incremental, Closed(Row(db, m, Incremental), w), PapersOf(db, m), touched(db.tick));
      Write(m, Incremental, Closed(Row(db, m, Incremental), w), PapersOf(db, m));
      OnlyCursorIsOnlyMapping(old(db), before, db, m, Incremental);
      o := Finished(Succeeded, None);
    }

    /** The incremental window of one mapping, in one piece or split. */
    method CollectIncrementalMapping(m: Mapping, given: Cursor, w: Window, pageSize: nat, maxPages: Option<nat>)
      returns (o: Outcome, ghost passes: nat)
      requires Valid() && (given, w) == IncrementalWindow(cfg, Row(db, m, Incremental), db.at)
      modifies this
      ensures Valid() && old(log) <= log && OnlyMapping(old(db), db, m)
      ensures old(apiRequests) <= apiRequests && errors == old(errors) && successfulWindows == old(successfulWindows)
      ensures old(stopped) ==> stopped
      ensures Incremental in ShelfOf(db, m).cursors && Row(db, m, Incremental).window == Some(w)
      ensures o.Finished? ==> o.split.None? && Row(db, m, Incremental).status == o.status && (o.status == Succeeded || (o.status == Partial && stopped))
      ensures o == Finished(Succeeded, None) ==> Row(db, m, Incremental).lastQuery == Some(w)
      ensures passes > 0 ==> passes <= 2 * (w.Length() / cfg.minimum) - 2
    {
      hide Good, Inv, Step, Writable, PartitionOk, OnlyCursor, OnlyMapping;
      ParentStartWritable(cfg, known, db, m, touched(db.tick));
      OnlyMappingStart(db, m);
      passes := 0;
      var checkpoint := PartitionCheckpoint(given, w);
      if checkpoint.None? {
        o := CollectWindow(m, w, Incremental, given, false, pageSize, maxPages);
        OnlyCursorIsOnlyMapping(old(db), old(db), db, m, Incremental);
        if o.Raised? || o.split.None? {
          SucceededHasWatermark(cfg, known, db, m);
          return o, 0;
        }
        var part := Partition(w, [o.split.value.0, o.split.value.1], []);
        NewPartitionOk(cfg, ShelfOf(db, m), w, o.split.value, db.tick);
        ghost var before := db;
        SavePartition(m, w, part, LargeQuery);
        OnlyCursorIsOnlyMapping(old(db), before, db, m, Incremental);
        checkpoint := Some(part);
      }
      ghost var before := db;
      o, passes := CollectPartition(m, w, checkpoint.value, pageSize, maxPages);
      OnlyMappingAgain(old(db), before, db, m);
    }

    /** Marks the cursor of the mapping that was written last. */
    method RecordError(m: Mapping, error: ErrorKind)
      requires Valid() && ShelfOf(db, m).cursors != map[]
      modifies this`db, this`log
      ensures Valid() && old(log) <= log && OnlyMapping(old(db), db, m)
    {
      hide Good, Inv, Step, OnlyMapping;
      ghost var any := LatestExists(ShelfOf(db, m), ShelfOf(db, m).cursors.Keys);
      assert any in ShelfOf(db, m).cursors && forall j :: j in ShelfOf(db, m).cursors ==> Row(db, m, j).updated <= Row(db, m, any).updated;
      var k :| k in ShelfOf(db, m).cursors && forall j :: j in ShelfOf(db, m).cursors ==> Row(db, m, j).updated <= Row(db, m, k).updated;
      LatestIsFree(cfg, known, db, m, k);
      OnlyMappingStart(db, m);
      Fail(m, k, error);
      OnlyCursorIsOnlyMapping(old(db), old(db), db, m, k);
    }

    // ---------- Runs ----------

    /** A run begins: a fresh accumulator, and the clock is read. */
    method StartRun(now: Instant)
      requires Valid() && db.at <= now
      modifies this
      ensures Valid() && old(log) <= log && db == old(db).(at := now)
      ensures apiRequests == 0 && errors == 0 && !stopped && successfulWindows == 0 && resultsByTopic == map[]
    {
      apiRequests, rawPayloads, transportFailures := 0, 0, 0;
      errors, stopped, successfulWindows, resultsByTopic := 0, false, 0, map[];
      StartKeeps(cfg, known, db, now);
      db := db.(at := now);
      log := log + [db];
    }

    method CollectOne(m: Mapping, pageSize: nat, maxPages: Option<nat>) returns (verdict: Verdict)
      requires Valid()
      modifies this
      ensures Valid() && old(log) <= log && OnlyMapping(old(db), db, m)
      ensures old(errors) <= errors && (old(stopped) ==> stopped)
      ensures errors == old(errors) && !stopped && verdict != CrashRun ==>
                MappingCollected(db, m, PlannedWindow(cfg, old(db), m, old(db).at))
      ensures verdict == StopRun ==> errors > old(errors) || stopped
    {
      hide Good, Inv, Step, Writable, OnlyMapping, OnlyCursor;
      var (given, w) := IncrementalWindow(cfg, Row(db, m, Incremental), db.at);
      ghost var before := db;
      var outcome, passes := CollectIncrementalMapping(m, given, w, pageSize, maxPages);
      match outcome {
        case Raised(error) =>
          if error == Unexpected { return CrashRun; }
          before := db;
          Fail(m, Incremental, error);
          OnlyCursorIsOnlyMapping(old(db), before, db, m, Incremental);
          before := db;
          assert Incremental in ShelfOf(db, m).cursors;
          RecordError(m, error);
          OnlyMappingAgain(old(db), before, db, m);
          errors := errors + 1;
          return if error == Forbidden then StopRun else GoOn;
        case Finished(status, _) =>
          if status == Succeeded { successfulWindows := successfulWindows + 1; }
          if apiRequests >= cfg.maxRequests {
            stopped := true;
            return StopRun;
          }
          verdict := GoOn;
      }
    }

    /** One incremental run over the selected mappings. A run that reports success has
        collected, for every one of them, the window it planned. */
    method Collect(mappings: seq<Mapping>, now: Instant, pageSize: nat, maxPages: Option<nat>) returns (end: RunEnd)
      requires Valid() && db.at <= now
      requires forall i, j :: 0 <= i < j < |mappings| ==> mappings[i] != mappings[j]
      modifies this
      ensures Valid() && old(log) <= log
      ensures end == Refused <==> mappings == []
      ensures end.Ended? ==> end.status == TerminalStatus(errors, successfulWindows, stopped)
      ensures end == Ended(RunSucceeded) ==>
                forall i :: 0 <= i < |mappings| ==>
                  MappingCollected(db, mappings[i], PlannedWindow(cfg, old(db), mappings[i], now))
      ensures end == Ended(RunSucceeded) && known.Some? && WorldOk(known.value) ==>
                forall i :: 0 <= i < |mappings| ==>
                  var w := PlannedWindow(cfg, old(db), mappings[i], now);
                  Collected(known.value, mappings[i], PapersOf(db, mappings[i]), w.from, w.until)
    {
      hide Good, Inv, Step, Writable, OnlyCursor, MappingCollected, PlannedWindow, Collected, WorldOk;
      if mappings == [] { return Refused; }
      StartRun(now);
      ghost var start := db;
      var i := 0;
      while i < |mappings|
        invariant 0 <= i <= |mappings|
        invariant Valid() && old(log) <= log && db.at == now
        invariant forall j :: i <= j < |mappings| ==> ShelfOf(db, mappings[j]) == ShelfOf(start, mappings[j])
        invariant errors == 0 && !stopped ==>
                    forall j :: 0 <= j < i ==> MappingCollected(db, mappings[j], PlannedWindow(cfg, start, mappings[j], now))
      {
        var up := RuntimeExceeded();
        if up { stopped := true; break; }
        ghost var before := db;
        var m := mappings[i];
        var verdict := CollectOne(m, pageSize, maxPages);
        if verdict == CrashRun { return Crashed; }
        SamePlan(cfg, start, before, m, now);
        forall j | 0 <= j < |mappings| && j != i ensures ShelfOf(db, mappings[j]) == ShelfOf(before, mappings[j]) {}
        forall j | 0 <= j < i && MappingCollected(before, mappings[j], PlannedWindow(cfg, start, mappings[j], now))
          ensures MappingCollected(db, mappings[j], PlannedWindow(cfg, start, mappings[j], now))
        {
          SameShelfCollected(before, db, mappings[j], PlannedWindow(cfg, start, mappings[j], now));
        }
        if verdict == StopRun { break; }
        i := i + 1;
      }
      forall j | 0 <= j < |mappings| ensures PlannedWindow(cfg, start, mappings[j], now) == PlannedWindow(cfg, old(db), mappings[j], now) {
        SamePlan(cfg, start, old(db), mappings[j], now);
      }
      end := Ended(TerminalStatus(errors, successfulWindows, stopped));
      if end == Ended(RunSucceeded) && known.Some? && WorldOk(known.value) {
        forall j | 0 <= j < |mappings|
          ensures var w := PlannedWindow(cfg, old(db), mappings[j], now);
                  Collected(known.value, mappings[j], PapersOf(db, mappings[j]), w.from, w.until)
        {
          CollectedStores(cfg, known.value, db, mappings[j], PlannedWindow(cfg, old(db), mappings[j], now));
        }
      }
    }

    /** One backfill window. An error is recorded and counted, unless it ends the process. */
    method BackfillWindow(m: Mapping, w: Window, pageSize: nat, maxPages: Option<nat>) returns (outcome: Outcome)
      requires Valid() && w.from < w.until
      modifies this
      ensures Valid() && old(log) <= log && OnlyMapping(old(db), db, m)
      ensures old(errors) <= errors && (old(stopped) ==> stopped)
      ensures outcome.Raised? && outcome.error != Unexpected ==> errors > old(errors)
      ensures errors == old(errors) ==> forall v :: v != w && WindowCollected(old(db), m, v) ==> WindowCollected(db, m, v)
      ensures outcome.Finished? && outcome.split.Some? ==> Split(w, cfg.minimum) == outcome.split
      ensures outcome.Finished? && outcome.split.Some? && known.Some? ==> Large(cfg, known, m, w)
      ensures errors == old(errors) && outcome.Finished? ==>
                Filed(db, m, w) && forall v :: v != w ==> (Filed(old(db), m, v) <==> Filed(db, m, v))
      ensures outcome.Finished? && outcome.split.None? ==> stopped || WindowCollected(db, m, w)
    {
      hide Good, Inv, Step, Writable, OnlyMapping, OnlyCursor, WindowCollected;
      var k := Key.Backfill(w);
      OnlyMappingStart(db, m);
      LeafStartWritable(cfg, known, db, m, k, w, touched(db.tick));
      outcome := CollectWindow(m, w, k, Row(db, m, k), true, pageSize, maxPages);
      OnlyCursorIsOnlyMapping(old(db), old(db), db, m, k);
      forall v | v != w && WindowCollected(old(db), m, v) ensures WindowCollected(db, m, v) {
        OtherWindowStays(old(db), db, m, k, v);
      }
      if outcome.Raised? && outcome.error != Unexpected {
        ghost var settled := db;
        assert k in ShelfOf(db, m).cursors;
        RecordError(m, outcome.error);
        OnlyMappingAgain(old(db), settled, db, m);
        errors := errors + 1;
      } else if outcome.Finished? && outcome.status == Succeeded {
        SettledIsCollected(db, m, w);
      }
    }

    /** The windows of one mapping's backfill, each split as often as need be. The ghost result
        lists the windows that were settled, in order. */
    method BackfillOne(m: Mapping, range: Window, windows: seq<Window>, pageSize: nat, maxPages: Option<nat>)
      returns (verdict: Verdict, ghost done: seq<Window>, ghost passes: nat)
      requires Valid() && Tiles(windows, range)
      modifies this
      ensures Valid() && old(log) <= log && OnlyMapping(old(db), db, m)
      ensures old(errors) <= errors && (old(stopped) && errors == old(errors) ==> stopped)
      ensures errors == old(errors) && !stopped && verdict != CrashRun ==> RangeCollected(db, m, range, done)
      ensures verdict == StopRun ==> errors > old(errors) || stopped
      ensures passes <= TotalWeight(windows, cfg.minimum)
      ensures errors == old(errors) && !stopped && verdict != CrashRun ==> PlanFiled(cfg, known, old(db), db, m, windows)
    {
      hide Good, Inv, Step, Writable, OnlyMapping, OnlyCursor, WindowCollected, Tiles, Progress, PlanFiled, RangeCollected, Filed, Large, Honest;
      hide Split, TotalWeight;
      var pending, forbidden := windows, false;
      done, passes := [], 0;
      OnlyMappingStart(db, m);
      NoProgress(cfg, known, db, m, windows);
      assert [] + windows == windows;
      while pending != [] && !forbidden
        invariant Valid() && old(log) <= log && OnlyMapping(old(db), db, m)
        invariant old(errors) <= errors && (old(stopped) ==> stopped)
        invariant forbidden ==> errors > old(errors)
        invariant Tiles(done + pending, range)
        invariant errors == old(errors) && !stopped ==> Progress(cfg, known, old(db), db, m, windows, done, pending)
        invariant passes + TotalWeight(pending, cfg.minimum) <= TotalWeight(windows, cfg.minimum)
        decreases TotalWeight(pending, cfg.minimum)
      {
        var w := pending[0];
        ghost var before := db;
        FirstPendingIsNew(done, pending, range);
        FirstLosesTotalWeight(pending, cfg.minimum);
        var outcome := BackfillWindow(m, w, pageSize, maxPages);
        passes := passes + 1;
        OnlyMappingAgain(old(db), before, db, m);
        if outcome == Raised(Unexpected) { return CrashRun, done, passes; }
        if outcome.Finished? && outcome.split.Some? {
          SplitLosesTotalWeight(pending, cfg.minimum);
          SplitInTiles(done, pending, range, cfg.minimum);
          if errors == old(errors) && !stopped { SplitProgress(cfg, known, old(db), before, db, m, windows, done, pending, outcome.split.value); }
          pending := [outcome.split.value.0, outcome.split.value.1] + pending[1..];
        } else {
          if errors == old(errors) && !stopped { SettledProgress(cfg, known, old(db), before, db, m, windows, done, pending); }
          if outcome.Finished? && outcome.status == Succeeded { successfulWindows := successfulWindows + 1; }
          forbidden := outcome == Raised(Forbidden);
          assert done + pending == (done + [w]) + pending[1..];
          done, pending := done + [w], pending[1..];
        }
      }
      assert pending == [] ==> done + pending == done;
      if errors == old(errors) && !stopped { ProgressMade(cfg, known, old(db), db, m, windows, range, done); }
      if forbidden || apiRequests >= cfg.maxRequests {
        stopped := !forbidden;
        return StopRun, done, passes;
      }
      verdict := GoOn;
    }

    /** A backfill over a range. A run that reports success leaves every mapping's whole range
        tiled by windows whose cursors have succeeded. */
    method Backfill(mappings: seq<Mapping>, range: Window, days: int, now: Instant, pageSize: nat, maxPages: Option<nat>)
      returns (end: RunEnd, ghost planned: seq<Window>)
      requires Valid() && db.at <= now
      requires forall i, j :: 0 <= i < j < |mappings| ==> mappings[i] != mappings[j]
      modifies this
      ensures Valid() && old(log) <= log
      ensures end == Refused <==> range.until <= range.from || mappings == [] || days < 1
      ensures end.Ended? ==> end.status == TerminalStatus(errors, successfulWindows, stopped) && DayWindows(planned, range, days)
      ensures end == Ended(RunSucceeded) ==>
                forall i :: 0 <= i < |mappings| ==>
                  RangeDone(db, mappings[i], range) && PlanFiled(cfg, known, old(db), db, mappings[i], planned)
      ensures end == Ended(RunSucceeded) && known.Some? && WorldOk(known.value) ==>
                forall i :: 0 <= i < |mappings| ==>
                  Collected(known.value, mappings[i], PapersOf(db, mappings[i]), range.from, range.until)
    {
      hide Good, Inv, Step, Writable, OnlyCursor, RangeCollected, RangeDone, Collected, WorldOk, PlanFiled, DayWindows, Honest;
      planned := [];
      if range.until <= range.from || mappings == [] { return Refused, planned; }
      var windows := PartitionWindows(range.from, range.until, days);
      if windows.None? { return Refused, planned; }
      planned := windows.value;
      assert Tiles(planned, range) by { DayWindowsTile(planned, range, days); }
      StartRun(now);
      var i := 0;
      while i < |mappings|
        invariant 0 <= i <= |mappings|
        invariant Valid() && old(log) <= log
        invariant forall j :: i <= j < |mappings| ==> ShelfOf(db, mappings[j]) == ShelfOf(old(db), mappings[j])
        invariant errors == 0 && !stopped ==>
                    forall j :: 0 <= j < i ==>
                      RangeDone(db, mappings[j], range) && PlanFiled(cfg, known, old(db), db, mappings[j], planned)
      {
        var up := RuntimeExceeded();
        if up { stopped := true; break; }
        ghost var before := db;
        var m := mappings[i];
        var verdict, done, passes := BackfillOne(m, range, windows.value, pageSize, maxPages);
        if verdict == CrashRun { return Crashed, planned; }
        forall j | 0 <= j < |mappings| && j != i ensures ShelfOf(db, mappings[j]) == ShelfOf(before, mappings[j]) {}
        if errors == 0 && !stopped {
          forall j | 0 <= j < i ensures RangeDone(db, mappings[j], range) && PlanFiled(cfg, known, old(db), db, mappings[j], planned) {
            SameShelfRange(before, db, mappings[j], range);
            SameShelfPlan(cfg, known, old(db), before, old(db), db, mappings[j], planned);
          }
          RangeIsDone(db, m, range, done);
          SameShelfPlan(cfg, known, before, db, old(db), db, m, planned);
        }
        if verdict == StopRun { break; }
        i := i + 1;
      }
      end := Ended(TerminalStatus(errors, successfulWindows, stopped));
      if end == Ended(RunSucceeded) && known.Some? && WorldOk(known.value) {
        forall j | 0 <= j < |mappings| ensures Collected(known.value, mappings[j], PapersOf(db, mappings[j]), range.from, range.until) {
          RangeStores(cfg, known.value, db, mappings[j], range);
        }
      }
    }
  }
}
