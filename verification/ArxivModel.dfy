/** The durable state of the arXiv collector, what must hold in every committed
    state, and what may change from one commit to the next. */
module ArxivModel {
  import opened Wrappers
  import opened Windows

  type Mapping = nat

  datatype Paper = Paper(id: nat, submitted: Instant)

  datatype Status = Pending | Running | Partial | Succeeded | Failed

  /** Which cursor of a mapping: the unique key beside the mapping. A child window
      of a split incremental window is filed under its root. */
  datatype Key =
    | Incremental
    | Part(root: Window, child: Window)
    | Backfill(window: Window)

  datatype Reason =
    | MaxRequests | MaxRuntime | MaxPages | MaxResults | MinimumPartition | EmptyPage
    | LargeQuery | PartitionIncomplete
    | Error(kind: ErrorKind)

  /** Forbidden, Client, Collection and Parse errors are caught by a run; an
      Unexpected one (a database or file-system failure) ends it. */
  datatype ErrorKind = Forbidden | Client | Collection | Parse | Unexpected

  datatype Partition = Partition(root: Window, pending: seq<Window>, completed: seq<Window>)

  datatype Cursor = Cursor(
    status: Status,
    window: Option<Window>,
    nextStart: nat,
    lastQuery: Option<Window>,
    partition: Option<Partition>,
    lastError: Option<Reason>,
    updated: nat)

  const NEW_CURSOR := Cursor(Pending, None, 0, None, None, None, 0)

  /** The rows that belong to one mapping. */
  datatype Shelf = Shelf(cursors: map<Key, Cursor>, papers: set<Paper>)

  /** at: the latest run start the database has seen. tick: the next update stamp. */
  datatype Db = Db(shelves: map<Mapping, Shelf>, at: Instant, tick: nat)

  datatype Config = Config(
    overlap: int,
    minimum: int,
    largeQuery: nat,
    maxRequests: nat,
    maxResultsPerTopic: nat,
    retryAttempts: nat)

  ghost predicate ConfigOk(cfg: Config) {
    0 < cfg.overlap && 0 < cfg.minimum && 1 <= cfg.retryAttempts <= 5
  }

  // ---------- What the API holds ----------

  /** corpus: the papers that match a mapping. results: the answer to a window's
      query, in the order in which it is paged. Both are fixed. */
  datatype World = World(corpus: Mapping -> iset<Paper>, results: (Mapping, Window) -> seq<Paper>)

  ghost predicate WorldOk(world: World) {
    forall m: Mapping, w: Window, p: Paper ::
      p in world.corpus(m) && InMinutes(w, p.submitted) ==> p in world.results(m, w)
  }

  datatype Request = Request(mapping: Mapping, window: Window, start: nat, maxResults: nat)

  datatype Body = Malformed | Feed(total: nat, start: nat, itemsPerPage: nat, articles: seq<Paper>)

  datatype Answer = TransportFailure | Http(code: nat, body: Body)

  /** A server that honours start and itemsPerPage: a page that starts where it was asked
      to start holds the next itemsPerPage results, or all that are left. */
  ghost predicate Honest(server: (Request, nat) -> Answer, world: World) {
    forall request: Request, attempt: nat ::
      var answer := server(request, attempt);
      answer.Http? && answer.body.Feed? && answer.body.start == request.start ==>
        PageOf(world.results(request.mapping, request.window), request.start, answer.body)
  }

  ghost predicate PageOf(results: seq<Paper>, start: nat, body: Body)
    requires body.Feed?
  {
    && body.total == |results|
    && |body.articles| == (if start >= |results| then 0
                           else if start + body.itemsPerPage <= |results| then body.itemsPerPage
                           else |results| - start)
    && forall i :: 0 <= i < |body.articles| && start + i < |results| ==> body.articles[i] == results[start + i]
  }

  // ---------- Invariant of every committed state ----------

  /** Nothing is known about the server when known is None: the control part of the
      invariant holds then as well. */
  ghost predicate StoredBelow(known: Option<World>, m: Mapping, papers: set<Paper>, w: Window, n: nat) {
    known.Some? ==>
      var results := known.value.results(m, w);
      forall i :: 0 <= i < n && i < |results| ==> results[i] in papers
  }

  ghost predicate AllStored(known: Option<World>, m: Mapping, papers: set<Paper>, w: Window) {
    known.Some? ==>
      var results := known.value.results(m, w);
      forall i :: 0 <= i < |results| ==> results[i] in papers
  }

  ghost predicate CursorOk(known: Option<World>, m: Mapping, papers: set<Paper>, k: Key, c: Cursor) {
    && c.status != Pending
    && c.window.Some? && c.window.value.from < c.window.value.until
    && (k.Part? ==> c.window.value == k.child)
    && (k.Backfill? ==> c.window.value == k.window)
    && (k != Incremental ==> c.partition.None?)
    && StoredBelow(known, m, papers, c.window.value, c.nextStart)
    && (c.status == Succeeded && c.partition.None? ==> AllStored(known, m, papers, c.window.value))
  }

  /** The query of the window has more results than are paged through in one piece. */
  ghost predicate Large(cfg: Config, known: Option<World>, m: Mapping, w: Window) {
    known.Some? && |known.value.results(m, w)| > cfg.largeQuery
  }

  /** A window that has been paged into, or through, is not a large one. */
  ghost predicate Sized(cfg: Config, known: Option<World>, m: Mapping, c: Cursor) {
    c.window.Some? && (c.nextStart > 0 || (c.status == Succeeded && c.partition.None?)) ==> !Large(cfg, known, m, c.window.value)
  }

  /** The child window c of the partition has been collected for good: its cursor has
      succeeded on exactly these bounds, and the parent was written after it. */
  ghost predicate ChildDone(s: Shelf, root: Window, c: Window, parentUpdated: nat) {
    && Part(root, c) in s.cursors
    && s.cursors[Part(root, c)].status == Succeeded
    && s.cursors[Part(root, c)].window == Some(c)
    && s.cursors[Part(root, c)].updated < parentUpdated
  }

  ghost predicate PartitionOk(cfg: Config, s: Shelf, part: Partition, parentUpdated: nat) {
    && 2 <= |part.completed + part.pending|
    && Tiles(part.completed + part.pending, part.root)
    && AtLeast(part.completed + part.pending, cfg.minimum)
    && (forall i :: 0 <= i < |part.completed| ==> ChildDone(s, part.root, part.completed[i], parentUpdated))
  }

  /** The incremental cursor: its window starts `overlap` before the watermark, or is
      the window the watermark came from. */
  ghost predicate ParentOk(cfg: Config, at: Instant, s: Shelf, p: Cursor)
    requires p.window.Some?
  {
    var w := p.window.value;
    && w.from < w.until <= at
    && (p.lastQuery.None? ==> w.from == w.until - cfg.overlap)
    && (p.lastQuery.Some? ==>
          var q := p.lastQuery.value;
          w == q || (w.from == q.until - cfg.overlap && q.until <= w.until))
    && (p.status == Succeeded ==> p.lastQuery == Some(w) && (p.partition.Some? ==> p.partition.value.pending == []))
    && (p.partition.Some? ==> p.partition.value.root == w && PartitionOk(cfg, s, p.partition.value, p.updated))
  }

  ghost predicate ShelfOk(cfg: Config, known: Option<World>, at: Instant, tick: nat, m: Mapping, s: Shelf) {
    && (forall k :: k in s.cursors ==>
          CursorOk(known, m, s.papers, k, s.cursors[k]) && Sized(cfg, known, m, s.cursors[k]) && s.cursors[k].updated < tick)
    && (Incremental in s.cursors ==> ParentOk(cfg, at, s, s.cursors[Incremental]))
  }

  ghost predicate Inv(cfg: Config, known: Option<World>, db: Db) {
    forall m :: m in db.shelves ==> ShelfOk(cfg, known, db.at, db.tick, m, db.shelves[m])
  }

  // ---------- One commit ----------

  ghost predicate ParentStep(cfg: Config, at: Instant, p: Cursor, p': Cursor) {
    // The watermark stays, and the window only moves on once it has been collected
    || (p'.lastQuery == p.lastQuery
        && (p'.window == p.window || (p.status == Succeeded && p'.window.Some? && p'.window.value.until == at)))
    // or the watermark moves to the end of the window that was being collected.
    || (p'.status == Succeeded && p'.window == p.window && p'.lastQuery == p'.window)
  }

  ghost predicate ShelfStep(cfg: Config, at: Instant, s: Shelf, s': Shelf) {
    && s.papers <= s'.papers
    && s.cursors.Keys <= s'.cursors.Keys
    && (Incremental in s'.cursors ==>
          if Incremental in s.cursors
          then ParentStep(cfg, at, s.cursors[Incremental], s'.cursors[Incremental])
          else s'.cursors[Incremental].lastQuery.None?)
  }

  const EMPTY_SHELF := Shelf(map[], {})

  function ShelfOf(db: Db, m: Mapping): Shelf {
    if m in db.shelves then db.shelves[m] else EMPTY_SHELF
  }

  ghost predicate Step(cfg: Config, db: Db, db': Db) {
    && db.at <= db'.at
    && db.tick <= db'.tick
    && db.shelves.Keys <= db'.shelves.Keys
    && forall m :: m in db'.shelves ==> ShelfStep(cfg, db'.at, ShelfOf(db, m), db'.shelves[m])
  }

  /** The committed states of a stretch of history, in order. */
  type History = seq<Db>

  ghost predicate Good(cfg: Config, known: Option<World>, h: History) {
    && (forall i :: 0 <= i < |h| ==> Inv(cfg, known, h[i]))
    && (forall i, j :: 0 <= i && j == i + 1 && j < |h| ==> Step(cfg, h[i], h[j]))
  }
}
