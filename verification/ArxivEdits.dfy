/** The writes the collector commits, and why each of them keeps the invariant. */
module ArxivEdits {
  import opened Wrappers
  import opened Windows
  import opened ArxivModel

  /** The cursor of a key, created on first use. */
  function Row(db: Db, m: Mapping, k: Key): Cursor {
    var s := ShelfOf(db, m);
    if k in s.cursors then s.cursors[k] else NEW_CURSOR
  }

  function PapersOf(db: Db, m: Mapping): set<Paper> {
    ShelfOf(db, m).papers
  }

  /** A write moves updated_at when a column changed; columns outside this model may
      change as well (touched). */
  function Stamped(db: Db, m: Mapping, k: Key, c: Cursor, touched: bool): Cursor {
    if k in ShelfOf(db, m).cursors && Row(db, m, k) == c && !touched then c
    else c.(updated := db.tick)
  }

  function Put(db: Db, m: Mapping, k: Key, c: Cursor, papers: set<Paper>, touched: bool): Db {
    var s := ShelfOf(db, m);
    Db(db.shelves[m := Shelf(s.cursors[k := Stamped(db, m, k, c, touched)], papers)], db.at, db.tick + 1)
  }

  /** k is not a child that the parent's partition counts as completed. */
  ghost predicate Free(s: Shelf, k: Key) {
    k.Part? && Incremental in s.cursors && s.cursors[Incremental].partition.Some?
    && s.cursors[Incremental].partition.value.root == k.root
    ==> k.child !in s.cursors[Incremental].partition.value.completed
  }

  /** What a write must satisfy to keep the invariant. */
  ghost predicate Writable(cfg: Config, known: Option<World>, db: Db, m: Mapping, k: Key, c: Cursor, papers: set<Paper>, touched: bool) {
    && PapersOf(db, m) <= papers
    && c.updated <= db.tick
    && CursorOk(known, m, papers, k, c) && Sized(cfg, known, m, c)
    && Free(ShelfOf(db, m), k)
    && (k == Incremental ==>
          && ParentOk(cfg, db.at, ShelfOf(db, m), Stamped(db, m, k, c, touched))
          && if k in ShelfOf(db, m).cursors then ParentStep(cfg, db.at, Row(db, m, k), c) else c.lastQuery.None?)
  }

  lemma CursorsKeepPapers(known: Option<World>, m: Mapping, papers: set<Paper>, more: set<Paper>, k: Key, c: Cursor)
    requires papers <= more && CursorOk(known, m, papers, k, c)
    ensures CursorOk(known, m, more, k, c)
  {
  }

  lemma WriteKeepsCursors(cfg: Config, known: Option<World>, db: Db, m: Mapping, k: Key, c: Cursor, papers: set<Paper>, touched: bool)
    requires Inv(cfg, known, db) && Writable(cfg, known, db, m, k, c, papers, touched)
    ensures var s' := Put(db, m, k, c, papers, touched).shelves[m];
            forall j :: j in s'.cursors ==>
              CursorOk(known, m, papers, j, s'.cursors[j]) && Sized(cfg, known, m, s'.cursors[j]) && s'.cursors[j].updated < db.tick + 1
  {
    var s := ShelfOf(db, m);
    assert ShelfOk(cfg, known, db.at, db.tick, m, s);
    var s' := Put(db, m, k, c, papers, touched).shelves[m];
    assert CursorOk(known, m, papers, k, Stamped(db, m, k, c, touched));
    forall j | j in s'.cursors && j != k ensures CursorOk(known, m, papers, j, s'.cursors[j]) {
      CursorsKeepPapers(known, m, s.papers, papers, j, s.cursors[j]);
    }
    hide CursorOk, ParentOk, Free;
  }

  /** A partition whose completed children are left alone stays correct. */
  lemma PartitionStays(cfg: Config, s: Shelf, s': Shelf, part: Partition, updated: nat, k: Key)
    requires PartitionOk(cfg, s, part, updated)
    requires k.Part? && k.root == part.root ==> k.child !in part.completed
    requires forall j :: j != k && j in s.cursors ==> j in s'.cursors && s'.cursors[j] == s.cursors[j]
    ensures PartitionOk(cfg, s', part, updated)
  {
    forall i | 0 <= i < |part.completed| ensures ChildDone(s', part.root, part.completed[i], updated) {
      assert ChildDone(s, part.root, part.completed[i], updated);
      assert part.completed[i] in part.completed;
    }
    hide Tiles, AtLeast;
  }

  lemma WriteKeepsParent(cfg: Config, known: Option<World>, db: Db, m: Mapping, k: Key, c: Cursor, papers: set<Paper>, touched: bool)
    requires Inv(cfg, known, db) && Writable(cfg, known, db, m, k, c, papers, touched)
    ensures var s' := Put(db, m, k, c, papers, touched).shelves[m];
            Incremental in s'.cursors ==>
              s'.cursors[Incremental].window.Some? && ParentOk(cfg, db.at, s', s'.cursors[Incremental])
  {
    var s := ShelfOf(db, m);
    assert ShelfOk(cfg, known, db.at, db.tick, m, s);
    var s' := Put(db, m, k, c, papers, touched).shelves[m];
    if Incremental in s'.cursors {
      var p := s'.cursors[Incremental];
      assert p.window.Some? && ParentOk(cfg, db.at, s, p);
      if p.partition.Some? {
        hide PartitionOk, CursorOk;
        PartitionStays(cfg, s, s', p.partition.value, p.updated, k);
      }
    }
  }

  lemma WriteKeepsShelf(cfg: Config, known: Option<World>, db: Db, m: Mapping, k: Key, c: Cursor, papers: set<Paper>, touched: bool)
    requires Inv(cfg, known, db) && Writable(cfg, known, db, m, k, c, papers, touched)
    requires k in ShelfOf(db, m).cursors ==> c.updated == Row(db, m, k).updated
    ensures ShelfOk(cfg, known, db.at, db.tick + 1, m, Put(db, m, k, c, papers, touched).shelves[m])
    ensures ShelfStep(cfg, db.at, ShelfOf(db, m), Put(db, m, k, c, papers, touched).shelves[m])
  {
    hide CursorOk, ParentOk, Free, Inv, Sized;
    WriteKeepsCursors(cfg, known, db, m, k, c, papers, touched);
    WriteKeepsParent(cfg, known, db, m, k, c, papers, touched);
  }

  /** Every write that is Writable leaves a good state one step further. */
  lemma WriteKeeps(cfg: Config, known: Option<World>, db: Db, m: Mapping, k: Key, c: Cursor, papers: set<Paper>, touched: bool)
    requires Inv(cfg, known, db) && Writable(cfg, known, db, m, k, c, papers, touched)
    requires k in ShelfOf(db, m).cursors ==> c.updated == Row(db, m, k).updated
    ensures Inv(cfg, known, Put(db, m, k, c, papers, touched))
    ensures Step(cfg, db, Put(db, m, k, c, papers, touched))
  {
    var db' := Put(db, m, k, c, papers, touched);
    WriteKeepsShelf(cfg, known, db, m, k, c, papers, touched);
    forall n | n in db'.shelves
      ensures ShelfOk(cfg, known, db'.at, db'.tick, n, db'.shelves[n])
      ensures ShelfStep(cfg, db'.at, ShelfOf(db, n), db'.shelves[n])
    {
      if n != m { assert ShelfOk(cfg, known, db.at, db.tick, n, db.shelves[n]); }
    }
  }

  /** Taking a cursor out of SUCCEEDED, or moving between the unfinished states, is safe for
      every cursor except a completed child. */
  lemma DemoteWritable(cfg: Config, known: Option<World>, db: Db, m: Mapping, k: Key, status: Status, error: Option<Reason>, touched: bool)
    requires Inv(cfg, known, db) && k in ShelfOf(db, m).cursors && Free(ShelfOf(db, m), k)
    requires status == Running || status == Partial || status == Failed
    ensures Writable(cfg, known, db, m, k, Row(db, m, k).(status := status, lastError := error), PapersOf(db, m), touched)
  {
  }

  lemma LaterParentKeepsPartition(cfg: Config, s: Shelf, part: Partition, updated: nat, later: nat)
    requires PartitionOk(cfg, s, part, updated) && updated <= later
    ensures PartitionOk(cfg, s, part, later)
  {
  }

  /** Advancing the run-start clock changes nothing else. */
  lemma StartKeeps(cfg: Config, known: Option<World>, db: Db, now: Instant)
    requires Inv(cfg, known, db) && db.at <= now
    ensures Inv(cfg, known, db.(at := now)) && Step(cfg, db, db.(at := now))
  {
  }

  /** Of all the cursors of a mapping, some one was written last. */
  lemma {:induction false} LatestExists(s: Shelf, keys: set<Key>) returns (k: Key)
    requires keys <= s.cursors.Keys && keys != {}
    ensures k in keys && forall j :: j in keys ==> s.cursors[j].updated <= s.cursors[k].updated
    decreases |keys|
  {
    var some :| some in keys;
    var rest := keys - {some};
    if rest == {} {
      k := some;
      assert keys == {some};
    } else {
      var best := LatestExists(s, rest);
      k := if s.cursors[best].updated <= s.cursors[some].updated then some else best;
      forall j | j in keys ensures s.cursors[j].updated <= s.cursors[k].updated {
        assert j == some || j in rest;
      }
    }
  }

  /** The cursor written last is never a completed child: its parent was written after it. */
  lemma LatestIsFree(cfg: Config, known: Option<World>, db: Db, m: Mapping, k: Key)
    requires Inv(cfg, known, db) && k in ShelfOf(db, m).cursors
    requires forall j :: j in ShelfOf(db, m).cursors ==> Row(db, m, j).updated <= Row(db, m, k).updated
    ensures Free(ShelfOf(db, m), k)
  {
  }

  /** How far a page moves the cursor on. */
  function Advance(body: Body): nat
    requires body.Feed?
  {
    if |body.articles| > body.itemsPerPage then |body.articles| else body.itemsPerPage
  }

  /** The cursor a page leaves behind, and the papers with it. */
  function AfterPage(c: Cursor, w: Window, next: nat, total: nat): Cursor {
    if next >= total then
      c.(status := Succeeded, nextStart := next, lastQuery := Some(w), lastError := None)
    else c.(nextStart := next)
  }

  /** Storing an honest page keeps "everything below next_start is stored", and reaching the
      total means that everything is. */
  lemma PageStored(world: World, m: Mapping, papers: set<Paper>, c: Cursor, w: Window, body: Body, next: nat)
    requires body.Feed? && c.window == Some(w)
    requires PageOf(world.results(m, w), c.nextStart, body)
    requires StoredBelow(Some(world), m, papers, w, c.nextStart)
    requires next == c.nextStart + Advance(body) || (Advance(body) == 0 && c.nextStart >= body.total && next == body.total)
    ensures var more := papers + (set a | a in body.articles);
            && StoredBelow(Some(world), m, more, w, next)
            && (next >= body.total ==> AllStored(Some(world), m, more, w))
  {
    var results := world.results(m, w);
    var more := papers + (set a | a in body.articles);
    forall i | 0 <= i < next && i < |results| ensures results[i] in more {
      if i >= c.nextStart {
        var at := i - c.nextStart;
        assert body.articles[at] == results[c.nextStart + at];
        assert body.articles[at] in body.articles;
      }
    }
  }

  lemma PageWritable(cfg: Config, known: Option<World>, db: Db, m: Mapping, k: Key, w: Window, body: Body, next: nat, touched: bool)
    requires Inv(cfg, known, db) && k in ShelfOf(db, m).cursors && Free(ShelfOf(db, m), k)
    requires Row(db, m, k).window == Some(w) && Row(db, m, k).status == Running && Row(db, m, k).partition.None?
    requires body.Feed? && (known.Some? ==> PageOf(known.value.results(m, w), Row(db, m, k).nextStart, body))
    requires Row(db, m, k).nextStart == 0 ==> body.total <= cfg.largeQuery
    requires next == Row(db, m, k).nextStart + Advance(body)
             || (Advance(body) == 0 && Row(db, m, k).nextStart >= body.total && next == body.total)
    ensures Writable(cfg, known, db, m, k, AfterPage(Row(db, m, k), w, next, body.total), PapersOf(db, m) + (set a | a in body.articles), touched)
  {
    var s := ShelfOf(db, m);
    var c := Row(db, m, k);
    assert ShelfOk(cfg, known, db.at, db.tick, m, s);
    assert CursorOk(known, m, s.papers, k, c);
    if known.Some? { PageStored(known.value, m, s.papers, c, w, body, next); }
  }

  // ---------- The incremental cursor and its partition ----------

  /** Saving a partition on the parent. */
  function WithPartition(p: Cursor, part: Partition, reason: Reason): Cursor {
    p.(status := Partial, lastError := Some(reason), partition := Some(part))
  }

  /** Closing a partition whose windows are all completed. */
  function Closed(p: Cursor, w: Window): Cursor {
    p.(status := Succeeded, nextStart := 0, lastQuery := Some(w), lastError := None)
  }

  lemma PartitionWritable(cfg: Config, known: Option<World>, db: Db, m: Mapping, part: Partition, reason: Reason, touched: bool)
    requires Inv(cfg, known, db) && Incremental in ShelfOf(db, m).cursors
    requires Row(db, m, Incremental).window == Some(part.root)
    requires Row(db, m, Incremental).partition == Some(part) || PartitionOk(cfg, ShelfOf(db, m), part, db.tick)
    ensures Writable(cfg, known, db, m, Incremental, WithPartition(Row(db, m, Incremental), part, reason), PapersOf(db, m), touched)
  {
  }

  /** The first split of the root. */
  lemma NewPartitionOk(cfg: Config, s: Shelf, w: Window, halves: (Window, Window), updated: nat)
    requires ConfigOk(cfg) && Split(w, cfg.minimum) == Some(halves)
    ensures PartitionOk(cfg, s, Partition(w, [halves.0, halves.1], []), updated)
  {
  }

  /** The first pending child has its own cursor, which no completed child shares. */
  lemma PendingIsFree(cfg: Config, known: Option<World>, db: Db, m: Mapping)
    requires Inv(cfg, known, db) && Incremental in ShelfOf(db, m).cursors && Row(db, m, Incremental).partition.Some?
    requires Row(db, m, Incremental).partition.value.pending != []
    ensures var part := Row(db, m, Incremental).partition.value;
            && part.pending[0].from < part.pending[0].until
            && Free(ShelfOf(db, m), Part(part.root, part.pending[0]))
  {
    assert ShelfOk(cfg, known, db.at, db.tick, m, ShelfOf(db, m));
    var part := Row(db, m, Incremental).partition.value;
    var all := part.completed + part.pending;
    assert all[|part.completed|] == part.pending[0];
    forall i | 0 <= i < |part.completed| ensures part.completed[i] != part.pending[0] {
      TilesIncrease(all, part.root, i, |part.completed|);
    }
  }

  /** A child that has succeeded moves from pending to completed. */
  lemma CompletedPartitionOk(cfg: Config, known: Option<World>, db: Db, m: Mapping, part: Partition)
    requires Inv(cfg, known, db) && Incremental in ShelfOf(db, m).cursors && Row(db, m, Incremental).partition == Some(part)
    requires part.pending != [] && Part(part.root, part.pending[0]) in ShelfOf(db, m).cursors
    requires Row(db, m, Part(part.root, part.pending[0])).status == Succeeded
    ensures PartitionOk(cfg, ShelfOf(db, m), Partition(part.root, part.pending[1..], part.completed + [part.pending[0]]), db.tick)
  {
    var s := ShelfOf(db, m);
    var child := part.pending[0];
    assert ShelfOk(cfg, known, db.at, db.tick, m, s);
    assert CursorOk(known, m, s.papers, Part(part.root, child), s.cursors[Part(part.root, child)]);
    var completed := part.completed + [child];
    assert completed + part.pending[1..] == part.completed + part.pending;
    forall i | 0 <= i < |completed| ensures ChildDone(s, part.root, completed[i], db.tick) {
      if i < |part.completed| {
        assert ChildDone(s, part.root, part.completed[i], Row(db, m, Incremental).updated);
      }
    }
  }

  lemma StoredPartitionOk(cfg: Config, known: Option<World>, db: Db, m: Mapping, part: Partition)
    requires Inv(cfg, known, db) && Incremental in ShelfOf(db, m).cursors && Row(db, m, Incremental).partition == Some(part)
    ensures PartitionOk(cfg, ShelfOf(db, m), part, db.tick)
  {
    assert ShelfOk(cfg, known, db.at, db.tick, m, ShelfOf(db, m));
    hide PartitionOk, CursorOk;
    LaterParentKeepsPartition(cfg, ShelfOf(db, m), part, Row(db, m, Incremental).updated, db.tick);
  }

  /** A child that is split is replaced by its halves. */
  lemma SplitPartitionOk(cfg: Config, known: Option<World>, db: Db, m: Mapping, part: Partition, halves: (Window, Window))
    requires ConfigOk(cfg) && Inv(cfg, known, db)
    requires Incremental in ShelfOf(db, m).cursors && Row(db, m, Incremental).partition == Some(part)
    requires part.pending != [] && Split(part.pending[0], cfg.minimum) == Some(halves)
    ensures PartitionOk(cfg, ShelfOf(db, m), Partition(part.root, [halves.0, halves.1] + part.pending[1..], part.completed), db.tick)
  {
    hide Inv, Split, Tiles, AtLeast, ChildDone, ShelfOf, Row;
    StoredPartitionOk(cfg, known, db, m, part);
    var all, k := part.completed + part.pending, |part.completed|;
    assert all[k] == part.pending[0];
    SplitTile(all, k, cfg.minimum, part.root);
    assert Replaced(all, k, halves.0, halves.1) == part.completed + ([halves.0, halves.1] + part.pending[1..]);
  }

  /** However often it is split, a partition never holds more than floor(D / minimum) windows. */
  lemma PartitionFits(cfg: Config, known: Option<World>, db: Db, m: Mapping)
    requires ConfigOk(cfg) && Inv(cfg, known, db) && Incremental in ShelfOf(db, m).cursors && Row(db, m, Incremental).partition.Some?
    ensures var part := Row(db, m, Incremental).partition.value;
            2 <= |part.completed| + |part.pending| <= part.root.Length() / cfg.minimum
  {
    assert ShelfOk(cfg, known, db.at, db.tick, m, ShelfOf(db, m));
    var part := Row(db, m, Incremental).partition.value;
    TilesCount(part.completed + part.pending, part.root, cfg.minimum);
  }

  lemma ClosedWritable(cfg: Config, known: Option<World>, db: Db, m: Mapping, w: Window, touched: bool)
    requires Inv(cfg, known, db) && Incremental in ShelfOf(db, m).cursors && Row(db, m, Incremental).window == Some(w)
    requires Row(db, m, Incremental).partition.Some? && Row(db, m, Incremental).partition.value.pending == []
    ensures Writable(cfg, known, db, m, Incremental, Closed(Row(db, m, Incremental), w), PapersOf(db, m), touched)
  {
  }

  // ---------- Starting on a window ----------

  predicate Resumable(c: Cursor) {
    (c.status == Running || c.status == Partial || c.status == Failed) && c.window.Some?
  }

  /** The window a run works on, and the cursor prepared for it. */
  function IncrementalWindow(cfg: Config, c: Cursor, observed: Instant): (Cursor, Window) {
    if Resumable(c) then (c, c.window.value)
    else
      var from := (if c.lastQuery.Some? then c.lastQuery.value.until else observed) - cfg.overlap;
      var w := Window(from, observed);
      (c.(nextStart := 0, window := Some(w), partition := None), w)
  }

  function Started(c: Cursor, w: Window): Cursor {
    c.(status := Running, lastError := None, window := Some(w))
  }

  lemma ParentStartWritable(cfg: Config, known: Option<World>, db: Db, m: Mapping, touched: bool)
    requires ConfigOk(cfg) && Inv(cfg, known, db)
    ensures var (c, w) := IncrementalWindow(cfg, Row(db, m, Incremental), db.at);
            && w.from < w.until
            && (c.partition.Some? ==> c == Row(db, m, Incremental) && c.status != Succeeded && c.partition.value.root == w)
            && (c.partition.None? ==> Writable(cfg, known, db, m, Incremental, Started(c, w), PapersOf(db, m), touched))
  {
  }

  lemma LeafStartWritable(cfg: Config, known: Option<World>, db: Db, m: Mapping, k: Key, w: Window, touched: bool)
    requires Inv(cfg, known, db) && Free(ShelfOf(db, m), k)
    requires w.from < w.until && ((k.Part? && k.child == w) || k == Backfill(w))
    ensures Row(db, m, k).partition.None?
    ensures k in ShelfOf(db, m).cursors ==> Row(db, m, k).window == Some(w)
    ensures k !in ShelfOf(db, m).cursors ==> Row(db, m, k).status == Pending
    ensures Writable(cfg, known, db, m, k, Started(Row(db, m, k), w), PapersOf(db, m), touched)
  {
  }

  /** A succeeded incremental cursor is its own watermark. */
  lemma SucceededHasWatermark(cfg: Config, known: Option<World>, db: Db, m: Mapping)
    requires Inv(cfg, known, db) && Incremental in ShelfOf(db, m).cursors
    ensures Row(db, m, Incremental).status == Succeeded ==> Row(db, m, Incremental).lastQuery == Row(db, m, Incremental).window
  {
  }
}
