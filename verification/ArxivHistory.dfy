/** What the invariant and the step relation give over whole histories: any number of
    runs, each cut off by a crash after any of its commits. */
module ArxivHistory {
  import opened Wrappers
  import opened Windows
  import opened ArxivModel
  import opened ArxivEdits

  ghost predicate HasParent(db: Db, m: Mapping) {
    m in db.shelves && Incremental in db.shelves[m].cursors
  }

  ghost function Parent(db: Db, m: Mapping): Cursor
    requires HasParent(db, m)
  {
    db.shelves[m].cursors[Incremental]
  }

  /** Every paper of the mapping submitted in [from, until] is stored. */
  ghost predicate Collected(world: World, m: Mapping, papers: set<Paper>, from: Instant, until: Instant) {
    forall p :: p in world.corpus(m) && from <= p.submitted <= until ==> p in papers
  }

  /** A crash drops everything after the last commit; the next run starts there. */
  lemma CrashAndResume(cfg: Config, known: Option<World>, h: History, cut: nat, run: History)
    requires Good(cfg, known, h) && cut < |h|
    requires Good(cfg, known, run) && |run| > 0 && run[0] == h[cut]
    ensures Good(cfg, known, h[..cut + 1] + run[1..])
  {
  }

  lemma StoredWindowCollects(world: World, m: Mapping, papers: set<Paper>, w: Window)
    requires WorldOk(world) && AllStored(Some(world), m, papers, w)
    ensures Collected(world, m, papers, w.from, w.until)
  {
    forall p | p in world.corpus(m) && w.from <= p.submitted <= w.until ensures p in papers {
      MinutesCoverWindow(w, p.submitted);
    }
  }

  /** A SUCCEEDED incremental cursor means what it says, whether its window was paged in
      one piece or split: every paper submitted in the window is stored. */
  lemma SucceededParentCollects(cfg: Config, world: World, db: Db, m: Mapping)
    requires WorldOk(world) && Inv(cfg, Some(world), db)
    requires HasParent(db, m) && Parent(db, m).status == Succeeded
    ensures Collected(world, m, db.shelves[m].papers, Parent(db, m).window.value.from, Parent(db, m).window.value.until)
  {
    var s := db.shelves[m];
    var p := Parent(db, m);
    var w := p.window.value;
    if p.partition.None? {
      StoredWindowCollects(world, m, s.papers, w);
    } else {
      var done := p.partition.value.completed;
      assert done + p.partition.value.pending == done;
      forall paper | paper in world.corpus(m) && w.from <= paper.submitted <= w.until ensures paper in s.papers {
        var k := TilesCover(done, w, paper.submitted);
        assert ChildDone(s, w, done[k], p.updated);
        StoredWindowCollects(world, m, s.papers, done[k]);
      }
    }
  }

  /** The tiling of a split window, and what a completed child is, in every committed state. */
  lemma PartitionAlwaysTiles(cfg: Config, known: Option<World>, h: History, i: nat, m: Mapping)
    requires Good(cfg, known, h) && i < |h| && HasParent(h[i], m) && Parent(h[i], m).partition.Some?
    ensures var p := Parent(h[i], m);
            var part := p.partition.value;
            && Some(part.root) == p.window
            && Tiles(part.completed + part.pending, part.root)
            && (forall j, l :: 0 <= j < l < |part.completed + part.pending| ==>
                  (part.completed + part.pending)[j].until <= (part.completed + part.pending)[l].from)
            && (forall c :: c in part.completed ==>
                  Part(part.root, c) in h[i].shelves[m].cursors
                  && h[i].shelves[m].cursors[Part(part.root, c)].status == Succeeded
                  && h[i].shelves[m].cursors[Part(part.root, c)].window == Some(c))
            && (p.status == Succeeded ==> part.pending == [] && p.lastQuery == Some(part.root))
  {
    var part := Parent(h[i], m).partition.value;
    var all := part.completed + part.pending;
    forall j, l | 0 <= j < l < |all| ensures all[j].until <= all[l].from {
      TilesIncrease(all, part.root, j, l);
    }
    forall c | c in part.completed
      ensures Part(part.root, c) in h[i].shelves[m].cursors
      ensures h[i].shelves[m].cursors[Part(part.root, c)].status == Succeeded
      ensures h[i].shelves[m].cursors[Part(part.root, c)].window == Some(c)
    {
      var j :| 0 <= j < |part.completed| && part.completed[j] == c;
      assert ChildDone(h[i].shelves[m], part.root, part.completed[j], Parent(h[i], m).updated);
    }
  }

  lemma PapersStay(cfg: Config, known: Option<World>, h: History, i: nat, j: nat, m: Mapping)
    requires Good(cfg, known, h) && i <= j < |h| && HasParent(h[i], m)
    ensures HasParent(h[j], m) && h[i].shelves[m].papers <= h[j].shelves[m].papers
    decreases j
  {
    if i < j {
      PapersStay(cfg, known, h, i, j - 1, m);
      assert Step(cfg, h[j - 1], h[j]);
    }
  }

  lemma WatermarkStep(cfg: Config, known: Option<World>, db: Db, db': Db, m: Mapping)
    requires Inv(cfg, known, db) && Inv(cfg, known, db') && Step(cfg, db, db') && HasParent(db, m) && Parent(db, m).lastQuery.Some?
    ensures HasParent(db', m) && Parent(db', m).lastQuery.Some?
    ensures Parent(db, m).lastQuery.value.until <= Parent(db', m).lastQuery.value.until
  {
    assert ShelfStep(cfg, db'.at, db.shelves[m], db'.shelves[m]);
    hide Step;
    assert ShelfOk(cfg, known, db.at, db.tick, m, db.shelves[m]) && ShelfOk(cfg, known, db'.at, db'.tick, m, db'.shelves[m]);
    hide Inv, CursorOk, PartitionOk;
  }

  /** The watermark never goes back. */
  lemma {:induction false} WatermarkNeverFalls(cfg: Config, known: Option<World>, h: History, i: nat, j: nat, m: Mapping)
    requires Good(cfg, known, h) && i <= j < |h| && HasParent(h[i], m) && Parent(h[i], m).lastQuery.Some?
    ensures HasParent(h[j], m) && Parent(h[j], m).lastQuery.Some?
    ensures Parent(h[i], m).lastQuery.value.until <= Parent(h[j], m).lastQuery.value.until
    decreases j
  {
    hide Inv, Step;
    if i < j {
      WatermarkNeverFalls(cfg, known, h, i, j - 1, m);
      WatermarkStep(cfg, known, h[j - 1], h[j], m);
    }
  }

  /** The first committed state that has an incremental cursor has no watermark yet. */
  lemma {:induction false} FirstSeen(cfg: Config, known: Option<World>, h: History, i: nat, m: Mapping) returns (first: nat)
    requires Good(cfg, known, h) && i < |h| && !HasParent(h[0], m) && HasParent(h[i], m)
    ensures first <= i && HasParent(h[first], m) && Parent(h[first], m).lastQuery.None?
    decreases i
  {
    if HasParent(h[i - 1], m) {
      first := FirstSeen(cfg, known, h, i - 1, m);
    } else {
      assert Step(cfg, h[i - 1], h[i]);
      assert ShelfStep(cfg, h[i].at, ShelfOf(h[i - 1], m), h[i].shelves[m]);
      first := i;
    }
  }

  lemma WindowSet(cfg: Config, known: Option<World>, db: Db, m: Mapping)
    requires Inv(cfg, known, db) && HasParent(db, m)
    ensures Parent(db, m).window.Some?
  {
  }

  /** The committed state k has the mapping's cursor SUCCEEDED on the window w, in one piece or
      with all parts of its partition completed. */
  ghost predicate SucceededOn(h: History, k: nat, m: Mapping, w: Window) {
    && k < |h| && HasParent(h[k], m)
    && Parent(h[k], m).status == Succeeded && Parent(h[k], m).window == Some(w) && Parent(h[k], m).lastQuery == Some(w)
  }

  /** By the state i some window around t has succeeded. */
  ghost predicate Reached(h: History, i: nat, m: Mapping, t: Instant) {
    exists k: nat, w :: k <= i && SucceededOn(h, k, m, w) && w.from <= t <= w.until
  }

  /** The succeeded windows up to i, seen from the start of the first one: before any success
      that window is still the one being collected; then their union is everything from there
      to the watermark. */
  ghost predicate UnionSince(cfg: Config, origin: Instant, h: History, i: nat, m: Mapping)
    requires i < |h| && HasParent(h[i], m) && Parent(h[i], m).window.Some?
  {
    && (forall k: nat, w :: k <= i && SucceededOn(h, k, m, w) ==>
          origin <= w.from && Parent(h[i], m).lastQuery.Some? && w.until <= Parent(h[i], m).lastQuery.value.until)
    && match Parent(h[i], m).lastQuery
       case None => Parent(h[i], m).window.value.from == origin
       case Some(q) =>
         && origin <= q.from && origin <= q.until - cfg.overlap
         && (forall t :: origin <= t <= q.until ==> Reached(h, i, m, t))
  }

  /** Nothing has succeeded while there is no watermark. */
  lemma {:induction false} NoneSucceeded(cfg: Config, known: Option<World>, h: History, i: nat, m: Mapping, k: nat, w: Window)
    requires Good(cfg, known, h) && i < |h| && HasParent(h[i], m) && Parent(h[i], m).lastQuery.None? && k <= i
    ensures !SucceededOn(h, k, m, w)
  {
    if SucceededOn(h, k, m, w) { WatermarkNeverFalls(cfg, known, h, k, i, m); }
  }

  lemma UnionStarts(cfg: Config, known: Option<World>, h: History, first: nat, m: Mapping)
    requires Good(cfg, known, h) && first < |h| && HasParent(h[first], m) && Parent(h[first], m).lastQuery.None?
    ensures Parent(h[first], m).window.Some? && UnionSince(cfg, Parent(h[first], m).window.value.from, h, first, m)
  {
    WindowSet(cfg, known, h[first], m);
    forall k: nat, w | k <= first ensures !SucceededOn(h, k, m, w) { NoneSucceeded(cfg, known, h, first, m, k, w); }
  }

  /** One commit: the watermark stays, or moves to the end of a window that has just succeeded
      and that starts no later than the old one. */
  lemma WindowMoves(cfg: Config, known: Option<World>, h: History, i: nat, m: Mapping)
    requires ConfigOk(cfg) && Good(cfg, known, h) && i + 1 < |h| && HasParent(h[i], m)
    ensures HasParent(h[i + 1], m) && Parent(h[i], m).window.Some? && Parent(h[i + 1], m).window.Some?
    ensures var p, p' := Parent(h[i], m), Parent(h[i + 1], m);
            || (p'.lastQuery == p.lastQuery && (p.lastQuery.None? ==> p'.window == p.window))
            || (SucceededOn(h, i + 1, m, p'.window.value) && p'.window == p.window
                && var w := p.window.value;
                   match p.lastQuery
                   case None => w.from == w.until - cfg.overlap
                   case Some(q) => w == q || (w.from == q.until - cfg.overlap && q.until <= w.until))
    ensures Parent(h[i + 1], m).status == Succeeded ==> SucceededOn(h, i + 1, m, Parent(h[i + 1], m).window.value)
  {
    var j := i + 1;
    assert Inv(cfg, known, h[i]) && Inv(cfg, known, h[j]) && Step(cfg, h[i], h[j]);
    assert ShelfStep(cfg, h[j].at, h[i].shelves[m], h[j].shelves[m]);
    assert ParentOk(cfg, h[i].at, h[i].shelves[m], Parent(h[i], m));
    assert ParentOk(cfg, h[j].at, h[j].shelves[m], Parent(h[j], m));
  }
  lemma {:induction false} ReachedStays(h: History, i: nat, j: nat, m: Mapping, t: Instant)
    requires i <= j && Reached(h, i, m, t)
    ensures Reached(h, j, m, t)
  {
    var k: nat, w :| k <= i && SucceededOn(h, k, m, w) && w.from <= t <= w.until;
    assert k <= j && SucceededOn(h, k, m, w);
  }

  /** Where the window just collected begins no later than what was reached ends, it is added. */
  lemma ReachesOn(h: History, i: nat, m: Mapping, origin: Instant, w: Window, t: Instant)
    requires SucceededOn(h, i + 1, m, w) && origin <= t <= w.until
    requires w.from <= t || Reached(h, i, m, t)
    ensures Reached(h, i + 1, m, t)
  {
    if w.from > t { ReachedStays(h, i, i + 1, m, t); }
  }

  lemma UnionGrows(cfg: Config, known: Option<World>, origin: Instant, h: History, i: nat, m: Mapping)
    requires ConfigOk(cfg) && Good(cfg, known, h) && i + 1 < |h| && HasParent(h[i], m) && Parent(h[i], m).window.Some?
    requires UnionSince(cfg, origin, h, i, m)
    ensures HasParent(h[i + 1], m) && Parent(h[i + 1], m).window.Some? && UnionSince(cfg, origin, h, i + 1, m)
  {
    hide Good, Reached, Inv;
    WindowMoves(cfg, known, h, i, m);
    var j, p, p' := i + 1, Parent(h[i], m), Parent(h[i + 1], m);
    forall t | Reached(h, i, m, t) ensures Reached(h, j, m, t) { ReachedStays(h, i, j, m, t); }
    if p'.lastQuery != p.lastQuery {
      forall t | origin <= t <= p'.window.value.until ensures Reached(h, j, m, t) {
        ReachesOn(h, i, m, origin, p'.window.value, t);
      }
    }
  }

  lemma {:induction false} UnionKept(cfg: Config, known: Option<World>, h: History, first: nat, i: nat, m: Mapping)
    requires ConfigOk(cfg) && Good(cfg, known, h) && first <= i < |h|
    requires HasParent(h[first], m) && Parent(h[first], m).lastQuery.None?
    ensures HasParent(h[i], m) && Parent(h[first], m).window.Some? && Parent(h[i], m).window.Some?
    ensures UnionSince(cfg, Parent(h[first], m).window.value.from, h, i, m)
    decreases i
  {
    hide UnionSince, Good;
    UnionStarts(cfg, known, h, first, m);
    if first < i {
      UnionKept(cfg, known, h, first, i - 1, m);
      UnionGrows(cfg, known, Parent(h[first], m).window.value.from, h, i - 1, m);
    }
  }

  /** Watermark safety, whatever the server answers: the interval from the start of a mapping's
      first incremental window to its current watermark is exactly the union of the windows on
      which the cursor has succeeded so far. */
  lemma SucceededWindowsUnion(cfg: Config, known: Option<World>, h: History, first: nat, i: nat, m: Mapping, t: Instant)
    requires ConfigOk(cfg) && Good(cfg, known, h) && first <= i < |h|
    requires HasParent(h[first], m) && Parent(h[first], m).lastQuery.None? && Parent(h[first], m).window.Some?
    requires HasParent(h[i], m) && Parent(h[i], m).lastQuery.Some?
    ensures Reached(h, i, m, t) <==> Parent(h[first], m).window.value.from <= t <= Parent(h[i], m).lastQuery.value.until
  {
    UnionKept(cfg, known, h, first, i, m);
    if Reached(h, i, m, t) {
      var k: nat, w :| k <= i && SucceededOn(h, k, m, w) && w.from <= t <= w.until;
    }
  }

  /** So with a server that honours paging no paper is lost: one submitted anywhere in that
      interval is stored, in every committed state of every history. */
  lemma NoPaperLost(cfg: Config, world: World, h: History, first: nat, i: nat, m: Mapping, paper: Paper)
    requires ConfigOk(cfg) && WorldOk(world) && Good(cfg, Some(world), h) && first <= i < |h|
    requires HasParent(h[first], m) && Parent(h[first], m).lastQuery.None? && Parent(h[first], m).window.Some?
    requires HasParent(h[i], m) && Parent(h[i], m).lastQuery.Some?
    requires paper in world.corpus(m)
    requires Parent(h[first], m).window.value.from <= paper.submitted <= Parent(h[i], m).lastQuery.value.until
    ensures paper in h[i].shelves[m].papers
  {
    SucceededWindowsUnion(cfg, Some(world), h, first, i, m, paper.submitted);
    var k: nat, w :| k <= i && SucceededOn(h, k, m, w) && w.from <= paper.submitted <= w.until;
    SucceededParentCollects(cfg, world, h[k], m);
    PapersStay(cfg, Some(world), h, k, i, m);
  }

  // ---------- A clock that falls back ----------

  /** A run whose planned window is empty: the cursor is started on it, the query is refused, and
      the cursor fails. */
  function RefusedRun(cfg: Config, db: Db, m: Mapping, observed: Instant): Db {
    var (given, w) := IncrementalWindow(cfg, Row(db, m, Incremental), observed);
    var begun := Put(db, m, Incremental, Started(given, w), PapersOf(db, m), true);
    Put(begun, m, Incremental, Row(begun, m, Incremental).(status := Failed, lastError := Some(Error(Collection))), PapersOf(db, m), true)
  }

  function RefusedRuns(cfg: Config, db: Db, m: Mapping, observed: seq<Instant>): Db {
    if observed == [] then db else RefusedRun(cfg, RefusedRuns(cfg, db, m, observed[..|observed| - 1]), m, observed[|observed| - 1])
  }

  /** What the clock assumption buys. After a collected window, a run plans an empty one exactly
      when it reads a time no later than the overlap before the watermark. From then on every
      run, at whatever times, plans this same empty window again: the cursor stays FAILED, the
      watermark where it was, and no paper comes in. */
  lemma {:induction false} ClockWedges(cfg: Config, db: Db, m: Mapping, observed: seq<Instant>, later: Instant)
    requires ConfigOk(cfg) && observed != []
    requires Row(db, m, Incremental).status == Succeeded && Row(db, m, Incremental).lastQuery.Some?
    ensures var c := Row(db, m, Incremental);
            var w := IncrementalWindow(cfg, c, observed[0]).1;
            && (w.until <= w.from <==> observed[0] <= c.lastQuery.value.until - cfg.overlap)
            && (w.until <= w.from ==>
                  var wedged := RefusedRuns(cfg, db, m, observed);
                  && Row(wedged, m, Incremental).status == Failed && Row(wedged, m, Incremental).lastQuery == c.lastQuery
                  && IncrementalWindow(cfg, Row(wedged, m, Incremental), later).1 == w
                  && PapersOf(wedged, m) == PapersOf(db, m))
    decreases |observed|
  {
    if |observed| > 1 {
      ClockWedges(cfg, db, m, observed[..|observed| - 1], observed[|observed| - 1]);
    } else {
      assert observed[..0] == [];
    }
  }

  /** A clock that falls back by less than the overlap plans a window that can be collected, but
      ends before the watermark: collecting it takes the watermark back to that clock reading. */
  lemma ClockRewinds(cfg: Config, c: Cursor, observed: Instant, next: nat, total: nat)
    requires ConfigOk(cfg) && c.status == Succeeded && c.lastQuery.Some? && total <= next
    ensures var (given, w) := IncrementalWindow(cfg, c, observed);
            var collected := AfterPage(Started(given, w), w, next, total);
            && collected.status == Succeeded && collected.lastQuery == Some(w)
            && (w.from < w.until && collected.lastQuery.value.until < c.lastQuery.value.until <==>
                c.lastQuery.value.until - cfg.overlap < observed < c.lastQuery.value.until)
  {
  }
}
