/** What the coverage projection makes of a backfill: the cursor of a window that was split is
    never SUCCEEDED, and keeps the topic PARTIAL. */
module BackfillCoverage {
  import opened Wrappers
  import opened Windows
  import opened ArxivModel
  import opened ArxivEdits
  import opened ArxivHistory
  import opened ArxivCollector
  import Coverage

  /** What the projection reads of a cursor. */
  function Read(c: Cursor): Coverage.Cursor {
    if c.window.Some? then Coverage.Cursor(Some(c.window.value.from), Some(c.window.value.until), c.status == Succeeded)
    else Coverage.Cursor(None, None, c.status == Succeeded)
  }

  ghost predicate ReadFrom(c: Coverage.Cursor, db: Db, m: Mapping, w: Window) {
    Filed(db, m, w) && c == Read(Row(db, m, Key.Backfill(w)))
  }

  /** The backfill cursors of these mappings, in any order. */
  ghost predicate Lists(cs: seq<Coverage.Cursor>, db: Db, ms: seq<Mapping>) {
    && (forall c :: c in cs ==> exists m, w :: m in ms && ReadFrom(c, db, m, w))
    && (forall m, w :: m in ms && Filed(db, m, w) ==> Read(Row(db, m, Key.Backfill(w))) in cs)
  }

  lemma FiledCursor(cfg: Config, known: Option<World>, db: Db, m: Mapping, w: Window)
    requires Inv(cfg, known, db) && Filed(db, m, w)
    ensures w.from < w.until
    ensures Read(Row(db, m, Key.Backfill(w))) == Coverage.Cursor(Some(w.from), Some(w.until), Row(db, m, Key.Backfill(w)).status == Succeeded)
    ensures Large(cfg, known, m, w) ==> Row(db, m, Key.Backfill(w)).status != Succeeded
  {
    assert ShelfOk(cfg, known, db.at, db.tick, m, ShelfOf(db, m));
    assert CursorOk(known, m, PapersOf(db, m), Key.Backfill(w), Row(db, m, Key.Backfill(w)));
  }

  /** The windows that are read are those that are filed. */
  lemma ReadWindows(cfg: Config, known: Option<World>, db: Db, ms: seq<Mapping>, cs: seq<Coverage.Cursor>, v: Window)
    requires Inv(cfg, known, db) && Lists(cs, db, ms)
    ensures v in Coverage.WindowsOf(cs) <==> exists m :: m in ms && Filed(db, m, v)
    ensures v in Coverage.WindowsOf(cs) ==> v.from < v.until
  {
    hide Inv, Row;
    Coverage.WindowsAreOfCursors(cs, v);
    if v in Coverage.WindowsOf(cs) {
      var c :| c in cs && c.from == Some(v.from) && c.until == Some(v.until);
      var m, w :| m in ms && ReadFrom(c, db, m, w);
      FiledCursor(cfg, known, db, m, w);
      assert w == v;
    }
    if m :| m in ms && Filed(db, m, v) {
      FiledCursor(cfg, known, db, m, v);
      assert Read(Row(db, m, Key.Backfill(v))) in cs;
    }
  }

  lemma ReadInOrder(cfg: Config, known: Option<World>, db: Db, ms: seq<Mapping>, cs: seq<Coverage.Cursor>)
    requires Inv(cfg, known, db) && Lists(cs, db, ms)
    ensures Coverage.WellOrdered(Coverage.WindowsOf(cs))
  {
    hide Inv, Lists;
    var ws := Coverage.WindowsOf(cs);
    forall i | 0 <= i < |ws| ensures ws[i].from <= ws[i].until { ReadWindows(cfg, known, db, ms, cs, ws[i]); }
  }

  /** In every good state: a large window that has a backfill cursor keeps its topic unresolved. */
  lemma LargeIsUnresolved(cfg: Config, known: Option<World>, db: Db, ms: seq<Mapping>, cs: seq<Coverage.Cursor>, m: Mapping, w: Window)
    requires Inv(cfg, known, db) && Lists(cs, db, ms) && m in ms && Filed(db, m, w) && Large(cfg, known, m, w)
    ensures !Coverage.Resolved(cs)
  {
    hide Inv, Row;
    FiledCursor(cfg, known, db, m, w);
    var i :| 0 <= i < |cs| && cs[i] == Read(Row(db, m, Key.Backfill(w)));
    assert !cs[i].succeeded;
  }

  /** And for good: whatever runs follow. */
  lemma {:induction false} FiledStays(cfg: Config, known: Option<World>, h: History, i: nat, j: nat, m: Mapping, w: Window)
    requires Good(cfg, known, h) && i <= j < |h| && Filed(h[i], m, w)
    ensures Filed(h[j], m, w)
    decreases j
  {
    if i < j {
      FiledStays(cfg, known, h, i, j - 1, m, w);
      assert Step(cfg, h[j - 1], h[j]);
      assert ShelfStep(cfg, h[j].at, ShelfOf(h[j - 1], m), h[j].shelves[m]);
    }
  }

  lemma LargeStaysUnresolved(cfg: Config, known: Option<World>, h: History, i: nat, j: nat, ms: seq<Mapping>, cs: seq<Coverage.Cursor>, m: Mapping, w: Window)
    requires Good(cfg, known, h) && i <= j < |h| && Filed(h[i], m, w) && Large(cfg, known, m, w)
    requires m in ms && Lists(cs, h[j], ms)
    ensures !Coverage.Resolved(cs)
  {
    FiledStays(cfg, known, h, i, j, m, w);
    assert Inv(cfg, known, h[j]);
    hide Inv, Good;
    LargeIsUnresolved(cfg, known, h[j], ms, cs, m, w);
  }

  /** Nothing but planned windows, all collected: resolved. */
  lemma PlannedResolve(cfg: Config, known: Option<World>, db: Db, ms: seq<Mapping>, planned: seq<Window>, range: Window, cs: seq<Coverage.Cursor>)
    requires Inv(cfg, known, db) && Lists(cs, db, ms) && ms != [] && Tiles(planned, range)
    requires forall m, w :: m in ms && Filed(db, m, w) ==> w in planned
    requires forall m, w :: m in ms && w in planned ==> WindowCollected(db, m, w)
    ensures Coverage.Resolved(cs)
  {
    assert planned[0] in planned && ms[0] in ms;
    hide Inv, Row, Tiles;
    forall i | 0 <= i < |cs| ensures cs[i].succeeded {
      assert cs[i] in cs;
      var m, w :| m in ms && ReadFrom(cs[i], db, m, w);
      FiledCursor(cfg, known, db, m, w);
      assert WindowCollected(db, m, w);
    }
    var ws := Coverage.WindowsOf(cs);
    forall t | Coverage.Spanned(ws, t) ensures Coverage.Covered(ws, t) { SpannedIsCovered(cfg, known, db, ms, planned, range, cs, t); }
    assert WindowCollected(db, ms[0], planned[0]) && Filed(db, ms[0], planned[0]);
  }

  lemma SpannedIsCovered(cfg: Config, known: Option<World>, db: Db, ms: seq<Mapping>, planned: seq<Window>, range: Window, cs: seq<Coverage.Cursor>, t: Instant)
    requires Inv(cfg, known, db) && Lists(cs, db, ms) && ms != [] && Tiles(planned, range)
    requires forall m, w :: m in ms && Filed(db, m, w) ==> w in planned
    requires forall m, w :: m in ms && w in planned ==> WindowCollected(db, m, w)
    requires Coverage.Spanned(Coverage.WindowsOf(cs), t)
    ensures Coverage.Covered(Coverage.WindowsOf(cs), t)
  {
    hide Inv, Row, Lists;
    var ws := Coverage.WindowsOf(cs);
    var i, j :| 0 <= i < |ws| && ws[i].from <= t && 0 <= j < |ws| && t < ws[j].until;
    ReadWindows(cfg, known, db, ms, cs, ws[i]);
    ReadWindows(cfg, known, db, ms, cs, ws[j]);
    TilesWithin(planned, range, ws[i]);
    TilesWithin(planned, range, ws[j]);
    var k := TilesCover(planned, range, t);
    assert ms[0] in ms && planned[k] in planned && WindowCollected(db, ms[0], planned[k]) && Filed(db, ms[0], planned[k]);
    ReadWindows(cfg, known, db, ms, cs, planned[k]);
    var l :| 0 <= l < |ws| && ws[l] == planned[k];
    assert Coverage.Covers(ws[l], t);
  }

  lemma TilesWithin(ws: seq<Window>, root: Window, w: Window)
    requires Tiles(ws, root) && w in ws
    ensures root.from <= w.from && w.until <= root.until
  {
    var i :| 0 <= i < |ws| && ws[i] == w;
    if 0 < i { TilesIncrease(ws, root, 0, i); }
    if i < |ws| - 1 { TilesIncrease(ws, root, i, |ws| - 1); }
  }

  lemma SmallPlanFiles(cfg: Config, known: Option<World>, before: Db, db: Db, m: Mapping, planned: seq<Window>, w: Window)
    requires known.Some? && PlanFiled(cfg, known, before, db, m, planned) && NoneLarge(cfg, known, m, planned)
    requires Filed(before, m, w) ==> w in planned
    ensures w in planned ==> WindowCollected(db, m, w)
    ensures Filed(db, m, w) ==> w in planned
  {
    if i :| 0 <= i < |planned| && planned[i] == w { assert WindowCollected(db, m, planned[i]); }
  }

  lemma LargePlanned(cfg: Config, known: Option<World>, before: Db, db: Db, m: Mapping, planned: seq<Window>) returns (w: Window)
    requires PlanFiled(cfg, known, before, db, m, planned) && !NoneLarge(cfg, known, m, planned)
    ensures Filed(db, m, w) && Large(cfg, known, m, w)
  {
    var i :| 0 <= i < |planned| && Large(cfg, known, m, planned[i]);
    w := planned[i];
  }

  /** After a successful backfill, where no other windows had been backfilled before, the topic is
      complete (or empty) exactly when no planned window of a mapping is a large one. */
  lemma BackfillResolvesExactly(cfg: Config, known: Option<World>, before: Db, db: Db, ms: seq<Mapping>, planned: seq<Window>, range: Window,
                                cs: seq<Coverage.Cursor>)
    requires known.Some? && Inv(cfg, known, db) && Lists(cs, db, ms) && ms != [] && Tiles(planned, range)
    requires forall m :: m in ms ==> PlanFiled(cfg, known, before, db, m, planned)
    requires forall m, w :: m in ms && Filed(before, m, w) ==> w in planned
    ensures Coverage.WellOrdered(Coverage.WindowsOf(cs))
    ensures Coverage.Resolved(cs) <==> forall m :: m in ms ==> NoneLarge(cfg, known, m, planned)
  {
    hide Inv, Row, Lists, Large, Tiles, WindowCollected, PlanFiled, NoneLarge, Filed;
    hide Coverage.Resolved, Coverage.WellOrdered;
    ReadInOrder(cfg, known, db, ms, cs);
    if forall m :: m in ms ==> NoneLarge(cfg, known, m, planned) {
      forall m, w | m in ms ensures (w in planned ==> WindowCollected(db, m, w)) && (Filed(db, m, w) ==> w in planned) {
        SmallPlanFiles(cfg, known, before, db, m, planned, w);
      }
      PlannedResolve(cfg, known, db, ms, planned, range, cs);
    } else {
      var m :| m in ms && !NoneLarge(cfg, known, m, planned);
      var w := LargePlanned(cfg, known, before, db, m, planned);
      LargeIsUnresolved(cfg, known, db, ms, cs, m, w);
    }
  }
}
