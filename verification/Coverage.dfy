/** Coverage: which stretches of a backfill no window covers, which dates a series of daily
    observations misses, and the incremental rebuild of the coverage table. */
module Coverage {
  import opened Sorting
  import opened Wrappers
  import opened Windows

  // ---------- Gaps between backfill windows ----------

  datatype Cursor = Cursor(from: Option<Instant>, until: Option<Instant>, succeeded: bool)

  predicate Bounded(c: Cursor) {
    c.from.Some? && c.until.Some?
  }

  /** The windows of the cursors that have both ends. */
  function WindowsOf(cs: seq<Cursor>): seq<Window> {
    if cs == [] then []
    else
      var rest, last := WindowsOf(cs[..|cs| - 1]), cs[|cs| - 1];
      if Bounded(last) then rest + [Window(last.from.value, last.until.value)] else rest
  }

  function StartOf(w: Window): Instant { w.from }

  /** In order of their starts; windows that start together keep their order. */
  function SortByFrom(ws: seq<Window>): seq<Window> {
    SortBy(AtMost, StartOf, ws)
  }

  ghost predicate WellOrdered(ws: seq<Window>) {
    forall i :: 0 <= i < |ws| ==> ws[i].from <= ws[i].until
  }

  predicate Covers(w: Window, t: Instant) {
    w.from <= t < w.until
  }

  ghost predicate Covered(ws: seq<Window>, t: Instant) {
    exists i :: 0 <= i < |ws| && Covers(ws[i], t)
  }

  /** Not before the earliest start. */
  ghost predicate Started(ws: seq<Window>, t: Instant) {
    exists i :: 0 <= i < |ws| && ws[i].from <= t
  }

  /** Not before the earliest start and before the latest end. */
  ghost predicate Spanned(ws: seq<Window>, t: Instant) {
    Started(ws, t) && exists i :: 0 <= i < |ws| && t < ws[i].until
  }

  ghost predicate InOrder(gaps: seq<Window>) {
    && (forall k :: 0 <= k < |gaps| ==> gaps[k].from < gaps[k].until)
    && (forall j, k :: 0 <= j < k < |gaps| ==> gaps[j].until <= gaps[k].from)
  }

  /** The gaps are exactly the spanned instants that no window covers. */
  ghost predicate ExactGaps(ws: seq<Window>, gaps: seq<Window>) {
    forall t :: Covered(gaps, t) <==> Spanned(ws, t) && !Covered(ws, t)
  }

  /** end is the latest end among ws. */
  ghost predicate LatestEnd(ws: seq<Window>, end: Instant) {
    && (forall i :: 0 <= i < |ws| ==> ws[i].until <= end)
    && (exists i :: 0 <= i < |ws| && ws[i].until == end)
  }

  lemma CoveredMore(ws: seq<Window>, w: Window, t: Instant)
    ensures Covered(ws + [w], t) <==> Covered(ws, t) || Covers(w, t)
  {
    var more := ws + [w];
    if Covered(ws, t) {
      var i :| 0 <= i < |ws| && Covers(ws[i], t);
      assert Covers(more[i], t);
    }
    if Covers(w, t) { assert Covers(more[|ws|], t); }
  }

  lemma StartedMore(ws: seq<Window>, w: Window, t: Instant)
    ensures Started(ws + [w], t) <==> Started(ws, t) || w.from <= t
  {
    var more := ws + [w];
    if Started(ws, t) {
      var i :| 0 <= i < |ws| && ws[i].from <= t;
      assert more[i].from <= t;
    }
    if w.from <= t { assert more[|ws|].from <= t; }
  }

  lemma SpannedBelow(ws: seq<Window>, end: Instant, t: Instant)
    requires LatestEnd(ws, end)
    ensures Spanned(ws, t) <==> Started(ws, t) && t < end
  {
  }

  /** One step of the sweep: where the next window starts late, the stretch before it is a gap. */
  lemma SweepStep(ws: seq<Window>, w: Window, end: Instant, gaps: seq<Window>)
    requires ws != [] && LatestEnd(ws, end) && ExactGaps(ws, gaps) && WellOrdered(ws + [w])
    requires forall i :: 0 <= i < |ws| ==> ws[i].from <= w.from
    ensures LatestEnd(ws + [w], if end < w.until then w.until else end)
    ensures ExactGaps(ws + [w], if w.from > end then gaps + [Window(end, w.from)] else gaps)
  {
    var more := ws + [w];
    var end' := if end < w.until then w.until else end;
    var gaps' := if w.from > end then gaps + [Window(end, w.from)] else gaps;
    assert LatestEnd(more, end') by {
      var i :| 0 <= i < |ws| && ws[i].until == end;
      assert more[i] == ws[i] && more[|ws|] == w;
    }
    forall t ensures Covered(gaps', t) <==> Spanned(more, t) && !Covered(more, t) {
      CoveredMore(ws, w, t);
      CoveredMore(gaps, Window(end, w.from), t);
      StartedMore(ws, w, t);
      SpannedBelow(ws, end, t);
      SpannedBelow(more, end', t);
      if Spanned(ws, t) && !Covered(ws, t) {
        var i :| 0 <= i < |ws| && t < ws[i].until;
        assert !Covers(ws[i], t);
      }
      assert end <= t < w.from ==> Started(ws, t) && !Covered(ws, t) by {
        assert (ws + [w])[0] == ws[0] && ws[0].until <= end;
      }
    }
  }

  lemma FirstWindow(w: Window)
    requires w.from <= w.until
    ensures LatestEnd([w], w.until) && ExactGaps([w], [])
  {
    assert [w][0].until == w.until;
    forall t ensures Spanned([w], t) ==> Covered([w], t) {
      if Spanned([w], t) { assert Covers([w][0], t); }
    }
  }

  lemma MoreMembers(ws: seq<Window>, more: seq<Window>, t: Instant)
    requires forall w :: w in ws ==> w in more
    ensures (Covered(ws, t) ==> Covered(more, t)) && (Spanned(ws, t) ==> Spanned(more, t))
  {
    forall i | 0 <= i < |ws| ensures exists j :: 0 <= j < |more| && more[j] == ws[i] {
      assert ws[i] in more;
    }
    if Spanned(ws, t) {
      var i :| 0 <= i < |ws| && ws[i].from <= t;
      var j :| 0 <= j < |more| && more[j] == ws[i];
      assert Started(more, t);
    }
  }

  /** Sorting changes neither what is covered nor what is spanned. */
  lemma SortedGaps(ws: seq<Window>, gaps: seq<Window>)
    requires WellOrdered(SortByFrom(ws)) ==> ExactGaps(SortByFrom(ws), gaps) && InOrder(gaps)
    ensures WellOrdered(ws) ==> ExactGaps(ws, gaps) && InOrder(gaps)
  {
    hide Covered, Spanned;
    var sorted := SortByFrom(ws);
    AtMostIsTotal();
    SortByHolds(AtMost, StartOf, ws);
    forall t ensures (Covered(ws, t) <==> Covered(sorted, t)) && (Spanned(ws, t) <==> Spanned(sorted, t)) {
      MoreMembers(ws, sorted, t);
      MoreMembers(sorted, ws, t);
    }
    if WellOrdered(ws) {
      forall i | 0 <= i < |sorted| ensures sorted[i].from <= sorted[i].until { assert sorted[i] in ws; }
    }
  }

  /** What the sweep knows after the windows ws. */
  ghost predicate Swept(ws: seq<Window>, end: Instant, gaps: seq<Window>) {
    WellOrdered(ws) ==>
      LatestEnd(ws, end) && ExactGaps(ws, gaps) && InOrder(gaps) && (gaps != [] ==> gaps[|gaps| - 1].until <= end)
  }

  lemma SweepStart(w: Window)
    ensures Swept([w], w.until, [])
  {
    if WellOrdered([w]) {
      assert [w][0].from <= [w][0].until;
      FirstWindow(w);
    }
  }

  lemma SweepNext(ws: seq<Window>, end: Instant, gaps: seq<Window>, w: Window)
    requires ws != [] && Swept(ws, end, gaps) && forall i :: 0 <= i < |ws| ==> ws[i].from <= w.from
    ensures Swept(ws + [w], if end < w.until then w.until else end, if w.from > end then gaps + [Window(end, w.from)] else gaps)
  {
    if WellOrdered(ws + [w]) {
      forall i | 0 <= i < |ws| ensures ws[i].from <= ws[i].until { assert (ws + [w])[i] == ws[i]; }
      assert (ws + [w])[|ws|] == w;
      hide ExactGaps, LatestEnd;
      SweepStep(ws, w, end, gaps);
    }
  }

  lemma SortedStarts(ws: seq<Window>)
    ensures forall i, j :: 0 <= i < j < |SortByFrom(ws)| ==> SortByFrom(ws)[i].from <= SortByFrom(ws)[j].from
  {
    AtMostIsTotal();
    SortBySorts(AtMost, StartOf, ws);
    forall i, j | 0 <= i < j < |SortByFrom(ws)| ensures SortByFrom(ws)[i].from <= SortByFrom(ws)[j].from {
      assert AtMost(StartOf(SortByFrom(ws)[i]), StartOf(SortByFrom(ws)[j]));
    }
  }

  lemma SweptAll(ws: seq<Window>, end: Instant, gaps: seq<Window>)
    requires SortByFrom(ws) != [] ==> Swept(SortByFrom(ws), end, gaps)
    requires SortByFrom(ws) == [] ==> gaps == []
    ensures WellOrdered(ws) ==> InOrder(gaps) && ExactGaps(ws, gaps)
  {
    SortedGaps(ws, gaps);
  }

  /** The gaps between the windows of the cursors: in order, none empty, and holding exactly
      the instants between the earliest start and the latest end that no window covers. */
  method CursorGaps(cursors: seq<Cursor>) returns (gaps: seq<Window>)
    ensures WellOrdered(WindowsOf(cursors)) ==> InOrder(gaps) && ExactGaps(WindowsOf(cursors), gaps)
  {
    hide SortByFrom, WindowsOf, Swept;
    var windows := SortByFrom(WindowsOf(cursors));
    SortedStarts(WindowsOf(cursors));
    gaps := [];
    if windows == [] {
      SweptAll(WindowsOf(cursors), 0, gaps);
      return;
    }
    var currentEnd := windows[0].until;
    SweepStart(windows[0]);
    assert windows[..1] == [windows[0]];
    for i := 1 to |windows|
      invariant Swept(windows[..i], currentEnd, gaps)
    {
      SweepNext(windows[..i], currentEnd, gaps, windows[i]);
      assert windows[..i + 1] == windows[..i] + [windows[i]];
      if windows[i].from > currentEnd {
        gaps := gaps + [Window(currentEnd, windows[i].from)];
      }
      currentEnd := if currentEnd < windows[i].until then windows[i].until else currentEnd;
    }
    assert windows[..|windows|] == windows;
    SweptAll(WindowsOf(cursors), currentEnd, gaps);
  }

  datatype Status = Unknown | Partial | Empty | Complete

  function Unresolved(cs: seq<Cursor>): nat {
    if cs == [] then 0 else Unresolved(cs[..|cs| - 1]) + if cs[|cs| - 1].succeeded then 0 else 1
  }

  ghost predicate AllSucceeded(cs: seq<Cursor>) {
    forall i :: 0 <= i < |cs| ==> cs[i].succeeded
  }

  lemma {:induction false} NoneUnresolved(cs: seq<Cursor>)
    ensures Unresolved(cs) == 0 <==> AllSucceeded(cs)
  {
    if cs != [] {
      NoneUnresolved(cs[..|cs| - 1]);
      assert cs == cs[..|cs| - 1] + [cs[|cs| - 1]];
    }
  }

  lemma NoGaps(ws: seq<Window>, gaps: seq<Window>)
    requires InOrder(gaps) && ExactGaps(ws, gaps)
    ensures gaps == [] <==> forall t :: Spanned(ws, t) ==> Covered(ws, t)
  {
    if gaps != [] {
      assert Covers(gaps[0], gaps[0].from);
      assert Covered(gaps, gaps[0].from);
    }
  }

  /** There is a cursor, all have succeeded, and together they leave no instant of the span uncovered. */
  ghost predicate Resolved(backfill: seq<Cursor>) {
    && backfill != [] && AllSucceeded(backfill)
    && forall t :: Spanned(WindowsOf(backfill), t) ==> Covered(WindowsOf(backfill), t)
  }

  lemma {:induction false} WindowsAreOfCursors(cs: seq<Cursor>, w: Window)
    ensures w in WindowsOf(cs) <==> Cursor(Some(w.from), Some(w.until), true) in cs || Cursor(Some(w.from), Some(w.until), false) in cs
  {
    if cs != [] {
      WindowsAreOfCursors(cs[..|cs| - 1], w);
      assert cs == cs[..|cs| - 1] + [cs[|cs| - 1]];
    }
  }

  /** A topic's backfill is called complete (or empty, when it found no paper) exactly when there
      is a cursor, all have succeeded, and together they leave no instant of the span uncovered. */
  method ArxivStatus(backfill: seq<Cursor>, papers: nat) returns (status: Status, missing: nat)
    ensures WellOrdered(WindowsOf(backfill)) ==>
              (status == Complete || status == Empty <==> Resolved(backfill))
    ensures status == Complete ==> papers > 0
    ensures status == Empty ==> papers == 0
    ensures status == Unknown <==> backfill == []
    ensures status == Complete || status == Empty ==> missing == 0
    ensures status == Partial ==> missing > 0 && missing >= Unresolved(backfill)
  {
    hide Spanned, Covered, WindowsOf;
    var unresolved := Unresolved(backfill);
    NoneUnresolved(backfill);
    var gaps := CursorGaps(backfill);
    if WellOrdered(WindowsOf(backfill)) { NoGaps(WindowsOf(backfill), gaps); }
    missing := unresolved + |gaps|;
    status :=
      if backfill == [] then Unknown
      else if unresolved > 0 || gaps != [] then Partial
      else if papers == 0 then Empty else Complete;
  }

  // ---------- Missing dates ----------

  type Date = int

  /** Each date once. */
  function Distinct(ds: seq<Date>): seq<Date> {
    if ds == [] then []
    else
      var rest, d := Distinct(ds[..|ds| - 1]), ds[|ds| - 1];
      if d in rest then rest else rest + [d]
  }

  function Same(d: Date): Date { d }

  /** The distinct dates, in order. */
  function SortedDates(ds: seq<Date>): seq<Date> {
    SortBy(AtMost, Same, Distinct(ds))
  }

  ghost predicate Increasing(ds: seq<Date>) {
    forall i, j :: 0 <= i < j < |ds| ==> ds[i] < ds[j]
  }

  lemma {:induction false} DistinctHolds(ds: seq<Date>)
    ensures forall x :: x in Distinct(ds) <==> x in ds
    ensures forall x :: multiset(Distinct(ds))[x] <= 1
  {
    if ds != [] {
      DistinctHolds(ds[..|ds| - 1]);
      assert ds == ds[..|ds| - 1] + [ds[|ds| - 1]];
    }
  }

  lemma NoneTwice(ds: seq<Date>, i: nat, j: nat)
    requires i < j < |ds| && multiset(ds)[ds[i]] <= 1
    ensures ds[i] != ds[j]
  {
    assert ds == ds[..j] + [ds[j]] + ds[j + 1..];
    assert ds[i] in ds[..j];
  }

  lemma SortedDatesSort(ds: seq<Date>)
    ensures Increasing(SortedDates(ds))
    ensures forall x :: x in SortedDates(ds) <==> x in ds
  {
    var sorted := SortedDates(ds);
    AtMostIsTotal();
    DistinctHolds(ds);
    SortBySorts(AtMost, Same, Distinct(ds));
    SortByHolds(AtMost, Same, Distinct(ds));
    hide SortBy;
    forall i, j | 0 <= i < j < |sorted| ensures sorted[i] < sorted[j] {
      NoneTwice(sorted, i, j);
      assert AtMost(Same(sorted[i]), Same(sorted[j]));
    }
  }

  /** The distinct observed dates in [from, until). */
  function DatesWithin(ds: seq<Date>, from: Date, until: Date): set<Date> {
    set d | d in ds && from <= d < until
  }

  function Absent(expected: seq<Date>, observed: seq<Date>): seq<Date> {
    if expected == [] then []
    else
      var rest, d := Absent(expected[..|expected| - 1], observed), expected[|expected| - 1];
      if d in observed then rest else rest + [d]
  }

  lemma OneDayMore(observed: seq<Date>, first: Date, d: Date)
    requires first <= d
    ensures |DatesWithin(observed, first, d + 1)| == |DatesWithin(observed, first, d)| + if d in observed then 1 else 0
  {
    var before := DatesWithin(observed, first, d);
    assert DatesWithin(observed, first, d + 1) == if d in observed then before + {d} else before;
  }

  lemma {:induction false} AbsentMeans(expected: seq<Date>, observed: seq<Date>, first: Date)
    requires forall k :: 0 <= k < |expected| ==> expected[k] == first + k
    ensures Increasing(Absent(expected, observed))
    ensures forall d :: d in Absent(expected, observed) <==> d !in observed && first <= d < first + |expected|
  {
    if expected != [] {
      var rest := Absent(expected[..|expected| - 1], observed);
      AbsentMeans(expected[..|expected| - 1], observed, first);
      forall k | 0 <= k < |rest| ensures rest[k] < first + |expected| - 1 { assert rest[k] in rest; }
    }
  }

  /** A run of days splits into the observed and the absent ones. */
  lemma {:induction false} AbsentSplits(expected: seq<Date>, observed: seq<Date>, first: Date)
    requires forall k :: 0 <= k < |expected| ==> expected[k] == first + k
    ensures |expected| == |DatesWithin(observed, first, first + |expected|)| + |Absent(expected, observed)|
  {
    if expected == [] {
      assert DatesWithin(observed, first, first) == {};
    } else {
      hide DatesWithin;
      AbsentSplits(expected[..|expected| - 1], observed, first);
      OneDayMore(observed, first, first + |expected| - 1);
    }
  }

  ghost predicate FirstAndLast(ds: seq<Date>, a: Date, b: Date) {
    a in ds && b in ds && forall d :: d in ds ==> a <= d <= b
  }

  ghost predicate Inside(ds: seq<Date>, d: Date) {
    (exists a :: a in ds && a < d) && exists b :: b in ds && d < b
  }

  /** Every date strictly inside the observed span that was not observed, in order. With the
      observed ones they make up the whole span. */
  method MissingBetween(dates: seq<Date>) returns (missing: seq<Date>)
    ensures Increasing(missing)
    ensures forall d :: d in missing <==> d !in dates && Inside(dates, d)
    ensures forall a, b :: FirstAndLast(dates, a, b) ==> b - a + 1 == |set d | d in dates| + |missing|
  {
    hide SortedDates, Absent;
    var observed := SortedDates(dates);
    SortedDatesSort(dates);
    if |observed| < 2 {
      FewDates(dates, observed);
      return [];
    }
    var first, last := observed[0], observed[|observed| - 1];
    var expected: seq<Date> := [];
    var cursor := first;
    while cursor <= last
      invariant first <= cursor <= last + 1
      invariant |expected| == cursor - first && forall k :: 0 <= k < |expected| ==> expected[k] == first + k
    {
      expected := expected + [cursor];
      cursor := cursor + 1;
    }
    missing := Absent(expected, observed);
    AbsentSplits(expected, observed, first);
    AbsentMeans(expected, observed, first);
    SpanIs(dates, observed);
    assert DatesWithin(observed, first, last + 1) == set d | d in dates;
  }

  lemma FewDates(dates: seq<Date>, observed: seq<Date>)
    requires |observed| < 2 && forall d :: d in observed <==> d in dates
    ensures forall d :: !Inside(dates, d)
    ensures forall a, b :: FirstAndLast(dates, a, b) ==> b - a + 1 == |set d | d in dates|
  {
    if |observed| == 1 {
      assert forall d :: d in dates <==> d == observed[0];
      assert (set d | d in dates) == {observed[0]};
    }
  }

  lemma SpanIs(dates: seq<Date>, observed: seq<Date>)
    requires Increasing(observed) && |observed| >= 2 && forall d :: d in observed <==> d in dates
    ensures FirstAndLast(dates, observed[0], observed[|observed| - 1])
    ensures forall d :: d !in dates ==> (Inside(dates, d) <==> observed[0] <= d <= observed[|observed| - 1])
  {
  }
}
