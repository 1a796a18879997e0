/** Query windows of the arXiv collector: splitting at the midpoint, cutting a range
    into backfill windows, and the tilings both of them keep.
    An instant is a whole number of microseconds since the epoch. */
module Windows {
  import opened Rounding
  import opened Wrappers

  type Instant = int

  const MINUTE: int := 60_000_000
  const DAY: int := 86_400_000_000

  /** The UTC day an instant falls on; instants before 1970 round down too. */
  function DayOf(t: Instant): int { t / DAY }

  datatype Window = Window(from: Instant, until: Instant) {
    function Length(): int { until - from }
  }

  /** Half of a duration. Microseconds are whole, and a half microsecond goes to the even neighbour. */
  function HalfEven(duration: nat): (half: nat)
    ensures duration == half + half || duration == half + half + 1 || duration + 1 == half + half
  {
    RoundHalfEven(duration, 2)
  }

  function Split(w: Window, minimum: int): Option<(Window, Window)>
    requires 0 < minimum
  {
    if w.Length() <= minimum then None
    else
      var midpoint := w.from + HalfEven(w.Length());
      if midpoint - w.from < minimum || w.until - midpoint < minimum then None
      else Some((Window(w.from, midpoint), Window(midpoint, w.until)))
  }

  /** Ordered, gap-free and non-overlapping, from one end of root to the other. */
  ghost predicate Tiles(ws: seq<Window>, root: Window) {
    && |ws| > 0
    && ws[0].from == root.from
    && ws[|ws| - 1].until == root.until
    && (forall i :: 0 <= i < |ws| ==> ws[i].from < ws[i].until)
    && (forall i, j :: 0 <= i && j == i + 1 && j < |ws| ==> ws[i].until == ws[j].from)
  }

  ghost predicate AtLeast(ws: seq<Window>, minimum: int) {
    forall i :: 0 <= i < |ws| ==> ws[i].Length() >= minimum
  }

  /** A window can be split exactly when it is at least twice the minimum, whichever
      way an odd microsecond is rounded, and the halves then tile it. */
  lemma SplitExactly(w: Window, minimum: int)
    requires 0 < minimum
    ensures Split(w, minimum).Some? <==> w.Length() >= 2 * minimum
    ensures Split(w, minimum).Some? ==>
              var halves := Split(w, minimum).value;
              Tiles([halves.0, halves.1], w) && AtLeast([halves.0, halves.1], minimum)
  {
  }

  /** ws with its window number k replaced by two others. */
  function Replaced(ws: seq<Window>, k: nat, a: Window, b: Window): seq<Window>
    requires k < |ws|
  {
    ws[..k] + [a, b] + ws[k + 1..]
  }

  lemma ReplacedAt(ws: seq<Window>, k: nat, a: Window, b: Window, i: nat)
    requires k < |ws| && i <= |ws|
    ensures |Replaced(ws, k, a, b)| == |ws| + 1
    ensures Replaced(ws, k, a, b)[i] == if i < k then ws[i] else if i == k then a else if i == k + 1 then b else ws[i - 1]
  {
  }

  lemma TwoForOne(ws: seq<Window>, k: nat, a: Window, b: Window, root: Window)
    requires Tiles(ws, root) && k < |ws| && a.from == ws[k].from && b.until == ws[k].until
    requires a.from < a.until == b.from < b.until
    ensures Tiles(Replaced(ws, k, a, b), root)
  {
    hide Replaced;
    var all := Replaced(ws, k, a, b);
    ReplacedAt(ws, k, a, b, 0);
    ReplacedAt(ws, k, a, b, |ws|);
    forall i | 0 <= i < |all| ensures all[i].from < all[i].until { ReplacedAt(ws, k, a, b, i); }
    forall i, j | 0 <= i && j == i + 1 && j < |all| ensures all[i].until == all[j].from {
      ReplacedAt(ws, k, a, b, i);
      ReplacedAt(ws, k, a, b, j);
    }
  }

  lemma TwoLongEnough(ws: seq<Window>, k: nat, a: Window, b: Window, minimum: int)
    requires AtLeast(ws, minimum) && k < |ws| && a.Length() >= minimum && b.Length() >= minimum
    ensures AtLeast(Replaced(ws, k, a, b), minimum)
  {
    hide Replaced;
    ReplacedAt(ws, k, a, b, 0);
    forall i | 0 <= i < |Replaced(ws, k, a, b)| ensures Replaced(ws, k, a, b)[i].Length() >= minimum { ReplacedAt(ws, k, a, b, i); }
  }

  /** Splitting one tile in its place leaves a tiling of the root, of windows that are long enough. */
  lemma SplitTile(ws: seq<Window>, k: nat, minimum: int, root: Window)
    requires 0 < minimum && Tiles(ws, root) && k < |ws| && Split(ws[k], minimum).Some?
    ensures var halves := Split(ws[k], minimum).value;
            && Tiles(Replaced(ws, k, halves.0, halves.1), root)
            && (AtLeast(ws, minimum) ==> AtLeast(Replaced(ws, k, halves.0, halves.1), minimum))
  {
    var halves := Split(ws[k], minimum).value;
    SplitExactly(ws[k], minimum);
    var both := [halves.0, halves.1];
    assert both[0].until == both[1].from;
    hide Split, Replaced;
    TwoForOne(ws, k, halves.0, halves.1, root);
    if AtLeast(ws, minimum) { TwoLongEnough(ws, k, both[0], both[1], minimum); }
  }

  lemma {:induction false} TilesBound(ws: seq<Window>, root: Window, minimum: int)
    requires Tiles(ws, root) && AtLeast(ws, minimum)
    ensures |ws| * minimum <= root.Length()
    ensures root.from < root.until
    decreases |ws|
  {
    if |ws| > 1 {
      TilesBound(ws[1..], Window(ws[1].from, root.until), minimum);
      assert ws[0].Length() >= minimum;
      assert (|ws| - 1) * minimum + minimum == |ws| * minimum;
    }
  }

  /** A tiling of a root of length D holds at most floor(D / minimum) windows. */
  lemma TilesCount(ws: seq<Window>, root: Window, minimum: int)
    requires 0 < minimum && Tiles(ws, root) && AtLeast(ws, minimum)
    ensures |ws| <= root.Length() / minimum
  {
    TilesBound(ws, root, minimum);
    QuotientBound(|ws|, root.Length(), minimum);
  }

  lemma QuotientBound(n: int, d: int, m: int)
    requires 0 < m && n * m <= d
    ensures n <= d / m
  {
    var q := d / m;
    assert d == q * m + d % m;
    assert (q + 1) * m == q * m + m;
    MulCancel(n, q + 1, m);
  }

  lemma MulCancel(a: int, b: int, m: int)
    requires 0 < m && a * m < b * m
    ensures a < b
  {
  }

  /** Every instant of the root lies in one of the tiles. */
  lemma {:induction false} TilesCover(ws: seq<Window>, root: Window, t: Instant) returns (k: nat)
    requires Tiles(ws, root) && root.from <= t <= root.until
    ensures k < |ws| && ws[k].from <= t <= ws[k].until && (t < root.until ==> t < ws[k].until)
    decreases |ws|
  {
    if t < ws[0].until || |ws| == 1 {
      k := 0;
    } else {
      var rest := TilesCover(ws[1..], Window(ws[1].from, root.until), t);
      k := rest + 1;
    }
  }

  /** Tiles are in strictly increasing order, so no two are equal. */
  lemma {:induction false} TilesIncrease(ws: seq<Window>, root: Window, i: nat, j: nat)
    requires Tiles(ws, root) && i < j < |ws|
    ensures ws[i].until <= ws[j].from && ws[i] != ws[j]
    decreases j - i
  {
    if i + 1 < j { TilesIncrease(ws, root, i + 1, j); }
  }

  /** The API only sees whole minutes, so the window asked for is widened to them. */
  predicate InMinutes(w: Window, t: Instant) {
    w.from / MINUTE <= t / MINUTE <= w.until / MINUTE
  }

  /** Dropping the seconds loses nothing: the query still covers the whole closed window,
      so neighbouring windows leave no gap between their queries. */
  lemma MinutesCoverWindow(w: Window, t: Instant)
    requires w.from <= t <= w.until
    ensures InMinutes(w, t)
  {
  }

  /** The windows of a backfill: of the given number of days, only the last one shorter. */
  ghost predicate DayWindows(ws: seq<Window>, root: Window, days: int) {
    && Tiles(ws, root)
    && forall i :: 0 <= i < |ws| ==> ws[i].Length() <= days * DAY && (i + 1 < |ws| ==> ws[i].Length() == days * DAY)
  }

  /** The windows a backfill starts from. */
  method PartitionWindows(from: Instant, until: Instant, days: int) returns (ws: Option<seq<Window>>)
    ensures ws.None? <==> days < 1
    ensures ws.Some? && from < until ==> DayWindows(ws.value, Window(from, until), days)
    ensures ws.Some? && until <= from ==> ws.value == []
  {
    if days < 1 { return None; }
    var windows: seq<Window> := [];
    var cursor := from;
    while cursor < until
      invariant from <= cursor
      invariant from < until ==> cursor <= until
      invariant until <= from ==> cursor == from
      invariant windows == [] <==> cursor == from
      invariant windows != [] ==> Tiles(windows, Window(from, cursor))
      invariant forall i :: 0 <= i < |windows| ==> windows[i].Length() <= days * DAY
      invariant forall i :: 0 <= i < |windows| && (cursor < until || i + 1 < |windows|) ==> windows[i].Length() == days * DAY
      decreases until - cursor
    {
      var boundary := if cursor + days * DAY <= until then cursor + days * DAY else until;
      windows := windows + [Window(cursor, boundary)];
      cursor := boundary;
    }
    ws := Some(windows);
  }

  /** How many passes a window can cost when every answer asks for it to be split. */
  function Weight(w: Window, minimum: int): (passes: nat)
    requires 0 < minimum
    ensures 1 <= passes
  {
    if w.Length() < 2 * minimum then 1
    else
      QuotientBound(2, w.Length(), minimum);
      2 * (w.Length() / minimum) - 1
  }

  function TotalWeight(ws: seq<Window>, minimum: int): nat
    requires 0 < minimum
  {
    if ws == [] then 0 else Weight(ws[0], minimum) + TotalWeight(ws[1..], minimum)
  }

  /** A split is a pass, and both halves together cost at least one pass less. */
  lemma SplitLosesWeight(w: Window, minimum: int)
    requires 0 < minimum && Split(w, minimum).Some?
    ensures var halves := Split(w, minimum).value;
            Weight(halves.0, minimum) + Weight(halves.1, minimum) < Weight(w, minimum)
  {
    SplitExactly(w, minimum);
    var halves := Split(w, minimum).value;
    var a, b := halves.0.Length(), halves.1.Length();
    assert a >= minimum && b >= minimum && a + b == w.Length();
    QuotientsAdd(a, b, minimum);
    WeightBound(halves.0, minimum);
    WeightBound(halves.1, minimum);
  }

  lemma WeightBound(w: Window, minimum: int)
    requires 0 < minimum <= w.Length()
    ensures Weight(w, minimum) <= 2 * (w.Length() / minimum) - 1
  {
  }

  lemma QuotientsAdd(a: int, b: int, m: int)
    requires 0 < m
    ensures a / m + b / m <= (a + b) / m
  {
    assert a == a / m * m + a % m && b == b / m * m + b % m;
    assert (a / m + b / m) * m == a / m * m + b / m * m;
    QuotientBound(a / m + b / m, a + b, m);
  }

  lemma FirstLosesTotalWeight(ws: seq<Window>, minimum: int)
    requires 0 < minimum && ws != []
    ensures TotalWeight(ws[1..], minimum) < TotalWeight(ws, minimum)
  {
  }

  lemma SplitLosesTotalWeight(ws: seq<Window>, minimum: int)
    requires 0 < minimum && ws != [] && Split(ws[0], minimum).Some?
    ensures var halves := Split(ws[0], minimum).value;
            TotalWeight([halves.0, halves.1] + ws[1..], minimum) < TotalWeight(ws, minimum)
  {
    SplitLosesWeight(ws[0], minimum);
    var halves := Split(ws[0], minimum).value;
    var next := [halves.0, halves.1] + ws[1..];
    assert next[1..] == [halves.1] + ws[1..] && next[1..][1..] == ws[1..];
  }
}
