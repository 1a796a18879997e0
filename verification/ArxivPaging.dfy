/** What advancing by itemsPerPage does when a page has fewer entries than that. */
module ArxivPaging {
  import opened Wrappers
  import opened Windows
  import opened ArxivModel
  import opened ArxivEdits

  ghost predicate NoneTwice(results: seq<Paper>) {
    forall i, j :: 0 <= i < j < |results| ==> results[i] != results[j]
  }

  /** The page lists results from start on, and says how many there are. It may list fewer than
      itemsPerPage; the parser refuses more. */
  ghost predicate Shows(results: seq<Paper>, start: nat, body: Body) {
    && body.Feed? && body.total == |results|
    && |body.articles| <= body.itemsPerPage
    && start + |body.articles| <= |results|
    && forall i :: 0 <= i < |body.articles| ==> body.articles[i] == results[start + i]
  }

  /** The page is as long as it says, or it ends with the last result. */
  predicate FullPage(start: nat, body: Body)
    requires body.Feed?
  {
    |body.articles| == body.itemsPerPage || start + |body.articles| == body.total
  }

  function Entries(body: Body): set<Paper>
    requires body.Feed?
  {
    set a | a in body.articles
  }

  /** Whatever is stored already, "everything below next_start is stored" holds again after the page. */
  ghost predicate KeepsStored(world: World, m: Mapping, w: Window, start: nat, body: Body)
    requires body.Feed?
  {
    forall papers :: StoredBelow(Some(world), m, papers, w, start)
      ==> StoredBelow(Some(world), m, papers + Entries(body), w, start + Advance(body))
  }

  /** The pages that keep it are those that are full or last, which the page itself tells. They
      are the pages of a server that honours itemsPerPage. */
  lemma ShortPageSkips(world: World, m: Mapping, w: Window, start: nat, body: Body)
    requires NoneTwice(world.results(m, w)) && Shows(world.results(m, w), start, body)
    ensures KeepsStored(world, m, w, start, body) <==> FullPage(start, body)
    ensures KeepsStored(world, m, w, start, body) <==> PageOf(world.results(m, w), start, body)
  {
    var results := world.results(m, w);
    if FullPage(start, body) {
      forall papers | StoredBelow(Some(world), m, papers, w, start)
        ensures StoredBelow(Some(world), m, papers + Entries(body), w, start + Advance(body))
      {
        ListedAreStored(world, m, w, start, body, papers);
      }
    } else {
      var papers := set i | 0 <= i < start :: results[i];
      var missed := start + |body.articles|;
      assert StoredBelow(Some(world), m, papers, w, start);
      assert results[missed] !in papers + Entries(body);
    }
  }

  lemma ListedAreStored(world: World, m: Mapping, w: Window, start: nat, body: Body, papers: set<Paper>)
    requires Shows(world.results(m, w), start, body) && StoredBelow(Some(world), m, papers, w, start)
    ensures StoredBelow(Some(world), m, papers + Entries(body), w, start + |body.articles|)
  {
    var results := world.results(m, w);
    forall i | start <= i < start + |body.articles| ensures results[i] in Entries(body) {
      assert body.articles[i - start] == results[i];
    }
  }

  // ---------- A whole window ----------

  /** Where the cursor stands after these pages. */
  function NextStart(pages: seq<Body>): nat
    requires forall i :: 0 <= i < |pages| ==> pages[i].Feed?
  {
    if pages == [] then 0 else NextStart(pages[..|pages| - 1]) + Advance(pages[|pages| - 1])
  }

  function Gathered(pages: seq<Body>): set<Paper>
    requires forall i :: 0 <= i < |pages| ==> pages[i].Feed?
  {
    if pages == [] then {} else Gathered(pages[..|pages| - 1]) + Entries(pages[|pages| - 1])
  }

  /** The pages of one window, each asked for where the one before left the cursor. */
  ghost predicate Paged(results: seq<Paper>, pages: seq<Body>) {
    && (forall i :: 0 <= i < |pages| ==> pages[i].Feed?)
    && forall i :: 0 <= i < |pages| ==> Shows(results, NextStart(pages[..i]), pages[i])
  }

  lemma PagedPrefix(results: seq<Paper>, pages: seq<Body>, n: nat)
    requires Paged(results, pages) && n <= |pages|
    ensures Paged(results, pages[..n])
  {
    forall i | 0 <= i < n ensures pages[..n][..i] == pages[..i] && pages[..n][i] == pages[i] {}
  }

  ghost predicate Lists(pages: seq<Body>, i: nat, k: nat)
    requires (forall j :: 0 <= j < |pages| ==> pages[j].Feed?) && i < |pages|
  {
    NextStart(pages[..i]) <= k < NextStart(pages[..i]) + |pages[i].articles|
  }

  /** Each result that was gathered is on some page, at its own place. */
  lemma {:induction false} GatheredIsListed(results: seq<Paper>, pages: seq<Body>, k: nat) returns (i: nat)
    requires NoneTwice(results) && Paged(results, pages) && k < |results| && results[k] in Gathered(pages)
    ensures i < |pages| && Lists(pages, i, k)
  {
    var n := |pages| - 1;
    if results[k] in Entries(pages[n]) {
      i := n;
      var a :| 0 <= a < |pages[n].articles| && pages[n].articles[a] == results[k];
      assert results[NextStart(pages[..n]) + a] == results[k];
    } else {
      PagedPrefix(results, pages, n);
      i := GatheredIsListed(results, pages[..n], k);
      assert pages[..n][..i] == pages[..i];
    }
  }

  lemma {:induction false} StartsIncrease(pages: seq<Body>, i: nat, j: nat)
    requires (forall k :: 0 <= k < |pages| ==> pages[k].Feed?) && i < j <= |pages|
    ensures NextStart(pages[..i]) + Advance(pages[i]) <= NextStart(pages[..j])
    decreases j
  {
    assert pages[..j][..j - 1] == pages[..j - 1];
    if i < j - 1 { StartsIncrease(pages, i, j - 1); }
  }

  /** A window that was paged through to its total has all its results exactly when every page
      was full or last. */
  lemma PagingIsCompleteExactly(world: World, m: Mapping, w: Window, pages: seq<Body>)
    requires NoneTwice(world.results(m, w)) && Paged(world.results(m, w), pages) && NextStart(pages) >= |world.results(m, w)|
    ensures AllStored(Some(world), m, Gathered(pages), w) <==>
              forall i :: 0 <= i < |pages| ==> FullPage(NextStart(pages[..i]), pages[i])
  {
    var results := world.results(m, w);
    if AllStored(Some(world), m, Gathered(pages), w) {
      forall i | 0 <= i < |pages| ensures FullPage(NextStart(pages[..i]), pages[i]) {
        if !FullPage(NextStart(pages[..i]), pages[i]) { SkippedForGood(results, pages, i); }
      }
    }
    if forall i :: 0 <= i < |pages| ==> FullPage(NextStart(pages[..i]), pages[i]) {
      assert pages[..|pages|] == pages;
      AllGathered(world, m, w, pages, |pages|);
    }
  }

  lemma SkippedForGood(results: seq<Paper>, pages: seq<Body>, i: nat)
    requires NoneTwice(results) && Paged(results, pages) && i < |pages| && !FullPage(NextStart(pages[..i]), pages[i])
    ensures NextStart(pages[..i]) + |pages[i].articles| < |results|
    ensures results[NextStart(pages[..i]) + |pages[i].articles|] !in Gathered(pages)
  {
    var start := NextStart(pages[..i]);
    assert Shows(results, start, pages[i]);
    var k := start + |pages[i].articles|;
    if results[k] in Gathered(pages) {
      var j := GatheredIsListed(results, pages, k);
      assert Shows(results, NextStart(pages[..j]), pages[j]);
      hide Paged, Shows;
      if j < i { StartsIncrease(pages, j, i); } else if i < j { StartsIncrease(pages, i, j); }
    }
  }

  lemma {:induction false} AllGathered(world: World, m: Mapping, w: Window, pages: seq<Body>, n: nat)
    requires Paged(world.results(m, w), pages) && n <= |pages|
    requires forall i :: 0 <= i < |pages| ==> FullPage(NextStart(pages[..i]), pages[i])
    ensures StoredBelow(Some(world), m, Gathered(pages[..n]), w, NextStart(pages[..n]))
  {
    if n > 0 {
      AllGathered(world, m, w, pages, n - 1);
      assert pages[..n][..n - 1] == pages[..n - 1];
      ListedAreStored(world, m, w, NextStart(pages[..n - 1]), pages[n - 1], Gathered(pages[..n - 1]));
    }
  }

  /** Two results, a page that says two and lists one: the cursor is SUCCEEDED and a paper is lost. */
  lemma ShortPageLoses() returns (world: World, w: Window, body: Body)
    ensures WorldOk(world) && NoneTwice(world.results(0, w)) && Shows(world.results(0, w), 0, body)
    ensures body.total == 2 && body.itemsPerPage == 2 && |body.articles| == 1
    ensures var started := Started(NEW_CURSOR, w);
            && AfterPage(started, w, started.nextStart + Advance(body), body.total).status == Succeeded
            && !AllStored(Some(world), 0, Entries(body), w)
            && exists p :: p in world.corpus(0) && w.from <= p.submitted <= w.until && p !in Entries(body)
  {
    var first, second := Paper(1, 0), Paper(2, 1);
    w := Window(0, MINUTE);
    world := World(m => iset{first, second}, (m, v) => [first, second]);
    body := Feed(2, 0, 2, [first]);
    assert world.results(0, w)[1] == second;
    assert second in world.corpus(0);
  }
}
