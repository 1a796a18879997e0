/** The category tree: the loader's checks on parent links, and the two independent walks
    over the tree that the web client relies on. */
module CategoryForest {
  import opened Wrappers

  /** Slugs are never empty, so a client's truth test on a parent is a null test. */
  type Slug = s: string | s != "" witness "a"

  /** name: normalized. */
  datatype Category = Category(slug: Slug, parent: Option<Slug>, name: string)

  datatype Topic = Topic(id: nat, category: Option<Slug>, active: bool, priority: int, name: string, slug: string)

  /** Parent links by slug; a later category of the same slug replaces an earlier one. */
  type Parents = map<Slug, Option<Slug>>

  function BySlug(cs: seq<Category>): Parents {
    if cs == [] then map[] else BySlug(cs[..|cs| - 1])[cs[|cs| - 1].slug := cs[|cs| - 1].parent]
  }

  lemma {:induction false} Listed(cs: seq<Category>, i: nat)
    requires i < |cs|
    ensures cs[i].slug in BySlug(cs)
  {
    if i < |cs| - 1 { Listed(cs[..|cs| - 1], i); }
  }

  lemma {:induction false} Shown(cs: seq<Category>, s: Slug) returns (i: nat)
    requires s in BySlug(cs)
    ensures i < |cs| && cs[i].slug == s && cs[i].parent == BySlug(cs)[s]
  {
    if cs[|cs| - 1].slug == s { i := |cs| - 1; } else { i := Shown(cs[..|cs| - 1], s); }
  }

  predicate UniqueSlugs(cs: seq<Category>) {
    forall i, j :: 0 <= i < j < |cs| ==> cs[i].slug != cs[j].slug
  }

  predicate UniqueNames(cs: seq<Category>) {
    forall i, j :: 0 <= i < j < |cs| ==> cs[i].name != cs[j].name
  }

  lemma UniqueBySlug(cs: seq<Category>, i: nat)
    requires UniqueSlugs(cs) && i < |cs|
    ensures cs[i].slug in BySlug(cs) && BySlug(cs)[cs[i].slug] == cs[i].parent
  {
    Listed(cs, i);
    var j := Shown(cs, cs[i].slug);
  }

  // ---------- Ancestors ----------

  /** The category n steps up from s, while there is one. */
  function Ancestor(ps: Parents, s: Slug, n: nat): (a: Option<Slug>)
    ensures a.Some? ==> a.value in ps
  {
    if n == 0 then (if s in ps then Some(s) else None)
    else
      match Ancestor(ps, s, n - 1)
      case None => None
      case Some(a) => if ps[a].Some? && ps[a].value in ps then ps[a] else None
  }

  ghost predicate IsAncestor(ps: Parents, r: Slug, s: Slug) {
    exists n: nat :: Ancestor(ps, s, n) == Some(r)
  }

  /** Some parent chain from s comes back to a category it has passed. */
  ghost predicate Repeats(ps: Parents, s: Slug) {
    exists i: nat, j: nat :: i < j && Ancestor(ps, s, i).Some? && Ancestor(ps, s, i) == Ancestor(ps, s, j)
  }

  /** A chain that ends stays ended. */
  lemma {:induction false} ChainEnds(ps: Parents, s: Slug, n: nat, m: nat)
    requires n <= m && Ancestor(ps, s, n).None?
    ensures Ancestor(ps, s, m).None?
    decreases m
  {
    if n < m { ChainEnds(ps, s, n, m - 1); }
  }

  /** One step up first, then the rest. */
  lemma {:induction false} AncestorOfParent(ps: Parents, s: Slug, n: nat)
    requires s in ps && ps[s].Some? && ps[s].value in ps
    ensures Ancestor(ps, s, n + 1) == Ancestor(ps, ps[s].value, n)
  {
    if n == 0 {
      assert Ancestor(ps, s, 0) == Some(s);
    } else {
      AncestorOfParent(ps, s, n - 1);
    }
  }

  /** path holds the first categories of the chain from s, none of them twice. */
  ghost predicate IsChain(ps: Parents, s: Slug, path: seq<Slug>) {
    && (forall i :: 0 <= i < |path| ==> Ancestor(ps, s, i) == Some(path[i]))
    && (forall i, j :: 0 <= i < j < |path| ==> path[i] != path[j])
  }

  lemma {:induction false} DistinctFits(path: seq<Slug>, slugs: set<Slug>)
    requires forall i, j :: 0 <= i < j < |path| ==> path[i] != path[j]
    requires forall i :: 0 <= i < |path| ==> path[i] in slugs
    ensures |path| <= |slugs|
  {
    if path != [] {
      var n := |path| - 1;
      DistinctFits(path[..n], slugs - {path[n]});
    }
  }

  /** A chain has at most as many categories as there are. */
  lemma ChainFits(ps: Parents, s: Slug, path: seq<Slug>)
    requires IsChain(ps, s, path)
    ensures |path| <= |ps|
  {
    forall i | 0 <= i < |path| ensures path[i] in ps.Keys {
      assert Ancestor(ps, s, i) == Some(path[i]);
    }
    DistinctFits(path, ps.Keys);
  }

  /** A chain that ends without a repetition never repeats. */
  lemma EndedChain(ps: Parents, s: Slug, path: seq<Slug>)
    requires IsChain(ps, s, path) && Ancestor(ps, s, |path|).None?
    ensures !Repeats(ps, s)
    ensures forall r :: r in path <==> IsAncestor(ps, r, s)
  {
    forall n: nat | Ancestor(ps, s, n).Some? ensures n < |path| {
      if n >= |path| { ChainEnds(ps, s, |path|, n); }
    }
    forall r ensures r in path <==> IsAncestor(ps, r, s) {
      if r in path {
        var i :| 0 <= i < |path| && path[i] == r;
        assert Ancestor(ps, s, i) == Some(r);
      }
    }
  }

  /** Once back on the chain, every later category is on the chain too. */
  lemma {:induction false} WrapsAround(ps: Parents, s: Slug, path: seq<Slug>, n: nat)
    requires IsChain(ps, s, path) && Ancestor(ps, s, |path|).Some? && Ancestor(ps, s, |path|).value in path
    ensures Ancestor(ps, s, n).Some? && Ancestor(ps, s, n).value in path
  {
    if n < |path| {
      assert Ancestor(ps, s, n) == Some(path[n]);
    } else if n > |path| {
      WrapsAround(ps, s, path, n - 1);
      var i :| 0 <= i < |path| && path[i] == Ancestor(ps, s, n - 1).value;
      assert Ancestor(ps, s, i) == Ancestor(ps, s, n - 1);
      assert Ancestor(ps, s, i + 1) == Ancestor(ps, s, n);
      if i + 1 < |path| {
        assert Ancestor(ps, s, i + 1) == Some(path[i + 1]);
      }
    }
  }

  lemma WrappedChain(ps: Parents, s: Slug, path: seq<Slug>)
    requires IsChain(ps, s, path) && Ancestor(ps, s, |path|).Some? && Ancestor(ps, s, |path|).value in path
    ensures Repeats(ps, s)
    ensures forall r :: r in path <==> IsAncestor(ps, r, s)
  {
    var i :| 0 <= i < |path| && path[i] == Ancestor(ps, s, |path|).value;
    assert Ancestor(ps, s, i) == Ancestor(ps, s, |path|);
    forall r ensures r in path <==> IsAncestor(ps, r, s) {
      if r in path {
        var k :| 0 <= k < |path| && path[k] == r;
        assert Ancestor(ps, s, k) == Some(r);
      }
      if IsAncestor(ps, r, s) {
        var n: nat :| Ancestor(ps, s, n) == Some(r);
        WrapsAround(ps, s, path, n);
      }
    }
  }

  // ---------- The loader ----------

  /** A closed walk along parent links that visits no category twice. */
  ghost predicate IsCycle(ps: Parents, c: seq<Slug>) {
    && |c| >= 2 && c[0] == c[|c| - 1]
    && (forall k :: 0 <= k < |c| - 1 ==> c[k] in ps && ps[c[k]] == Some(c[k + 1]))
    && (forall i, j :: 0 <= i < j < |c| - 1 ==> c[i] != c[j])
  }

  lemma CycleFound(ps: Parents, s: Slug, path: seq<Slug>, k: nat)
    requires IsChain(ps, s, path) && k < |path| && Ancestor(ps, s, |path|) == Some(path[k])
    ensures IsCycle(ps, path[k..] + [path[k]]) && IsAncestor(ps, path[k], s)
  {
  }

  function IndexOf(path: seq<Slug>, s: Slug): (k: nat)
    requires s in path
    ensures k < |path| && path[k] == s && s !in path[..k]
  {
    if path[0] == s then 0
    else
      assert path == [path[0]] + path[1..];
      var k := 1 + IndexOf(path[1..], s);
      assert path[..k] == [path[0]] + path[1..][..k - 1];
      k
  }

  /** The walk from one category: it finds a cycle exactly when the chain repeats. */
  method CycleFrom(ps: Parents, start: Slug) returns (cycle: Option<seq<Slug>>)
    ensures cycle.Some? <==> Repeats(ps, start)
    ensures cycle.Some? ==> IsCycle(ps, cycle.value) && IsAncestor(ps, cycle.value[0], start)
  {
    var path: seq<Slug>, current := [], Some(start);
    while current.Some? && current.value in ps
      invariant IsChain(ps, start, path)
      invariant Ancestor(ps, start, |path|) == if current.Some? && current.value in ps then current else None
      decreases |ps| + 1 - |path|
    {
      if current.value in path {
        WrappedChain(ps, start, path);
        CycleFound(ps, start, path, IndexOf(path, current.value));
        return Some(path[IndexOf(path, current.value)..] + [current.value]);
      }
      path := path + [current.value];
      current := ps[current.value];
      ChainFits(ps, start, path);
    }
    EndedChain(ps, start, path);
    cycle := None;
  }

  datatype Issue =
    | DuplicateSlug(slug: Slug)
    | DuplicateName(name: string)
    | MissingParent(slug: Slug, parent: Slug)
    | Cycle(path: seq<Slug>)

  ghost predicate ParentsKnown(cs: seq<Category>) {
    forall c :: c in cs && c.parent.Some? ==> c.parent.value in BySlug(cs)
  }

  ghost predicate Acyclic(ps: Parents) {
    forall s :: s in ps ==> !Repeats(ps, s)
  }

  ghost predicate Clean(cs: seq<Category>) {
    UniqueSlugs(cs) && ParentsKnown(cs) && Acyclic(BySlug(cs))
  }

  /** Some issue shows a cycle that the chain from s runs into. */
  ghost predicate Reported(ps: Parents, issues: seq<Issue>, s: Slug) {
    exists k :: 0 <= k < |issues| && issues[k].Cycle? && IsCycle(ps, issues[k].path) && IsAncestor(ps, issues[k].path[0], s)
  }

  lemma StillReported(ps: Parents, issues: seq<Issue>, more: seq<Issue>, s: Slug)
    requires Reported(ps, issues, s) && issues <= more
    ensures Reported(ps, more, s)
  {
  }

  /** The cycle issues, each message once: every chain that repeats has its cycle reported,
      and there is no issue exactly when no chain repeats. */
  method CycleIssues(ps: Parents, starts: seq<Slug>) returns (issues: seq<Issue>)
    requires forall s :: s in ps <==> s in starts
    ensures issues == [] <==> Acyclic(ps)
    ensures forall k :: 0 <= k < |issues| ==> issues[k].Cycle? && IsCycle(ps, issues[k].path)
    ensures forall i, j :: 0 <= i < j < |issues| ==> issues[i] != issues[j]
    ensures forall s :: s in ps && Repeats(ps, s) ==> Reported(ps, issues, s)
  {
    hide Repeats, IsAncestor, IsCycle, Ancestor;
    issues := [];
    for i := 0 to |starts|
      invariant forall k :: 0 <= k < |issues| ==> issues[k].Cycle? && IsCycle(ps, issues[k].path)
      invariant forall a, b :: 0 <= a < b < |issues| ==> issues[a] != issues[b]
      invariant issues != [] ==> exists s :: s in starts && Repeats(ps, s)
      invariant forall n :: 0 <= n < i && Repeats(ps, starts[n]) ==> Reported(ps, issues, starts[n])
    {
      ghost var before := issues;
      var cycle := CycleFrom(ps, starts[i]);
      if cycle.Some? {
        if Cycle(cycle.value) !in issues { issues := issues + [Cycle(cycle.value)]; }
        assert Reported(ps, issues, starts[i]) by {
          var k :| 0 <= k < |issues| && issues[k] == Cycle(cycle.value);
        }
      }
      forall n | 0 <= n < i && Repeats(ps, starts[n]) ensures Reported(ps, issues, starts[n]) {
        StillReported(ps, before, issues, starts[n]);
      }
    }
  }

  ghost predicate Genuine(cs: seq<Category>, issue: Issue) {
    match issue
    case DuplicateSlug(s) => exists i, j :: 0 <= i < j < |cs| && cs[i].slug == s == cs[j].slug
    case DuplicateName(n) => exists i, j :: 0 <= i < j < |cs| && cs[i].name == n == cs[j].name
    case MissingParent(s, p) => (exists c :: c in cs && c.slug == s && c.parent == Some(p)) && p !in BySlug(cs)
    case Cycle(path) => IsCycle(BySlug(cs), path)
  }

  function NamesOf(cs: seq<Category>): set<string> { set c | c in cs :: c.name }

  /** The first pass over the list: repeated slugs and names. */
  method DuplicateIssues(cs: seq<Category>) returns (issues: seq<Issue>, bySlug: Parents, order: seq<Slug>)
    ensures bySlug == BySlug(cs) && forall s :: s in bySlug <==> s in order
    ensures issues == [] <==> UniqueSlugs(cs) && UniqueNames(cs)
    ensures forall k :: 0 <= k < |issues| ==> Genuine(cs, issues[k])
  {
    hide BySlug, UniqueSlugs, UniqueNames, NamesOf, Genuine;
    bySlug, order, issues := map[], [], [];
    var names: set<string> := {};
    NothingListed();
    assert cs[..0] == [];
    for i := 0 to |cs|
      invariant bySlug == BySlug(cs[..i]) && names == NamesOf(cs[..i])
      invariant forall s :: s in bySlug <==> s in order
      invariant issues == [] <==> UniqueSlugs(cs[..i]) && UniqueNames(cs[..i])
      invariant forall k :: 0 <= k < |issues| ==> Genuine(cs, issues[k])
    {
      OneMore(cs, i);
      DuplicateAppears(cs, i);
      NameRepeated(cs, i);
      if cs[i].slug in bySlug {
        issues := issues + [DuplicateSlug(cs[i].slug)];
      } else {
        order := order + [cs[i].slug];
      }
      bySlug := bySlug[cs[i].slug := cs[i].parent];
      if cs[i].name in names { issues := issues + [DuplicateName(cs[i].name)]; }
      names := names + {cs[i].name};
    }
    assert cs[..|cs|] == cs;
  }

  lemma NothingListed()
    ensures BySlug([]) == map[] && NamesOf([]) == {} && UniqueSlugs([]) && UniqueNames([])
  {
  }

  lemma NameRepeated(cs: seq<Category>, i: nat)
    requires i < |cs|
    ensures NamesOf(cs[..i + 1]) == NamesOf(cs[..i]) + {cs[i].name}
    ensures UniqueNames(cs[..i + 1]) <==> UniqueNames(cs[..i]) && cs[i].name !in NamesOf(cs[..i])
    ensures cs[i].name in NamesOf(cs[..i]) ==> Genuine(cs, DuplicateName(cs[i].name))
  {
    var earlier, all := cs[..i], cs[..i + 1];
    assert all == earlier + [cs[i]];
    assert forall k :: 0 <= k < i ==> earlier[k] in earlier && earlier[k] == all[k];
    if cs[i].name in NamesOf(earlier) {
      var k :| 0 <= k < |earlier| && earlier[k].name == cs[i].name;
      assert all[k].name == all[i].name && cs[k].name == cs[i].name;
    }
    if UniqueNames(all) {
      forall a, b | 0 <= a < b < i ensures earlier[a].name != earlier[b].name {
        assert all[a].name != all[b].name;
      }
    }
  }

  /** The loader's category checks: no issue exactly when the list is clean and no name is
      repeated, and no false alarm. */
  method CategoryIssues(cs: seq<Category>) returns (issues: seq<Issue>)
    ensures issues == [] <==> Clean(cs) && UniqueNames(cs)
    ensures forall k :: 0 <= k < |issues| ==> Genuine(cs, issues[k])
  {
    hide BySlug, UniqueSlugs, UniqueNames, Acyclic, IsCycle;
    var bySlug, order;
    issues, bySlug, order := DuplicateIssues(cs);
    ghost var duplicates := issues;
    for i := 0 to |cs|
      invariant issues == [] <==> duplicates == [] && forall k :: 0 <= k < i && cs[k].parent.Some? ==> cs[k].parent.value in bySlug
      invariant forall k :: 0 <= k < |issues| ==> Genuine(cs, issues[k])
    {
      assert cs[i] in cs;
      if cs[i].parent.Some? && cs[i].parent.value !in bySlug {
        issues := issues + [MissingParent(cs[i].slug, cs[i].parent.value)];
      }
    }
    assert issues == [] <==> duplicates == [] && ParentsKnown(cs);
    var cycles := CycleIssues(bySlug, order);
    issues := issues + cycles;
  }

  lemma DuplicateAppears(cs: seq<Category>, i: nat)
    requires i < |cs|
    ensures UniqueSlugs(cs[..i + 1]) <==> UniqueSlugs(cs[..i]) && cs[i].slug !in BySlug(cs[..i])
    ensures cs[i].slug in BySlug(cs[..i]) ==> Genuine(cs, DuplicateSlug(cs[i].slug))
  {
    hide BySlug;
    var earlier, all := cs[..i], cs[..i + 1];
    assert all == earlier + [cs[i]];
    if cs[i].slug in BySlug(earlier) {
      var k := Shown(earlier, cs[i].slug);
      assert all[k].slug == all[i].slug && cs[k].slug == cs[i].slug;
    } else {
      forall k | 0 <= k < i ensures earlier[k].slug != cs[i].slug {
        Listed(earlier, k);
      }
    }
    if UniqueSlugs(all) {
      forall a, b | 0 <= a < b < i ensures earlier[a].slug != earlier[b].slug {
        assert all[a].slug != all[b].slug;
      }
    }
  }

  lemma OneMore(cs: seq<Category>, i: nat)
    requires i < |cs|
    ensures BySlug(cs[..i + 1]) == BySlug(cs[..i])[cs[i].slug := cs[i].parent]
  {
    assert cs[..i + 1][..i] == cs[..i];
  }

  // ---------- The web client ----------

  lemma ChainEndsAtRoot(cs: seq<Category>, s: Slug, chain: seq<Slug>)
    requires Clean(cs) && s in BySlug(cs) && IsChain(BySlug(cs), s, chain)
    requires Ancestor(BySlug(cs), s, |chain|).Some? ==> Ancestor(BySlug(cs), s, |chain|).value in chain
    ensures chain != [] && chain[|chain| - 1] in BySlug(cs) && BySlug(cs)[chain[|chain| - 1]].None?
  {
    hide BySlug, UniqueSlugs;
    var ps := BySlug(cs);
    if Ancestor(ps, s, |chain|).Some? { WrappedChain(ps, s, chain); }
    assert Ancestor(ps, s, 0) == Some(s);
    assert Ancestor(ps, s, |chain| - 1) == Some(chain[|chain| - 1]);
    var i := Shown(cs, chain[|chain| - 1]);
    assert cs[i] in cs;
  }

  /** The categories from a root down to the given one. On any list, tidy or not, these are
      exactly the ancestors; on a clean list the first of them has no parent. */
  method CategoryPath(slug: Option<Slug>, cs: seq<Category>) returns (path: seq<Slug>)
    ensures slug.None? ==> path == []
    ensures slug.Some? ==> forall r :: r in path <==> IsAncestor(BySlug(cs), r, slug.value)
    ensures slug.Some? ==> forall i :: 0 <= i < |path| ==> Ancestor(BySlug(cs), slug.value, i) == Some(path[|path| - 1 - i])
    ensures slug.Some? ==> Ancestor(BySlug(cs), slug.value, |path|).None? || Ancestor(BySlug(cs), slug.value, |path|).value in path
    ensures forall i, j :: 0 <= i < j < |path| ==> path[i] != path[j]
    ensures slug.Some? && slug.value in BySlug(cs) && Clean(cs) ==>
              path != [] && path[0] in BySlug(cs) && BySlug(cs)[path[0]].None?
  {
    if slug.None? { return []; }
    var bySlug := BySlug(cs);
    var s := slug.value;
    hide BySlug, Repeats, IsAncestor, UniqueSlugs, IsChain, Ancestor;
    path := [];
    ghost var chain: seq<Slug> := [];
    var visited: set<Slug> := {};
    var current := if s in bySlug then Some(s) else None;
    ChainStarts(bySlug, s);
    while current.Some? && current.value !in visited
      invariant IsChain(bySlug, s, chain)
      invariant |chain| == |path| && forall i :: 0 <= i < |path| ==> chain[i] == path[|path| - 1 - i]
      invariant forall r :: r in visited <==> r in chain
      invariant current == Ancestor(bySlug, s, |chain|)
      decreases |bySlug| + 1 - |chain|
    {
      ChainGrows(bySlug, s, chain, current.value);
      path := [current.value] + path;
      chain := chain + [current.value];
      visited := visited + {current.value};
      var parent := bySlug[current.value];
      current := if parent.Some? && parent.value in bySlug then parent else None;
      ChainFits(bySlug, s, chain);
    }
    Backwards(bySlug, s, chain, path);
    if current.None? {
      EndedChain(bySlug, s, chain);
    } else {
      WrappedChain(bySlug, s, chain);
    }
    if s in bySlug && Clean(cs) { ChainEndsAtRoot(cs, s, chain); }
  }

  lemma ChainStarts(ps: Parents, s: Slug)
    ensures IsChain(ps, s, []) && Ancestor(ps, s, 0) == if s in ps then Some(s) else None
  {
  }

  lemma ChainGrows(ps: Parents, s: Slug, chain: seq<Slug>, next: Slug)
    requires IsChain(ps, s, chain) && Ancestor(ps, s, |chain|) == Some(next) && next !in chain
    ensures IsChain(ps, s, chain + [next]) && next in ps
    ensures Ancestor(ps, s, |chain| + 1) == if ps[next].Some? && ps[next].value in ps then ps[next] else None
  {
  }

  lemma Backwards(ps: Parents, s: Slug, chain: seq<Slug>, path: seq<Slug>)
    requires IsChain(ps, s, chain) && |chain| == |path| && forall i :: 0 <= i < |path| ==> chain[i] == path[|path| - 1 - i]
    ensures forall r :: r in path <==> r in chain
    ensures forall i :: 0 <= i < |path| ==> Ancestor(ps, s, i) == Some(path[|path| - 1 - i])
    ensures forall i, j :: 0 <= i < j < |path| ==> path[i] != path[j]
  {
    var n := |path|;
    forall i | 0 <= i < n ensures path[i] == chain[n - 1 - i] { assert chain[n - 1 - i] == path[n - 1 - (n - 1 - i)]; }
    forall i, j | 0 <= i < j < n ensures path[i] != path[j] {
      assert chain[n - 1 - j] != chain[n - 1 - i];
    }
  }

  /** Everything filed at or below the given root. */
  ghost function Below(ps: Parents, root: Slug): set<Slug> {
    set s | s in ps && IsAncestor(ps, root, s)
  }

  ghost predicate ClosedDown(cs: seq<Category>, found: set<Slug>) {
    forall c :: c in cs && c.parent.Some? && c.parent.value in found ==> c.slug in found
  }

  lemma {:induction false} ClosedReaches(cs: seq<Category>, found: set<Slug>, s: Slug, n: nat)
    requires ClosedDown(cs, found)
    requires Ancestor(BySlug(cs), s, n).Some? && Ancestor(BySlug(cs), s, n).value in found
    ensures s in found
  {
    if n == 0 {
      assert Ancestor(BySlug(cs), s, 0) == Some(s);
    } else {
      hide BySlug;
      var i := Shown(cs, Ancestor(BySlug(cs), s, n - 1).value);
      assert cs[i] in cs;
      ClosedReaches(cs, found, s, n - 1);
    }
  }

  lemma BelowIsClosed(cs: seq<Category>, root: Slug)
    requires UniqueSlugs(cs)
    ensures ClosedDown(cs, Below(BySlug(cs), root))
  {
    var ps := BySlug(cs);
    forall c | c in cs && c.parent.Some? && c.parent.value in Below(ps, root) ensures c.slug in Below(ps, root) {
      var i :| 0 <= i < |cs| && cs[i] == c;
      UniqueBySlug(cs, i);
      var n: nat :| Ancestor(ps, c.parent.value, n) == Some(root);
      AncestorOfParent(ps, c.slug, n);
    }
  }

  /** With unique slugs the least closed set holds exactly what has the root among its ancestors. */
  lemma LeastClosedIsBelow(cs: seq<Category>, i: nat, found: set<Slug>)
    requires UniqueSlugs(cs) && i < |cs| && cs[i].slug in found && ClosedDown(cs, found)
    requires forall other :: ClosedDown(cs, other) && cs[i].slug in other ==> found <= other
    ensures found == Below(BySlug(cs), cs[i].slug)
  {
    var root := cs[i].slug;
    Listed(cs, i);
    assert Ancestor(BySlug(cs), root, 0) == Some(root);
    BelowIsClosed(cs, root);
    forall s | s in Below(BySlug(cs), root) ensures s in found {
      var n: nat :| Ancestor(BySlug(cs), s, n) == Some(root);
      ClosedReaches(cs, found, s, n);
    }
  }

  /** The fixpoint over the list is the least set that holds the root and, with a category,
      everything filed under it. Where slugs are unique that is exactly what has the root on
      its category path. */
  method CategoryDescendantSlugs(root: Category, cs: seq<Category>) returns (found: set<Slug>)
    ensures root.slug in found && ClosedDown(cs, found)
    ensures forall other :: ClosedDown(cs, other) && root.slug in other ==> found <= other
    ensures UniqueSlugs(cs) && root in cs ==> found == Below(BySlug(cs), root.slug)
  {
    ghost var slugs := {root.slug} + set c | c in cs :: c.slug;
    found := {root.slug};
    var changed := true;
    while changed
      invariant root.slug in found && found <= slugs
      invariant forall other :: ClosedDown(cs, other) && root.slug in other ==> found <= other
      invariant !changed ==> ClosedDown(cs, found)
      decreases slugs - found, changed
    {
      changed := false;
      ghost var before := found;
      for i := 0 to |cs|
        invariant before <= found <= slugs
        invariant changed <==> found != before
        invariant forall other :: ClosedDown(cs, other) && root.slug in other ==> found <= other
        invariant !changed ==> forall k :: 0 <= k < i && cs[k].parent.Some? && cs[k].parent.value in found ==> cs[k].slug in found
      {
        if cs[i].parent.Some? && cs[i].parent.value in found && cs[i].slug !in found {
          assert cs[i] in cs;
          found := found + {cs[i].slug};
          changed := true;
        }
      }
    }
    if UniqueSlugs(cs) && root in cs {
      var i :| 0 <= i < |cs| && cs[i] == root;
      LeastClosedIsBelow(cs, i, found);
    }
  }

  /** The last category on the way up: it has no known parent, or one that was passed already. */
  ghost predicate IsTop(ps: Parents, top: Slug, s: Slug) {
    exists n: nat :: TopAt(ps, top, s, n)
  }

  ghost predicate TopAt(ps: Parents, top: Slug, s: Slug, n: nat) {
    && Ancestor(ps, s, n) == Some(top)
    && (Ancestor(ps, s, n + 1).None? || exists m: nat :: m <= n && Ancestor(ps, s, m) == Ancestor(ps, s, n + 1))
  }

  /** The root group a topic is listed under, or a stand-in when its category is not known. */
  method RootCategorySlug(slug: Option<Slug>, cs: seq<Category>) returns (root: Slug)
    ensures slug.None? ==> root == "uncategorized"
    ensures slug.Some? && slug.value !in BySlug(cs) ==> root == slug.value
    ensures slug.Some? && slug.value in BySlug(cs) ==> IsTop(BySlug(cs), root, slug.value) && slug.value in Below(BySlug(cs), root)
    ensures slug.Some? && slug.value in BySlug(cs) && Clean(cs) ==> root in BySlug(cs) && BySlug(cs)[root].None?
  {
    hide BySlug, UniqueSlugs;
    var path := CategoryPath(slug, cs);
    if slug.Some? {
      assert path != [] ==> Ancestor(BySlug(cs), slug.value, 0) == Some(path[|path| - 1]);
      if path != [] { PathEndsAtTop(BySlug(cs), slug.value, path); }
    }
    root := if path != [] then path[0] else if slug.Some? then slug.value else "uncategorized";
  }

  lemma PathEndsAtTop(ps: Parents, s: Slug, path: seq<Slug>)
    requires path != [] && forall i :: 0 <= i < |path| ==> Ancestor(ps, s, i) == Some(path[|path| - 1 - i])
    requires Ancestor(ps, s, |path|).None? || Ancestor(ps, s, |path|).value in path
    ensures IsTop(ps, path[0], s) && IsAncestor(ps, path[0], s)
  {
    var n := |path| - 1;
    assert Ancestor(ps, s, n) == Some(path[0]);
    if Ancestor(ps, s, n + 1).Some? {
      var k :| 0 <= k < |path| && path[k] == Ancestor(ps, s, n + 1).value;
      assert Ancestor(ps, s, n - k) == Some(path[n - (n - k)]);
    }
    assert TopAt(ps, path[0], s, n);
  }

  // ---------- The topic universe ----------

  /** members: the topics counted, in the order given; a client shows the first few after sorting. */
  datatype Group = Group(category: Category, count: nat, members: seq<Topic>)

  function Within(topics: seq<Topic>, slugs: set<Slug>): seq<Topic> {
    if topics == [] then []
    else
      var rest := Within(topics[..|topics| - 1], slugs);
      var last := topics[|topics| - 1];
      if last.category.Some? && last.category.value in slugs then rest + [last] else rest
  }

  function Total(groups: seq<Group>): nat {
    if groups == [] then 0 else Total(groups[..|groups| - 1]) + groups[|groups| - 1].count
  }

  lemma {:induction false} WithinMeans(topics: seq<Topic>, slugs: set<Slug>, t: Topic)
    ensures t in Within(topics, slugs) <==> t in topics && t.category.Some? && t.category.value in slugs
  {
    if topics != [] { WithinMeans(topics[..|topics| - 1], slugs, t); }
  }

  lemma {:induction false} WithinAdds(topics: seq<Topic>, a: set<Slug>, b: set<Slug>)
    requires a !! b
    ensures |Within(topics, a + b)| == |Within(topics, a)| + |Within(topics, b)|
  {
    if topics != [] { WithinAdds(topics[..|topics| - 1], a, b); }
  }

  predicate IsRoot(c: Category) {
    c.parent.None?
  }

  /** Two roots have nothing below them in common. */
  lemma RootsApart(ps: Parents, r: Slug, q: Slug)
    requires r in ps && q in ps && ps[r].None? && ps[q].None? && r != q
    ensures Below(ps, r) !! Below(ps, q)
  {
    forall s | s in Below(ps, r) && s in Below(ps, q) ensures false {
      var n: nat :| Ancestor(ps, s, n) == Some(r);
      var m: nat :| Ancestor(ps, s, m) == Some(q);
      if n < m { ChainEnds(ps, s, n + 1, m); } else { ChainEnds(ps, s, m + 1, n); }
    }
  }

  /** Everything below the roots among the first i categories. */
  ghost function BelowRoots(cs: seq<Category>, i: nat): set<Slug>
    requires i <= |cs|
  {
    if i == 0 then {}
    else BelowRoots(cs, i - 1) + if IsRoot(cs[i - 1]) then Below(BySlug(cs), cs[i - 1].slug) else {}
  }

  lemma {:induction false} BelowRootsApart(cs: seq<Category>, i: nat, k: nat)
    requires UniqueSlugs(cs) && i <= k < |cs| && IsRoot(cs[k])
    ensures BelowRoots(cs, i) !! Below(BySlug(cs), cs[k].slug)
  {
    if i > 0 {
      BelowRootsApart(cs, i - 1, k);
      UniqueBySlug(cs, k);
      UniqueBySlug(cs, i - 1);
      if IsRoot(cs[i - 1]) { RootsApart(BySlug(cs), cs[i - 1].slug, cs[k].slug); }
    }
  }

  lemma RootAbove(cs: seq<Category>, s: Slug, chain: seq<Slug>) returns (r: Slug)
    requires Clean(cs) && chain != [] && IsChain(BySlug(cs), s, chain)
    ensures r in BySlug(cs) && BySlug(cs)[r].None? && s in Below(BySlug(cs), r)
    decreases |BySlug(cs)| - |chain|
  {
    hide BySlug, UniqueSlugs;
    var ps, n := BySlug(cs), |chain| - 1;
    assert Ancestor(ps, s, n) == Some(chain[n]) && Ancestor(ps, s, 0) == Some(chain[0]);
    var i := Shown(cs, chain[n]);
    assert cs[i] in cs;
    if ps[chain[n]].None? {
      r := chain[n];
    } else {
      var next := ps[chain[n]].value;
      if next in chain { WrappedChain(ps, s, chain); }
      ChainFits(ps, s, chain + [next]);
      r := RootAbove(cs, s, chain + [next]);
    }
  }

  lemma {:induction false} AmongRoots(cs: seq<Category>, i: nat, k: nat)
    requires k < i <= |cs| && IsRoot(cs[k])
    ensures Below(BySlug(cs), cs[k].slug) <= BelowRoots(cs, i)
  {
    if k < i - 1 { AmongRoots(cs, i - 1, k); }
  }

  lemma {:induction false} BelowRootsKnown(cs: seq<Category>, i: nat)
    requires i <= |cs|
    ensures BelowRoots(cs, i) <= BySlug(cs).Keys
  {
    if i > 0 { BelowRootsKnown(cs, i - 1); }
  }

  /** On a clean list every category lies below a root. */
  lemma RootsCoverAll(cs: seq<Category>)
    requires Clean(cs)
    ensures BelowRoots(cs, |cs|) == BySlug(cs).Keys
  {
    BelowRootsKnown(cs, |cs|);
    forall s | s in BySlug(cs) ensures s in BelowRoots(cs, |cs|) {
      assert Ancestor(BySlug(cs), s, 0) == Some(s);
      var r := RootAbove(cs, s, [s]);
      var k := Shown(cs, r);
      AmongRoots(cs, |cs|, k);
    }
  }

  ghost predicate InSomeGroup(groups: seq<Group>, t: Topic) {
    exists k :: 0 <= k < |groups| && t in groups[k].members
  }

  /** The group of one of the first i categories. */
  ghost predicate FromRoot(topics: seq<Topic>, cs: seq<Category>, i: nat, g: Group)
    requires i <= |cs|
  {
    && g.category in cs[..i] && IsRoot(g.category)
    && g.count == |g.members| > 0
    && g.members == Within(topics, Below(BySlug(cs), g.category.slug))
    && Below(BySlug(cs), g.category.slug) <= BelowRoots(cs, i)
  }

  ghost predicate Apart(groups: seq<Group>) {
    forall j, k, t :: 0 <= j < k < |groups| && t in groups[j].members ==> t !in groups[k].members
  }

  /** The groups made after looking at the first i categories. */
  ghost predicate Universe(topics: seq<Topic>, cs: seq<Category>, i: nat, groups: seq<Group>)
    requires i <= |cs|
  {
    && (forall k :: 0 <= k < |groups| ==> FromRoot(topics, cs, i, groups[k]))
    && Apart(groups)
    && (forall t :: t in Within(topics, BelowRoots(cs, i)) ==> InSomeGroup(groups, t))
    && Total(groups) == |Within(topics, BelowRoots(cs, i))|
  }

  lemma {:induction false} WithinNothing(topics: seq<Topic>)
    ensures Within(topics, {}) == []
  {
    if topics != [] { WithinNothing(topics[..|topics| - 1]); }
  }

  lemma NoRoot(topics: seq<Topic>, cs: seq<Category>, i: nat, groups: seq<Group>)
    requires i < |cs| && Universe(topics, cs, i, groups)
    requires IsRoot(cs[i]) ==> Within(topics, Below(BySlug(cs), cs[i].slug)) == []
    requires UniqueSlugs(cs)
    ensures Universe(topics, cs, i + 1, groups)
  {
    hide BySlug, UniqueSlugs, Below;
    var below := BelowRoots(cs, i);
    if IsRoot(cs[i]) {
      var slugs := Below(BySlug(cs), cs[i].slug);
      BelowRootsApart(cs, i, i);
      WithinAdds(topics, below, slugs);
      forall t | t in Within(topics, below + slugs) ensures InSomeGroup(groups, t) {
        WithinMeans(topics, below + slugs, t);
        WithinMeans(topics, below, t);
        WithinMeans(topics, slugs, t);
      }
    } else {
      assert BelowRoots(cs, i + 1) == below;
    }
    forall k | 0 <= k < |groups| ensures FromRoot(topics, cs, i + 1, groups[k]) {
      assert FromRoot(topics, cs, i, groups[k]);
      assert cs[..i + 1] == cs[..i] + [cs[i]];
    }
  }

  /** A group made for the next root shares no topic with the earlier ones. */
  lemma NewGroupApart(topics: seq<Topic>, cs: seq<Category>, i: nat, groups: seq<Group>, g: Group)
    requires i < |cs| && Universe(topics, cs, i, groups) && UniqueSlugs(cs) && IsRoot(cs[i])
    requires g.members == Within(topics, Below(BySlug(cs), cs[i].slug))
    ensures Apart(groups + [g])
  {
    hide BySlug, UniqueSlugs, Below, BelowRoots;
    BelowRootsApart(cs, i, i);
    forall j, t | 0 <= j < |groups| && t in groups[j].members ensures t !in g.members {
      assert FromRoot(topics, cs, i, groups[j]);
      WithinMeans(topics, Below(BySlug(cs), groups[j].category.slug), t);
      WithinMeans(topics, Below(BySlug(cs), cs[i].slug), t);
    }
  }

  lemma NewGroupCovers(topics: seq<Topic>, below: set<Slug>, slugs: set<Slug>, groups: seq<Group>, g: Group, t: Topic)
    requires g.members == Within(topics, slugs) && t in Within(topics, below + slugs)
    requires t in Within(topics, below) ==> InSomeGroup(groups, t)
    ensures InSomeGroup(groups + [g], t)
  {
    var more := groups + [g];
    WithinMeans(topics, below + slugs, t);
    WithinMeans(topics, below, t);
    WithinMeans(topics, slugs, t);
    if t in Within(topics, below) {
      var k :| 0 <= k < |groups| && t in groups[k].members;
      assert t in more[k].members;
    } else {
      assert t in more[|groups|].members;
    }
  }

  lemma NewGroup(topics: seq<Topic>, cs: seq<Category>, i: nat, groups: seq<Group>, g: Group)
    requires i < |cs| && Universe(topics, cs, i, groups) && UniqueSlugs(cs) && IsRoot(cs[i])
    requires g.category == cs[i] && g.members == Within(topics, Below(BySlug(cs), cs[i].slug)) && g.count == |g.members| > 0
    ensures Universe(topics, cs, i + 1, groups + [g])
  {
    hide BySlug, UniqueSlugs, Below, Apart, InSomeGroup;
    var below, slugs, more := BelowRoots(cs, i), Below(BySlug(cs), cs[i].slug), groups + [g];
    NewGroupApart(topics, cs, i, groups, g);
    BelowRootsApart(cs, i, i);
    WithinAdds(topics, below, slugs);
    assert more[..|groups|] == groups && more[|groups|] == g;
    assert cs[..i + 1] == cs[..i] + [cs[i]];
    forall k | 0 <= k < |more| ensures FromRoot(topics, cs, i + 1, more[k]) {
      assert k < |groups| ==> FromRoot(topics, cs, i, groups[k]);
    }
    forall t | t in Within(topics, below + slugs) ensures InSomeGroup(more, t) {
      NewGroupCovers(topics, below, slugs, groups, g, t);
    }
  }

  /** The least set that holds the slug and, with a category, everything filed under it. */
  ghost predicate Descendants(cs: seq<Category>, root: Slug, found: set<Slug>) {
    root in found && ClosedDown(cs, found) && forall other :: ClosedDown(cs, other) && root in other ==> found <= other
  }

  /** The group lists the topics filed at or below its root. */
  ghost predicate Gathers(topics: seq<Topic>, cs: seq<Category>, g: Group) {
    && g.category in cs && IsRoot(g.category) && g.count == |g.members| > 0
    && exists slugs :: Descendants(cs, g.category.slug, slugs) && g.members == Within(topics, slugs)
  }

  ghost predicate Idle(topics: seq<Topic>, cs: seq<Category>, c: Category) {
    exists slugs :: Descendants(cs, c.slug, slugs) && Within(topics, slugs) == []
  }

  ghost predicate HasGroup(groups: seq<Group>, c: Category) {
    exists k :: 0 <= k < |groups| && groups[k].category == c
  }

  /** One group for every root with topics at or below it. With unique slugs, as the category table
      has them, no topic is in two groups; on a clean list every topic of a known category is in
      one, and the counts add up to the number of these topics. */
  method BuildTopicUniverse(topics: seq<Topic>, cs: seq<Category>) returns (groups: seq<Group>)
    ensures forall k :: 0 <= k < |groups| ==> Gathers(topics, cs, groups[k])
    ensures forall c :: c in cs && IsRoot(c) ==> HasGroup(groups, c) || Idle(topics, cs, c)
    ensures UniqueSlugs(cs) ==> forall k, t :: 0 <= k < |groups| ==>
              (t in groups[k].members <==> t in topics && t.category.Some? && t.category.value in Below(BySlug(cs), groups[k].category.slug))
    ensures UniqueSlugs(cs) ==> Apart(groups)
    ensures Clean(cs) ==> forall t :: t in topics && t.category.Some? && t.category.value in BySlug(cs) ==> InSomeGroup(groups, t)
    ensures Clean(cs) ==> Total(groups) == |Within(topics, BySlug(cs).Keys)|
  {
    hide BySlug, UniqueSlugs, Below, Universe, ClosedDown, Gathers, Idle, HasGroup, Within;
    groups := [];
    UniverseStart(topics, cs);
    for i := 0 to |cs|
      invariant UniqueSlugs(cs) ==> Universe(topics, cs, i, groups)
      invariant forall k :: 0 <= k < |groups| ==> Gathers(topics, cs, groups[k])
      invariant forall j :: 0 <= j < i && IsRoot(cs[j]) ==> HasGroup(groups, cs[j]) || Idle(topics, cs, cs[j])
    {
      ghost var before := groups;
      if IsRoot(cs[i]) {
        var slugs := CategoryDescendantSlugs(cs[i], cs);
        var members := Within(topics, slugs);
        RootGathers(topics, cs, i, slugs);
        if |members| > 0 {
          if UniqueSlugs(cs) { NewGroup(topics, cs, i, groups, Group(cs[i], |members|, members)); }
          groups := groups + [Group(cs[i], |members|, members)];
        } else if UniqueSlugs(cs) {
          NoRoot(topics, cs, i, groups);
        }
      } else if UniqueSlugs(cs) {
        NoRoot(topics, cs, i, groups);
      }
      StillGrouped(cs, i, before, groups);
    }
    if UniqueSlugs(cs) { UniverseMeans(topics, cs, groups); }
  }

  lemma RootGathers(topics: seq<Topic>, cs: seq<Category>, i: nat, slugs: set<Slug>)
    requires i < |cs| && IsRoot(cs[i]) && cs[i].slug in slugs && ClosedDown(cs, slugs)
    requires forall other :: ClosedDown(cs, other) && cs[i].slug in other ==> slugs <= other
    ensures var members := Within(topics, slugs);
            if members == [] then Idle(topics, cs, cs[i]) else Gathers(topics, cs, Group(cs[i], |members|, members))
  {
    assert Descendants(cs, cs[i].slug, slugs);
  }

  lemma StillGrouped(cs: seq<Category>, i: nat, before: seq<Group>, groups: seq<Group>)
    requires before <= groups && i < |cs|
    ensures forall j :: 0 <= j < |cs| && HasGroup(before, cs[j]) ==> HasGroup(groups, cs[j])
    ensures |groups| > |before| && groups[|before|].category == cs[i] ==> HasGroup(groups, cs[i])
  {
  }

  lemma UniverseStart(topics: seq<Topic>, cs: seq<Category>)
    ensures Universe(topics, cs, 0, [])
  {
    WithinNothing(topics);
  }

  lemma UniverseMeans(topics: seq<Topic>, cs: seq<Category>, groups: seq<Group>)
    requires UniqueSlugs(cs) && Universe(topics, cs, |cs|, groups)
    ensures forall k :: 0 <= k < |groups| ==>
              groups[k].category in cs && IsRoot(groups[k].category) && groups[k].count == |groups[k].members| > 0
    ensures forall k, t :: 0 <= k < |groups| ==>
              (t in groups[k].members <==> t in topics && t.category.Some? && t.category.value in Below(BySlug(cs), groups[k].category.slug))
    ensures Apart(groups)
    ensures Clean(cs) ==> forall t :: t in topics && t.category.Some? && t.category.value in BySlug(cs) ==> InSomeGroup(groups, t)
    ensures Clean(cs) ==> Total(groups) == |Within(topics, BySlug(cs).Keys)|
  {
    hide BySlug, UniqueSlugs, Below, Apart;
    forall k | 0 <= k < |groups|
      ensures groups[k].category in cs && IsRoot(groups[k].category) && groups[k].count == |groups[k].members| > 0
      ensures forall t :: t in groups[k].members <==> t in topics && t.category.Some? && t.category.value in Below(BySlug(cs), groups[k].category.slug)
    {
      assert FromRoot(topics, cs, |cs|, groups[k]);
      assert cs[..|cs|] == cs;
      forall t ensures t in groups[k].members <==> t in topics && t.category.Some? && t.category.value in Below(BySlug(cs), groups[k].category.slug) {
        WithinMeans(topics, Below(BySlug(cs), groups[k].category.slug), t);
      }
    }
    if Clean(cs) {
      RootsCoverAll(cs);
      forall t | t in topics && t.category.Some? && t.category.value in BySlug(cs) ensures InSomeGroup(groups, t) {
        WithinMeans(topics, BySlug(cs).Keys, t);
      }
    }
  }

  /** Where a slug is repeated the two walks disagree: the path follows the last category of
      that slug, the descent any of them. */
  lemma RepeatedSlugDisagrees(found: set<Slug>)
    requires ClosedDown([Category("x", None, "x"), Category("a", Some("x"), "a"), Category("a", None, "b")], found) && "x" in found
    ensures "a" in found
    ensures !IsAncestor(BySlug([Category("x", None, "x"), Category("a", Some("x"), "a"), Category("a", None, "b")]), "x", "a")
  {
    var cs := [Category("x", None, "x"), Category("a", Some("x"), "a"), Category("a", None, "b")];
    assert cs[1] in cs;
    var ps := BySlug(cs);
    assert cs[..2] == [Category("x", None, "x"), Category("a", Some("x"), "a")] && cs[..2][..1] == [Category("x", None, "x")];
    assert ps["a"] == None && Ancestor(ps, "a", 0) == Some("a") && Ancestor(ps, "a", 1) == None;
    forall n: nat ensures Ancestor(ps, "a", n) != Some("x") {
      if n > 0 { ChainEnds(ps, "a", 1, n); }
    }
  }
}
