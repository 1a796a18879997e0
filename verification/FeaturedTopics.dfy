/** Which topics the start page features: as many different root categories as possible first. */
module FeaturedTopics {
  import opened CategoryForest
  import opened Sorting
  import Canonical

  ghost predicate DistinctIds(ts: seq<Topic>) {
    forall i, j :: 0 <= i < j < |ts| ==> ts[i].id != ts[j].id
  }

  function Roots(ts: seq<Topic>, rootOf: Topic -> Slug): set<Slug> { set t | t in ts :: rootOf(t) }

  ghost predicate DistinctRoots(ts: seq<Topic>, rootOf: Topic -> Slug) {
    forall i, j :: 0 <= i < j < |ts| ==> rootOf(ts[i]) != rootOf(ts[j])
  }

  /** t is the first candidate of its root. */
  ghost predicate Leads(candidates: seq<Topic>, rootOf: Topic -> Slug, t: Topic) {
    exists p :: 0 <= p < |candidates| && candidates[p] == t && forall k :: 0 <= k < p ==> rootOf(candidates[k]) != rootOf(t)
  }

  /** t comes somewhere before u. */
  ghost predicate Precedes(candidates: seq<Topic>, t: Topic, u: Topic) {
    exists p, q :: 0 <= p < q < |candidates| && candidates[p] == t && candidates[q] == u
  }

  lemma {:induction false} RootsCounted(ts: seq<Topic>, rootOf: Topic -> Slug)
    requires DistinctRoots(ts, rootOf)
    ensures |Roots(ts, rootOf)| == |ts|
  {
    if ts != [] {
      var n := |ts| - 1;
      RootsCounted(ts[..n], rootOf);
      assert Roots(ts, rootOf) == Roots(ts[..n], rootOf) + {rootOf(ts[n])};
    }
  }

  lemma {:induction false} IdsFit(ts: seq<Topic>, ids: set<nat>)
    requires DistinctIds(ts) && forall i :: 0 <= i < |ts| ==> ts[i].id in ids
    ensures |ts| <= |ids|
  {
    if ts != [] {
      var n := |ts| - 1;
      IdsFit(ts[..n], ids - {ts[n].id});
    }
  }

  lemma RootsGrow(ts: seq<Topic>, i: nat, rootOf: Topic -> Slug)
    requires i < |ts|
    ensures Roots(ts[..i + 1], rootOf) == Roots(ts[..i], rootOf) + {rootOf(ts[i])}
  {
  }

  /** A candidate whose root has not been seen leads its root and joins the leaders. */
  lemma NextLeader(candidates: seq<Topic>, i: nat, selected: seq<Topic>, rootOf: Topic -> Slug)
    requires i < |candidates| && Roots(candidates[..i], rootOf) == Roots(selected, rootOf)
    requires DistinctRoots(selected, rootOf) && rootOf(candidates[i]) !in Roots(selected, rootOf)
    ensures Leads(candidates, rootOf, candidates[i])
    ensures DistinctRoots(selected + [candidates[i]], rootOf)
    ensures Roots(selected + [candidates[i]], rootOf) == Roots(selected, rootOf) + {rootOf(candidates[i])}
  {
  }

  /** The first pass: the leader of each root, until there are enough. */
  method Leaders(candidates: seq<Topic>, rootOf: Topic -> Slug, count: nat) returns (selected: seq<Topic>)
    ensures DistinctRoots(selected, rootOf)
    ensures forall i :: 0 <= i < |selected| ==> Leads(candidates, rootOf, selected[i])
    ensures |selected| == if 0 < count < |Roots(candidates, rootOf)| then count else |Roots(candidates, rootOf)|
    ensures forall t, u :: t in selected && u in candidates && rootOf(u) !in Roots(selected, rootOf) ==> Precedes(candidates, t, u)
  {
    hide Roots, Leads, DistinctRoots, Precedes;
    NoneYet(rootOf);
    selected := [];
    var seen: set<Slug> := {};
    for i := 0 to |candidates|
      invariant seen == Roots(candidates[..i], rootOf) == Roots(selected, rootOf)
      invariant DistinctRoots(selected, rootOf) && (0 < count ==> |selected| < count)
      invariant forall k :: 0 <= k < |selected| ==> Leads(candidates, rootOf, selected[k])
      invariant forall t :: t in selected ==> t in candidates[..i]
    {
      assert candidates[..i + 1] == candidates[..i] + [candidates[i]];
      RootsGrow(candidates, i, rootOf);
      var t := candidates[i];
      if rootOf(t) !in seen {
        NextLeader(candidates, i, selected, rootOf);
        selected := selected + [t];
        seen := seen + {rootOf(t)};
        if |selected| == count {
          RootsCounted(selected, rootOf);
          EnoughRoots(candidates, i + 1, selected, rootOf);
          OthersFollow(candidates, i + 1, selected, rootOf);
          return;
        }
      }
    }
    assert candidates[..|candidates|] == candidates;
    RootsCounted(selected, rootOf);
    OthersFollow(candidates, |candidates|, selected, rootOf);
  }

  lemma OthersFollow(candidates: seq<Topic>, i: nat, selected: seq<Topic>, rootOf: Topic -> Slug)
    requires i <= |candidates| && Roots(candidates[..i], rootOf) == Roots(selected, rootOf)
    requires forall t :: t in selected ==> t in candidates[..i]
    ensures forall t, u :: t in selected && u in candidates && rootOf(u) !in Roots(selected, rootOf) ==> Precedes(candidates, t, u)
  {
    forall t, u | t in selected && u in candidates && rootOf(u) !in Roots(selected, rootOf) ensures Precedes(candidates, t, u) {
      FollowsPrefix(candidates, i, t, u, rootOf);
    }
  }

  lemma FollowsPrefix(candidates: seq<Topic>, i: nat, t: Topic, u: Topic, rootOf: Topic -> Slug)
    requires i <= |candidates| && t in candidates[..i] && u in candidates && rootOf(u) !in Roots(candidates[..i], rootOf)
    ensures Precedes(candidates, t, u)
  {
    var p :| 0 <= p < i && candidates[..i][p] == t;
    var q :| 0 <= q < |candidates| && candidates[q] == u;
    assert q >= i by {
      if q < i { assert candidates[..i][q] == u; }
    }
    assert candidates[p] == t;
  }

  lemma NoneYet(rootOf: Topic -> Slug)
    ensures Roots([], rootOf) == {} && DistinctRoots([], rootOf)
  {
  }

  lemma EnoughRoots(candidates: seq<Topic>, i: nat, selected: seq<Topic>, rootOf: Topic -> Slug)
    requires i <= |candidates| && Roots(candidates[..i], rootOf) == Roots(selected, rootOf)
    ensures |Roots(candidates, rootOf)| >= |Roots(selected, rootOf)|
  {
    var all, some := Roots(candidates, rootOf), Roots(candidates[..i], rootOf);
    assert some <= all;
    assert all == some + (all - some);
  }

  function Spread(candidates: seq<Topic>, rootOf: Topic -> Slug, count: nat): nat {
    if 0 < count < |Roots(candidates, rootOf)| then count else |Roots(candidates, rootOf)|
  }

  /** What is selected from the ordered candidates. The first entries lead different roots, as many
      as there are or as fit, and every other root comes later; then the first candidates not yet
      taken fill the remaining places. Asking for none features all: the limit is only looked at
      after an entry has been added. */
  ghost predicate Selected(candidates: seq<Topic>, rootOf: Topic -> Slug, count: nat, selected: seq<Topic>) {
    var spread := Spread(candidates, rootOf, count);
    && DistinctIds(selected) && (forall i :: 0 <= i < |selected| ==> selected[i] in candidates)
    && |selected| == (if 0 < count < |candidates| then count else |candidates|)
    && spread <= |selected| && DistinctRoots(selected[..spread], rootOf)
    && (forall i :: 0 <= i < spread ==> Leads(candidates, rootOf, selected[i]))
    && (forall t, u :: t in selected[..spread] && u in candidates && rootOf(u) !in Roots(selected[..spread], rootOf) ==> Precedes(candidates, t, u))
    && (forall t, u :: t in selected[spread..] && u in candidates && u !in selected ==> Precedes(candidates, t, u))
  }

  /** The second pass. */
  method Fill(candidates: seq<Topic>, leaders: seq<Topic>, count: nat) returns (selected: seq<Topic>)
    requires DistinctIds(candidates) && DistinctIds(leaders) && forall i :: 0 <= i < |leaders| ==> leaders[i] in candidates
    requires 0 < count ==> |leaders| < count
    ensures leaders <= selected && DistinctIds(selected) && forall i :: 0 <= i < |selected| ==> selected[i] in candidates
    ensures |selected| == if 0 < count < |candidates| then count else |candidates|
    ensures forall t, u :: t in selected[|leaders|..] && u in candidates && u !in selected ==> Precedes(candidates, t, u)
  {
    selected := leaders;
    for i := 0 to |candidates|
      invariant leaders <= selected && DistinctIds(selected)
      invariant forall k :: 0 <= k < |selected| ==> selected[k] in candidates
      invariant forall k :: 0 <= k < i ==> candidates[k] in selected
      invariant forall t :: t in selected[|leaders|..] ==> t in candidates[..i]
      invariant 0 < count ==> |selected| < count
    {
      hide Precedes;
      assert candidates[..i + 1] == candidates[..i] + [candidates[i]];
      var t := candidates[i];
      if forall s :: s in selected ==> s.id != t.id {
        assert (selected + [t])[|leaders|..] == selected[|leaders|..] + [t];
        selected := selected + [t];
        if |selected| == count {
          FitsIn(candidates, selected);
          RestFollows(candidates, i + 1, leaders, selected);
          return;
        }
      } else {
        var s :| s in selected && s.id == t.id;
        SameTopic(candidates, s, t);
      }
    }
    FitsIn(candidates, selected);
    FitsIn(selected, candidates);
  }

  lemma RestFollows(candidates: seq<Topic>, i: nat, leaders: seq<Topic>, selected: seq<Topic>)
    requires i <= |candidates| && leaders <= selected
    requires forall k :: 0 <= k < i ==> candidates[k] in selected
    requires forall t :: t in selected[|leaders|..] ==> t in candidates[..i]
    ensures forall t, u :: t in selected[|leaders|..] && u in candidates && u !in selected ==> Precedes(candidates, t, u)
  {
    forall t, u | t in selected[|leaders|..] && u in candidates && u !in selected ensures Precedes(candidates, t, u) {
      var p :| 0 <= p < i && candidates[..i][p] == t;
      var q :| 0 <= q < |candidates| && candidates[q] == u;
      assert candidates[p] == t;
    }
  }

  method SelectFrom(candidates: seq<Topic>, rootOf: Topic -> Slug, count: nat) returns (selected: seq<Topic>)
    requires DistinctIds(candidates)
    ensures Selected(candidates, rootOf, count, selected)
  {
    var leaders := Leaders(candidates, rootOf, count);
    LeadersFit(candidates, rootOf, leaders);
    hide DistinctIds, DistinctRoots, Leads, Precedes, Roots;
    if |leaders| == count && 0 < count {
      selected := leaders;
      FitsIn(candidates, selected);
      assert selected[..count] == selected && selected[count..] == [];
    } else {
      selected := Fill(candidates, leaders, count);
      assert selected[..|leaders|] == leaders;
    }
  }

  // ---------- Candidates ----------

  /** Higher priority first, then by name, then by slug in the order of the client's language. */
  predicate RanksBefore(collate: (string, string) -> bool, a: Topic, b: Topic) {
    if a.priority != b.priority then a.priority > b.priority
    else if a.name != b.name then Canonical.Leq(a.name, b.name)
    else collate(a.slug, b.slug)
  }

  function Ranking(collate: (string, string) -> bool): (Topic, Topic) -> bool {
    (a, b) => RanksBefore(collate, a, b)
  }

  lemma RankingIsTotal(collate: (string, string) -> bool)
    requires TotalOrder(collate)
    ensures TotalOrder(Ranking(collate))
  {
    forall a: Topic, b: Topic ensures Ranking(collate)(a, b) || Ranking(collate)(b, a) { Canonical.LeqTotal(a.name, b.name); }
    forall a: Topic, b: Topic, c: Topic | Ranking(collate)(a, b) && Ranking(collate)(b, c) ensures Ranking(collate)(a, c) {
      RankingIsTransitive(collate, a, b, c);
    }
  }

  lemma RankingIsTransitive(collate: (string, string) -> bool, a: Topic, b: Topic, c: Topic)
    requires TotalOrder(collate) && RanksBefore(collate, a, b) && RanksBefore(collate, b, c)
    ensures RanksBefore(collate, a, c)
  {
    if Canonical.Leq(a.name, b.name) && Canonical.Leq(b.name, c.name) {
      Canonical.LeqTransitive(a.name, b.name, c.name);
      if a.name == c.name && a.name != b.name { Canonical.LeqAntisymmetric(a.name, b.name); }
    }
  }

  function ActiveOf(topics: seq<Topic>): seq<Topic> {
    if topics == [] then []
    else
      var rest, last := ActiveOf(topics[..|topics| - 1]), topics[|topics| - 1];
      if last.active then rest + [last] else rest
  }

  lemma {:induction false} ActiveMeans(topics: seq<Topic>, t: Topic)
    ensures t in ActiveOf(topics) <==> t in topics && t.active
  {
    if topics != [] { ActiveMeans(topics[..|topics| - 1], t); }
  }

  lemma {:induction false} ActiveIdsDiffer(topics: seq<Topic>)
    requires DistinctIds(topics)
    ensures DistinctIds(ActiveOf(topics))
  {
    if topics != [] {
      var n := |topics| - 1;
      ActiveIdsDiffer(topics[..n]);
      forall t | t in ActiveOf(topics[..n]) ensures t.id != topics[n].id {
        ActiveMeans(topics[..n], t);
        var k :| 0 <= k < n && topics[..n][k] == t;
        assert topics[k] == t;
      }
    }
  }

  function Self(t: Topic): Topic { t }

  function Candidates(topics: seq<Topic>, collate: (string, string) -> bool): seq<Topic> {
    SortBy(Ranking(collate), Self, ActiveOf(topics))
  }

  lemma {:induction false} EachOnce(ts: seq<Topic>, t: Topic)
    requires DistinctIds(ts)
    ensures multiset(ts)[t] <= 1
  {
    if ts != [] {
      var n := |ts| - 1;
      EachOnce(ts[..n], t);
      assert ts == ts[..n] + [ts[n]];
      if ts[n] == t && t in ts[..n] {
        var k :| 0 <= k < n && ts[..n][k] == t;
        assert ts[k].id == ts[n].id;
      }
    }
  }

  lemma TwoPlaces(ts: seq<Topic>, i: nat, j: nat)
    requires i < j < |ts| && ts[i] == ts[j]
    ensures multiset(ts)[ts[i]] >= 2
  {
    assert ts == ts[..j] + [ts[j]] + ts[j + 1..];
    assert ts[i] in ts[..j];
  }

  lemma RearrangedOnce(ts: seq<Topic>, sorted: seq<Topic>)
    requires DistinctIds(ts) && multiset(sorted) == multiset(ts) && forall t :: t in sorted <==> t in ts
    ensures DistinctIds(sorted)
  {
    forall i, j | 0 <= i < j < |sorted| ensures sorted[i].id != sorted[j].id {
      if sorted[i].id == sorted[j].id {
        assert sorted[i] in ts && sorted[j] in ts;
        SameTopic(ts, sorted[i], sorted[j]);
        TwoPlaces(sorted, i, j);
        EachOnce(ts, sorted[i]);
      }
    }
  }

  lemma PrecedingRanks(collate: (string, string) -> bool, sorted: seq<Topic>, t: Topic, u: Topic)
    requires SortedBy(Ranking(collate), Self, sorted) && Precedes(sorted, t, u)
    ensures RanksBefore(collate, t, u)
  {
    var i, j :| 0 <= i < j < |sorted| && sorted[i] == t && sorted[j] == u;
    assert Ranking(collate)(Self(sorted[i]), Self(sorted[j]));
  }

  /** The candidates are the active topics, each once, in their order. */
  lemma CandidatesMean(topics: seq<Topic>, collate: (string, string) -> bool)
    requires DistinctIds(topics) && TotalOrder(collate)
    ensures DistinctIds(Candidates(topics, collate)) && |Candidates(topics, collate)| == |ActiveOf(topics)|
    ensures forall t :: t in Candidates(topics, collate) <==> t in topics && t.active
    ensures forall t, u :: Precedes(Candidates(topics, collate), t, u) ==> RanksBefore(collate, t, u)
  {
    hide SortBy, TotalOrder, RanksBefore, DistinctIds, Precedes, SortedBy, ActiveOf;
    var active, candidates := ActiveOf(topics), Candidates(topics, collate);
    RankingIsTotal(collate);
    ActiveIdsDiffer(topics);
    SortByHolds(Ranking(collate), Self, active);
    SortBySorts(Ranking(collate), Self, active);
    RearrangedOnce(active, candidates);
    forall t ensures t in candidates <==> t in topics && t.active { ActiveMeans(topics, t); }
    forall t, u | Precedes(candidates, t, u) ensures RanksBefore(collate, t, u) { PrecedingRanks(collate, candidates, t, u); }
  }

  /** t is active, and no active topic of its root ranks before it. */
  ghost predicate BestOfRoot(topics: seq<Topic>, collate: (string, string) -> bool, rootOf: Topic -> Slug, t: Topic) {
    && t in topics && t.active
    && forall u :: u in topics && u.active && rootOf(u) == rootOf(t) && u != t ==> RanksBefore(collate, t, u)
  }

  lemma LeaderIsBest(topics: seq<Topic>, collate: (string, string) -> bool, rootOf: Topic -> Slug, t: Topic)
    requires DistinctIds(topics) && TotalOrder(collate) && Leads(Candidates(topics, collate), rootOf, t)
    ensures BestOfRoot(topics, collate, rootOf, t)
  {
    CandidatesMean(topics, collate);
    hide Candidates, RanksBefore, TotalOrder;
    var candidates := Candidates(topics, collate);
    var p :| 0 <= p < |candidates| && candidates[p] == t && forall k :: 0 <= k < p ==> rootOf(candidates[k]) != rootOf(t);
    forall u | u in topics && u.active && rootOf(u) == rootOf(t) && u != t ensures RanksBefore(collate, t, u) {
      var q :| 0 <= q < |candidates| && candidates[q] == u;
      assert Precedes(candidates, t, u);
    }
  }

  lemma SameRoots(topics: seq<Topic>, collate: (string, string) -> bool, rootOf: Topic -> Slug)
    requires DistinctIds(topics) && TotalOrder(collate)
    ensures Roots(Candidates(topics, collate), rootOf) == Roots(ActiveOf(topics), rootOf)
  {
    CandidatesMean(topics, collate);
    forall t ensures t in Candidates(topics, collate) <==> t in ActiveOf(topics) { ActiveMeans(topics, t); }
    hide Candidates, ActiveOf;
  }

  /** The featured topics: active ones, as many as asked for; first the best of as many different
      roots as there are or as fit, each better than any topic of a root left out; then the best of
      the others. */
  method SelectFeatured(topics: seq<Topic>, collate: (string, string) -> bool, rootOf: Topic -> Slug, count: nat) returns (selected: seq<Topic>)
    requires DistinctIds(topics) && TotalOrder(collate)
    ensures DistinctIds(selected) && forall i :: 0 <= i < |selected| ==> selected[i] in topics && selected[i].active
    ensures |selected| == if 0 < count < |ActiveOf(topics)| then count else |ActiveOf(topics)|
    ensures var spread := Spread(ActiveOf(topics), rootOf, count);
            && spread <= |selected| && DistinctRoots(selected[..spread], rootOf)
            && (forall i :: 0 <= i < spread ==> BestOfRoot(topics, collate, rootOf, selected[i]))
            && (forall t, u :: t in selected[..spread] && u in topics && u.active && rootOf(u) !in Roots(selected[..spread], rootOf) ==>
                  RanksBefore(collate, t, u))
            && (forall t, u :: t in selected[spread..] && u in topics && u.active && u !in selected ==> RanksBefore(collate, t, u))
  {
    CandidatesMean(topics, collate);
    SameRoots(topics, collate, rootOf);
    hide Candidates, RanksBefore, TotalOrder, DistinctIds, DistinctRoots, Roots, Precedes, Leads, BestOfRoot, ActiveOf;
    var candidates := Candidates(topics, collate);
    selected := SelectFrom(candidates, rootOf, count);
    forall i | 0 <= i < Spread(candidates, rootOf, count) ensures BestOfRoot(topics, collate, rootOf, selected[i]) {
      LeaderIsBest(topics, collate, rootOf, selected[i]);
    }
  }

  lemma SameTopic(candidates: seq<Topic>, s: Topic, t: Topic)
    requires DistinctIds(candidates) && s in candidates && t in candidates && s.id == t.id
    ensures s == t
  {
  }

  lemma LeadersFit(candidates: seq<Topic>, rootOf: Topic -> Slug, leaders: seq<Topic>)
    requires DistinctIds(candidates) && DistinctRoots(leaders, rootOf)
    requires forall i :: 0 <= i < |leaders| ==> Leads(candidates, rootOf, leaders[i])
    ensures DistinctIds(leaders) && forall i :: 0 <= i < |leaders| ==> leaders[i] in candidates
  {
  }

  lemma FitsIn(candidates: seq<Topic>, selected: seq<Topic>)
    requires DistinctIds(selected) && forall i :: 0 <= i < |selected| ==> selected[i] in candidates
    ensures |selected| <= |candidates|
  {
    var ids := set t | t in candidates :: t.id;
    IdsFit(selected, ids);
    IdsBound(candidates);
  }

  lemma {:induction false} IdsBound(ts: seq<Topic>)
    ensures |set t | t in ts :: t.id| <= |ts|
  {
    if ts != [] {
      var n := |ts| - 1;
      IdsBound(ts[..n]);
      assert (set t | t in ts :: t.id) == (set t | t in ts[..n] :: t.id) + {ts[n].id};
    }
  }
}
