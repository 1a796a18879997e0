/** Reconciling the topic registry with the database: the read-only diff, the transactional
    sync, and why a diff after a committed sync is empty. */
module RegistrySync {
  import opened Sorting
  import opened UniqueNames
  import opened Windows
  import opened Wrappers
  import Canonical

  /** By top-level key, each value in a form that tells values apart. */
  type Metadata = map<string, string>

  datatype TopicStatus = Active | Paused | Deprecated

  // ---------- What both sides know about an entity ----------

  datatype CategoryView = CategoryView(name: string, description: Option<string>, parent: Option<Slug>, sortOrder: int)

  datatype TopicView = TopicView(canonicalName: string, normalizedName: string, description: string, category: Option<Slug>,
                                 status: TopicStatus, priority: int, metadata: Metadata)

  datatype AliasView = AliasView(value: string, aliasType: nat, matchMode: nat, caseSensitive: bool, deprecated: bool,
                                 confidence: real, metadata: Metadata)

  datatype MappingView = MappingView(enabled: bool, externalIdentifier: Option<string>, query: Option<string>, configuration: Metadata)

  // ---------- The registry ----------

  datatype CategoryDefinition = CategoryDefinition(slug: Slug, view: CategoryView)

  /** column, here and in a topic: what the database's JSON column hands back for the metadata.
      None where the metadata cannot be written as JSON, as a date cannot; something else where its
      shape is lost, as with a nested key that is a number. */
  datatype AliasDefinition = AliasDefinition(normalized: string, view: AliasView, column: Option<Metadata>)

  datatype SourceDefinition = SourceDefinition(source: string, enabled: bool, values: seq<string>, configuration: Metadata)

  datatype TopicDefinition = TopicDefinition(
    slug: Slug, canonicalName: string, normalizedName: string, description: string, category: Slug,
    status: TopicStatus, priority: int, metadata: Metadata, column: Option<Metadata>,
    aliases: seq<AliasDefinition>, sources: seq<SourceDefinition>)

  datatype Issue = Issue(code: string, message: string, file: string, entity: string)

  datatype Registry = Registry(categories: seq<CategoryDefinition>, topics: seq<TopicDefinition>, warnings: seq<Issue>, checksum: string)

  function CategorySlugs(cs: seq<CategoryDefinition>): set<Slug> { set c | c in cs :: c.slug }

  function TopicSlugs(ts: seq<TopicDefinition>): set<Slug> { set t | t in ts :: t.slug }

  /** What the loader has checked; a source appears at most once by the shape of the file. */
  ghost predicate Validated(r: Registry) {
    && (forall i, j :: 0 <= i < j < |r.categories| ==> r.categories[i].slug != r.categories[j].slug)
    && (forall c :: c in r.categories && c.view.parent.Some? ==> c.view.parent.value in CategorySlugs(r.categories))
    && (forall i, j :: 0 <= i < j < |r.topics| ==> r.topics[i].slug != r.topics[j].slug)
    && (forall t :: t in r.topics ==> t.category in CategorySlugs(r.categories) && DistinctSources(t.sources))
    && (forall i, j :: 0 <= i < j < |r.categories| ==> r.categories[i].view.name != r.categories[j].view.name)
    && (forall i, j :: 0 <= i < j < |r.topics| ==> r.topics[i].normalizedName != r.topics[j].normalizedName)
  }

  ghost predicate DistinctSources(ss: seq<SourceDefinition>) {
    forall i, j :: 0 <= i < j < |ss| ==> ss[i].source != ss[j].source
  }

  function TopicViewOf(t: TopicDefinition): TopicView {
    TopicView(t.canonicalName, t.normalizedName, t.description, Some(t.category), t.status, t.priority, t.metadata)
  }

  /** The topic as the database has it after a sync. */
  function StoredTopic(t: TopicDefinition): TopicView {
    TopicViewOf(t).(metadata := if t.column.Some? then t.column.value else t.metadata)
  }

  function StoredAlias(a: AliasDefinition): AliasView {
    a.view.(metadata := if a.column.Some? then a.column.value else a.view.metadata)
  }

  function MappingViewOf(s: SourceDefinition): MappingView {
    MappingView(
      s.enabled,
      if s.source == "wikipedia" && |s.values| == 1 then Some(s.values[0]) else None,
      if s.source != "wikipedia" && |s.values| == 1 then Some(s.values[0]) else None,
      s.configuration)
  }

  // ---------- The database ----------

  /** scoped: the normalized aliases of the topic that belong to one source only; they share
      the unique key with the global ones, and sync does not see them. */
  datatype TopicRow = TopicRow(
    view: TopicView, registryVersion: nat, deprecatedAt: Option<Instant>,
    aliases: map<string, AliasView>, scoped: set<string>, mappings: map<string, MappingView>)

  datatype Version = Version(number: nat, checksum: string, warnings: seq<Issue>)

  datatype Db = Db(categories: map<Slug, CategoryView>, topics: map<Slug, TopicRow>, versions: seq<Version>)

  function Latest(db: Db): Option<Version> {
    if db.versions == [] then None else Some(db.versions[|db.versions| - 1])
  }

  // ---------- Sorted sets ----------

  lemma {:induction false} LeastExists(s: set<string>) returns (x: string)
    requires s != {}
    ensures x in s && forall y :: y in s ==> Canonical.Leq(x, y)
    decreases |s|
  {
    x :| x in s;
    Canonical.LeqTotal(x, x);
    var rest := s - {x};
    if rest == {} {
      assert s == {x};
    } else {
      var z := LeastExists(rest);
      Canonical.LeqTotal(x, z);
      var first := if Canonical.Leq(x, z) then x else z;
      forall y | y in s ensures Canonical.Leq(first, y) {
        if y != x && first == x { Canonical.LeqTransitive(x, z, y); }
      }
      x := first;
    }
  }

  ghost function Least(s: set<string>): (x: string)
    requires s != {}
    ensures x in s && forall y :: y in s ==> Canonical.Leq(x, y)
  {
    assert exists x :: x in s && forall y :: y in s ==> Canonical.Leq(x, y) by { var x := LeastExists(s); }
    var x :| x in s && forall y :: y in s ==> Canonical.Leq(x, y);
    x
  }

  /** sorted(s) */
  ghost function SortedSet(s: set<string>): seq<string> {
    if s == {} then [] else [Least(s)] + SortedSet(s - {Least(s)})
  }

  lemma {:induction false} SortedSetAppend(s: set<string>, done: seq<string>, left: set<string>)
    requires done + SortedSet(left) == SortedSet(s) && left != {}
    ensures (done + [Least(left)]) + SortedSet(left - {Least(left)}) == SortedSet(s)
  {
  }

  method SortElements(s: set<string>) returns (sorted: seq<string>)
    ensures sorted == SortedSet(s)
  {
    sorted := [];
    var left := s;
    assert [] + SortedSet(s) == SortedSet(s);
    while left != {}
      invariant sorted + SortedSet(left) == SortedSet(s)
      decreases left
    {
      ghost var least := Least(left);
      var x :| x in left && forall y :: y in left ==> Canonical.Leq(x, y);
      Canonical.LeqAntisymmetric(x, Least(left));
      SortedSetAppend(s, sorted, left);
      sorted := sorted + [x];
      left := left - {x};
    }
    assert sorted + [] == sorted;
  }

  // ---------- The diff ----------

  datatype Action = Create | Update | Add | RegistryUpdate

  datatype Change = Change(action: Action, entity: string, key: string)

  datatype Diff = Diff(changes: seq<Change>, warnings: seq<Issue>)

  /** warning_payloads: ordered by code, entity, file and message. */
  function WarningPayloads(warnings: seq<Issue>, order: Issue -> string): seq<Issue> {
    Canonical.Sorted(warnings, order)
  }

  function OrphanIssue(code: string, entity: string): Issue { Issue(code, "retained", "", entity) }

  function OrphanIssues(code: string, prefix: string, names: seq<string>): seq<Issue> {
    seq(|names|, i requires 0 <= i < |names| => OrphanIssue(code, prefix + names[i]))
  }

  function CategoryChange(categories: map<Slug, CategoryView>, c: CategoryDefinition): seq<Change> {
    if c.slug !in categories then [Change(Create, "category", c.slug)]
    else if categories[c.slug] != c.view then [Change(Update, "category", c.slug)]
    else []
  }

  function CategoryChanges(categories: map<Slug, CategoryView>, cs: seq<CategoryDefinition>): seq<Change> {
    if cs == [] then [] else CategoryChanges(categories, cs[..|cs| - 1]) + CategoryChange(categories, cs[|cs| - 1])
  }

  /** The desired aliases as a dictionary: a repeated key keeps its first place and its last value. */
  function DesiredAliases(aliases: seq<AliasDefinition>): map<string, AliasView> {
    if aliases == [] then map[]
    else DesiredAliases(aliases[..|aliases| - 1])[aliases[|aliases| - 1].normalized := aliases[|aliases| - 1].view]
  }

  /** The same dictionary as the database has it after a sync, */
  function StoredAliases(aliases: seq<AliasDefinition>): map<string, AliasView> {
    if aliases == [] then map[]
    else StoredAliases(aliases[..|aliases| - 1])[aliases[|aliases| - 1].normalized := StoredAlias(aliases[|aliases| - 1])]
  }

  /** and whether the values it holds can be written at all. */
  function Writable(aliases: seq<AliasDefinition>): map<string, bool> {
    if aliases == [] then map[]
    else Writable(aliases[..|aliases| - 1])[aliases[|aliases| - 1].normalized := aliases[|aliases| - 1].column.Some?]
  }

  function AliasKeys(aliases: seq<AliasDefinition>): (keys: seq<string>)
    ensures forall k :: k in keys <==> k in DesiredAliases(aliases)
  {
    if aliases == [] then []
    else
      var keys := AliasKeys(aliases[..|aliases| - 1]);
      if aliases[|aliases| - 1].normalized in keys then keys else keys + [aliases[|aliases| - 1].normalized]
  }

  function AliasChange(slug: Slug, current: map<string, AliasView>, desired: map<string, AliasView>, key: string): seq<Change> {
    if key !in current then [Change(Add, "alias", slug + ":" + key)]
    else if key in desired && current[key] != desired[key] then [Change(Update, "alias", slug + ":" + key)]
    else []
  }

  function AliasChanges(slug: Slug, current: map<string, AliasView>, desired: map<string, AliasView>, keys: seq<string>): seq<Change> {
    if keys == [] then [] else AliasChanges(slug, current, desired, keys[..|keys| - 1]) + AliasChange(slug, current, desired, keys[|keys| - 1])
  }

  function MappingChange(slug: Slug, current: map<string, MappingView>, s: SourceDefinition): seq<Change> {
    if s.source !in current then [Change(Add, "mapping", slug + ":" + s.source)]
    else if current[s.source] != MappingViewOf(s) then [Change(Update, "mapping", slug + ":" + s.source)]
    else []
  }

  function MappingChanges(slug: Slug, current: map<string, MappingView>, ss: seq<SourceDefinition>): seq<Change> {
    if ss == [] then [] else MappingChanges(slug, current, ss[..|ss| - 1]) + MappingChange(slug, current, ss[|ss| - 1])
  }

  function SourceNames(ss: seq<SourceDefinition>): set<string> { set s | s in ss :: s.source }

  /** A topic that is new counts every alias it lists; one that is known compares its dictionary. */
  function TopicChange(topics: map<Slug, TopicRow>, t: TopicDefinition): seq<Change> {
    if t.slug !in topics then
      [Change(Create, "topic", t.slug)]
      + seq(|t.aliases|, i requires 0 <= i < |t.aliases| => Change(Add, "alias", t.slug + ":" + t.aliases[i].normalized))
      + MappingChanges(t.slug, map[], t.sources)
    else
      var row := topics[t.slug];
      (if row.view != TopicViewOf(t) then [Change(Update, "topic", t.slug)] else [])
      + AliasChanges(t.slug, row.aliases, DesiredAliases(t.aliases), AliasKeys(t.aliases))
      + MappingChanges(t.slug, row.mappings, t.sources)
  }

  ghost function TopicWarnings(topics: map<Slug, TopicRow>, t: TopicDefinition): seq<Issue> {
    if t.slug !in topics then []
    else
      OrphanIssues("ORPHANED_DATABASE_ALIAS", t.slug + ":", SortedSet(topics[t.slug].aliases.Keys - DesiredAliases(t.aliases).Keys))
      + OrphanIssues("ORPHANED_DATABASE_MAPPING", t.slug + ":", SortedSet(topics[t.slug].mappings.Keys - SourceNames(t.sources)))
  }

  function TopicChanges(topics: map<Slug, TopicRow>, ts: seq<TopicDefinition>): seq<Change> {
    if ts == [] then [] else TopicChanges(topics, ts[..|ts| - 1]) + TopicChange(topics, ts[|ts| - 1])
  }

  ghost function AllTopicWarnings(topics: map<Slug, TopicRow>, ts: seq<TopicDefinition>): seq<Issue> {
    if ts == [] then [] else AllTopicWarnings(topics, ts[..|ts| - 1]) + TopicWarnings(topics, ts[|ts| - 1])
  }

  ghost function Warnings(db: Db, r: Registry): seq<Issue> {
    r.warnings
    + OrphanIssues("ORPHANED_DATABASE_CATEGORY", "", SortedSet(db.categories.Keys - CategorySlugs(r.categories)))
    + AllTopicWarnings(db.topics, r.topics)
    + OrphanIssues("ORPHANED_DATABASE_TOPIC", "", SortedSet(db.topics.Keys - TopicSlugs(r.topics)))
  }

  function EntityChanges(db: Db, r: Registry): seq<Change> {
    CategoryChanges(db.categories, r.categories) + TopicChanges(db.topics, r.topics)
  }

  /** A registry whose entities all agree still counts as changed when its checksum or its
      warnings differ from those of the latest version. */
  function RegistryChange(db: Db, r: Registry, payload: seq<Issue>): seq<Change> {
    if Latest(db).Some? && (Latest(db).value.checksum != r.checksum || Latest(db).value.warnings != payload)
    then [Change(RegistryUpdate, "registry", "topic-registry")] else []
  }

  ghost function Changes(db: Db, r: Registry, order: Issue -> string): seq<Change> {
    if EntityChanges(db, r) != [] then EntityChanges(db, r)
    else RegistryChange(db, r, WarningPayloads(Warnings(db, r), order))
  }

  method Compare(db: Db, r: Registry, order: Issue -> string) returns (diff: Diff)
    ensures diff.changes == Changes(db, r, order)
    ensures diff.warnings == Warnings(db, r)
  {
    var changes, warnings := [], r.warnings;
    var i := 0;
    while i < |r.categories|
      invariant 0 <= i <= |r.categories|
      invariant changes == CategoryChanges(db.categories, r.categories[..i])
    {
      assert r.categories[..i + 1][..i] == r.categories[..i];
      changes := changes + CategoryChange(db.categories, r.categories[i]);
      i := i + 1;
    }
    assert r.categories[..i] == r.categories;
    var orphans := SortElements(db.categories.Keys - CategorySlugs(r.categories));
    warnings := warnings + OrphanIssues("ORPHANED_DATABASE_CATEGORY", "", orphans);

    var topicChanges, topicWarnings := CompareTopics(db.topics, r.topics);
    changes, warnings := changes + topicChanges, warnings + topicWarnings;
    orphans := SortElements(db.topics.Keys - TopicSlugs(r.topics));
    warnings := warnings + OrphanIssues("ORPHANED_DATABASE_TOPIC", "", orphans);
    if changes == [] { changes := RegistryChange(db, r, WarningPayloads(warnings, order)); }
    diff := Diff(changes, warnings);
  }

  method CompareTopics(topics: map<Slug, TopicRow>, ts: seq<TopicDefinition>) returns (changes: seq<Change>, warnings: seq<Issue>)
    ensures changes == TopicChanges(topics, ts) && warnings == AllTopicWarnings(topics, ts)
  {
    hide TopicChange, TopicWarnings;
    changes, warnings := [], [];
    var i := 0;
    while i < |ts|
      invariant 0 <= i <= |ts|
      invariant changes == TopicChanges(topics, ts[..i]) && warnings == AllTopicWarnings(topics, ts[..i])
    {
      assert ts[..i + 1][..i] == ts[..i];
      var found, orphans := CompareTopic(topics, ts[i]);
      changes, warnings := changes + found, warnings + orphans;
      i := i + 1;
    }
    assert ts[..i] == ts;
  }

  method CompareTopic(topics: map<Slug, TopicRow>, t: TopicDefinition) returns (changes: seq<Change>, warnings: seq<Issue>)
    ensures changes == TopicChange(topics, t) && warnings == TopicWarnings(topics, t)
  {
    changes, warnings := TopicChange(topics, t), [];
    if t.slug in topics {
      var aliases := SortElements(topics[t.slug].aliases.Keys - DesiredAliases(t.aliases).Keys);
      var mappings := SortElements(topics[t.slug].mappings.Keys - SourceNames(t.sources));
      warnings := OrphanIssues("ORPHANED_DATABASE_ALIAS", t.slug + ":", aliases)
        + OrphanIssues("ORPHANED_DATABASE_MAPPING", t.slug + ":", mappings);
    }
  }

  // ---------- The unique names ----------

  function CategoryNames(rows: map<Slug, CategoryView>): Names { map s | s in rows :: rows[s].name }

  function TopicNames(rows: map<Slug, TopicRow>): Names { map s | s in rows :: rows[s].view.normalizedName }

  /** The tables are ones the database can hold. */
  ghost predicate Storable(db: Db) {
    Unique(CategoryNames(db.categories)) && Unique(TopicNames(db.topics))
  }

  function CategoryWrite(c: CategoryDefinition): Write { Write(c.slug, c.view.name) }

  function CategoryWrites(cs: seq<CategoryDefinition>): seq<Write> { seq(|cs|, i requires 0 <= i < |cs| => CategoryWrite(cs[i])) }

  function TopicWrites(ts: seq<TopicDefinition>): seq<Write> {
    seq(|ts|, i requires 0 <= i < |ts| => Write(ts[i].slug, ts[i].normalizedName))
  }

  /** The definitions whose slug has a row, or those that have none. */
  function Listed(rows: map<Slug, CategoryView>, cs: seq<CategoryDefinition>, known: bool): seq<CategoryDefinition> {
    if cs == [] then []
    else
      var rest, c := Listed(rows, cs[..|cs| - 1], known), cs[|cs| - 1];
      if (c.slug in rows) == known then rest + [c] else rest
  }

  function PrimaryKey(keys: Slug -> int): CategoryDefinition -> int { (c: CategoryDefinition) => keys(c.slug) }

  /** All categories go out in one flush: the session writes updates before inserts, updates in
      the order of the primary keys and inserts in the order in which the rows were added. */
  function FlushOrder(rows: map<Slug, CategoryView>, cs: seq<CategoryDefinition>, keys: Slug -> int): seq<CategoryDefinition> {
    SortBy(AtMost, PrimaryKey(keys), Listed(rows, cs, true)) + Listed(rows, cs, false)
  }

  /** The unique keys on names let the registry in. Topics are flushed one by one, in the registry's order. */
  ghost predicate RegistryNamesFit(db: Db, r: Registry, keys: Slug -> int) {
    && NamesFit(CategoryNames(db.categories), CategoryWrites(FlushOrder(db.categories, r.categories, keys)))
    && NamesFit(TopicNames(db.topics), TopicWrites(r.topics))
  }

  lemma {:induction false} ListedSplits(rows: map<Slug, CategoryView>, cs: seq<CategoryDefinition>)
    ensures multiset(cs) == multiset(Listed(rows, cs, true)) + multiset(Listed(rows, cs, false))
  {
    if cs != [] {
      ListedSplits(rows, cs[..|cs| - 1]);
      assert cs == cs[..|cs| - 1] + [cs[|cs| - 1]];
    }
  }

  /** The flush writes every category once. */
  lemma FlushRearranges(rows: map<Slug, CategoryView>, cs: seq<CategoryDefinition>, keys: Slug -> int)
    ensures multiset(FlushOrder(rows, cs, keys)) == multiset(cs)
  {
    ListedSplits(rows, cs);
    AtMostIsTotal();
    SortBySorts(AtMost, PrimaryKey(keys), Listed(rows, cs, true));
  }

  lemma RearrangedDistinct(cs: seq<CategoryDefinition>, order: seq<CategoryDefinition>)
    requires multiset(order) == multiset(cs)
    requires forall i, j :: 0 <= i < j < |cs| ==> cs[i].slug != cs[j].slug && cs[i].view.name != cs[j].view.name
    ensures Distinct(CategoryWrites(order))
  {
    forall i, j | 0 <= i < j < |order| ensures order[i].slug != order[j].slug && order[i].view.name != order[j].view.name {
      OnceEach(cs, order, i, j);
      assert order[i] in multiset(cs) && order[j] in multiset(cs);
    }
  }

  lemma OnceEach(cs: seq<CategoryDefinition>, order: seq<CategoryDefinition>, i: nat, j: nat)
    requires multiset(order) == multiset(cs) && i < j < |order|
    requires forall i, j :: 0 <= i < j < |cs| ==> cs[i] != cs[j]
    ensures order[i] != order[j]
  {
    AtMostOnce(cs, order[i]);
    assert order == order[..j] + [order[j]] + order[j + 1..];
    assert order[i] in order[..j];
  }

  lemma {:induction false} AtMostOnce(cs: seq<CategoryDefinition>, c: CategoryDefinition)
    requires forall i, j :: 0 <= i < j < |cs| ==> cs[i] != cs[j]
    ensures multiset(cs)[c] <= 1
  {
    if cs != [] {
      var n := |cs| - 1;
      AtMostOnce(cs[..n], c);
      assert cs == cs[..n] + [cs[n]];
      forall k | 0 <= k < n ensures cs[..n][k] != cs[n] {}
    }
  }

  // ---------- The sync ----------

  /** The first pass: everything but the parent, which a new row does not have yet. */
  ghost predicate CategoriesNamed(existing: map<Slug, CategoryView>, cs: seq<CategoryDefinition>, rows: map<Slug, CategoryView>) {
    && rows.Keys == existing.Keys + CategorySlugs(cs)
    && (forall i :: 0 <= i < |cs| ==> cs[i].slug in rows && rows[cs[i].slug].(parent := None) == cs[i].view.(parent := None))
    && (forall slug :: slug in existing && slug !in CategorySlugs(cs) ==> rows[slug] == existing[slug])
  }

  lemma OneMoreCategory(existing: map<Slug, CategoryView>, cs: seq<CategoryDefinition>, i: nat, rows: map<Slug, CategoryView>, view: CategoryView)
    requires i < |cs| && forall k :: 0 <= k < i ==> cs[k].slug != cs[i].slug
    requires CategoriesNamed(existing, cs[..i], rows) && view.(parent := None) == cs[i].view.(parent := None)
    ensures CategoriesNamed(existing, cs[..i + 1], rows[cs[i].slug := view])
  {
    assert cs[..i + 1] == cs[..i] + [cs[i]];
    assert CategorySlugs(cs[..i + 1]) == CategorySlugs(cs[..i]) + {cs[i].slug};
    forall k | 0 <= k < i ensures cs[..i + 1][k] == cs[..i][k] {}
  }

  method SyncCategories(existing: map<Slug, CategoryView>, cs: seq<CategoryDefinition>, keys: Slug -> int)
    returns (rows: map<Slug, CategoryView>, ok: bool)
    requires forall i, j :: 0 <= i < j < |cs| ==> cs[i].slug != cs[j].slug && cs[i].view.name != cs[j].view.name
    requires forall c :: c in cs && c.view.parent.Some? ==> c.view.parent.value in CategorySlugs(cs)
    ensures ok <==> NamesFit(CategoryNames(existing), CategoryWrites(FlushOrder(existing, cs, keys)))
    ensures ok ==> CategoriesSynced(existing, cs, rows)
    ensures ok && Unique(CategoryNames(existing)) ==> Unique(CategoryNames(rows))
  {
    hide CategoriesNamed, CategoriesSynced, FlushOrder, NamesFit, Unique, Distinct, CategoryWrites;
    rows := NameCategories(existing, cs);
    var order := FlushOrder(existing, cs, keys);
    FlushRearranges(existing, cs, keys);
    RearrangedDistinct(cs, order);
    var names;
    names, ok := Flush(CategoryNames(existing), CategoryWrites(order));
    if !ok { return; }
    rows := SyncParents(existing, cs, rows);
    CategoriesStored(existing, cs, order, rows);
  }

  /** The rows after the sync hold the names that were written. */
  lemma CategoriesStored(existing: map<Slug, CategoryView>, cs: seq<CategoryDefinition>, order: seq<CategoryDefinition>, rows: map<Slug, CategoryView>)
    requires CategoriesSynced(existing, cs, rows) && multiset(order) == multiset(cs) && Distinct(CategoryWrites(order))
    ensures CategoryNames(rows) == Written(CategoryNames(existing), CategoryWrites(order))
  {
    var before, after, writes := CategoryNames(existing), CategoryNames(rows), CategoryWrites(order);
    forall slug ensures (slug in after <==> slug in Written(before, writes)) && (slug in after ==> after[slug] == Written(before, writes)[slug]) {
      WrittenMeans(before, writes, slug);
      if slug in CategorySlugs(cs) {
        var i :| 0 <= i < |cs| && cs[i].slug == slug;
        assert cs[i] in multiset(order);
        var k :| 0 <= k < |order| && order[k] == cs[i];
        assert writes[k].slug == slug;
      }
      if k :| 0 <= k < |writes| && writes[k].slug == slug {
        assert order[k] in multiset(cs);
      }
    }
  }

  /** The first pass: everything but the parents. */
  method NameCategories(existing: map<Slug, CategoryView>, cs: seq<CategoryDefinition>) returns (rows: map<Slug, CategoryView>)
    requires forall i, j :: 0 <= i < j < |cs| ==> cs[i].slug != cs[j].slug
    ensures CategoriesNamed(existing, cs, rows)
  {
    rows := existing;
    var i := 0;
    while i < |cs|
      invariant 0 <= i <= |cs|
      invariant CategoriesNamed(existing, cs[..i], rows)
    {
      var desired := cs[i];
      var view := desired.view.(parent := if desired.slug in rows then rows[desired.slug].parent else None);
      OneMoreCategory(existing, cs, i, rows, view);
      rows := rows[desired.slug := view];
      i := i + 1;
    }
    assert cs[..i] == cs;
  }

  /** The second pass: every parent is a row by now. */
  method SyncParents(ghost existing: map<Slug, CategoryView>, cs: seq<CategoryDefinition>, named: map<Slug, CategoryView>)
    returns (rows: map<Slug, CategoryView>)
    requires forall i, j :: 0 <= i < j < |cs| ==> cs[i].slug != cs[j].slug
    requires forall c :: c in cs && c.view.parent.Some? ==> c.view.parent.value in CategorySlugs(cs)
    requires CategoriesNamed(existing, cs, named)
    ensures CategoriesSynced(existing, cs, rows)
  {
    rows := named;
    var i := 0;
    while i < |cs|
      invariant 0 <= i <= |cs|
      invariant CategoriesNamed(existing, cs, rows)
      invariant forall k :: 0 <= k < i ==> rows[cs[k].slug] == cs[k].view
    {
      var desired := cs[i];
      var parent := desired.view.parent;
      assert desired in cs && desired.slug in CategorySlugs(cs);
      rows := rows[desired.slug := rows[desired.slug].(parent := if parent.Some? && parent.value in rows then parent else None)];
      assert rows[desired.slug] == desired.view;
      i := i + 1;
    }
  }

  ghost predicate CategoriesSynced(existing: map<Slug, CategoryView>, cs: seq<CategoryDefinition>, rows: map<Slug, CategoryView>) {
    && rows.Keys == existing.Keys + CategorySlugs(cs)
    && (forall i :: 0 <= i < |cs| ==> cs[i].slug in rows && rows[cs[i].slug] == cs[i].view)
    && (forall slug :: slug in existing && slug !in CategorySlugs(cs) ==> rows[slug] == existing[slug])
  }

  /** The unique key on (topic, normalized alias) lets the aliases in: an alias that is not
      there yet is listed once, and no source-scoped alias has its place. */
  ghost predicate AliasesFit(existing: map<string, AliasView>, scoped: set<string>, aliases: seq<AliasDefinition>) {
    && (forall i :: 0 <= i < |aliases| && aliases[i].normalized in scoped ==> aliases[i].normalized in existing)
    && (forall i, j :: 0 <= i < j < |aliases| && aliases[i].normalized == aliases[j].normalized ==> aliases[i].normalized in existing)
  }

  /** The metadata of the topic and of its aliases can be written as JSON. */
  ghost predicate MetadataFits(t: TopicDefinition) {
    t.column.Some? && AliasMetadataFits(t.aliases)
  }

  ghost predicate AliasMetadataFits(aliases: seq<AliasDefinition>) {
    forall k :: k in Writable(aliases) ==> Writable(aliases)[k]
  }

  /** The dictionary of existing aliases is not extended while the new ones are added, so a
      repeated new alias is inserted twice and the flush fails; and so it does on metadata that
      cannot be written. */
  method SyncAliases(existing: map<string, AliasView>, scoped: set<string>, aliases: seq<AliasDefinition>)
    returns (rows: map<string, AliasView>, ok: bool)
    ensures ok <==> AliasesFit(existing, scoped, aliases) && AliasMetadataFits(aliases)
    ensures ok ==> rows == existing + StoredAliases(aliases)
  {
    rows, ok := existing, true;
    var inserted: set<string> := {};
    var written: map<string, bool> := map[];
    var i := 0;
    assert existing + StoredAliases([]) == existing;
    while i < |aliases|
      invariant 0 <= i <= |aliases|
      invariant rows == existing + StoredAliases(aliases[..i]) && written == Writable(aliases[..i])
      invariant inserted == AliasNames(aliases[..i]) - existing.Keys
      invariant ok <==> AliasesFit(existing, scoped, aliases[..i])
    {
      var desired := aliases[i];
      FitOneMore(existing, scoped, aliases, i);
      StoreOneMore(existing, aliases, i);
      hide AliasesFit, StoredAliases, Writable, AliasNames;
      if desired.normalized !in existing {
        ok := ok && desired.normalized !in inserted && desired.normalized !in scoped;
        inserted := inserted + {desired.normalized};
      }
      rows := rows[desired.normalized := StoredAlias(desired)];
      written := written[desired.normalized := desired.column.Some?];
      i := i + 1;
    }
    assert aliases[..i] == aliases;
    ok := ok && forall k :: k in written ==> written[k];
  }

  lemma StoreOneMore(existing: map<string, AliasView>, aliases: seq<AliasDefinition>, i: nat)
    requires i < |aliases|
    ensures existing + StoredAliases(aliases[..i + 1]) == (existing + StoredAliases(aliases[..i]))[aliases[i].normalized := StoredAlias(aliases[i])]
    ensures Writable(aliases[..i + 1]) == Writable(aliases[..i])[aliases[i].normalized := aliases[i].column.Some?]
  {
    assert aliases[..i + 1][..i] == aliases[..i];
  }

  function AliasNames(aliases: seq<AliasDefinition>): set<string> { set a | a in aliases :: a.normalized }

  lemma FitOneMore(existing: map<string, AliasView>, scoped: set<string>, aliases: seq<AliasDefinition>, i: nat)
    requires i < |aliases|
    ensures AliasNames(aliases[..i + 1]) == AliasNames(aliases[..i]) + {aliases[i].normalized}
    ensures AliasesFit(existing, scoped, aliases[..i + 1]) <==>
            && AliasesFit(existing, scoped, aliases[..i])
            && (aliases[i].normalized in existing || (aliases[i].normalized !in scoped && aliases[i].normalized !in AliasNames(aliases[..i])))
  {
  }

  method SyncMappings(existing: map<string, MappingView>, ss: seq<SourceDefinition>) returns (rows: map<string, MappingView>)
    requires DistinctSources(ss)
    ensures MappingsSynced(existing, ss, rows)
  {
    rows := existing;
    var i := 0;
    while i < |ss|
      invariant 0 <= i <= |ss|
      invariant rows.Keys == existing.Keys + SourceNames(ss[..i])
      invariant forall k :: 0 <= k < i ==> rows[ss[k].source] == MappingViewOf(ss[k])
      invariant forall source :: source in existing && source !in SourceNames(ss[..i]) ==> rows[source] == existing[source]
    {
      assert ss[..i + 1] == ss[..i] + [ss[i]];
      rows := rows[ss[i].source := MappingViewOf(ss[i])];
      i := i + 1;
    }
    assert ss[..i] == ss;
  }

  ghost predicate MappingsSynced(existing: map<string, MappingView>, ss: seq<SourceDefinition>, rows: map<string, MappingView>) {
    && rows.Keys == existing.Keys + SourceNames(ss)
    && (forall i :: 0 <= i < |ss| ==> ss[i].source in rows && rows[ss[i].source] == MappingViewOf(ss[i]))
    && (forall source :: source in existing && source !in SourceNames(ss) ==> rows[source] == existing[source])
  }

  const BLANK_TOPIC := TopicRow(TopicView("", "", "", None, Active, 50, map[]), 0, None, map[], {}, map[])

  function CurrentTopic(topics: map<Slug, TopicRow>, slug: Slug): TopicRow {
    if slug in topics then topics[slug] else BLANK_TOPIC
  }

  /** The aliases of the topic fit, and its metadata. */
  ghost predicate TopicFits(current: TopicRow, t: TopicDefinition) {
    AliasesFit(current.aliases, current.scoped, t.aliases) && MetadataFits(t)
  }

  /** What one topic's row becomes. */
  ghost predicate TopicSynced(before: TopicRow, t: TopicDefinition, version: nat, now: Instant, after: TopicRow) {
    && after.view == StoredTopic(t)
    && after.registryVersion == version
    && (if t.status == Deprecated then after.deprecatedAt == (if before.deprecatedAt.Some? then before.deprecatedAt else Some(now))
        else after.deprecatedAt == (if before.view.status == Deprecated then None else before.deprecatedAt))
    && after.aliases == before.aliases + StoredAliases(t.aliases)
    && after.scoped == before.scoped
    && MappingsSynced(before.mappings, t.sources, after.mappings)
  }

  method SyncTopic(before: TopicRow, t: TopicDefinition, version: nat, now: Instant) returns (after: TopicRow, ok: bool)
    requires DistinctSources(t.sources)
    ensures ok <==> TopicFits(before, t)
    ensures ok ==> TopicSynced(before, t, version, now, after)
  {
    after := before.(view := StoredTopic(t), registryVersion := version);
    if t.status == Deprecated {
      if before.deprecatedAt.None? { after := after.(deprecatedAt := Some(now)); }
    } else if before.view.status == Deprecated {
      after := after.(deprecatedAt := None);
    }
    var aliases;
    aliases, ok := SyncAliases(before.aliases, before.scoped, t.aliases);
    ok := ok && t.column.Some?;
    var mappings := SyncMappings(before.mappings, t.sources);
    after := after.(aliases := aliases, mappings := mappings);
  }

  ghost predicate TopicsSynced(existing: map<Slug, TopicRow>, ts: seq<TopicDefinition>, version: nat, now: Instant, rows: map<Slug, TopicRow>) {
    && rows.Keys == existing.Keys + TopicSlugs(ts)
    && (forall i :: 0 <= i < |ts| ==> ts[i].slug in rows && TopicSynced(CurrentTopic(existing, ts[i].slug), ts[i], version, now, rows[ts[i].slug]))
    && (forall slug :: slug in existing && slug !in TopicSlugs(ts) ==> rows[slug] == existing[slug])
  }

  /** The rows after the sync hold the names that were written. */
  lemma TopicsStored(existing: map<Slug, TopicRow>, ts: seq<TopicDefinition>, version: nat, now: Instant, rows: map<Slug, TopicRow>)
    requires TopicsSynced(existing, ts, version, now, rows) && Distinct(TopicWrites(ts))
    ensures TopicNames(rows) == Written(TopicNames(existing), TopicWrites(ts))
  {
    var before, after, writes := TopicNames(existing), TopicNames(rows), TopicWrites(ts);
    forall slug ensures (slug in after <==> slug in Written(before, writes)) && (slug in after ==> after[slug] == Written(before, writes)[slug]) {
      WrittenMeans(before, writes, slug);
      if slug in TopicSlugs(ts) {
        var i :| 0 <= i < |ts| && ts[i].slug == slug;
        assert writes[i].slug == slug;
        assert TopicSynced(CurrentTopic(existing, slug), ts[i], version, now, rows[slug]);
      }
      if k :| 0 <= k < |writes| && writes[k].slug == slug {
        assert ts[k].slug in TopicSlugs(ts);
      }
    }
  }

  ghost predicate AllFit(topics: map<Slug, TopicRow>, ts: seq<TopicDefinition>) {
    forall i :: 0 <= i < |ts| ==> TopicFits(CurrentTopic(topics, ts[i].slug), ts[i])
  }

  /** What a sync of the topics needs of the two unique keys. */
  ghost predicate TopicsFit(existing: map<Slug, TopicRow>, ts: seq<TopicDefinition>) {
    AllFit(existing, ts) && NamesFit(TopicNames(existing), TopicWrites(ts))
  }

  /** The first i topics fit and are synced. */
  ghost predicate SyncedSoFar(existing: map<Slug, TopicRow>, ts: seq<TopicDefinition>, i: nat, version: nat, now: Instant, rows: map<Slug, TopicRow>)
    requires i <= |ts|
  {
    && Distinct(TopicWrites(ts))
    && AllFit(existing, ts[..i]) && NamesFit(TopicNames(existing), TopicWrites(ts)[..i])
    && TopicsSynced(existing, ts[..i], version, now, rows)
  }

  method SyncTopics(existing: map<Slug, TopicRow>, ts: seq<TopicDefinition>, version: nat, now: Instant)
    returns (rows: map<Slug, TopicRow>, ok: bool)
    requires forall i, j :: 0 <= i < j < |ts| ==> ts[i].slug != ts[j].slug && ts[i].normalizedName != ts[j].normalizedName
    requires forall t :: t in ts ==> DistinctSources(t.sources)
    ensures ok <==> TopicsFit(existing, ts)
    ensures ok ==> TopicsSynced(existing, ts, version, now, rows)
    ensures ok && Unique(TopicNames(existing)) ==> Unique(TopicNames(rows))
  {
    hide TopicSynced, TopicFits, TopicsFit, SyncedSoFar, TopicsSynced, AllFit, NamesFit, Unique, TopicWrites, TopicNames, Taken, CurrentTopic;
    rows, ok := existing, true;
    NothingSynced(existing, ts, version, now);
    for i := 0 to |ts|
      invariant ok && SyncedSoFar(existing, ts, i, version, now, rows)
    {
      var t := ts[i];
      NextTopic(existing, ts, i, version, now, rows);
      if Taken(TopicNames(rows), Write(t.slug, t.normalizedName)) { return rows, false; }
      var after, fits := SyncTopic(CurrentTopic(rows, t.slug), t, version, now);
      if !fits { return rows, false; }
      OneMoreSynced(existing, ts, i, version, now, rows, after);
      rows := rows[t.slug := after];
    }
    AllSynced(existing, ts, version, now, rows);
  }

  lemma NothingSynced(existing: map<Slug, TopicRow>, ts: seq<TopicDefinition>, version: nat, now: Instant)
    requires forall i, j :: 0 <= i < j < |ts| ==> ts[i].slug != ts[j].slug && ts[i].normalizedName != ts[j].normalizedName
    ensures SyncedSoFar(existing, ts, 0, version, now, existing)
  {
    NoTopicsYet(existing, ts, version, now);
  }

  /** The next topic is refused only where the whole cannot fit. */
  lemma NextTopic(existing: map<Slug, TopicRow>, ts: seq<TopicDefinition>, i: nat, version: nat, now: Instant, rows: map<Slug, TopicRow>)
    requires i < |ts| && SyncedSoFar(existing, ts, i, version, now, rows)
    ensures CurrentTopic(rows, ts[i].slug) == CurrentTopic(existing, ts[i].slug)
    ensures TopicsFit(existing, ts) ==>
              && !Taken(TopicNames(rows), Write(ts[i].slug, ts[i].normalizedName))
              && TopicFits(CurrentTopic(existing, ts[i].slug), ts[i])
  {
    hide TopicFits, TopicsSynced, AllFit, NamesFit, Distinct, TopicWrites, TopicNames, Taken, CurrentTopic;
    FitSoFar(existing, ts, i + 1);
    WritesSoFar(ts, i);
    UntouchedTopic(existing, ts, i, version, now, rows);
    NextNameFits(existing, ts, i, version, now, rows);
    NextAliasesFit(existing, ts, i);
  }

  lemma OneMoreSynced(existing: map<Slug, TopicRow>, ts: seq<TopicDefinition>, i: nat, version: nat, now: Instant, rows: map<Slug, TopicRow>, after: TopicRow)
    requires i < |ts| && SyncedSoFar(existing, ts, i, version, now, rows)
    requires !Taken(TopicNames(rows), Write(ts[i].slug, ts[i].normalizedName))
    requires TopicFits(CurrentTopic(existing, ts[i].slug), ts[i])
    requires TopicSynced(CurrentTopic(existing, ts[i].slug), ts[i], version, now, after)
    ensures SyncedSoFar(existing, ts, i + 1, version, now, rows[ts[i].slug := after])
  {
    hide TopicFits, TopicsSynced, TopicSynced, AllFit, NamesFit, Distinct, TopicWrites, TopicNames, Taken, CurrentTopic;
    WritesSoFar(ts, i);
    NextNameFits(existing, ts, i, version, now, rows);
    NextAliasesFit(existing, ts, i);
    OneMoreTopic(existing, ts, i, version, now, rows, after);
  }

  lemma AllSynced(existing: map<Slug, TopicRow>, ts: seq<TopicDefinition>, version: nat, now: Instant, rows: map<Slug, TopicRow>)
    requires SyncedSoFar(existing, ts, |ts|, version, now, rows)
    ensures TopicsFit(existing, ts) && TopicsSynced(existing, ts, version, now, rows)
    ensures Unique(TopicNames(existing)) ==> Unique(TopicNames(rows))
  {
    hide TopicsSynced, AllFit, NamesFit, Distinct, Unique;
    assert ts[..|ts|] == ts && TopicWrites(ts)[..|ts|] == TopicWrites(ts);
    TopicsStored(existing, ts, version, now, rows);
    if Unique(TopicNames(existing)) { StaysUnique(TopicNames(existing), TopicWrites(ts)); }
  }

  /** What fits as a whole fits so far. */
  lemma FitSoFar(existing: map<Slug, TopicRow>, ts: seq<TopicDefinition>, i: nat)
    requires i <= |ts|
    ensures AllFit(existing, ts) && NamesFit(TopicNames(existing), TopicWrites(ts)) ==>
              AllFit(existing, ts[..i]) && NamesFit(TopicNames(existing), TopicWrites(ts)[..i])
  {
    if NamesFit(TopicNames(existing), TopicWrites(ts)) { FitsPrefix(TopicNames(existing), TopicWrites(ts), i); }
  }

  lemma WritesSoFar(ts: seq<TopicDefinition>, i: nat)
    requires i <= |ts| && Distinct(TopicWrites(ts))
    ensures TopicWrites(ts)[..i] == TopicWrites(ts[..i]) && Distinct(TopicWrites(ts[..i]))
    ensures forall k :: i < |ts| && 0 <= k < i ==> ts[k].slug != ts[i].slug
  {
    var all, some := TopicWrites(ts), TopicWrites(ts[..i]);
    assert all[..i] == some;
    forall a, b | 0 <= a < b < i ensures some[a].slug != some[b].slug && some[a].name != some[b].name {
      assert all[a] == some[a] && all[b] == some[b];
    }
    forall k | i < |ts| && 0 <= k < i ensures ts[k].slug != ts[i].slug {
      assert all[k].slug != all[i].slug;
    }
  }

  /** One topic more: its name must not be taken by now, */
  lemma NextNameFits(existing: map<Slug, TopicRow>, ts: seq<TopicDefinition>, i: nat, version: nat, now: Instant, rows: map<Slug, TopicRow>)
    requires i < |ts| && Distinct(TopicWrites(ts)) && TopicsSynced(existing, ts[..i], version, now, rows)
    requires NamesFit(TopicNames(existing), TopicWrites(ts)[..i])
    ensures NamesFit(TopicNames(existing), TopicWrites(ts)[..i + 1]) <==> !Taken(TopicNames(rows), Write(ts[i].slug, ts[i].normalizedName))
  {
    hide TopicsSynced, NamesFit, Taken, Distinct, TopicNames;
    WritesSoFar(ts, i);
    FitsOneMore(TopicNames(existing), TopicWrites(ts), i);
    TopicsStored(existing, ts[..i], version, now, rows);
  }

  /** and its aliases must fit. */
  lemma NextAliasesFit(existing: map<Slug, TopicRow>, ts: seq<TopicDefinition>, i: nat)
    requires i < |ts| && AllFit(existing, ts[..i])
    ensures AllFit(existing, ts[..i + 1]) <==>
              TopicFits(CurrentTopic(existing, ts[i].slug), ts[i])
  {
    hide TopicFits;
    assert ts[..i + 1] == ts[..i] + [ts[i]];
  }

  lemma NoTopicsYet(existing: map<Slug, TopicRow>, ts: seq<TopicDefinition>, version: nat, now: Instant)
    ensures TopicsSynced(existing, ts[..0], version, now, existing)
  {
  }

  lemma UntouchedTopic(existing: map<Slug, TopicRow>, ts: seq<TopicDefinition>, i: nat, version: nat, now: Instant, rows: map<Slug, TopicRow>)
    requires i < |ts| && forall k :: 0 <= k < i ==> ts[k].slug != ts[i].slug
    requires TopicsSynced(existing, ts[..i], version, now, rows)
    ensures CurrentTopic(rows, ts[i].slug) == CurrentTopic(existing, ts[i].slug)
  {
  }

  lemma OneMoreTopic(existing: map<Slug, TopicRow>, ts: seq<TopicDefinition>, i: nat, version: nat, now: Instant, rows: map<Slug, TopicRow>, after: TopicRow)
    requires i < |ts| && forall k :: 0 <= k < i ==> ts[k].slug != ts[i].slug
    requires TopicsSynced(existing, ts[..i], version, now, rows)
    requires TopicSynced(CurrentTopic(existing, ts[i].slug), ts[i], version, now, after)
    ensures TopicsSynced(existing, ts[..i + 1], version, now, rows[ts[i].slug := after])
  {
    hide TopicSynced;
    var now', next := ts[..i], ts[..i + 1];
    OneMoreSlug(ts, i);
    hide TopicSlugs;
    forall k | 0 <= k < |next| ensures next[k] == if k < i then now'[k] else ts[i] {}
    forall k | 0 <= k < i ensures now'[k].slug != ts[i].slug {}
  }

  lemma OneMoreSlug(ts: seq<TopicDefinition>, i: nat)
    requires i < |ts|
    ensures TopicSlugs(ts[..i + 1]) == TopicSlugs(ts[..i]) + {ts[i].slug}
  {
  }

  // ---------- One transaction ----------

  function NextVersion(db: Db): nat { if Latest(db).None? then 1 else Latest(db).value.number + 1 }

  /** What a committed sync leaves behind. */
  ghost predicate Synced(db: Db, r: Registry, order: Issue -> string, now: Instant, db': Db) {
    && CategoriesSynced(db.categories, r.categories, db'.categories)
    && TopicsSynced(db.topics, r.topics, NextVersion(db), now, db'.topics)
    && db'.versions == db.versions + [Version(NextVersion(db), r.checksum, WarningPayloads(Warnings(db, r), order))]
  }

  datatype Report = Unchanged(diff: Diff) | Committed(diff: Diff, version: nat) | RolledBack(diff: Diff)

  class Store {
    var db: Db

    ghost predicate Valid()
      reads this
    {
      Storable(db)
    }

    constructor (db: Db)
      requires Storable(db)
      ensures Valid() && this.db == db
    {
      this.db := db;
    }

    /** keys: the primary keys of the categories. aborts: the commit hook or the connection fails. */
    method Sync(r: Registry, order: Issue -> string, keys: Slug -> int, dryRun: bool, now: Instant, aborts: bool) returns (report: Report)
      requires Valid() && Validated(r)
      modifies this
      ensures Valid()
      ensures report.diff.changes == Changes(old(db), r, order) && report.diff.warnings == Warnings(old(db), r)
      ensures report.Unchanged? <==> dryRun || Changes(old(db), r, order) == []
      ensures report.Committed? <==>
                !report.Unchanged? && AllFit(old(db).topics, r.topics) && RegistryNamesFit(old(db), r, keys) && !aborts
      ensures report.Committed? ==> Synced(old(db), r, order, now, db) && report.version == NextVersion(old(db))
      ensures !report.Committed? ==> db == old(db)
    {
      hide CategoriesSynced, TopicsSynced, NamesFit, Unique, AllFit;
      var diff := Compare(db, r, order);
      if dryRun || diff.changes == [] { return Unchanged(diff); }
      var next := NextVersion(db);
      var version := Version(next, r.checksum, WarningPayloads(diff.warnings, order));
      var categories, named := SyncCategories(db.categories, r.categories, keys);
      if !named { return RolledBack(diff); }
      var topics, ok := SyncTopics(db.topics, r.topics, next, now);
      if !ok || aborts { return RolledBack(diff); }
      db := Db(categories, topics, db.versions + [version]);
      report := Committed(diff, next);
    }
  }

  // ---------- When names keep a sync from committing ----------

  /** A topic the registry has dropped keeps its row and its name: no sync brings in another
      topic of that name. */
  lemma DroppedTopicBlocks(db: Db, r: Registry, keys: Slug -> int, i: nat, dropped: Slug)
    requires i < |r.topics| && dropped in db.topics && dropped !in TopicSlugs(r.topics)
    requires db.topics[dropped].view.normalizedName == r.topics[i].normalizedName
    ensures !RegistryNamesFit(db, r, keys)
  {
    var writes := TopicWrites(r.topics);
    forall k | 0 <= k < |writes| ensures writes[k].slug != dropped {
      assert r.topics[k].slug in TopicSlugs(r.topics);
    }
    KeptNameNeverFits(TopicNames(db.topics), writes, i, dropped);
  }

  /** The same for categories, whatever their primary keys. */
  lemma DroppedCategoryBlocks(db: Db, r: Registry, keys: Slug -> int, i: nat, dropped: Slug)
    requires i < |r.categories| && dropped in db.categories && dropped !in CategorySlugs(r.categories)
    requires db.categories[dropped].name == r.categories[i].view.name
    ensures !RegistryNamesFit(db, r, keys)
  {
    var order := FlushOrder(db.categories, r.categories, keys);
    var writes := CategoryWrites(order);
    FlushRearranges(db.categories, r.categories, keys);
    assert r.categories[i] in multiset(order);
    var n :| 0 <= n < |order| && order[n] == r.categories[i];
    forall k | 0 <= k < |writes| ensures writes[k].slug != dropped {
      assert order[k] in multiset(r.categories);
    }
    hide FlushOrder;
    KeptNameNeverFits(CategoryNames(db.categories), writes, n, dropped);
  }

  /** Two topics that exchange their names block the sync, although it would leave a table that
      the database can hold. */
  lemma ExchangedTopicsBlock(db: Db, r: Registry, keys: Slug -> int, i: nat, j: nat)
    requires Validated(r) && i < j < |r.topics| && r.topics[i].slug in db.topics && r.topics[j].slug in db.topics
    requires db.topics[r.topics[i].slug].view.normalizedName == r.topics[j].normalizedName
    requires db.topics[r.topics[j].slug].view.normalizedName == r.topics[i].normalizedName
    ensures !RegistryNamesFit(db, r, keys)
  {
    var writes := TopicWrites(r.topics);
    ExchangeNeverFits(TopicNames(db.topics), writes, i, j);
  }

  const EMPTY_DB := Db(map[], map[], [])

  function PlainCategory(slug: Slug, name: string): CategoryDefinition { CategoryDefinition(slug, CategoryView(name, None, None, 0)) }

  function PlainTopic(slug: Slug, name: string): TopicDefinition {
    TopicDefinition(slug, name, name, "", "c", Active, 50, map[], Some(map[]), [], [])
  }

  function PlainRow(name: string): TopicRow { BLANK_TOPIC.(view := TopicView(name, name, "", Some("c"), Active, 50, map[])) }

  function PlainRegistry(ts: seq<TopicDefinition>): Registry { Registry([PlainCategory("c", "C")], ts, [], "") }

  lemma PlainIsValid(topics: map<Slug, TopicRow>, ts: seq<TopicDefinition>)
    requires forall i :: 0 <= i < |ts| ==> ts[i].category == "c" && ts[i].aliases == [] && ts[i].sources == [] && ts[i].column.Some?
    requires forall i, j :: 0 <= i < j < |ts| ==> ts[i].slug != ts[j].slug && ts[i].normalizedName != ts[j].normalizedName
    ensures Validated(PlainRegistry(ts)) && AllFit(topics, ts)
  {
    assert PlainRegistry(ts).categories[0].slug in CategorySlugs(PlainRegistry(ts).categories);
  }

  /** A validated registry, aliases that fit, a database in order, and no sync: a renamed slug. */
  lemma RenamedSlugBlocks(keys: Slug -> int) returns (db: Db, r: Registry)
    ensures Storable(db) && Validated(r) && AllFit(db.topics, r.topics) && !RegistryNamesFit(db, r, keys)
  {
    var ts := [PlainTopic("new", "foo")];
    db, r := EMPTY_DB.(topics := map["old" := PlainRow("foo")]), PlainRegistry(ts);
    PlainIsValid(db.topics, ts);
    hide Validated, AllFit, RegistryNamesFit;
    DroppedTopicBlocks(db, r, keys, 0, "old");
  }

  lemma TwoRowsAreStorable(a: Slug, x: string, b: Slug, y: string)
    requires a != b && x != y
    ensures Storable(EMPTY_DB.(topics := map[a := PlainRow(x), b := PlainRow(y)]))
    ensures TopicNames(map[a := PlainRow(x), b := PlainRow(y)]) == map[a := x, b := y]
  {
  }

  /** Two topics that exchange names; the table it would leave has unique names. */
  lemma ExchangeBlocks(keys: Slug -> int) returns (db: Db, r: Registry)
    ensures Storable(db) && Validated(r) && AllFit(db.topics, r.topics) && !RegistryNamesFit(db, r, keys)
    ensures Unique(Written(TopicNames(db.topics), TopicWrites(r.topics)))
  {
    hide Storable, Validated, AllFit, RegistryNamesFit, TopicNames, Unique, Written;
    var ts := [PlainTopic("a", "y"), PlainTopic("b", "x")];
    db, r := EMPTY_DB.(topics := map["a" := PlainRow("x"), "b" := PlainRow("y")]), PlainRegistry(ts);
    TwoRowsAreStorable("a", "x", "b", "y");
    PlainIsValid(db.topics, ts);
    ExchangedTopicsBlock(db, r, keys, 0, 1);
    assert TopicWrites(ts) == [Write("a", "y"), Write("b", "x")];
    TwoWrites(TopicNames(db.topics), "a", "y", "b", "x");
  }

  /** Metadata that cannot be written as JSON: validated, names that fit, and no sync. */
  lemma UnwritableMetadataBlocks(keys: Slug -> int) returns (db: Db, r: Registry)
    ensures Storable(db) && Validated(r) && RegistryNamesFit(db, r, keys) && !AllFit(db.topics, r.topics)
  {
    var ts := [PlainTopic("a", "x").(metadata := map["since" := "a date"], column := None)];
    db, r := EMPTY_DB, PlainRegistry(ts);
    PlainNamesFit(keys, ts[0]);
    assert PlainRegistry(ts).categories[0].slug in CategorySlugs(PlainRegistry(ts).categories);
    assert !TopicFits(CurrentTopic(db.topics, "a"), ts[0]);
  }

  lemma PlainNamesFit(keys: Slug -> int, t: TopicDefinition)
    ensures RegistryNamesFit(EMPTY_DB, PlainRegistry([t]), keys)
  {
  }

  lemma TwoWrites(names: Names, a: Slug, x: string, b: Slug, y: string)
    requires a != b && x != y && names.Keys == {a, b}
    ensures Unique(Written(names, [Write(a, x), Write(b, y)]))
  {
    var writes := [Write(a, x), Write(b, y)];
    assert writes[..1] == [Write(a, x)] && writes[..1][..0] == [];
    assert Written(names, writes[..1]) == names[a := x];
    assert Written(names, writes) == names[a := x][b := y];
  }

  // ---------- What an empty diff means ----------

  /** The database has the topic as it is defined, with all its aliases and mappings. */
  ghost predicate TopicAgrees(topics: map<Slug, TopicRow>, t: TopicDefinition) {
    && t.slug in topics && topics[t.slug].view == TopicViewOf(t)
    && (forall k :: k in DesiredAliases(t.aliases) ==> k in topics[t.slug].aliases && topics[t.slug].aliases[k] == DesiredAliases(t.aliases)[k])
    && (forall s :: s in t.sources ==> MappingAgrees(topics[t.slug].mappings, s))
  }

  ghost predicate MappingAgrees(mappings: map<string, MappingView>, s: SourceDefinition) {
    s.source in mappings && mappings[s.source] == MappingViewOf(s)
  }

  ghost predicate CategoryAgrees(categories: map<Slug, CategoryView>, c: CategoryDefinition) {
    c.slug in categories && categories[c.slug] == c.view
  }

  ghost predicate RegistryAgrees(db: Db, r: Registry) {
    && (forall c :: c in r.categories ==> CategoryAgrees(db.categories, c))
    && (forall t :: t in r.topics ==> TopicAgrees(db.topics, t))
  }

  lemma {:induction false} NoCategoryChanges(categories: map<Slug, CategoryView>, cs: seq<CategoryDefinition>)
    ensures CategoryChanges(categories, cs) == [] <==> forall c :: c in cs ==> CategoryAgrees(categories, c)
  {
    if cs != [] {
      var init, last := cs[..|cs| - 1], cs[|cs| - 1];
      assert CategoryChange(categories, last) == [] <==> CategoryAgrees(categories, last);
      hide CategoryChange, CategoryAgrees;
      NoCategoryChanges(categories, init);
      assert forall c :: c in cs <==> c in init || c == last by { assert cs == init + [last]; }
    }
  }

  lemma {:induction false} NoAliasChanges(slug: Slug, current: map<string, AliasView>, desired: map<string, AliasView>, keys: seq<string>)
    requires forall k :: k in keys ==> k in desired
    ensures AliasChanges(slug, current, desired, keys) == [] <==> forall k :: k in keys ==> k in current && current[k] == desired[k]
  {
    if keys != [] {
      var init, last := keys[..|keys| - 1], keys[|keys| - 1];
      assert AliasChange(slug, current, desired, last) == [] <==> last in current && current[last] == desired[last];
      hide AliasChange;
      NoAliasChanges(slug, current, desired, init);
      assert forall k :: k in keys <==> k in init || k == last by { assert keys == init + [last]; }
    }
  }

  lemma {:induction false} NoMappingChanges(slug: Slug, current: map<string, MappingView>, ss: seq<SourceDefinition>)
    ensures MappingChanges(slug, current, ss) == [] <==> forall s :: s in ss ==> MappingAgrees(current, s)
  {
    if ss != [] {
      var init, last := ss[..|ss| - 1], ss[|ss| - 1];
      assert MappingChange(slug, current, last) == [] <==> MappingAgrees(current, last);
      hide MappingChange, MappingAgrees;
      NoMappingChanges(slug, current, init);
      assert forall s :: s in ss <==> s in init || s == last by { assert ss == init + [last]; }
    }
  }

  lemma NoTopicChange(topics: map<Slug, TopicRow>, t: TopicDefinition)
    ensures TopicChange(topics, t) == [] <==> TopicAgrees(topics, t)
  {
    if t.slug in topics {
      NoAliasChanges(t.slug, topics[t.slug].aliases, DesiredAliases(t.aliases), AliasKeys(t.aliases));
      NoMappingChanges(t.slug, topics[t.slug].mappings, t.sources);
    }
  }

  lemma {:induction false} NoTopicChanges(topics: map<Slug, TopicRow>, ts: seq<TopicDefinition>)
    ensures TopicChanges(topics, ts) == [] <==> forall t :: t in ts ==> TopicAgrees(topics, t)
  {
    hide TopicChange, TopicAgrees;
    if ts != [] {
      var n := |ts| - 1;
      NoTopicChanges(topics, ts[..n]);
      NoTopicChange(topics, ts[n]);
      assert ts == ts[..n] + [ts[n]];
    }
  }

  /** A diff is empty exactly when the database agrees with the registry, entity by entity, and
      the latest version, if there is one, has its checksum and its warnings. */
  lemma EmptyDiffExactly(db: Db, r: Registry, order: Issue -> string)
    ensures Changes(db, r, order) == [] <==>
              && RegistryAgrees(db, r)
              && (Latest(db).Some? ==>
                    Latest(db).value.checksum == r.checksum && Latest(db).value.warnings == WarningPayloads(Warnings(db, r), order))
  {
    hide CategoryChanges, TopicChanges, CategoryAgrees, TopicAgrees, Warnings, WarningPayloads;
    NoCategoryChanges(db.categories, r.categories);
    NoTopicChanges(db.topics, r.topics);
  }

  // ---------- The fixpoint ----------

  /** The metadata of the topic and of its aliases comes back from the database as it was. */
  ghost predicate Survives(t: TopicDefinition) {
    StoredTopic(t) == TopicViewOf(t) && StoredAliases(t.aliases) == DesiredAliases(t.aliases)
  }

  lemma {:induction false} SameAliasKeys(aliases: seq<AliasDefinition>)
    ensures StoredAliases(aliases).Keys == DesiredAliases(aliases).Keys
  {
    if aliases != [] { SameAliasKeys(aliases[..|aliases| - 1]); }
  }

  lemma StoredAliasesAgree(before: map<string, AliasView>, aliases: seq<AliasDefinition>)
    ensures var after := before + StoredAliases(aliases);
            (forall k :: k in DesiredAliases(aliases) ==> k in after && after[k] == DesiredAliases(aliases)[k])
            <==> StoredAliases(aliases) == DesiredAliases(aliases)
  {
    SameAliasKeys(aliases);
    hide StoredAliases, DesiredAliases;
    var after, stored, desired := before + StoredAliases(aliases), StoredAliases(aliases), DesiredAliases(aliases);
    assert forall k :: k in stored ==> k in after && after[k] == stored[k];
    if forall k :: k in desired ==> k in after && after[k] == desired[k] {
      assert forall k :: k in stored ==> stored[k] == desired[k];
    }
  }

  /** A synced topic agrees with its definition exactly when its metadata survives. */
  lemma SyncedTopicAgrees(existing: map<Slug, TopicRow>, ts: seq<TopicDefinition>, version: nat, now: Instant, rows: map<Slug, TopicRow>, i: nat)
    requires TopicsSynced(existing, ts, version, now, rows) && i < |ts|
    ensures TopicAgrees(rows, ts[i]) <==> Survives(ts[i])
  {
    var t := ts[i];
    var before, after := CurrentTopic(existing, t.slug), rows[t.slug];
    assert TopicSynced(before, t, version, now, after);
    StoredAliasesAgree(before.aliases, t.aliases);
    hide StoredAliases, DesiredAliases, TopicsSynced;
    forall s | s in t.sources ensures MappingAgrees(after.mappings, s) {
      var k :| 0 <= k < |t.sources| && t.sources[k] == s;
    }
  }

  /** And it has the orphans it had before. */
  lemma SyncedTopicWarns(existing: map<Slug, TopicRow>, ts: seq<TopicDefinition>, version: nat, now: Instant, rows: map<Slug, TopicRow>, i: nat)
    requires TopicsSynced(existing, ts, version, now, rows) && i < |ts|
    ensures TopicWarnings(rows, ts[i]) == TopicWarnings(existing, ts[i])
  {
    var t := ts[i];
    var before, after := CurrentTopic(existing, t.slug), rows[t.slug];
    assert TopicSynced(before, t, version, now, after);
    SameAliasKeys(t.aliases);
    hide StoredAliases, DesiredAliases, TopicsSynced;
    assert after.aliases.Keys - DesiredAliases(t.aliases).Keys == before.aliases.Keys - DesiredAliases(t.aliases).Keys;
    assert after.mappings.Keys - SourceNames(t.sources) == before.mappings.Keys - SourceNames(t.sources);
    if t.slug !in existing {
      assert before.aliases.Keys - DesiredAliases(t.aliases).Keys == {};
      assert before.mappings.Keys - SourceNames(t.sources) == {};
    }
  }

  lemma {:induction false} SyncedTopicsWarn(existing: map<Slug, TopicRow>, ts: seq<TopicDefinition>, version: nat, now: Instant, rows: map<Slug, TopicRow>, i: nat)
    requires TopicsSynced(existing, ts, version, now, rows) && i <= |ts|
    ensures AllTopicWarnings(rows, ts[..i]) == AllTopicWarnings(existing, ts[..i])
  {
    hide TopicsSynced, TopicWarnings;
    if i > 0 {
      SyncedTopicsWarn(existing, ts, version, now, rows, i - 1);
      SyncedTopicWarns(existing, ts, version, now, rows, i - 1);
      assert ts[..i][..i - 1] == ts[..i - 1] && ts[..i][i - 1] == ts[i - 1];
    }
  }

  /** After a committed sync, the diff of the same registry has the same warnings, and it is empty
      exactly when all metadata came back from the database as it was: the sync did everything its
      own diff asked for, and nothing that asks for more. */
  lemma SyncReachesFixpoint(db: Db, r: Registry, order: Issue -> string, now: Instant, db': Db)
    requires Synced(db, r, order, now, db')
    ensures Warnings(db', r) == Warnings(db, r)
    ensures Changes(db', r, order) == [] <==> forall t :: t in r.topics ==> Survives(t)
  {
    hide CategoriesSynced, TopicsSynced, Survives, Changes;
    SyncedWarnings(db, r, order, now, db');
    SyncedEntitiesAgree(db, r, order, now, db');
    EmptyDiffExactly(db', r, order);
  }

  /** A topic whose metadata has a number for a nested key. */
  const NUMBERED := PlainTopic("a", "x").(metadata := map["map" := "{1: b}"], column := Some(map["map" := "{'1': b}"]))

  lemma NumberedIsLost()
    ensures Validated(PlainRegistry([NUMBERED])) && MetadataFits(NUMBERED) && !Survives(NUMBERED)
  {
    assert PlainRegistry([NUMBERED]).categories[0].slug in CategorySlugs(PlainRegistry([NUMBERED]).categories);
    assert StoredTopic(NUMBERED).metadata["map"] != TopicViewOf(NUMBERED).metadata["map"];
  }

  /** It is admitted, and written, and after every sync it still counts as changed: each sync adds
      a version. */
  lemma LostShapeNeverSettles(db: Db, order: Issue -> string, now: Instant, db': Db)
    requires Synced(db, PlainRegistry([NUMBERED]), order, now, db')
    ensures Validated(PlainRegistry([NUMBERED])) && MetadataFits(NUMBERED)
    ensures Changes(db', PlainRegistry([NUMBERED]), order) != []
  {
    hide Synced, Changes, Validated, Survives, MetadataFits, Warnings;
    NumberedIsLost();
    assert NUMBERED in PlainRegistry([NUMBERED]).topics;
    SyncReachesFixpoint(db, PlainRegistry([NUMBERED]), order, now, db');
  }

  lemma SameOrphans(db: Db, r: Registry, order: Issue -> string, now: Instant, db': Db)
    requires Synced(db, r, order, now, db')
    ensures db'.categories.Keys - CategorySlugs(r.categories) == db.categories.Keys - CategorySlugs(r.categories)
    ensures db'.topics.Keys - TopicSlugs(r.topics) == db.topics.Keys - TopicSlugs(r.topics)
  {
    assert db'.categories.Keys == db.categories.Keys + CategorySlugs(r.categories);
    assert db'.topics.Keys == db.topics.Keys + TopicSlugs(r.topics);
    hide CategorySlugs, TopicSlugs, CategoriesSynced, TopicsSynced;
  }

  lemma SyncedWarnings(db: Db, r: Registry, order: Issue -> string, now: Instant, db': Db)
    requires Synced(db, r, order, now, db')
    ensures Warnings(db', r) == Warnings(db, r)
  {
    hide CategoriesSynced, TopicsSynced, OrphanIssues, AllTopicWarnings, CategorySlugs, TopicSlugs, SortedSet;
    SameOrphans(db, r, order, now, db');
    SyncedTopicsWarn(db.topics, r.topics, NextVersion(db), now, db'.topics, |r.topics|);
    assert r.topics[..|r.topics|] == r.topics;
  }

  lemma SyncedCategoriesAgree(existing: map<Slug, CategoryView>, cs: seq<CategoryDefinition>, rows: map<Slug, CategoryView>)
    requires CategoriesSynced(existing, cs, rows)
    ensures forall c :: c in cs ==> CategoryAgrees(rows, c)
  {
    forall c | c in cs ensures CategoryAgrees(rows, c) {
      var i :| 0 <= i < |cs| && cs[i] == c;
    }
  }

  lemma SyncedTopicsAgree(existing: map<Slug, TopicRow>, ts: seq<TopicDefinition>, version: nat, now: Instant, rows: map<Slug, TopicRow>)
    requires TopicsSynced(existing, ts, version, now, rows)
    ensures forall t :: t in ts ==> (TopicAgrees(rows, t) <==> Survives(t))
  {
    hide TopicsSynced, TopicAgrees, Survives;
    forall t | t in ts ensures TopicAgrees(rows, t) <==> Survives(t) {
      var i :| 0 <= i < |ts| && ts[i] == t;
      SyncedTopicAgrees(existing, ts, version, now, rows, i);
    }
  }

  lemma SyncedEntitiesAgree(db: Db, r: Registry, order: Issue -> string, now: Instant, db': Db)
    requires Synced(db, r, order, now, db')
    ensures RegistryAgrees(db', r) <==> forall t :: t in r.topics ==> Survives(t)
  {
    hide CategoryAgrees, CategoriesSynced, TopicsSynced, TopicAgrees, Survives;
    SyncedCategoriesAgree(db.categories, r.categories, db'.categories);
    SyncedTopicsAgree(db.topics, r.topics, NextVersion(db), now, db'.topics);
  }

  /** Nothing is ever deleted, what the registry does not mention is untouched, and the version
      grows by exactly one. */
  lemma SyncRetains(db: Db, r: Registry, order: Issue -> string, now: Instant, db': Db)
    requires Synced(db, r, order, now, db')
    ensures db.categories.Keys <= db'.categories.Keys && db.topics.Keys <= db'.topics.Keys
    ensures forall slug :: slug in db.categories && slug !in CategorySlugs(r.categories) ==> db'.categories[slug] == db.categories[slug]
    ensures forall slug :: slug in db.topics && slug !in TopicSlugs(r.topics) ==> db'.topics[slug] == db.topics[slug]
    ensures forall slug :: slug in db.topics ==> slug in db'.topics && Retained(db.topics[slug], db'.topics[slug])
    ensures |db'.versions| == |db.versions| + 1 && db.versions <= db'.versions
    ensures Latest(db').Some? && Latest(db').value.number == NextVersion(db)
  {
  }

  /** No alias and no mapping of the topic is gone. */
  ghost predicate Retained(before: TopicRow, after: TopicRow) {
    before.aliases.Keys <= after.aliases.Keys && before.scoped == after.scoped && before.mappings.Keys <= after.mappings.Keys
  }

  /** The loader tells two aliases of a topic apart by (normalized, case_sensitive). */
  ghost predicate LoaderAdmits(aliases: seq<AliasDefinition>) {
    forall i, j :: 0 <= i < j < |aliases| ==>
                     aliases[i].normalized != aliases[j].normalized || aliases[i].view.caseSensitive != aliases[j].view.caseSensitive
  }

  /** So it admits a topic whose aliases no sync can insert: the same lower-case word once
      case-sensitive and once not. */
  lemma LoaderAdmitsClash() returns (aliases: seq<AliasDefinition>)
    ensures LoaderAdmits(aliases) && !AliasesFit(map[], {}, aliases)
  {
    var view := AliasView("mcp", 0, 0, false, false, 1.0, map[]);
    aliases := [AliasDefinition("mcp", view, Some(map[])), AliasDefinition("mcp", view.(caseSensitive := true), Some(map[]))];
    assert aliases[0].normalized == aliases[1].normalized;
  }

  /** For a topic without source-scoped aliases in the database's way, a new topic's aliases fit
      exactly when no two of them share a normalized form. */
  lemma NewTopicFits(aliases: seq<AliasDefinition>)
    ensures AliasesFit(map[], {}, aliases) <==> forall i, j :: 0 <= i < j < |aliases| ==> aliases[i].normalized != aliases[j].normalized
  {
  }
}
