/** The incremental rebuild of the coverage table, and why it is as good as replacing every
    row of the supported sources. */
module CoverageTable {
  import opened Windows

  const VERSION := "coverage-v1"

  datatype Mapping = Mapping(id: nat, topic: nat, source: nat, enabled: bool, topicActive: bool)

  datatype Key = Key(topic: nat, source: nat)

  /** A stored projection: its values, and when and by which version they were last changed. */
  datatype Row<V> = Row(values: V, derivedAt: Instant, version: string)

  type Rows<V> = map<Key, Row<V>>

  datatype Report = Report(projections: nat, created: nat, updated: nat, same: nat, deleted: nat)

  function KeyOf(m: Mapping): Key { Key(m.topic, m.source) }

  /** The mappings the rebuild reads: enabled, of an active topic and a supported source. */
  function Eligible(ms: seq<Mapping>, supported: set<nat>): seq<Mapping> {
    if ms == [] then []
    else
      var rest, m := Eligible(ms[..|ms| - 1], supported), ms[|ms| - 1];
      if m.enabled && m.topicActive && m.source in supported then rest + [m] else rest
  }

  function GroupOf(ms: seq<Mapping>, k: Key): seq<Mapping> {
    if ms == [] then []
    else
      var rest, m := GroupOf(ms[..|ms| - 1], k), ms[|ms| - 1];
      if KeyOf(m) == k then rest + [m] else rest
  }

  function KeysOf(ms: seq<Mapping>): set<Key> { set m | m in ms :: KeyOf(m) }

  /** The projections the facts call for. */
  ghost function Wanted<V>(ms: seq<Mapping>, derive: seq<Mapping> -> V): map<Key, V> {
    map k | k in KeysOf(ms) :: derive(GroupOf(ms, k))
  }

  function Fresh<V>(v: V, now: Instant): Row<V> { Row(v, now, VERSION) }

  predicate Changed<V(==)>(row: Row<V>, v: V) {
    row.version != VERSION || row.values != v
  }

  function Refreshed<V(==)>(row: Row<V>, v: V, now: Instant): Row<V> {
    if Changed(row, v) then Fresh(v, now) else row
  }

  /** The rows of the supported sources. */
  function Handled<V>(rows: Rows<V>, supported: set<nat>): Rows<V> {
    map k | k in rows && k.source in supported :: rows[k]
  }

  /** What the table holds after a rebuild. */
  ghost function Rebuilt<V>(rows: Rows<V>, supported: set<nat>, wanted: map<Key, V>, now: Instant): Rows<V> {
    map k | k in rows.Keys + wanted.Keys && (k in wanted || k.source !in supported) ::
      if k !in wanted then rows[k]
      else if k in rows then Refreshed(rows[k], wanted[k], now)
      else Fresh(wanted[k], now)
  }

  /** The simple form: drop every row of a supported source and store all projections anew. */
  ghost function ReplaceAll<V>(rows: Rows<V>, supported: set<nat>, wanted: map<Key, V>, now: Instant): Rows<V> {
    map k | k in rows.Keys + wanted.Keys && (k in wanted || k.source !in supported) ::
      if k in wanted then Fresh(wanted[k], now) else rows[k]
  }

  /** A table without the times at which its rows were derived. */
  ghost function Content<V>(rows: Rows<V>): map<Key, (V, string)> {
    map k | k in rows :: (rows[k].values, rows[k].version)
  }

  ghost predicate OfSupported<V>(wanted: map<Key, V>, supported: set<nat>) {
    forall k :: k in wanted ==> k.source in supported
  }

  /** The incremental rebuild refines replace-all: the same rows with the same values; only a
      row that does not change keeps the time at which it was derived. */
  lemma RebuiltRefinesReplaceAll<V>(rows: Rows<V>, supported: set<nat>, wanted: map<Key, V>, now: Instant)
    requires OfSupported(wanted, supported)
    ensures Content(Rebuilt(rows, supported, wanted, now)) == Content(ReplaceAll(rows, supported, wanted, now))
    ensures Handled(Rebuilt(rows, supported, wanted, now), supported).Keys == wanted.Keys
    ensures forall k :: k in rows && k.source !in supported ==>
              k in Rebuilt(rows, supported, wanted, now) && Rebuilt(rows, supported, wanted, now)[k] == rows[k]
    ensures forall k :: k in rows && k in wanted ==>
              (Rebuilt(rows, supported, wanted, now)[k] == rows[k] <==> !Changed(rows[k], wanted[k]) || rows[k] == Fresh(wanted[k], now))
  {
  }

  /** A second rebuild from the same facts, at whatever time, changes nothing. */
  lemma RebuiltTwice<V>(rows: Rows<V>, supported: set<nat>, wanted: map<Key, V>, now: Instant, later: Instant)
    requires OfSupported(wanted, supported)
    ensures Rebuilt(Rebuilt(rows, supported, wanted, now), supported, wanted, later) == Rebuilt(rows, supported, wanted, now)
  {
  }

  /** The keys of the projections that find a row and change it. */
  ghost function Updates<V>(rows: Rows<V>, wanted: map<Key, V>): set<Key> {
    set k | k in wanted && k in rows && Changed(rows[k], wanted[k])
  }

  /** What a rebuild reports, read off the keys before it: stored, called for, and changed. */
  ghost predicate Reports(stored: set<Key>, supported: set<nat>, wanted: set<Key>, updates: set<Key>, r: Report) {
    && r.projections == |wanted|
    && r.created == |wanted - stored|
    && r.updated == |updates|
    && r.same == |wanted * stored - updates|
    && r.deleted == |SupportedOnly(stored, supported) - wanted|
  }

  function SupportedOnly(keys: set<Key>, supported: set<nat>): set<Key> {
    set k | k in keys && k.source in supported
  }

  lemma ReportAddsUp(stored: set<Key>, supported: set<nat>, wanted: set<Key>, updates: set<Key>, r: Report)
    requires Reports(stored, supported, wanted, updates, r)
    requires SupportedOnly(wanted, supported) == wanted && updates <= wanted * stored
    ensures r.created + r.updated + r.same == r.projections
    ensures r.updated + r.same + r.deleted == |SupportedOnly(stored, supported)|
  {
    var both := wanted * stored;
    var handled := SupportedOnly(stored, supported);
    assert both <= handled && handled - both == handled - wanted by {
      assert forall k :: k in wanted ==> k in SupportedOnly(wanted, supported);
    }
    hide SupportedOnly;
    PartAndRest(updates, both);
    PartAndRest(both, wanted);
    assert wanted - both == wanted - stored;
    PartAndRest(both, handled);
  }

  lemma PartAndRest(part: set<Key>, whole: set<Key>)
    requires part <= whole
    ensures |whole| == |part| + |whole - part|
  {
  }

  /** What a second rebuild reports: it creates, updates and deletes nothing. */
  lemma SecondReport<V>(rows: Rows<V>, supported: set<nat>, wanted: map<Key, V>, now: Instant, r: Report)
    requires OfSupported(wanted, supported)
    requires var after := Rebuilt(rows, supported, wanted, now);
             Reports(after.Keys, supported, wanted.Keys, Updates(after, wanted), r)
    ensures r.created == r.updated == r.deleted == 0 && r.same == r.projections == |wanted.Keys|
  {
  }

  lemma {:induction false} EligibleAreSupported(ms: seq<Mapping>, supported: set<nat>)
    ensures forall m :: m in Eligible(ms, supported) ==> m.source in supported
  {
    if ms != [] { EligibleAreSupported(ms[..|ms| - 1], supported); }
  }

  lemma GroupGrows(ms: seq<Mapping>, i: nat, k: Key)
    requires i < |ms|
    ensures GroupOf(ms[..i + 1], k) == if KeyOf(ms[i]) == k then GroupOf(ms[..i], k) + [ms[i]] else GroupOf(ms[..i], k)
    ensures KeysOf(ms[..i + 1]) == KeysOf(ms[..i]) + {KeyOf(ms[i])}
  {
    assert ms[..i + 1][..i] == ms[..i];
    assert ms[..i + 1] == ms[..i] + [ms[i]];
  }

  lemma {:induction false} NoGroup(ms: seq<Mapping>, k: Key)
    requires k !in KeysOf(ms)
    ensures GroupOf(ms, k) == []
  {
    if ms != [] {
      var n := |ms| - 1;
      assert KeyOf(ms[n]) in KeysOf(ms);
      assert KeysOf(ms[..n]) <= KeysOf(ms);
      NoGroup(ms[..n], k);
    }
  }

  /** The mappings grouped by topic and source, groups and members in the order they come. */
  method GroupMappings(ms: seq<Mapping>) returns (groups: map<Key, seq<Mapping>>, order: seq<Key>)
    ensures groups == map k | k in KeysOf(ms) :: GroupOf(ms, k)
    ensures (forall k :: k in order <==> k in groups) && forall i, j :: 0 <= i < j < |order| ==> order[i] != order[j]
  {
    groups, order := map[], [];
    for i := 0 to |ms|
      invariant groups.Keys == KeysOf(ms[..i]) && forall k :: k in groups ==> groups[k] == GroupOf(ms[..i], k)
      invariant (forall k :: k in order <==> k in groups) && forall a, b :: 0 <= a < b < |order| ==> order[a] != order[b]
    {
      var k := KeyOf(ms[i]);
      hide GroupOf, KeysOf;
      forall q ensures GroupOf(ms[..i + 1], q) == if k == q then GroupOf(ms[..i], q) + [ms[i]] else GroupOf(ms[..i], q) {
        GroupGrows(ms, i, q);
      }
      GroupGrows(ms, i, k);
      if k in groups {
        groups := groups[k := groups[k] + [ms[i]]];
      } else {
        NoGroup(ms[..i], k);
        groups, order := groups[k := [ms[i]]], order + [k];
      }
    }
    assert ms[..|ms|] == ms;
  }

  class Deriver<V(==)> {
    const supported: set<nat>
    var rows: Rows<V>

    constructor (supported: set<nat>, rows: Rows<V>)
      ensures this.supported == supported && this.rows == rows
    {
      this.supported, this.rows := supported, rows;
    }

    /** Writes the projections, one after the other. */
    method Write(existing: Rows<V>, groups: map<Key, seq<Mapping>>, order: seq<Key>, derive: seq<Mapping> -> V, now: Instant)
      returns (counts: Counts)
      requires forall k :: k in order <==> k in groups
      requires forall i, j :: 0 <= i < j < |order| ==> order[i] != order[j]
      requires existing == Handled(rows, supported)
      modifies this
      ensures var wanted := map k | k in groups :: derive(groups[k]);
              Written(existing, old(rows), wanted, wanted.Keys, now, rows, counts)
    {
      hide Written, Handled, Fresh, Changed;
      ghost var wanted := map k | k in groups :: derive(groups[k]);
      counts := Counts(0, 0, 0);
      ghost var done: set<Key> := {};
      WrittenStart(existing, rows, wanted, now);
      for i := 0 to |order|
        invariant forall k :: k in done <==> k in order[..i]
        invariant Written(existing, old(rows), wanted, done, now, rows, counts)
      {
        var k := order[i];
        var values := derive(groups[k]);
        WrittenNext(existing, old(rows), supported, wanted, done, now, rows, counts, k);
        if k !in existing {
          rows := rows[k := Fresh(values, now)];
          counts := counts.(created := counts.created + 1);
        } else if Changed(existing[k], values) {
          rows := rows[k := Fresh(values, now)];
          counts := counts.(updated := counts.updated + 1);
        } else {
          counts := counts.(same := counts.same + 1);
        }
        done := done + {k};
      }
      assert done == wanted.Keys;
    }

    /** Deletes the rows that no projection called for. */
    method DeleteStale(existing: set<Key>, expected: set<Key>) returns (deleted: nat)
      modifies this
      ensures rows == old(rows) - (existing - expected) && deleted == |existing - expected|
    {
      var todo := existing;
      deleted := 0;
      while todo != {}
        invariant todo <= existing
        invariant forall k :: k in rows <==> k in old(rows) && (k in existing && k !in expected ==> k in todo)
        invariant forall k :: k in rows ==> rows[k] == old(rows)[k]
        invariant deleted == |(existing - todo) - expected|
      {
        var k :| k in todo;
        StaleNext(existing, expected, todo, k);
        if k !in expected {
          rows := rows - {k};
          deleted := deleted + 1;
        }
        todo := todo - {k};
      }
      assert existing - {} == existing;
      assert rows == old(rows) - (existing - expected);
    }

    /** Brings the table up to date with the facts, touching only what differs. */
    method Rebuild(mappings: seq<Mapping>, derive: seq<Mapping> -> V, now: Instant) returns (report: Report)
      modifies this
      ensures var wanted := Wanted(Eligible(mappings, supported), derive);
              && rows == Rebuilt(old(rows), supported, wanted, now)
              && Reports(old(rows).Keys, supported, wanted.Keys, Updates(old(rows), wanted), report)
    {
      hide Written, Updates, Rebuilt, Handled, SupportedOnly;
      var eligible := Eligible(mappings, supported);
      EligibleAreSupported(mappings, supported);
      var groups, order := GroupMappings(eligible);
      ghost var wanted := Wanted(eligible, derive);
      assert wanted == map k | k in groups :: derive(groups[k]);
      var existing := Handled(rows, supported);
      DistinctCount(order);
      assert wanted.Keys == set k | k in order;
      var counts := Write(existing, groups, order, derive, now);
      AllWritten(old(rows), supported, wanted, now, rows, counts);
      var deleted := DeleteStale(existing.Keys, groups.Keys);
      report := Report(|order|, counts.created, counts.updated, counts.same, deleted);
    }
  }

  lemma StaleNext(existing: set<Key>, expected: set<Key>, todo: set<Key>, k: Key)
    requires k in todo && todo <= existing
    ensures |(existing - (todo - {k})) - expected| == |(existing - todo) - expected| + if k in expected then 0 else 1
  {
    var gone := (existing - todo) - expected;
    assert (existing - (todo - {k})) - expected == if k in expected then gone else gone + {k};
  }

  datatype Counts = Counts(created: nat, updated: nat, same: nat)

  /** The table and the counters once the projections in done have been written. */
  ghost predicate Written<V>(existing: Rows<V>, before: Rows<V>, wanted: map<Key, V>, done: set<Key>, now: Instant,
                             rows: Rows<V>, counts: Counts)
  {
    && rows == Partly(existing, before, wanted, done, now)
    && counts.created == |done * (wanted.Keys - existing.Keys)|
    && counts.updated == |done * Updates(existing, wanted)|
    && counts.same == |done * (wanted.Keys * existing.Keys - Updates(existing, wanted))|
  }

  lemma NoKeys(s: set<Key>)
    ensures |{} * s| == 0
  {
  }

  lemma PartlyStart<V>(existing: Rows<V>, before: Rows<V>, wanted: map<Key, V>, now: Instant)
    ensures Partly(existing, before, wanted, {}, now) == before
  {
  }

  lemma WrittenStart<V>(existing: Rows<V>, before: Rows<V>, wanted: map<Key, V>, now: Instant)
    ensures Written(existing, before, wanted, {}, now, before, Counts(0, 0, 0))
  {
    hide Partly, Updates;
    PartlyStart(existing, before, wanted, now);
    NoKeys(wanted.Keys - existing.Keys);
    NoKeys(Updates(existing, wanted));
    NoKeys(wanted.Keys * existing.Keys - Updates(existing, wanted));
  }

  lemma OneMoreKey(done: set<Key>, s: set<Key>, k: Key)
    requires k !in done
    ensures |(done + {k}) * s| == |done * s| + if k in s then 1 else 0
  {
    assert (done + {k}) * s == if k in s then done * s + {k} else done * s;
  }

  lemma PartlyNext<V>(existing: Rows<V>, before: Rows<V>, supported: set<nat>, wanted: map<Key, V>, done: set<Key>, now: Instant, k: Key)
    requires existing == Handled(before, supported) && k in wanted && k !in done
    ensures var rows := Partly(existing, before, wanted, done, now);
            Partly(existing, before, wanted, done + {k}, now) ==
            if k !in existing || Changed(existing[k], wanted[k]) then rows[k := Fresh(wanted[k], now)] else rows
  {
  }

  lemma WrittenNext<V>(existing: Rows<V>, before: Rows<V>, supported: set<nat>, wanted: map<Key, V>, done: set<Key>, now: Instant,
                       rows: Rows<V>, counts: Counts, k: Key)
    requires Written(existing, before, wanted, done, now, rows, counts)
    requires existing == Handled(before, supported) && k in wanted && k !in done
    ensures Written(existing, before, wanted, done + {k}, now,
                    if k !in existing || Changed(existing[k], wanted[k]) then rows[k := Fresh(wanted[k], now)] else rows,
                    if k !in existing then counts.(created := counts.created + 1)
                    else if Changed(existing[k], wanted[k]) then counts.(updated := counts.updated + 1)
                    else counts.(same := counts.same + 1))
  {
    hide Partly, Handled;
    PartlyNext(existing, before, supported, wanted, done, now, k);
    OneMoreKey(done, wanted.Keys - existing.Keys, k);
    OneMoreKey(done, Updates(existing, wanted), k);
    OneMoreKey(done, wanted.Keys * existing.Keys - Updates(existing, wanted), k);
  }

  /** All projections written: what the counters then say about the table before. */
  lemma AllWritten<V>(before: Rows<V>, supported: set<nat>, wanted: map<Key, V>, now: Instant, rows: Rows<V>, counts: Counts)
    requires OfSupported(wanted, supported)
    requires Written(Handled(before, supported), before, wanted, wanted.Keys, now, rows, counts)
    ensures counts.created == |wanted.Keys - before.Keys|
    ensures counts.updated == |Updates(before, wanted)|
    ensures counts.same == |wanted.Keys * before.Keys - Updates(before, wanted)|
    ensures var existing := Handled(before, supported);
            && rows - (existing.Keys - wanted.Keys) == Rebuilt(before, supported, wanted, now)
            && existing.Keys == SupportedOnly(before.Keys, supported)
  {
    var existing := Handled(before, supported);
    AllDone(before, supported, wanted, now);
    ExistingOnly(before, supported, wanted);
    var updates := Updates(before, wanted);
    hide Updates, Handled, Partly, Rebuilt;
    PartOf(wanted.Keys - before.Keys, wanted.Keys);
    PartOf(updates, wanted.Keys);
    PartOf(wanted.Keys * before.Keys - updates, wanted.Keys);
  }

  lemma {:induction false} DistinctCount(order: seq<Key>)
    requires forall i, j :: 0 <= i < j < |order| ==> order[i] != order[j]
    ensures |set k | k in order| == |order|
  {
    if order != [] {
      var n := |order| - 1;
      DistinctCount(order[..n]);
      assert (set k | k in order) == (set k | k in order[..n]) + {order[n]};
    }
  }

  /** With every projection written, deleting what was not called for ends the rebuild. */
  lemma AllDone<V>(rows: Rows<V>, supported: set<nat>, wanted: map<Key, V>, now: Instant)
    requires OfSupported(wanted, supported)
    ensures var existing := Handled(rows, supported);
            Partly(existing, rows, wanted, wanted.Keys, now) - (existing.Keys - wanted.Keys) == Rebuilt(rows, supported, wanted, now)
  {
  }

  lemma ExistingOnly<V>(rows: Rows<V>, supported: set<nat>, wanted: map<Key, V>)
    requires OfSupported(wanted, supported)
    ensures var existing := Handled(rows, supported);
            && existing.Keys == SupportedOnly(rows.Keys, supported)
            && wanted.Keys - existing.Keys == wanted.Keys - rows.Keys
            && wanted.Keys * existing.Keys == wanted.Keys * rows.Keys
            && Updates(existing, wanted) == Updates(rows, wanted)
            && Updates(rows, wanted) <= wanted.Keys
  {
  }

  lemma PartOf(s: set<Key>, all: set<Key>)
    requires s <= all
    ensures all * s == s
  {
  }

  /** The table once the projections in done have been written and nothing has been deleted. */
  ghost function Partly<V>(existing: Rows<V>, rows: Rows<V>, wanted: map<Key, V>, done: set<Key>, now: Instant): Rows<V> {
    map k | k in rows.Keys + done * wanted.Keys ::
      if k !in done || k !in wanted then rows[k]
      else if k in existing then Refreshed(existing[k], wanted[k], now)
      else Fresh(wanted[k], now)
  }
}
