/** The canonical form behind the registry checksum: dictionaries ordered by key, lists
    ordered by the serialization of their canonical items, at every depth. */
module Canonical {
  import opened Sorting

  datatype Json =
    | Null
    | Bool(b: bool)
    | Number(n: int)
    | Text(s: string)
    | List(items: seq<Json>)
    | Object(fields: seq<Field>)

  datatype Field = Field(key: string, value: Json)

  // ---------- Strings in code point order ----------

  predicate Leq(a: string, b: string) {
    a == "" || (b != "" && (a[0] < b[0] || (a[0] == b[0] && Leq(a[1..], b[1..]))))
  }

  lemma {:induction false} LeqTotal(a: string, b: string)
    ensures Leq(a, b) || Leq(b, a)
  {
    if a != "" && b != "" && a[0] == b[0] { LeqTotal(a[1..], b[1..]); }
  }

  lemma {:induction false} LeqAntisymmetric(a: string, b: string)
    requires Leq(a, b) && Leq(b, a)
    ensures a == b
  {
    if a != "" && b != "" {
      LeqAntisymmetric(a[1..], b[1..]);
      assert a == [a[0]] + a[1..] && b == [b[0]] + b[1..];
    }
  }

  lemma {:induction false} LeqTransitive(a: string, b: string, c: string)
    requires Leq(a, b) && Leq(b, c)
    ensures Leq(a, c)
  {
    if a != "" && a[0] == b[0] && b[0] == c[0] { LeqTransitive(a[1..], b[1..], c[1..]); }
  }

  // ---------- Sorting by a key ----------

  lemma LeqIsTotal()
    ensures TotalOrder(Leq)
  {
    forall a, b ensures Leq(a, b) || Leq(b, a) { LeqTotal(a, b); }
    forall a, b, c | Leq(a, b) && Leq(b, c) ensures Leq(a, c) { LeqTransitive(a, b, c); }
  }

  /** sorted(xs, key=key) */
  function Sorted<T>(xs: seq<T>, key: T -> string): seq<T> {
    SortBy(Leq, key, xs)
  }

  ghost predicate Ordered<T>(xs: seq<T>, key: T -> string) {
    forall i, j :: 0 <= i < j < |xs| ==> Leq(key(xs[i]), key(xs[j]))
  }

  lemma SortedOrders<T>(xs: seq<T>, key: T -> string)
    ensures Ordered(Sorted(xs, key), key)
    ensures multiset(Sorted(xs, key)) == multiset(xs)
    ensures |Sorted(xs, key)| == |xs|
  {
    LeqIsTotal();
    hide Leq, SortBy;
    SortBySorts(Leq, key, xs);
    SortByHolds(Leq, key, xs);
  }

  ghost predicate KeyTells<T>(xs: seq<T>, key: T -> string) {
    forall a, b :: a in xs && b in xs && key(a) == key(b) ==> a == b
  }

  lemma HeadIsLeast<T>(xs: seq<T>, key: T -> string, x: T)
    requires Ordered(xs, key) && x in xs
    ensures Leq(key(xs[0]), key(x))
  {
    LeqTotal(key(x), key(x));
  }

  lemma HeadAndTail<T>(xs: seq<T>)
    requires xs != []
    ensures multiset(xs) == multiset{xs[0]} + multiset(xs[1..])
  {
    assert xs == [xs[0]] + xs[1..];
  }

  lemma SameLength<T>(xs: seq<T>, ys: seq<T>)
    requires multiset(xs) == multiset(ys)
    ensures |xs| == |ys|
  {
    assert |multiset(xs)| == |xs| && |multiset(ys)| == |ys|;
  }

  lemma Cancel<T>(x: T, a: multiset<T>, b: multiset<T>)
    requires multiset{x} + a == multiset{x} + b
    ensures a == b
  {
    forall y ensures a[y] == b[y] {
      assert (multiset{x} + a)[y] == (multiset{x} + b)[y];
    }
  }

  lemma TailOrdered<T>(xs: seq<T>, key: T -> string)
    requires Ordered(xs, key) && xs != []
    ensures Ordered(xs[1..], key)
  {
  }

  /** When keys tell the items apart, an ordered sequence is determined by what it contains. */
  lemma {:induction false} OrderedUnique<T>(xs: seq<T>, ys: seq<T>, key: T -> string)
    requires Ordered(xs, key) && Ordered(ys, key) && multiset(xs) == multiset(ys) && KeyTells(xs, key)
    ensures xs == ys
  {
    SameLength(xs, ys);
    if xs != [] {
      SameHead(xs, ys, key);
      HeadAndTail(xs);
      HeadAndTail(ys);
      Cancel(xs[0], multiset(xs[1..]), multiset(ys[1..]));
      TailOrdered(xs, key);
      TailOrdered(ys, key);
      assert KeyTells(xs[1..], key) by { assert forall a :: a in xs[1..] ==> a in xs; }
      hide Ordered, KeyTells;
      OrderedUnique(xs[1..], ys[1..], key);
      assert xs == [xs[0]] + xs[1..] && ys == [ys[0]] + ys[1..];
    }
  }

  lemma SameHead<T>(xs: seq<T>, ys: seq<T>, key: T -> string)
    requires Ordered(xs, key) && Ordered(ys, key) && multiset(xs) == multiset(ys) && KeyTells(xs, key)
    requires xs != [] && ys != []
    ensures xs[0] == ys[0]
  {
    assert xs[0] in multiset(xs) && ys[0] in multiset(ys);
    HeadIsLeast(xs, key, ys[0]);
    HeadIsLeast(ys, key, xs[0]);
    LeqAntisymmetric(key(xs[0]), key(ys[0]));
  }

  // ---------- The canonical form ----------

  function Canonicalize(v: Json, serialize: Json -> string): Json {
    match v
    case List(items) => List(Sorted(CanonicalItems(items, serialize), serialize))
    case Object(fields) => Object(Sorted(CanonicalFields(fields, serialize), KeyOf))
    case _ => v
  }

  function KeyOf(f: Field): string { f.key }

  function CanonicalItems(items: seq<Json>, serialize: Json -> string): (r: seq<Json>)
    ensures |r| == |items| && forall i :: 0 <= i < |items| ==> r[i] == Canonicalize(items[i], serialize)
  {
    if items == [] then []
    else [Canonicalize(items[0], serialize)] + CanonicalItems(items[1..], serialize)
  }

  function CanonicalFields(fields: seq<Field>, serialize: Json -> string): (r: seq<Field>)
    ensures |r| == |fields|
    ensures forall i :: 0 <= i < |fields| ==> r[i] == Field(fields[i].key, Canonicalize(fields[i].value, serialize))
  {
    if fields == [] then []
    else [Field(fields[0].key, Canonicalize(fields[0].value, serialize))] + CanonicalFields(fields[1..], serialize)
  }

  /** Dictionaries have distinct keys. */
  ghost predicate WellFormed(v: Json) {
    match v
    case List(items) => forall i :: 0 <= i < |items| ==> WellFormed(items[i])
    case Object(fields) => DistinctKeys(fields) && forall i :: 0 <= i < |fields| ==> WellFormed(fields[i].value)
    case _ => true
  }

  ghost predicate DistinctKeys(fields: seq<Field>) {
    forall i, j :: 0 <= i < j < |fields| ==> fields[i].key != fields[j].key
  }

  /** Every dictionary inside is in key order. */
  ghost predicate KeysOrdered(v: Json) {
    match v
    case List(items) => forall i :: 0 <= i < |items| ==> KeysOrdered(items[i])
    case Object(fields) => Ordered(fields, KeyOf) && forall i :: 0 <= i < |fields| ==> KeysOrdered(fields[i].value)
    case _ => true
  }

  /** The serialization writes dictionaries in key order, so it can only tell values apart
      whose dictionaries are already in that order; that is all the canonical form asks of it. */
  ghost predicate Injective(serialize: Json -> string) {
    forall a, b :: KeysOrdered(a) && KeysOrdered(b) && serialize(a) == serialize(b) ==> a == b
  }

  // ---------- Equality up to reordering ----------

  ghost predicate Permutation(p: seq<nat>, n: nat) {
    && |p| == n
    && (forall i :: 0 <= i < n ==> p[i] < n)
    && forall i, j :: 0 <= i < j < n ==> p[i] != p[j]
  }

  /** The same value, up to the order of lists and of dictionary entries at every depth. */
  ghost predicate Equivalent(a: Json, b: Json)
    decreases a
  {
    match a
    case List(xs) =>
      && b.List? && |b.items| == |xs|
      && exists p :: Permutation(p, |xs|) && forall i :: 0 <= i < |xs| ==> Equivalent(xs[i], b.items[p[i]])
    case Object(fs) =>
      && b.Object? && |b.fields| == |fs|
      && exists p :: Permutation(p, |fs|) && forall i :: 0 <= i < |fs| ==>
                       fs[i].key == b.fields[p[i]].key && Equivalent(fs[i].value, b.fields[p[i]].value)
    case _ => a == b
  }

  // ---------- Permutations and multisets ----------

  /** ys is xs rearranged by p. */
  ghost predicate Rearranged<T>(xs: seq<T>, ys: seq<T>, p: seq<nat>) {
    Permutation(p, |xs|) && |ys| == |xs| && forall i :: 0 <= i < |xs| ==> xs[i] == ys[p[i]]
  }

  function Without<T>(xs: seq<T>, k: nat): seq<T>
    requires k < |xs|
  {
    xs[..k] + xs[k + 1..]
  }

  lemma WithoutMultiset<T>(xs: seq<T>, k: nat)
    requires k < |xs|
    ensures multiset(xs) == multiset{xs[k]} + multiset(Without(xs, k))
  {
    assert xs == xs[..k] + [xs[k]] + xs[k + 1..];
  }

  /** Skipping over, and closing up, the position k. */
  function Skip(i: nat, k: nat): nat { if i < k then i else i + 1 }

  function Close(i: nat, k: nat): nat
    requires i != k
  {
    if i < k then i else i - 1
  }

  /** Taking the first item away on one side and its image on the other leaves a rearrangement. */
  lemma Shortened<T>(xs: seq<T>, ys: seq<T>, p: seq<nat>) returns (q: seq<nat>)
    requires Rearranged(xs, ys, p) && xs != []
    ensures Rearranged(xs[1..], Without(ys, p[0]), q)
  {
    var k := p[0];
    q := seq(|xs| - 1, i requires 0 <= i < |xs| - 1 => Close(p[i + 1], k));
    var rest := Without(ys, k);
    forall i | 0 <= i < |xs| - 1 ensures q[i] < |xs| - 1 && rest[q[i]] == xs[1..][i] {
      assert p[i + 1] != k;
    }
    forall i, j | 0 <= i < j < |xs| - 1 ensures q[i] != q[j] {
      assert p[i + 1] != p[j + 1] && p[i + 1] != k && p[j + 1] != k;
    }
  }

  lemma {:induction false} RearrangedMultiset<T>(xs: seq<T>, ys: seq<T>, p: seq<nat>)
    requires Rearranged(xs, ys, p)
    ensures multiset(xs) == multiset(ys)
  {
    if xs != [] {
      var k := p[0];
      assert k < |ys| && xs[0] == ys[k];
      var q := Shortened(xs, ys, p);
      hide Rearranged, Without;
      RearrangedMultiset(xs[1..], Without(ys, k), q);
      HeadAndTail(xs);
      WithoutMultiset(ys, k);
    } else {
      assert |ys| == 0;
    }
  }

  function Extended(q: seq<nat>, k: nat): (p: seq<nat>)
    ensures |p| == |q| + 1 && p[0] == k
    ensures forall i :: 0 <= i < |q| ==> p[i + 1] == Skip(q[i], k)
  {
    [k] + seq(|q|, i requires 0 <= i < |q| => Skip(q[i], k))
  }

  lemma ExtendedPermutation(q: seq<nat>, k: nat)
    requires Permutation(q, |q|) && k <= |q|
    ensures Permutation(Extended(q, k), |q| + 1)
  {
  }

  /** A rearrangement of the rest becomes one of the whole. */
  lemma Lengthened<T>(xs: seq<T>, ys: seq<T>, k: nat, q: seq<nat>)
    requires xs != [] && k < |ys| && ys[k] == xs[0] && Rearranged(xs[1..], Without(ys, k), q)
    ensures Rearranged(xs, ys, Extended(q, k))
  {
    var p := Extended(q, k);
    ExtendedPermutation(q, k);
    hide Permutation;
    forall i | 0 <= i < |xs| ensures xs[i] == ys[p[i]] {
      if i > 0 {
        assert p[(i - 1) + 1] == Skip(q[i - 1], k);
        assert xs[1..][i - 1] == Without(ys, k)[q[i - 1]];
      }
    }
  }

  lemma {:induction false} MultisetRearranged<T>(xs: seq<T>, ys: seq<T>) returns (p: seq<nat>)
    requires multiset(xs) == multiset(ys)
    ensures Rearranged(xs, ys, p)
  {
    SameLength(xs, ys);
    if xs == [] {
      p := [];
    } else {
      hide Rearranged, Without;
      var k := FoundIn(xs, ys);
      HeadAndTail(xs);
      WithoutMultiset(ys, k);
      Cancel(xs[0], multiset(xs[1..]), multiset(Without(ys, k)));
      var q := MultisetRearranged(xs[1..], Without(ys, k));
      p := Extended(q, k);
      Lengthened(xs, ys, k, q);
    }
  }

  lemma FoundIn<T>(xs: seq<T>, ys: seq<T>) returns (k: nat)
    requires xs != [] && multiset(xs) == multiset(ys)
    ensures k < |ys| && ys[k] == xs[0]
  {
    assert xs[0] in multiset(ys);
    k :| 0 <= k < |ys| && ys[k] == xs[0];
  }

  // ---------- The theorem ----------

  /** Sorting two rearrangements of the same items gives one result. */
  lemma SortedSame<T>(xs: seq<T>, ys: seq<T>, p: seq<nat>, key: T -> string)
    requires Rearranged(xs, ys, p) && KeyTells(xs, key)
    ensures Sorted(xs, key) == Sorted(ys, key)
  {
    RearrangedMultiset(xs, ys, p);
    SortedOrders(xs, key);
    SortedOrders(ys, key);
    forall a | a in Sorted(xs, key) ensures a in xs {
      assert a in multiset(Sorted(xs, key));
    }
    OrderedUnique(Sorted(xs, key), Sorted(ys, key), key);
  }

  /** Two sequences that sort to the same result are rearrangements of each other. */
  lemma SameSorted<T>(xs: seq<T>, ys: seq<T>, key: T -> string) returns (p: seq<nat>)
    requires Sorted(xs, key) == Sorted(ys, key)
    ensures Rearranged(xs, ys, p)
  {
    SortedOrders(xs, key);
    SortedOrders(ys, key);
    p := MultisetRearranged(xs, ys);
  }

  /** Where an element of the sorted sequence comes from. */
  lemma SortedFrom<T>(xs: seq<T>, key: T -> string, i: nat) returns (k: nat)
    requires i < |Sorted(xs, key)|
    ensures k < |xs| && xs[k] == Sorted(xs, key)[i]
  {
    SortedOrders(xs, key);
    assert Sorted(xs, key)[i] in multiset(xs);
    k :| 0 <= k < |xs| && xs[k] == Sorted(xs, key)[i];
  }

  lemma {:induction false} CanonicalIsOrdered(v: Json, serialize: Json -> string)
    ensures KeysOrdered(Canonicalize(v, serialize))
    decreases v
  {
    hide Sorted;
    match v
    case List(items) =>
      var all := CanonicalItems(items, serialize);
      forall i | 0 <= i < |Sorted(all, serialize)| ensures KeysOrdered(Sorted(all, serialize)[i]) {
        var k := SortedFrom(all, serialize, i);
        CanonicalIsOrdered(items[k], serialize);
      }
    case Object(fields) =>
      var all := CanonicalFields(fields, serialize);
      SortedOrders(all, KeyOf);
      forall i | 0 <= i < |Sorted(all, KeyOf)| ensures KeysOrdered(Sorted(all, KeyOf)[i].value) {
        var k := SortedFrom(all, KeyOf, i);
        CanonicalIsOrdered(fields[k].value, serialize);
      }
    case _ =>
  }

  lemma ItemsTold(items: seq<Json>, serialize: Json -> string)
    requires Injective(serialize)
    ensures KeyTells(CanonicalItems(items, serialize), serialize)
  {
    var all := CanonicalItems(items, serialize);
    forall a, b | a in all && b in all && serialize(a) == serialize(b) ensures a == b {
      var i :| 0 <= i < |all| && all[i] == a;
      var j :| 0 <= j < |all| && all[j] == b;
      CanonicalIsOrdered(items[i], serialize);
      CanonicalIsOrdered(items[j], serialize);
    }
  }

  lemma RearrangedLists(xs: seq<Json>, ys: seq<Json>, p: seq<nat>, serialize: Json -> string)
    requires Injective(serialize) && Permutation(p, |xs|) && |ys| == |xs|
    requires forall i :: 0 <= i < |xs| ==> Canonicalize(xs[i], serialize) == Canonicalize(ys[p[i]], serialize)
    ensures Canonicalize(List(xs), serialize) == Canonicalize(List(ys), serialize)
  {
    ItemsTold(xs, serialize);
    SortedSame(CanonicalItems(xs, serialize), CanonicalItems(ys, serialize), p, serialize);
  }

  lemma KeysTell(fs: seq<Field>, serialize: Json -> string)
    requires DistinctKeys(fs)
    ensures KeyTells(CanonicalFields(fs, serialize), KeyOf)
  {
  }

  lemma RearrangedObjects(fs: seq<Field>, gs: seq<Field>, p: seq<nat>, serialize: Json -> string)
    requires DistinctKeys(fs) && Permutation(p, |fs|) && |gs| == |fs|
    requires forall i :: 0 <= i < |fs| ==>
                           fs[i].key == gs[p[i]].key && Canonicalize(fs[i].value, serialize) == Canonicalize(gs[p[i]].value, serialize)
    ensures Canonicalize(Object(fs), serialize) == Canonicalize(Object(gs), serialize)
  {
    var cf, cg := CanonicalFields(fs, serialize), CanonicalFields(gs, serialize);
    forall i | 0 <= i < |fs| ensures cf[i] == cg[p[i]] {}
    assert KeyTells(cf, KeyOf) by { KeysTell(fs, serialize); }
    hide Permutation, CanonicalFields, Sorted;
    SortedSame(cf, cg, p, KeyOf);
  }

  lemma {:induction false} EquivalentSameForm(a: Json, b: Json, serialize: Json -> string)
    requires WellFormed(a) && Injective(serialize) && Equivalent(a, b)
    ensures Canonicalize(a, serialize) == Canonicalize(b, serialize)
    decreases a
  {
    hide Injective, Canonicalize;
    match a
    case List(xs) =>
      var ys := b.items;
      var p :| Permutation(p, |xs|) && forall i :: 0 <= i < |xs| ==> Equivalent(xs[i], ys[p[i]]);
      forall i | 0 <= i < |xs| ensures Canonicalize(xs[i], serialize) == Canonicalize(ys[p[i]], serialize) {
        EquivalentSameForm(xs[i], ys[p[i]], serialize);
      }
      RearrangedLists(xs, ys, p, serialize);
    case Object(fs) =>
      var gs := b.fields;
      var p :| Permutation(p, |fs|) && forall i :: 0 <= i < |fs| ==> fs[i].key == gs[p[i]].key && Equivalent(fs[i].value, gs[p[i]].value);
      forall i | 0 <= i < |fs| ensures fs[i].key == gs[p[i]].key && Canonicalize(fs[i].value, serialize) == Canonicalize(gs[p[i]].value, serialize) {
        EquivalentSameForm(fs[i].value, gs[p[i]].value, serialize);
      }
      RearrangedObjects(fs, gs, p, serialize);
    case _ =>
  }

  lemma {:induction false} SameFormEquivalent(a: Json, b: Json, serialize: Json -> string)
    requires Canonicalize(a, serialize) == Canonicalize(b, serialize)
    ensures Equivalent(a, b)
    decreases a
  {
    match a
    case List(xs) =>
      var ys := b.items;
      var p := SameSorted(CanonicalItems(xs, serialize), CanonicalItems(ys, serialize), serialize);
      forall i | 0 <= i < |xs| ensures Equivalent(xs[i], ys[p[i]]) {
        SameFormEquivalent(xs[i], ys[p[i]], serialize);
      }
    case Object(fs) =>
      var gs := b.fields;
      var p := SameSorted(CanonicalFields(fs, serialize), CanonicalFields(gs, serialize), KeyOf);
      forall i | 0 <= i < |fs| ensures fs[i].key == gs[p[i]].key && Equivalent(fs[i].value, gs[p[i]].value) {
        assert CanonicalFields(fs, serialize)[i] == CanonicalFields(gs, serialize)[p[i]];
        SameFormEquivalent(fs[i].value, gs[p[i]].value, serialize);
      }
    case _ =>
  }

  /** Two values have the same canonical form exactly when they are equal up to the order of
      lists and dictionary entries at every depth. */
  lemma CanonicalFormDecides(a: Json, b: Json, serialize: Json -> string)
    requires WellFormed(a) && Injective(serialize)
    ensures Canonicalize(a, serialize) == Canonicalize(b, serialize) <==> Equivalent(a, b)
  {
    if Equivalent(a, b) { EquivalentSameForm(a, b, serialize); }
    if Canonicalize(a, serialize) == Canonicalize(b, serialize) { SameFormEquivalent(a, b, serialize); }
  }

  lemma {:induction false} CanonicalIsEquivalent(v: Json, serialize: Json -> string)
    ensures Equivalent(v, Canonicalize(v, serialize))
    decreases v
  {
    match v
    case List(xs) =>
      var all := CanonicalItems(xs, serialize);
      SortedOrders(all, serialize);
      var p := MultisetRearranged(all, Sorted(all, serialize));
      forall i | 0 <= i < |xs| ensures Equivalent(xs[i], Sorted(all, serialize)[p[i]]) {
        CanonicalIsEquivalent(xs[i], serialize);
      }
    case Object(fs) =>
      var all := CanonicalFields(fs, serialize);
      SortedOrders(all, KeyOf);
      var p := MultisetRearranged(all, Sorted(all, KeyOf));
      forall i | 0 <= i < |fs|
        ensures fs[i].key == Sorted(all, KeyOf)[p[i]].key && Equivalent(fs[i].value, Sorted(all, KeyOf)[p[i]].value)
      {
        CanonicalIsEquivalent(fs[i].value, serialize);
      }
    case _ =>
  }

  /** The canonical form is its own canonical form. */
  lemma CanonicalizeIsIdempotent(v: Json, serialize: Json -> string)
    requires WellFormed(v) && Injective(serialize)
    ensures Canonicalize(Canonicalize(v, serialize), serialize) == Canonicalize(v, serialize)
  {
    CanonicalIsEquivalent(v, serialize);
    EquivalentSameForm(v, Canonicalize(v, serialize), serialize);
  }

  // ---------- The registry payload ----------

  /** What a registry says: the definitions of all its files. */
  datatype Registry = Registry(categories: seq<Json>, topics: seq<Json>, collisions: seq<Json>)

  /** The payload before it is made canonical: each list ordered by its own key. */
  function RawFields(r: Registry, slug: Json -> string, collisionKey: Json -> string): seq<Field> {
    [Field("schema_version", Number(1)),
     Field("categories", List(Sorted(r.categories, slug))),
     Field("topics", List(Sorted(r.topics, slug))),
     Field("allowed_alias_collisions", List(Sorted(r.collisions, collisionKey)))]
  }

  function RegistryPayload(r: Registry, slug: Json -> string, collisionKey: Json -> string, serialize: Json -> string): Json {
    Canonicalize(Object(RawFields(r, slug, collisionKey)), serialize)
  }

  ghost predicate AllWellFormed(vs: seq<Json>) {
    forall i :: 0 <= i < |vs| ==> WellFormed(vs[i])
  }

  lemma SortedWellFormed(vs: seq<Json>, key: Json -> string)
    requires AllWellFormed(vs)
    ensures AllWellFormed(Sorted(vs, key))
  {
    SortedOrders(vs, key);
    forall i | 0 <= i < |vs| ensures WellFormed(Sorted(vs, key)[i]) {
      assert Sorted(vs, key)[i] in multiset(vs);
    }
  }

  lemma ListsSorted(xs: seq<Json>, ys: seq<Json>, key: Json -> string, serialize: Json -> string)
    requires AllWellFormed(xs) && Injective(serialize)
    ensures AllWellFormed(Sorted(xs, key))
    ensures Canonicalize(List(Sorted(xs, key)), serialize) == Canonicalize(List(xs), serialize)
  {
    SortedWellFormed(xs, key);
    SortedOrders(xs, key);
    var p := MultisetRearranged(xs, Sorted(xs, key));
    RearrangedLists(xs, Sorted(xs, key), p, serialize);
  }

  ghost predicate RegistryWellFormed(r: Registry) {
    AllWellFormed(r.categories) && AllWellFormed(r.topics) && AllWellFormed(r.collisions)
  }

  /** The same definitions, in any order and spread over the files in any way. */
  ghost predicate SameDefinitions(r: Registry, s: Registry) {
    && Equivalent(List(r.categories), List(s.categories))
    && Equivalent(List(r.topics), List(s.topics))
    && Equivalent(List(r.collisions), List(s.collisions))
  }

  lemma ListsDecide(xs: seq<Json>, ys: seq<Json>, key: Json -> string, serialize: Json -> string)
    requires AllWellFormed(xs) && AllWellFormed(ys) && Injective(serialize)
    ensures Canonicalize(List(Sorted(xs, key)), serialize) == Canonicalize(List(Sorted(ys, key)), serialize) <==> Equivalent(List(xs), List(ys))
  {
    ListsSorted(xs, ys, key, serialize);
    ListsSorted(ys, xs, key, serialize);
    CanonicalFormDecides(List(xs), List(ys), serialize);
  }

  const FIELD_NAMES := ["schema_version", "categories", "topics", "allowed_alias_collisions"]

  lemma DistinctFieldNames(i: nat, j: nat)
    requires i < 4 && j < 4 && FIELD_NAMES[i] == FIELD_NAMES[j]
    ensures i == j
  {
  }

  /** Objects over the same four names have one canonical form exactly when they agree name by name. */
  lemma FieldsDecide(fs: seq<Field>, gs: seq<Field>, serialize: Json -> string)
    requires |fs| == 4 && |gs| == 4
    requires forall i :: 0 <= i < 4 ==> fs[i].key == FIELD_NAMES[i] && gs[i].key == FIELD_NAMES[i]
    ensures Canonicalize(Object(fs), serialize) == Canonicalize(Object(gs), serialize)
            <==> forall i :: 0 <= i < 4 ==> Canonicalize(fs[i].value, serialize) == Canonicalize(gs[i].value, serialize)
  {
    var cf, cg := CanonicalFields(fs, serialize), CanonicalFields(gs, serialize);
    if Canonicalize(Object(fs), serialize) == Canonicalize(Object(gs), serialize) {
      var p := SameSorted(cf, cg, KeyOf);
      forall i | 0 <= i < 4 ensures Canonicalize(fs[i].value, serialize) == Canonicalize(gs[i].value, serialize) {
        assert cf[i] == cg[p[i]];
        DistinctFieldNames(i, p[i]);
      }
    }
    if forall i :: 0 <= i < 4 ==> Canonicalize(fs[i].value, serialize) == Canonicalize(gs[i].value, serialize) {
      assert cf == cg;
    }
  }

  lemma RawFieldsAt(r: Registry, slug: Json -> string, collisionKey: Json -> string)
    ensures var fs := RawFields(r, slug, collisionKey);
            && |fs| == 4
            && (forall i :: 0 <= i < 4 ==> fs[i].key == FIELD_NAMES[i])
            && fs[0].value == Number(1)
            && fs[1].value == List(Sorted(r.categories, slug))
            && fs[2].value == List(Sorted(r.topics, slug))
            && fs[3].value == List(Sorted(r.collisions, collisionKey))
  {
  }

  /** The payload, and with an injective digest the checksum, identifies a registry exactly up
      to the order of its definitions and of everything inside them. */
  lemma PayloadDecides(r: Registry, s: Registry, slug: Json -> string, collisionKey: Json -> string, serialize: Json -> string)
    requires RegistryWellFormed(r) && RegistryWellFormed(s) && Injective(serialize)
    ensures RegistryPayload(r, slug, collisionKey, serialize) == RegistryPayload(s, slug, collisionKey, serialize) <==> SameDefinitions(r, s)
  {
    hide Equivalent, Canonicalize, Sorted, RawFields, Injective, WellFormed;
    ListsDecide(r.categories, s.categories, slug, serialize);
    ListsDecide(r.topics, s.topics, slug, serialize);
    ListsDecide(r.collisions, s.collisions, collisionKey, serialize);
    RawFieldsAt(r, slug, collisionKey);
    RawFieldsAt(s, slug, collisionKey);
    var fs, gs := RawFields(r, slug, collisionKey), RawFields(s, slug, collisionKey);
    FieldsDecide(fs, gs, serialize);
    assert fs[0].value == gs[0].value;
  }
}
