/** A unique key on names, checked by the database at every row that is written. */
module UniqueNames {
  type Slug = string

  /** The names a table holds, by slug. */
  type Names = map<Slug, string>

  /** One inserted or updated row. */
  datatype Write = Write(slug: Slug, name: string)

  ghost predicate Unique(names: Names) {
    forall a, b :: a in names && b in names && names[a] == names[b] ==> a == b
  }

  predicate Taken(names: Names, w: Write) {
    exists other :: other in names && other != w.slug && names[other] == w.name
  }

  /** One row for a slug, and no two rows for a name. */
  ghost predicate Distinct(writes: seq<Write>) {
    forall i, j :: 0 <= i < j < |writes| ==> writes[i].slug != writes[j].slug && writes[i].name != writes[j].name
  }

  function Written(names: Names, writes: seq<Write>): Names {
    if writes == [] then names
    else Written(names, writes[..|writes| - 1])[writes[|writes| - 1].slug := writes[|writes| - 1].name]
  }

  ghost predicate WrittenBefore(writes: seq<Write>, i: nat, slug: Slug)
    requires i <= |writes|
  {
    exists k :: 0 <= k < i && writes[k].slug == slug
  }

  /** The unique key lets all writes through: whoever holds a name that is written to another
      row has been given a new one by then. */
  ghost predicate NamesFit(names: Names, writes: seq<Write>) {
    forall i, other :: 0 <= i < |writes| && other in names && other != writes[i].slug && names[other] == writes[i].name
      ==> WrittenBefore(writes, i, other)
  }

  lemma {:induction false} WrittenMeans(names: Names, writes: seq<Write>, slug: Slug)
    requires Distinct(writes)
    ensures slug in Written(names, writes) <==> slug in names || WrittenBefore(writes, |writes|, slug)
    ensures forall k :: 0 <= k < |writes| && writes[k].slug == slug ==> Written(names, writes)[slug] == writes[k].name
    ensures slug in names && !WrittenBefore(writes, |writes|, slug) ==> Written(names, writes)[slug] == names[slug]
  {
    if writes != [] {
      var n := |writes| - 1;
      WrittenMeans(names, writes[..n], slug);
      assert writes[n].slug == slug ==> WrittenBefore(writes, n + 1, slug);
      if WrittenBefore(writes[..n], n, slug) {
        var k :| 0 <= k < n && writes[..n][k].slug == slug;
        assert writes[k].slug == slug;
      }
      if k :| 0 <= k < n && writes[k].slug == slug {
        assert writes[..n][k].slug == slug;
      }
    }
  }

  /** Row by row: a further write is let through exactly when its name is not taken in the table
      as it stands then. */
  lemma FitsOneMore(names: Names, writes: seq<Write>, i: nat)
    requires Distinct(writes) && i < |writes|
    ensures NamesFit(names, writes[..i + 1]) <==> NamesFit(names, writes[..i]) && !Taken(Written(names, writes[..i]), writes[i])
  {
    var now, next := writes[..i], writes[..i + 1];
    var table := Written(names, now);
    forall other ensures
      (other in table && other != writes[i].slug && table[other] == writes[i].name) <==>
      (other in names && other != writes[i].slug && names[other] == writes[i].name && !WrittenBefore(next, i, other))
    {
      WrittenMeans(names, now, other);
      SameBefore(writes, i, i, other);
      SameBefore(writes, i + 1, i, other);
      if k :| 0 <= k < i && now[k].slug == other { assert now[k].name != writes[i].name; }
    }
    forall k, other | 0 <= k < i ensures WrittenBefore(now, k, other) <==> WrittenBefore(next, k, other) {
      SameBefore(writes, i, k, other);
      SameBefore(writes, i + 1, k, other);
    }
    assert next[i] == writes[i] && forall k :: 0 <= k < i ==> next[k] == now[k];
    hide WrittenBefore, Written;
  }

  lemma SameBefore(writes: seq<Write>, n: nat, k: nat, slug: Slug)
    requires k <= n <= |writes|
    ensures WrittenBefore(writes[..n], k, slug) <==> WrittenBefore(writes, k, slug)
  {
    if i :| 0 <= i < k && writes[..n][i].slug == slug { assert writes[i].slug == slug; }
    if i :| 0 <= i < k && writes[i].slug == slug { assert writes[..n][i].slug == slug; }
  }

  lemma FitsPrefix(names: Names, writes: seq<Write>, i: nat)
    requires i <= |writes| && NamesFit(names, writes)
    ensures NamesFit(names, writes[..i])
  {
    forall k, other | 0 <= k < i && other in names && other != writes[k].slug && names[other] == writes[k].name
      ensures WrittenBefore(writes[..i], k, other)
    {
      SameBefore(writes, i, k, other);
    }
  }

  /** What is let through leaves a table that the key allows. */
  lemma {:induction false} StaysUnique(names: Names, writes: seq<Write>)
    requires Unique(names) && Distinct(writes) && NamesFit(names, writes)
    ensures Unique(Written(names, writes))
  {
    if writes != [] {
      var n := |writes| - 1;
      assert writes[..n + 1] == writes;
      FitsOneMore(names, writes, n);
      StaysUnique(names, writes[..n]);
    }
  }

  /** The writes of one flush, until one of them is refused. */
  method Flush(names: Names, writes: seq<Write>) returns (after: Names, ok: bool)
    requires Distinct(writes)
    ensures ok <==> NamesFit(names, writes)
    ensures ok ==> after == Written(names, writes) && (Unique(names) ==> Unique(after))
  {
    after, ok := names, true;
    assert NamesFit(names, writes[..0]);
    hide NamesFit, Distinct, Unique;
    for i := 0 to |writes|
      invariant NamesFit(names, writes[..i]) && after == Written(names, writes[..i])
    {
      FitsOneMore(names, writes, i);
      if Taken(after, writes[i]) {
        if NamesFit(names, writes) { FitsPrefix(names, writes, i + 1); }
        return after, false;
      }
      assert writes[..i + 1][..i] == writes[..i];
      after := after[writes[i].slug := writes[i].name];
    }
    assert writes[..|writes|] == writes;
    if Unique(names) { StaysUnique(names, writes); }
  }

  // ---------- What can never be let through, whatever the order ----------

  /** A name that a row keeps which is not written at all. */
  lemma KeptNameNeverFits(names: Names, writes: seq<Write>, i: nat, other: Slug)
    requires i < |writes| && other in names && names[other] == writes[i].name
    requires forall k :: 0 <= k < |writes| ==> writes[k].slug != other
    ensures !NamesFit(names, writes)
  {
    assert !WrittenBefore(writes, i, other);
  }

  /** Two rows that exchange their names, although the table they would leave is fine. */
  lemma ExchangeNeverFits(names: Names, writes: seq<Write>, i: nat, j: nat)
    requires Distinct(writes) && i < j < |writes| && writes[i].slug in names && writes[j].slug in names
    requires names[writes[i].slug] == writes[j].name && names[writes[j].slug] == writes[i].name
    ensures !NamesFit(names, writes)
  {
    forall k | 0 <= k < i ensures writes[k].slug != writes[j].slug {}
    assert !WrittenBefore(writes, i, writes[j].slug);
  }
}
