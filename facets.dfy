/** Facet counting, the part the four option selectors of
    src/core-dsfr/usecases/softwareCatalog.ts share: seed a dictionary with
    every value of the dimension found in the whole snapshot at count 0, add
    one for each occurrence of a value among the filtered entries, and sort the
    entries by ascending count. */
module Facets {
  import opened CatalogTypes
  import opened StableSort

  datatype FacetOption<T> = FacetOption(value: T, softwareCount: int)

  /** The values of every entry, one entry after the other:
      `s.map(values).reduce((prev, curr) => [...prev, ...curr], [])`. */
  function Flatten<T>(s: seq<Internal>, values: Internal -> seq<T>): (r: seq<T>)
  {
    if s == [] then [] else values(s[0]) + Flatten(s[1..], values)
  }

  /** `Array.from(new Set(s))`: each value once, in order of first occurrence. */
  function Distinct<T(==)>(s: seq<T>): (r: seq<T>)
    ensures forall i :: 0 <= i < |r| ==> r[i] in s
    ensures forall i :: 0 <= i < |s| ==> s[i] in r
    ensures NoDuplicates(r)
  {
    if s == [] then []
    else
      var d := Distinct(s[..|s| - 1]);
      assert forall i :: 0 <= i < |s| - 1 ==> s[i] == s[..|s| - 1][i];
      if s[|s| - 1] in d then d else d + [s[|s| - 1]]
  }

  /** The position of the first occurrence of `v` in `s`, or `|s|` when `v`
      does not occur. */
  function FirstIndex<T(==)>(s: seq<T>, v: T): (k: nat)
    ensures k <= |s|
    ensures k < |s| <==> v in s
    ensures k < |s| ==> s[k] == v
    ensures forall j :: 0 <= j < k ==> s[j] != v
  {
    if s == [] then 0
    else if s[0] == v then 0
    else
      var k' := FirstIndex(s[1..], v);
      assert forall j :: 1 <= j < |s| ==> s[j] == s[1..][j - 1];
      1 + k'
  }

  /** Appending a value does not move the first occurrence of a value already
      present. */
  lemma FirstIndexSnoc<T>(s: seq<T>, x: T, v: T)
    requires v in s
    ensures FirstIndex(s + [x], v) == FirstIndex(s, v)
  {
    var k := FirstIndex(s, v);
    var k' := FirstIndex(s + [x], v);
    assert (s + [x])[k] == v;
    if k' < k {
      assert s[k'] == (s + [x])[k'];
    }
  }

  /** The elements of `r` come in the order of their first occurrence in `s`. */
  predicate FirstOccurrenceOrder<T(==)>(s: seq<T>, r: seq<T>)
  {
    forall i, j :: 0 <= i < j < |r| ==> FirstIndex(s, r[i]) < FirstIndex(s, r[j])
  }

  /** Appending to `p` keeps the order of values already in it, and a new
      value comes after all of them. */
  lemma FirstOccurrenceOrderSnoc<T>(p: seq<T>, x: T, d: seq<T>)
    requires FirstOccurrenceOrder(p, d)
    requires forall i :: 0 <= i < |d| ==> d[i] in p
    ensures FirstOccurrenceOrder(p + [x], d)
    ensures x !in p ==> FirstOccurrenceOrder(p + [x], d + [x])
  {
    forall i | 0 <= i < |d|
      ensures FirstIndex(p + [x], d[i]) == FirstIndex(p, d[i]) < |p|
    {
      FirstIndexSnoc(p, x, d[i]);
    }
    if x !in p {
      var r := d + [x];
      assert FirstIndex(p + [x], x) == |p|;
      forall i, j | 0 <= i < j < |r|
        ensures FirstIndex(p + [x], r[i]) < FirstIndex(p + [x], r[j])
      {
        assert r[i] == d[i];
        if j < |d| {
          assert r[j] == d[j];
        }
      }
    }
  }

  /** `Distinct` lists the values in the order of their first occurrence. */
  lemma {:induction false} DistinctInDiscoveryOrder<T>(s: seq<T>)
    ensures FirstOccurrenceOrder(s, Distinct(s))
  {
    if s != [] {
      var p := s[..|s| - 1];
      var x := s[|s| - 1];
      assert s == p + [x];
      DistinctInDiscoveryOrder(p);
      FirstOccurrenceOrderSnoc(p, x, Distinct(p));
      if x !in Distinct(p) {
        assert x !in p;
      }
    }
  }

  /** The comparator `(a, b) => a.softwareCount - b.softwareCount` orders by
      ascending count, which is descending order of the negated count. */
  function FewerFirst<T>(o: FacetOption<T>): (r: int)
  {
    -o.softwareCount
  }

  /** Each key with the number of its occurrences in `occurrences`. */
  function Tally<T(==)>(keys: seq<T>, occurrences: seq<T>): (r: seq<FacetOption<T>>)
  {
    seq(|keys|, i requires 0 <= i < |keys| => FacetOption(keys[i], multiset(occurrences)[keys[i]]))
  }

  /** The options of one facet: every value found in the snapshot, with the
      number of its occurrences among the entries of `pool`, by ascending count. */
  function FacetView<T(==)>(snapshot: seq<Internal>, pool: seq<Internal>, values: Internal -> seq<T>)
    : (r: seq<FacetOption<T>>)
  {
    SortDesc(Tally(Distinct(Flatten(snapshot, values)), Flatten(pool, values)), FewerFirst)
  }

  lemma {:induction false} FlattenAppend<T>(a: seq<Internal>, b: seq<Internal>, values: Internal -> seq<T>)
    ensures Flatten(a + b, values) == Flatten(a, values) + Flatten(b, values)
  {
    if a == [] {
      assert a + b == b;
    } else {
      assert (a + b)[0] == a[0] && (a + b)[1..] == a[1..] + b;
      FlattenAppend(a[1..], b, values);
    }
  }

  /** A value of an entry of `s` is a value of `Flatten(s)`, and conversely. */
  lemma {:induction false} FlattenMembers<T>(s: seq<Internal>, values: Internal -> seq<T>, v: T)
    ensures v in Flatten(s, values) <==> exists k :: 0 <= k < |s| && v in values(s[k])
  {
    if s != [] {
      FlattenMembers(s[1..], values, v);
      if v in values(s[0]) {
        assert 0 < |s| && v in values(s[0]);
      }
      forall k | 1 <= k < |s| && v in values(s[k])
        ensures v in Flatten(s[1..], values)
      {
        assert s[1..][k - 1] == s[k];
      }
    }
  }

  lemma FlattenPrefix<T>(s: seq<Internal>, i: nat, values: Internal -> seq<T>)
    requires i < |s|
    ensures Flatten(s[..i + 1], values) == Flatten(s[..i], values) + values(s[i])
  {
    assert s[..i + 1] == s[..i] + [s[i]];
    FlattenAppend(s[..i], [s[i]], values);
    assert [s[i]][1..] == [];
  }

  /** One entry's values counted: each one adds one to its slot. */
  method AddOccurrences<T(==)>(ghost seen: seq<T>, counts: map<T, int>, vs: seq<T>)
    returns (counts': map<T, int>)
    requires forall j :: 0 <= j < |vs| ==> vs[j] in counts
    requires forall v :: v in counts ==> counts[v] == multiset(seen)[v]
    ensures counts'.Keys == counts.Keys
    ensures forall v :: v in counts' ==> counts'[v] == multiset(seen + vs)[v]
  {
    counts' := counts;
    assert seen + vs[..0] == seen;
    for j := 0 to |vs|
      invariant counts'.Keys == counts.Keys
      invariant forall v :: v in counts' ==> counts'[v] == multiset(seen + vs[..j])[v]
    {
      assert seen + vs[..j + 1] == (seen + vs[..j]) + [vs[j]];
      counts' := counts'[vs[j] := counts'[vs[j]] + 1];
    }
    assert vs[..|vs|] == vs;
  }

  /** A value of an entry of the snapshot has a slot. */
  lemma HasSlot<T>(snapshot: seq<Internal>, x: Internal, values: Internal -> seq<T>, v: T)
    requires x in snapshot && v in values(x)
    ensures v in Distinct(Flatten(snapshot, values))
  {
    var k :| 0 <= k < |snapshot| && snapshot[k] == x;
    FlattenMembers(snapshot, values, v);
  }

  /** `forEach` over the filtered entries, adding one to the slot of each of
      their values: the slots of `keys` end with the number of occurrences of
      their value among the values of `pool`. */
  method CountOccurrences<T(==)>(keys: seq<T>, pool: seq<Internal>, values: Internal -> seq<T>)
    returns (counts: map<T, int>)
    requires forall i, v :: 0 <= i < |pool| && v in values(pool[i]) ==> v in keys
    ensures forall v :: v in counts <==> v in keys
    ensures forall v :: v in counts ==> counts[v] == multiset(Flatten(pool, values))[v]
  {
    counts := map v | v in keys :: 0;
    for i := 0 to |pool|
      invariant forall v :: v in counts <==> v in keys
      invariant forall v :: v in counts ==> counts[v] == multiset(Flatten(pool[..i], values))[v]
    {
      counts := AddOccurrences(Flatten(pool[..i], values), counts, values(pool[i]));
      FlattenPrefix(pool, i, values);
    }
    assert pool[..|pool|] == pool;
  }

  /** Counting the values of the entries of `pool`, with a dictionary seeded
      from `snapshot`, produces `FacetView`. Every entry of `pool` must come from
      `snapshot`, so that every value counted has a slot. */
  method CountFacet<T(==)>(snapshot: seq<Internal>, pool: seq<Internal>, values: Internal -> seq<T>)
    returns (opts: seq<FacetOption<T>>)
    requires forall i :: 0 <= i < |pool| ==> pool[i] in snapshot
    ensures opts == FacetView(snapshot, pool, values)
  {
    var keys := Distinct(Flatten(snapshot, values));
    forall i, v | 0 <= i < |pool| && v in values(pool[i])
      ensures v in keys
    {
      HasSlot(snapshot, pool[i], values, v);
    }
    var counts := CountOccurrences(keys, pool, values);
    // The dictionary's entries, in order of discovery, sorted by ascending count.
    var entries := seq(|keys|, k requires 0 <= k < |keys| => FacetOption(keys[k], counts[keys[k]]));
    assert entries == Tally(keys, Flatten(pool, values));
    var a := new FacetOption<T>[|entries|](k requires 0 <= k < |entries| => entries[k]);
    assert a[..] == entries;
    SortDescInPlace(a, FewerFirst);
    opts := a[..];
  }

  lemma {:induction false} AtMostOnce<T>(s: seq<T>, x: T)
    requires NoDuplicates(s)
    ensures multiset(s)[x] <= 1
  {
    if s != [] {
      var s' := s[..|s| - 1];
      assert s == s' + [s[|s| - 1]];
      assert NoDuplicates(s') by {
        forall i, j | 0 <= i < j < |s'| ensures s'[i] != s'[j] {
          assert s'[i] == s[i] && s'[j] == s[j];
        }
      }
      AtMostOnce(s', x);
      if x == s[|s| - 1] {
        assert x !in s' by {
          forall i | 0 <= i < |s'| ensures s'[i] != x {
            assert s'[i] == s[i];
          }
        }
      }
    }
  }

  lemma TwiceCounted<T>(s: seq<T>, i: nat, j: nat)
    requires i < j < |s| && s[i] == s[j]
    ensures multiset(s)[s[i]] >= 2
  {
    assert s == s[..j] + [s[j]] + s[j + 1..];
    assert s[..j][i] == s[i];
  }

  /** A permutation of a list without duplicates has none. */
  lemma PermutationNoDuplicates<T>(a: seq<T>, b: seq<T>)
    requires multiset(a) == multiset(b) && NoDuplicates(a)
    ensures NoDuplicates(b)
  {
    forall i, j | 0 <= i < j < |b|
      ensures b[i] != b[j]
    {
      if b[i] == b[j] {
        TwiceCounted(b, i, j);
        AtMostOnce(a, b[i]);
      }
    }
  }

  /** Each option of a facet is a value found in the snapshot, with the
      number of occurrences of that value among the values of the entries of
      `pool`. */
  lemma FacetViewEntries<T>(snapshot: seq<Internal>, pool: seq<Internal>, values: Internal -> seq<T>)
    ensures forall o :: o in FacetView(snapshot, pool, values) ==>
              o.value in Flatten(snapshot, values)
              && o.softwareCount == multiset(Flatten(pool, values))[o.value]
  {
    var t := Tally(Distinct(Flatten(snapshot, values)), Flatten(pool, values));
    forall o | o in FacetView(snapshot, pool, values)
      ensures o in t
    {
      assert o in multiset(FacetView(snapshot, pool, values));
    }
  }

  /** No value is offered twice. */
  lemma FacetViewDistinct<T>(snapshot: seq<Internal>, pool: seq<Internal>, values: Internal -> seq<T>)
    ensures var view := FacetView(snapshot, pool, values);
      forall i, j :: 0 <= i < j < |view| ==> view[i].value != view[j].value
  {
    var view := FacetView(snapshot, pool, values);
    var t := Tally(Distinct(Flatten(snapshot, values)), Flatten(pool, values));
    assert NoDuplicates(t);
    PermutationNoDuplicates(t, view);
    FacetViewEntries(snapshot, pool, values);
    forall i, j | 0 <= i < j < |view|
      ensures view[i].value != view[j].value
    {
      assert view[i] in view && view[j] in view;
    }
  }

  /** Options come fewest first. */
  lemma FacetViewAscending<T>(snapshot: seq<Internal>, pool: seq<Internal>, values: Internal -> seq<T>)
    ensures var view := FacetView(snapshot, pool, values);
      forall i, j :: 0 <= i < j < |view| ==> view[i].softwareCount <= view[j].softwareCount
  {
    SortDescSorted(Tally(Distinct(Flatten(snapshot, values)), Flatten(pool, values)), FewerFirst);
  }

  /** Options with equal counts keep their order in the seeded dictionary. */
  lemma FacetViewTiesKeepTallyOrder<T>(snapshot: seq<Internal>, pool: seq<Internal>, values: Internal -> seq<T>, n: int)
    ensures WithKey(FacetView(snapshot, pool, values), FewerFirst, -n)
         == WithKey(Tally(Distinct(Flatten(snapshot, values)), Flatten(pool, values)), FewerFirst, -n)
  {
    SortDescStable(Tally(Distinct(Flatten(snapshot, values)), Flatten(pool, values)), FewerFirst, -n);
  }

  /** The options' values come in the order of their first occurrence in
      `flat`. */
  predicate InDiscoveryOrder<T(==)>(t: seq<FacetOption<T>>, flat: seq<T>)
  {
    forall i, j :: 0 <= i < j < |t| ==> FirstIndex(flat, t[i].value) < FirstIndex(flat, t[j].value)
  }

  /** The options of a seeded dictionary come in the order in which the
      snapshot revealed their values. */
  lemma TallyInDiscoveryOrder<T>(flat: seq<T>, occurrences: seq<T>)
    ensures InDiscoveryOrder(Tally(Distinct(flat), occurrences), flat)
  {
    DistinctInDiscoveryOrder(flat);
  }

  /** Selecting one count keeps the options in discovery order. */
  lemma {:induction false} WithKeyInDiscoveryOrder<T>(s: seq<FacetOption<T>>, flat: seq<T>, k: int)
    requires InDiscoveryOrder(s, flat)
    ensures InDiscoveryOrder(WithKey(s, FewerFirst, k), flat)
  {
    if s != [] {
      var s' := s[..|s| - 1];
      var x := s[|s| - 1];
      WithKeyInDiscoveryOrder(s', flat, k);
      var w' := WithKey(s', FewerFirst, k);
      forall a | 0 <= a < |w'|
        ensures FirstIndex(flat, w'[a].value) < FirstIndex(flat, x.value)
      {
        WithKeyMembers(s', FewerFirst, k, w'[a]);
        var p :| 0 <= p < |s'| && s'[p] == w'[a];
        assert s[p] == w'[a];
      }
    }
  }

  /** Sorting options that are in discovery order by ascending count keeps
      options of equal count in discovery order. */
  lemma SortedTiesInDiscoveryOrder<T>(t: seq<FacetOption<T>>, flat: seq<T>, i: nat, j: nat)
    requires InDiscoveryOrder(t, flat)
    requires i < j < |SortDesc(t, FewerFirst)|
    requires SortDesc(t, FewerFirst)[i].softwareCount == SortDesc(t, FewerFirst)[j].softwareCount
    ensures FirstIndex(flat, SortDesc(t, FewerFirst)[i].value) < FirstIndex(flat, SortDesc(t, FewerFirst)[j].value)
  {
    var view := SortDesc(t, FewerFirst);
    var k := FewerFirst(view[i]);
    var a, b := WithKeyKeepsOrder(view, FewerFirst, k, i, j);
    var w := WithKey(view, FewerFirst, k);
    SortDescStable(t, FewerFirst, k);
    WithKeyInDiscoveryOrder(t, flat, k);
    assert FirstIndex(flat, w[a].value) < FirstIndex(flat, w[b].value);
  }

  /** Options with equal counts come in the order in which the snapshot
      revealed their values, as the stable sort leaves the seeded order of
      `Array.from(new Set(...))` among ties. */
  lemma FacetViewTiesInDiscoveryOrder<T>(snapshot: seq<Internal>, pool: seq<Internal>, values: Internal -> seq<T>,
                                         i: nat, j: nat)
    requires i < j < |FacetView(snapshot, pool, values)|
    requires FacetView(snapshot, pool, values)[i].softwareCount == FacetView(snapshot, pool, values)[j].softwareCount
    ensures FirstIndex(Flatten(snapshot, values), FacetView(snapshot, pool, values)[i].value)
          < FirstIndex(Flatten(snapshot, values), FacetView(snapshot, pool, values)[j].value)
  {
    var flat := Flatten(snapshot, values);
    var t := Tally(Distinct(flat), Flatten(pool, values));
    TallyInDiscoveryOrder(flat, Flatten(pool, values));
    SortedTiesInDiscoveryOrder(t, flat, i, j);
  }

  /** Every value found in the snapshot is offered, even at count 0. */
  lemma FacetViewComplete<T>(snapshot: seq<Internal>, pool: seq<Internal>, values: Internal -> seq<T>, v: T)
    requires v in Flatten(snapshot, values)
    ensures exists i :: 0 <= i < |FacetView(snapshot, pool, values)|
                     && FacetView(snapshot, pool, values)[i].value == v
  {
    var keys := Distinct(Flatten(snapshot, values));
    var t := Tally(keys, Flatten(pool, values));
    var k :| 0 <= k < |keys| && keys[k] == v;
    assert t[k] in multiset(FacetView(snapshot, pool, values));
  }
}
