/** What the catalog's selectors promise, stated over their specifications in
    `CatalogSelectors`. */
module CatalogProperties {
  import opened Wrappers
  import opened CatalogTypes
  import opened Filters
  import opened CatalogState
  import opened StableSort
  import opened Facets
  import opened CatalogSelectors

  /** The list fails exactly for the five sort keys that have no comparator. */
  lemma SoftwaresFailsWithoutComparator(snapshot: seq<Internal>, f: FilterState, matcher: Matcher)
    ensures SoftwaresView(snapshot, f, matcher).Err?
        <==> f.sort.Some? && f.sort.value != AddedTime && f.sort.value != LastVersionPublicationDate
  {
  }

  /** The list holds exactly the snapshot's entries that pass every active
      filter, as often as the snapshot holds them. */
  lemma OrderedEntries(snapshot: seq<Internal>, f: FilterState, matcher: Matcher, x: Internal)
    requires ComparatorFor(f.sort).Some?
    ensures multiset(Ordered(snapshot, f, matcher))[x]
         == if SatisfiesAll(x, ActiveCriteria(snapshot, f, matcher, None)) then multiset(snapshot)[x] else 0
    ensures x in Ordered(snapshot, f, matcher)
        <==> x in snapshot && SatisfiesAll(x, ActiveCriteria(snapshot, f, matcher, None))
  {
    WhereCounts(snapshot, ActiveCriteria(snapshot, f, matcher, None), x);
  }

  /** "added time" puts the most recently added entries first. */
  lemma OrderedByAddedTime(snapshot: seq<Internal>, f: FilterState, matcher: Matcher)
    requires f.sort == Some(AddedTime)
    ensures var o := Ordered(snapshot, f, matcher);
      forall i, j :: 0 <= i < j < |o| ==> o[i].addedTime >= o[j].addedTime
  {
    SortDescSorted(Filtered(snapshot, f, matcher, None), AddedTimeWeight);
  }

  /** "last version publication date" puts the most recent versions first; an
      entry without a version counts as published at time 0. */
  lemma OrderedByPublication(snapshot: seq<Internal>, f: FilterState, matcher: Matcher)
    requires f.sort == Some(LastVersionPublicationDate)
    ensures var o := Ordered(snapshot, f, matcher);
      forall i, j :: 0 <= i < j < |o| ==> PublicationWeight(o[i]) >= PublicationWeight(o[j])
  {
    SortDescSorted(Filtered(snapshot, f, matcher, None), PublicationWeight);
  }

  /** The sort is stable: entries of equal weight keep their snapshot order. */
  lemma OrderedIsStable(snapshot: seq<Internal>, f: FilterState, matcher: Matcher, k: int)
    requires ComparatorFor(f.sort).Some?
    ensures WithKey(Ordered(snapshot, f, matcher), ComparatorFor(f.sort).value, k)
         == WithKey(Filtered(snapshot, f, matcher, None), ComparatorFor(f.sort).value, k)
  {
    SortDescStable(Filtered(snapshot, f, matcher, None), ComparatorFor(f.sort).value, k);
  }

  /** With no sort chosen the list keeps snapshot order. */
  lemma UnsortedKeepsSnapshotOrder(snapshot: seq<Internal>, f: FilterState, matcher: Matcher)
    requires f.sort == None
    ensures Ordered(snapshot, f, matcher) == Filtered(snapshot, f, matcher, None)
  {
    SortDescOfTies(Filtered(snapshot, f, matcher, None), NoWeight, 0);
  }

  /** Filtering the result again by the same filters changes nothing. */
  lemma FilteredIdempotent(snapshot: seq<Internal>, f: FilterState, matcher: Matcher, skip: Option<Dimension>)
    ensures Where(Filtered(snapshot, f, matcher, skip), ActiveCriteria(snapshot, f, matcher, skip))
         == Filtered(snapshot, f, matcher, skip)
  {
    WhereIdempotent(snapshot, ActiveCriteria(snapshot, f, matcher, skip));
  }

  lemma {:induction false} PrerogativeCriteriaMembers(ps: seq<Prerogative>, c: Criterion)
    ensures c in PrerogativeCriteria(ps) <==> c.Has? && c.prerogative in ps
  {
    if c.Has? && c.prerogative in ps {
      var i :| 0 <= i < |ps| && ps[i] == c.prerogative;
      assert PrerogativeCriteria(ps)[i] == c;
    }
  }

  /** Selecting one more prerogative filters the previous result by it: no
      entry is added and the order is kept. */
  lemma AddingPrerogativeNarrows(snapshot: seq<Internal>, f: FilterState, matcher: Matcher, p: Prerogative)
    ensures var g := f.(prerogatives := f.prerogatives + [p]);
      && Filtered(snapshot, g, matcher, None) == Where(Filtered(snapshot, f, matcher, None), [Has(p)])
      && multiset(Filtered(snapshot, g, matcher, None)) <= multiset(Filtered(snapshot, f, matcher, None))
  {
    var g := f.(prerogatives := f.prerogatives + [p]);
    var cs := ActiveCriteria(snapshot, f, matcher, None);
    assert PrerogativeCriteria(f.prerogatives + [p]) == PrerogativeCriteria(f.prerogatives) + [Has(p)];
    assert ActiveCriteria(snapshot, g, matcher, None) == cs + [Has(p)];
    WhereWhere(snapshot, cs, [Has(p)]);
    WhereNarrows(snapshot, cs, cs + [Has(p)]);
  }

  /** Only which prerogatives are selected matters, not their order or
      repetition. */
  lemma PrerogativeSelectionIsASet(snapshot: seq<Internal>, f: FilterState, matcher: Matcher, ps: seq<Prerogative>, skip: Option<Dimension>)
    requires forall p :: p in ps <==> p in f.prerogatives
    ensures Filtered(snapshot, f.(prerogatives := ps), matcher, skip) == Filtered(snapshot, f, matcher, skip)
  {
    var g := f.(prerogatives := ps);
    forall c
      ensures c in ActiveCriteria(snapshot, g, matcher, skip) <==> c in ActiveCriteria(snapshot, f, matcher, skip)
    {
      PrerogativeCriteriaMembers(ps, c);
      PrerogativeCriteriaMembers(f.prerogatives, c);
    }
    WhereSameCriteria(snapshot, ActiveCriteria(snapshot, g, matcher, skip), ActiveCriteria(snapshot, f, matcher, skip));
  }

  /** `f` and `g` select the same things, except perhaps in dimension `d`
      (and in the sort key, which no facet reads). */
  predicate AgreeOutside(f: FilterState, g: FilterState, d: Dimension)
  {
    && f.search == g.search
    && (d != ByOrganization ==> f.organization == g.organization)
    && (d != ByCategory ==> f.category == g.category)
    && (d != ByEnvironment ==> f.environment == g.environment)
    && (d != ByPrerogatives ==> f.prerogatives == g.prerogatives)
  }

  /** The filters a facet applies do not depend on its own selection nor on
      the sort key. */
  lemma CriteriaIgnoreOwnSelection(snapshot: seq<Internal>, f: FilterState, g: FilterState, matcher: Matcher,
                                   d: Dimension)
    requires AgreeOutside(f, g, d)
    ensures ActiveCriteria(snapshot, f, matcher, Some(d)) == ActiveCriteria(snapshot, g, matcher, Some(d))
  {
  }

  /** A facet does not depend on its own selection nor on the sort key. */
  lemma FacetIgnoresOwnSelection<T>(snapshot: seq<Internal>, f: FilterState, g: FilterState, matcher: Matcher,
                                        d: Dimension, values: Internal -> seq<T>)
    requires AgreeOutside(f, g, d)
    ensures Facet(snapshot, f, matcher, d, values) == Facet(snapshot, g, matcher, d, values)
  {
    CriteriaIgnoreOwnSelection(snapshot, f, g, matcher, d);
  }

  /** Dropping entries never raises the number of occurrences of a value. */
  lemma {:induction false} FlattenWhereCounts<T>(s: seq<Internal>, cs: seq<Criterion>, values: Internal -> seq<T>, v: T)
    ensures multiset(Flatten(Where(s, cs), values))[v] <= multiset(Flatten(s, values))[v]
  {
    if s != [] {
      FlattenWhereCounts(s[1..], cs, values, v);
      assert Flatten(s, values) == values(s[0]) + Flatten(s[1..], values);
      var w := Where(s, cs);
      if SatisfiesAll(s[0], cs) {
        assert w[0] == s[0] && w[1..] == Where(s[1..], cs);
        assert Flatten(w, values) == values(s[0]) + Flatten(Where(s[1..], cs), values);
      } else {
        assert w == Where(s[1..], cs);
      }
    }
  }

  /** Selecting more in the other dimensions never raises a facet's counts. */
  lemma SelectionNeverRaisesCounts<T>(snapshot: seq<Internal>, f: FilterState, g: FilterState, matcher: Matcher,
                                          d: Dimension, values: Internal -> seq<T>)
    requires forall c :: c in ActiveCriteria(snapshot, f, matcher, Some(d)) ==> c in ActiveCriteria(snapshot, g, matcher, Some(d))
    ensures forall o, o' ::
              (o in Facet(snapshot, g, matcher, d, values) && o' in Facet(snapshot, f, matcher, d, values)
               && o.value == o'.value) ==> o.softwareCount <= o'.softwareCount
  {
    var cs, ds := ActiveCriteria(snapshot, f, matcher, Some(d)), ActiveCriteria(snapshot, g, matcher, Some(d));
    WhereNarrows(snapshot, cs, ds);
    FacetViewEntries(snapshot, Filtered(snapshot, f, matcher, Some(d)), values);
    FacetViewEntries(snapshot, Filtered(snapshot, g, matcher, Some(d)), values);
    forall v {
      FlattenWhereCounts(Where(snapshot, cs), ds, values, v);
    }
  }

  /** Where an entry carries a value at most once, and exactly when it passes
      `c`, a value's count is the number of entries that pass `c`. */
  lemma {:induction false} CountIsEntryCount<T>(pool: seq<Internal>, values: Internal -> seq<T>, c: Criterion, v: T)
    requires forall i :: 0 <= i < |pool| ==> multiset(values(pool[i]))[v] == if Satisfies(pool[i], c) then 1 else 0
    ensures multiset(Flatten(pool, values))[v] == |Where(pool, [c])|
  {
    if pool != [] {
      assert SatisfiesAll(pool[0], [c]) == Satisfies(pool[0], c);
      CountIsEntryCount(pool[1..], values, c, v);
    }
  }

  lemma EnvironmentOnce(x: Internal, e: Environment)
    ensures multiset(EnvironmentsOf(x))[e] == if Satisfies(x, RunsOn(e)) then 1 else 0
  {
    var r := EnvironmentsOf(x);
    AtMostOnce(r, e);
    assert e in r <==> Satisfies(x, RunsOn(e));
  }

  /** The environment facet counts entries: an environment's count is the
      number of entries that pass every other filter and run on it. */
  lemma EnvironmentCountsEntries(snapshot: seq<Internal>, f: FilterState, matcher: Matcher, e: Environment)
    ensures var pool := Filtered(snapshot, f, matcher, Some(ByEnvironment));
      forall o :: o in Facet(snapshot, f, matcher, ByEnvironment, EnvironmentsOf) && o.value == e
        ==> o.softwareCount == |Where(pool, [RunsOn(e)])|
  {
    var pool := Filtered(snapshot, f, matcher, Some(ByEnvironment));
    forall i | 0 <= i < |pool|
      ensures multiset(EnvironmentsOf(pool[i]))[e] == if Satisfies(pool[i], RunsOn(e)) then 1 else 0
    {
      EnvironmentOnce(pool[i], e);
    }
    CountIsEntryCount(pool, EnvironmentsOf, RunsOn(e), e);
    FacetViewEntries(snapshot, pool, EnvironmentsOf);
  }

  lemma StoredPrerogativeOnce(x: Internal, p: Prerogative)
    requires p != IsInstallableOnUserTerminal
    ensures multiset(PrerogativesOf(x))[p] == if Satisfies(x, Has(p)) then 1 else 0
  {
    AtMostOnce(PrerogativesOf(x), p);
    assert Satisfies(x, Has(p)) == StoredHolds(x.prerogatives, p);
  }

  lemma {:induction false} NoInstallableStored(s: seq<Internal>)
    ensures IsInstallableOnUserTerminal !in Flatten(s, PrerogativesOf)
  {
    if s != [] {
      NoInstallableStored(s[1..]);
    }
  }

  /** The prerogative facet counts entries the same way, for the stored
      prerogatives. */
  lemma PrerogativeCountsEntries(snapshot: seq<Internal>, f: FilterState, matcher: Matcher, p: Prerogative)
    requires p != IsInstallableOnUserTerminal
    ensures var pool := Filtered(snapshot, f, matcher, Some(ByPrerogatives));
      forall o :: o in Facet(snapshot, f, matcher, ByPrerogatives, PrerogativesOf) && o.value == p
        ==> o.softwareCount == |Where(pool, [Has(p)])|
  {
    var pool := Filtered(snapshot, f, matcher, Some(ByPrerogatives));
    forall i | 0 <= i < |pool|
      ensures multiset(PrerogativesOf(pool[i]))[p] == if Satisfies(pool[i], Has(p)) then 1 else 0
    {
      StoredPrerogativeOnce(pool[i], p);
    }
    CountIsEntryCount(pool, PrerogativesOf, Has(p), p);
    FacetViewEntries(snapshot, pool, PrerogativesOf);
  }

  /** The prerogative facet never offers the derived prerogative, although
      the list can be filtered on it. */
  lemma PrerogativeFacetOmitsInstallable(snapshot: seq<Internal>, f: FilterState, matcher: Matcher)
    ensures forall o :: o in Facet(snapshot, f, matcher, ByPrerogatives, PrerogativesOf)
              ==> o.value != IsInstallableOnUserTerminal
  {
    FacetViewEntries(snapshot, Filtered(snapshot, f, matcher, Some(ByPrerogatives)), PrerogativesOf);
    NoInstallableStored(snapshot);
  }

  /** Every value found in the snapshot is offered, at count 0 when no
      filtered entry carries it. */
  lemma FacetOffersEveryValue<T>(snapshot: seq<Internal>, f: FilterState, matcher: Matcher,
                                     d: Dimension, values: Internal -> seq<T>, x: Internal, v: T)
    requires x in snapshot && v in values(x)
    ensures exists o :: o in Facet(snapshot, f, matcher, d, values) && o.value == v
  {
    var k :| 0 <= k < |snapshot| && snapshot[k] == x;
    FlattenMembers(snapshot, values, v);
    var pool := Filtered(snapshot, f, matcher, Some(d));
    FacetViewComplete(snapshot, pool, values, v);
    var i :| 0 <= i < |FacetView(snapshot, pool, values)| && FacetView(snapshot, pool, values)[i].value == v;
    assert FacetView(snapshot, pool, values)[i] in Facet(snapshot, f, matcher, d, values);
  }

  /** Each facet comes fewest first, offers each value once, and counts
      exactly the occurrences of its value among the entries passing every
      other filter. */
  lemma FacetShape<T>(snapshot: seq<Internal>, f: FilterState, matcher: Matcher, d: Dimension, values: Internal -> seq<T>)
    ensures var view := Facet(snapshot, f, matcher, d, values);
      && (forall i, j :: 0 <= i < j < |view| ==> view[i].softwareCount <= view[j].softwareCount)
      && (forall i, j :: 0 <= i < j < |view| ==> view[i].value != view[j].value)
      && (forall o :: o in view ==>
            o.softwareCount == multiset(Flatten(Filtered(snapshot, f, matcher, Some(d)), values))[o.value])
  {
    var pool := Filtered(snapshot, f, matcher, Some(d));
    FacetViewAscending(snapshot, pool, values);
    FacetViewDistinct(snapshot, pool, values);
    FacetViewEntries(snapshot, pool, values);
  }
}
