/** The catalog's filters (`filterBySearch`, `filterByOrganization`,
    `filterByCategory`, `filterByEnvironnement`, `filterByPrerogative`) and the
    pipeline the selectors build from them by reassigning `tmpSoftwares`. */
module Filters {
  import opened CatalogTypes

  /** One filter with its argument. A search filter carries the set of ids the
      fuzzy matcher found in the snapshot for the query. */
  datatype Criterion =
    | MatchesSearch(ids: set<int>)
    | InOrganization(organization: string)
    | InCategory(category: string)
    | RunsOn(environment: Environment)
    | Has(prerogative: Prerogative)

  /** The predicate each `filterBy*` hands to `Array.filter`. A prerogative is
      read from the projected entry, so the derived
      `isInstallableOnUserTerminal` can be filtered on. */
  predicate Satisfies(x: Internal, c: Criterion)
  {
    match c
    case MatchesSearch(ids) => x.softwareId in ids
    case InOrganization(o) => o in x.organizations
    case InCategory(k) => k in x.categories
    case RunsOn(e) => EnvironmentHolds(x.environments, e)
    case Has(p) => PrerogativeHolds(Project(x).prerogatives, p)
  }

  predicate SatisfiesAll(x: Internal, cs: seq<Criterion>)
  {
    forall c :: c in cs ==> Satisfies(x, c)
  }

  /** The entries of `s` that satisfy every criterion of `cs`, in their order in
      `s`; `Where(s, [c])` is one `filterBy*` call. */
  function Where(s: seq<Internal>, cs: seq<Criterion>): (r: seq<Internal>)
    ensures |r| <= |s|
  {
    if s == [] then []
    else
      (if SatisfiesAll(s[0], cs) then [s[0]] else []) + Where(s[1..], cs)
  }

  /** An entry occurs in the result as often as in the input when it satisfies
      every criterion, and not at all otherwise. */
  lemma {:induction false} WhereCounts(s: seq<Internal>, cs: seq<Criterion>, x: Internal)
    ensures multiset(Where(s, cs))[x] == if SatisfiesAll(x, cs) then multiset(s)[x] else 0
  {
    if s != [] {
      assert s == [s[0]] + s[1..];
      WhereCounts(s[1..], cs, x);
    }
  }

  /** The criteria applied one after the other, each to the result of the
      previous one. */
  function Pipeline(s: seq<Internal>, cs: seq<Criterion>): (r: seq<Internal>)
  {
    if cs == [] then s else Where(Pipeline(s, cs[..|cs| - 1]), [cs[|cs| - 1]])
  }

  /** Filtering keeps the order: it distributes over concatenation. */
  lemma {:induction false} WhereAppend(a: seq<Internal>, b: seq<Internal>, cs: seq<Criterion>)
    ensures Where(a + b, cs) == Where(a, cs) + Where(b, cs)
  {
    if a == [] {
      assert a + b == b;
    } else {
      var head := if SatisfiesAll(a[0], cs) then [a[0]] else [];
      assert (a + b)[0] == a[0] && (a + b)[1..] == a[1..] + b;
      assert Where(a + b, cs) == head + Where(a[1..] + b, cs);
      WhereAppend(a[1..], b, cs);
      assert Where(a, cs) == head + Where(a[1..], cs);
    }
  }

  /** Filtering the result of a filter is filtering once by both criteria lists. */
  lemma {:induction false} WhereWhere(s: seq<Internal>, cs: seq<Criterion>, ds: seq<Criterion>)
    ensures Where(Where(s, cs), ds) == Where(s, cs + ds)
  {
    if s != [] {
      var x, s' := s[0], s[1..];
      WhereWhere(s', cs, ds);
      assert SatisfiesAll(x, cs + ds) <==> SatisfiesAll(x, cs) && SatisfiesAll(x, ds);
      var w := Where(s, cs);
      if SatisfiesAll(x, cs) {
        assert w == [x] + Where(s', cs);
        assert w[0] == x && w[1..] == Where(s', cs);
        assert Where(w, ds) == (if SatisfiesAll(x, ds) then [x] else []) + Where(w[1..], ds);
      } else {
        assert w == Where(s', cs);
      }
    }
  }

  /** Only the set of criteria matters, not their order or repetition. */
  lemma {:induction false} WhereSameCriteria(s: seq<Internal>, cs: seq<Criterion>, ds: seq<Criterion>)
    requires forall c :: c in cs <==> c in ds
    ensures Where(s, cs) == Where(s, ds)
  {
    if s != [] {
      WhereSameCriteria(s[1..], cs, ds);
      assert SatisfiesAll(s[0], cs) == SatisfiesAll(s[0], ds);
    }
  }

  /** Applying the filters in sequence keeps exactly the entries that satisfy
      all of them, in snapshot order: the filters intersect. */
  lemma {:induction false} PipelineIsConjunction(s: seq<Internal>, cs: seq<Criterion>)
    ensures Pipeline(s, cs) == Where(s, cs)
  {
    if cs == [] {
      WhereNoCriteria(s);
    } else {
      var cs', c := cs[..|cs| - 1], cs[|cs| - 1];
      PipelineIsConjunction(s, cs');
      WhereWhere(s, cs', [c]);
      assert cs' + [c] == cs;
    }
  }

  lemma {:induction false} WhereNoCriteria(s: seq<Internal>)
    ensures Where(s, []) == s
  {
    if s != [] {
      WhereNoCriteria(s[1..]);
    }
  }

  /** Running the same filters over their own result changes nothing. */
  lemma WhereIdempotent(s: seq<Internal>, cs: seq<Criterion>)
    ensures Where(Where(s, cs), cs) == Where(s, cs)
  {
    WhereWhere(s, cs, cs);
    WhereSameCriteria(s, cs + cs, cs);
  }

  /** More criteria give a filter of the result of fewer: never an entry more,
      and the order kept. */
  lemma WhereNarrows(s: seq<Internal>, cs: seq<Criterion>, ds: seq<Criterion>)
    requires forall c :: c in cs ==> c in ds
    ensures Where(s, ds) == Where(Where(s, cs), ds)
    ensures multiset(Where(s, ds)) <= multiset(Where(s, cs))
  {
    WhereWhere(s, cs, ds);
    WhereSameCriteria(s, cs + ds, ds);
    forall x
      ensures multiset(Where(s, ds))[x] <= multiset(Where(s, cs))[x]
    {
      WhereCounts(s, cs, x);
      WhereCounts(s, ds, x);
    }
  }
}
