/** The catalog's selectors (src/core-dsfr/usecases/softwareCatalog.ts): the
    filtered and sorted list `softwares`, and the four facets
    `organizationOptions`, `categoryOptions`, `environmentOptions` and
    `prerogativeFilterOptions`, each of which counts its values among the
    entries that pass every active filter but its own. */
module CatalogSelectors {
  import opened Wrappers
  import opened CatalogTypes
  import opened Filters
  import opened CatalogState
  import opened StableSort
  import opened Facets

  /** The fuzzy matcher built over a list by its `search` fields: the ids of
      the entries that match a query. */
  type Matcher = (seq<Internal>, string) -> set<int>

  /** A facet's own dimension, whose filter it does not apply. */
  datatype Dimension = ByOrganization | ByCategory | ByEnvironment | ByPrerogatives

  /** `Array.prototype.sort` given `null` throws a `TypeError`. */
  datatype SortError = ComparatorNotCallable

  function PrerogativeCriteria(ps: seq<Prerogative>): (r: seq<Criterion>)
  {
    seq(|ps|, i requires 0 <= i < |ps| => Has(ps[i]))
  }

  /** The filters a selector applies, in the order it applies them: search
      when the query is not empty, then organization, category and environment
      when set, then one filter per selected prerogative; a facet leaves out
      its own dimension. */
  function ActiveCriteria(snapshot: seq<Internal>, f: FilterState, matcher: Matcher, skip: Option<Dimension>)
    : (r: seq<Criterion>)
  {
    var bySearch := if f.search != "" then [MatchesSearch(matcher(snapshot, f.search))] else [];
    var byOrganization := if f.organization.Some? && skip != Some(ByOrganization)
      then bySearch + [InOrganization(f.organization.value)] else bySearch;
    var byCategory := if f.category.Some? && skip != Some(ByCategory)
      then byOrganization + [InCategory(f.category.value)] else byOrganization;
    var byEnvironment := if f.environment.Some? && skip != Some(ByEnvironment)
      then byCategory + [RunsOn(f.environment.value)] else byCategory;
    if skip == Some(ByPrerogatives) then byEnvironment
    else byEnvironment + PrerogativeCriteria(f.prerogatives)
  }

  /** The entries of the snapshot that pass every active filter, in snapshot
      order. */
  function Filtered(snapshot: seq<Internal>, f: FilterState, matcher: Matcher, skip: Option<Dimension>)
    : (r: seq<Internal>)
  {
    Where(snapshot, ActiveCriteria(snapshot, f, matcher, skip))
  }

  /** `for (const prerogative of prerogatives)`: one `filterByPrerogative`
      call per selected prerogative. */
  method FilterByPrerogatives(softwares: seq<Internal>, ps: seq<Prerogative>)
    returns (tmp: seq<Internal>)
    ensures tmp == Where(softwares, PrerogativeCriteria(ps))
  {
    tmp := softwares;
    WhereNoCriteria(softwares);
    for i := 0 to |ps|
      invariant tmp == Where(softwares, PrerogativeCriteria(ps[..i]))
    {
      WhereWhere(softwares, PrerogativeCriteria(ps[..i]), [Has(ps[i])]);
      assert PrerogativeCriteria(ps[..i + 1]) == PrerogativeCriteria(ps[..i]) + [Has(ps[i])];
      tmp := Where(tmp, [Has(ps[i])]);
    }
    assert ps[..|ps|] == ps;
  }

  /** The filtering shared by the five selectors: `tmpSoftwares` reassigned by
      one `filterBy*` call per active filter. */
  method ApplyFilters(snapshot: seq<Internal>, f: FilterState, matcher: Matcher, skip: Option<Dimension>)
    returns (tmp: seq<Internal>)
    ensures tmp == Filtered(snapshot, f, matcher, skip)
  {
    ghost var cs: seq<Criterion> := [];
    tmp := snapshot;
    if f.search != "" {
      var c := MatchesSearch(matcher(snapshot, f.search));
      tmp, cs := Where(tmp, [c]), [c];
    } else {
      WhereNoCriteria(snapshot);
    }
    if f.organization.Some? && skip != Some(ByOrganization) {
      var c := InOrganization(f.organization.value);
      WhereWhere(snapshot, cs, [c]);
      tmp, cs := Where(tmp, [c]), cs + [c];
    }
    if f.category.Some? && skip != Some(ByCategory) {
      var c := InCategory(f.category.value);
      WhereWhere(snapshot, cs, [c]);
      tmp, cs := Where(tmp, [c]), cs + [c];
    }
    if f.environment.Some? && skip != Some(ByEnvironment) {
      var c := RunsOn(f.environment.value);
      WhereWhere(snapshot, cs, [c]);
      tmp, cs := Where(tmp, [c]), cs + [c];
    }
    if skip != Some(ByPrerogatives) {
      WhereWhere(snapshot, cs, PrerogativeCriteria(f.prerogatives));
      tmp := FilterByPrerogatives(tmp, f.prerogatives);
      cs := cs + PrerogativeCriteria(f.prerogatives);
    }
    assert cs == ActiveCriteria(snapshot, f, matcher, skip);
  }

  /** The weight `getWeight` of "added time". */
  function AddedTimeWeight(x: Internal): (r: int)
  {
    x.addedTime
  }

  /** The weight `getWeight` of "last version publication date": an entry
      without a version weighs 0. */
  function PublicationWeight(x: Internal): (r: int)
  {
    if x.lastVersion.Some? then x.lastVersion.value.publicationTime else 0
  }

  /** With no sort chosen, `sort` gets no comparator and compares the entries'
      string forms, which are all the same: every entry ties. */
  function NoWeight(x: Internal): (r: int)
  {
    0
  }

  /** The comparator for a sort key, as a descending weight
      (`(a, b) => getWeight(b) - getWeight(a)`); `None` where the source hands
      `null` to `sort`. */
  function ComparatorFor(sort: Option<Sort>): (r: Option<Internal -> int>)
    ensures r.None? <==> sort.Some? && sort.value != AddedTime && sort.value != LastVersionPublicationDate
  {
    match sort
    case None => Some(NoWeight)
    case Some(AddedTime) => Some(AddedTimeWeight)
    case Some(LastVersionPublicationDate) => Some(PublicationWeight)
    case Some(_) => None
  }

  /** The `softwares` selector: the filtered entries, stably sorted by the
      chosen key's weight, projected; the keys without a comparator throw. */
  function SoftwaresView(snapshot: seq<Internal>, f: FilterState, matcher: Matcher)
    : (r: Result<seq<External>, SortError>)
  {
    if ComparatorFor(f.sort).None? then Err(ComparatorNotCallable)
    else Ok(ProjectAll(Ordered(snapshot, f, matcher)))
  }

  /** The filtered entries in the order the chosen key's comparator gives. */
  function Ordered(snapshot: seq<Internal>, f: FilterState, matcher: Matcher): (r: seq<Internal>)
    requires ComparatorFor(f.sort).Some?
  {
    SortDesc(Filtered(snapshot, f, matcher, None), ComparatorFor(f.sort).value)
  }

  /** `.map(internalSoftwareToExternalSoftware)`. */
  function ProjectAll(s: seq<Internal>): (r: seq<External>)
  {
    seq(|s|, i requires 0 <= i < |s| => Project(s[i]))
  }

  /** The `softwares` selector. The sort runs on a fresh array holding the
      filtered entries. */
  method Softwares(snapshot: seq<Internal>, f: FilterState, matcher: Matcher)
    returns (r: Result<seq<External>, SortError>)
    ensures r == SoftwaresView(snapshot, f, matcher)
  {
    var tmp := ApplyFilters(snapshot, f, matcher, None);
    var comparator := ComparatorFor(f.sort);
    if comparator.None? {
      return Err(ComparatorNotCallable);
    }
    var a := new Internal[|tmp|](i requires 0 <= i < |tmp| => tmp[i]);
    assert a[..] == tmp;
    SortDescInPlace(a, comparator.value);
    r := Ok(ProjectAll(a[..]));
  }

  /** The values each facet counts. */
  function OrganizationsOf(x: Internal): (r: seq<string>)
  {
    x.organizations
  }

  function CategoriesOf(x: Internal): (r: seq<string>)
  {
    x.categories
  }

  function EnvironmentsOf(x: Internal): (r: seq<Environment>)
  {
    EnvironmentsOn(x.environments)
  }

  /** The internal prerogative record's true keys. */
  function PrerogativesOf(x: Internal): (r: seq<Prerogative>)
  {
    StoredPrerogativesOn(x.prerogatives)
  }

  /** A facet: the values of `values` over the snapshot, counted over the
      entries that pass every active filter but the facet's own. */
  function Facet<T(==)>(snapshot: seq<Internal>, f: FilterState, matcher: Matcher, d: Dimension, values: Internal -> seq<T>)
    : (r: seq<FacetOption<T>>)
  {
    FacetView(snapshot, Filtered(snapshot, f, matcher, Some(d)), values)
  }

  /** The body the four facet selectors share. */
  method FacetOptions<T(==)>(snapshot: seq<Internal>, f: FilterState, matcher: Matcher, d: Dimension, values: Internal -> seq<T>)
    returns (opts: seq<FacetOption<T>>)
    ensures opts == Facet(snapshot, f, matcher, d, values)
  {
    var pool := ApplyFilters(snapshot, f, matcher, Some(d));
    forall i | 0 <= i < |pool|
      ensures pool[i] in snapshot
    {
      WhereCounts(snapshot, ActiveCriteria(snapshot, f, matcher, Some(d)), pool[i]);
      assert multiset(pool)[pool[i]] > 0;
    }
    opts := CountFacet(snapshot, pool, values);
  }

  method OrganizationOptions(snapshot: seq<Internal>, f: FilterState, matcher: Matcher)
    returns (opts: seq<FacetOption<string>>)
    ensures opts == Facet(snapshot, f, matcher, ByOrganization, OrganizationsOf)
  {
    opts := FacetOptions(snapshot, f, matcher, ByOrganization, OrganizationsOf);
  }

  method CategoryOptions(snapshot: seq<Internal>, f: FilterState, matcher: Matcher)
    returns (opts: seq<FacetOption<string>>)
    ensures opts == Facet(snapshot, f, matcher, ByCategory, CategoriesOf)
  {
    opts := FacetOptions(snapshot, f, matcher, ByCategory, CategoriesOf);
  }

  method EnvironmentOptions(snapshot: seq<Internal>, f: FilterState, matcher: Matcher)
    returns (opts: seq<FacetOption<Environment>>)
    ensures opts == Facet(snapshot, f, matcher, ByEnvironment, EnvironmentsOf)
  {
    opts := FacetOptions(snapshot, f, matcher, ByEnvironment, EnvironmentsOf);
  }

  method PrerogativeFilterOptions(snapshot: seq<Internal>, f: FilterState, matcher: Matcher)
    returns (opts: seq<FacetOption<Prerogative>>)
    ensures opts == Facet(snapshot, f, matcher, ByPrerogatives, PrerogativesOf)
  {
    opts := FacetOptions(snapshot, f, matcher, ByPrerogatives, PrerogativesOf);
  }
}
