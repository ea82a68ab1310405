# Software catalog search, modelled in Dafny

This project models two Redux slices of the SILL front end.

**The software catalog** (`src/core-dsfr/usecases/softwareCatalog.ts`) is a faceted search over a snapshot of catalog entries. Its parts:

- **State.** The state holds the snapshot and the current filter values: a search query, a sort key, an organization, a category, an environment and a list of prerogatives. `initialized` resets the filters. `valueUpdated` writes one filter field.
- **The `softwares` selector.** It filters the snapshot with every active filter, in sequence. It then sorts the result by the chosen key and projects each entry to its external shape. The projection derives the prerogative `isInstallableOnUserTerminal` from the environments.
- **The four facet selectors.** `organizationOptions`, `categoryOptions`, `environmentOptions` and `prerogativeFilterOptions` each:
  - take their candidate values from the whole snapshot;
  - count how often each value occurs among the entries that pass every active filter except the facet's own;
  - return the options sorted by ascending count.

**The software-by-name search** (`src/core-dsfr/usecases/searchSoftwareByName.ts`) is a load state machine. The slice is either not ready, with a flag telling whether a load is under way, or ready with the loaded list. The `initialize` and `clear` thunks guard the reducers that move between the two states.

Modules:

- `Wrappers`: `Option` and `Result`.
- `CatalogTypes`: entries, their enumerations, and the projection `Project`.
- `Filters`: the filter predicates, the conjunctive filter `Where` and its laws.
- `StableSort`: a stable sort by descending integer weight.
  - `SortDesc` specifies it.
  - `SortDescInPlace` is an in-place insertion sort proved to compute it.
  - Lemmas show that `SortDesc` is sorted, is a permutation, is stable, and is unique with these properties.
- `CatalogState`: the catalog slice as a class whose fields the reducers update.
- `Facets`: the counting shared by the four facet selectors.
  - `CountFacet` seeds a dictionary, counts in loops and sorts in place.
  - It is proved to compute the specification `FacetView`.
- `CatalogSelectors`: the selectors as methods, each proved equal to a specification function.
- `CatalogProperties`: what the selectors promise, stated over those specifications.
- `SearchSoftwareByName`: the load state machine as a class.

Some modelling choices:

- **The fuzzy matcher.** `Fzf` is a foreign library. It is a parameter `Matcher`: a function from a list and a query to the set of matched ids. The search filter keeps the entries whose id is in that set.
- **Sort keys without a comparator.** Five sort keys hand `null` to `Array.prototype.sort`, which throws a `TypeError`. For these keys the `softwares` selector is an `Err(ComparatorNotCallable)`.
- **No sort key.** With no key, `sort` gets `undefined` as its comparator and compares the entries' string forms. These are all `"[object Object]"`, so every entry ties and the stable sort keeps snapshot order. This is modelled as the constant weight `NoWeight`.
- **Facet ordering.** Each facet's dictionary lists its values in order of first discovery in the snapshot. The stable ascending sort by count keeps that order among equal counts.
- **The catalog's `initialize` thunk.** It dispatches `initialized` over an empty list, and is `CatalogState.Initialize`.
- **Failures in the state machine.** A failed `assert` is an `Err(NotReadyExpected)` that leaves the state unchanged. A rejected API call is an `Err(RequestFailed)`.

## Model

| member | source | states |
|---|---|---|
| CatalogTypes.Project | src/core-dsfr/usecases/softwareCatalog.ts:164-208 | The nine shared fields are kept and every stored prerogative is copied. `isInstallableOnUserTerminal` holds exactly when some environment other than browser holds. |
| CatalogTypes.EnvironmentsOn | src/core-dsfr/usecases/softwareCatalog.ts:565-567 | The environments listed are exactly those that hold, each listed once. |
| CatalogTypes.StoredPrerogativesOn | src/core-dsfr/usecases/softwareCatalog.ts:643-645 | The prerogatives listed are exactly the stored ones that hold, each listed once. `isInstallableOnUserTerminal` is never listed. |
| CatalogState.SoftwareCatalogState.Initialized | src/core-dsfr/usecases/softwareCatalog.ts:103-120 | Stores the given list. The search is empty; sort, organization, category and environment are undefined; no prerogative is selected. |
| CatalogState.SoftwareCatalogState.ValueUpdated | src/core-dsfr/usecases/softwareCatalog.ts:121-137 | The named field takes the new value. Every other field, and the list, keep their old values. |
| CatalogState.Initialize | src/core-dsfr/usecases/softwareCatalog.ts:140-152 | Produces a fresh state over the empty list, with no filter. |
| Filters.Where | src/core-dsfr/usecases/softwareCatalog.ts:227-280 | Filtering never lengthens the list. |
| Filters.WhereCounts | src/core-dsfr/usecases/softwareCatalog.ts:227-280 | An entry occurs in the result as often as in the input if it satisfies every criterion, and not at all otherwise. |
| Filters.WhereAppend | src/core-dsfr/usecases/softwareCatalog.ts:227-280 | Filtering distributes over concatenation, so relative order is kept. |
| Filters.WhereWhere | src/core-dsfr/usecases/softwareCatalog.ts:299-334 | Filtering by `cs` and then by `ds` equals filtering once by `cs + ds`. |
| Filters.PipelineIsConjunction | src/core-dsfr/usecases/softwareCatalog.ts:299-334 | Applying the filters one after another keeps exactly the entries that pass them all, in snapshot order. |
| Filters.WhereSameCriteria | src/core-dsfr/usecases/softwareCatalog.ts:299-334 | Only the set of criteria matters, not their order or repetition. |
| Filters.WhereIdempotent | src/core-dsfr/usecases/softwareCatalog.ts:299-334 | Filtering a result again by the same criteria changes nothing. |
| Filters.WhereNarrows | src/core-dsfr/usecases/softwareCatalog.ts:299-334 | More criteria give a filter of the result of fewer, never with an entry more. |
| StableSort.SortDesc | src/core-dsfr/usecases/softwareCatalog.ts:336-365 | The sorted list is a permutation of its input. |
| StableSort.SortDescSorted | src/core-dsfr/usecases/softwareCatalog.ts:336-365 | A larger weight comes first. |
| StableSort.SortDescStable | src/core-dsfr/usecases/softwareCatalog.ts:336-365 | The elements of each weight keep their relative input order. |
| StableSort.WithKeyKeepsOrder | src/core-dsfr/usecases/softwareCatalog.ts:336-365 | Two elements of the same weight appear in the per-weight selection in their relative order. |
| StableSort.SortDescOfTies | src/core-dsfr/usecases/softwareCatalog.ts:336-365 | When every element has the same weight, the list is unchanged. |
| StableSort.SortDescUnique | src/core-dsfr/usecases/softwareCatalog.ts:336-365 | Any sorted list with the same elements per weight as the input, in the same order, is `SortDesc` of the input. |
| StableSort.InsertInPlace | src/core-dsfr/usecases/softwareCatalog.ts:336-365 | One insertion step turns the array's prefix into `InsertDesc` of the old prefix and element, and leaves the rest alone. |
| StableSort.SortDescInPlace | src/core-dsfr/usecases/softwareCatalog.ts:336-365 | The array ends up as `SortDesc` of its old contents. |
| Facets.Distinct | src/core-dsfr/usecases/softwareCatalog.ts:384-392 | Every value of the input occurs in the result, every result value comes from the input, and no value is repeated. |
| Facets.DistinctInDiscoveryOrder | src/core-dsfr/usecases/softwareCatalog.ts:384-392 | The values come in the order of their first occurrence in the input, as `Array.from(new Set(...))` lists them. |
| Facets.FlattenMembers | src/core-dsfr/usecases/softwareCatalog.ts:386-390 | A value is in the flattened list exactly when some entry carries it. |
| Facets.AddOccurrences | src/core-dsfr/usecases/softwareCatalog.ts:424-428 | The inner `forEach` adds each value's occurrences in one entry to its slot and adds no slot. |
| Facets.CountOccurrences | src/core-dsfr/usecases/softwareCatalog.ts:424-428 | After the outer `forEach`, each slot holds the number of occurrences of its value among the filtered entries' values. |
| Facets.CountFacet | src/core-dsfr/usecases/softwareCatalog.ts:384-436 | Seeding, counting and sorting in place compute `FacetView`, provided every counted entry comes from the snapshot. |
| Facets.FacetViewEntries | src/core-dsfr/usecases/softwareCatalog.ts:424-436 | Each option is a value found in the snapshot, with its number of occurrences among the filtered entries. |
| Facets.FacetViewDistinct | src/core-dsfr/usecases/softwareCatalog.ts:384-392 | No value is offered twice. |
| Facets.FacetViewAscending | src/core-dsfr/usecases/softwareCatalog.ts:431-436 | Options come fewest first. |
| Facets.FacetViewTiesKeepTallyOrder | src/core-dsfr/usecases/softwareCatalog.ts:431-436 | The options of each count are those of the seeded dictionary with that count, in the dictionary's order. |
| Facets.FacetViewTiesInDiscoveryOrder | src/core-dsfr/usecases/softwareCatalog.ts:384-436 | Of two options with equal counts, the one whose value first occurs earlier in the snapshot comes first. |
| Facets.FacetViewComplete | src/core-dsfr/usecases/softwareCatalog.ts:384-392 | Every value found in the snapshot is offered. |
| CatalogSelectors.ComparatorFor | src/core-dsfr/usecases/softwareCatalog.ts:336-365 | No comparator exists exactly for the five keys other than "added time" and "last version publication date". |
| CatalogSelectors.FilterByPrerogatives | src/core-dsfr/usecases/softwareCatalog.ts:329-334 | The prerogative loop keeps exactly the entries that have every selected prerogative. |
| CatalogSelectors.ApplyFilters | src/core-dsfr/usecases/softwareCatalog.ts:299-334 | The `tmpSoftwares` reassignments compute `Filtered`, the conjunction of the active filters. |
| CatalogSelectors.Softwares | src/core-dsfr/usecases/softwareCatalog.ts:282-369 | The selector computes `SoftwaresView`: an error without a comparator, otherwise the stably sorted filtered entries, projected. |
| CatalogSelectors.FacetOptions | src/core-dsfr/usecases/softwareCatalog.ts:371-436 | A facet selector computes `Facet`: `FacetView` over the entries that pass every active filter but the facet's own. |
| CatalogSelectors.OrganizationOptions | src/core-dsfr/usecases/softwareCatalog.ts:371-438 | Computes the organization facet. |
| CatalogSelectors.CategoryOptions | src/core-dsfr/usecases/softwareCatalog.ts:440-506 | Computes the category facet. |
| CatalogSelectors.EnvironmentOptions | src/core-dsfr/usecases/softwareCatalog.ts:508-584 | Computes the environment facet. |
| CatalogSelectors.PrerogativeFilterOptions | src/core-dsfr/usecases/softwareCatalog.ts:586-662 | Computes the prerogative facet over the stored prerogatives, without the prerogative filter. |
| CatalogProperties.SoftwaresFailsWithoutComparator | src/core-dsfr/usecases/softwareCatalog.ts:336-365 | The list fails exactly for the five keys without a comparator. |
| CatalogProperties.OrderedEntries | src/core-dsfr/usecases/softwareCatalog.ts:299-334 | The list holds exactly the snapshot entries that pass every active filter, as often as the snapshot holds them. |
| CatalogProperties.OrderedByAddedTime | src/core-dsfr/usecases/softwareCatalog.ts:339-345 | "added time" orders by descending `addedTime`. |
| CatalogProperties.OrderedByPublication | src/core-dsfr/usecases/softwareCatalog.ts:346-352 | "last version publication date" orders by descending publication time, where an entry without a version counts as 0. |
| CatalogProperties.OrderedIsStable | src/core-dsfr/usecases/softwareCatalog.ts:336-365 | Entries of equal weight keep their snapshot order. |
| CatalogProperties.UnsortedKeepsSnapshotOrder | src/core-dsfr/usecases/softwareCatalog.ts:336-365 | With no sort key, the list is the filtered entries in snapshot order. |
| CatalogProperties.FilteredIdempotent | src/core-dsfr/usecases/softwareCatalog.ts:299-334 | Applying the active filters to their own result changes nothing. |
| CatalogProperties.PrerogativeCriteriaMembers | src/core-dsfr/usecases/softwareCatalog.ts:329-334 | The loop filters by exactly the selected prerogatives. |
| CatalogProperties.AddingPrerogativeNarrows | src/core-dsfr/usecases/softwareCatalog.ts:270-280 | Selecting one more prerogative filters the previous result by it: no entry is added and the order is kept. |
| CatalogProperties.PrerogativeSelectionIsASet | src/core-dsfr/usecases/softwareCatalog.ts:329-334 | Reordering or repeating the selected prerogatives does not change the result. |
| CatalogProperties.CriteriaIgnoreOwnSelection | src/core-dsfr/usecases/softwareCatalog.ts:371-383 | The filters a facet applies depend neither on its own dimension's selection nor on the sort key. |
| CatalogProperties.FacetIgnoresOwnSelection | src/core-dsfr/usecases/softwareCatalog.ts:371-383 | A facet depends neither on its own dimension's selection nor on the sort key. |
| CatalogProperties.FlattenWhereCounts | src/core-dsfr/usecases/softwareCatalog.ts:394-428 | Dropping entries never raises the number of occurrences of a value. |
| CatalogProperties.SelectionNeverRaisesCounts | src/core-dsfr/usecases/softwareCatalog.ts:394-428 | Selecting more in the other dimensions never raises a facet option's count. |
| CatalogProperties.CountIsEntryCount | src/core-dsfr/usecases/softwareCatalog.ts:565-575 | Where each entry carries a value at most once, and exactly when it passes a filter, the value's count is the number of entries that pass that filter. |
| CatalogProperties.EnvironmentCountsEntries | src/core-dsfr/usecases/softwareCatalog.ts:565-575 | An environment's count is the number of entries that pass every other filter and run on it. |
| CatalogProperties.PrerogativeCountsEntries | src/core-dsfr/usecases/softwareCatalog.ts:643-653 | A stored prerogative's count is the number of entries that pass every other filter and have it. |
| CatalogProperties.PrerogativeFacetOmitsInstallable | src/core-dsfr/usecases/softwareCatalog.ts:599-611 | The prerogative facet never offers `isInstallableOnUserTerminal`. |
| CatalogProperties.FacetOffersEveryValue | src/core-dsfr/usecases/softwareCatalog.ts:384-392 | A value carried by any snapshot entry is offered, even at count 0. |
| CatalogProperties.FacetShape | src/core-dsfr/usecases/softwareCatalog.ts:424-436 | Options are ascending by count and offer each value once. Each count is the value's occurrences among the entries that pass every other filter. |
| SearchSoftwareByName.ToSillSoftwares | src/core-dsfr/usecases/searchSoftwareByName.ts:91-97 | The mapping keeps the length of the list. |
| SearchSoftwareByName.ToSillSoftwaresRoundTrip | src/core-dsfr/usecases/searchSoftwareByName.ts:91-97 | The API list is recovered from the loaded one, so order, names, ids and descriptions are all kept. |
| SearchSoftwareByName.AllSillSoftwares | src/core-dsfr/usecases/searchSoftwareByName.ts:122-139 | Undefined exactly when the slice is not ready, otherwise the loaded list. |
| SearchSoftwareByName.Slice.constructor | src/core-dsfr/usecases/searchSoftwareByName.ts:31-34 | The initial state is not ready, with no load under way. |
| SearchSoftwareByName.Slice.InitializationStarted | src/core-dsfr/usecases/searchSoftwareByName.ts:36-39 | From not ready, marks a load as under way. From ready, the assertion fails and nothing changes. |
| SearchSoftwareByName.Slice.InitializationCompleted | src/core-dsfr/usecases/searchSoftwareByName.ts:40-58 | Ready with the given list, from any state. |
| SearchSoftwareByName.Slice.Cleared | src/core-dsfr/usecases/searchSoftwareByName.ts:59-62 | Not ready with no load under way, from any state. |
| SearchSoftwareByName.Slice.Initialize | src/core-dsfr/usecases/searchSoftwareByName.ts:69-104 | Throws when ready, and does nothing while a load is under way. Otherwise it ends ready with the mapped list, or stays loading if the call rejects. |
| SearchSoftwareByName.Slice.Clear | src/core-dsfr/usecases/searchSoftwareByName.ts:105-119 | Does nothing when not ready. Otherwise it goes back to not ready with no load under way. |

## Left out

- **Fuzzy matching.** `Fzf`'s scoring is foreign code. The model takes the matcher as a parameter and only fixes how its ids are used.
- **Caching.** The `memoizee` and `createSelector` caches are not modelled. Each selector here is computed from the current state. In the program, `createSelector` recomputes a selector only when one of its inputs changes by reference, and the in-place sort described below reorders the stored list without changing its reference. So a facet selector can return options computed from an older order of the stored list.
- **The network, and `async`/`await` in the thunks.**
  - `sillApiClient.getSoftwares()` is an input to `Slice.Initialize`.
  - The dispatches between the `await` and the completion are modelled as one atomic step, so interleavings with other thunks are not covered.
- **CatalogSelectors.Softwares: aliasing of the stored array is not modelled.** When no filter is active, the source sorts the stored snapshot array itself in place. The model sorts a fresh copy and leaves the stored list alone. In the program, the stored list is therefore left in the order of the last unfiltered sort. The "snapshot order" in `OrderedIsStable` and in `UnsortedKeepsSnapshotOrder` is that order, not the order the list was loaded in. For a facet, the discovery order of `FacetViewTiesInDiscoveryOrder` is the order the stored list had when that facet selector last recomputed, which can be older than the last unfiltered sort because of the cache. This affects only the order of options with equal counts. The set of options and their counts do not depend on the order of the stored list.
- **Numbers are unbounded integers.** JavaScript numbers are doubles. The comparators' differences and the counts are taken as exact.
- **Property order of plain objects.**
  - The organization and category dictionaries are plain objects, and JavaScript lists integer-like keys (such as "2024") before the others. The model lists every key in discovery order.
  - `objectKeys` on the environment and prerogative records is taken in the order their types declare the keys. The source follows the order in which the API built each record.
- **Facet option field names.** The options carry `value` where the source names the field `organization`, `category`, `environment` or `prerogative`.
- **Fields the search slice does not read.** Only the name, id and description of an API software are modelled.
- **Other files.** `src/core-dsfr/usecases/searchByProfile.ts`, the store setup, the OIDC client and the React components are not part of this model.
