/** The catalog slice of the store: the snapshot and the current filter
    values, with the reducers `initialized` and `valueUpdated`
    (src/core-dsfr/usecases/softwareCatalog.ts). */
module CatalogState {
  import opened Wrappers
  import opened CatalogTypes

  /** The filter fields of the state, as the selectors read them. */
  datatype FilterState = FilterState(
    search: string,
    sort: Option<Sort>,
    organization: Option<string>,
    category: Option<string>,
    environment: Option<Environment>,
    prerogatives: seq<Prerogative>)

  /** No search, no sort, no selection. */
  const NoFilters := FilterState("", None, None, None, None, [])

  /** `ChangeValueParams`: one key of the state other than `softwares`, with a
      value of that key's type. */
  datatype ChangeValue =
    | SetSearch(search: string)
    | SetSort(sort: Option<Sort>)
    | SetOrganization(organization: Option<string>)
    | SetCategory(category: Option<string>)
    | SetEnvironment(environment: Option<Environment>)
    | SetPrerogatives(prerogatives: seq<Prerogative>)

  class SoftwareCatalogState {
    var softwares: seq<Internal>
    var search: string
    var sort: Option<Sort>
    var organization: Option<string>
    var category: Option<string>
    var environment: Option<Environment>
    var prerogatives: seq<Prerogative>

    function Filters(): FilterState
      reads this
    {
      FilterState(search, sort, organization, category, environment, prerogatives)
    }

    /** `initialized`: a fresh state that holds the given list and no filter. */
    constructor Initialized(softwares: seq<Internal>)
      ensures this.softwares == softwares
      ensures Filters() == NoFilters
    {
      this.softwares := softwares;
      search := "";
      sort := None;
      organization := None;
      category := None;
      environment := None;
      prerogatives := [];
    }

    /** `valueUpdated`: writes the one field the change names; the list and
        every other field keep their values. */
    method ValueUpdated(change: ChangeValue)
      modifies this
      ensures softwares == old(softwares)
      ensures search == if change.SetSearch? then change.search else old(search)
      ensures sort == if change.SetSort? then change.sort else old(sort)
      ensures organization
           == if change.SetOrganization? then change.organization else old(organization)
      ensures category == if change.SetCategory? then change.category else old(category)
      ensures environment
           == if change.SetEnvironment? then change.environment else old(environment)
      ensures prerogatives
           == if change.SetPrerogatives? then change.prerogatives else old(prerogatives)
    {
      match change
      case SetSearch(v) => search := v;
      case SetSort(v) => sort := v;
      case SetOrganization(v) => organization := v;
      case SetCategory(v) => category := v;
      case SetEnvironment(v) => environment := v;
      case SetPrerogatives(v) => prerogatives := v;
    }
  }

  /** The `initialize` thunk: a catalog state over an empty list. */
  method Initialize() returns (state: SoftwareCatalogState)
    ensures fresh(state)
    ensures state.softwares == [] && state.Filters() == NoFilters
  {
    state := new SoftwareCatalogState.Initialized([]);
  }
}
