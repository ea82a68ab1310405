/** The load state machine of the software-by-name search
    (src/core-dsfr/usecases/searchSoftwareByName.ts): a slice that is either
    not ready, possibly with a load under way, or ready with the list of
    softwares; the reducers that move between the two, the `initialize` and
    `clear` thunks that guard them, and the `allSillSoftwares` selector. */
module SearchSoftwareByName {
  import opened Wrappers

  /** An entry of the loaded list. */
  datatype SillSoftware = SillSoftware(softwareName: string, softwareSillId: int, softwareDescription: string)

  /** The fields of an entry of the API's list that the slice reads. */
  datatype ApiSoftware = ApiSoftware(softwareName: string, softwareId: int, softwareDescription: string)

  datatype State =
    | NotReady(isInitializing: bool)
    | Ready(allSillSoftwares: seq<SillSoftware>)

  /** Why a reducer or a thunk throws. */
  datatype Failure =
    | NotReadyExpected   // a `tsafe` assertion that the slice is not ready failed
    | RequestFailed      // the API call rejected

  /** `softwares.map(...)`: each API entry becomes a list entry, its id renamed. */
  function ToSillSoftwares(softwares: seq<ApiSoftware>): (r: seq<SillSoftware>)
    ensures |r| == |softwares|
  {
    seq(|softwares|, i requires 0 <= i < |softwares| =>
      SillSoftware(softwares[i].softwareName, softwares[i].softwareId, softwares[i].softwareDescription))
  }

  /** The API entry a list entry was made from. */
  function ToApiSoftwares(entries: seq<SillSoftware>): (r: seq<ApiSoftware>)
    ensures |r| == |entries|
  {
    seq(|entries|, i requires 0 <= i < |entries| =>
      ApiSoftware(entries[i].softwareName, entries[i].softwareSillId, entries[i].softwareDescription))
  }

  /** The mapping loses nothing the slice reads and keeps the order: the API
      list is recovered from the loaded one. */
  lemma ToSillSoftwaresRoundTrip(softwares: seq<ApiSoftware>)
    ensures ToApiSoftwares(ToSillSoftwares(softwares)) == softwares
  {
  }

  /** `selectors.allSillSoftwares`: undefined until the slice is ready, then
      the loaded list. */
  function AllSillSoftwares(s: State): (r: Option<seq<SillSoftware>>)
    ensures r.None? <==> s.NotReady?
    ensures r.Some? ==> r.value == s.allSillSoftwares
  {
    if s.NotReady? then None else Some(s.allSillSoftwares)
  }

  class Slice {
    var state: State

    /** `initialState`: not ready, no load under way. */
    constructor ()
      ensures state == NotReady(false)
    {
      state := NotReady(false);
    }

    /** `initializationStarted`: asserts the slice is not ready and marks a
        load as under way; a failed assertion leaves the state as it was. */
    method InitializationStarted() returns (r: Result<(), Failure>)
      modifies this
      ensures old(state).NotReady? ==> r == Ok(()) && state == NotReady(true)
      ensures old(state).Ready? ==> r == Err(NotReadyExpected) && state == old(state)
    {
      if state.Ready? {
        return Err(NotReadyExpected);
      }
      state := state.(isInitializing := true);
      r := Ok(());
    }

    /** `initializationCompleted`: ready with the given list, whatever the
        state was. */
    method InitializationCompleted(allSillSoftwares: seq<SillSoftware>)
      modifies this
      ensures state == Ready(allSillSoftwares)
    {
      state := Ready(allSillSoftwares);
    }

    /** `cleared`: back to the initial state, whatever the state was. */
    method Cleared()
      modifies this
      ensures state == NotReady(false)
    {
      state := NotReady(false);
    }

    /** The `initialize` thunk, given the outcome of the API call (`None` when
        it rejects). It throws when the slice is already ready, returns at once
        when a load is under way, and otherwise starts a load and completes it
        with the fetched list. A rejected call leaves the load marked as under
        way. */
    method Initialize(fetched: Option<seq<ApiSoftware>>) returns (r: Result<(), Failure>)
      modifies this
      ensures old(state).Ready? ==> r == Err(NotReadyExpected) && state == old(state)
      ensures old(state) == NotReady(true) ==> r == Ok(()) && state == old(state)
      ensures old(state) == NotReady(false) && fetched.None? ==> r == Err(RequestFailed) && state == NotReady(true)
      ensures old(state) == NotReady(false) && fetched.Some?
        ==> r == Ok(()) && state == Ready(ToSillSoftwares(fetched.value))
    {
      if state.Ready? {
        return Err(NotReadyExpected);
      }
      if state.isInitializing {
        return Ok(());
      }
      var started := InitializationStarted();
      if fetched.None? {
        return Err(RequestFailed);
      }
      InitializationCompleted(ToSillSoftwares(fetched.value));
      r := Ok(());
    }

    /** The `clear` thunk: nothing to do when the slice is not ready,
        otherwise `cleared`. */
    method Clear()
      modifies this
      ensures old(state).NotReady? ==> state == old(state)
      ensures old(state).Ready? ==> state == NotReady(false)
    {
      if state.NotReady? {
        return;
      }
      Cleared();
    }
  }
}
