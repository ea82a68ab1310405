/** The catalog's entries: the internal shape kept in the store, the external
    shape handed to the screens, and the projection from one to the other
    (src/core-dsfr/usecases/softwareCatalog.ts). */
module CatalogTypes {
  import opened Wrappers

  /** The sort keys a user can choose. */
  datatype Sort =
    | AddedTime
    | UpdateTime
    | LastVersionPublicationDate
    | UserCount
    | ReferentCount
    | UserCountAsc
    | ReferentCountAsc

  datatype Environment = Linux | Windows | Mac | Browser | Smartphone

  datatype Prerogative =
    | IsInstallableOnUserTerminal
    | IsPresentInSupportContract
    | IsFromFrenchPublicServices
    | DoRespectRgaa
    | IsTestable

  /** The prerogatives an internal entry stores: all but the derived one. */
  type StoredPrerogative = p: Prerogative | p != IsInstallableOnUserTerminal
    witness IsPresentInSupportContract

  datatype Version = Version(semVer: string, publicationTime: int)

  datatype ParentSoftware = ParentSoftware(softwareName: string, softwareId: string)

  /** `Record<Environment, boolean>`. */
  datatype Environments = Environments(
    linux: bool, windows: bool, mac: bool, browser: bool, smartphone: bool)

  /** The internal prerogative record, without `isInstallableOnUserTerminal`. */
  datatype StoredPrerogatives = StoredPrerogatives(
    isPresentInSupportContract: bool,
    isFromFrenchPublicServices: bool,
    doRespectRgaa: bool,
    isTestable: bool)

  /** `Record<Prerogative, boolean>`, as the external entry carries it. */
  datatype Prerogatives = Prerogatives(
    isInstallableOnUserTerminal: bool,
    isPresentInSupportContract: bool,
    isFromFrenchPublicServices: bool,
    doRespectRgaa: bool,
    isTestable: bool)

  /** An entry as the store keeps it (`Software.Internal`). */
  datatype Internal = Internal(
    softwareId: int,
    logoUrl: Option<string>,
    softwareName: string,
    softwareDescriptions: string,
    lastVersion: Option<Version>,
    referentsCount: int,
    userCounts: int,
    parentSoftware: Option<ParentSoftware>,
    testUrl: Option<string>,
    addedTime: int,
    updateTime: int,
    categories: seq<string>,
    organizations: seq<string>,
    environments: Environments,
    prerogatives: StoredPrerogatives,
    search: string)

  /** An entry as the selectors return it (`Software.External`). */
  datatype External = External(
    softwareId: int,
    logoUrl: Option<string>,
    softwareName: string,
    softwareDescriptions: string,
    lastVersion: Option<Version>,
    referentsCount: int,
    userCounts: int,
    parentSoftware: Option<ParentSoftware>,
    testUrl: Option<string>,
    prerogatives: Prerogatives)

  /** `environments[e]`. */
  predicate EnvironmentHolds(envs: Environments, e: Environment)
  {
    match e
    case Linux => envs.linux
    case Windows => envs.windows
    case Mac => envs.mac
    case Browser => envs.browser
    case Smartphone => envs.smartphone
  }

  /** `prerogatives[p]` on the internal record. */
  predicate StoredHolds(ps: StoredPrerogatives, p: StoredPrerogative)
  {
    match p
    case IsPresentInSupportContract => ps.isPresentInSupportContract
    case IsFromFrenchPublicServices => ps.isFromFrenchPublicServices
    case DoRespectRgaa => ps.doRespectRgaa
    case IsTestable => ps.isTestable
  }

  /** `prerogatives[p]` on the external record. */
  predicate PrerogativeHolds(ps: Prerogatives, p: Prerogative)
  {
    match p
    case IsInstallableOnUserTerminal => ps.isInstallableOnUserTerminal
    case IsPresentInSupportContract => ps.isPresentInSupportContract
    case IsFromFrenchPublicServices => ps.isFromFrenchPublicServices
    case DoRespectRgaa => ps.doRespectRgaa
    case IsTestable => ps.isTestable
  }

  /** No element occurs twice. */
  ghost predicate NoDuplicates<T>(s: seq<T>)
  {
    forall i, j :: 0 <= i < j < |s| ==> s[i] != s[j]
  }

  /** `objectKeys(environments).filter(e => environments[e])`, the keys taken in
      the order the type declares them. */
  function EnvironmentsOn(envs: Environments): (r: seq<Environment>)
    ensures forall e :: e in r <==> EnvironmentHolds(envs, e)
    ensures NoDuplicates(r)
  {
    (if envs.linux then [Linux] else [])
    + (if envs.windows then [Windows] else [])
    + (if envs.mac then [Mac] else [])
    + (if envs.browser then [Browser] else [])
    + (if envs.smartphone then [Smartphone] else [])
  }

  /** `objectKeys(prerogatives).filter(p => prerogatives[p])` on the internal
      record, the keys taken in the order the type declares them. */
  function StoredPrerogativesOn(ps: StoredPrerogatives): (r: seq<Prerogative>)
    ensures forall p :: p in r <==> p != IsInstallableOnUserTerminal && StoredHolds(ps, p)
    ensures NoDuplicates(r)
  {
    (if ps.isPresentInSupportContract then [IsPresentInSupportContract] else [])
    + (if ps.isFromFrenchPublicServices then [IsFromFrenchPublicServices] else [])
    + (if ps.doRespectRgaa then [DoRespectRgaa] else [])
    + (if ps.isTestable then [IsTestable] else [])
  }

  /** `internalSoftwareToExternalSoftware`: keeps the shared fields, drops the
      internal-only ones, copies the stored prerogatives and derives
      `isInstallableOnUserTerminal` from the environments, where running in a
      browser does not count. */
  function Project(x: Internal): (r: External)
    ensures r.softwareId == x.softwareId && r.logoUrl == x.logoUrl
    ensures r.softwareName == x.softwareName
    ensures r.softwareDescriptions == x.softwareDescriptions
    ensures r.lastVersion == x.lastVersion
    ensures r.referentsCount == x.referentsCount && r.userCounts == x.userCounts
    ensures r.parentSoftware == x.parentSoftware && r.testUrl == x.testUrl
    ensures forall p: StoredPrerogative :: PrerogativeHolds(r.prerogatives, p) == StoredHolds(x.prerogatives, p)
    ensures PrerogativeHolds(r.prerogatives, IsInstallableOnUserTerminal)
        <==> exists e :: e != Browser && EnvironmentHolds(x.environments, e)
  {
    var envs := x.environments;
    assert envs.linux ==> EnvironmentHolds(envs, Linux);
    assert envs.windows ==> EnvironmentHolds(envs, Windows);
    assert envs.mac ==> EnvironmentHolds(envs, Mac);
    assert envs.smartphone ==> EnvironmentHolds(envs, Smartphone);
    External(
      x.softwareId, x.logoUrl, x.softwareName, x.softwareDescriptions,
      x.lastVersion, x.referentsCount, x.userCounts, x.parentSoftware, x.testUrl,
      Prerogatives(
        envs.linux || envs.mac || envs.windows || envs.smartphone,
        x.prerogatives.isPresentInSupportContract,
        x.prerogatives.isFromFrenchPublicServices,
        x.prerogatives.doRespectRgaa,
        x.prerogatives.isTestable))
  }
}
