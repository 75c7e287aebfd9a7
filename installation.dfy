/** The installation status the web console shows: the records of
    `InstallationStatus.java`, `InstallationPhase.java` and
    `InstalledResource.java`, and the watching, reloading and
    default-filling of `InstallationStatusCatalog.java`. */
module Installation {
  import opened Wrappers
  import opened Seqs
  import opened Strings
  import opened Json
  import opened ConsoleFiles

  datatype InstallationPhase = InstallationPhase(
    name: string, status: string, detail: string,
    startedAt: Option<int>, completedAt: Option<int>)  // None stands for a null Instant

  datatype InstalledResource = InstalledResource(
    kind: string, name: string, namespace: string, status: string, message: string, age: string)

  datatype InstallationStatus = InstallationStatus(
    architecture: string, generatedAt: int, status: string, progress: int, detail: string,
    phases: seq<InstallationPhase>, resources: seq<InstalledResource>)

  const DefaultArchitecture := "Arquitectura de referencia"
  const UnknownStatus := "DESCONOCIDO"

  /** `InstallationStatus.empty()`, stamped `now`. */
  function EmptyStatus(now: int): InstallationStatus {
    InstallationStatus(DefaultArchitecture, now, "SIN_DATOS", -1, "Aún no se registran eventos de instalación.", [], [])
  }

  // ----- readFromFile -----

  /** `parseInstant(node)`: no instant for an absent or null node or blank
      text; otherwise the parsed text, or the parse failure. */
  function ParseInstant(node: Option<Json>, parse: string -> Option<int>): (r: Result<Option<int>, ReadError>)
    ensures node.None? || node == Some(JNull) || IsJavaBlank(AsText(node)) ==> r == Ok(None)
    ensures r.Ok? && r.value.Some? ==> parse(AsText(node)) == Some(r.value.value)
    ensures r.Err? ==> r.error == BadTimestamp && parse(AsText(node)).None?
    ensures !(node.None? || node == Some(JNull) || IsJavaBlank(AsText(node))) ==>
      && (parse(AsText(node)).Some? ==> r == Ok(parse(AsText(node))))
      && (parse(AsText(node)).None? ==> r == Err(BadTimestamp))
  {
    if node.None? || node.value == JNull || IsJavaBlank(AsText(node)) then Ok(None)
    else
      match parse(AsText(node))
      case None => Err(BadTimestamp)
      case Some(at) => Ok(Some(at))
  }

  /** One element of `phases`. */
  function PhaseOf(node: Json, parse: string -> Option<int>): (r: Result<InstallationPhase, ReadError>)
    ensures r.Err? ==> r.error == BadTimestamp
    ensures r.Ok? ==>
      && (Field(node, "status").None? ==> r.value.status == UnknownStatus)
      && (Field(node, "detail").None? ==> r.value.detail == "")
      && (Field(node, "started_at").None? ==> r.value.startedAt.None?)
      && (Field(node, "completed_at").None? ==> r.value.completedAt.None?)
    ensures r.Err? <==> ParseInstant(Field(node, "started_at"), parse).Err? || ParseInstant(Field(node, "completed_at"), parse).Err?
    ensures r.Ok? ==>
      && r.value.name == AsText(Field(node, "name"))
      && (Field(node, "status") == Some(JNull) ==> r.value.status == UnknownStatus)
      && (Field(node, "status").Some? && Field(node, "status").value != JNull ==> r.value.status == AsText(Field(node, "status")))
      && (Field(node, "detail") == Some(JNull) ==> r.value.detail == "")
      && (Field(node, "detail").Some? && Field(node, "detail").value != JNull ==> r.value.detail == AsText(Field(node, "detail")))
      && Ok(r.value.startedAt) == ParseInstant(Field(node, "started_at"), parse)
      && Ok(r.value.completedAt) == ParseInstant(Field(node, "completed_at"), parse)
  {
    var started := ParseInstant(Field(node, "started_at"), parse);
    var completed := ParseInstant(Field(node, "completed_at"), parse);
    if started.Err? || completed.Err? then Err(BadTimestamp)
    else Ok(InstallationPhase(
      AsText(Field(node, "name")),
      AsTextOr(Field(node, "status"), UnknownStatus),
      AsTextOr(Field(node, "detail"), ""),
      started.value, completed.value))
  }

  function PhaseReader(parse: string -> Option<int>): Json -> Result<InstallationPhase, ReadError> {
    node => PhaseOf(node, parse)
  }

  /** The phases in array order, or the failure of the first phase whose
      instant does not parse. */
  function PhasesOf(nodes: seq<Json>, parse: string -> Option<int>): (r: Result<seq<InstallationPhase>, ReadError>)
    ensures r.Ok? <==> forall k :: 0 <= k < |nodes| ==> PhaseOf(nodes[k], parse).Ok?
    ensures r.Ok? ==> |r.value| == |nodes| && forall k :: 0 <= k < |nodes| ==> PhaseOf(nodes[k], parse) == Ok(r.value[k])
    ensures r.Err? ==> r.error == BadTimestamp
  {
    MapAllSpec(nodes, PhaseReader(parse));
    MapAll(nodes, PhaseReader(parse))
  }

  /** One element of `resources`, with its defaults. */
  function ResourceOf(node: Json): (r: InstalledResource)
    ensures Field(node, "namespace").None? ==> r.namespace == "default"
    ensures Field(node, "status").None? ==> r.status == UnknownStatus
    ensures Field(node, "message").None? ==> r.message == ""
    ensures Field(node, "age").None? ==> r.age == "-"
    ensures Field(node, "kind").None? ==> r.kind == ""
    ensures Field(node, "name").None? ==> r.name == ""
    ensures r.kind == AsText(Field(node, "kind")) && r.name == AsText(Field(node, "name"))
    ensures Field(node, "namespace") == Some(JNull) ==> r.namespace == "default"
    ensures Field(node, "status") == Some(JNull) ==> r.status == UnknownStatus
    ensures Field(node, "message") == Some(JNull) ==> r.message == ""
    ensures Field(node, "age") == Some(JNull) ==> r.age == "-"
    ensures Field(node, "namespace").Some? && Field(node, "namespace").value != JNull ==> r.namespace == AsText(Field(node, "namespace"))
    ensures Field(node, "status").Some? && Field(node, "status").value != JNull ==> r.status == AsText(Field(node, "status"))
    ensures Field(node, "message").Some? && Field(node, "message").value != JNull ==> r.message == AsText(Field(node, "message"))
    ensures Field(node, "age").Some? && Field(node, "age").value != JNull ==> r.age == AsText(Field(node, "age"))
  {
    InstalledResource(
      AsText(Field(node, "kind")),
      AsText(Field(node, "name")),
      AsTextOr(Field(node, "namespace"), "default"),
      AsTextOr(Field(node, "status"), UnknownStatus),
      AsTextOr(Field(node, "message"), ""),
      AsTextOr(Field(node, "age"), "-"))
  }

  function ResourcesOf(nodes: seq<Json>): (r: seq<InstalledResource>)
    ensures |r| == |nodes| && forall k :: 0 <= k < |nodes| ==> r[k] == ResourceOf(nodes[k])
  {
    seq(|nodes|, k requires 0 <= k < |nodes| => ResourceOf(nodes[k]))
  }

  /** The `generated_at` instant: parsed when present and not null, `now`
      otherwise. */
  function GeneratedAt(root: Json, now: int, parse: string -> Option<int>): Result<int, ReadError> {
    if !HasNonNull(root, "generated_at") then Ok(now)
    else
      match parse(AsText(Field(root, "generated_at")))
      case None => Err(BadTimestamp)
      case Some(at) => Ok(at)
  }

  /** `readFromFile()`. */
  function ReadStatus(file: FileState, now: int, parse: string -> Option<int>): (r: Result<InstallationStatus, ReadError>)
    ensures file.Absent? ==> r == Ok(EmptyStatus(now))
    ensures file.Unreadable? ==> r == Err(IoError(file.message))
    ensures file.Present? && file.content.Err? ==> r == Err(IoError(file.content.error))
    ensures file.Present? && file.content.Ok? ==>
      var root := file.content.value;
      && (r.Err? ==> r.error == BadTimestamp)
      && (r.Ok? ==>
        && (Field(root, "architecture") in {None, Some(JNull)} ==> r.value.architecture == DefaultArchitecture)
        && (Field(root, "status") in {None, Some(JNull)} ==> r.value.status == UnknownStatus)
        && (Field(root, "progress") in {None, Some(JNull)} ==> r.value.progress == -1)
        && (Field(root, "detail") in {None, Some(JNull)} ==> r.value.detail == "")
        && (!HasNonNull(root, "generated_at") ==> r.value.generatedAt == now)
        && Ok(r.value.phases) == PhasesOf(ArrayField(root, "phases"), parse)
        && r.value.resources == ResourcesOf(ArrayField(root, "resources")))
    ensures file.Present? && file.content.Ok? ==>
      var root := file.content.value;
      && (r.Err? <==>
            || (HasNonNull(root, "generated_at") && parse(AsText(Field(root, "generated_at"))).None?)
            || PhasesOf(ArrayField(root, "phases"), parse).Err?)
      && (r.Ok? ==>
        && (HasNonNull(root, "generated_at") ==> Some(r.value.generatedAt) == parse(AsText(Field(root, "generated_at"))))
        && (HasNonNull(root, "architecture") ==> r.value.architecture == AsText(Field(root, "architecture")))
        && (HasNonNull(root, "status") ==> r.value.status == AsText(Field(root, "status")))
        && (HasNonNull(root, "detail") ==> r.value.detail == AsText(Field(root, "detail")))
        && (HasNonNull(root, "progress") ==> r.value.progress == AsIntOr(Field(root, "progress"), -1)))
  {
    match file
    case Absent => Ok(EmptyStatus(now))
    case Unreadable(message) => Err(IoError(message))
    case Present(_, Err(message)) => Err(IoError(message))
    case Present(_, Ok(root)) =>
      match GeneratedAt(root, now, parse)
      case Err(e) => Err(e)
      case Ok(generatedAt) =>
        match PhasesOf(ArrayField(root, "phases"), parse)
        case Err(e) => Err(e)
        case Ok(phases) =>
          Ok(InstallationStatus(
            AsTextOr(Field(root, "architecture"), DefaultArchitecture),
            generatedAt,
            AsTextOr(Field(root, "status"), UnknownStatus),
            AsIntOr(Field(root, "progress"), -1),
            AsTextOr(Field(root, "detail"), ""),
            phases,
            ResourcesOf(ArrayField(root, "resources"))))
  }

  /** The two `forEach` loops of `readFromFile()`. */
  method ReadFromFile(file: FileState, now: int, parse: string -> Option<int>) returns (r: Result<InstallationStatus, ReadError>)
    ensures r == ReadStatus(file, now, parse)
  {
    if file.Absent? {
      return Ok(EmptyStatus(now));
    }
    if file.Unreadable? {
      return Err(IoError(file.message));
    }
    if file.content.Err? {
      return Err(IoError(file.content.error));
    }
    var root := file.content.value;
    var generatedAt := GeneratedAt(root, now, parse);
    if generatedAt.Err? {
      return Err(generatedAt.error);
    }
    var phases := ReadPhases(ArrayField(root, "phases"), parse);
    if phases.Err? {
      return Err(phases.error);
    }
    var resources := ReadResources(ArrayField(root, "resources"));
    return Ok(InstallationStatus(
      AsTextOr(Field(root, "architecture"), DefaultArchitecture),
      generatedAt.value,
      AsTextOr(Field(root, "status"), UnknownStatus),
      AsIntOr(Field(root, "progress"), -1),
      AsTextOr(Field(root, "detail"), ""),
      phases.value,
      resources));
  }

  /** The loop over `phases`: it stops at the first phase that fails. */
  method ReadPhases(nodes: seq<Json>, parse: string -> Option<int>) returns (r: Result<seq<InstallationPhase>, ReadError>)
    ensures r == PhasesOf(nodes, parse)
  {
    var phases: seq<InstallationPhase> := [];
    for i := 0 to |nodes|
      invariant PhasesOf(nodes[..i], parse) == Ok(phases)
    {
      assert nodes[..i + 1][..i] == nodes[..i];
      var phase := PhaseOf(nodes[i], parse);
      if phase.Err? {
        return Err(phase.error);
      }
      phases := phases + [phase.value];
    }
    assert nodes[..|nodes|] == nodes;
    return Ok(phases);
  }

  /** The loop over `resources`. */
  method ReadResources(nodes: seq<Json>) returns (r: seq<InstalledResource>)
    ensures r == ResourcesOf(nodes)
  {
    r := [];
    for i := 0 to |nodes|
      invariant |r| == i && forall k :: 0 <= k < i ==> r[k] == ResourceOf(nodes[k])
    {
      r := r + [ResourceOf(nodes[i])];
    }
  }

  // ----- the catalog -----

  datatype CatalogState = CatalogState(snapshot: InstallationStatus, lastLoaded: int)

  /** `refresh()`: a successful read installs its status and stamps the
      load; an I/O failure installs the empty status and throws; a parse
      failure throws and changes nothing. */
  function Refreshed(st: CatalogState, file: FileState, now: int, parse: string -> Option<int>): (r: (CatalogState, Outcome))
    ensures r.1 == Completed <==> ReadStatus(file, now, parse).Ok?
    ensures r.1 == Completed ==> r.0 == CatalogState(ReadStatus(file, now, parse).value, LoadedAt(file, now))
    ensures r.1 == UncheckedIo ==> r.0 == CatalogState(EmptyStatus(now), st.lastLoaded)
    ensures r.1 == DateTimeParse ==> r.0 == st
    ensures ReadStatus(file, now, parse).Err? && ReadStatus(file, now, parse).error.IoError? ==>
      r == (st.(snapshot := EmptyStatus(now)), UncheckedIo)
    ensures ReadStatus(file, now, parse) == Err(BadTimestamp) ==> r == (st, DateTimeParse)
  {
    match ReadStatus(file, now, parse)
    case Ok(status) => (CatalogState(status, LoadedAt(file, now)), Completed)
    case Err(IoError(_)) => (st.(snapshot := EmptyStatus(now)), UncheckedIo)
    case Err(BadTimestamp) => (st, DateTimeParse)
  }

  /** An empty file reloads with every top-level default, stamped `now`,
      without phases or resources, and its modification time becomes the
      last load. */
  lemma EmptyFileReloads(st: CatalogState, modified: int, now: int, parse: string -> Option<int>)
    ensures var defaults := InstallationStatus(DefaultArchitecture, now, UnknownStatus, -1, "", [], []);
      && ReadStatus(Present(modified, Ok(JNull)), now, parse) == Ok(defaults)
      && Refreshed(st, Present(modified, Ok(JNull)), now, parse) == (CatalogState(defaults, modified), Completed)
  {
  }

  /** The watch is due: the interval is positive and has run out since the
      last load. */
  predicate WatchDue(st: CatalogState, interval: int, now: int) {
    interval > 0 && now >= st.lastLoaded + interval
  }

  /** Once due, the watch reloads a missing file, or one modified strictly
      after the last load. */
  predicate WatchRefreshes(st: CatalogState, interval: int, file: FileState, now: int) {
    WatchDue(st, interval, now) && (file.Absent? || (file.Present? && file.modified > st.lastLoaded))
  }

  /** `watchForChanges()`. */
  function Watched(st: CatalogState, interval: int, file: FileState, now: int, parse: string -> Option<int>)
    : (r: (CatalogState, Outcome))
    ensures !WatchDue(st, interval, now) ==> r == (st, Completed)
    ensures WatchRefreshes(st, interval, file, now) ==> r == Refreshed(st, file, now, parse)
    ensures WatchDue(st, interval, now) && file.Unreadable? ==> r == (st.(snapshot := EmptyStatus(now)), Completed)
    ensures !WatchRefreshes(st, interval, file, now) && !file.Unreadable? ==> r == (st, Completed)
  {
    if interval <= 0 || now < st.lastLoaded + interval then (st, Completed)
    else if file.Unreadable? then (st.(snapshot := EmptyStatus(now)), Completed)
    else if file.Absent? || file.modified > st.lastLoaded then Refreshed(st, file, now, parse)
    else (st, Completed)
  }

  /** A missing file is reloaded as the empty status at every due watch, and
      the load is stamped with the time of that watch. */
  lemma MissingFileReloadedWhenDue(st: CatalogState, interval: int, now: int, parse: string -> Option<int>)
    requires WatchDue(st, interval, now)
    ensures Watched(st, interval, Absent, now, parse) == (CatalogState(EmptyStatus(now), now), Completed)
  {
  }

  /** A file left alone since the last load is never read again. */
  lemma UnchangedFileNotReread(st: CatalogState, interval: int, modified: int, content: Result<Json, string>, now: int, parse: string -> Option<int>)
    requires modified <= st.lastLoaded
    ensures Watched(st, interval, Present(modified, content), now, parse) == (st, Completed)
  {
  }

  /** The `@ApplicationScoped` catalog. */
  class InstallationStatusCatalog {
    const refreshInterval: int
    var snapshot: InstallationStatus
    var lastLoaded: int

    function State(): CatalogState
      reads this
    {
      CatalogState(snapshot, lastLoaded)
    }

    constructor(refreshInterval: int, now: int)
      ensures this.refreshInterval == refreshInterval
      ensures snapshot == EmptyStatus(now) && lastLoaded == Epoch
    {
      this.refreshInterval := refreshInterval;
      snapshot := EmptyStatus(now);
      lastLoaded := Epoch;
    }

    /** `refresh()`, also run at startup. */
    method Refresh(file: FileState, now: int, parse: string -> Option<int>) returns (outcome: Outcome)
      modifies this
      ensures (State(), outcome) == Refreshed(old(State()), file, now, parse)
    {
      var read := ReadFromFile(file, now, parse);
      match read {
        case Ok(status) =>
          snapshot := status;
          lastLoaded := if file.Present? then file.modified else now;
          return Completed;
        case Err(IoError(_)) =>
          snapshot := EmptyStatus(now);
          return UncheckedIo;
        case Err(BadTimestamp) =>
          return DateTimeParse;
      }
    }

    /** `watchForChanges()`, run every two seconds. */
    method WatchForChanges(file: FileState, now: int, parse: string -> Option<int>) returns (outcome: Outcome)
      modifies this
      ensures (State(), outcome) == Watched(old(State()), refreshInterval, file, now, parse)
    {
      if refreshInterval <= 0 {
        return Completed;
      }
      var nextRefresh := lastLoaded + refreshInterval;
      if now < nextRefresh {
        return Completed;
      }
      if file.Unreadable? {
        snapshot := EmptyStatus(now);
        return Completed;
      }
      var present := file.Present?;
      var fileTime := if present then file.modified else Epoch;
      if !present || fileTime > lastLoaded {
        outcome := Refresh(file, now, parse);
      } else {
        outcome := Completed;
      }
    }

    /** `snapshot()`. */
    method Snapshot() returns (current: InstallationStatus)
      ensures current == snapshot
    {
      current := snapshot;
    }
  }
}
