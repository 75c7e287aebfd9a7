/** The web console's command catalog: `CommandDefinition.java`,
    `CommandSnapshot.java` and `CommandCatalog.java`. */
module Commands {
  import opened Wrappers
  import opened Strings
  import opened Json
  import opened Tokenizer
  import opened ConsoleEvents
  import opened ConsoleFiles

  // ----- CommandDefinition -----

  datatype CommandDefinition = CommandDefinition(name: string, summary: string, usage: string)

  const UsageMarker := "usage:"

  /** `canonicalCommand()`: every `usage:` removed, then `trim()`. */
  function Canonical(d: CommandDefinition): string {
    JavaTrim(ReplaceAll(d.usage, UsageMarker, ""))
  }

  /** The canonical command neither starts nor ends with a character
      `trim()` removes. */
  lemma CanonicalTrimmed(d: CommandDefinition)
    ensures var r := Canonical(d); r == [] || (!IsJavaTrimmable(r[0]) && !IsJavaTrimmable(r[|r| - 1]))
  {
    StripIsSlice(ReplaceAll(d.usage, UsageMarker, ""), IsJavaTrimmable);
  }

  /** A usage without the marker is only trimmed. */
  lemma CanonicalWithoutMarker(d: CommandDefinition)
    requires !Contains(d.usage, UsageMarker)
    ensures Canonical(d) == JavaTrim(d.usage)
  {
    ReplaceAbsent(d.usage, UsageMarker, "");
  }

  /** Canonicalising a canonical command changes nothing, as long as the
      first pass left no marker behind. */
  lemma CanonicalStable(d: CommandDefinition)
    requires !Contains(Canonical(d), UsageMarker)
    ensures Canonical(d.(usage := Canonical(d))) == Canonical(d)
  {
    ReplaceAbsent(Canonical(d), UsageMarker, "");
    StripIdempotent(ReplaceAll(d.usage, UsageMarker, ""), IsJavaTrimmable);
  }

  /** A usage that hides a marker inside a marker: `usausage:ge:`. */
  const NestedMarker := "usa" + UsageMarker + "ge:"

  /** Removing the marker can join two halves into a new marker, so a
      second pass can change the result: `usausage:ge:` gives `usage:`,
      which gives the empty command. */
  lemma CanonicalNotIdempotent()
    ensures var d := CommandDefinition("help", "help", NestedMarker);
      Canonical(d) == UsageMarker && Canonical(d.(usage := Canonical(d))) == ""
  {
    MarkerFormsAgain();
    StripUnchanged(UsageMarker, IsJavaTrimmable);
    ReplaceMarkerAhead("");
  }

  /** The single replacement pass over NestedMarker. */
  lemma MarkerFormsAgain()
    ensures ReplaceAll(NestedMarker, UsageMarker, "") == UsageMarker
  {
    var tail := "ge:";
    var s3 := UsageMarker + tail;
    ReplaceMarkerAhead(tail);
    ReplaceKeepsHead('a', s3, 0);
    ReplaceKeepsHead('s', ['a'] + s3, 0);
    ReplaceKeepsHead('u', ['s', 'a'] + s3, 3);
    SpelledOut();
  }

  /** The two spellings of the texts involved agree. */
  lemma SpelledOut()
    ensures NestedMarker == ['u'] + (['s'] + (['a'] + (UsageMarker + "ge:")))
    ensures ['u'] + (['s'] + (['a'] + "ge:")) == UsageMarker
  {
  }

  /** One step of the pass where the marker does not start. */
  lemma ReplaceKeepsHead(c: char, rest: string, k: nat)
    requires k < |UsageMarker| <= |rest| + 1 && ([c] + rest)[k] != UsageMarker[k]
    ensures ReplaceAll([c] + rest, UsageMarker, "") == [c] + ReplaceAll(rest, UsageMarker, "")
  {
    assert ([c] + rest)[..|UsageMarker|][k] != UsageMarker[k];
    assert ([c] + rest)[1..] == rest;
  }

  /** One step of the pass where the marker starts. */
  lemma ReplaceMarkerAhead(rest: string)
    ensures ReplaceAll(UsageMarker + rest, UsageMarker, "") == ReplaceAll(rest, UsageMarker, "")
  {
    assert (UsageMarker + rest)[..|UsageMarker|] == UsageMarker;
    assert (UsageMarker + rest)[|UsageMarker|..] == rest;
  }

  /** `String.length()`: the number of UTF-16 code units. */
  function Utf16Length(s: string): (n: nat)
    ensures |s| <= n <= 2 * |s|
    ensures n == |s| <==> forall k :: 0 <= k < |s| ==> s[k] as int <= 0xFFFF
    ensures n == 2 * |s| <==> forall k :: 0 <= k < |s| ==> s[k] as int > 0xFFFF
    decreases |s|
  {
    if s == [] then 0
    else Utf16Length(s[..|s| - 1]) + (if s[|s| - 1] as int > 0xFFFF then 2 else 1)
  }

  /** `@NotBlank` (Hibernate Validator): not empty after `trim()`. */
  predicate NotBlank(s: string) {
    JavaTrim(s) != []
  }

  /** A text passes `@NotBlank` exactly when some character is above U+0020. */
  lemma NotBlankIff(s: string)
    ensures NotBlank(s) <==> exists k :: 0 <= k < |s| && !IsJavaTrimmable(s[k])
  {
    StripEmptyIff(s, IsJavaTrimmable);
  }

  /** The constraints on the record's components. */
  predicate Valid(d: CommandDefinition) {
    && NotBlank(d.name)
    && NotBlank(d.summary) && Utf16Length(d.summary) <= 512
    && NotBlank(d.usage) && Utf16Length(d.usage) <= 512
  }

  /** A valid definition has at most 512 characters of summary and of usage,
      and at least one visible character in each component. */
  lemma ValidBounds(d: CommandDefinition)
    requires Valid(d)
    ensures 1 <= |d.summary| <= 512 && 1 <= |d.usage| <= 512 && d.name != []
  {
  }

  // ----- CommandSnapshot -----

  datatype CommandSnapshot = CommandSnapshot(commands: seq<CommandDefinition>, generatedAt: int)

  /** `CommandSnapshot.empty()`. */
  const EmptySnapshot := CommandSnapshot([], Epoch)

  // ----- readFromFile -----

  /** One element of the `commands` array; a missing field reads as "". */
  function CommandOf(node: Json): CommandDefinition {
    CommandDefinition(AsText(Field(node, "name")), AsText(Field(node, "summary")), AsText(Field(node, "usage")))
  }

  function CommandsOf(nodes: seq<Json>): (r: seq<CommandDefinition>)
    ensures |r| == |nodes| && forall k :: 0 <= k < |nodes| ==> r[k] == CommandOf(nodes[k])
  {
    seq(|nodes|, k requires 0 <= k < |nodes| => CommandOf(nodes[k]))
  }

  /** `readFromFile()`: a missing file is an empty catalog stamped `now`;
      otherwise one command per element of the `commands` array, in order,
      stamped with `generated_at` when it is present and not null. */
  function ReadCommands(file: FileState, now: int, parse: string -> Option<int>): (r: Result<CommandSnapshot, ReadError>)
    ensures file.Absent? ==> r == Ok(CommandSnapshot([], now))
    ensures file.Unreadable? ==> r == Err(IoError(file.message))
    ensures file.Present? && file.content.Err? ==> r == Err(IoError(file.content.error))
    ensures file.Present? && file.content.Ok? ==>
      var root := file.content.value;
      && (r.Ok? <==> !HasNonNull(root, "generated_at") || parse(AsText(Field(root, "generated_at"))).Some?)
      && (r.Err? ==> r.error == BadTimestamp)
      && (r.Ok? ==> r.value.commands == CommandsOf(ArrayField(root, "commands")))
      && (r.Ok? && !HasNonNull(root, "generated_at") ==> r.value.generatedAt == now)
      && (r.Ok? && HasNonNull(root, "generated_at") ==> Some(r.value.generatedAt) == parse(AsText(Field(root, "generated_at"))))
  {
    match file
    case Absent => Ok(CommandSnapshot([], now))
    case Unreadable(message) => Err(IoError(message))
    case Present(_, Err(message)) => Err(IoError(message))
    case Present(_, Ok(root)) =>
      var commands := CommandsOf(ArrayField(root, "commands"));
      if HasNonNull(root, "generated_at") then
        match parse(AsText(Field(root, "generated_at")))
        case None => Err(BadTimestamp)
        case Some(at) => Ok(CommandSnapshot(commands, at))
      else Ok(CommandSnapshot(commands, now))
  }

  /** `readFromFile()` with its `forEach` loop. */
  method ReadFromFile(file: FileState, now: int, parse: string -> Option<int>) returns (r: Result<CommandSnapshot, ReadError>)
    ensures r == ReadCommands(file, now, parse)
  {
    match file {
      case Absent =>
        return Ok(CommandSnapshot([], now));
      case Unreadable(message) =>
        return Err(IoError(message));
      case Present(_, content) =>
        if content.Err? {
          return Err(IoError(content.error));
        }
        var root := content.value;
        var nodes := ArrayField(root, "commands");
        var commands: seq<CommandDefinition> := [];
        for i := 0 to |nodes|
          invariant |commands| == i && forall k :: 0 <= k < i ==> commands[k] == CommandOf(nodes[k])
        {
          var node := nodes[i];
          commands := commands + [CommandDefinition(AsText(Field(node, "name")), AsText(Field(node, "summary")), AsText(Field(node, "usage")))];
        }
        assert commands == CommandsOf(nodes);
        var generatedAt := now;
        if HasNonNull(root, "generated_at") {
          var parsed := parse(AsText(Field(root, "generated_at")));
          if parsed.None? {
            return Err(BadTimestamp);
          }
          generatedAt := parsed.value;
        }
        return Ok(CommandSnapshot(commands, generatedAt));
    }
  }

  // ----- findByName -----

  /** `a.equalsIgnoreCase(b)`, with the case folding of ASCII and Latin-1. */
  predicate SameNameIgnoringCase(a: string, b: string) {
    Lower(a) == Lower(b)
  }

  /** The first command whose name matches, if any. */
  function FirstNamed(commands: seq<CommandDefinition>, name: string): (r: Option<CommandDefinition>)
    ensures r.None? <==> forall k :: 0 <= k < |commands| ==> !SameNameIgnoringCase(commands[k].name, name)
    ensures r.Some? ==> exists i :: (
      && 0 <= i < |commands| && commands[i] == r.value
      && SameNameIgnoringCase(commands[i].name, name)
      && forall k :: 0 <= k < i ==> !SameNameIgnoringCase(commands[k].name, name))
    decreases |commands|
  {
    if commands == [] then None
    else if SameNameIgnoringCase(commands[0].name, name) then Some(commands[0])
    else
      var r := FirstNamed(commands[1..], name);
      assert forall k :: 1 <= k < |commands| ==> commands[k] == commands[1..][k - 1];
      if r.Some? then
        var i :| 0 <= i < |commands[1..]| && commands[1..][i] == r.value
          && SameNameIgnoringCase(commands[1..][i].name, name)
          && forall k :: 0 <= k < i ==> !SameNameIgnoringCase(commands[1..][k].name, name);
        assert commands[i + 1] == r.value;
        r
      else r
  }

  // ----- the catalog -----

  /** The catalog's mutable state. */
  datatype CatalogState = CatalogState(snapshot: CommandSnapshot, lastLoaded: int)

  /** `refresh()`: the state, the outcome and the events fired. A read that
      fails leaves the state as it was. */
  function Refreshed(st: CatalogState, file: FileState, now: int, parse: string -> Option<int>)
    : (r: (CatalogState, Outcome, seq<ConsoleEvent>))
    ensures r.1 == Completed <==> ReadCommands(file, now, parse).Ok?
    ensures r.1 == Completed ==>
      var s := ReadCommands(file, now, parse).value;
      r.0 == CatalogState(s, LoadedAt(file, now)) && r.2 == [CatalogReloaded(|s.commands|, now)]
    ensures r.1 != Completed ==> r.0 == st
    ensures r.1 == UncheckedIo ==> |r.2| == 1 && r.2[0].kind == "WARNING"
    ensures r.1 == DateTimeParse ==> r.2 == []
    ensures ReadCommands(file, now, parse).Err? && ReadCommands(file, now, parse).error.IoError? ==>
      r == (st, UncheckedIo, [Warning("No se pudo actualizar el catálogo: " + ReadCommands(file, now, parse).error.message, now)])
    ensures ReadCommands(file, now, parse) == Err(BadTimestamp) ==> r == (st, DateTimeParse, [])
  {
    match ReadCommands(file, now, parse)
    case Ok(s) => (CatalogState(s, LoadedAt(file, now)), Completed, [CatalogReloaded(|s.commands|, now)])
    case Err(IoError(message)) => (st, UncheckedIo, [Warning("No se pudo actualizar el catálogo: " + message, now)])
    case Err(BadTimestamp) => (st, DateTimeParse, [])
  }

  /** An empty file reloads as a catalog without commands, stamped `now`,
      and its modification time becomes the last load. */
  lemma EmptyFileReloads(st: CatalogState, modified: int, now: int, parse: string -> Option<int>)
    ensures ReadCommands(Present(modified, Ok(JNull)), now, parse) == Ok(CommandSnapshot([], now))
    ensures Refreshed(st, Present(modified, Ok(JNull)), now, parse)
      == (CatalogState(CommandSnapshot([], now), modified), Completed, [CatalogReloaded(0, now)])
  {
  }

  /** The file time `watchForChanges` compares: the epoch when the file is
      missing. */
  function FileTime(file: FileState): int
    requires !file.Unreadable?
  {
    if file.Present? then file.modified else Epoch
  }

  /** `watchForChanges` refreshes when the interval is positive and the
      file time is strictly after `lastLoaded` plus the interval. */
  predicate WatchRefreshes(st: CatalogState, interval: int, file: FileState) {
    interval > 0 && !file.Unreadable? && FileTime(file) > st.lastLoaded + interval
  }

  /** `watchForChanges()`: a refresh when WatchRefreshes holds, a warning
      when the file's time cannot be read, nothing otherwise. */
  function Watched(st: CatalogState, interval: int, file: FileState, now: int, parse: string -> Option<int>)
    : (r: (CatalogState, Outcome, seq<ConsoleEvent>))
    ensures WatchRefreshes(st, interval, file) ==> r == Refreshed(st, file, now, parse)
    ensures !WatchRefreshes(st, interval, file) ==> r.0 == st && r.1 == Completed
    ensures r.2 != [] ==> WatchRefreshes(st, interval, file) || (interval > 0 && file.Unreadable?)
    ensures interval > 0 && file.Unreadable? ==>
      r == (st, Completed, [Warning("No se pudo vigilar el archivo de comandos: " + file.message, now)])
  {
    if interval <= 0 then (st, Completed, [])
    else if file.Unreadable? then (st, Completed, [Warning("No se pudo vigilar el archivo de comandos: " + file.message, now)])
    else if FileTime(file) > st.lastLoaded + interval then Refreshed(st, file, now, parse)
    else (st, Completed, [])
  }

  /** The state after a watch at each of `nows`, in order. */
  function WatchAll(st: CatalogState, interval: int, file: FileState, nows: seq<int>, parse: string -> Option<int>): CatalogState
    decreases |nows|
  {
    if nows == [] then st
    else WatchAll(Watched(st, interval, file, nows[0], parse).0, interval, file, nows[1..], parse)
  }

  /** An edit stamped no later than `lastLoaded` plus the interval is never
      picked up, however many watches follow. */
  lemma {:induction false} EditWithinIntervalNeverSeen(
    st: CatalogState, interval: int, modified: int, content: Result<Json, string>, nows: seq<int>, parse: string -> Option<int>)
    requires modified <= st.lastLoaded + interval
    ensures WatchAll(st, interval, Present(modified, content), nows, parse) == st
    decreases |nows|
  {
    if nows != [] {
      EditWithinIntervalNeverSeen(st, interval, modified, content, nows[1..], parse);
    }
  }

  /** Deleting the file is never noticed: its time reads as the epoch, which
      is never after a load time since the epoch. */
  lemma {:induction false} DeletionNeverSeen(st: CatalogState, interval: int, nows: seq<int>, parse: string -> Option<int>)
    requires st.lastLoaded >= Epoch
    ensures WatchAll(st, interval, Absent, nows, parse) == st
    decreases |nows|
  {
    if nows != [] {
      assert !WatchRefreshes(st, interval, Absent);
      DeletionNeverSeen(st, interval, nows[1..], parse);
    }
  }

  /** The `@ApplicationScoped` catalog. */
  class CommandCatalog {
    const refreshInterval: int
    var snapshot: CommandSnapshot
    var lastLoaded: int

    function State(): CatalogState
      reads this
    {
      CatalogState(snapshot, lastLoaded)
    }

    constructor(refreshInterval: int)
      ensures this.refreshInterval == refreshInterval
      ensures snapshot == EmptySnapshot && lastLoaded == Epoch
    {
      this.refreshInterval := refreshInterval;
      snapshot := EmptySnapshot;
      lastLoaded := Epoch;
    }

    /** `refresh()`, also run at startup. */
    method Refresh(file: FileState, now: int, parse: string -> Option<int>) returns (outcome: Outcome, fired: seq<ConsoleEvent>)
      modifies this
      ensures (State(), outcome, fired) == Refreshed(old(State()), file, now, parse)
    {
      var read := ReadFromFile(file, now, parse);
      match read {
        case Ok(updated) =>
          snapshot := updated;
          lastLoaded := if file.Present? then file.modified else now;
          return Completed, [CatalogReloaded(|updated.commands|, now)];
        case Err(IoError(message)) =>
          return UncheckedIo, [Warning("No se pudo actualizar el catálogo: " + message, now)];
        case Err(BadTimestamp) =>
          return DateTimeParse, [];
      }
    }

    /** `watchForChanges()`, run every second. */
    method WatchForChanges(file: FileState, now: int, parse: string -> Option<int>) returns (outcome: Outcome, fired: seq<ConsoleEvent>)
      modifies this
      ensures (State(), outcome, fired) == Watched(old(State()), refreshInterval, file, now, parse)
    {
      if refreshInterval <= 0 {
        return Completed, [];
      }
      if file.Unreadable? {
        return Completed, [Warning("No se pudo vigilar el archivo de comandos: " + file.message, now)];
      }
      var fileTime := if file.Present? then file.modified else Epoch;
      var threshold := lastLoaded + refreshInterval;
      if fileTime > threshold {
        outcome, fired := Refresh(file, now, parse);
      } else {
        outcome, fired := Completed, [];
      }
    }

    /** `snapshot()`: the current snapshot, announced by a read event. */
    method Snapshot(now: int) returns (current: CommandSnapshot, fired: seq<ConsoleEvent>)
      ensures current == snapshot
      ensures fired == [CatalogRead(|snapshot.commands|, now)]
    {
      current := snapshot;
      fired := [CatalogRead(|current.commands|, now)];
    }

    /** `findByName(name)`: the first command whose name equals `name`
        ignoring case, scanning the snapshot in order. */
    method FindByName(name: string, now: int) returns (found: Option<CommandDefinition>, fired: seq<ConsoleEvent>)
      ensures found == FirstNamed(snapshot.commands, name)
      ensures found.Some? ==> found.value in snapshot.commands && SameNameIgnoringCase(found.value.name, name)
      ensures fired == [CatalogRead(|snapshot.commands|, now)]
    {
      var current;
      current, fired := Snapshot(now);
      var commands := current.commands;
      var i := 0;
      while i < |commands|
        invariant 0 <= i <= |commands|
        invariant FirstNamed(commands[i..], name) == FirstNamed(commands, name)
      {
        if SameNameIgnoringCase(commands[i].name, name) {
          return Some(commands[i]), fired;
        }
        assert commands[i..][1..] == commands[i + 1..];
        i := i + 1;
      }
      found := None;
    }
  }
}
