/** The web console's events and the bounded, newest-first log that keeps
    them (`ConsoleEvent.java`, `ConsoleEventLog.java`). Instants are whole
    numbers on one clock; `now` stands for `Instant.now()`. */
module ConsoleEvents {
  import opened Json

  /** `ConsoleEvent(type, at, commandCount, detail)`. */
  datatype ConsoleEvent = ConsoleEvent(kind: string, at: int, commandCount: int, detail: string)

  /** `ConsoleEvent.catalogReloaded`. */
  function CatalogReloaded(count: nat, now: int): ConsoleEvent {
    ConsoleEvent("CATALOG_RELOADED", now, count, "Catálogo sincronizado con " + IntText(count) + " comandos")
  }

  /** `ConsoleEvent.catalogRead`. */
  function CatalogRead(count: nat, now: int): ConsoleEvent {
    ConsoleEvent("CATALOG_READ", now, count, "Lectura del catálogo")
  }

  /** `ConsoleEvent.warning`. */
  function Warning(message: string, now: int): ConsoleEvent {
    ConsoleEvent("WARNING", now, 0, message)
  }

  const MaxEvents := 64

  /** The log after `e` arrives: `e` in front of the old log, cut back to
      `MaxEvents` entries by dropping from the back. */
  function Pushed(log: seq<ConsoleEvent>, e: ConsoleEvent): (r: seq<ConsoleEvent>)
    ensures 1 <= |r| <= MaxEvents && r[0] == e
    ensures r[1..] <= log
    ensures |log| < MaxEvents ==> r == [e] + log
    ensures |log| >= MaxEvents ==> |r| == MaxEvents
  {
    var grown := [e] + log;
    if |grown| <= MaxEvents then grown else grown[..MaxEvents]
  }

  /** Events that arrive one after another come out newest first: after
      `a` then `b`, the log starts with `b`, `a`. */
  lemma NewestFirst(log: seq<ConsoleEvent>, a: ConsoleEvent, b: ConsoleEvent)
    ensures |Pushed(Pushed(log, a), b)| >= 2
    ensures Pushed(Pushed(log, a), b)[..2] == [b, a]
  {
    var once := Pushed(log, a);
    assert once[0] == a;
    assert Pushed(once, b)[1..][0] == once[0];
  }

  /** The in-memory log; `synchronized` only guards it against concurrent
      callers. */
  class ConsoleEventLog {
    var events: seq<ConsoleEvent>

    predicate Valid()
      reads this
    {
      |events| <= MaxEvents
    }

    constructor()
      ensures events == [] && Valid()
    {
      events := [];
    }

    /** `onEvent`: `addFirst`, then `removeLast` while the log is too long. */
    method OnEvent(e: ConsoleEvent)
      modifies this
      ensures events == Pushed(old(events), e)
      ensures Valid()
    {
      ghost var grown := [e] + events;
      events := [e] + events;
      while |events| > MaxEvents
        invariant |events| <= |grown| && events == grown[..|events|]
        invariant |grown| <= MaxEvents ==> |events| == |grown|
        invariant |grown| > MaxEvents ==> |events| >= MaxEvents
        decreases |events|
      {
        events := events[..|events| - 1];
      }
    }

    /** `recentEvents`: a copy of the log, newest first. */
    method RecentEvents() returns (r: seq<ConsoleEvent>)
      requires Valid()
      ensures r == events && |r| <= MaxEvents
    {
      r := events;
    }
  }
}
