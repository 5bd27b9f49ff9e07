/** A value computed in the background, at most one computation per key at a time. */
module LazyField {
  import opened Wrappers

  type Key = string
  type Instant = int

  datatype Entry = Entry(value: int, at: Instant)

  // One key: what is cached, whether a refresh is marked in flight, and what became of each refresh that was
  // started: about to be spawned, computing, done but not yet released, or never spawned because spawning failed.
  datatype Cell = Cell(value: Option<Entry>, inFlight: bool, queued: nat, computing: nat, landed: nat, stranded: nat)

  const EMPTY := Cell(None, false, 0, 0, 0, 0)

  // The steps of any number of callers and workers on one key, each under the lock or outside it.
  datatype Event =
    | Visited(now: Instant)
    | Reloaded
    | Invalidated
    | Spawned
    | SpawnFailed
    | Computed(entry: Entry)
    | ComputeFailed
    | Released
    | ForcedComputed(entry: Entry)
    | ForcedFailed

  predicate Stale(value: Option<Entry>, now: Instant, ttl: int) { value.None? || now - value.value.at > ttl }

  predicate Enabled(c: Cell, e: Event) {
    match e
    case Spawned => c.queued > 0
    case SpawnFailed => c.queued > 0
    case Computed(_) => c.computing > 0
    case ComputeFailed => c.computing > 0
    case Released => c.landed > 0
    case _ => true
  }

  // Marks the key and queues a refresh, unless one is in flight.
  function Started(c: Cell): Cell { if c.inFlight then c else c.(inFlight := true, queued := c.queued + 1) }

  function Apply(c: Cell, e: Event, ttl: int): Cell
    requires Enabled(c, e)
  {
    match e
    case Visited(now) => if Stale(c.value, now, ttl) then Started(c) else c
    case Reloaded => Started(c.(value := None))
    case Invalidated => c.(value := None)
    case Spawned => c.(queued := c.queued - 1, computing := c.computing + 1)
    case SpawnFailed => c.(queued := c.queued - 1, stranded := c.stranded + 1)
    case Computed(entry) => c.(value := Some(entry), computing := c.computing - 1, landed := c.landed + 1)
    case ComputeFailed => c.(computing := c.computing - 1, landed := c.landed + 1)
    case Released => c.(landed := c.landed - 1, inFlight := false)
    case ForcedComputed(entry) => c.(value := Some(entry))
    case ForcedFailed => c
  }

  datatype Snapshot = Snapshot(value: Option<Entry>, refreshing: bool)

  class Field {
    const ttl: int
    var values: map<Key, Entry>
    var inFlight: set<Key>
    // Where the refreshes of each key are, for the protocol only.
    ghost var cells: map<Key, Cell>

    ghost predicate Valid() reads this {
      && (forall k :: k in values || k in inFlight ==> k in cells)
      && forall k :: k in cells ==> cells[k].value == Cached(k) && (cells[k].inFlight <==> k in inFlight)
    }

    function Cached(k: Key): Option<Entry> reads this { if k in values then Some(values[k]) else None }

    ghost function Of(k: Key): Cell reads this { if k in cells then cells[k] else EMPTY }

    // One step on one key, and nothing on any other.
    twostate predicate Stepped(k: Key, e: Event) reads this {
      && Enabled(old(Of(k)), e) && Of(k) == Apply(old(Of(k)), e, ttl)
      && forall j :: j != k ==> Of(j) == old(Of(j))
    }

    constructor (ttl: int)
      ensures Valid() && this.ttl == ttl && forall k :: Of(k) == EMPTY
    {
      this.ttl := ttl;
      values, inFlight, cells := map[], {}, map[];
    }

    ghost method Note(k: Key, e: Event)
      requires Enabled(Of(k), e)
      modifies this`cells
      ensures cells == old(cells)[k := Apply(old(Of(k)), e, ttl)]
    {
      cells := cells[k := Apply(Of(k), e, ttl)];
    }

    /** A visit: what is cached, now, and whether this caller has to start a refresh. */
    method Visit(k: Key, now: Instant) returns (snapshot: Snapshot, start: bool)
      requires Valid()
      modifies this
      ensures Valid() && Stepped(k, Visited(now))
      ensures snapshot == Snapshot(old(Cached(k)), Of(k).inFlight)
      ensures start <==> !old(Of(k)).inFlight && Of(k).inFlight
      ensures start <==> k !in old(inFlight) && (k !in old(values) || now - old(values)[k].at > ttl)
      ensures values == old(values) && inFlight == if start then old(inFlight) + {k} else old(inFlight)
    {
      var stale := Stale(Cached(k), now, ttl);
      start := stale && k !in inFlight;
      snapshot := Snapshot(Cached(k), start || k in inFlight);
      if start {
        inFlight := inFlight + {k};
      }
      Note(k, Visited(now));
    }

    /** A reload: it always answers that a refresh is on its way, and starts one unless one is marked. */
    method Reload(k: Key) returns (snapshot: Snapshot, start: bool)
      requires Valid()
      modifies this
      ensures Valid() && Stepped(k, Reloaded)
      ensures snapshot == Snapshot(None, true) && (start <==> !old(Of(k)).inFlight)
    {
      snapshot := Snapshot(None, true);
      values := values - {k};
      start := k !in inFlight;
      if start {
        inFlight := inFlight + {k};
      }
      Note(k, Reloaded);
    }

    method Invalidate(k: Key)
      requires Valid()
      modifies this
      ensures Valid() && Stepped(k, Invalidated)
    {
      values := values - {k};
      Note(k, Invalidated);
    }

    /** The end of one computation, by a worker or by a caller that waits for it. */
    method ComputeDone(k: Key, result: Option<Entry>, forced: bool)
      requires Valid() && (forced || Of(k).computing > 0)
      modifies this
      ensures Valid()
      ensures Stepped(k, if result.None? then (if forced then ForcedFailed else ComputeFailed)
                         else if forced then ForcedComputed(result.value) else Computed(result.value))
    {
      if result.Some? {
        values := values[k := result.value];
        Note(k, if forced then ForcedComputed(result.value) else Computed(result.value));
      } else {
        Note(k, if forced then ForcedFailed else ComputeFailed);
      }
    }

    /** The background worker's last step, taken whatever happened before it. */
    method Release(k: Key)
      requires Valid() && Of(k).landed > 0
      modifies this
      ensures Valid() && Stepped(k, Released)
    {
      inFlight := inFlight - {k};
      Note(k, Released);
    }
  }

  // -- Runs ------------------------------------------------------------------------------------------

  // Where a run of steps leads from a cell, if every step can be taken.
  function Run(c: Cell, events: seq<Event>, ttl: int): Option<Cell> {
    if events == [] then Some(c)
    else
      match Run(c, events[..|events| - 1], ttl)
      case None => None
      case Some(d) => if Enabled(d, events[|events| - 1]) then Some(Apply(d, events[|events| - 1], ttl)) else None
  }

  // What a key can be like at all: where some run from the start leads.
  ghost predicate Reached(c: Cell, events: seq<Event>, ttl: int) { Run(EMPTY, events, ttl) == Some(c) }

  lemma OneMoreStep(c: Cell, events: seq<Event>, e: Event, ttl: int)
    ensures Run(c, events + [e], ttl)
            == match Run(c, events, ttl)
               case None => None
               case Some(d) => if Enabled(d, e) then Some(Apply(d, e, ttl)) else None
  {
    assert (events + [e])[..|events|] == events;
  }

  // Every refresh there is, wherever it has got to.
  function Refreshes(c: Cell): nat { c.queued + c.computing + c.landed + c.stranded }

  // Someone is working on the key, or about to.
  function Workers(c: Cell): nat { c.queued + c.computing + c.landed }

  lemma StepKeepsOne(c: Cell, e: Event, ttl: int)
    requires Enabled(c, e) && Refreshes(c) == if c.inFlight then 1 else 0
    ensures var d := Apply(c, e, ttl);
            && Refreshes(d) == (if d.inFlight then 1 else 0)
            && d.stranded == c.stranded + if e == SpawnFailed then 1 else 0
  {
  }

  /** At any time a key is marked in flight exactly while one refresh of it exists, and there is never a
      second one; a refresh that was never spawned is there from the failure on. */
  lemma {:induction false} OneRefreshInFlight(c: Cell, events: seq<Event>, ttl: int)
    requires Reached(c, events, ttl)
    ensures Refreshes(c) == (if c.inFlight then 1 else 0)
    ensures c.stranded > 0 <==> SpawnFailed in events
    decreases |events|
  {
    if events != [] {
      var init, last := events[..|events| - 1], events[|events| - 1];
      assert events == init + [last];
      var before := Run(EMPTY, init, ttl).value;
      OneRefreshInFlight(before, init, ttl);
      StepKeepsOne(before, last, ttl);
    }
  }

  /** A key that is marked has exactly one worker unless a spawn failed, and none, for good, if one did: a
      marked key is wedged exactly when a spawn failed. */
  lemma MarkedExactlyWhileWorked(c: Cell, events: seq<Event>, ttl: int)
    requires Reached(c, events, ttl)
    ensures SpawnFailed !in events ==> (c.inFlight <==> Workers(c) == 1) && Workers(c) <= 1
    ensures SpawnFailed in events <==> c.inFlight && Workers(c) == 0
  {
    OneRefreshInFlight(c, events, ttl);
  }

  function LandingOf(outcome: Option<Entry>): Event { if outcome.Some? then Computed(outcome.value) else ComputeFailed }

  // The steps the one refresh still has to take, if its computation fails or if it brings a result.
  function Remaining(c: Cell, outcome: Option<Entry>): seq<Event> {
    if c.queued > 0 then [Spawned] + [LandingOf(outcome)] + [Released]
    else if c.computing > 0 then [LandingOf(outcome)] + [Released]
    else if c.landed > 0 then [Released]
    else []
  }

  // Free again, with this in the cache.
  ghost predicate Free(after: Option<Cell>, value: Option<Entry>) {
    after.Some? && !after.value.inFlight && Refreshes(after.value) == 0 && after.value.value == value
  }

  /** No failed computation wedges a key: whatever happened before, unless a spawn failed, the refresh in
      flight can take its remaining steps and leaves the key free, with its result or with what was cached. */
  lemma NoComputeFailureWedges(c: Cell, events: seq<Event>, ttl: int, outcome: Option<Entry>)
    requires Reached(c, events, ttl) && SpawnFailed !in events
    ensures Free(Run(c, Remaining(c, outcome), ttl),
                 if (c.queued > 0 || c.computing > 0) && outcome.Some? then outcome else c.value)
  {
    OneRefreshInFlight(c, events, ttl);
    Drains(c, outcome, ttl);
  }

  lemma Drains(c: Cell, outcome: Option<Entry>, ttl: int)
    requires Refreshes(c) == (if c.inFlight then 1 else 0) && c.stranded == 0
    ensures Free(Run(c, Remaining(c, outcome), ttl),
                 if (c.queued > 0 || c.computing > 0) && outcome.Some? then outcome else c.value)
  {
    if c.queued > 0 {
      FromQueued(c, outcome, ttl);
    } else if c.computing > 0 {
      FromComputing(c, outcome, ttl);
    } else if c.landed > 0 {
      OneStep(c, Released, ttl);
    }
  }

  lemma OneStep(c: Cell, e: Event, ttl: int)
    requires Enabled(c, e)
    ensures Run(c, [e], ttl) == Some(Apply(c, e, ttl))
  {
    assert [e][..0] == [];
    assert Run(c, [], ttl) == Some(c);
  }

  lemma FromComputing(c: Cell, outcome: Option<Entry>, ttl: int)
    requires c.computing == 1 && Refreshes(c) == 1
    ensures Free(Run(c, [LandingOf(outcome)] + [Released], ttl), if outcome.Some? then outcome else c.value)
  {
    OneStep(c, LandingOf(outcome), ttl);
    OneMoreStep(c, [LandingOf(outcome)], Released, ttl);
  }

  lemma FromQueued(c: Cell, outcome: Option<Entry>, ttl: int)
    requires c.queued == 1 && Refreshes(c) == 1
    ensures Free(Run(c, [Spawned] + [LandingOf(outcome)] + [Released], ttl), if outcome.Some? then outcome else c.value)
  {
    OneStep(c, Spawned, ttl);
    OneMoreStep(c, [Spawned], LandingOf(outcome), ttl);
    OneMoreStep(c, [Spawned] + [LandingOf(outcome)], Released, ttl);
  }

  ghost predicate Wedged(c: Cell) { c.inFlight && Workers(c) == 0 }

  /** A failed spawn does: a key without a worker stays marked through every run that follows. */
  lemma {:induction false} WedgedForGood(c: Cell, more: seq<Event>, ttl: int)
    requires Wedged(c) && Run(c, more, ttl).Some?
    ensures Wedged(Run(c, more, ttl).value)
  {
    if more != [] {
      WedgedForGood(c, more[..|more| - 1], ttl);
    }
  }

  predicate Drops(e: Event) { e.Reloaded? || e.Invalidated? }

  function Brought(e: Event): Option<Entry> {
    match e
    case Computed(entry) => Some(entry)
    case ForcedComputed(entry) => Some(entry)
    case _ => None
  }

  // The result of the latest successful computation, unless the value was dropped since.
  function Latest(events: seq<Event>): Option<Entry> {
    if events == [] then None
    else
      var last := events[|events| - 1];
      if Drops(last) then None else if Brought(last).Some? then Brought(last) else Latest(events[..|events| - 1])
  }

  /** What is cached is the result of the latest computation to succeed since the value was last dropped: a
      failed one, background or forced, neither removes nor replaces it, and neither does anything else. */
  lemma {:induction false} FailuresKeepTheValue(c: Cell, events: seq<Event>, ttl: int)
    requires Reached(c, events, ttl)
    ensures c.value == Latest(events)
    decreases |events|
  {
    if events != [] {
      FailuresKeepTheValue(Run(EMPTY, events[..|events| - 1], ttl).value, events[..|events| - 1], ttl);
    }
  }

  // -- What answers a reload -----------------------------------------------------------------------------

  // Steps taken after a reload, up to the release of the refresh it finds or starts.
  ghost predicate UpToRelease(c: Cell, more: seq<Event>, ttl: int) {
    Run(Apply(c, Reloaded, ttl), more, ttl).Some? && Released !in more
  }

  // Among them the refresh brings its result, having started to compute after the reload, or before it.
  ghost predicate FilledAfresh(c: Cell, more: seq<Event>, ttl: int) {
    UpToRelease(c, more, ttl) && exists i :: 0 <= i < |more| && more[i].Computed? && Spawned in more[..i]
  }

  ghost predicate FilledByOlder(c: Cell, more: seq<Event>, ttl: int) {
    UpToRelease(c, more, ttl) && exists i :: 0 <= i < |more| && more[i].Computed? && Spawned !in more[..i]
  }

  lemma {:induction false} RunPrefix(c: Cell, more: seq<Event>, i: nat, ttl: int)
    requires Run(c, more, ttl).Some? && i < |more|
    ensures Run(c, more[..i], ttl).Some? && Enabled(Run(c, more[..i], ttl).value, more[i])
  {
    if i < |more| - 1 {
      var init := more[..|more| - 1];
      RunPrefix(c, init, i, ttl);
      assert init[..i] == more[..i];
    }
  }

  // What computes was spawned since, if it was not computing at first.
  lemma {:induction false} ComputingWasSpawned(c: Cell, more: seq<Event>, ttl: int)
    requires c.computing == 0 && Run(c, more, ttl).Some? && Run(c, more, ttl).value.computing > 0
    ensures Spawned in more
  {
    var init, last := more[..|more| - 1], more[|more| - 1];
    assert more == init + [last];
    if last != Spawned {
      ComputingWasSpawned(c, init, ttl);
    }
  }

  // Until it is released, a marked key queues nothing.
  lemma {:induction false} NothingQueued(c: Cell, more: seq<Event>, ttl: int)
    requires c.inFlight && c.queued == 0 && Run(c, more, ttl).Some? && Released !in more
    ensures Run(c, more, ttl).value.inFlight && Run(c, more, ttl).value.queued == 0 && Spawned !in more
    ensures c.computing == 0 ==> Run(c, more, ttl).value.computing == 0
  {
    if more != [] {
      var init, last := more[..|more| - 1], more[|more| - 1];
      assert more == init + [last];
      NothingQueued(c, init, ttl);
    }
  }

  lemma FilledBy(c: Cell, more: seq<Event>, i: nat, ttl: int)
    requires Refreshes(c) == (if c.inFlight then 1 else 0)
    requires UpToRelease(c, more, ttl) && i < |more| && more[i].Computed?
    ensures c.landed == 0 && c.stranded == 0 && (Spawned in more[..i] <==> c.computing == 0)
  {
    var after := Apply(c, Reloaded, ttl);
    RunPrefix(after, more, i, ttl);
    assert Released !in more[..i];
    if after.queued == 0 {
      NothingQueued(after, more[..i], ttl);
    }
    if after.computing == 0 {
      ComputingWasSpawned(after, more[..i], ttl);
    }
  }

  lemma ComputingFills(c: Cell, entry: Entry, ttl: int)
    requires c.computing > 0
    ensures FilledByOlder(c, [Computed(entry)], ttl)
  {
    OneStep(Apply(c, Reloaded, ttl), Computed(entry), ttl);
    var more := [Computed(entry)];
    assert more[0].Computed? && Spawned !in more[..0];
  }

  lemma QueuedFills(c: Cell, entry: Entry, ttl: int)
    requires Apply(c, Reloaded, ttl).queued > 0
    ensures FilledAfresh(c, [Spawned] + [Computed(entry)], ttl)
  {
    OneStep(Apply(c, Reloaded, ttl), Spawned, ttl);
    OneMoreStep(Apply(c, Reloaded, ttl), [Spawned], Computed(entry), ttl);
    var more := [Spawned] + [Computed(entry)];
    assert more[1].Computed? && more[..1] == [Spawned];
  }

  ghost predicate CanBeFilledAfresh(c: Cell, ttl: int) { exists more :: FilledAfresh(c, more, ttl) }
  ghost predicate CanBeFilledByOlder(c: Cell, ttl: int) { exists more :: FilledByOlder(c, more, ttl) }

  lemma AfreshMeans(c: Cell, more: seq<Event>, ttl: int)
    requires Refreshes(c) == (if c.inFlight then 1 else 0) && FilledAfresh(c, more, ttl)
    ensures c.computing == 0 && c.landed == 0 && c.stranded == 0
  {
    var i :| 0 <= i < |more| && more[i].Computed? && Spawned in more[..i];
    FilledBy(c, more, i, ttl);
  }

  lemma OlderMeans(c: Cell, more: seq<Event>, ttl: int)
    requires Refreshes(c) == (if c.inFlight then 1 else 0) && FilledByOlder(c, more, ttl)
    ensures c.computing > 0
  {
    var i :| 0 <= i < |more| && more[i].Computed? && Spawned !in more[..i];
    FilledBy(c, more, i, ttl);
  }

  lemma AfreshExactly(c: Cell, ttl: int)
    requires Refreshes(c) == if c.inFlight then 1 else 0
    ensures CanBeFilledAfresh(c, ttl) <==> c.computing == 0 && c.landed == 0 && c.stranded == 0
  {
    if CanBeFilledAfresh(c, ttl) {
      var more :| FilledAfresh(c, more, ttl);
      AfreshMeans(c, more, ttl);
    }
    if c.computing == 0 && c.landed == 0 && c.stranded == 0 {
      QueuedFills(c, Entry(0, 0), ttl);
    }
  }

  lemma OlderExactly(c: Cell, ttl: int)
    requires Refreshes(c) == if c.inFlight then 1 else 0
    ensures CanBeFilledByOlder(c, ttl) <==> c.computing > 0
  {
    if CanBeFilledByOlder(c, ttl) {
      var more :| FilledByOlder(c, more, ttl);
      OlderMeans(c, more, ttl);
    }
    if c.computing > 0 {
      ComputingFills(c, Entry(0, 0), ttl);
    }
  }

  /** What answers a reload depends on where the refresh stands. One that starts to compute after it can fill the
      key exactly when none is computing, done but not released, or stranded; one from before it can exactly when
      it is still computing; and nothing fills the key, up to the release, exactly when the refresh is done but
      not released, or stranded. */
  lemma ReloadAnswered(c: Cell, events: seq<Event>, ttl: int)
    requires Reached(c, events, ttl)
    ensures CanBeFilledAfresh(c, ttl) <==> c.computing == 0 && c.landed == 0 && c.stranded == 0
    ensures CanBeFilledByOlder(c, ttl) <==> c.computing > 0
    ensures !CanBeFilledAfresh(c, ttl) && !CanBeFilledByOlder(c, ttl) <==> c.landed > 0 || c.stranded > 0
  {
    OneRefreshInFlight(c, events, ttl);
    AfreshExactly(c, ttl);
    OlderExactly(c, ttl);
  }

  /** So a reload does not outrun a refresh already computing: what fills the key afterwards is a result that was
      asked for before it. */
  lemma ReloadTakesTheOlderResult(entry: Entry, ttl: int)
    ensures var computing := Cell(None, true, 0, 1, 0, 0);
            && Reached(computing, [Visited(0)] + [Spawned], ttl)
              && Reached(computing, [Visited(0)] + [Spawned] + [Reloaded], ttl)
            && Reached(computing.(value := Some(entry), computing := 0, landed := 1),
                       [Visited(0)] + [Spawned] + [Reloaded] + [Computed(entry)], ttl)
  {
    assert Run(EMPTY, [], ttl) == Some(EMPTY) && [] + [Visited(0)] == [Visited(0)];
    OneMoreStep(EMPTY, [], Visited(0), ttl);
    OneMoreStep(EMPTY, [Visited(0)], Spawned, ttl);
    OneMoreStep(EMPTY, [Visited(0)] + [Spawned], Reloaded, ttl);
    OneMoreStep(EMPTY, [Visited(0)] + [Spawned] + [Reloaded], Computed(entry), ttl);
  }

  /** And a reload between a worker's last write and its release is lost: the value is dropped, no refresh is
      started, and once the worker lets go the key is as if nobody had ever asked. */
  lemma ReloadIsLost(entry: Entry, ttl: int)
    ensures Reached(EMPTY, [Visited(0)] + [Spawned] + [Computed(entry)] + [Reloaded] + [Released], ttl)
  {
    assert Run(EMPTY, [], ttl) == Some(EMPTY) && [] + [Visited(0)] == [Visited(0)];
    OneMoreStep(EMPTY, [], Visited(0), ttl);
    OneMoreStep(EMPTY, [Visited(0)], Spawned, ttl);
    OneMoreStep(EMPTY, [Visited(0)] + [Spawned], Computed(entry), ttl);
    OneMoreStep(EMPTY, [Visited(0)] + [Spawned] + [Computed(entry)], Reloaded, ttl);
    OneMoreStep(EMPTY, [Visited(0)] + [Spawned] + [Computed(entry)] + [Reloaded], Released, ttl);
  }
}
