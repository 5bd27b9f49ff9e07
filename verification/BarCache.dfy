/** The read-through bar cache of one provider, symbol and resolution. */
module BarCache {
  import opened Wrappers
  import opened Integers

  type Stamp = int
  datatype Bar = Bar(open: real, high: real, low: real, close: real, volume: real)
  type Frame = map<Stamp, Bar>
  type Gap = (Stamp, Stamp)

  // What a provider returns for a span.
  type Provider = (Stamp, Stamp) -> Frame

  // A request in absolute terms: its end never lies past the frontier of complete bars.
  datatype Window = Window(start: Stamp, end: Stamp, interval: int, frontier: Stamp)

  // The durable store, and the earliest bar the provider is believed to have.
  datatype Cache = Cache(store: Frame, horizon: Option<Stamp>)

  // -- Frames --------------------------------------------------------------------------------

  ghost function Pick<T>(s: set<T>): (x: T)
    requires s != {}
    ensures x in s
  {
    var x :| x in s; x
  }

  lemma {:induction false} NewestExists(s: set<Stamp>)
    requires s != {}
    ensures exists m :: m in s && forall x :: x in s ==> x <= m
  {
    var y := Pick(s);
    if s - {y} != {} {
      NewestExists(s - {y});
      var m :| m in s - {y} && forall x :: x in s - {y} ==> x <= m;
      assert forall x :: x in s ==> x == y || x in s - {y};
      assert if y > m then forall x :: x in s ==> x <= y else forall x :: x in s ==> x <= m;
    } else {
      assert forall x :: x in s ==> x == y || x in s - {y};
      assert forall x :: x in s ==> x <= y;
    }
  }

  lemma {:induction false} OldestExists(s: set<Stamp>)
    requires s != {}
    ensures exists m :: m in s && forall x :: x in s ==> m <= x
  {
    var y := Pick(s);
    if s - {y} != {} {
      OldestExists(s - {y});
      var m :| m in s - {y} && forall x :: x in s - {y} ==> m <= x;
      assert forall x :: x in s ==> x == y || x in s - {y};
      assert if y < m then forall x :: x in s ==> y <= x else forall x :: x in s ==> m <= x;
    } else {
      assert forall x :: x in s ==> x == y || x in s - {y};
      assert forall x :: x in s ==> y <= x;
    }
  }

  function Newest(s: set<Stamp>): (m: Stamp)
    requires s != {}
    ensures m in s && forall x :: x in s ==> x <= m
  {
    NewestExists(s);
    var m :| m in s && forall x :: x in s ==> x <= m;
    m
  }

  function Oldest(s: set<Stamp>): (m: Stamp)
    requires s != {}
    ensures m in s && forall x :: x in s ==> m <= x
  {
    OldestExists(s);
    var m :| m in s && forall x :: x in s ==> m <= x;
    m
  }

  function Between(frame: Frame, start: Stamp, end: Stamp): Frame {
    map t | t in frame && start <= t <= end :: frame[t]
  }

  // The newest `n` stamps.
  function NewestOf(s: set<Stamp>, n: nat): set<Stamp>
    decreases n
  {
    if n == 0 || s == {} then {} else NewestOf(s - {Newest(s)}, n - 1) + {Newest(s)}
  }

  function Tail(frame: Frame, n: nat): Frame { map t | t in frame.Keys * NewestOf(frame.Keys, n) :: frame[t] }

  /** The tail keeps the newest stamps, no more than asked for, and drops none it has room for. */
  lemma {:induction false} TailKeepsNewest(s: set<Stamp>, n: nat)
    ensures var tail := NewestOf(s, n);
            && tail <= s && |tail| == (if n < |s| then n else |s|)
            && forall t, u :: t in tail && u in s && u !in tail ==> u < t
    decreases n
  {
    if n > 0 && s != {} {
      var top := Newest(s);
      TailKeepsNewest(s - {top}, n - 1);
      assert |s - {top}| == |s| - 1 && top !in NewestOf(s - {top}, n - 1);
    }
  }

  // -- Asking -----------------------------------------------------------------------------------

  // How far back it is worth asking.
  function Reach(w: Window, horizon: Option<Stamp>): Stamp { Greatest(w.start, horizon.GetOr(w.start)) }

  function LeadingGap(held: Frame, w: Window, horizon: Option<Stamp>): seq<Gap>
    requires held != map[]
  {
    var earliest := Oldest(held.Keys);
    if earliest - Reach(w, horizon) > w.interval then [(Reach(w, horizon), earliest)] else []
  }

  function TrailingGap(held: Frame, w: Window): seq<Gap>
    requires held != map[]
  {
    var latest := Newest(held.Keys);
    if latest < w.frontier then [(latest, Least(w.end, w.frontier))] else []
  }

  function MissingRanges(held: Frame, w: Window, horizon: Option<Stamp>): seq<Gap> {
    if Least(w.end, w.frontier) <= w.start then []
    else if held == map[] then [(w.start, Least(w.end, w.frontier))]
    else LeadingGap(held, w, horizon) + TrailingGap(held, w)
  }

  // What one fetched gap does to the store, the horizon and the frame being put together.
  function Learned(held: Frame, gap: Gap, horizon: Option<Stamp>): Option<Stamp> {
    var frontier := if held == map[] then gap.1 else Newest(held.Keys);
    if gap.0 < frontier && held != map[] && Oldest(held.Keys) > gap.0 then Some(Oldest(held.Keys)) else horizon
  }

  datatype Progress = Progress(cache: Cache, held: Frame)

  function Fetched(p: Progress, gap: Gap, provider: Provider): Progress {
    var frame := provider(gap.0, gap.1);
    Progress(Cache(p.cache.store + frame, Learned(p.held + frame, gap, p.cache.horizon)), p.held + frame)
  }

  function FetchAll(p: Progress, gaps: seq<Gap>, provider: Provider): Progress {
    if gaps == [] then p else Fetched(FetchAll(p, gaps[..|gaps| - 1], provider), gaps[|gaps| - 1], provider)
  }

  function Held(c: Cache, w: Window, force: bool): Frame { if force then map[] else Between(c.store, w.start, w.end) }

  function Asked(c: Cache, w: Window, force: bool): seq<Gap> {
    if force then [(w.start, w.end)] else MissingRanges(Held(c, w, force), w, c.horizon)
  }

  function Answer(c: Cache, w: Window, force: bool, provider: Provider): Progress {
    FetchAll(Progress(c, Held(c, w, force)), Asked(c, w, force), provider)
  }

  class Store {
    var bars: Frame
    var horizon: Option<Stamp>

    ghost function Abstract(): Cache reads this { Cache(bars, horizon) }

    constructor ()
      ensures Abstract() == Cache(map[], None)
    {
      bars, horizon := map[], None;
    }

    method FindGaps(held: Frame, w: Window) returns (gaps: seq<Gap>)
      ensures gaps == MissingRanges(held, w, horizon)
    {
      var end := Least(w.end, w.frontier);
      if end <= w.start {
        return [];
      }
      if held == map[] {
        return [(w.start, end)];
      }
      gaps := [];
      var reach := Reach(w, horizon);
      if Oldest(held.Keys) - reach > w.interval {
        gaps := gaps + [(reach, Oldest(held.Keys))];
      }
      if Newest(held.Keys) < w.frontier {
        gaps := gaps + [(Newest(held.Keys), end)];
      }
    }

    // What the provider answers for one gap goes into the store first, and is then handed on.
    method FetchRange(gap: Gap, provider: Provider) returns (frame: Frame)
      modifies this`bars
      ensures frame == provider(gap.0, gap.1) && bars == old(bars) + frame
    {
      frame := provider(gap.0, gap.1);
      if frame != map[] {
        bars := bars + frame;
      }
      assert bars == old(bars) + frame;
    }

    method RecordHorizon(held: Frame, gap: Gap)
      modifies this`horizon
      ensures horizon == Learned(held, gap, old(horizon))
    {
      var frontier := if held == map[] then gap.1 else Newest(held.Keys);
      if gap.0 < frontier && held != map[] && Oldest(held.Keys) > gap.0 {
        horizon := Some(Oldest(held.Keys));
      }
    }

    /** Bars of one window, from the store where it can answer and from the provider where it cannot. */
    method Bars(w: Window, force: bool, lookback: nat, provider: Provider) returns (frame: Frame)
      modifies this
      ensures Abstract() == Answer(old(Abstract()), w, force, provider).cache
      ensures var held := Answer(old(Abstract()), w, force, provider).held;
              frame == if lookback > 0 then Tail(held, lookback) else held
    {
      var held := if force then map[] else Between(bars, w.start, w.end);
      var gaps := [(w.start, w.end)];
      if !force {
        gaps := FindGaps(held, w);
      }
      ghost var first := Progress(Abstract(), held);
      for i := 0 to |gaps|
        invariant Progress(Abstract(), held) == FetchAll(first, gaps[..i], provider)
      {
        assert gaps[..i + 1][..i] == gaps[..i];
        var fetched := FetchRange(gaps[i], provider);
        held := held + fetched;
        RecordHorizon(held, gaps[i]);
      }
      assert gaps[..|gaps|] == gaps;
      frame := if lookback > 0 then Tail(held, lookback) else held;
    }
  }

  // -- Against a direct fetch --------------------------------------------------------------------

  // The bars a market prints, at least one interval apart.
  ghost predicate Spaced(history: Frame, interval: int) {
    interval > 0 && forall t, u :: t in history && u in history && t < u ==> u - t >= interval
  }

  // A provider serves, of the history, every bar that lies in a span as a whole and none that ends outside it.
  ghost predicate Serves(provider: Provider, history: Frame, interval: int) {
    forall a, b :: ServesSpan(provider(a, b), a, b, history, interval)
  }

  ghost predicate ServesSpan(frame: Frame, a: Stamp, b: Stamp, history: Frame, interval: int) {
    && (forall t :: t in frame ==> t in history && a <= t <= b && frame[t] == history[t])
    && (forall t :: t in history && a + interval <= t <= b ==> t in frame)
  }

  // The store holds exactly the history over one span, and the horizon is a bar it holds.
  ghost predicate Sound(c: Cache, history: Frame) {
    && PartOf(c.store, history) && Contiguous(c.store, history)
    && (c.horizon.Some? ==> c.horizon.value in c.store)
  }

  ghost predicate PartOf(frame: Frame, history: Frame) {
    forall t :: t in frame ==> t in history && frame[t] == history[t]
  }

  ghost predicate Contiguous(store: Frame, history: Frame) {
    forall t, a, b :: t in history && a in store && b in store && a <= t <= b ==> t in store
  }

  // The window and what is stored have something to do with each other.
  ghost predicate Meets(store: Frame, w: Window) {
    store == map[] || exists a, b :: a in store && b in store && a <= w.end && w.start <= b
  }

  // Bars are requested of the past only.
  predicate Past(w: Window) { w.end <= w.frontier }

  /** At most two gaps are asked for, in order, without overlap, and inside the window. */
  lemma GapsAreTheEdges(c: Cache, w: Window)
    requires Past(w) && w.interval > 0
    ensures var gaps := Asked(c, w, false);
            && |gaps| <= 2
            && (forall g :: g in gaps ==> w.start <= g.0 <= g.1 <= w.end)
            && (|gaps| == 2 ==> gaps[0].1 <= gaps[1].0)
  {
  }

  // A fetch adds bars of one span to a store that reaches into it.
  lemma Extends(store: Frame, frame: Frame, a: Stamp, b: Stamp, history: Frame, interval: int)
    requires Spaced(history, interval) && PartOf(store, history) && Contiguous(store, history)
    requires ServesSpan(frame, a, b, history, interval)
    requires store == map[] || exists x, y :: x in store && y in store && x <= b && a <= y
    ensures PartOf(store + frame, history) && Contiguous(store + frame, history)
  {
    forall t, lo, hi | t in history && lo in store + frame && hi in store + frame && lo <= t <= hi
      ensures t in store + frame
    {
      if t !in store {
        if store == map[] {
          InSpan(frame, lo, t, a, b, history, interval);
        } else {
          var x, y :| x in store && y in store && x <= b && a <= y;
          OutsideStore(store, t, x, y, history);
          if lo in frame {
            InSpan(frame, lo, t, a, b, history, interval);
          }
        }
      }
    }
  }

  // Anything after a served bar and inside the span is served.
  lemma InSpan(frame: Frame, lo: Stamp, t: Stamp, a: Stamp, b: Stamp, history: Frame, interval: int)
    requires Spaced(history, interval) && ServesSpan(frame, a, b, history, interval)
    requires lo in frame && t in history && lo <= t
    ensures t <= b ==> t in frame
  {
  }

  lemma OutsideStore(store: Frame, t: Stamp, x: Stamp, y: Stamp, history: Frame)
    requires Contiguous(store, history) && t in history && t !in store && x in store && y in store
    ensures (t < x && t < y) || (x < t && y < t)
  {
  }

  // A request in progress: the store is sound, and what is held is what it holds of the window.
  ghost predicate Going(p: Progress, w: Window, history: Frame) {
    Sound(p.cache, history) && p.held == Between(p.cache.store, w.start, w.end)
  }

  lemma HeldOfBoth(store: Frame, frame: Frame, start: Stamp, end: Stamp)
    requires forall t :: t in frame ==> start <= t <= end
    ensures Between(store, start, end) + frame == Between(store + frame, start, end)
  {
  }

  lemma LearnedIsStored(held: Frame, gap: Gap, horizon: Option<Stamp>, store: Frame)
    requires (forall t :: t in held ==> t in store) && (horizon.Some? ==> horizon.value in store)
    ensures Learned(held, gap, horizon).Some? ==> Learned(held, gap, horizon).value in store
  {
  }

  lemma FetchKeeps(p: Progress, gap: Gap, w: Window, provider: Provider, history: Frame)
    requires Spaced(history, w.interval) && Serves(provider, history, w.interval) && Going(p, w, history)
    requires w.start <= gap.0 && gap.1 <= w.end
    requires p.cache.store == map[]
             || exists x, y :: x in p.cache.store && y in p.cache.store && x <= gap.1 && gap.0 <= y
    ensures Going(Fetched(p, gap, provider), w, history)
  {
    var frame := provider(gap.0, gap.1);
    assert ServesSpan(frame, gap.0, gap.1, history, w.interval);
    Extends(p.cache.store, frame, gap.0, gap.1, history, w.interval);
    HeldOfBoth(p.cache.store, frame, w.start, w.end);
    LearnedIsStored(p.held + frame, gap, p.cache.horizon, p.cache.store + frame);
  }

  lemma FetchesUnrolled(p: Progress, first: Gap, second: Gap, provider: Provider)
    ensures FetchAll(p, [], provider) == p
    ensures FetchAll(p, [first], provider) == Fetched(p, first, provider)
    ensures FetchAll(p, [first, second], provider) == Fetched(Fetched(p, first, provider), second, provider)
  {
    assert [first][..0] == [] && [first, second][..1] == [first];
  }

  // What was held of a window that is asked for without force.
  ghost predicate Warm(c: Cache, w: Window, force: bool) { Held(c, w, force) != map[] && w.start < w.end }

  // A cold or forced request is one fetch of the whole window.
  lemma ColdAnswer(c: Cache, w: Window, provider: Provider, history: Frame)
    requires Past(w) && Spaced(history, w.interval) && Serves(provider, history, w.interval)
    requires Sound(c, history) && Meets(c.store, w) && Held(c, w, false) == map[] && w.start < w.end
    ensures Answer(c, w, false, provider) == Fetched(Progress(c, map[]), (w.start, w.end), provider)
    ensures Going(Answer(c, w, false, provider), w, history)
  {
    var p := Progress(c, map[]);
    FetchesUnrolled(p, (w.start, w.end), (w.start, w.end), provider);
    FetchKeeps(p, (w.start, w.end), w, provider, history);
  }

  lemma {:induction false} FetchesInTwo(p: Progress, first: seq<Gap>, second: seq<Gap>, provider: Provider)
    ensures FetchAll(p, first + second, provider) == FetchAll(FetchAll(p, first, provider), second, provider)
  {
    if second == [] {
      assert first + second == first;
    } else {
      assert (first + second)[..|first + second| - 1] == first + second[..|second| - 1];
      FetchesInTwo(p, first, second[..|second| - 1], provider);
    }
  }

  // A warm request after its leading edge was fetched, where that is missing.
  function Led(c: Cache, w: Window, provider: Provider): Progress
    requires Held(c, w, false) != map[]
  {
    FetchAll(Progress(c, Held(c, w, false)), LeadingGap(Held(c, w, false), w, c.horizon), provider)
  }

  lemma LedGoing(c: Cache, w: Window, provider: Provider, history: Frame)
    requires Spaced(history, w.interval) && Serves(provider, history, w.interval)
    requires Sound(c, history) && Warm(c, w, false)
    ensures Going(Led(c, w, provider), w, history) && Newest(Held(c, w, false).Keys) in Led(c, w, provider).held
    ensures var gap := (Reach(w, c.horizon), Oldest(Held(c, w, false).Keys));
            Led(c, w, provider)
            == if gap.1 - gap.0 > w.interval then Fetched(Progress(c, Held(c, w, false)), gap, provider)
              else Progress(c, Held(c, w, false))
  {
    var held, first := Held(c, w, false), Progress(c, Held(c, w, false));
    var front := (Reach(w, c.horizon), Oldest(held.Keys));
    assert front.1 in held && front.1 in c.store;
    FetchesUnrolled(first, front, front, provider);
    if LeadingGap(held, w, c.horizon) != [] { FetchKeeps(first, front, w, provider, history); }
  }

  // A warm request fetches the leading edge, then the trailing edge, where there are such gaps.
  lemma WarmFetches(c: Cache, w: Window, provider: Provider)
    requires Past(w) && Warm(c, w, false)
    ensures var led, latest := Led(c, w, provider), Newest(Held(c, w, false).Keys);
            Answer(c, w, false, provider) == if latest < w.frontier then Fetched(led, (latest, w.end), provider)
              else led
  {
    var held, led := Held(c, w, false), Led(c, w, provider);
    var back := (Newest(held.Keys), w.end);
    FetchesInTwo(Progress(c, held), LeadingGap(held, w, c.horizon), TrailingGap(held, w), provider);
    FetchesUnrolled(led, back, back, provider);
  }

  lemma WarmAnswer(c: Cache, w: Window, provider: Provider, history: Frame)
    requires Past(w) && Spaced(history, w.interval) && Serves(provider, history, w.interval)
    requires Sound(c, history) && Warm(c, w, false)
    ensures var led, latest := Led(c, w, provider), Newest(Held(c, w, false).Keys);
            && Answer(c, w, false, provider)
              == (if latest < w.frontier then Fetched(led, (latest, w.end), provider) else led)
            && Going(Answer(c, w, false, provider), w, history)
  {
    WarmFetches(c, w, provider);
    LedGoing(c, w, provider, history);
    TrailGoing(Led(c, w, provider), (Newest(Held(c, w, false).Keys), w.end), w, provider, history);
  }

  lemma TrailGoing(led: Progress, back: Gap, w: Window, provider: Provider, history: Frame)
    requires Spaced(history, w.interval) && Serves(provider, history, w.interval) && Going(led, w, history)
    requires back.0 in led.held && back.1 == w.end
    ensures Going(Fetched(led, back, provider), w, history)
  {
    assert back.0 in led.cache.store;
    FetchKeeps(led, back, w, provider, history);
  }

  /** Every request leaves the store exactly the history over one span. */
  lemma AnswerKeepsSound(c: Cache, w: Window, force: bool, provider: Provider, history: Frame)
    requires Past(w) && Spaced(history, w.interval) && Serves(provider, history, w.interval)
    requires Sound(c, history) && Meets(c.store, w)
    ensures var a := Answer(c, w, force, provider); Sound(a.cache, history) && PartOf(a.held, history)
  {
    var p, whole := Progress(c, Held(c, w, force)), (w.start, w.end);
    FetchesUnrolled(p, whole, whole, provider);
    if force {
      var frame := provider(w.start, w.end);
      assert ServesSpan(frame, w.start, w.end, history, w.interval);
      Extends(c.store, frame, w.start, w.end, history, w.interval);
    } else if w.start >= w.end {
    } else if Warm(c, w, force) {
      WarmAnswer(c, w, provider, history);
    } else {
      ColdAnswer(c, w, provider, history);
    }
  }

  datatype Request = Request(window: Window, force: bool)

  // Any number of requests, one after the other.
  function Served(c: Cache, requests: seq<Request>, provider: Provider): Cache {
    if requests == [] then c
    else
      var last := requests[|requests| - 1];
      Answer(Served(c, requests[..|requests| - 1], provider), last.window, last.force, provider).cache
  }

  // Every window meets what is stored by then, and asks of the past only.
  ghost predicate Meeting(c: Cache, requests: seq<Request>, provider: Provider, interval: int) {
    requests == []
    || (var init, last := requests[..|requests| - 1], requests[|requests| - 1];
        && Meeting(c, init, provider, interval)
        && last.window.interval == interval && Past(last.window) && Meets(Served(c, init, provider).store, last.window))
  }

  /** Over any run of requests, of any windows and lookbacks, the store stays exactly the history over one
      span. */
  lemma {:induction false} RequestsKeepSound(c: Cache, requests: seq<Request>, provider: Provider, history: Frame,
                                             interval: int)
    requires Sound(c, history) && Spaced(history, interval) && Serves(provider, history, interval)
    requires Meeting(c, requests, provider, interval)
    ensures Sound(Served(c, requests, provider), history)
  {
    if requests != [] {
      var init, last := requests[..|requests| - 1], requests[|requests| - 1];
      RequestsKeepSound(c, init, provider, history, interval);
      AnswerKeepsSound(Served(c, init, provider), last.window, last.force, provider, history);
    }
  }

  // A bar the cache can be expected to answer with: a fresh request, or one no older than the horizon.
  ghost predicate Known(c: Cache, w: Window, force: bool, t: Stamp) {
    force || !Warm(c, w, force) || t >= c.horizon.GetOr(t) || t in c.store
  }

  lemma WarmKnown(c: Cache, w: Window, provider: Provider, history: Frame, t: Stamp)
    requires Past(w) && Spaced(history, w.interval) && Serves(provider, history, w.interval)
    requires Sound(c, history) && Warm(c, w, false)
    requires t in history && w.start + w.interval <= t <= w.end && Known(c, w, false, t)
    ensures t in Answer(c, w, false, provider).held
  {
    var held, led := Held(c, w, false), Led(c, w, provider);
    var earliest, latest := Oldest(held.Keys), Newest(held.Keys);
    WarmAnswer(c, w, provider, history);
    LedGoing(c, w, provider, history);
    assert earliest in c.store && latest in c.store;
    if t in held {
    } else if t < earliest {
      BeforeTheEarliest(c, w, history, t);
      assert ServesSpan(provider(Reach(w, c.horizon), earliest), Reach(w, c.horizon), earliest, history, w.interval);
    } else {
      OutsideStore(c.store, t, earliest, latest, history);
      assert ServesSpan(provider(latest, w.end), latest, w.end, history, w.interval);
    }
  }

  // A known bar that is older than what is held lies in a gap worth asking for.
  lemma BeforeTheEarliest(c: Cache, w: Window, history: Frame, t: Stamp)
    requires Spaced(history, w.interval) && Sound(c, history) && Warm(c, w, false)
    requires t in history && w.start + w.interval <= t <= w.end && Known(c, w, false, t)
    requires t < Oldest(Held(c, w, false).Keys)
    ensures Reach(w, c.horizon) + w.interval <= t && Oldest(Held(c, w, false).Keys) - Reach(w, c.horizon) > w.interval
  {
    var earliest := Oldest(Held(c, w, false).Keys);
    assert earliest in c.store && t !in c.store by {
      if t in c.store { StoredIsHeld(c, w, t); }
    }
  }

  lemma WarmUnknown(c: Cache, w: Window, provider: Provider, history: Frame, t: Stamp)
    requires Past(w) && Spaced(history, w.interval) && Serves(provider, history, w.interval)
    requires Sound(c, history) && Warm(c, w, false)
    requires t in history && !Known(c, w, false, t)
    ensures t !in Answer(c, w, false, provider).held
  {
    var held := Held(c, w, false);
    WarmAnswer(c, w, provider, history);
    LedGoing(c, w, provider, history);
    var front, back := (Reach(w, c.horizon), Oldest(held.Keys)), (Newest(held.Keys), w.end);
    assert ServesSpan(provider(front.0, front.1), front.0, front.1, history, w.interval);
    assert ServesSpan(provider(back.0, back.1), back.0, back.1, history, w.interval);
    OutsideStore(c.store, t, c.horizon.value, Newest(held.Keys), history);
  }

  /** The cache agrees with a direct fetch, bar for bar, except for one thing: on a warm request it leaves
      out the bars that are older than the recorded horizon and not stored yet. */
  lemma AgreesWithDirectFetch(c: Cache, w: Window, force: bool, provider: Provider, history: Frame, t: Stamp)
    requires Past(w) && Spaced(history, w.interval) && Serves(provider, history, w.interval)
    requires Sound(c, history) && Meets(c.store, w)
    requires t in history && w.start + w.interval <= t <= w.end
    ensures t in Answer(c, w, force, provider).held <==> Known(c, w, force, t)
    ensures t in provider(w.start, w.end)
  {
    var p, whole := Progress(c, Held(c, w, force)), (w.start, w.end);
    assert ServesSpan(provider(w.start, w.end), w.start, w.end, history, w.interval);
    FetchesUnrolled(p, whole, whole, provider);
    if Warm(c, w, force) && !force {
      if Known(c, w, force, t) {
        WarmKnown(c, w, provider, history, t);
      } else {
        WarmUnknown(c, w, provider, history, t);
      }
    } else if !force {
      ColdAnswer(c, w, provider, history);
    }
  }

  lemma FetchedFromNothing(gap: Gap, provider: Provider)
    ensures var frame := provider(gap.0, gap.1);
            Fetched(Progress(Cache(map[], None), map[]), gap, provider)
              == Progress(Cache(frame, Learned(frame, gap, None)), frame)
  {
    assert map[] + provider(gap.0, gap.1) == provider(gap.0, gap.1);
  }

  lemma FirstLesson(frame: Frame, gap: Gap)
    requires frame != map[] && forall t :: t in frame ==> gap.0 < t
    ensures Learned(frame, gap, None) == Some(Oldest(frame.Keys)) && gap.0 < Oldest(frame.Keys)
  {
  }

  // What a provider serves of a window that some bar lies in, and none ends at the start of.
  lemma ServedInside(w: Window, provider: Provider, history: Frame, u: Stamp)
    requires Serves(provider, history, w.interval) && w.start !in history
    requires u in history && w.start + w.interval <= u <= w.end
    ensures var frame := provider(w.start, w.end); u in frame && forall t :: t in frame ==> w.start < t <= w.end
  {
    assert ServesSpan(provider(w.start, w.end), w.start, w.end, history, w.interval);
  }

  // After a first fetch, the store is what it brought, and the horizon the first bar of that.
  lemma FirstFetch(w: Window, provider: Provider, history: Frame)
    requires Past(w) && Spaced(history, w.interval) && Serves(provider, history, w.interval) && w.start < w.end
    requires w.start !in history && exists u :: u in history && w.start + w.interval <= u <= w.end
    ensures var after, frame := Answer(Cache(map[], None), w, false, provider).cache, provider(w.start, w.end);
            && frame != map[] && after == Cache(frame, Some(Oldest(frame.Keys)))
              && w.start < Oldest(frame.Keys) <= w.end
            && Sound(after, history)
  {
    var u :| u in history && w.start + w.interval <= u <= w.end;
    ServedInside(w, provider, history, u);
    ColdAnswer(Cache(map[], None), w, provider, history);
    FetchedFromNothing((w.start, w.end), provider);
    FirstLesson(provider(w.start, w.end), (w.start, w.end));
  }

  // A bar older than everything stored, with a horizon to stop at.
  ghost predicate Hides(c: Cache, t: Stamp) { c.horizon.Some? && forall u :: u in c.store ==> t < u }

  lemma FetchKeepsHiding(p: Progress, gap: Gap, provider: Provider, history: Frame, interval: int, t: Stamp)
    requires Serves(provider, history, interval) && Hides(p.cache, t) && t !in p.held && t < gap.0
    ensures Hides(Fetched(p, gap, provider).cache, t) && t !in Fetched(p, gap, provider).held
  {
    assert ServesSpan(provider(gap.0, gap.1), gap.0, gap.1, history, interval);
  }

  lemma StoredIsHeld(c: Cache, w: Window, u: Stamp)
    requires u in c.store && w.start <= u <= w.end
    ensures u in Held(c, w, false)
  {
  }

  // A window that meets the store without holding any of it starts after a stored bar.
  lemma ColdStartsLater(c: Cache, w: Window, t: Stamp)
    requires Hides(c, t) && c.store != map[] && Meets(c.store, w) && Held(c, w, false) == map[]
    ensures t < w.start
  {
    var a, b :| a in c.store && b in c.store && a <= w.end && w.start <= b;
    if a >= w.start { StoredIsHeld(c, w, a); }
  }

  /** A bar that is hidden stays hidden: a request that is not forced neither answers it nor stores it. */
  lemma HidingStays(c: Cache, w: Window, provider: Provider, history: Frame, t: Stamp)
    requires Past(w) && Spaced(history, w.interval) && Serves(provider, history, w.interval)
    requires Sound(c, history) && Meets(c.store, w) && Hides(c, t)
    ensures Hides(Answer(c, w, false, provider).cache, t) && t !in Answer(c, w, false, provider).held
  {
    var p := Progress(c, Held(c, w, false));
    FetchesUnrolled(p, (w.start, w.end), (w.start, w.end), provider);
    if w.start < w.end {
      if Warm(c, w, false) {
        WarmAnswer(c, w, provider, history);
        LedHides(c, w, provider, history, t);
        var latest := Newest(Held(c, w, false).Keys);
        if latest < w.frontier {
          FetchKeepsHiding(Led(c, w, provider), (latest, w.end), provider, history, w.interval, t);
        }
      } else {
        ColdAnswer(c, w, provider, history);
        ColdStartsLater(c, w, t);
        FetchKeepsHiding(Progress(c, map[]), (w.start, w.end), provider, history, w.interval, t);
      }
    }
  }

  lemma LedHides(c: Cache, w: Window, provider: Provider, history: Frame, t: Stamp)
    requires Spaced(history, w.interval) && Serves(provider, history, w.interval)
    requires Sound(c, history) && Warm(c, w, false) && Hides(c, t)
    ensures Hides(Led(c, w, provider).cache, t) && t !in Led(c, w, provider).held && t < Newest(Held(c, w, false).Keys)
  {
    var held, gap := Held(c, w, false), (Reach(w, c.horizon), Oldest(Held(c, w, false).Keys));
    LedGoing(c, w, provider, history);
    assert c.horizon.value in c.store && Newest(held.Keys) in c.store;
    if gap.1 - gap.0 > w.interval { FetchKeepsHiding(Progress(c, held), gap, provider, history, w.interval, t); }
  }

  lemma {:induction false} HidingStaysThroughout(c: Cache, requests: seq<Request>, provider: Provider,
                                                 history: Frame, interval: int, t: Stamp)
    requires Sound(c, history) && Spaced(history, interval) && Serves(provider, history, interval)
    requires Meeting(c, requests, provider, interval) && (forall r :: r in requests ==> !r.force) && Hides(c, t)
    ensures Hides(Served(c, requests, provider), t) && Sound(Served(c, requests, provider), history)
  {
    if requests != [] {
      var init, last := requests[..|requests| - 1], requests[|requests| - 1];
      assert last in requests && forall r :: r in init ==> r in requests;
      HidingStaysThroughout(c, init, provider, history, interval, t);
      HidingStays(Served(c, init, provider), last.window, provider, history, t);
      AnswerKeepsSound(Served(c, init, provider), last.window, last.force, provider, history);
    }
  }

  /** A first fetch takes the first bar of its own window for the earliest the provider has: after it, through
      any run of requests that are not forced, no lookback however long gets an older bar, although the provider
      would serve it. */
  lemma ShortFetchHidesOlderBars(short: Window, requests: seq<Request>, long: Window, provider: Provider,
                                 history: Frame, t: Stamp)
    requires Past(short) && Past(long) && short.interval == long.interval && short.start < short.end
    requires Spaced(history, short.interval) && Serves(provider, history, short.interval)
    requires short.start !in history && exists u :: u in history && short.start + short.interval <= u <= short.end
    requires t in history && long.start + long.interval <= t <= long.end && t < short.start
    requires var first := Answer(Cache(map[], None), short, false, provider).cache;
             && Meeting(first, requests, provider, short.interval) && (forall r :: r in requests ==> !r.force)
             && Meets(Served(first, requests, provider).store, long)
    ensures var first := Answer(Cache(map[], None), short, false, provider).cache;
            && t in provider(long.start, long.end)
            && t !in Answer(Served(first, requests, provider), long, false, provider).held
  {
    var first := Answer(Cache(map[], None), short, false, provider).cache;
    FirstFetch(short, provider, history);
    HidingStaysThroughout(first, requests, provider, history, short.interval, t);
    HidingStays(Served(first, requests, provider), long, provider, history, t);
    assert ServesSpan(provider(long.start, long.end), long.start, long.end, history, long.interval);
  }

  // -- No repeated work ------------------------------------------------------------------------

  // Nothing before what is held is worth asking for again.
  ghost predicate NoLead(p: Progress, w: Window) { p.held != map[] && LeadingGap(p.held, w, p.cache.horizon) == [] }

  lemma LeadSettled(p: Progress, gap: Gap, w: Window, provider: Provider, history: Frame)
    requires Serves(provider, history, w.interval) && w.interval > 0
    requires gap.0 == Reach(w, p.cache.horizon) && Fetched(p, gap, provider).held != map[]
    requires forall t :: t in p.held ==> gap.0 <= t
    requires gap.0 < Newest(Fetched(p, gap, provider).held.Keys)
    ensures NoLead(Fetched(p, gap, provider), w)
  {
    assert ServesSpan(provider(gap.0, gap.1), gap.0, gap.1, history, w.interval);
    assert Oldest(Fetched(p, gap, provider).held.Keys) >= gap.0;
  }

  lemma TrailKeepsLead(p: Progress, gap: Gap, w: Window, provider: Provider, history: Frame)
    requires Serves(provider, history, w.interval) && NoLead(p, w) && gap.0 in p.held
    ensures NoLead(Fetched(p, gap, provider), w)
  {
    assert ServesSpan(provider(gap.0, gap.1), gap.0, gap.1, history, w.interval);
    var q := Fetched(p, gap, provider);
    assert Oldest(p.held.Keys) in q.held && Oldest(q.held.Keys) in p.held + provider(gap.0, gap.1);
    assert Oldest(q.held.Keys) == Oldest(p.held.Keys);
  }

  lemma AnswerSettlesLead(c: Cache, w: Window, provider: Provider, history: Frame)
    requires Past(w) && Spaced(history, w.interval) && Serves(provider, history, w.interval)
    requires Sound(c, history) && Meets(c.store, w) && w.start < w.end
    requires exists u :: u in Answer(c, w, false, provider).held && w.start < u
    requires !Warm(c, w, false) ==> c.horizon.GetOr(w.start) <= w.start
    ensures NoLead(Answer(c, w, false, provider), w)
  {
    var first := Progress(c, Held(c, w, false));
    if Warm(c, w, false) {
      WarmAnswer(c, w, provider, history);
      LedGoing(c, w, provider, history);
      var held, led := first.held, Led(c, w, provider);
      if Oldest(held.Keys) - Reach(w, c.horizon) > w.interval {
        assert Oldest(held.Keys) in led.held;
        LeadSettled(first, (Reach(w, c.horizon), Oldest(held.Keys)), w, provider, history);
      }
      if Newest(held.Keys) < w.frontier {
        TrailKeepsLead(led, (Newest(held.Keys), w.end), w, provider, history);
      }
    } else {
      ColdAnswer(c, w, provider, history);
      LeadSettled(first, (w.start, w.end), w, provider, history);
    }
  }

  /** The same request again, once the newest complete bar has printed, asks the provider for nothing. */
  lemma AskedTwiceFetchedOnce(c: Cache, w: Window, provider: Provider, history: Frame)
    requires w.end == w.frontier && Spaced(history, w.interval) && Serves(provider, history, w.interval)
    requires Sound(c, history) && Meets(c.store, w) && (forall t :: t in c.store ==> t <= w.frontier)
    requires w.frontier in history && w.start + w.interval <= w.frontier
    requires !Warm(c, w, false) ==> c.horizon.GetOr(w.start) <= w.start
    ensures Asked(Answer(c, w, false, provider).cache, w, false) == []
  {
    var a := Answer(c, w, false, provider);
    AgreesWithDirectFetch(c, w, false, provider, history, w.frontier);
    AnswerSettlesLead(c, w, provider, history);
    AnswerGoing(c, w, provider, history);
    NothingMissing(a, w);
  }

  lemma AnswerGoing(c: Cache, w: Window, provider: Provider, history: Frame)
    requires Past(w) && Spaced(history, w.interval) && Serves(provider, history, w.interval)
    requires Sound(c, history) && Meets(c.store, w) && w.start < w.end
    ensures Going(Answer(c, w, false, provider), w, history)
  {
    if Warm(c, w, false) { WarmAnswer(c, w, provider, history); } else { ColdAnswer(c, w, provider, history); }
  }

  lemma NothingMissing(p: Progress, w: Window)
    requires NoLead(p, w) && w.frontier in p.held
    ensures MissingRanges(p.held, w, p.cache.horizon) == []
  {
  }
}
