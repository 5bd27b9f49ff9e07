/** The order-identity protocol behind reconciliation.

A client remembers, per role ("key"), the id of the broker order that stands behind it. The
broker is unreliable: orders fill or vanish on their own, and the client process can die
between any two calls. `Event` lists everything that can happen, `Enabled` says when the client
is allowed to act (and what the broker promises in return), `Apply` says what it does to the world.
The lemmas hold of every finite run of such events, including runs that are cut off and restarted.
*/
module OrderProtocol {
  type Key = string
  type OrderId = string

  datatype World = World(
    live: set<OrderId>,         // this client's orders still resting at the broker, by id
    role: map<OrderId, Key>,    // every id the broker ever returned, with the key it was placed for
    gone: set<OrderId>,         // ids whose cancel returned, or that a replace superseded
    ids: map<Key, OrderId>,     // the map in memory
    saved: map<Key, OrderId>,   // the map in the state store
    lost: set<OrderId>,         // orders that were in flight when a process died
    unnamed: multiset<Key>,     // live orders the broker returned no id for, by the key they were placed for
    nameless: multiset<Key>     // all of those there ever were
  )

  datatype Event =
    | Drifted(left: set<OrderId>, quiet: multiset<Key>)   // orders, named or not, filled, expired or cancelled by hand
    | Cancelled(id: OrderId)                             // a cancel call returned
    | Forgot(key: Key)                                   // the key was dropped from the map
    | Placed(key: Key, id: OrderId)                      // a submit returned an id, and it was recorded
    | PlacedUnnamed(key: Key)                            // a submit was accepted without an id
    | Replaced(key: Key, prev: OrderId, id: OrderId)      // a replace returned an id, and it was recorded
    | ReplacedUnnamed(key: Key, prev: OrderId)            // a replace returned an empty id
    | Persisted                                          // the map was written to the store
    | Restarted                                          // a pass began from the store, cleanly or after a crash

  // A map entry that names an order. Entries with an empty id are skipped when a pass starts.
  function NonEmpty(m: map<Key, OrderId>): map<Key, OrderId> {
    map k | k in m && m[k] != "" :: m[k]
  }

  // The order `id` stands in `m` under the key it was placed for.
  ghost predicate Holds(m: map<Key, OrderId>, role: map<OrderId, Key>, id: OrderId) {
    id in role && role[id] in m && m[role[id]] == id
  }

  // Every live order, except those an earlier crash already lost, is in the store.
  ghost predicate Covered(w: World) {
    forall id :: id in w.live && id !in w.lost ==> Holds(w.saved, w.role, id)
  }

  // The entry for `key`, if there is one, names no order that may still be live.
  ghost predicate Released(w: World, key: Key) {
    key in w.ids ==> w.ids[key] == "" || w.ids[key] in w.gone
  }

  ghost predicate Enabled(w: World, e: Event) {
    match e
    case Drifted(_, _) => true
    case Cancelled(id) => id in w.role
    case Forgot(key) => Released(w, key)
    case Placed(key, id) => id != "" && id !in w.role && Released(w, key) && Covered(w)
    case PlacedUnnamed(key) => Released(w, key) && Covered(w)
    case Replaced(key, prev, id) =>
      && key in w.ids && w.ids[key] == prev && prev in w.live && Covered(w)
      && (id == prev || (id != "" && id !in w.role))
    case ReplacedUnnamed(key, prev) => key in w.ids && w.ids[key] == prev && prev in w.live && Covered(w)
    case Persisted => true
    case Restarted => true
  }

  ghost function Apply(w: World, e: Event): World {
    match e
    case Drifted(left, quiet) => w.(live := w.live - left, unnamed := w.unnamed - quiet)
    case Cancelled(id) => w.(live := w.live - {id}, gone := w.gone + {id})
    case Forgot(key) => w.(ids := w.ids - {key})
    case Placed(key, id) => w.(live := w.live + {id}, role := w.role[id := key], ids := w.ids[key := id])
    case PlacedUnnamed(key) => Nameless(w, key)
    case Replaced(key, prev, id) =>
      if id == prev then w
      else w.(live := w.live - {prev} + {id}, gone := w.gone + {prev},
              role := w.role[id := key], ids := w.ids[key := id])
    case ReplacedUnnamed(key, prev) =>
      Nameless(w, key).(live := w.live - {prev}, gone := w.gone + {prev}, ids := w.ids[key := ""])
    case Persisted => w.(saved := w.ids)
    case Restarted => w.(ids := NonEmpty(w.saved), lost := w.lost + Unsaved(w))
  }

  // One more live order without an id.
  ghost function Nameless(w: World, key: Key): World {
    w.(unnamed := w.unnamed + multiset{key}, nameless := w.nameless + multiset{key})
  }

  // The live orders a process that died now would lose.
  ghost function Unsaved(w: World): set<OrderId> {
    set id | id in w.live && id !in w.lost && !Holds(w.saved, w.role, id)
  }

  ghost function Run(w: World, es: seq<Event>): World {
    if es == [] then w else Apply(Run(w, es[..|es| - 1]), es[|es| - 1])
  }

  ghost predicate ValidRun(w: World, es: seq<Event>) {
    es == [] || (ValidRun(w, es[..|es| - 1]) && Enabled(Run(w, es[..|es| - 1]), es[|es| - 1]))
  }

  // A map names each order only under the key it was placed for, and never a lost order.
  ghost predicate Consistent(w: World, m: map<Key, OrderId>) {
    forall k :: k in m && m[k] != "" ==> m[k] in w.role && w.role[m[k]] == k && m[k] !in w.lost
  }

  ghost predicate Inv(w: World) {
    && "" !in w.role
    && w.live <= w.role.Keys && w.gone <= w.role.Keys && w.lost <= w.role.Keys
    && w.live !! w.gone && w.unnamed <= w.nameless
    && Consistent(w, w.ids) && Consistent(w, w.saved)
    // Every live order is tracked in memory under its own key...
    && (forall id :: id in w.live && id !in w.lost ==> Holds(w.ids, w.role, id))
    // ...and at most one of them is not yet in the store.
    && (forall a, b :: a in Unsaved(w) && b in Unsaved(w) ==> a == b)
    // A stored id that is not confirmed gone is still the one in memory.
    && (forall k :: k in w.saved && w.saved[k] != "" && w.saved[k] !in w.gone ==> k in w.ids && w.ids[k] == w.saved[k])
  }

  ghost const NOTHING_YET := World({}, map[], {}, map[], map[], {}, multiset{}, multiset{})

  type SoundWorld = w: World | Inv(w) ghost witness NOTHING_YET

  lemma PlacedKeepsInv(w: World, key: Key, id: OrderId)
    requires Inv(w) && Enabled(w, Placed(key, id))
    ensures Inv(Apply(w, Placed(key, id)))
  {
    var v := Apply(w, Placed(key, id));
    forall x | x in v.live && x !in v.lost
      ensures Holds(v.ids, v.role, x)
      ensures x != id ==> Holds(v.saved, v.role, x)
    {
      if x != id {
        assert x in w.live && Holds(w.ids, w.role, x) && Holds(w.saved, w.role, x);
      }
    }
  }

  lemma ReplacedKeepsInv(w: World, key: Key, prev: OrderId, id: OrderId)
    requires Inv(w) && Enabled(w, Replaced(key, prev, id))
    ensures Inv(Apply(w, Replaced(key, prev, id)))
  {
    var v := Apply(w, Replaced(key, prev, id));
    assert Holds(w.ids, w.role, prev) by { assert w.ids[key] == prev; }
    forall x | x in v.live && x !in v.lost
      ensures Holds(v.ids, v.role, x)
      ensures x != id ==> Holds(v.saved, v.role, x)
    {
      if x != id {
        assert x in w.live && Holds(w.ids, w.role, x) && Holds(w.saved, w.role, x);
      }
    }
  }

  lemma ReplacedUnnamedKeepsInv(w: World, key: Key, prev: OrderId)
    requires Inv(w) && Enabled(w, ReplacedUnnamed(key, prev))
    ensures Inv(Apply(w, ReplacedUnnamed(key, prev)))
  {
    var v := Apply(w, ReplacedUnnamed(key, prev));
    forall x | x in v.live && x !in v.lost
      ensures Holds(v.ids, v.role, x) && Holds(v.saved, v.role, x)
    {
      assert x in w.live && Holds(w.ids, w.role, x) && Holds(w.saved, w.role, x);
    }
  }

  lemma RestartedKeepsInv(w: World)
    requires Inv(w)
    ensures Inv(Apply(w, Restarted))
  {
    var v := Apply(w, Restarted);
    forall x | x in v.live && x !in v.lost
      ensures Holds(v.ids, v.role, x) && Holds(v.saved, v.role, x)
    {
      assert x in w.live && x !in Unsaved(w);
    }
  }

  lemma ForgotKeepsInv(w: World, key: Key)
    requires Inv(w) && Enabled(w, Forgot(key))
    ensures Inv(Apply(w, Forgot(key)))
  {
    var v := Apply(w, Forgot(key));
    assert Unsaved(v) == Unsaved(w);
    forall x | x in v.live && x !in v.lost
      ensures Holds(v.ids, v.role, x)
    {
      assert Holds(w.ids, w.role, x);
    }
  }

  lemma DriftedKeepsInv(w: World, left: set<OrderId>, quiet: multiset<Key>)
    requires Inv(w)
    ensures Inv(Apply(w, Drifted(left, quiet)))
  {
    var v := Apply(w, Drifted(left, quiet));
    assert forall x :: x in Unsaved(v) ==> x in Unsaved(w);
  }

  lemma CancelledKeepsInv(w: World, id: OrderId)
    requires Inv(w) && Enabled(w, Cancelled(id))
    ensures Inv(Apply(w, Cancelled(id)))
  {
    var v := Apply(w, Cancelled(id));
    assert forall x :: x in Unsaved(v) ==> x in Unsaved(w);
  }

  lemma PlacedUnnamedKeepsInv(w: World, key: Key)
    requires Inv(w)
    ensures Inv(Apply(w, PlacedUnnamed(key)))
  {
    assert Unsaved(Apply(w, PlacedUnnamed(key))) == Unsaved(w);
  }

  lemma PersistedKeepsInv(w: World)
    requires Inv(w)
    ensures Inv(Apply(w, Persisted))
  {
  }

  lemma InvStep(w: World, e: Event)
    requires Inv(w) && Enabled(w, e)
    ensures Inv(Apply(w, e))
  {
    match e
    case Drifted(left, quiet) => DriftedKeepsInv(w, left, quiet);
    case Cancelled(id) => CancelledKeepsInv(w, id);
    case Forgot(key) => ForgotKeepsInv(w, key);
    case Placed(key, id) => PlacedKeepsInv(w, key, id);
    case PlacedUnnamed(key) => PlacedUnnamedKeepsInv(w, key);
    case Replaced(key, prev, id) => ReplacedKeepsInv(w, key, prev, id);
    case ReplacedUnnamed(key, prev) => ReplacedUnnamedKeepsInv(w, key, prev);
    case Persisted => PersistedKeepsInv(w);
    case Restarted => RestartedKeepsInv(w);
  }

  /** Safety over whole runs: whatever fills, fails, dies or restarts, every state keeps the invariant. */
  lemma {:induction false} RunKeepsInv(w: World, es: seq<Event>)
    requires Inv(w) && ValidRun(w, es)
    ensures Inv(Run(w, es))
  {
    if es != [] {
      RunKeepsInv(w, es[..|es| - 1]);
      InvStep(Run(w, es[..|es| - 1]), es[|es| - 1]);
    }
  }

  /** A run cut off after any number of events is itself a run. */
  lemma {:induction false} CutOffIsRun(w: World, es: seq<Event>, i: nat)
    requires ValidRun(w, es) && i <= |es|
    ensures ValidRun(w, es[..i])
  {
    if i < |es| {
      CutOffIsRun(w, es[..|es| - 1], i);
      assert es[..|es| - 1][..i] == es[..i];
    } else {
      assert es[..i] == es;
    }
  }

  /** Cut a run off anywhere: no two live orders, other than those lost to earlier crashes, are
      missing from the store, and none is missing from the map in memory. */
  lemma AtMostOneInFlight(w: World, es: seq<Event>, i: nat, a: OrderId, b: OrderId)
    requires Inv(w) && ValidRun(w, es) && i <= |es|
    requires var v := Run(w, es[..i]); a in v.live && b in v.live && a !in v.lost && b !in v.lost && a != b
    ensures var v := Run(w, es[..i]);
            && (Holds(v.saved, v.role, a) || Holds(v.saved, v.role, b))
            && Holds(v.ids, v.role, a) && Holds(v.ids, v.role, b)
            && v.role[a] != v.role[b]
  {
    CutOffIsRun(w, es, i);
    RunKeepsInv(w, es[..i]);
    var v := Run(w, es[..i]);
    assert !(a in Unsaved(v) && b in Unsaved(v));
  }

  function Restarts(es: seq<Event>): nat {
    if es == [] then 0 else Restarts(es[..|es| - 1]) + if es[|es| - 1].Restarted? then 1 else 0
  }

  /** Each death of the process can lose at most one order: the one in flight. */
  lemma {:induction false} LostAtMostOnePerRestart(w: World, es: seq<Event>)
    requires Inv(w) && ValidRun(w, es)
    ensures |Run(w, es).lost| <= |w.lost| + Restarts(es)
  {
    if es != [] {
      var v := Run(w, es[..|es| - 1]);
      LostAtMostOnePerRestart(w, es[..|es| - 1]);
      RunKeepsInv(w, es[..|es| - 1]);
      if es[|es| - 1].Restarted? {
        AtMostOneElement(Unsaved(v));
        assert |v.lost + Unsaved(v)| <= |v.lost| + |Unsaved(v)|;
      }
    }
  }

  lemma AtMostOneElement<T>(s: set<T>)
    requires forall a, b :: a in s && b in s ==> a == b
    ensures |s| <= 1
  {
    if s != {} {
      var x :| x in s;
      assert s == {x};
    }
  }

  // Passes that were never cut short: each one starts from the map the previous one left.
  ghost predicate Uninterrupted(w: World, es: seq<Event>) {
    forall i :: 0 <= i < |es| && es[i].Restarted? ==> var v := Run(w, es[..i]); v.saved == v.ids
  }

  /** Over any number of uninterrupted passes nothing is ever orphaned: every live order is in the
      map, under its own key, so no key has two. */
  lemma UninterruptedLosesNothing(w: World, es: seq<Event>)
    requires Inv(w) && w.lost == {} && ValidRun(w, es) && Uninterrupted(w, es)
    ensures var v := Run(w, es);
            && v.lost == {}
            && (forall id :: id in v.live ==> Holds(v.ids, v.role, id))
            && (forall a, b :: a in v.live && b in v.live && v.role[a] == v.role[b] ==> a == b)
  {
    UninterruptedLosesNone(w, es);
    RunKeepsInv(w, es);
    TrackedUnderOwnKey(Run(w, es));
  }

  lemma UninterruptedBefore(w: World, es: seq<Event>)
    requires es != [] && Uninterrupted(w, es)
    ensures Uninterrupted(w, es[..|es| - 1])
    ensures es[|es| - 1].Restarted? ==> var v := Run(w, es[..|es| - 1]); v.saved == v.ids
  {
    var prior := es[..|es| - 1];
    forall i | 0 <= i < |prior| && prior[i].Restarted?
      ensures var v := Run(w, prior[..i]); v.saved == v.ids
    {
      assert prior[..i] == es[..i];
    }
  }

  lemma CleanRestart(v: World)
    requires Inv(v) && v.saved == v.ids
    ensures Unsaved(v) == {}
  {
  }

  lemma {:induction false} UninterruptedLosesNone(w: World, es: seq<Event>)
    requires Inv(w) && w.lost == {} && ValidRun(w, es) && Uninterrupted(w, es)
    ensures Run(w, es).lost == {}
  {
    if es != [] {
      var prior := es[..|es| - 1];
      UninterruptedBefore(w, es);
      UninterruptedLosesNone(w, prior);
      if es[|es| - 1].Restarted? {
        RunKeepsInv(w, prior);
        CleanRestart(Run(w, prior));
      }
    }
  }

  lemma TrackedUnderOwnKey(v: World)
    requires Inv(v) && v.lost == {}
    ensures forall id :: id in v.live ==> Holds(v.ids, v.role, id)
    ensures forall a, b :: a in v.live && b in v.live && a in v.role && b in v.role && v.role[a] == v.role[b] ==> a == b
  {
  }

  // -- Orders without an id ------------------------------------------------------------------------

  // No key has two live orders, named or not.
  ghost predicate OneEach(w: World) {
    && (forall a, b :: a in w.live && b in w.live && a in w.role && b in w.role && w.role[a] == w.role[b] ==> a == b)
    && (forall k :: w.unnamed[k] <= 1)
    && (forall id :: id in w.live && id in w.role ==> w.unnamed[w.role[id]] == 0)
  }

  // An order is placed for a key that has a live one without an id.
  ghost predicate PlacesOver(w: World, e: Event) {
    match e
    case Placed(key, _) => w.unnamed[key] > 0
    case PlacedUnnamed(key) => w.unnamed[key] > 0
    case _ => false
  }

  lemma NothingNamed(w: World, key: Key)
    requires Inv(w) && w.lost == {} && Released(w, key)
    ensures forall id :: id in w.live ==> w.role[id] != key
  {
    forall id | id in w.live ensures w.role[id] != key {
      assert Holds(w.ids, w.role, id);
    }
  }

  // A fresh order under a key: it is alone exactly if none without an id is live.
  lemma OneEachPlaced(w: World, key: Key, id: OrderId)
    requires Inv(w) && w.lost == {} && Enabled(w, Placed(key, id)) && OneEach(w)
    ensures OneEach(Apply(w, Placed(key, id))) <==> w.unnamed[key] == 0
  {
    var v := Apply(w, Placed(key, id));
    NothingNamed(w, key);
    assert id in v.live && v.role[id] == key;
  }

  lemma OneEachPlacedUnnamed(w: World, key: Key)
    requires Inv(w) && w.lost == {} && Enabled(w, PlacedUnnamed(key)) && OneEach(w)
    ensures OneEach(Apply(w, PlacedUnnamed(key))) <==> w.unnamed[key] == 0
  {
    var v := Apply(w, PlacedUnnamed(key));
    NothingNamed(w, key);
    assert v.unnamed[key] == w.unnamed[key] + 1;
  }

  lemma OneEachReplaced(w: World, e: Event)
    requires Inv(w) && Enabled(w, e) && OneEach(w) && (e.Replaced? || e.ReplacedUnnamed?)
    ensures OneEach(Apply(w, e))
  {
    assert w.role[e.prev] == e.key && w.unnamed[e.key] == 0;
    assert e.prev in w.live;
  }

  lemma OneEachOtherwise(w: World, e: Event)
    requires Inv(w) && Enabled(w, e) && OneEach(w)
    requires e.Drifted? || e.Cancelled? || e.Forgot? || e.Persisted? || e.Restarted?
    ensures OneEach(Apply(w, e))
  {
    var v := Apply(w, e);
    assert v.live <= w.live && v.role == w.role;
    assert forall k :: v.unnamed[k] <= w.unnamed[k];
  }

  lemma OneEachStep(w: World, e: Event)
    requires Inv(w) && w.lost == {} && Enabled(w, e) && OneEach(w)
    ensures OneEach(Apply(w, e)) <==> !PlacesOver(w, e)
  {
    match e
    case Placed(key, id) => OneEachPlaced(w, key, id);
    case PlacedUnnamed(key) => OneEachPlacedUnnamed(w, key);
    case Replaced(_, _, _) => OneEachReplaced(w, e);
    case ReplacedUnnamed(_, _) => OneEachReplaced(w, e);
    case _ => OneEachOtherwise(w, e);
  }

  ghost predicate OneEachThroughout(w: World, es: seq<Event>) {
    OneEach(Run(w, es)) && (es == [] || OneEachThroughout(w, es[..|es| - 1]))
  }

  ghost predicate PlacedOver(w: World, es: seq<Event>) {
    es != [] && (PlacedOver(w, es[..|es| - 1]) || PlacesOver(Run(w, es[..|es| - 1]), es[|es| - 1]))
  }

  /** As long as no process dies with an order in flight, no key ever has two live orders, named or not, exactly
      when none was placed for a key that had a live one without an id. */
  lemma {:induction false} OneEachExactly(w: World, es: seq<Event>)
    requires Inv(w) && ValidRun(w, es) && Run(w, es).lost == {} && OneEach(w)
    ensures OneEachThroughout(w, es) <==> !PlacedOver(w, es)
  {
    if es != [] {
      var prior, e := es[..|es| - 1], es[|es| - 1];
      var v := Run(w, prior);
      assert v.lost <= Apply(v, e).lost;
      OneEachExactly(w, prior);
      RunKeepsInv(w, prior);
      if OneEachThroughout(w, prior) {
        OneEachStep(v, e);
      }
    }
  }

  // -- What a client can see of it -------------------------------------------------------------------

  // An order without an id came back for the key.
  predicate Unnames(e: Event, key: Key) { (e.PlacedUnnamed? || e.ReplacedUnnamed?) && e.key == key }

  predicate CameUnnamed(es: seq<Event>, key: Key) {
    es != [] && (CameUnnamed(es[..|es| - 1], key) || Unnames(es[|es| - 1], key))
  }

  // Some key is sent for after an order without an id came back for it.
  predicate SentAgain(es: seq<Event>) {
    es != [] && var e := es[|es| - 1];
    SentAgain(es[..|es| - 1]) || ((e.Placed? || e.PlacedUnnamed?) && CameUnnamed(es[..|es| - 1], e.key))
  }

  // The same run for all a client can tell: only which orders without an id have left differs.
  ghost predicate LooksLike(other: seq<Event>, es: seq<Event>) {
    |other| == |es| && forall i :: 0 <= i < |es| ==> Alike(other[i], es[i])
  }

  predicate Alike(d: Event, e: Event) { d == e || (d.Drifted? && e.Drifted? && d.left == e.left) }

  function Stay(e: Event): Event { if e.Drifted? then Drifted(e.left, multiset{}) else e }

  // The run in which none of them ever leaves.
  function AllStay(es: seq<Event>): seq<Event> { seq(|es|, i requires 0 <= i < |es| => Stay(es[i])) }

  lemma AllStayOneMore(w: World, es: seq<Event>)
    requires es != []
    ensures AllStay(es)[..|es| - 1] == AllStay(es[..|es| - 1])
    ensures Run(w, AllStay(es)) == Apply(Run(w, AllStay(es[..|es| - 1])), Stay(es[|es| - 1]))
  {
    assert AllStay(es)[..|es| - 1] == AllStay(es[..|es| - 1]);
  }

  lemma StayKeeps(v: World, e: Event, key: Key)
    ensures Apply(v, Stay(e)).unnamed[key] >= v.unnamed[key]
    ensures Unnames(e, key) ==> Apply(v, Stay(e)).unnamed[key] > 0
  {
  }

  lemma LooksLikeBefore(other: seq<Event>, es: seq<Event>)
    requires LooksLike(other, es) && es != []
    ensures LooksLike(other[..|other| - 1], es[..|es| - 1])
  {
  }

  lemma StepsAlike(u: World, v: World, d: Event, e: Event)
    requires u == v.(unnamed := u.unnamed) && Alike(d, e)
    ensures Enabled(u, d) <==> Enabled(v, e)
    ensures Apply(u, d) == Apply(v, e).(unnamed := Apply(u, d).unnamed)
  {
    assert Covered(u) <==> Covered(v);
    assert Unsaved(u) == Unsaved(v);
  }

  lemma {:induction false} RunsAlike(w: World, other: seq<Event>, es: seq<Event>)
    requires LooksLike(other, es)
    ensures ValidRun(w, other) <==> ValidRun(w, es)
    ensures Run(w, other) == Run(w, es).(unnamed := Run(w, other).unnamed)
  {
    if es != [] {
      var others, prior := other[..|other| - 1], es[..|es| - 1];
      LooksLikeBefore(other, es);
      RunsAlike(w, others, prior);
      StepsAlike(Run(w, others), Run(w, prior), other[|es| - 1], es[|es| - 1]);
    }
  }

  lemma {:induction false} LooksUnnamedAlike(other: seq<Event>, es: seq<Event>, key: Key)
    requires LooksLike(other, es)
    ensures CameUnnamed(other, key) <==> CameUnnamed(es, key)
  {
    if es != [] {
      LooksLikeBefore(other, es);
      LooksUnnamedAlike(other[..|other| - 1], es[..|es| - 1], key);
    }
  }

  lemma {:induction false} LooksSentAlike(other: seq<Event>, es: seq<Event>)
    requires LooksLike(other, es)
    ensures SentAgain(other) <==> SentAgain(es)
  {
    if es != [] {
      LooksLikeBefore(other, es);
      LooksSentAlike(other[..|other| - 1], es[..|es| - 1]);
      var e := es[|es| - 1];
      if e.Placed? || e.PlacedUnnamed? { LooksUnnamedAlike(other[..|other| - 1], es[..|es| - 1], e.key); }
    }
  }

  lemma {:induction false} UnnamedCame(w: World, es: seq<Event>, key: Key)
    requires w.unnamed == multiset{} && Run(w, es).unnamed[key] > 0
    ensures CameUnnamed(es, key)
  {
    if Run(w, es[..|es| - 1]).unnamed[key] > 0 {
      UnnamedCame(w, es[..|es| - 1], key);
    }
  }

  lemma {:induction false} UnnamedStays(w: World, es: seq<Event>, key: Key)
    requires CameUnnamed(es, key)
    ensures Run(w, AllStay(es)).unnamed[key] > 0
  {
    var prior := es[..|es| - 1];
    AllStayOneMore(w, es);
    StayKeeps(Run(w, AllStay(prior)), es[|es| - 1], key);
    if CameUnnamed(prior, key) {
      UnnamedStays(w, prior, key);
    }
  }

  lemma {:induction false} PlacedOverIsSentAgain(w: World, es: seq<Event>)
    requires w.unnamed == multiset{} && PlacedOver(w, es)
    ensures SentAgain(es)
  {
    var prior, e := es[..|es| - 1], es[|es| - 1];
    if PlacedOver(w, prior) {
      PlacedOverIsSentAgain(w, prior);
    } else {
      UnnamedCame(w, prior, e.key);
    }
  }

  lemma {:induction false} SentAgainCanBePlacedOver(w: World, es: seq<Event>)
    requires SentAgain(es)
    ensures PlacedOver(w, AllStay(es))
  {
    var prior, e := es[..|es| - 1], es[|es| - 1];
    AllStayOneMore(w, es);
    if SentAgain(prior) {
      SentAgainCanBePlacedOver(w, prior);
    } else {
      UnnamedStays(w, prior, e.key);
    }
  }

  /** Whichever orders without an id may have left unseen, no key ever has two live orders, if and only if no key is
      sent for again after one came back for it: a client can tell from its own reports. */
  lemma OneEachWhateverLeft(w: World, es: seq<Event>)
    requires Inv(w) && ValidRun(w, es) && Run(w, es).lost == {} && OneEach(w) && w.unnamed == multiset{}
    ensures (forall other :: LooksLike(other, es) ==> OneEachThroughout(w, other)) <==> !SentAgain(es)
  {
    if SentAgain(es) {
      var other := AllStay(es);
      SentAgainCanBePlacedOver(w, es);
      RunsAlike(w, other, es);
      OneEachExactly(w, other);
    } else {
      forall other | LooksLike(other, es) ensures OneEachThroughout(w, other) {
        LooksSentAlike(other, es);
        RunsAlike(w, other, es);
        OneEachExactly(w, other);
        if PlacedOver(w, other) { PlacedOverIsSentAgain(w, other); }
      }
    }
  }

  lemma OneMoreEvent(w: World, es: seq<Event>, e: Event)
    ensures Run(w, es + [e]) == Apply(Run(w, es), e)
    ensures ValidRun(w, es + [e]) <==> ValidRun(w, es) && Enabled(Run(w, es), e)
    ensures PlacedOver(w, es + [e]) <==> PlacedOver(w, es) || PlacesOver(Run(w, es), e)
  {
    assert (es + [e])[..|es|] == es;
  }

  // A key is placed; its order comes back from a replace without an id; and the next pass places it again.
  ghost function PlacedTwice(key: Key, first: OrderId, second: OrderId): seq<Event> {
    [Placed(key, first)] + [Persisted] + [ReplacedUnnamed(key, first)] + [Persisted] + [Restarted]
      + [Placed(key, second)]
  }

  /** That happens without any crash: two live orders stand behind one key, one of them out of reach. */
  lemma ReplacedUnnamedIsDoubled(key: Key, first: OrderId, second: OrderId)
    requires first != "" && second != "" && first != second
    ensures var es := PlacedTwice(key, first, second); var v := Run(NOTHING_YET, es);
            && ValidRun(NOTHING_YET, es) && PlacedOver(NOTHING_YET, es) && v.lost == {}
            && v.live == {second} && v.role[second] == key && v.unnamed == multiset{key}
  {
    var w := NOTHING_YET;
    OneMoreEvent(w, [], Placed(key, first));
    assert [] + [Placed(key, first)] == [Placed(key, first)];
    var u := World({first}, map[first := key], {}, map[key := first], map[], {}, multiset{}, multiset{});
    assert Apply(w, Placed(key, first)) == u;
    var a := [Placed(key, first)];
    OneMoreEvent(w, a, Persisted);
    var b := a + [Persisted];
    AfterTheFirst(u, key, first, b);
    var c := b + [ReplacedUnnamed(key, first)];
    OneMoreEvent(w, c, Persisted);
    var d := c + [Persisted];
    OneMoreEvent(w, d, Restarted);
    var x := World({}, map[first := key], {first}, map[key := ""], map[key := ""], {}, multiset{key}, multiset{key});
    assert Run(w, d) == x;
    assert Unsaved(x) == {} && NonEmpty(x.saved) == map[];
    OneMoreEvent(w, d + [Restarted], Placed(key, second));
  }

  lemma AfterTheFirst(u: World, key: Key, first: OrderId, b: seq<Event>)
    requires u == World({first}, map[first := key], {}, map[key := first], map[], {}, multiset{}, multiset{})
    requires ValidRun(NOTHING_YET, b) && Run(NOTHING_YET, b) == u.(saved := u.ids) && first != ""
    ensures var c := b + [ReplacedUnnamed(key, first)];
            ValidRun(NOTHING_YET, c)
            && Run(NOTHING_YET, c) == World({}, map[first := key], {first}, map[key := ""], map[key := first], {},
              multiset{key}, multiset{key})
  {
    OneMoreEvent(NOTHING_YET, b, ReplacedUnnamed(key, first));
  }

  // What confirms that an order is gone: its cancel returned, or a replace took its place.
  predicate Confirms(e: Event, id: OrderId) {
    || (e.Cancelled? && e.id == id)
    || (e.Replaced? && e.prev == id && e.id != id)
    || (e.ReplacedUnnamed? && e.prev == id)
  }

  /** An id is confirmed gone only by an event that confirms it. */
  lemma {:induction false} GoneMeansConfirmed(w: World, es: seq<Event>, id: OrderId)
    requires id !in w.gone && id in Run(w, es).gone
    ensures exists i :: 0 <= i < |es| && Confirms(es[i], id)
  {
    var prior := es[..|es| - 1];
    if id in Run(w, prior).gone {
      GoneMeansConfirmed(w, prior, id);
      var i :| 0 <= i < |prior| && Confirms(prior[i], id);
      assert Confirms(es[i], id);
    } else {
      assert Confirms(es[|es| - 1], id);
    }
  }

  /** No id ever leaves the stored map unless its cancel returned or a replace superseded it. */
  lemma {:induction false} StoredIdLeavesOnlyConfirmed(w: World, es: seq<Event>, key: Key)
    requires Inv(w) && ValidRun(w, es)
    requires key in w.saved && w.saved[key] != "" && w.saved[key] !in w.gone
    ensures var v := Run(w, es);
            || (key in v.saved && v.saved[key] == w.saved[key])
            || (exists i :: 0 <= i < |es| && Confirms(es[i], w.saved[key]))
  {
    if es != [] {
      var prior := es[..|es| - 1];
      var id, u, v := w.saved[key], Run(w, prior), Run(w, es);
      RunKeepsInv(w, prior);
      if id in u.gone {
        GoneMeansConfirmed(w, prior, id);
        var i :| 0 <= i < |prior| && Confirms(prior[i], id);
        assert Confirms(es[i], id);
      } else {
        StoredIdLeavesOnlyConfirmed(w, prior, key);
        if exists i :: 0 <= i < |prior| && Confirms(prior[i], id) {
          var i :| 0 <= i < |prior| && Confirms(prior[i], id);
          assert Confirms(es[i], id);
        }
      }
    }
  }
}
