/** The loop that polls a schedule and runs each fire time until it succeeds or is given up on. */
module RunLoop {
  import opened Wrappers
  import opened Cron

  const MAX_RUN_ATTEMPTS := 3

  // A loop without a schedule runs under the manual key.
  datatype RunKey = Manual | FireAt(minute: Moment)

  datatype State = State(lastRunKey: RunKey, attempts: int, lastMissedKey: RunKey)

  const INITIAL := State(Manual, 0, Manual)

  // The key to run now, if one is owed.
  function Owed(s: State, fired: Option<Moment>): Option<RunKey> {
    match fired
    case None => None
    case Some(k) => if s.lastRunKey == FireAt(k) && s.attempts >= MAX_RUN_ATTEMPTS then None else Some(FireAt(k))
  }

  // An attempt is counted before it is made.
  function Started(s: State, key: RunKey): State {
    if key.Manual? then s
    else s.(attempts := if s.lastRunKey == key then s.attempts + 1 else 1, lastRunKey := key)
  }

  function Finished(s: State, key: RunKey, attempt: int, succeeded: bool): State {
    if succeeded then s.(attempts := MAX_RUN_ATTEMPTS)
    else if key.FireAt? && attempt >= MAX_RUN_ATTEMPTS then s.(lastMissedKey := key)
    else s
  }

  function Ran(s: State, key: RunKey, succeeded: bool): State {
    Finished(Started(s, key), key, Started(s, key).attempts, succeeded)
  }

  class RuntimeLoop {
    var running: bool
    var lastRunKey: RunKey
    var attempts: int
    var lastMissedKey: RunKey

    ghost function Abstract(): State reads this { State(lastRunKey, attempts, lastMissedKey) }

    constructor ()
      ensures !running && Abstract() == INITIAL
    {
      running, lastRunKey, attempts, lastMissedKey := false, Manual, 0, Manual;
    }

    method NextRunKey(scheduled: bool, fired: Option<Moment>) returns (key: Option<RunKey>)
      ensures key == if scheduled then Owed(Abstract(), fired) else Some(Manual)
    {
      if !scheduled {
        return Some(Manual);
      }
      if fired.None? || (lastRunKey == FireAt(fired.value) && attempts >= MAX_RUN_ATTEMPTS) {
        return None;
      }
      key := Some(FireAt(fired.value));
    }

    // Claims the loop for one run; refused while another is going on.
    method Start(key: RunKey) returns (attempt: Option<int>)
      modifies this
      ensures running && (attempt.None? <==> old(running))
      ensures Abstract() == if old(running) then old(Abstract()) else Started(old(Abstract()), key)
      ensures attempt.Some? ==> attempt.value == attempts
    {
      if running {
        return None;
      }
      running := true;
      if key.FireAt? {
        attempts := if lastRunKey == key then attempts + 1 else 1;
        lastRunKey := key;
      }
      attempt := Some(attempts);
    }

    method Finish(key: RunKey, attempt: int, succeeded: bool)
      requires running
      modifies this
      ensures !running && Abstract() == Finished(old(Abstract()), key, attempt, succeeded)
    {
      if succeeded {
        attempts := MAX_RUN_ATTEMPTS;
      } else if key.FireAt? && attempt >= MAX_RUN_ATTEMPTS {
        lastMissedKey := key;
      }
      running := false;
    }

    method RunGuarded(key: RunKey, succeeds: bool) returns (ran: bool)
      modifies this
      ensures ran == !old(running) && running == old(running)
      ensures Abstract() == if ran then Ran(old(Abstract()), key, succeeds) else old(Abstract())
    {
      var attempt := Start(key);
      if attempt.None? {
        return false;
      }
      Finish(key, attempt.value, succeeds);
      ran := true;
    }

    /** One turn of the loop; `succeeds` is how a run would end if one is made. */
    method Turn(enabled: bool, fired: Option<Moment>, succeeds: bool) returns (ran: Option<RunKey>)
      requires !running
      modifies this
      ensures !running
      ensures ran == if enabled then Owed(old(Abstract()), fired) else None
      ensures Abstract() == if ran.Some? then Ran(old(Abstract()), ran.value, succeeds) else old(Abstract())
    {
      ran := None;
      if enabled {
        ran := NextRunKey(true, fired);
        if ran.Some? {
          var started := RunGuarded(ran.value, succeeds);
        }
      }
    }

    /** A whole run of the loop over a fixed schedule: it makes exactly the attempts of `After`. */
    method Loop(spec: CronSpec, calendar: int -> Civil, polls: seq<Poll>) returns (made: seq<Attempt>)
      requires !running && Abstract() == INITIAL
      modifies this
      ensures !running && History(Abstract(), made) == After(Fires(spec, calendar), polls)
    {
      ghost var fires := Fires(spec, calendar);
      made := [];
      for i := 0 to |polls|
        invariant !running && History(Abstract(), made) == After(fires, polls[..i])
      {
        assert polls[..i + 1][..i] == polls[..i];
        var fired := CronFireKey(spec, calendar, polls[i].now, GRACE_MINUTES);
        var ran := Turn(polls[i].enabled, fired, polls[i].succeeds);
        if ran.Some? {
          made := made + [Attempt(fired.value, polls[i].now, polls[i].succeeds)];
        }
      }
      assert polls[..|polls|] == polls;
    }
  }

  // -- Whole runs ------------------------------------------------------------------------------

  // One turn of the loop: when it looks at the clock, whether it may run, and how a run would end.
  datatype Poll = Poll(now: Moment, enabled: bool, succeeds: bool)
  datatype Attempt = Attempt(key: Moment, now: Moment, succeeded: bool)
  datatype History = History(state: State, attempts: seq<Attempt>)

  function FiredAt(fires: Moment -> bool, now: Moment): Option<Moment> { LastFire(fires, now, GRACE_MINUTES) }

  function Next(h: History, p: Poll, fired: Option<Moment>): History {
    if !p.enabled || Owed(h.state, fired).None? then h
    else History(Ran(h.state, FireAt(fired.value), p.succeeds), h.attempts + [Attempt(fired.value, p.now, p.succeeds)])
  }

  function After(fires: Moment -> bool, polls: seq<Poll>): History {
    if polls == [] then History(INITIAL, [])
    else
      var last := polls[|polls| - 1];
      Next(After(fires, polls[..|polls| - 1]), last, FiredAt(fires, last.now))
  }

  // The clock never goes back.
  ghost predicate Forward(polls: seq<Poll>) {
    forall i, j :: 0 <= i < j < |polls| ==> polls[i].now <= polls[j].now
  }

  function Tries(attempts: seq<Attempt>, key: Moment): nat {
    if attempts == [] then 0
    else Tries(attempts[..|attempts| - 1], key) + if attempts[|attempts| - 1].key == key then 1 else 0
  }

  function Wins(attempts: seq<Attempt>, key: Moment): nat {
    if attempts == [] then 0
    else
      var last := attempts[|attempts| - 1];
      Wins(attempts[..|attempts| - 1], key) + if last.key == key && last.succeeded then 1 else 0
  }

  // What the state remembers of the attempts: the latest key, and how far it has got.
  ghost predicate Remembers(h: History) {
    && (h.state.lastRunKey.Manual? ==> h.attempts == [] && h.state.attempts == 0)
    && (forall k :: Within(h, k))
  }

  // No attempt is later than the one last made.
  ghost predicate LastIsLatest(h: History) {
    forall a :: a in h.attempts ==> h.state.lastRunKey.FireAt? && a.key <= h.state.lastRunKey.minute
  }

  ghost predicate Within(h: History, k: Moment) {
    && Tries(h.attempts, k) <= MAX_RUN_ATTEMPTS && Wins(h.attempts, k) <= 1
    && (h.state.lastRunKey == FireAt(k) ==>
          h.state.attempts == if Wins(h.attempts, k) == 1 then MAX_RUN_ATTEMPTS else Tries(h.attempts, k))
  }

  lemma {:induction false} NeverTried(attempts: seq<Attempt>, key: Moment)
    requires forall a :: a in attempts ==> a.key != key
    ensures Tries(attempts, key) == 0 && Wins(attempts, key) == 0
  {
    if attempts != [] {
      assert attempts[|attempts| - 1] in attempts;
      NeverTried(attempts[..|attempts| - 1], key);
    }
  }

  lemma OneMore(attempts: seq<Attempt>, a: Attempt, k: Moment)
    ensures Tries(attempts + [a], k) == Tries(attempts, k) + if a.key == k then 1 else 0
    ensures Wins(attempts + [a], k) == Wins(attempts, k) + if a.key == k && a.succeeded then 1 else 0
  {
    assert (attempts + [a])[..|attempts|] == attempts;
  }

  // A fire that is not the one last run was never tried.
  ghost predicate Unseen(h: History, fired: Option<Moment>) {
    fired.Some? && h.state.lastRunKey != FireAt(fired.value) ==> forall a :: a in h.attempts ==> a.key != fired.value
  }

  // One more attempt, at the key last run or at one never tried.
  lemma AttemptRemembers(h: History, key: Moment, now: Moment, succeeded: bool, k: Moment)
    requires Within(h, key) && Within(h, k) && Owed(h.state, Some(key)).Some?
    requires h.state.lastRunKey != FireAt(key) ==> Tries(h.attempts, key) == 0 && Wins(h.attempts, key) == 0
    ensures Within(History(Ran(h.state, FireAt(key), succeeded), h.attempts + [Attempt(key, now, succeeded)]), k)
  {
    OneMore(h.attempts, Attempt(key, now, succeeded), k);
  }

  // Then the next turn keeps what is remembered.
  lemma NextRemembers(h: History, p: Poll, fired: Option<Moment>)
    requires Remembers(h) && (p.enabled ==> Unseen(h, fired))
    ensures Remembers(Next(h, p, fired))
  {
    if p.enabled && Owed(h.state, fired).Some? {
      var key := fired.value;
      if h.state.lastRunKey != FireAt(key) {
        NeverTried(h.attempts, key);
      }
      assert Within(h, key);
      forall k ensures Within(Next(h, p, fired), k) {
        assert Within(h, k);
        AttemptRemembers(h, key, p.now, p.succeeds, k);
      }
    }
  }

  // -- The fires the enabled polls fall to -------------------------------------------------------------

  function Keys(fires: Moment -> bool, polls: seq<Poll>): seq<Moment> {
    if polls == [] then []
    else
      var rest, last := Keys(fires, polls[..|polls| - 1]), polls[|polls| - 1];
      match FiredAt(fires, last.now)
      case Some(k) => if last.enabled then rest + [k] else rest
      case None => rest
  }

  // A key comes back after a different one.
  ghost predicate Recurs(keys: seq<Moment>) {
    exists i, j, m :: 0 <= i < j < m < |keys| && keys[i] == keys[m] != keys[j]
  }

  /** The key last run is the key last polled, and only polled keys are tried. */
  lemma {:induction false} LastRunIsLastPolled(fires: Moment -> bool, polls: seq<Poll>)
    ensures var h, keys := After(fires, polls), Keys(fires, polls);
            && h.state.lastRunKey == (if keys == [] then Manual else FireAt(keys[|keys| - 1]))
            && forall a :: a in h.attempts ==> a.key in keys
  {
    if polls != [] {
      LastRunIsLastPolled(fires, polls[..|polls| - 1]);
    }
  }

  lemma RecursWithin(keys: seq<Moment>, more: seq<Moment>)
    requires Recurs(keys) && keys <= more
    ensures Recurs(more)
  {
    var i, j, m :| 0 <= i < j < m < |keys| && keys[i] == keys[m] != keys[j];
    assert more[i] == more[m] != more[j];
  }

  lemma ComesBack(keys: seq<Moment>, k: Moment)
    requires k in keys && keys[|keys| - 1] != k
    ensures Recurs(keys + [k])
  {
    var i :| 0 <= i < |keys| && keys[i] == k;
    var more := keys + [k];
    assert more[i] == more[|keys|] != more[|keys| - 1];
  }

  lemma NextIsUnseen(fires: Moment -> bool, polls: seq<Poll>)
    requires polls != [] && !Recurs(Keys(fires, polls)) && polls[|polls| - 1].enabled
    ensures Unseen(After(fires, polls[..|polls| - 1]), FiredAt(fires, polls[|polls| - 1].now))
  {
    var init, last := polls[..|polls| - 1], polls[|polls| - 1];
    var keys, fired := Keys(fires, init), FiredAt(fires, last.now);
    LastRunIsLastPolled(fires, init);
    if fired.Some? && keys != [] && fired.value in keys && keys[|keys| - 1] != fired.value {
      ComesBack(keys, fired.value);
    }
  }

  lemma {:induction false} LoopRemembers(fires: Moment -> bool, polls: seq<Poll>)
    requires !Recurs(Keys(fires, polls))
    ensures Remembers(After(fires, polls))
  {
    if polls == [] {
      forall k ensures Within(After(fires, polls), k) { NeverTried([], k); }
    } else {
      var init, last := polls[..|polls| - 1], polls[|polls| - 1];
      if Recurs(Keys(fires, init)) { RecursWithin(Keys(fires, init), Keys(fires, polls)); }
      LoopRemembers(fires, init);
      if last.enabled { NextIsUnseen(fires, polls); }
      NextRemembers(After(fires, init), last, FiredAt(fires, last.now));
    }
  }

  // -- A clock that never goes back ----------------------------------------------------------------------

  // Keys come in order.
  ghost predicate Rising(keys: seq<Moment>) { forall i, j :: 0 <= i < j < |keys| ==> keys[i] <= keys[j] }

  lemma {:induction false} KeysArePolled(fires: Moment -> bool, polls: seq<Poll>, k: Moment)
    requires k in Keys(fires, polls)
    ensures exists p :: p in polls && FiredAt(fires, p.now) == Some(k)
  {
    var init, last := polls[..|polls| - 1], polls[|polls| - 1];
    if k in Keys(fires, init) {
      KeysArePolled(fires, init, k);
      var p :| p in init && FiredAt(fires, p.now) == Some(k);
      assert p in polls;
    } else {
      assert last in polls;
    }
  }

  /** While the clock never goes back the keys rise, and so none comes back. */
  lemma {:induction false} ForwardKeysRise(fires: Moment -> bool, polls: seq<Poll>)
    requires Forward(polls)
    ensures Rising(Keys(fires, polls)) && !Recurs(Keys(fires, polls))
  {
    if polls != [] {
      var init, last := polls[..|polls| - 1], polls[|polls| - 1];
      ForwardKeysRise(fires, init);
      var keys, fired := Keys(fires, init), FiredAt(fires, last.now);
      if fired.Some? && last.enabled {
        forall k | k in keys ensures k <= fired.value {
          KeysArePolled(fires, init, k);
          var p :| p in init && FiredAt(fires, p.now) == Some(k);
          FireKeyMonotone(fires, p.now, last.now, GRACE_MINUTES);
        }
        RisesOn(keys, fired.value);
      }
    }
    RisingNeverRecurs(Keys(fires, polls));
  }

  lemma RisesOn(keys: seq<Moment>, k: Moment)
    requires Rising(keys) && forall x :: x in keys ==> x <= k
    ensures Rising(keys + [k])
  {
    assert forall i :: 0 <= i < |keys| ==> keys[i] in keys;
  }

  lemma RisingNeverRecurs(keys: seq<Moment>)
    requires Rising(keys)
    ensures !Recurs(keys)
  {
  }

  // The fire a poll falls to, if any, is no earlier than the one last run.
  ghost predicate NoEarlier(s: State, fired: Option<Moment>) {
    fired.Some? && s.lastRunKey.FireAt? ==> s.lastRunKey.minute <= fired.value
  }

  lemma LastAttemptIsLatest(fires: Moment -> bool, polls: seq<Poll>)
    requires Forward(polls)
    ensures LastIsLatest(After(fires, polls))
  {
    LastRunIsLastPolled(fires, polls);
    ForwardKeysRise(fires, polls);
  }

  lemma NextIsNoEarlier(fires: Moment -> bool, polls: seq<Poll>)
    requires polls != [] && Forward(polls)
    ensures NoEarlier(After(fires, polls[..|polls| - 1]).state, FiredAt(fires, polls[|polls| - 1].now))
  {
    var init, last := polls[..|polls| - 1], polls[|polls| - 1];
    LastRunIsLastPolled(fires, init);
    var keys, fired := Keys(fires, init), FiredAt(fires, last.now);
    if keys != [] && fired.Some? {
      KeysArePolled(fires, init, keys[|keys| - 1]);
      var p :| p in init && FiredAt(fires, p.now) == Some(keys[|keys| - 1]);
      FireKeyMonotone(fires, p.now, last.now, GRACE_MINUTES);
    }
  }

  /** Over a whole run, with a clock that never goes back, each fire time succeeds at most once and is
      attempted at most three times. */
  lemma AtMostOnce(fires: Moment -> bool, polls: seq<Poll>, key: Moment)
    requires Forward(polls)
    ensures var attempts := After(fires, polls).attempts;
            Wins(attempts, key) <= 1 && Tries(attempts, key) <= 3
  {
    ForwardKeysRise(fires, polls);
    LoopRemembers(fires, polls);
    assert Within(After(fires, polls), key);
  }

  lemma {:induction false} AttemptsArePolled(fires: Moment -> bool, polls: seq<Poll>, a: Attempt)
    requires a in After(fires, polls).attempts
    ensures FiredAt(fires, a.now) == Some(a.key) && Poll(a.now, true, a.succeeded) in polls
  {
    var init, last := polls[..|polls| - 1], polls[|polls| - 1];
    var h := After(fires, init);
    assert After(fires, polls) == Next(h, last, FiredAt(fires, last.now));
    if a in h.attempts {
      AttemptsArePolled(fires, init, a);
    } else {
      assert last == Poll(a.now, true, a.succeeded);
    }
  }

  /** Nothing runs outside the grace of a fire time: every attempt belongs to the latest fire no later than
      it, at most the grace ago. */
  lemma EveryAttemptWithinGrace(fires: Moment -> bool, polls: seq<Poll>, a: Attempt)
    requires a in After(fires, polls).attempts
    ensures fires(a.key) && a.now - 15 <= a.key <= a.now && forall t :: a.key < t <= a.now ==> !fires(t)
  {
    AttemptsArePolled(fires, polls, a);
    EveryPollInTheWindow(fires, a.key, a.now, GRACE_MINUTES);
  }

  // How many enabled polls fall to one fire time.
  function Polled(fires: Moment -> bool, polls: seq<Poll>, key: Moment): nat {
    if polls == [] then 0
    else
      var last := polls[|polls| - 1];
      Polled(fires, polls[..|polls| - 1], key) + if last.enabled && FiredAt(fires, last.now) == Some(key) then 1 else 0
  }

  /** A fire time is not given up on early: as long as it has not succeeded, every enabled poll that falls
      to it is an attempt, until three have been made. */
  lemma {:induction false} NoPollIsWasted(fires: Moment -> bool, polls: seq<Poll>, key: Moment)
    requires Forward(polls)
    ensures var attempts := After(fires, polls).attempts;
            Wins(attempts, key) == 1
            || Tries(attempts, key) == if Polled(fires, polls, key) < MAX_RUN_ATTEMPTS then Polled(fires, polls, key)
              else MAX_RUN_ATTEMPTS
  {
    if polls != [] {
      var init, last := polls[..|polls| - 1], polls[|polls| - 1];
      NoPollIsWasted(fires, init, key);
      ForwardKeysRise(fires, init);
      ForwardKeysRise(fires, polls);
      LoopRemembers(fires, init);
      LoopRemembers(fires, polls);
      var h, fired := After(fires, init), FiredAt(fires, last.now);
      assert Within(h, key) && Within(After(fires, polls), key);
      if last.enabled && Owed(h.state, fired).Some? {
        OneMore(h.attempts, Attempt(fired.value, last.now, last.succeeds), key);
      }
    }
  }

  // The fire time reported as missed used up its attempts without success, and none later did.
  ghost predicate TruthfulMiss(h: History) {
    forall k :: MissOf(h, k)
  }

  ghost predicate MissOf(h: History, k: Moment) {
    && (h.state.lastMissedKey == FireAt(k) ==> Tries(h.attempts, k) == MAX_RUN_ATTEMPTS && Wins(h.attempts, k) == 0)
    && (Tries(h.attempts, k) == MAX_RUN_ATTEMPTS && Wins(h.attempts, k) == 0 ==>
          h.state.lastMissedKey.FireAt? && k <= h.state.lastMissedKey.minute)
  }

  lemma LaterNeverTried(h: History, key: Moment, k: Moment)
    requires LastIsLatest(h) && NoEarlier(h.state, Some(key)) && key < k
    ensures Tries(h.attempts, k) == 0 && Wins(h.attempts, k) == 0
  {
    NeverTried(h.attempts, k);
  }

  lemma UnseenNeverTried(h: History, key: Moment)
    requires Unseen(h, Some(key)) && h.state.lastRunKey != FireAt(key)
    ensures Tries(h.attempts, key) == 0 && Wins(h.attempts, key) == 0
  {
    NeverTried(h.attempts, key);
  }

  lemma NextMiss(h: History, p: Poll, fired: Option<Moment>)
    requires Remembers(h) && Remembers(Next(h, p, fired)) && TruthfulMiss(h) && LastIsLatest(h)
             && NoEarlier(h.state, fired)
    requires p.enabled ==> Unseen(h, fired)
    ensures TruthfulMiss(Next(h, p, fired))
  {
    if p.enabled && Owed(h.state, fired).Some? {
      var next, key := Next(h, p, fired), fired.value;
      if h.state.lastRunKey != FireAt(key) { UnseenNeverTried(h, key); }
      assert Within(h, key) && Within(next, key);
      forall k ensures MissOf(next, k) {
        assert MissOf(h, k);
        OneMore(h.attempts, Attempt(key, p.now, p.succeeds), k);
        if k > key { LaterNeverTried(h, key, k); }
      }
    }
  }

  /** The loop owns up to every run it missed: the key it reports used all its attempts and never
      succeeded, and it is the latest that did. */
  lemma {:induction false} MissesAreReported(fires: Moment -> bool, polls: seq<Poll>)
    requires Forward(polls)
    ensures TruthfulMiss(After(fires, polls))
  {
    if polls == [] {
      forall k ensures MissOf(After(fires, polls), k) { NeverTried([], k); }
    } else {
      var init, last := polls[..|polls| - 1], polls[|polls| - 1];
      MissesAreReported(fires, init);
      ForwardKeysRise(fires, init);
      ForwardKeysRise(fires, polls);
      LoopRemembers(fires, init);
      LoopRemembers(fires, polls);
      LastAttemptIsLatest(fires, init);
      NextIsNoEarlier(fires, polls);
      if last.enabled { NextIsUnseen(fires, polls); }
      NextMiss(After(fires, init), last, FiredAt(fires, last.now));
    }
  }

  // -- Exactly when a fire can succeed twice --------------------------------------------------------------

  // The same polls, with these ends to the runs they make.
  function Ending(polls: seq<Poll>, outcomes: seq<bool>): seq<Poll>
    requires |outcomes| == |polls|
  {
    seq(|polls|, i requires 0 <= i < |polls| => polls[i].(succeeds := outcomes[i]))
  }

  lemma {:induction false} EndingKeys(fires: Moment -> bool, polls: seq<Poll>, outcomes: seq<bool>)
    requires |outcomes| == |polls|
    ensures Keys(fires, Ending(polls, outcomes)) == Keys(fires, polls)
  {
    if polls != [] {
      var n := |polls| - 1;
      EndingKeys(fires, polls[..n], outcomes[..n]);
      assert Ending(polls, outcomes)[..n] == Ending(polls[..n], outcomes[..n]);
    }
  }

  // How often a key comes up anew.
  function Blocks(keys: seq<Moment>, k: Moment): nat {
    if keys == [] then 0
    else
      var n := |keys| - 1;
      Blocks(keys[..n], k) + if keys[n] == k && (n == 0 || keys[n - 1] != k) then 1 else 0
  }

  lemma BlockOnwards(keys: seq<Moment>, key: Moment, k: Moment)
    ensures Blocks(keys + [key], k)
            == Blocks(keys, k) + if key == k && (keys == [] || keys[|keys| - 1] != k) then 1 else 0
  {
    assert (keys + [key])[..|keys|] == keys;
  }

  // One more turn of a loop whose runs succeed.
  lemma NextBlock(h: History, p: Poll, fired: Option<Moment>, keys: seq<Moment>, k: Moment)
    requires h.state.lastRunKey == (if keys == [] then Manual else FireAt(keys[|keys| - 1]))
    requires h.state.lastRunKey.FireAt? ==> h.state.attempts == MAX_RUN_ATTEMPTS
    requires p.enabled && p.succeeds && fired.Some? && Wins(h.attempts, k) == Blocks(keys, k)
    ensures Wins(Next(h, p, fired).attempts, k) == Blocks(keys + [fired.value], k)
    ensures Next(h, p, fired).state.lastRunKey == FireAt(fired.value)
            && Next(h, p, fired).state.attempts == MAX_RUN_ATTEMPTS
  {
    BlockOnwards(keys, fired.value, k);
    OneMore(h.attempts, Attempt(fired.value, p.now, p.succeeds), k);
    NextSettles(h, p, fired.value);
  }

  // With the last key settled, a turn runs the key it finds unless it is that one.
  lemma NextSettles(h: History, p: Poll, key: Moment)
    requires p.enabled && p.succeeds && (h.state.lastRunKey.FireAt? ==> h.state.attempts == MAX_RUN_ATTEMPTS)
    ensures var next := Next(h, p, Some(key));
            && next.state.lastRunKey == FireAt(key) && next.state.attempts == MAX_RUN_ATTEMPTS
            && next.attempts == if h.state.lastRunKey == FireAt(key) then h.attempts
              else h.attempts + [Attempt(key, p.now, true)]
  {
  }

  /** When every run succeeds, a fire succeeds once for every time its key comes up anew. */
  lemma {:induction false} WinsPerBlock(fires: Moment -> bool, polls: seq<Poll>, k: Moment)
    requires forall p :: p in polls ==> p.succeeds
    ensures var h := After(fires, polls);
            && Wins(h.attempts, k) == Blocks(Keys(fires, polls), k)
            && (h.state.lastRunKey.FireAt? ==> h.state.attempts == MAX_RUN_ATTEMPTS)
  {
    if polls != [] {
      var init, last := polls[..|polls| - 1], polls[|polls| - 1];
      assert last in polls && forall p :: p in init ==> p in polls;
      WinsPerBlock(fires, init, k);
      LastRunIsLastPolled(fires, init);
      var fired := FiredAt(fires, last.now);
      if last.enabled && fired.Some? {
        NextBlock(After(fires, init), last, fired, Keys(fires, init), k);
      }
    }
  }

  lemma {:induction false} OneBlockAtLeast(keys: seq<Moment>, k: Moment)
    requires k in keys
    ensures Blocks(keys, k) >= 1
  {
    var n := |keys| - 1;
    if n > 0 && (keys[n] != k || keys[n - 1] == k) {
      assert keys[n] != k ==> k in keys[..n];
      assert keys[n - 1] == k ==> keys[..n][n - 1] == k;
      OneBlockAtLeast(keys[..n], k);
    }
  }

  lemma {:induction false} TwoBlocks(keys: seq<Moment>, i: nat, j: nat, m: nat)
    requires i < j < m < |keys| && keys[i] == keys[m] != keys[j]
    ensures Blocks(keys, keys[i]) >= 2
  {
    var n, k := |keys| - 1, keys[i];
    if m < n {
      TwoBlocks(keys[..n], i, j, m);
    } else if keys[n - 1] == k {
      assert j < n - 1;
      TwoBlocks(keys[..n], i, j, n - 1);
    } else {
      assert keys[..n][i] == k;
      OneBlockAtLeast(keys[..n], k);
    }
  }

  ghost predicate AtMostOneWinEach(fires: Moment -> bool, polls: seq<Poll>) {
    forall k :: Wins(After(fires, polls).attempts, k) <= 1
  }

  // However the runs end.
  ghost predicate OnceHoweverRunsEnd(fires: Moment -> bool, polls: seq<Poll>) {
    forall outcomes: seq<bool> :: |outcomes| == |polls| ==> AtMostOneWinEach(fires, Ending(polls, outcomes))
  }

  /** However the runs end, no fire succeeds twice, exactly when no key comes back after a different one was
      polled in between. */
  lemma OnceExactlyWithoutRecurrence(fires: Moment -> bool, polls: seq<Poll>)
    ensures OnceHoweverRunsEnd(fires, polls) <==> !Recurs(Keys(fires, polls))
  {
    if Recurs(Keys(fires, polls)) {
      RecurrenceWinsTwice(fires, polls);
    } else {
      forall outcomes: seq<bool> | |outcomes| == |polls| ensures AtMostOneWinEach(fires, Ending(polls, outcomes)) {
        EndingKeys(fires, polls, outcomes);
        LoopRemembers(fires, Ending(polls, outcomes));
        forall k ensures Wins(After(fires, Ending(polls, outcomes)).attempts, k) <= 1 {
          assert Within(After(fires, Ending(polls, outcomes)), k);
        }
      }
    }
  }

  lemma RecurrenceWinsTwice(fires: Moment -> bool, polls: seq<Poll>)
    requires Recurs(Keys(fires, polls))
    ensures !OnceHoweverRunsEnd(fires, polls)
  {
    var keys, outcomes := Keys(fires, polls), seq(|polls|, i => true);
    var i, j, m :| 0 <= i < j < m < |keys| && keys[i] == keys[m] != keys[j];
    var ended := Ending(polls, outcomes);
    EndingKeys(fires, polls, outcomes);
    WinsPerBlock(fires, ended, keys[i]);
    TwoBlocks(keys, i, j, m);
    assert !AtMostOneWinEach(fires, ended);
  }

  // A clock that is set back after a later fire.
  function SetBack(first: Moment, second: Moment): seq<Poll> {
    [Poll(first, true, true), Poll(second, true, true), Poll(first, true, true)]
  }

  /** So a clock set back behind an earlier fire, after a later one was polled, has the loop run it again. */
  lemma SetBackRunsTwice(fires: Moment -> bool, first: Moment, second: Moment)
    requires first < second && fires(first) && fires(second)
    ensures Wins(After(fires, SetBack(first, second)).attempts, first) == 2
  {
    var polls := SetBack(first, second);
    assert polls[..2][..1] == [polls[0]] && polls[..2][..1][..0] == [];
    EveryPollInTheWindow(fires, first, first, GRACE_MINUTES);
    EveryPollInTheWindow(fires, second, second, GRACE_MINUTES);
    var a, b := Attempt(first, first, true), Attempt(second, second, true);
    assert After(fires, polls[..2][..1]).attempts == [a];
    assert After(fires, polls[..2]).attempts == [a] + [b];
    assert After(fires, polls).attempts == [a] + [b] + [a];
    OneMore([], a, first);
    OneMore([a], b, first);
    OneMore([a] + [b], a, first);
    assert [] + [a] == [a];
  }
}
