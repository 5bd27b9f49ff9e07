/** Asking providers in order until every symbol has an up-to-date answer. */
module ProviderWalk {
  import opened Wrappers

  type Symbol = string
  type Stamp = int

  // What one provider answers for one symbol: its newest stamp, if any of its rows carries one.
  datatype Frame = Frame(content: int, empty: bool, edge: Option<Stamp>)

  // A provider that is unsupported, disabled or fails offers nothing.
  type Offer = Option<map<Symbol, Frame>>

  // Up to date: at the frontier, where there is one to measure against.
  predicate Current(frame: Frame, frontier: Option<Stamp>) {
    frontier.None? || (frame.edge.Some? && frame.edge.value >= frontier.value)
  }

  // A later edge; a frame without stamps reaches less far than any other.
  predicate Later(a: Frame, b: Frame) {
    a.edge.Some? && (b.edge.None? || a.edge.value > b.edge.value)
  }

  function Better(held: Option<Frame>, frame: Frame, frontier: Option<Stamp>): Option<Frame> {
    if held.Some? && (Current(held.value, frontier) || !Later(frame, held.value)) then held else Some(frame)
  }

  // What one offer makes of the answer held for a symbol.
  function Taken(held: Option<Frame>, offer: Offer, x: Symbol, frontier: Option<Stamp>): Option<Frame> {
    if offer.None? || x !in offer.value || offer.value[x].empty then held else Better(held, offer.value[x], frontier)
  }

  // The answer when every provider is asked.
  function Asked(offers: seq<Offer>, x: Symbol, frontier: Option<Stamp>): Option<Frame> {
    if offers == [] then None
    else Taken(Asked(offers[..|offers| - 1], x, frontier), offers[|offers| - 1], x, frontier)
  }

  function Holding(resolved: map<Symbol, Frame>, x: Symbol): Option<Frame> {
    if x in resolved then Some(resolved[x]) else None
  }

  method TakeOffer(resolved: map<Symbol, Frame>, bars: map<Symbol, Frame>, frontier: Option<Stamp>)
    returns (next: map<Symbol, Frame>)
    ensures forall x :: Holding(next, x) == Taken(Holding(resolved, x), Some(bars), x, frontier)
  {
    next := resolved;
    var todo := bars.Keys;
    while todo != {}
      invariant todo <= bars.Keys
      invariant forall x :: Holding(next, x) == if x in todo then Holding(resolved, x)
                else Taken(Holding(resolved, x), Some(bars), x, frontier)
    {
      var x :| x in todo;
      todo := todo - {x};
      var frame := bars[x];
      if frame.empty {
        continue;
      }
      if x in next && (Current(next[x], frontier) || !Later(frame, next[x])) {
        continue;
      }
      next := next[x := frame];
    }
  }

  /** The walk stops as soon as every wanted symbol is up to date, and still answers as if every provider
      had been asked. */
  method RunProviderFallback(wanted: seq<Symbol>, offers: seq<Offer>, frontier: Option<Stamp>)
    returns (answers: map<Symbol, Option<Frame>>, ghost asked: nat)
    ensures answers.Keys == set x | x in wanted
    ensures forall x :: x in wanted ==> answers[x] == Asked(offers, x, frontier)
    ensures asked <= |offers|
            && (asked < |offers| ==> forall x :: x in wanted ==> Settled(offers[..asked], x, frontier))
    ensures forall i :: 0 <= i < asked - 1 && offers[i].Some? ==>
            exists x :: x in wanted && !Settled(offers[..i + 1], x, frontier)
  {
    var resolved: map<Symbol, Frame> := map[];
    for i := 0 to |offers|
      invariant forall x :: Holding(resolved, x) == Asked(offers[..i], x, frontier)
      invariant forall j :: 0 <= j < i && offers[j].Some? ==>
                exists x :: x in wanted && !Settled(offers[..j + 1], x, frontier)
    {
      assert offers[..i + 1][..i] == offers[..i];
      if offers[i].None? {
        continue;
      }
      resolved := TakeOffer(resolved, offers[i].value, frontier);
      if forall x :: x in wanted ==> x in resolved && Current(resolved[x], frontier) {
        forall x | x in wanted ensures Settled(offers[..i + 1], x, frontier)
          && Some(resolved[x]) == Asked(offers, x, frontier) {
          assert Holding(resolved, x) == Asked(offers[..i + 1], x, frontier);
          SettledStays(offers, i + 1, x, frontier);
        }
        answers, asked := map x | x in wanted :: Holding(resolved, x), i + 1;
        return;
      }
      var late :| late in wanted && !(late in resolved && Current(resolved[late], frontier));
      assert Holding(resolved, late) == Asked(offers[..i + 1], late, frontier);
    }
    assert offers[..|offers|] == offers;
    answers, asked := map x | x in wanted :: Holding(resolved, x), |offers|;
  }

  predicate Settled(offers: seq<Offer>, x: Symbol, frontier: Option<Stamp>) {
    Asked(offers, x, frontier).Some? && Current(Asked(offers, x, frontier).value, frontier)
  }

  lemma {:induction false} SettledStays(offers: seq<Offer>, i: nat, x: Symbol, frontier: Option<Stamp>)
    requires i <= |offers| && Settled(offers[..i], x, frontier)
    ensures Asked(offers, x, frontier) == Asked(offers[..i], x, frontier)
  {
    if i < |offers| {
      assert offers[..|offers| - 1][..i] == offers[..i];
      SettledStays(offers[..|offers| - 1], i, x, frontier);
    } else {
      assert offers[..i] == offers;
    }
  }

  // -- Which frame wins ---------------------------------------------------------------------------

  predicate Usable(offers: seq<Offer>, i: nat, x: Symbol) {
    i < |offers| && offers[i].Some? && x in offers[i].value && !offers[i].value[x].empty
  }

  function FrameOf(offers: seq<Offer>, i: nat, x: Symbol): Frame
    requires Usable(offers, i, x)
  {
    offers[i].value[x]
  }

  // Short of the frontier: behind it, or without a stamp to tell by.
  ghost predicate ShortOf(frame: Frame, frontier: Option<Stamp>) {
    frontier.Some? && (frame.edge.None? || frame.edge.value < frontier.value)
  }

  ghost predicate NoFurther(a: Frame, b: Frame) {
    a.edge.None? || (b.edge.Some? && a.edge.value <= b.edge.value)
  }

  // The first frame at the frontier; without one, the first of those that reach furthest.
  ghost predicate Wins(offers: seq<Offer>, i: nat, x: Symbol, frontier: Option<Stamp>)
    requires Usable(offers, i, x)
  {
    var frame := FrameOf(offers, i, x);
    if !ShortOf(frame, frontier) then
      forall j: nat :: j < i && Usable(offers, j, x) ==> ShortOf(FrameOf(offers, j, x), frontier)
    else
      forall j: nat :: Usable(offers, j, x) ==>
        ShortOf(FrameOf(offers, j, x), frontier) && NoFurther(FrameOf(offers, j, x), frame)
        && (j < i ==> !NoFurther(frame, FrameOf(offers, j, x)))
  }

  lemma SameBefore(offers: seq<Offer>, i: nat, x: Symbol)
    requires offers != [] && i < |offers| - 1
    ensures Usable(offers[..|offers| - 1], i, x) <==> Usable(offers, i, x)
    ensures Usable(offers, i, x) ==> FrameOf(offers[..|offers| - 1], i, x) == FrameOf(offers, i, x)
  {
  }

  /** The walk answers with the frame of the provider that wins: the first that reaches the frontier, or
      else the first of those that reach furthest; and with nothing exactly when nobody has anything. */
  lemma {:induction false} TheWinnerAnswers(offers: seq<Offer>, x: Symbol, frontier: Option<Stamp>)
    ensures match Asked(offers, x, frontier)
            case None => forall i: nat :: !Usable(offers, i, x)
            case Some(frame) =>
              exists i: nat :: Usable(offers, i, x) && FrameOf(offers, i, x) == frame && Wins(offers, i, x, frontier)
  {
    if offers != [] {
      var init, last := offers[..|offers| - 1], |offers| - 1;
      TheWinnerAnswers(init, x, frontier);
      forall i: nat | i < last
        ensures Usable(init, i, x) <==> Usable(offers, i, x)
        ensures Usable(offers, i, x) ==> FrameOf(init, i, x) == FrameOf(offers, i, x)
      {
        SameBefore(offers, i, x);
      }
      var held := Asked(init, x, frontier);
      if held.Some? {
        var i: nat :| Usable(init, i, x) && FrameOf(init, i, x) == held.value && Wins(init, i, x, frontier);
        assert Usable(offers, i, x);
        if !Usable(offers, last, x) || Asked(offers, x, frontier) == held {
          assert Wins(offers, i, x, frontier);
        } else {
          assert Wins(offers, last, x, frontier);
        }
      } else if Usable(offers, last, x) {
        assert Wins(offers, last, x, frontier);
      }
    }
  }

  /** No two providers can both win. */
  lemma OneWinner(offers: seq<Offer>, i: nat, j: nat, x: Symbol, frontier: Option<Stamp>)
    requires Usable(offers, i, x) && Usable(offers, j, x) && Wins(offers, i, x, frontier)
             && Wins(offers, j, x, frontier)
    ensures i == j
  {
  }
}
