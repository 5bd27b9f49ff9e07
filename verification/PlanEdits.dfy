/** Editing a plan before it is placed: vetoing or closing single symbols in a list of intents. */
module PlanEdits {
  import opened Wrappers
  import opened Sizing
  import opened Planning

  datatype Plan = Plan(intents: seq<Intent>, mode: string, orderBook: bool)
  datatype Edit = Edit(op: string, symbol: Symbol)
  datatype Op = Skip | Exit
  datatype Refusal =
    | OrderBookPlan
    | UnknownMode
    | UnknownOp(op: string)
    | NoSymbol
    | NothingToEdit(symbol: Symbol)
    | Conflicting(symbol: Symbol)

  datatype Effect = HeldAt(shares: real) | IncrementDropped | Closed | NothingToClose | AlreadyUntouched
  datatype Applied = Applied(op: Op, symbol: Symbol, effect: Effect)
  datatype Edited = Edited(plan: Plan, applied: seq<Applied>)

  type Requests = map<Symbol, Op>

  function Named(intents: seq<Intent>): set<Symbol> { set i | i in intents :: i.symbol }

  function OpOf(op: string): Option<Op> {
    if op == "skip" then Some(Skip) else if op == "exit" then Some(Exit) else None
  }

  function Admit(requested: Requests, edit: Edit, named: set<Symbol>, held: Book): Result<Requests, Refusal> {
    var op := OpOf(edit.op);
    if op.None? then Err(UnknownOp(edit.op))
    else if edit.symbol == "" then Err(NoSymbol)
    else if edit.symbol !in named && edit.symbol !in held then Err(NothingToEdit(edit.symbol))
    else if edit.symbol in requested then Err(Conflicting(edit.symbol))
    else Ok(requested[edit.symbol := op.value])
  }

  function Requested(edits: seq<Edit>, named: set<Symbol>, held: Book): Result<Requests, Refusal> {
    if edits == [] then Ok(map[])
    else
      match Requested(edits[..|edits| - 1], named, held)
      case Err(e) => Err(e)
      case Ok(requested) => Admit(requested, edits[|edits| - 1], named, held)
  }

  // The share count an edit pins a symbol to; nothing where the edit only declines a change.
  function Pinned(op: Op, mode: string, current: real): Option<real> {
    match op
    case Skip => if mode == MODE_TARGET then Some(current) else None
    case Exit => Some(if mode == MODE_TARGET then 0.0 else -current)
  }

  function Row(symbol: Symbol, pinned: Option<real>): seq<Intent> {
    match pinned
    case Some(v) => [Intent(symbol, Shares, v)]
    case None => []
  }

  function Rewritten(intents: seq<Intent>, requested: Requests, mode: string, held: Book): seq<Intent> {
    if intents == [] then []
    else
      var last := intents[|intents| - 1];
      Rewritten(intents[..|intents| - 1], requested, mode, held)
      + if last.symbol in requested then
        Row(last.symbol, Pinned(requested[last.symbol], mode, At(held, last.symbol, 0.0)))
        else [last]
  }

  function Rows(edits: seq<Edit>, named: set<Symbol>, requested: Requests, mode: string, held: Book): seq<Intent> {
    if edits == [] then []
    else
      var x := edits[|edits| - 1].symbol;
      Rows(edits[..|edits| - 1], named, requested, mode, held)
      + if x in named || x !in requested then [] else Row(x, Pinned(requested[x], mode, At(held, x, 0.0)))
  }

  function Effects(intents: seq<Intent>, requested: Requests, mode: string, held: Book): seq<Applied> {
    if intents == [] then []
    else
      var x := intents[|intents| - 1].symbol;
      Effects(intents[..|intents| - 1], requested, mode, held)
      + if x in requested then [Applied(requested[x], x, EffectOnNamed(requested[x], mode, At(held, x, 0.0)))] else []
  }

  function EffectOnNamed(op: Op, mode: string, current: real): Effect {
    match op
    case Skip => if mode == MODE_TARGET then HeldAt(current) else IncrementDropped
    case Exit => if current != 0.0 then Closed else NothingToClose
  }

  function EffectOnUnnamed(op: Op, mode: string, current: real): Effect {
    match op
    case Skip => if mode == MODE_TARGET then HeldAt(current) else AlreadyUntouched
    case Exit => Closed
  }

  function MoreEffects(edits: seq<Edit>, named: set<Symbol>, requested: Requests, mode: string,
                       held: Book): seq<Applied> {
    if edits == [] then []
    else
      var x := edits[|edits| - 1].symbol;
      MoreEffects(edits[..|edits| - 1], named, requested, mode, held)
      + if x in named || x !in requested then []
        else [Applied(requested[x], x, EffectOnUnnamed(requested[x], mode, At(held, x, 0.0)))]
  }

  function Refused(plan: Plan, edits: seq<Edit>, held: Book): Option<Refusal> {
    if edits == [] then None
    else if plan.orderBook then Some(OrderBookPlan)
    else if plan.mode !in [MODE_TARGET, MODE_INCREMENTAL] then Some(UnknownMode)
    else
      match Requested(edits, Named(plan.intents), held)
      case Err(e) => Some(e)
      case Ok(_) => None
  }

  // What each accepted edit asks for, by symbol.
  function Asks(plan: Plan, edits: seq<Edit>, held: Book): Requests
    requires Refused(plan, edits, held).None?
  {
    if edits == [] then map[] else Requested(edits, Named(plan.intents), held).value
  }

  function EditedIntents(plan: Plan, edits: seq<Edit>, held: Book): seq<Intent>
    requires Refused(plan, edits, held).None?
  {
    var requested := Asks(plan, edits, held);
    Rewritten(plan.intents, requested, plan.mode, held) + Rows(edits, Named(plan.intents), requested, plan.mode, held)
  }

  function AllEffects(plan: Plan, edits: seq<Edit>, held: Book): seq<Applied>
    requires Refused(plan, edits, held).None?
  {
    var requested := Asks(plan, edits, held);
    Effects(plan.intents, requested, plan.mode, held)
    + MoreEffects(edits, Named(plan.intents), requested, plan.mode, held)
  }

  method CollectRequests(edits: seq<Edit>, named: set<Symbol>, held: Book) returns (r: Result<Requests, Refusal>)
    ensures r == Requested(edits, named, held)
  {
    var requested: Requests := map[];
    for i := 0 to |edits|
      invariant Requested(edits[..i], named, held) == Ok(requested)
    {
      assert edits[..i + 1][..i] == edits[..i];
      var admitted := Admit(requested, edits[i], named, held);
      if admitted.Err? {
        FirstRefusalStands(edits, i + 1, named, held);
        return admitted;
      }
      requested := admitted.value;
    }
    assert edits[..|edits|] == edits;
    r := Ok(requested);
  }

  method RewriteNamed(intents: seq<Intent>, requested: Requests, mode: string, held: Book)
    returns (edited: seq<Intent>, applied: seq<Applied>)
    ensures edited == Rewritten(intents, requested, mode, held) && applied == Effects(intents, requested, mode, held)
  {
    edited, applied := [], [];
    for i := 0 to |intents|
      invariant edited == Rewritten(intents[..i], requested, mode, held)
      invariant applied == Effects(intents[..i], requested, mode, held)
    {
      assert intents[..i + 1][..i] == intents[..i];
      var intent := intents[i];
      if intent.symbol !in requested {
        edited := edited + [intent];
        continue;
      }
      var op, current := requested[intent.symbol], At(held, intent.symbol, 0.0);
      edited := edited + Row(intent.symbol, Pinned(op, mode, current));
      applied := applied + [Applied(op, intent.symbol, EffectOnNamed(op, mode, current))];
    }
    assert intents[..|intents|] == intents;
  }

  method AddUnnamed(edits: seq<Edit>, named: set<Symbol>, requested: Requests, mode: string, held: Book)
    returns (added: seq<Intent>, applied: seq<Applied>)
    ensures added == Rows(edits, named, requested, mode, held)
            && applied == MoreEffects(edits, named, requested, mode, held)
  {
    added, applied := [], [];
    for i := 0 to |edits|
      invariant added == Rows(edits[..i], named, requested, mode, held)
      invariant applied == MoreEffects(edits[..i], named, requested, mode, held)
    {
      assert edits[..i + 1][..i] == edits[..i];
      var x := edits[i].symbol;
      if x in named || x !in requested {
        continue;
      }
      var op, current := requested[x], At(held, x, 0.0);
      added := added + Row(x, Pinned(op, mode, current));
      applied := applied + [Applied(op, x, EffectOnUnnamed(op, mode, current))];
    }
    assert edits[..|edits|] == edits;
  }

  method ApplyEdits(plan: Plan, edits: seq<Edit>, held: Book) returns (r: Result<Edited, Refusal>)
    ensures match Refused(plan, edits, held)
            case Some(e) => r == Err(e)
            case None => r == Ok(Edited(plan.(intents := EditedIntents(plan, edits, held)),
              AllEffects(plan, edits, held)))
  {
    if edits == [] {
      NothingAsked(plan.intents, plan.mode, held);
      assert EditedIntents(plan, edits, held) == plan.intents;
      return Ok(Edited(plan, []));
    }
    if plan.orderBook {
      return Err(OrderBookPlan);
    }
    if plan.mode !in [MODE_TARGET, MODE_INCREMENTAL] {
      return Err(UnknownMode);
    }
    var named := Named(plan.intents);
    var collected := CollectRequests(edits, named, held);
    if collected.Err? {
      return Err(collected.error);
    }
    var kept, applied := RewriteNamed(plan.intents, collected.value, plan.mode, held);
    var added, more := AddUnnamed(edits, named, collected.value, plan.mode, held);
    r := Ok(Edited(plan.(intents := kept + added), applied + more));
  }

  lemma {:induction false} NothingAsked(intents: seq<Intent>, mode: string, held: Book)
    ensures Rewritten(intents, map[], mode, held) == intents && Effects(intents, map[], mode, held) == []
  {
    if intents != [] {
      NothingAsked(intents[..|intents| - 1], mode, held);
      assert intents == intents[..|intents| - 1] + [intents[|intents| - 1]];
    }
  }

  lemma {:induction false} FirstRefusalStands(edits: seq<Edit>, i: nat, named: set<Symbol>, held: Book)
    requires i <= |edits| && Requested(edits[..i], named, held).Err?
    ensures Requested(edits, named, held) == Requested(edits[..i], named, held)
  {
    if i < |edits| {
      assert edits[..|edits| - 1][..i] == edits[..i];
      FirstRefusalStands(edits[..|edits| - 1], i, named, held);
    } else {
      assert edits[..i] == edits;
    }
  }

  // -- What an accepted list of edits says -----------------------------------------------------

  ghost predicate Sound(edit: Edit, named: set<Symbol>, held: Book) {
    OpOf(edit.op).Some? && edit.symbol != "" && (edit.symbol in named || edit.symbol in held)
  }

  ghost predicate Apart(edits: seq<Edit>) {
    forall i, j :: 0 <= i < j < |edits| ==> edits[i].symbol != edits[j].symbol
  }

  // What a collection of requests owes to the edits it came from.
  ghost predicate Answers(requested: Requests, edits: seq<Edit>) {
    && (forall e :: e in edits ==> e.symbol in requested && Some(requested[e.symbol]) == OpOf(e.op))
    && (forall x :: x in requested ==> exists e :: e in edits && e.symbol == x)
  }

  ghost predicate AllSound(edits: seq<Edit>, named: set<Symbol>, held: Book) {
    forall e :: e in edits ==> Sound(e, named, held)
  }

  lemma OneMoreApart(init: seq<Edit>, last: Edit)
    ensures Apart(init + [last]) <==> Apart(init) && forall e :: e in init ==> e.symbol != last.symbol
  {
    var edits := init + [last];
    if Apart(edits) {
      forall i, j | 0 <= i < j < |init| ensures init[i].symbol != init[j].symbol {
        assert edits[i] == init[i] && edits[j] == init[j];
      }
      forall e | e in init ensures e.symbol != last.symbol {
        var k :| 0 <= k < |init| && init[k] == e;
        assert edits[k] == e && edits[|init|] == last;
      }
    }
    if Apart(init) && forall e :: e in init ==> e.symbol != last.symbol {
      forall i, j | 0 <= i < j < |edits| ensures edits[i].symbol != edits[j].symbol {
        assert edits[i] == init[i] && init[i] in init;
        assert j < |init| ==> edits[j] == init[j];
      }
    }
  }

  lemma OneMoreAnswered(requested: Requests, init: seq<Edit>, last: Edit)
    requires Answers(requested, init) && last.symbol !in requested && OpOf(last.op).Some?
    ensures Answers(requested[last.symbol := OpOf(last.op).value], init + [last])
  {
    forall x | x in requested || x == last.symbol ensures exists e :: e in init + [last] && e.symbol == x {
      if x == last.symbol {
        assert last in init + [last];
      } else {
        var e :| e in init && e.symbol == x;
        assert e in init + [last];
      }
    }
  }

  lemma Admitted(requested: Requests, init: seq<Edit>, last: Edit, named: set<Symbol>, held: Book)
    requires Answers(requested, init) && Apart(init)
    ensures var r := Admit(requested, last, named, held);
            && (r.Ok? <==> Sound(last, named, held) && Apart(init + [last]))
            && (r.Ok? ==> Answers(r.value, init + [last]))
  {
    OneMoreApart(init, last);
    if last.symbol !in requested && Sound(last, named, held) {
      OneMoreAnswered(requested, init, last);
    }
  }

  lemma ApartBefore(edits: seq<Edit>)
    requires edits != [] && Apart(edits)
    ensures Apart(edits[..|edits| - 1])
  {
  }

  lemma OneMoreSound(init: seq<Edit>, last: Edit, named: set<Symbol>, held: Book)
    ensures AllSound(init + [last], named, held) <==> AllSound(init, named, held) && Sound(last, named, held)
  {
    var edits := init + [last];
    assert last in edits && forall e :: e in init ==> e in edits;
  }

  /** Edits are accepted exactly when each one names a known operation and a symbol the plan or the
      account knows, and no two name the same symbol; then each symbol is asked what its edit says. */
  lemma {:induction false} AcceptedExactlyWhenSound(edits: seq<Edit>, named: set<Symbol>, held: Book)
    ensures var r := Requested(edits, named, held);
            && (r.Ok? <==> Apart(edits) && AllSound(edits, named, held))
            && (r.Ok? ==> Answers(r.value, edits))
  {
    if edits != [] {
      var init, last := edits[..|edits| - 1], edits[|edits| - 1];
      AcceptedExactlyWhenSound(init, named, held);
      assert edits == init + [last];
      OneMoreSound(init, last, named, held);
      if Requested(init, named, held).Ok? {
        Admitted(Requested(init, named, held).value, init, last, named, held);
      } else if Apart(edits) {
        ApartBefore(edits);
      }
    }
  }

  // Why one edit is refused, after those before it: the first complaint, in this order.
  ghost predicate Complaint(e: Refusal, edit: Edit, before: seq<Edit>, named: set<Symbol>, held: Book) {
    if edit.op !in {"skip", "exit"} then e == UnknownOp(edit.op)
    else if edit.symbol == "" then e == NoSymbol
    else if edit.symbol !in named && edit.symbol !in held then e == NothingToEdit(edit.symbol)
    else (exists b :: b in before && b.symbol == edit.symbol) && e == Conflicting(edit.symbol)
  }

  /** The first edit that cannot be accepted is complained of, and by its first fault. */
  lemma FirstFaultIsRefused(edits: seq<Edit>, i: nat, named: set<Symbol>, held: Book)
    requires i < |edits| && Requested(edits[..i], named, held).Ok? && Requested(edits[..i + 1], named, held).Err?
    ensures Requested(edits, named, held) == Requested(edits[..i + 1], named, held)
    ensures Complaint(Requested(edits, named, held).error, edits[i], edits[..i], named, held)
  {
    FirstRefusalStands(edits, i + 1, named, held);
    assert edits[..i + 1][..i] == edits[..i];
    AcceptedExactlyWhenSound(edits[..i], named, held);
  }

  /** Edits are refused as a whole where there are any and the plan is an order book or of an unknown mode, or where one
      of them is not sound or names a symbol again. */
  lemma RefusedExactly(plan: Plan, edits: seq<Edit>, held: Book)
    ensures Refused(plan, edits, held).None?
            <==> edits == []
                 || (!plan.orderBook && plan.mode in {"target", "incremental"}
                     && Apart(edits) && AllSound(edits, Named(plan.intents), held))
    ensures edits != [] && plan.orderBook ==> Refused(plan, edits, held) == Some(OrderBookPlan)
    ensures edits != [] && !plan.orderBook && plan.mode !in {"target", "incremental"} ==>
              Refused(plan, edits, held) == Some(UnknownMode)
  {
    AcceptedExactlyWhenSound(edits, Named(plan.intents), held);
  }

  // -- Who decides after the edits -------------------------------------------------------------

  lemma {:induction false} DecidingOfBoth(first: seq<Intent>, second: seq<Intent>, x: Symbol, s: Setting)
    ensures Deciding(first + second, x, s)
            == if Deciding(second, x, s).Some? then Deciding(second, x, s) else Deciding(first, x, s)
  {
    if second == [] {
      assert first + second == first;
    } else {
      assert (first + second)[..|first + second| - 1] == first + second[..|second| - 1];
      DecidingOfBoth(first, second[..|second| - 1], x, s);
    }
  }

  lemma DecidingRow(y: Symbol, pinned: Option<real>, x: Symbol, s: Setting)
    ensures Deciding(Row(y, pinned), x, s)
            == if x == y && pinned.Some? then Some(Intent(x, Shares, pinned.value)) else None
  {
    if pinned.Some? {
      assert Row(y, pinned)[..0] == [];
    }
  }

  lemma DecidingOne(intent: Intent, x: Symbol, s: Setting)
    ensures Deciding([intent], x, s) == if intent.symbol == x && Sized(intent, s).Some? then Some(intent) else None
  {
    assert [intent][..0] == [];
  }

  // The row an edit leaves for its symbol, if any.
  function Left(x: Symbol, requested: Requests, mode: string, held: Book): Option<Intent> {
    if x !in requested then None
    else
      match Pinned(requested[x], mode, At(held, x, 0.0))
      case Some(v) => Some(Intent(x, Shares, v))
      case None => None
  }

  lemma {:induction false} DecidingRewritten(intents: seq<Intent>, requested: Requests, mode: string, held: Book,
                                             x: Symbol, s: Setting)
    ensures Deciding(Rewritten(intents, requested, mode, held), x, s)
            == if x !in requested then Deciding(intents, x, s)
               else if x in Named(intents) then Left(x, requested, mode, held) else None
  {
    if intents != [] {
      var init, last := intents[..|intents| - 1], intents[|intents| - 1];
      assert intents == init + [last];
      var y := last.symbol;
      DecidingRewritten(init, requested, mode, held, x, s);
      if y in requested {
        var pinned := Pinned(requested[y], mode, At(held, y, 0.0));
        DecidingOfBoth(Rewritten(init, requested, mode, held), Row(y, pinned), x, s);
        DecidingRow(y, pinned, x, s);
      } else {
        DecidingOfBoth(Rewritten(init, requested, mode, held), [last], x, s);
        DecidingOne(last, x, s);
      }
    }
  }

  lemma {:induction false} DecidingRows(edits: seq<Edit>, named: set<Symbol>, requested: Requests, mode: string,
                                        held: Book, x: Symbol, s: Setting)
    ensures Deciding(Rows(edits, named, requested, mode, held), x, s)
            == if x !in named && x in requested && (exists e :: e in edits && e.symbol == x)
               then Left(x, requested, mode, held) else None
  {
    if edits != [] {
      var init, last := edits[..|edits| - 1], edits[|edits| - 1];
      assert edits == init + [last];
      var y := last.symbol;
      DecidingRows(init, named, requested, mode, held, x, s);
      if y in named || y !in requested {
        assert Rows(edits, named, requested, mode, held) == Rows(init, named, requested, mode, held);
      } else {
        var pinned := Pinned(requested[y], mode, At(held, y, 0.0));
        DecidingOfBoth(Rows(init, named, requested, mode, held), Row(y, pinned), x, s);
        DecidingRow(y, pinned, x, s);
      }
    }
  }

  /** After the edits, an edited symbol is decided by its edit alone, and every other symbol by the
      intent that decided it before. */
  lemma EditsDecide(plan: Plan, edits: seq<Edit>, x: Symbol, s: Setting)
    requires Refused(plan, edits, s.positions).None?
    ensures var asks := Asks(plan, edits, s.positions);
            Deciding(EditedIntents(plan, edits, s.positions), x, s)
            == if x in asks then Left(x, asks, plan.mode, s.positions) else Deciding(plan.intents, x, s)
  {
    var named, asks := Named(plan.intents), Asks(plan, edits, s.positions);
    var rows := Rows(edits, named, asks, plan.mode, s.positions);
    AcceptedExactlyWhenSound(edits, named, s.positions);
    DecidingOfBoth(Rewritten(plan.intents, asks, plan.mode, s.positions), rows, x, s);
    DecidingRewritten(plan.intents, asks, plan.mode, s.positions, x, s);
    DecidingRows(edits, named, asks, plan.mode, s.positions, x, s);
  }

  // A record names its edit, and says of the symbol what that edit makes of it: held, where the plan is a whole
  // portfolio; not bought or sold, where it lists changes; closed; or nothing to close, of a symbol the plan named.
  ghost predicate Tells(a: Applied, named: set<Symbol>, requested: Requests, mode: string, held: Book) {
    && a.symbol in requested && requested[a.symbol] == a.op
    && var current := At(held, a.symbol, 0.0);
       match a.effect
       case HeldAt(shares) => a.op.Skip? && mode == "target" && shares == current
       case IncrementDropped => a.op.Skip? && mode != "target" && a.symbol in named
       case AlreadyUntouched => a.op.Skip? && mode != "target" && a.symbol !in named
       case Closed => a.op.Exit? && (a.symbol in named ==> current != 0.0)
       case NothingToClose => a.op.Exit? && a.symbol in named && current == 0.0
  }

  lemma {:induction false} EffectsTell(intents: seq<Intent>, requested: Requests, mode: string, held: Book)
    ensures forall a :: a in Effects(intents, requested, mode, held) ==>
              a.symbol in Named(intents) && Tells(a, Named(intents), requested, mode, held)
    ensures forall i :: i in intents && i.symbol in requested ==>
              exists a :: a in Effects(intents, requested, mode, held) && a.symbol == i.symbol
  {
    if intents != [] {
      var init, x := intents[..|intents| - 1], intents[|intents| - 1].symbol;
      EffectsTell(init, requested, mode, held);
      assert intents == init + [intents[|intents| - 1]] && intents[|intents| - 1] in intents;
      assert Named(init) <= Named(intents) && x in Named(intents);
      if x in requested {
        var a := Applied(requested[x], x, EffectOnNamed(requested[x], mode, At(held, x, 0.0)));
        assert Effects(intents, requested, mode, held) == Effects(init, requested, mode, held) + [a];
        assert a in Effects(intents, requested, mode, held);
      }
    }
  }

  lemma {:induction false} MoreEffectsTell(edits: seq<Edit>, named: set<Symbol>, requested: Requests, mode: string,
                                           held: Book)
    ensures forall a :: a in MoreEffects(edits, named, requested, mode, held) ==>
              Tells(a, named, requested, mode, held)
    ensures forall e :: e in edits && e.symbol in requested && e.symbol !in named ==>
              exists a :: a in MoreEffects(edits, named, requested, mode, held) && a.symbol == e.symbol
  {
    if edits != [] {
      var init, x := edits[..|edits| - 1], edits[|edits| - 1].symbol;
      MoreEffectsTell(init, named, requested, mode, held);
      assert edits == init + [edits[|edits| - 1]];
      if x in requested && x !in named {
        var a := Applied(requested[x], x, EffectOnUnnamed(requested[x], mode, At(held, x, 0.0)));
        assert MoreEffects(edits, named, requested, mode, held)
          == MoreEffects(init, named, requested, mode, held) + [a];
        assert a in MoreEffects(edits, named, requested, mode, held);
      }
    }
  }

  /** The record is complete: it speaks of exactly the edited symbols, and of each as its edit asks. Whether what it
      says comes true is another matter. */
  lemma EveryEditIsReported(plan: Plan, edits: seq<Edit>, held: Book, x: Symbol)
    requires Refused(plan, edits, held).None?
    ensures x in Asks(plan, edits, held) <==> exists a :: a in AllEffects(plan, edits, held) && a.symbol == x
    ensures forall a :: a in AllEffects(plan, edits, held) ==>
              Tells(a, Named(plan.intents), Asks(plan, edits, held), plan.mode, held)
  {
    var named, asks := Named(plan.intents), Asks(plan, edits, held);
    AcceptedExactlyWhenSound(edits, named, held);
    EffectsTell(plan.intents, asks, plan.mode, held);
    MoreEffectsTell(edits, named, asks, plan.mode, held);
    if x in asks {
      if x in named {
        var i :| i in plan.intents && i.symbol == x;
        var a :| a in Effects(plan.intents, asks, plan.mode, held) && a.symbol == x;
        assert a in AllEffects(plan, edits, held);
      } else {
        var e :| e in edits && e.symbol == x;
        var a :| a in MoreEffects(edits, named, asks, plan.mode, held) && a.symbol == x;
        assert a in AllEffects(plan, edits, held);
      }
    }
  }

  // -- What the edits do to the orders -----------------------------------------------------------

  // The targets an edited plan comes to.
  function EditedTargets(plan: Plan, edits: seq<Edit>, s: Setting): Book
    requires Refused(plan, edits, s.positions).None?
  {
    Targets(EditedIntents(plan, edits, s.positions), plan.mode, s)
  }

  // Intents that are decided alike aim alike.
  lemma AimAlike(first: seq<Intent>, second: seq<Intent>, mode: string, s: Setting, x: Symbol, default: real)
    requires mode in [MODE_TARGET, MODE_INCREMENTAL] && Deciding(first, x, s) == Deciding(second, x, s)
    ensures At(Targets(first, mode, s), x, default) == At(Targets(second, mode, s), x, default)
  {
    TargetDecidedByLastIntent(first, mode, s, x);
    TargetDecidedByLastIntent(second, mode, s, x);
  }

  lemma AimOfShares(intents: seq<Intent>, mode: string, s: Setting, x: Symbol, shares: real, default: real)
    requires mode in [MODE_TARGET, MODE_INCREMENTAL] && Deciding(intents, x, s) == Some(Intent(x, Shares, shares))
    ensures var rounded := RoundShares(shares, s.fractional && shares >= 0.0);
            At(Targets(intents, mode, s), x, default)
            == if mode == MODE_TARGET then rounded else At(s.positions, x, 0.0) + rounded
  {
    TargetDecidedByLastIntent(intents, mode, s, x);
  }

  lemma AimOfChangesUnnamed(intents: seq<Intent>, s: Setting, x: Symbol, default: real)
    requires Deciding(intents, x, s) == None
    ensures At(Targets(intents, MODE_INCREMENTAL, s), x, default) == default
  {
    TargetDecidedByLastIntent(intents, MODE_INCREMENTAL, s, x);
  }

  lemma LegByAim(first: Book, second: Book, s: Setting, x: Symbol)
    requires var current := At(s.positions, x, 0.0); At(first, x, current) == At(second, x, current)
    ensures Leg(x, first, s) == Leg(x, second, s)
  {
  }

  predicate Runnable(plan: Plan, edits: seq<Edit>, s: Setting) {
    plan.mode in [MODE_TARGET, MODE_INCREMENTAL] && Refused(plan, edits, s.positions).None?
  }

  // An accepted edit of a symbol.
  predicate AsksFor(plan: Plan, edits: seq<Edit>, s: Setting, x: Symbol, op: Op) {
    Runnable(plan, edits, s) && x in Asks(plan, edits, s.positions) && Asks(plan, edits, s.positions)[x] == op
  }

  /** A symbol no edit names gets exactly the order it would have got. */
  lemma EditsAreLocal(plan: Plan, edits: seq<Edit>, s: Setting, x: Symbol)
    requires Runnable(plan, edits, s) && x !in Asks(plan, edits, s.positions)
    ensures Leg(x, EditedTargets(plan, edits, s), s) == Leg(x, Targets(plan.intents, plan.mode, s), s)
  {
    EditsDecide(plan, edits, x, s);
    AimAlike(EditedIntents(plan, edits, s.positions), plan.intents, plan.mode, s, x, At(s.positions, x, 0.0));
    LegByAim(EditedTargets(plan, edits, s), Targets(plan.intents, plan.mode, s), s, x);
  }

  // The whole shares a position is pinned to when it is to be left alone.
  function PinnedShares(current: real, s: Setting): real { RoundShares(current, s.fractional && current >= 0.0) }

  lemma SkipTarget(plan: Plan, edits: seq<Edit>, s: Setting, x: Symbol)
    requires AsksFor(plan, edits, s, x, Skip)
    ensures var current := At(s.positions, x, 0.0);
            At(EditedTargets(plan, edits, s), x, current)
            == if plan.mode == MODE_TARGET then PinnedShares(current, s) else current
  {
    var current := At(s.positions, x, 0.0);
    EditsDecide(plan, edits, x, s);
    if plan.mode == MODE_TARGET {
      AimOfShares(EditedIntents(plan, edits, s.positions), plan.mode, s, x, current, current);
    } else {
      AimOfChangesUnnamed(EditedIntents(plan, edits, s.positions), s, x, current);
    }
  }

  /** `skip` leaves a symbol without an order: always when the plan lists changes, and, when the plan is
      the whole portfolio, whenever the position is a number of shares the broker can be asked for. */
  lemma SkipMeansNoOrder(plan: Plan, edits: seq<Edit>, s: Setting, x: Symbol)
    requires AsksFor(plan, edits, s, x, Skip)
    requires var current := At(s.positions, x, 0.0);
             plan.mode == MODE_TARGET ==> OnGrid(current, s.fractional && current >= 0.0)
    ensures Leg(x, EditedTargets(plan, edits, s), s).None?
  {
    var current := At(s.positions, x, 0.0);
    SkipTarget(plan, edits, s, x);
    RoundSharesTowardZero(current, s.fractional && current >= 0.0);
    NoMove(current, s.fractional);
  }

  lemma NoMove(current: real, fractional: bool)
    ensures Move(current, current, fractional) == 0.0
  {
  }

  // How far a position stands from the grid it is pinned to, towards zero.
  function GridGap(current: real, s: Setting): real { Abs(current) - Abs(PinnedShares(current, s)) }

  // What of that gap an order would carry: a change that ends at no short position is rounded to cents.
  function SkipDrift(current: real, s: Setting): real {
    if s.fractional && PinnedShares(current, s) >= 0.0 then RoundCents(GridGap(current, s)) else GridGap(current, s)
  }

  lemma PinnedTowardZero(current: real, s: Setting)
    ensures var pinned := PinnedShares(current, s);
            && (current >= 0.0 ==> 0.0 <= pinned <= current) && (current <= 0.0 ==> current <= pinned <= 0.0)
            && (Abs(pinned) <= SHARE_EPSILON ==> pinned == 0.0)
  {
    var cents := s.fractional && current >= 0.0;
    RoundSharesTowardZero(current, cents);
    var n := Truncate(current * Scale(cents));
    assert PinnedShares(current, s) == n as real / Scale(cents);
  }

  lemma PinnedMove(current: real, s: Setting)
    ensures Abs(Move(current, PinnedShares(current, s), s.fractional)) == SkipDrift(current, s) >= 0.0
  {
    var pinned, gap := PinnedShares(current, s), GridGap(current, s);
    PinnedTowardZero(current, s);
    RoundCentsOdd(gap);
    assert pinned - current == gap || pinned - current == -gap;
  }

  /** On a fractional account a long position under `skip` moves by a cent of a share or not at all, and it
      moves exactly when it stands more than half a cent above the grid. */
  lemma LongDriftsByACent(current: real, s: Setting)
    requires s.fractional && current >= 0.0
    ensures SkipDrift(current, s) == if GridGap(current, s) > 0.005 then 0.01 else 0.0
  {
    PinnedTowardZero(current, s);
    RoundSharesTowardZero(current, true);
    var gap := GridGap(current, s);
    assert 0.0 <= gap * 100.0 < 1.0;
  }

  lemma TinyGapStays(current: real, s: Setting)
    requires Abs(current) <= SHARE_EPSILON
    ensures SkipDrift(current, s) <= SHARE_EPSILON
  {
    PinnedTowardZero(current, s);
    var gap := GridGap(current, s);
    assert 0.0 <= gap * 100.0 < 0.5;
  }

  // Too little to send, or, short of closing the position, not worth the floor.
  predicate NotWorthMoving(drift: real, price: real, target: real, floor: real) {
    drift <= SHARE_EPSILON || (target != 0.0 && Times(drift, price) < floor)
  }

  // A position that a veto in a whole-portfolio plan leaves alone.
  predicate Honoured(x: Symbol, s: Setting) {
    Priced(s, x) ==>
      var current := At(s.positions, x, 0.0);
      NotWorthMoving(SkipDrift(current, s), s.prices[x], PinnedShares(current, s), MinRebalanceDollars(s))
  }

  /** `skip` in a whole-portfolio plan is honoured, on any account and with any floor, exactly when what an order
      would carry of the gap to the grid is within the share slack, or is worth less than the floor while the
      position does not lie wholly within that gap. */
  lemma SkipHonouredExactly(plan: Plan, edits: seq<Edit>, s: Setting, x: Symbol)
    requires AsksFor(plan, edits, s, x, Skip)
    requires plan.mode == MODE_TARGET
    ensures Leg(x, EditedTargets(plan, edits, s), s).None? <==> Honoured(x, s)
  {
    var current := At(s.positions, x, 0.0);
    SkipLeg(plan, edits, s, x);
    if Priced(s, x) {
      PinnedOrder(x, current, s.prices[x], s);
    }
  }

  lemma SkipLeg(plan: Plan, edits: seq<Edit>, s: Setting, x: Symbol)
    requires AsksFor(plan, edits, s, x, Skip)
    requires plan.mode == MODE_TARGET
    ensures var current := At(s.positions, x, 0.0);
            Leg(x, EditedTargets(plan, edits, s), s)
            == if Priced(s, x) then OrderTo(x, current, PinnedShares(current, s), s.prices[x], s) else None
  {
    SkipTarget(plan, edits, s, x);
  }

  lemma PinnedOrder(x: Symbol, current: real, price: real, s: Setting)
    requires price > 0.0
    ensures OrderTo(x, current, PinnedShares(current, s), price, s).None?
            <==> NotWorthMoving(SkipDrift(current, s), price, PinnedShares(current, s), MinRebalanceDollars(s))
  {
    PinnedTowardZero(current, s);
    PinnedMove(current, s);
    if Abs(current) <= SHARE_EPSILON { TinyGapStays(current, s); }
    OrderForDrift(x, current, PinnedShares(current, s), price, s, SkipDrift(current, s));
  }

  lemma OrderForDrift(x: Symbol, current: real, target: real, price: real, s: Setting, drift: real)
    requires price > 0.0 && drift == Abs(Move(current, target, s.fractional))
    requires (Abs(target) <= SHARE_EPSILON ==> target == 0.0)
             && (Abs(current) <= SHARE_EPSILON ==> drift <= SHARE_EPSILON)
    ensures OrderTo(x, current, target, price, s).None?
            <==> NotWorthMoving(drift, price, target, MinRebalanceDollars(s))
  {
    DollarsNotNegative(drift, price);
  }

  lemma DollarsNotNegative(quantity: real, price: real)
    requires quantity >= 0.0 && price > 0.0
    ensures quantity * price >= 0.0
  {
  }

  // A plan without intents, and one edit of a held symbol.
  lemma LoneEdit(edit: Edit, mode: string, held: Book)
    requires OpOf(edit.op).Some? && edit.symbol != "" && edit.symbol in held && mode in [MODE_TARGET, MODE_INCREMENTAL]
    ensures var plan, op := Plan([], mode, false), OpOf(edit.op).value;
            && Refused(plan, [edit], held).None? && Asks(plan, [edit], held) == map[edit.symbol := op]
            && AllEffects(plan, [edit], held)
               == [Applied(op, edit.symbol, EffectOnUnnamed(op, mode, At(held, edit.symbol, 0.0)))]
  {
    var edits, plan := [edit], Plan([], mode, false);
    assert edits[..0] == [] && Named(plan.intents) == {};
    assert Requested(edits, {}, held) == Admit(map[], edit, {}, held);
    var asks := Asks(plan, edits, held);
    assert MoreEffects([], {}, asks, mode, held) == [] && Effects([], asks, mode, held) == [];
  }

  /** Below one whole share, `skip` turns into the sale of the position, whatever the floors; the record says that
      it was held. */
  lemma SkipSellsAFractionalRemainder(s: Setting)
    requires s.positions == map["X" := 0.5] && s.prices == map["X" := 100.0] && !s.fractional
    ensures var plan := Plan([], MODE_TARGET, false); var edits := [Edit("skip", "X")];
            && Runnable(plan, edits, s)
            && Leg("X", EditedTargets(plan, edits, s), s) == Some(Order("X", Sell, 0.5, 0.0, 0.5, 50.0, 100.0, false))
            && AllEffects(plan, edits, s.positions) == [Applied(Skip, "X", HeldAt(0.5))]
  {
    var plan, edits := Plan([], MODE_TARGET, false), [Edit("skip", "X")];
    LoneEdit(edits[0], plan.mode, s.positions);
    SkipTarget(plan, edits, s, "X");
    assert RoundShares(0.5, false) == 0.0;
  }

  /** On a fractional account `skip` can sell more than is held: 0.006 shares are vetoed, and 0.01 are sold. */
  lemma SkipOversellsOffTheGrid(s: Setting)
    requires s.positions == map["X" := 0.006] && s.prices == map["X" := 100.0] && s.fractional
    ensures var plan := Plan([], MODE_TARGET, false); var edits := [Edit("skip", "X")];
            && Runnable(plan, edits, s)
            && Leg("X", EditedTargets(plan, edits, s), s) == Some(Order("X", Sell, 0.01, 0.0, 0.006, 1.0, 100.0, false))
  {
    var plan, edits := Plan([], MODE_TARGET, false), [Edit("skip", "X")];
    LoneEdit(edits[0], plan.mode, s.positions);
    SkipTarget(plan, edits, s, "X");
    assert RoundShares(0.006, true) == 0.0;
    assert RoundHalfEven((0.0 - 0.006) * 100.0) == -1;
    assert Move(0.006, 0.0, true) == -0.01;
  }

  lemma ExitTarget(plan: Plan, edits: seq<Edit>, s: Setting, x: Symbol)
    requires AsksFor(plan, edits, s, x, Exit)
    ensures var current := At(s.positions, x, 0.0);
            At(EditedTargets(plan, edits, s), x, current)
            == if plan.mode == MODE_TARGET then 0.0
              else current + RoundShares(-current, s.fractional && -current >= 0.0)
  {
    var current := At(s.positions, x, 0.0);
    EditsDecide(plan, edits, x, s);
    var shares := if plan.mode == MODE_TARGET then 0.0 else -current;
    AimOfShares(EditedIntents(plan, edits, s.positions), plan.mode, s, x, shares, current);
    assert 0.0 * Scale(s.fractional) == 0.0;
  }

  // The order that closes a position and nothing else.
  function ClosingOrder(x: Symbol, current: real, price: real): Order {
    Order(x, if current > 0.0 then Sell else Buy, Abs(current), 0.0, current, Abs(current) * price, price, false)
  }

  // Positions whose closing order can be planned: changes below zero are sized in whole shares.
  predicate Closable(current: real, mode: string, fractional: bool) {
    if mode == MODE_TARGET then !fractional || OnGrid(current, true)
    else OnGrid(current, fractional && current <= 0.0)
  }

  lemma MoveToZero(current: real, fractional: bool)
    ensures Move(current, 0.0, fractional) == -current <==> !fractional || OnGrid(current, true)
  {
    assert 0.0 - current == -current;
    RoundCentsFixes(-current);
    GridNegated(current, true);
  }

  lemma ClosingLeg(x: Symbol, targets: Book, s: Setting)
    requires Priced(s, x) && Abs(At(s.positions, x, 0.0)) > SHARE_EPSILON
    ensures var current := At(s.positions, x, 0.0);
            Leg(x, targets, s) == Some(ClosingOrder(x, current, s.prices[x]))
            <==> At(targets, x, current) == 0.0 && (!s.fractional || OnGrid(current, true))
  {
    var current := At(s.positions, x, 0.0);
    MoveToZero(current, s.fractional);
    LegThatCloses(x, targets, s, current, At(targets, x, current), s.prices[x]);
  }

  lemma LegThatCloses(x: Symbol, targets: Book, s: Setting, current: real, target: real, price: real)
    requires Priced(s, x) && s.prices[x] == price && current == At(s.positions, x, 0.0)
             && target == At(targets, x, current)
    requires Abs(current) > SHARE_EPSILON
    ensures Leg(x, targets, s) == Some(ClosingOrder(x, current, price))
            <==> target == 0.0 && Move(current, 0.0, s.fractional) == -current
  {
    if target == 0.0 && Move(current, target, s.fractional) == -current {
      OrderThatCloses(x, current, target, price, s);
    }
    if OrderTo(x, current, target, price, s) == Some(ClosingOrder(x, current, price)) {
      OnlyClosing(x, current, target, price, s);
    }
  }

  lemma OrderThatCloses(x: Symbol, current: real, target: real, price: real, s: Setting)
    requires target == 0.0 && Move(current, target, s.fractional) == -current && Abs(current) > SHARE_EPSILON
             && price > 0.0
    ensures OrderTo(x, current, target, price, s) == Some(ClosingOrder(x, current, price))
  {
    var move := Move(current, target, s.fractional);
    assert move == -current && Abs(move) == Abs(current) && Closing(current, target);
    DollarsNotNegative(Abs(move), price);
    var order := OrderTo(x, current, target, price, s);
    assert order.Some?;
    SameOrder(order.value, ClosingOrder(x, current, price));
  }

  lemma SameOrder(a: Order, b: Order)
    requires a.symbol == b.symbol && a.side == b.side && a.quantity == b.quantity && a.targetShares == b.targetShares
    requires a.currentShares == b.currentShares && a.tradeDollars == b.tradeDollars && a.price == b.price
             && a.opensShort == b.opensShort
    ensures a == b
  {
  }

  lemma OnlyClosing(x: Symbol, current: real, target: real, price: real, s: Setting)
    requires OrderTo(x, current, target, price, s) == Some(ClosingOrder(x, current, price)) && current != 0.0
    ensures target == 0.0 && Move(current, target, s.fractional) == -current
  {
    SameSideSameSize(Move(current, target, s.fractional), current);
    OrderFields(x, current, target, price, s);
  }

  // The fields of an order, one by one.
  lemma OrderFields(x: Symbol, current: real, target: real, price: real, s: Setting)
    requires OrderTo(x, current, target, price, s).Some?
    ensures var o, move := OrderTo(x, current, target, price, s).value, Move(current, target, s.fractional);
            o.targetShares == target && o.quantity == Abs(move) && (o.side.Buy? <==> move > 0.0)
  {
  }

  lemma SameSideSameSize(move: real, current: real)
    requires current != 0.0
    ensures move == -current <==> Abs(move) == Abs(current) && (move > 0.0 <==> current < 0.0)
  {
  }

  /** `exit` on a held, priced symbol plans exactly the closing order, whether or not the plan named it,
      just when the position is a number of shares a plan can move by. */
  lemma ExitIsTheClosingOrder(plan: Plan, edits: seq<Edit>, s: Setting, x: Symbol)
    requires AsksFor(plan, edits, s, x, Exit)
    requires Priced(s, x) && Abs(At(s.positions, x, 0.0)) > SHARE_EPSILON
    ensures var current := At(s.positions, x, 0.0);
            Leg(x, EditedTargets(plan, edits, s), s) == Some(ClosingOrder(x, current, s.prices[x]))
            <==> Closable(current, plan.mode, s.fractional)
  {
    var current := At(s.positions, x, 0.0);
    ExitTarget(plan, edits, s, x);
    ClosingLeg(x, EditedTargets(plan, edits, s), s);
    if plan.mode == MODE_INCREMENTAL {
      var cents := s.fractional && current <= 0.0;
      RoundSharesTowardZero(-current, cents);
      GridNegated(current, cents);
      if OnGrid(current, cents) && !cents {
        WholeIsOnCents(current);
      }
    }
  }

  /** A long position of 10.5 shares is not closed by `exit` in a plan of changes, although the account
      trades fractions: ten shares are to be sold and half a share is left; the record says it was closed. */
  lemma ExitLeavesAFraction(s: Setting)
    requires s.positions == map["X" := 10.5] && s.prices == map["X" := 100.0] && s.fractional
    ensures var plan := Plan([], MODE_INCREMENTAL, false); var edits := [Edit("exit", "X")];
            && Runnable(plan, edits, s)
            && At(EditedTargets(plan, edits, s), "X", 0.0) == 0.5
            && AllEffects(plan, edits, s.positions) == [Applied(Exit, "X", Closed)]
  {
    var plan, edits := Plan([], MODE_INCREMENTAL, false), [Edit("exit", "X")];
    LoneEdit(edits[0], plan.mode, s.positions);
    ExitTarget(plan, edits, s, "X");
    EditsDecide(plan, edits, "X", s);
    AimOfShares(EditedIntents(plan, edits, s.positions), plan.mode, s, "X", -10.5, 0.0);
    assert RoundShares(-10.5, false) == -10.0;
  }

  // -- Whether the record comes true -------------------------------------------------------------

  // What a record says, of the position once its planned leg is carried out.
  ghost predicate ComesTrue(a: Applied, targets: Book, s: Setting) {
    var leg, current := Leg(a.symbol, targets, s), At(s.positions, a.symbol, 0.0);
    match a.effect
    case HeldAt(shares) => leg.None? && current == shares
    case IncrementDropped => leg.None?
    case AlreadyUntouched => leg.None?
    case Closed => current + Change(leg) == 0.0
    case NothingToClose => leg.None? && current == 0.0
  }

  // The positions for which it does.
  predicate Believable(a: Applied, mode: string, s: Setting) {
    match a.effect
    case HeldAt(_) => Honoured(a.symbol, s)
    case Closed => ClosesFully(a.symbol, At(s.positions, a.symbol, 0.0), mode, s)
    case _ => true
  }

  predicate ClosesFully(x: Symbol, current: real, mode: string, s: Setting) {
    current == 0.0 || (Priced(s, x) && Abs(current) > SHARE_EPSILON && Closable(current, mode, s.fractional))
  }

  /** What the record says of a position comes true in the plan exactly when: "held", if the veto is honoured;
      "closed", if the position is priced and one a plan can move by, or is nothing; and anything else, always. */
  lemma RecordTrueExactly(plan: Plan, edits: seq<Edit>, s: Setting, a: Applied)
    requires Runnable(plan, edits, s) && a in AllEffects(plan, edits, s.positions)
    ensures ComesTrue(a, EditedTargets(plan, edits, s), s) <==> Believable(a, plan.mode, s)
  {
    EveryEditIsReported(plan, edits, s.positions, a.symbol);
    match a.effect
    case HeldAt(_) => SkipHonouredExactly(plan, edits, s, a.symbol);
    case IncrementDropped => SkipMeansNoOrder(plan, edits, s, a.symbol);
    case AlreadyUntouched => SkipMeansNoOrder(plan, edits, s, a.symbol);
    case Closed => ClosedTrueExactly(plan, edits, s, a.symbol);
    case NothingToClose => NothingThere(plan, edits, s, a.symbol);
  }

  /** An `exit` aims at zero exactly in a whole-portfolio plan, or for a position on the grid changes are sized on. */
  lemma ExitAimsAtZeroExactly(plan: Plan, edits: seq<Edit>, s: Setting, x: Symbol)
    requires AsksFor(plan, edits, s, x, Exit)
    ensures var current := At(s.positions, x, 0.0);
            At(EditedTargets(plan, edits, s), x, current) == 0.0
            <==> plan.mode == MODE_TARGET || OnGrid(current, s.fractional && current <= 0.0)
  {
    var current := At(s.positions, x, 0.0);
    ExitTarget(plan, edits, s, x);
    RoundSharesTowardZero(-current, s.fractional && -current >= 0.0);
    GridNegated(current, s.fractional && current <= 0.0);
  }

  lemma NothingThere(plan: Plan, edits: seq<Edit>, s: Setting, x: Symbol)
    requires AsksFor(plan, edits, s, x, Exit)
    requires At(s.positions, x, 0.0) == 0.0
    ensures Leg(x, EditedTargets(plan, edits, s), s).None?
  {
    ExitTarget(plan, edits, s, x);
    RoundSharesTowardZero(0.0, s.fractional);
    NoMove(0.0, s.fractional);
  }

  lemma ClosedTrueExactly(plan: Plan, edits: seq<Edit>, s: Setting, x: Symbol)
    requires AsksFor(plan, edits, s, x, Exit)
    ensures var current := At(s.positions, x, 0.0);
            current + Change(Leg(x, EditedTargets(plan, edits, s), s)) == 0.0 <==> ClosesFully(x, current, plan.mode, s)
  {
    var targets, current := EditedTargets(plan, edits, s), At(s.positions, x, 0.0);
    ExitTarget(plan, edits, s, x);
    if current == 0.0 {
      NothingThere(plan, edits, s, x);
    } else if Abs(current) <= SHARE_EPSILON {
      DustStays(x, targets, s, s.fractional && -current >= 0.0);
    } else if Priced(s, x) {
      ExitIsTheClosingOrder(plan, edits, s, x);
      OnlyClosingCloses(x, targets, s, s.fractional && -current >= 0.0);
    }
  }

  lemma DustStays(x: Symbol, targets: Book, s: Setting, cents: bool)
    requires var current := At(s.positions, x, 0.0);
             && Abs(current) <= SHARE_EPSILON
             && At(targets, x, current) in {0.0, current + RoundShares(-current, cents)}
    ensures Leg(x, targets, s).None?
  {
    var current := At(s.positions, x, 0.0);
    DustRounds(current, cents);
    NoMove(current, s.fractional);
  }

  lemma DustRounds(current: real, cents: bool)
    requires Abs(current) <= SHARE_EPSILON
    ensures RoundCents(0.0 - current) == 0.0 && RoundShares(-current, cents) == 0.0
  {
    assert RoundHalfEven((0.0 - current) * 100.0) == 0;
    assert Truncate(-current * Scale(cents)) == 0;
  }

  // A leg that takes a position to zero is its closing order.
  lemma OnlyClosingCloses(x: Symbol, targets: Book, s: Setting, cents: bool)
    requires Priced(s, x) && Abs(At(s.positions, x, 0.0)) > SHARE_EPSILON
    requires var current := At(s.positions, x, 0.0);
             At(targets, x, current) in {0.0, current + RoundShares(-current, cents)}
    ensures var current := At(s.positions, x, 0.0);
            current + Change(Leg(x, targets, s)) == 0.0
            <==> Leg(x, targets, s) == Some(ClosingOrder(x, current, s.prices[x]))
  {
    var current := At(s.positions, x, 0.0);
    var target := At(targets, x, current);
    ClosingLeg(x, targets, s);
    MoveToZero(current, s.fractional);
    if target != 0.0 {
      SharesOnCents(-current, cents);
      assert target - current == RoundShares(-current, cents);
      RoundCentsFixes(target - current);
    }
  }
}
