/** Passes over a broker's resting orders: what a run no longer wants is withdrawn, and the rest placed or re-priced.

`Reconciler` performs the passes. Its ghost `log` records every event of the protocol, so the
method contracts say that whole passes are runs of `OrderProtocol`: the lemmas there apply to
any number of passes, cut off after any event.
*/
module Reconcile {
  import opened Wrappers
  import opened OrderProtocol
  import opened Brokerage
  import Sizing

  datatype DesiredOrder = DesiredOrder(key: Key, request: Request, replaceTolerance: real)

  datatype Verdict =
    | Withdrawn | CancelFailed | Submitted | Resubmitted | Rejected | Untracked | Repriced | Unchanged

  datatype Outcome = Outcome(key: Key, verdict: Verdict, orderId: OrderId)

  function Wanted(desired: seq<DesiredOrder>): map<Key, DesiredOrder> {
    if desired == [] then map[]
    else var last := desired[|desired| - 1]; Wanted(desired[..|desired| - 1])[last.key := last]
  }

  // The last order a list gives for a key.
  ghost predicate LastGiven(desired: seq<DesiredOrder>, i: nat, k: Key) {
    i < |desired| && desired[i].key == k && forall j :: i < j < |desired| ==> desired[j].key != k
  }

  /** A list wants exactly the keys it names, and for each the last order it gives for it. */
  lemma {:induction false} WantedIsTheLastGiven(desired: seq<DesiredOrder>, k: Key)
    ensures k in Wanted(desired) <==> exists i :: 0 <= i < |desired| && desired[i].key == k
    ensures k in Wanted(desired) ==> exists i: nat :: LastGiven(desired, i, k) && Wanted(desired)[k] == desired[i]
  {
    if desired != [] {
      var init, last := desired[..|desired| - 1], desired[|desired| - 1];
      WantedIsTheLastGiven(init, k);
      assert desired == init + [last];
      if last.key == k {
        assert LastGiven(desired, |init|, k);
      } else if k in Wanted(init) {
        var i: nat :| LastGiven(init, i, k) && Wanted(init)[k] == init[i];
        StillLastGiven(init, last, i, k);
      } else {
        assert forall i :: 0 <= i < |init| ==> init[i].key != k;
      }
    }
  }

  lemma StillLastGiven(init: seq<DesiredOrder>, last: DesiredOrder, i: nat, k: Key)
    requires LastGiven(init, i, k) && last.key != k
    ensures LastGiven(init + [last], i, k) && (init + [last])[i] == init[i]
  {
  }

  predicate Moved(wanted: Option<real>, current: Option<real>, tolerance: real) {
    wanted.Some? &&
    var now := current.GetOr(0.0);
    now <= 0.0 || Sizing.Abs(wanted.value - now) > Sizing.Max(wanted.value * Sizing.Max(tolerance, 0.0), 0.005)
  }

  predicate NeedsReplacement(desired: DesiredOrder, existing: Request) {
    var request := desired.request;
    || existing.side != request.side
    || existing.quantity != request.quantity
    || existing.orderType != request.orderType
    || Moved(request.limitPrice, existing.limitPrice, desired.replaceTolerance)
    || Moved(request.stopPrice, existing.stopPrice, desired.replaceTolerance)
  }

  // A resting price that needs no change: there is one, and it is within half a cent of the wanted price, or within
  // the share of it that is tolerated.
  ghost predicate PriceStands(wanted: Option<real>, resting: Option<real>, tolerance: real) {
    wanted.Some? ==>
      && resting.Some? && resting.value > 0.0
      && WithinBand(wanted.value - resting.value, wanted.value, tolerance)
  }

  ghost predicate WithinBand(drift: real, wanted: real, tolerance: real) {
    -0.005 <= drift <= 0.005 || (tolerance > 0.0 && -(wanted * tolerance) <= drift <= wanted * tolerance)
  }

  // A resting order agrees with the wanted one in every term that is compared.
  ghost predicate Agrees(desired: DesiredOrder, resting: Request) {
    && resting.side == desired.request.side
    && resting.quantity == desired.request.quantity
    && resting.orderType == desired.request.orderType
    && PriceStands(desired.request.limitPrice, resting.limitPrice, desired.replaceTolerance)
    && PriceStands(desired.request.stopPrice, resting.stopPrice, desired.replaceTolerance)
  }

  lemma MovedExactly(wanted: Option<real>, resting: Option<real>, tolerance: real)
    ensures Moved(wanted, resting, tolerance) <==> !PriceStands(wanted, resting, tolerance)
  {
    if wanted.Some? && tolerance <= 0.0 {
      assert wanted.value * Sizing.Max(tolerance, 0.0) == 0.0;
    }
  }

  /** An order is replaced exactly when it does not agree with the wanted one. */
  lemma ReplacedExactly(desired: DesiredOrder, existing: Request)
    ensures NeedsReplacement(desired, existing) <==> !Agrees(desired, existing)
  {
    MovedExactly(desired.request.limitPrice, existing.limitPrice, desired.replaceTolerance);
    MovedExactly(desired.request.stopPrice, existing.stopPrice, desired.replaceTolerance);
  }

  predicate PositivePrices(request: Request) {
    && (request.limitPrice.Some? ==> request.limitPrice.value > 0.0)
    && (request.stopPrice.Some? ==> request.stopPrice.value > 0.0)
  }

  /** An order resting on exactly the wanted terms is left alone just when its prices are positive;
      with a zero or negative price it would be re-priced on every pass. */
  lemma SettledExactlyWhenPricesPositive(desired: DesiredOrder)
    ensures Agrees(desired, desired.request) <==> PositivePrices(desired.request)
  {
  }

  /** The symbol an order rests on plays no part in the comparison. */
  lemma SymbolIsNotCompared(desired: DesiredOrder, existing: Request, symbol: string)
    ensures NeedsReplacement(desired, existing.(symbol := symbol)) == NeedsReplacement(desired, existing)
    ensures Agrees(desired, existing.(symbol := symbol)) == Agrees(desired, existing)
  {
  }

  // The map names, for every wanted key and no other, an order on the book that can stay as it is.
  ghost predicate Settled(wanted: map<Key, DesiredOrder>, ids: map<Key, OrderId>, book: map<OrderId, Request>) {
    && ids.Keys == wanted.Keys
    && forall k :: k in wanted ==> Stands(wanted[k], ids[k], book)
  }

  ghost predicate Stands(desired: DesiredOrder, id: OrderId, book: map<OrderId, Request>) {
    id != "" && id in book && Agrees(desired, book[id])
  }

  // An order was sent to the broker that no earlier one stood behind.
  predicate Sent(v: Verdict) { v.Submitted? || v.Rejected? || v.Untracked? }

  // What a verdict promises about the map when the pass ends.
  predicate Truthful(r: Outcome, ids: map<Key, OrderId>) {
    match r.verdict
    case Withdrawn | Rejected | Untracked => r.key !in ids
    case CancelFailed | Submitted | Resubmitted | Repriced | Unchanged => r.key in ids && ids[r.key] == r.orderId
  }

  // An accepted order without an id: reported as untracked by a submit, but as replaced by a replace.
  function Unnamed(r: Outcome): multiset<Key> {
    if r.verdict.Untracked? || (r.verdict.Repriced? && r.orderId == "") then multiset{r.key} else multiset{}
  }

  // The keys of all such orders in a report.
  function AllUnnamed(results: seq<Outcome>): multiset<Key> {
    if results == [] then multiset{} else AllUnnamed(results[..|results| - 1]) + Unnamed(results[|results| - 1])
  }

  lemma OneMoreUnnamed(results: seq<Outcome>, r: Outcome)
    ensures AllUnnamed(results + [r]) == AllUnnamed(results) + Unnamed(r)
  {
    assert (results + [r])[..|results|] == results;
  }

  // A listing that tells the truth about one order.
  ghost predicate ListedRight(existing: Option<Request>, id: OrderId, book: map<OrderId, Request>) {
    if id in book then existing == Some(book[id]) else existing.None?
  }

  // What is left of a wanted key at a reliable venue: the order it had, as it was, if that needed no change, and
  // otherwise an order on exactly the wanted terms.
  ghost predicate EndsAs(k: Key, wanted: map<Key, DesiredOrder>, recorded: map<Key, OrderId>,
                         first: map<OrderId, Request>, ids: map<Key, OrderId>, book: map<OrderId, Request>)
    requires k in wanted
  {
    && k in ids && ids[k] != "" && ids[k] in book
    && if LeftAlone(k, wanted, recorded, first) then ids[k] == recorded[k] && book[ids[k]] == first[recorded[k]]
       else book[ids[k]] == wanted[k].request
  }

  // Exactly the wanted keys are in the map, and each ends so.
  ghost predicate AllEnd(wanted: map<Key, DesiredOrder>, recorded: map<Key, OrderId>, first: map<OrderId, Request>,
                         ids: map<Key, OrderId>, book: map<OrderId, Request>) {
    ids.Keys == wanted.Keys && forall k :: k in wanted ==> EndsAs(k, wanted, recorded, first, ids, book)
  }

  // A price an order is left with: close to the wanted one, and positive unless it was sent as it is.
  ghost predicate PriceEnds(wanted: Option<real>, left: Option<real>, tolerance: real) {
    wanted.Some? ==>
      && left.Some? && WithinBand(wanted.value - left.value, wanted.value, tolerance)
      && (left.value > 0.0 || left == wanted)
  }

  // An order is left on the wanted terms, its prices as close as is tolerated.
  ghost predicate EndsOnTerms(desired: DesiredOrder, left: Request) {
    && left.side == desired.request.side
    && left.quantity == desired.request.quantity
    && left.orderType == desired.request.orderType
    && PriceEnds(desired.request.limitPrice, left.limitPrice, desired.replaceTolerance)
    && PriceEnds(desired.request.stopPrice, left.stopPrice, desired.replaceTolerance)
  }

  // Every wanted key has an order on the wanted terms; one that was on them already is the order it had, as it was.
  ghost predicate OnTheTerms(wanted: map<Key, DesiredOrder>, recorded: map<Key, OrderId>, first: map<OrderId, Request>,
                             ids: map<Key, OrderId>, book: map<OrderId, Request>) {
    forall k :: k in wanted ==>
      && k in ids && ids[k] in book && EndsOnTerms(wanted[k], book[ids[k]])
      && (k in recorded && recorded[k] != "" && recorded[k] in first && Agrees(wanted[k], first[recorded[k]]) ==>
            ids[k] == recorded[k] && book[ids[k]] == first[recorded[k]])
  }

  lemma AllEndOnTerms(wanted: map<Key, DesiredOrder>, recorded: map<Key, OrderId>, first: map<OrderId, Request>,
                      ids: map<Key, OrderId>, book: map<OrderId, Request>)
    requires AllEnd(wanted, recorded, first, ids, book)
    ensures OnTheTerms(wanted, recorded, first, ids, book)
  {
    forall k | k in wanted ensures k in ids && ids[k] in book && EndsOnTerms(wanted[k], book[ids[k]]) {
      assert EndsAs(k, wanted, recorded, first, ids, book);
    }
    forall k | k in wanted && LeftAlone(k, wanted, recorded, first)
      ensures ids[k] == recorded[k] && book[ids[k]] == first[recorded[k]]
    {
      assert EndsAs(k, wanted, recorded, first, ids, book);
    }
  }

  /** After such a pass a key's order carries the wanted symbol exactly when it was placed or re-priced in it, or
      rested on that symbol before. */
  lemma SymbolRightExactly(wanted: map<Key, DesiredOrder>, recorded: map<Key, OrderId>, first: map<OrderId, Request>,
                           ids: map<Key, OrderId>, book: map<OrderId, Request>, k: Key)
    requires AllEnd(wanted, recorded, first, ids, book) && k in wanted
    ensures book[ids[k]].symbol == wanted[k].request.symbol
            <==> !LeftAlone(k, wanted, recorded, first) || first[recorded[k]].symbol == wanted[k].request.symbol
  {
    assert EndsAs(k, wanted, recorded, first, ids, book);
  }

  /** So an order resting on another symbol, on terms that are otherwise the wanted ones, stands. */
  lemma WrongSymbolStands(k: Key, desired: DesiredOrder, id: OrderId, symbol: string)
    requires PositivePrices(desired.request) && id != "" && symbol != desired.request.symbol
    ensures var book := map[id := desired.request.(symbol := symbol)];
            && Settled(map[k := desired], map[k := id], book)
            && LeftAlone(k, map[k := desired], map[k := id], book) && book[id].symbol != desired.request.symbol
  {
    SettledExactlyWhenPricesPositive(desired);
    SymbolIsNotCompared(desired, desired.request, symbol);
  }

  /** After such a pass, the next one leaves a key's order alone exactly when this one did, or its wanted prices
      are positive: an order placed with a zero or negative price is re-priced every time. */
  lemma StandsNextExactly(wanted: map<Key, DesiredOrder>, recorded: map<Key, OrderId>, first: map<OrderId, Request>,
                          ids: map<Key, OrderId>, book: map<OrderId, Request>, k: Key)
    requires AllEnd(wanted, recorded, first, ids, book) && k in wanted
    ensures LeftAlone(k, wanted, ids, book)
            <==> LeftAlone(k, wanted, recorded, first) || PositivePrices(wanted[k].request)
  {
    assert EndsAs(k, wanted, recorded, first, ids, book);
    SettledExactlyWhenPricesPositive(wanted[k]);
    if LeftAlone(k, wanted, recorded, first) {
    } else {
      assert book[ids[k]] == wanted[k].request;
    }
  }

  // The keys whose recorded order can stay as it is, and the wanted ones without a recorded order.
  ghost function CalmKeys(wanted: map<Key, DesiredOrder>, recorded: map<Key, OrderId>,
                          first: map<OrderId, Request>): set<Key> {
    set k | k in wanted && LeftAlone(k, wanted, recorded, first)
  }
  ghost function BareKeys(wanted: map<Key, DesiredOrder>, recorded: map<Key, OrderId>): set<Key> {
    wanted.Keys - NonEmpty(recorded).Keys
  }

  // Exactly the calm keys are reported unchanged, and for every bare one an order was sent.
  ghost predicate Told(results: seq<Outcome>, calm: set<Key>, bare: set<Key>) {
    forall i :: 0 <= i < |results| ==> ToldOne(results[i], calm, bare)
  }

  ghost predicate ToldOne(r: Outcome, calm: set<Key>, bare: set<Key>) {
    && (r.verdict.Unchanged? <==> r.key in calm)
    && (r.key in bare ==> Sent(r.verdict))
  }

  ghost predicate SameEntry<K, V>(k: K, a: map<K, V>, b: map<K, V>) {
    (k in a <==> k in b) && (k in a ==> a[k] == b[k])
  }

  // The order recorded for a key is listed on terms that need no change.
  ghost predicate LeftAlone(k: Key, wanted: map<Key, DesiredOrder>, recorded: map<Key, OrderId>,
                            working: map<OrderId, Request>) {
    && k in wanted && k in recorded && recorded[k] != "" && recorded[k] in working
    && Agrees(wanted[k], working[recorded[k]])
  }

  ghost predicate SameExcept<K(!new), V>(but: set<K>, a: map<K, V>, b: map<K, V>) {
    forall k :: k !in but ==> (k in a <==> k in b) && (k in a ==> a[k] == b[k])
  }

  ghost function KeysOf(results: seq<Outcome>): set<Key> {
    set i | 0 <= i < |results| :: results[i].key
  }

  ghost predicate OnePerKey(results: seq<Outcome>) {
    forall i, j :: 0 <= i < j < |results| ==> results[i].key != results[j].key
  }

  // One truthful verdict per key handled so far.
  ghost predicate Report(results: seq<Outcome>, keys: set<Key>, ids: map<Key, OrderId>) {
    && KeysOf(results) == keys && OnePerKey(results)
    && forall i :: 0 <= i < |results| ==> Truthful(results[i], ids)
  }

  // Handling one more key leaves the verdicts already given true.
  lemma ReportGrows(results: seq<Outcome>, keys: set<Key>, r: Outcome, before: map<Key, OrderId>,
                    after: map<Key, OrderId>)
    requires Report(results, keys, before) && r.key !in keys
    requires SameExcept({r.key}, after, before) && Truthful(r, after)
    ensures Report(results + [r], keys + {r.key}, after)
  {
    var all := results + [r];
    assert forall i :: 0 <= i < |results| ==> all[i] == results[i] && results[i].key in KeysOf(results);
    assert all[|results|] == r && r.key in KeysOf(all);
    forall k | k in keys ensures k in KeysOf(all) {
      var i :| 0 <= i < |results| && results[i].key == k;
      assert all[i].key == k;
    }
  }

  // For every bare key an order was sent.
  ghost predicate TellsSent(results: seq<Outcome>, bare: set<Key>) {
    forall i :: 0 <= i < |results| && results[i].key in bare ==> Sent(results[i].verdict)
  }

  lemma ToldIsSent(results: seq<Outcome>, calm: set<Key>, bare: set<Key>)
    requires Told(results, calm, bare)
    ensures TellsSent(results, bare)
  {
    forall i | 0 <= i < |results| && results[i].key in bare ensures Sent(results[i].verdict) {
      assert ToldOne(results[i], calm, bare);
    }
  }

  // What a report is held to: the keys to leave alone, those to send for, and what was without an id before.
  datatype Dues = Dues(calm: set<Key>, bare: set<Key>, nameless: multiset<Key>)

  ghost function DuesOf(wanted: map<Key, DesiredOrder>, recorded: map<Key, OrderId>, working: map<OrderId, Request>,
                        nameless: multiset<Key>): Dues {
    Dues(CalmKeys(wanted, recorded, working), BareKeys(wanted, recorded), nameless)
  }

  // A report so far: one truthful verdict per key, telling what was left alone and what was sent, and owning up
  // to every order that came back without an id.
  ghost predicate Reported(results: seq<Outcome>, keys: set<Key>, ids: map<Key, OrderId>, due: Dues,
                           nameless: multiset<Key>) {
    Report(results, keys, ids) && Told(results, due.calm, due.bare) && nameless == due.nameless + AllUnnamed(results)
  }

  lemma ReportedGrows(results: seq<Outcome>, keys: set<Key>, r: Outcome, ids: map<Key, OrderId>,
                      ids': map<Key, OrderId>, due: Dues, before: multiset<Key>, after: multiset<Key>)
    requires Reported(results, keys, ids, due, before) && r.key !in keys
    requires SameExcept({r.key}, ids', ids) && Truthful(r, ids') && ToldOne(r, due.calm, due.bare)
             && after == before + Unnamed(r)
    ensures Reported(results + [r], keys + {r.key}, ids', due, after)
  {
    ReportGrows(results, keys, r, ids, ids');
    OneMoreUnnamed(results, r);
  }

  // Half-way through the second phase at an exact venue: what is still to do is listed as it is,
  // and what is done ends as it should.
  ghost predicate SoFar(wanted: map<Key, DesiredOrder>, todo: set<Key>, recorded: map<Key, OrderId>,
                        working: map<OrderId, Request>, ids: map<Key, OrderId>, book: map<OrderId, Request>) {
    && ids.Keys <= wanted.Keys
    && (forall k :: k in todo && k in ids ==> SameEntry(ids[k], working, book))
    && (forall k :: k in wanted && k !in todo ==> EndsAs(k, wanted, recorded, working, ids, book))
  }

  lemma SoFarAtFirst(wanted: map<Key, DesiredOrder>, recorded: map<Key, OrderId>, working: map<OrderId, Request>,
                     ids: map<Key, OrderId>, book: map<OrderId, Request>)
    ensures Left(wanted.Keys, ids, working, book) ==> SoFar(wanted, wanted.Keys, recorded, working, ids, book)
  {
  }

  lemma SoFarAtLast(wanted: map<Key, DesiredOrder>, recorded: map<Key, OrderId>, working: map<OrderId, Request>,
                    ids: map<Key, OrderId>, book: map<OrderId, Request>)
    ensures SoFar(wanted, {}, recorded, working, ids, book) ==> AllEnd(wanted, recorded, working, ids, book)
  {
    if SoFar(wanted, {}, recorded, working, ids, book) {
      forall k | k in wanted ensures EndsAs(k, wanted, recorded, working, ids, book) {}
    }
  }

  lemma SoFarGrows(wanted: map<Key, DesiredOrder>, todo: set<Key>, key: Key, recorded: map<Key, OrderId>,
                   working: map<OrderId, Request>, id: OrderId,
                   ids: map<Key, OrderId>, book: map<OrderId, Request>, ids': map<Key, OrderId>,
                     book': map<OrderId, Request>)
    requires key in todo && todo <= wanted.Keys && SoFar(wanted, todo, recorded, working, ids, book)
    requires SameExcept({key}, ids', ids)
    requires EndsAs(key, wanted, recorded, working, ids', book')
    requires SameExcept({id, ids'[key]}, book', book)
    // No two keys name the same order.
    requires forall k :: k in ids && k in wanted && k != key ==> ids[k] !in {id, ids'[key]}
    ensures SoFar(wanted, todo - {key}, recorded, working, ids', book')
  {
    forall k | k in todo && k != key && k in ids'
      ensures SameEntry(ids'[k], working, book')
    {
      assert k in ids && ids'[k] == ids[k] && SameEntry(ids[k], working, book);
    }
    forall k | k in wanted && k !in todo
      ensures EndsAs(k, wanted, recorded, working, ids', book')
    {
      assert EndsAs(k, wanted, recorded, working, ids, book);
      assert ids'[k] == ids[k] && ids[k] in book';
    }
  }

  // The entries of these keys are still as they were recorded.
  ghost predicate Untouched(keys: set<Key>, recorded: map<Key, OrderId>, ids: map<Key, OrderId>) {
    forall k :: k in keys ==>
      && (k in ids <==> k in recorded && recorded[k] != "")
      && (k in ids ==> ids[k] == recorded[k])
  }

  // Nothing is left but these keys, and their orders are on the book as they were at first.
  ghost predicate Left(keys: set<Key>, ids: map<Key, OrderId>, first: map<OrderId, Request>,
                       book: map<OrderId, Request>) {
    ids.Keys <= keys && forall k :: k in ids ==> SameEntry(ids[k], first, book)
  }

  function Unwanted(recorded: map<Key, OrderId>, wanted: map<Key, DesiredOrder>): set<Key> {
    set k | k in recorded && recorded[k] != "" && k !in wanted
  }

  // Where everything wanted already stands, an exact listing shows nothing to do.
  lemma SettledNeedsNothing(recorded: map<Key, OrderId>, wanted: map<Key, DesiredOrder>, working: map<OrderId, Request>,
                            book: map<OrderId, Request>, issued: set<OrderId>)
    requires Settled(wanted, NonEmpty(recorded), book) && Exact(working, book, issued) && book.Keys <= issued
    ensures Unwanted(recorded, wanted) == {} && CalmKeys(wanted, recorded, working) == wanted.Keys
  {
    forall k | k in recorded && recorded[k] != "" ensures k in wanted {
      assert k in NonEmpty(recorded).Keys;
    }
    forall k | k in wanted ensures LeftAlone(k, wanted, recorded, working) {
      assert Stands(wanted[k], NonEmpty(recorded)[k], book);
    }
  }

  // The bookkeeping of a phase: nothing done, everything done, and one key fewer to do.
  lemma FirstAndLast(others: set<Key>, wanted: set<Key>)
    ensures others + (wanted - wanted) == others && others + (wanted - {}) == others + wanted
  {
  }

  lemma OneLess(wanted: set<Key>, todo: set<Key>, unwanted: set<Key>, key: Key)
    requires key in todo && todo <= unwanted
    ensures wanted + (todo - {key}) + {key} == wanted + todo && unwanted - todo + {key} == unwanted - (todo - {key})
  {
  }

  // Which keys the next pass finds as they should be.
  lemma SteadyKeys(wanted: map<Key, DesiredOrder>, recorded: map<Key, OrderId>, first: map<OrderId, Request>,
                   ids: map<Key, OrderId>, book: map<OrderId, Request>)
    requires AllEnd(wanted, recorded, first, ids, book)
    ensures CalmKeys(wanted, ids, book)
            == set k | k in wanted && (k in CalmKeys(wanted, recorded, first) || PositivePrices(wanted[k].request))
    ensures NonEmpty(ids) == ids && BareKeys(wanted, ids) == {}
    ensures CalmKeys(wanted, ids, book) == wanted.Keys ==> Settled(wanted, ids, book)
  {
    forall k | k in wanted
      ensures LeftAlone(k, wanted, ids, book)
              <==> LeftAlone(k, wanted, recorded, first) || PositivePrices(wanted[k].request)
      ensures ids[k] != ""
    {
      assert EndsAs(k, wanted, recorded, first, ids, book);
      StandsNextExactly(wanted, recorded, first, ids, book, k);
    }
    if CalmKeys(wanted, ids, book) == wanted.Keys {
      forall k | k in wanted ensures Stands(wanted[k], ids[k], book) {
        assert k in CalmKeys(wanted, ids, book);
      }
    }
  }

  // Two passes leave what one pass leaves.
  lemma EndsTwice(wanted: map<Key, DesiredOrder>, recorded: map<Key, OrderId>, first: map<OrderId, Request>,
                  ids: map<Key, OrderId>, book: map<OrderId, Request>, ids': map<Key, OrderId>,
                    book': map<OrderId, Request>)
    requires AllEnd(wanted, recorded, first, ids, book) && AllEnd(wanted, ids, book, ids', book')
    ensures AllEnd(wanted, recorded, first, ids', book')
  {
    forall k | k in wanted ensures EndsAs(k, wanted, recorded, first, ids', book') {
      assert EndsAs(k, wanted, recorded, first, ids, book) && EndsAs(k, wanted, ids, book, ids', book');
      StandsNextExactly(wanted, recorded, first, ids, book, k);
    }
  }

  // An exact listing stands for the book it was taken of.
  lemma ListingIsBook(recorded: map<Key, OrderId>, wanted: map<Key, DesiredOrder>, working: map<OrderId, Request>,
                      first: map<OrderId, Request>, issued: set<OrderId>, k: Key)
    requires Exact(working, first, issued) && (k in recorded && recorded[k] != "" ==> recorded[k] in issued)
    ensures LeftAlone(k, wanted, recorded, working) <==> LeftAlone(k, wanted, recorded, first)
    ensures LeftAlone(k, wanted, recorded, working) ==> working[recorded[k]] == first[recorded[k]]
  {
  }

  lemma AllEndByBook(recorded: map<Key, OrderId>, wanted: map<Key, DesiredOrder>, working: map<OrderId, Request>,
                     first: map<OrderId, Request>, issued: set<OrderId>, ids: map<Key, OrderId>,
                       book: map<OrderId, Request>)
    requires Exact(working, first, issued) && (forall k :: k in recorded && recorded[k] != "" ==> recorded[k] in issued)
    requires AllEnd(wanted, recorded, working, ids, book)
    ensures AllEnd(wanted, recorded, first, ids, book)
  {
    forall k | k in wanted ensures EndsAs(k, wanted, recorded, first, ids, book) {
      assert EndsAs(k, wanted, recorded, working, ids, book);
      ListingIsBook(recorded, wanted, working, first, issued, k);
    }
  }

  lemma CalmByBook(recorded: map<Key, OrderId>, wanted: map<Key, DesiredOrder>, working: map<OrderId, Request>,
                   first: map<OrderId, Request>, issued: set<OrderId>)
    requires Exact(working, first, issued) && (forall k :: k in recorded && recorded[k] != "" ==> recorded[k] in issued)
    ensures CalmKeys(wanted, recorded, working) == CalmKeys(wanted, recorded, first)
  {
    forall k | k in wanted ensures k in CalmKeys(wanted, recorded, working)
      <==> k in CalmKeys(wanted, recorded, first) {
      ListingIsBook(recorded, wanted, working, first, issued, k);
    }
  }

  lemma EveryKeyReported(recorded: map<Key, OrderId>, wanted: map<Key, DesiredOrder>)
    ensures Unwanted(recorded, wanted) + wanted.Keys == wanted.Keys + NonEmpty(recorded).Keys
  {
  }

  // What a replace that answered with `next` comes to in the protocol.
  ghost function Replacement(key: Key, id: OrderId, next: OrderId): Event {
    if next == "" then ReplacedUnnamed(key, id) else Replaced(key, id, next)
  }

  lemma ReplacedWith(w: World, key: Key, id: OrderId, next: OrderId)
    requires Covered(w) && key in w.ids && w.ids[key] == id && id in w.live && id in w.role && w.role[id] == key
    requires next == id || next == "" || next !in w.role
    ensures var e := Replacement(key, id, next);
            && Enabled(w, e)
            && var after := Apply(w, e);
               && after.ids == w.ids[key := next] && after.saved == w.saved && after.lost == w.lost
               && after.live == w.live - {id} + Named(next) && after.role.Keys == w.role.Keys + Named(next)
               && after.unnamed == w.unnamed + Bare(next, key) && after.nameless == w.nameless + Bare(next, key)
  {
    if next == id {
      SameAgain(w.ids, key, w.live, id);
    }
  }

  lemma SameAgain(ids: map<Key, OrderId>, key: Key, live: set<OrderId>, id: OrderId)
    requires key in ids && ids[key] == id && id in live
    ensures ids[key := id] == ids && live - {id} + {id} == live
  {
  }

  lemma WhatIsLeft(live: set<OrderId>, book: set<OrderId>)
    requires book <= live
    ensures live - (live - book) == book
  {
  }

  lemma StillUnnamed(before: multiset<Key>, after: multiset<Key>)
    requires after <= before
    ensures before - (before - after) == after
  {
  }

  class Reconciler {
    const venue: Venue
    var orderIds: map<Key, OrderId>   // the map this pass works on
    var stored: map<Key, OrderId>     // the map in the state store
    ghost const origin: SoundWorld
    ghost var log: seq<Event>
    ghost var world: World

    // Everything that has happened is a run of the protocol.
    ghost predicate Logged() reads this {
      ValidRun(origin, log) && world == Run(origin, log)
    }

    ghost predicate Valid() reads this, venue {
      && Logged() && venue.Valid()
      && world.live == venue.book.Keys && world.role.Keys == venue.issued && world.unnamed == venue.unnamed
      && world.ids == orderIds && world.saved == stored
    }

    // Take up the work from a store and a venue that agree with a sound state of the protocol.
    constructor (venue: Venue, stored: map<Key, OrderId>, ghost start: SoundWorld)
      requires venue.Valid() && start.saved == start.ids == stored
      requires start.live == venue.book.Keys && start.role.Keys == venue.issued && start.unnamed == venue.unnamed
      ensures Valid() && this.venue == venue && this.stored == stored && world == start && log == []
    {
      this.venue, this.stored, this.orderIds := venue, stored, stored;
      origin, world, log := start, start, [];
    }

    lemma Sound()
      requires Logged()
      ensures Inv(world)
    {
      RunKeepsInv(origin, log);
    }

    ghost method Note(e: Event)
      requires Logged() && Enabled(world, e)
      modifies this`log, this`world
      ensures Logged() && log == old(log) + [e] && world == Apply(old(world), e)
    {
      log := log + [e];
      assert log[..|log| - 1] == old(log);
      world := Apply(world, e);
    }

    // The protocol has not caught up yet with what left the venue.
    ghost predicate Behind() reads this, venue {
      && Logged() && venue.Valid()
      && venue.book.Keys <= world.live && venue.unnamed <= world.unnamed && world.role.Keys == venue.issued
      && world.ids == orderIds && world.saved == stored
    }

    // Record what left the venue, if anything did.
    ghost method CatchUp()
      requires Behind()
      modifies this`log, this`world
      ensures Valid() && old(log) <= log
      ensures world == old(world).(live := venue.book.Keys, unnamed := venue.unnamed)
      ensures old(world.live) == venue.book.Keys && old(world.unnamed) == venue.unnamed ==> log == old(log)
    {
      if world.live == venue.book.Keys && world.unnamed == venue.unnamed {
        return;
      }
      var left, quiet := world.live - venue.book.Keys, world.unnamed - venue.unnamed;
      WhatIsLeft(world.live, venue.book.Keys);
      StillUnnamed(world.unnamed, venue.unnamed);
      Note(Drifted(left, quiet));
    }

    method Commit()
      requires Valid()
      modifies this`stored, this`log, this`world
      ensures Valid() && log == old(log) + [Persisted]
      ensures stored == orderIds && world == old(world).(saved := orderIds)
      ensures Covered(world)
    {
      Sound();
      stored := orderIds;
      Note(Persisted);
    }

    method Cancel(id: OrderId) returns (confirmed: bool)
      requires Valid() && id in venue.issued
      modifies this`log, this`world, venue`book, venue`unnamed
      ensures Valid() && old(log) <= log
      ensures old(Covered(world)) ==> Covered(world)
      ensures world.lost == old(world.lost) && world.role == old(world.role) && world.nameless == old(world.nameless)
      ensures confirmed ==> id in world.gone
      ensures venue.reliable ==> confirmed && venue.book == old(venue.book) - {id}
    {
      confirmed := venue.CancelOrder(id);
      if confirmed {
        Note(Cancelled(id));
      }
      CatchUp();
    }

    method Submit(key: Key, desired: DesiredOrder) returns (outcome: Outcome)
      requires Valid() && Covered(world) && Released(world, key)
      modifies this`orderIds, this`log, this`world, venue
      ensures Valid() && old(log) <= log
      ensures world.lost == old(world.lost) && old(world.gone) <= world.gone
      ensures world.nameless == old(world.nameless) + Unnamed(outcome)
      ensures outcome.key == key && Sent(outcome.verdict)
      ensures outcome.verdict.Submitted? ==> outcome.orderId != "" && orderIds == old(orderIds)[key := outcome.orderId]
      ensures outcome.verdict.Untracked? ==> orderIds == old(orderIds) - {key}
      ensures outcome.verdict.Rejected? ==> orderIds == old(orderIds)
      ensures venue.reliable ==>
                && outcome.verdict.Submitted? && outcome.orderId !in old(venue.issued)
                && venue.book == old(venue.book)[outcome.orderId := desired.request]
      ensures venue.reliable ==> old(venue.issued) <= venue.issued
    {
      var reply := venue.SubmitOrder(desired.request, key);
      if reply.Refused? {
        CatchUp();
        outcome := Outcome(key, Rejected, "");
      } else if reply.id.value == "" {
        outcome := TakeUnnamed(key);
      } else {
        outcome := TakePlaced(key, reply.id.value);
      }
    }

    method TakeUnnamed(key: Key) returns (outcome: Outcome)
      requires Logged() && Covered(world) && Released(world, key)
      requires venue.Valid() && world.ids == orderIds && world.saved == stored
      requires venue.book.Keys <= world.live && venue.issued == world.role.Keys
               && venue.unnamed <= world.unnamed + multiset{key}
      modifies this`orderIds, this`log, this`world
      ensures Valid() && old(log) <= log
      ensures world.lost == old(world.lost) && old(world.gone) <= world.gone
              && world.nameless == old(world.nameless) + multiset{key}
      ensures orderIds == old(orderIds) - {key} && outcome == Outcome(key, Untracked, "")
    {
      NoteUnnamed(key);
      orderIds := orderIds - {key};
      CatchUp();
      outcome := Outcome(key, Untracked, "");
    }

    ghost method NoteUnnamed(key: Key)
      requires Logged() && Covered(world) && Released(world, key)
      modifies this`log, this`world
      ensures Logged() && old(log) <= log
      ensures world == old(world).(ids := old(world.ids) - {key}, unnamed := old(world.unnamed) + multiset{key},
                                   nameless := old(world.nameless) + multiset{key})
    {
      Note(PlacedUnnamed(key));
      Note(Forgot(key));
    }

    method TakePlaced(key: Key, id: OrderId) returns (outcome: Outcome)
      requires Logged() && Covered(world) && Released(world, key) && id != "" && id !in world.role
      requires venue.Valid() && world.ids == orderIds && world.saved == stored
      requires venue.book.Keys <= world.live + {id} && venue.issued == world.role.Keys + {id}
               && venue.unnamed <= world.unnamed
      modifies this`orderIds, this`log, this`world
      ensures Valid() && old(log) <= log
      ensures world.lost == old(world.lost) && old(world.gone) <= world.gone && world.nameless == old(world.nameless)
      ensures orderIds == old(orderIds)[key := id] && outcome == Outcome(key, Submitted, id)
    {
      Note(Placed(key, id));
      orderIds := orderIds[key := id];
      CatchUp();
      outcome := Outcome(key, Submitted, id);
    }

    // The fallback where the venue refuses to re-price in place: cancel, and only then submit.
    method Resubmit(key: Key, desired: DesiredOrder, id: OrderId) returns (outcome: Outcome)
      requires Valid() && Covered(world)
      requires key in orderIds && orderIds[key] == id && id in venue.issued
      modifies this`orderIds, this`log, this`world, venue
      ensures Valid() && old(log) <= log
      ensures world.lost == old(world.lost) && world.nameless == old(world.nameless) + Unnamed(outcome)
      ensures SameExcept({key}, orderIds, old(orderIds))
      ensures outcome.key == key && Truthful(outcome, orderIds)
      ensures !outcome.verdict.Unchanged?
    {
      var confirmed := Cancel(id);
      if !confirmed {
        orderIds := orderIds[key := id];
        return Outcome(key, CancelFailed, id);
      }
      outcome := Submit(key, desired);
      if outcome.verdict.Submitted? {
        return Outcome(key, Resubmitted, outcome.orderId);
      }
      Note(Forgot(key));
      orderIds := orderIds - {key};
    }

    method Replace(key: Key, desired: DesiredOrder, id: OrderId) returns (outcome: Outcome)
      requires Valid() && Covered(world)
      requires key in orderIds && orderIds[key] == id && id in venue.issued
      modifies this`orderIds, this`log, this`world, venue
      ensures Valid() && old(log) <= log
      ensures world.lost == old(world.lost) && world.nameless == old(world.nameless) + Unnamed(outcome)
      ensures SameExcept({key}, orderIds, old(orderIds))
      ensures outcome.key == key && Truthful(outcome, orderIds)
      ensures !outcome.verdict.Unchanged?
      ensures venue.reliable && id in old(venue.book) ==>
                && outcome.verdict.Repriced? && outcome.orderId != "" && outcome.orderId !in old(venue.issued) - {id}
                && venue.book == (old(venue.book) - {id})[outcome.orderId := desired.request]
    {
      var reply := venue.ReplaceOrder(id, desired.request, key);
      if reply.Refused? {
        outcome := AfterRefusal(key, desired, id);
      } else {
        outcome := TakeReplacement(key, id, reply.id.GetOr(id));
      }
    }

    method AfterRefusal(key: Key, desired: DesiredOrder, id: OrderId) returns (outcome: Outcome)
      requires Behind() && Covered(world)
      requires key in orderIds && orderIds[key] == id && id in venue.issued
      modifies this`orderIds, this`log, this`world, venue
      ensures Valid() && old(log) <= log
      ensures world.lost == old(world.lost) && world.nameless == old(world.nameless) + Unnamed(outcome)
      ensures SameExcept({key}, orderIds, old(orderIds))
      ensures outcome.key == key && Truthful(outcome, orderIds)
      ensures !outcome.verdict.Unchanged?
    {
      CatchUp();
      outcome := Resubmit(key, desired, id);
    }

    method TakeReplacement(key: Key, id: OrderId, next: OrderId) returns (outcome: Outcome)
      requires Logged() && Covered(world) && venue.Valid() && world.ids == orderIds && world.saved == stored
      requires key in orderIds && orderIds[key] == id && id in world.live
      requires next == id || next == "" || next !in world.role
      requires venue.book.Keys <= world.live - {id} + Named(next) && venue.issued == world.role.Keys + Named(next)
      requires venue.unnamed <= world.unnamed + Bare(next, key)
      modifies this`orderIds, this`log, this`world
      ensures Valid() && old(log) <= log
      ensures world.lost == old(world.lost) && world.nameless == old(world.nameless) + Unnamed(outcome)
      ensures orderIds == old(orderIds)[key := next] && outcome == Outcome(key, Repriced, next)
    {
      outcome := Outcome(key, Repriced, next);
      NoteReplacement(key, id, next);
      orderIds := orderIds[key := next];
      CatchUp();
    }

    ghost method NoteReplacement(key: Key, id: OrderId, next: OrderId)
      requires Logged() && Covered(world)
      requires key in world.ids && world.ids[key] == id && id in world.live
      requires next == id || next == "" || next !in world.role
      modifies this`log, this`world
      ensures Logged() && old(log) <= log
      ensures world.ids == old(world.ids)[key := next] && world.saved == old(world.saved)
              && world.lost == old(world.lost)
      ensures world.live == old(world.live) - {id} + Named(next)
              && world.role.Keys == old(world.role).Keys + Named(next)
      ensures world.unnamed == old(world.unnamed) + Bare(next, key)
              && world.nameless == old(world.nameless) + Bare(next, key)
    {
      Sound();
      ReplacedWith(world, key, id, next);
      Note(Replacement(key, id, next));
    }

    // Cancel a key's order and, once the broker confirms it, forget the id and save that.
    method Release(key: Key, id: OrderId) returns (confirmed: bool)
      requires Valid() && Covered(world)
      requires key in orderIds && orderIds[key] == id && id in venue.issued
      modifies this`orderIds, this`stored, this`log, this`world, venue`book, venue`unnamed
      ensures Valid() && Covered(world) && old(log) <= log && world.lost == old(world.lost)
              && world.nameless == old(world.nameless)
      ensures orderIds == if confirmed then old(orderIds) - {key} else old(orderIds)
      ensures venue.reliable ==> confirmed && venue.book == old(venue.book) - {id}
    {
      confirmed := Cancel(id);
      if confirmed {
        Note(Forgot(key));
        orderIds := orderIds - {key};
        Commit();
      }
    }

    // One key that is recorded but no longer wanted.
    method Drop(key: Key, id: OrderId) returns (outcome: Outcome)
      requires Valid() && Covered(world)
      requires key in orderIds && orderIds[key] == id && id in venue.issued
      modifies this`orderIds, this`stored, this`log, this`world, venue`book, venue`unnamed
      ensures Valid() && Covered(world) && old(log) <= log && world.lost == old(world.lost)
              && world.nameless == old(world.nameless)
      ensures SameExcept({key}, orderIds, old(orderIds))
      ensures outcome.key == key && (outcome.verdict.Withdrawn? || outcome.verdict.CancelFailed?)
              && Truthful(outcome, orderIds)
      ensures venue.reliable ==> outcome.verdict.Withdrawn? && venue.book == old(venue.book) - {id}
    {
      var confirmed := Release(key, id);
      outcome := Outcome(key, if confirmed then Withdrawn else CancelFailed, id);
    }

    method SubmitAndSave(key: Key, desired: DesiredOrder) returns (outcome: Outcome)
      requires Valid() && Covered(world) && key !in orderIds
      modifies this`orderIds, this`stored, this`log, this`world, venue
      ensures Valid() && Covered(world) && old(log) <= log && world.lost == old(world.lost)
      ensures world.nameless == old(world.nameless) + Unnamed(outcome)
      ensures SameExcept({key}, orderIds, old(orderIds))
      ensures outcome.key == key && Sent(outcome.verdict) && Truthful(outcome, orderIds)
      ensures venue.reliable ==>
                && outcome.verdict.Submitted? && outcome.orderId != "" && outcome.orderId !in old(venue.issued)
                && venue.book == old(venue.book)[outcome.orderId := desired.request]
    {
      outcome := Submit(key, desired);
      Commit();
    }

    // Recorded but not listed, or not recorded at all: cancel what may still be live, then submit.
    method PlaceUnlisted(key: Key, desired: DesiredOrder, id: OrderId) returns (outcome: Outcome)
      requires Valid() && Covered(world)
      requires if id == "" then key !in orderIds else key in orderIds && orderIds[key] == id && id in venue.issued
      modifies this`orderIds, this`stored, this`log, this`world, venue
      ensures Valid() && Covered(world) && old(log) <= log && world.lost == old(world.lost)
      ensures world.nameless == old(world.nameless) + Unnamed(outcome)
      ensures SameExcept({key}, orderIds, old(orderIds))
      ensures outcome.key == key && Truthful(outcome, orderIds)
      ensures (outcome.verdict.CancelFailed? && id != "") || Sent(outcome.verdict)
      ensures venue.reliable ==>
                && outcome.verdict.Submitted? && outcome.orderId != "" && outcome.orderId !in old(venue.issued)
                && venue.book == (old(venue.book) - {id})[outcome.orderId := desired.request]
    {
      if id != "" {
        var confirmed := Release(key, id);
        if !confirmed {
          return Outcome(key, CancelFailed, id);
        }
      }
      outcome := SubmitAndSave(key, desired);
    }

    // One wanted key, with what the map and the listing say of it.
    method Settle(key: Key, desired: DesiredOrder, id: OrderId, existing: Option<Request>) returns (outcome: Outcome)
      requires Valid() && Covered(world)
      requires if id == "" then key !in orderIds && existing.None?
               else key in orderIds && orderIds[key] == id && id in venue.issued
      modifies this`orderIds, this`stored, this`log, this`world, venue
      ensures Valid() && Covered(world) && old(log) <= log && world.lost == old(world.lost)
      ensures world.nameless == old(world.nameless) + Unnamed(outcome)
      ensures SameExcept({key}, orderIds, old(orderIds))
      ensures outcome.key == key && Truthful(outcome, orderIds)
      ensures outcome.verdict.Unchanged? <==> existing.Some? && Agrees(desired, existing.value)
      ensures id == "" ==> Sent(outcome.verdict)
      ensures venue.reliable && ListedRight(existing, id, old(venue.book)) && !outcome.verdict.Unchanged? ==>
                && key in orderIds && orderIds[key] != "" && orderIds[key] !in old(venue.issued) - {id}
                && orderIds[key] in venue.book && venue.book[orderIds[key]] == desired.request
                && SameExcept({id, orderIds[key]}, venue.book, old(venue.book))
      ensures outcome.verdict.Unchanged? ==> outcome.orderId == id && Here() == old(Here())
    {
      if existing.Some? { ReplacedExactly(desired, existing.value); }
      if existing.None? {
        outcome := PlaceUnlisted(key, desired, id);
      } else if NeedsReplacement(desired, existing.value) {
        outcome := Replace(key, desired, id);
        Commit();
      } else {
        orderIds := orderIds[key := id];
        outcome := Outcome(key, Unchanged, id);
        assert orderIds == old(orderIds);
      }
    }

    // Different keys name different orders.
    lemma DistinctIds()
      requires Valid()
      ensures forall j, k :: j in orderIds && k in orderIds && orderIds[j] == orderIds[k] != "" ==> j == k
      ensures forall k :: k in orderIds && orderIds[k] != "" ==> orderIds[k] in venue.issued
    {
      Sound();
    }

    // Everything a caller or the broker can see, for saying that nothing happened.
    ghost function Here(): (seq<Event>, map<Key, OrderId>, map<Key, OrderId>, map<OrderId, Request>, set<OrderId>)
      reads this, venue
    {
      (log, orderIds, stored, venue.book, venue.issued)
    }

    // The next key that is recorded but no longer wanted.
    method DropNext(key: Key, recorded: map<Key, OrderId>, ghost others: set<Key>, ghost first: map<OrderId, Request>)
      returns (outcome: Outcome)
      requires Valid() && Covered(world) && Untouched(others + {key}, recorded, orderIds)
      requires key in recorded && recorded[key] != "" && key !in others
      requires venue.reliable ==> Left(others + {key}, orderIds, first, venue.book)
      modifies this`orderIds, this`stored, this`log, this`world, venue`book, venue`unnamed
      ensures Valid() && Covered(world) && old(log) <= log && world.lost == old(world.lost)
              && world.nameless == old(world.nameless)
      ensures SameExcept({key}, orderIds, old(orderIds)) && Untouched(others, recorded, orderIds)
      ensures outcome.key == key && (outcome.verdict.Withdrawn? || outcome.verdict.CancelFailed?)
              && Truthful(outcome, orderIds)
      ensures venue.reliable ==> Left(others, orderIds, first, venue.book)
    {
      DistinctIds();
      outcome := Drop(key, recorded[key]);
    }

    // One more unwanted key, reported.
    method DropOne(results: seq<Outcome>, ghost done: set<Key>, key: Key, recorded: map<Key, OrderId>,
                   ghost others: set<Key>, ghost first: map<OrderId, Request>, ghost due: Dues)
      returns (more: seq<Outcome>)
      requires Valid() && Covered(world) && Untouched(others + {key}, recorded, orderIds)
      requires key in recorded && recorded[key] != "" && key !in others && key !in done && key !in due.calm + due.bare
      requires Reported(results, done, orderIds, due, world.nameless)
      requires venue.reliable ==> Left(others + {key}, orderIds, first, venue.book)
      modifies this`orderIds, this`stored, this`log, this`world, venue`book, venue`unnamed
      ensures Valid() && Covered(world) && old(log) <= log && world.lost == old(world.lost)
      ensures Untouched(others, recorded, orderIds)
      ensures Reported(more, done + {key}, orderIds, due, world.nameless)
      ensures venue.reliable ==> Left(others, orderIds, first, venue.book)
    {
      ghost var before, nameless := orderIds, world.nameless;
      var outcome := DropNext(key, recorded, others, first);
      ReportedGrows(results, done, outcome, before, orderIds, due, nameless, world.nameless);
      more := results + [outcome];
    }

    // First phase, from its start: everything recorded that is no longer wanted.
    method DropEach(recorded: map<Key, OrderId>, wanted: set<Key>, unwanted: set<Key>, ghost due: Dues)
      returns (results: seq<Outcome>)
      requires Valid() && Covered(world) && Untouched(wanted + unwanted, recorded, orderIds)
      requires due.calm + due.bare <= wanted && wanted !! unwanted
      requires forall k :: k in unwanted ==> k in recorded && recorded[k] != ""
      requires Reported([], unwanted - unwanted, orderIds, due, world.nameless)
      requires venue.reliable ==> Left(wanted + unwanted, orderIds, venue.book, venue.book)
      modifies this`orderIds, this`stored, this`log, this`world, venue`book, venue`unnamed
      ensures Valid() && Covered(world) && old(log) <= log && world.lost == old(world.lost)
      ensures Untouched(wanted + {}, recorded, orderIds)
      ensures Reported(results, unwanted - {}, orderIds, due, world.nameless)
      ensures venue.reliable ==> Left(wanted + {}, orderIds, old(venue.book), venue.book)
      ensures unwanted == {} ==> Here() == old(Here())
    {
      results := [];
      var todo := unwanted;
      while todo != {}
        invariant todo <= unwanted
        invariant Valid() && Covered(world) && old(log) <= log && world.lost == old(world.lost)
        invariant Untouched(wanted + todo, recorded, orderIds)
        invariant Reported(results, unwanted - todo, orderIds, due, world.nameless)
        invariant venue.reliable ==> Left(wanted + todo, orderIds, old(venue.book), venue.book)
        invariant unwanted == {} ==> Here() == old(Here())
      {
        var key :| key in todo;
        OneLess(wanted, todo, unwanted, key);
        results := DropOne(results, unwanted - todo, key, recorded, wanted + (todo - {key}), old(venue.book), due);
        todo := todo - {key};
      }
    }

    // First phase: everything recorded that is no longer wanted.
    method DropUnwanted(recorded: map<Key, OrderId>, wanted: map<Key, DesiredOrder>, ghost due: Dues)
      returns (results: seq<Outcome>)
      requires Valid() && Covered(world) && orderIds == NonEmpty(recorded)
      requires due.calm + due.bare <= wanted.Keys && due.nameless == world.nameless
      modifies this`orderIds, this`stored, this`log, this`world, venue`book, venue`unnamed
      ensures Valid() && Covered(world) && old(log) <= log && world.lost == old(world.lost)
      ensures Untouched(wanted.Keys, recorded, orderIds)
      ensures Reported(results, Unwanted(recorded, wanted), orderIds, due, world.nameless)
      ensures venue.reliable ==> Left(wanted.Keys, orderIds, old(venue.book), venue.book)
      ensures Unwanted(recorded, wanted) == {} ==> Here() == old(Here())
    {
      var unwanted := Unwanted(recorded, wanted);
      assert unwanted - {} == unwanted && wanted.Keys + {} == wanted.Keys;
      results := DropEach(recorded, wanted.Keys, unwanted, due);
    }

    // The next wanted key.
    method SettleNext(key: Key, recorded: map<Key, OrderId>, wanted: map<Key, DesiredOrder>,
                      working: map<OrderId, Request>, ghost todo: set<Key>, ghost exact: bool)
      returns (outcome: Outcome)
      requires Valid() && Covered(world) && Untouched(todo, recorded, orderIds)
      requires key in todo && todo <= wanted.Keys
      requires exact ==> venue.reliable && SoFar(wanted, todo, recorded, working, orderIds, venue.book)
      modifies this`orderIds, this`stored, this`log, this`world, venue
      ensures Valid() && Covered(world) && old(log) <= log && world.lost == old(world.lost)
      ensures world.nameless == old(world.nameless) + Unnamed(outcome)
      ensures SameExcept({key}, orderIds, old(orderIds)) && Untouched(todo - {key}, recorded, orderIds)
      ensures outcome.key == key && Truthful(outcome, orderIds)
      ensures ToldOne(outcome, CalmKeys(wanted, recorded, working), BareKeys(wanted, recorded))
      ensures exact ==> SoFar(wanted, todo - {key}, recorded, working, orderIds, venue.book)
      ensures LeftAlone(key, wanted, recorded, working) ==> Here() == old(Here())
    {
      var id := if key in recorded then recorded[key] else "";
      var existing := if id != "" && id in working then Some(working[id]) else None;
      DistinctIds();
      ghost var before, priorBook := orderIds, venue.book;
      assert exact ==> forall k :: k in before && k != key && k in wanted ==> before[k] != id;
      outcome := Settle(key, wanted[key], id, existing);
      if exact {
        SoFarGrows(wanted, todo, key, recorded, working, id, before, priorBook, orderIds, venue.book);
      }
    }

    method ReportNext(results: seq<Outcome>, ghost others: set<Key>, key: Key, recorded: map<Key, OrderId>,
                      wanted: map<Key, DesiredOrder>, working: map<OrderId, Request>, ghost todo: set<Key>,
                      ghost exact: bool, ghost due: Dues)
      returns (more: seq<Outcome>)
      requires Valid() && Covered(world) && Untouched(todo, recorded, orderIds)
      requires key in todo && todo <= wanted.Keys && others !! wanted.Keys
      requires due.calm == CalmKeys(wanted, recorded, working) && due.bare == BareKeys(wanted, recorded)
      requires Reported(results, others + (wanted.Keys - todo), orderIds, due, world.nameless)
      requires exact ==> venue.reliable && SoFar(wanted, todo, recorded, working, orderIds, venue.book)
      modifies this`orderIds, this`stored, this`log, this`world, venue
      ensures Valid() && Covered(world) && old(log) <= log && world.lost == old(world.lost)
      ensures Untouched(todo - {key}, recorded, orderIds)
      ensures Reported(more, others + (wanted.Keys - (todo - {key})), orderIds, due, world.nameless)
      ensures exact ==> SoFar(wanted, todo - {key}, recorded, working, orderIds, venue.book)
      ensures key in due.calm ==> Here() == old(Here())
    {
      ghost var before, nameless := orderIds, world.nameless;
      var outcome := SettleNext(key, recorded, wanted, working, todo, exact);
      ReportedGrows(results, others + (wanted.Keys - todo), outcome, before, orderIds, due, nameless, world.nameless);
      assert others + (wanted.Keys - (todo - {key})) == others + (wanted.Keys - todo) + {key};
      more := results + [outcome];
    }

    // Second phase, from its start: every wanted order is left, re-priced or placed.
    method PlaceEach(dropped: seq<Outcome>, ghost others: set<Key>, recorded: map<Key, OrderId>,
                     wanted: map<Key, DesiredOrder>, working: map<OrderId, Request>, ghost exact: bool, ghost due: Dues)
      returns (results: seq<Outcome>)
      requires Valid() && Covered(world) && Untouched(wanted.Keys, recorded, orderIds)
      requires others !! wanted.Keys && due.calm == CalmKeys(wanted, recorded, working)
               && due.bare == BareKeys(wanted, recorded)
      requires Reported(dropped, others + (wanted.Keys - wanted.Keys), orderIds, due, world.nameless)
      requires exact ==> venue.reliable && SoFar(wanted, wanted.Keys, recorded, working, orderIds, venue.book)
      modifies this`orderIds, this`stored, this`log, this`world, venue
      ensures Valid() && Covered(world) && old(log) <= log && world.lost == old(world.lost)
      ensures Reported(results, others + (wanted.Keys - {}), orderIds, due, world.nameless)
      ensures exact ==> SoFar(wanted, {}, recorded, working, orderIds, venue.book)
      ensures due.calm == wanted.Keys ==> Here() == old(Here())
    {
      results := dropped;
      var todo := wanted.Keys;
      while todo != {}
        invariant todo <= wanted.Keys
        invariant Valid() && Covered(world) && old(log) <= log && world.lost == old(world.lost)
        invariant Untouched(todo, recorded, orderIds)
        invariant Reported(results, others + (wanted.Keys - todo), orderIds, due, world.nameless)
        invariant exact ==> SoFar(wanted, todo, recorded, working, orderIds, venue.book)
        invariant due.calm == wanted.Keys ==> Here() == old(Here())
      {
        var key :| key in todo;
        results := ReportNext(results, others, key, recorded, wanted, working, todo, exact, due);
        todo := todo - {key};
      }
    }

    // Second phase: every wanted order is left, re-priced or placed.
    method PlaceWanted(dropped: seq<Outcome>, ghost others: set<Key>, recorded: map<Key, OrderId>,
                       wanted: map<Key, DesiredOrder>, working: map<OrderId, Request>, ghost due: Dues)
      returns (results: seq<Outcome>)
      requires Valid() && Covered(world) && Untouched(wanted.Keys, recorded, orderIds) && others !! wanted.Keys
      requires due.calm == CalmKeys(wanted, recorded, working) && due.bare == BareKeys(wanted, recorded)
      requires Reported(dropped, others, orderIds, due, world.nameless)
      modifies this`orderIds, this`stored, this`log, this`world, venue
      ensures Valid() && Covered(world) && old(log) <= log && world.lost == old(world.lost)
      ensures Reported(results, others + wanted.Keys, orderIds, due, world.nameless)
      ensures venue.reliable && Left(wanted.Keys, old(orderIds), working, old(venue.book)) ==>
                AllEnd(wanted, recorded, working, orderIds, venue.book)
      ensures due.calm == wanted.Keys ==> Here() == old(Here())
    {
      ghost var exact := venue.reliable && Left(wanted.Keys, orderIds, working, venue.book);
      FirstAndLast(others, wanted.Keys);
      SoFarAtFirst(wanted, recorded, working, orderIds, venue.book);
      results := PlaceEach(dropped, others, recorded, wanted, working, exact, due);
      SoFarAtLast(wanted, recorded, working, orderIds, venue.book);
    }

    // A pass starts from the store and from a listing, or is refused where there is no listing.
    method Begin() returns (working: Option<map<OrderId, Request>>)
      requires Valid()
      modifies this`orderIds, this`log, this`world, venue`book, venue`unnamed
      ensures Valid() && old(log) <= log && (working.Some? <==> venue.canList) && world.nameless == old(world.nameless)
      ensures working.None? ==> orderIds == old(orderIds) && world.lost == old(world.lost)
      ensures working.Some? ==> orderIds == NonEmpty(stored) && Covered(world)
      ensures old(Covered(world)) ==> Covered(world) && world.lost == old(world.lost)
      ensures venue.reliable && working.Some? ==>
                && venue.book == old(venue.book) && Exact(working.value, venue.book, venue.issued)
                && log == old(log) + [Restarted]
    {
      working := List();
      if working.Some? {
        Restart();
      }
    }

    method List() returns (working: Option<map<OrderId, Request>>)
      requires Valid()
      modifies this`log, this`world, venue`book, venue`unnamed
      ensures Valid() && old(log) <= log && (working.Some? <==> venue.canList)
      ensures world.nameless == old(world.nameless) && world.lost == old(world.lost)
      ensures old(Covered(world)) ==> Covered(world)
      ensures venue.reliable ==>
                log == old(log) && venue.book == old(venue.book)
                && (working.Some? ==> Exact(working.value, venue.book, venue.issued))
    {
      working := venue.ListWorking();
      CatchUp();
    }

    method Restart()
      requires Valid()
      modifies this`orderIds, this`log, this`world
      ensures Valid() && log == old(log) + [Restarted] && orderIds == NonEmpty(stored) && Covered(world)
      ensures world.nameless == old(world.nameless) && (old(Covered(world)) ==> world.lost == old(world.lost))
    {
      assert old(Covered(world)) ==> Unsaved(world) == {};
      Note(Restarted);
      Sound();
      orderIds := NonEmpty(stored);
    }

    // What the store names was issued by the venue.
    lemma StoredIsIssued()
      requires Valid()
      ensures forall k :: k in stored && stored[k] != "" ==> stored[k] in venue.issued
    {
      Sound();
    }

    /** One pass.

    Whatever the broker does, the pass is a run of the protocol that ends with the map in the store
    and one truthful verdict per key: it sends an order for every wanted key without one, and its
    report owns up to exactly the orders that came back without an id. At a reliable venue it leaves
    exactly the wanted keys in the map, each naming the order it had, where that needed no change,
    and otherwise one on exactly the wanted terms; its report says which; and where nothing needs
    a change it does nothing but restart and persist. */
    method Reconcile(desired: seq<DesiredOrder>) returns (results: Option<seq<Outcome>>)
      requires Valid()
      modifies this`orderIds, this`stored, this`log, this`world, venue
      ensures Valid() && old(log) <= log
      ensures results.None? <==> !venue.canList
      ensures results.None? ==>
                orderIds == old(orderIds) && stored == old(stored) && world.nameless == old(world.nameless)
      ensures old(Covered(world)) ==> Covered(world) && world.lost == old(world.lost)
      ensures results.Some? ==>
                && stored == orderIds && Covered(world)
                && Report(results.value, Wanted(desired).Keys + NonEmpty(old(stored)).Keys, orderIds)
                && world.nameless == old(world.nameless) + AllUnnamed(results.value)
                && TellsSent(results.value, BareKeys(Wanted(desired), old(stored)))
      ensures results.Some? && venue.reliable ==>
                && AllEnd(Wanted(desired), old(stored), old(venue.book), orderIds, venue.book)
                && OnTheTerms(Wanted(desired), old(stored), old(venue.book), orderIds, venue.book)
                && Told(results.value, CalmKeys(Wanted(desired), old(stored), old(venue.book)),
                  BareKeys(Wanted(desired), old(stored)))
      ensures results.Some? && venue.reliable && Settled(Wanted(desired), NonEmpty(old(stored)), old(venue.book)) ==>
                && log == old(log) + [Restarted, Persisted]
                && venue.book == old(venue.book) && venue.issued == old(venue.issued)
                  && orderIds == NonEmpty(old(stored))
    {
      ghost var recorded, first := stored, venue.book;
      results := ReconcileWanted(Wanted(desired));
      if results.Some? && venue.reliable {
        AllEndOnTerms(Wanted(desired), recorded, first, orderIds, venue.book);
      }
    }

    method ReconcileWanted(wanted: map<Key, DesiredOrder>) returns (results: Option<seq<Outcome>>)
      requires Valid()
      modifies this`orderIds, this`stored, this`log, this`world, venue
      ensures Valid() && old(log) <= log
      ensures results.None? <==> !venue.canList
      ensures results.None? ==>
                orderIds == old(orderIds) && stored == old(stored) && world.nameless == old(world.nameless)
      ensures old(Covered(world)) ==> Covered(world) && world.lost == old(world.lost)
      ensures results.Some? ==>
                && stored == orderIds && Covered(world)
                && Report(results.value, wanted.Keys + NonEmpty(old(stored)).Keys, orderIds)
                && world.nameless == old(world.nameless) + AllUnnamed(results.value)
                && TellsSent(results.value, BareKeys(wanted, old(stored)))
      ensures results.Some? && venue.reliable ==>
                && AllEnd(wanted, old(stored), old(venue.book), orderIds, venue.book)
                && Told(results.value, CalmKeys(wanted, old(stored), old(venue.book)), BareKeys(wanted, old(stored)))
      ensures results.Some? && venue.reliable && Settled(wanted, NonEmpty(old(stored)), old(venue.book)) ==>
                && log == old(log) + [Restarted, Persisted]
                && venue.book == old(venue.book) && venue.issued == old(venue.issued)
                  && orderIds == NonEmpty(old(stored))
    {
      ghost var before := log;
      var recorded := stored;
      var working := Begin();
      if working.None? { return None; }
      StoredIsIssued();
      var outcomes := PassFrom(recorded, wanted, working.value);
      assert before + [Restarted] + [Persisted] == before + [Restarted, Persisted];
      results := Some(outcomes);
    }

    // The pass proper, once the store and the listing are read, at a venue that lists its book or at any other.
    method PassFrom(recorded: map<Key, OrderId>, wanted: map<Key, DesiredOrder>, working: map<OrderId, Request>)
      returns (results: seq<Outcome>)
      requires Valid() && Covered(world) && orderIds == NonEmpty(recorded)
      requires forall k :: k in recorded && recorded[k] != "" ==> recorded[k] in venue.issued
      modifies this`orderIds, this`stored, this`log, this`world, venue
      ensures Valid() && Covered(world) && old(log) <= log && world.lost == old(world.lost) && stored == orderIds
      ensures Report(results, wanted.Keys + NonEmpty(recorded).Keys, orderIds)
      ensures world.nameless == old(world.nameless) + AllUnnamed(results)
              && TellsSent(results, BareKeys(wanted, recorded))
      ensures venue.reliable && Exact(working, old(venue.book), old(venue.issued)) ==>
                && AllEnd(wanted, recorded, old(venue.book), orderIds, venue.book)
                && Told(results, CalmKeys(wanted, recorded, old(venue.book)), BareKeys(wanted, recorded))
      ensures venue.reliable && Exact(working, old(venue.book), old(venue.issued))
              && Settled(wanted, old(orderIds), old(venue.book)) ==>
                && log == old(log) + [Persisted]
                && venue.book == old(venue.book) && venue.issued == old(venue.issued) && orderIds == old(orderIds)
    {
      ghost var first, issued, exact := venue.book, venue.issued, venue.reliable
        && Exact(working, venue.book, venue.issued);
      if exact && Settled(wanted, orderIds, venue.book) {
        SettledNeedsNothing(recorded, wanted, working, venue.book, venue.issued);
      }
      results := Complete(recorded, wanted, working);
      ToldIsSent(results, CalmKeys(wanted, recorded, working), BareKeys(wanted, recorded));
      if exact {
        AllEndByBook(recorded, wanted, working, first, issued, orderIds, venue.book);
        CalmByBook(recorded, wanted, working, first, issued);
      }
    }

    // Both phases, and the last write.
    method Complete(recorded: map<Key, OrderId>, wanted: map<Key, DesiredOrder>, working: map<OrderId, Request>)
      returns (results: seq<Outcome>)
      requires Valid() && Covered(world) && orderIds == NonEmpty(recorded)
      modifies this`orderIds, this`stored, this`log, this`world, venue
      ensures Valid() && Covered(world) && old(log) <= log && world.lost == old(world.lost) && stored == orderIds
      ensures Reported(results, wanted.Keys + NonEmpty(recorded).Keys, orderIds,
                       DuesOf(wanted, recorded, working, old(world.nameless)), world.nameless)
      ensures venue.reliable && Exact(working, old(venue.book), old(venue.issued)) ==>
                AllEnd(wanted, recorded, working, orderIds, venue.book)
      ensures Unwanted(recorded, wanted) == {} && CalmKeys(wanted, recorded, working) == wanted.Keys ==>
                && log == old(log) + [Persisted]
                && venue.book == old(venue.book) && venue.issued == old(venue.issued) && orderIds == old(orderIds)
    {
      results := TwoPhases(recorded, wanted, working);
      Commit();
      EveryKeyReported(recorded, wanted);
    }

    method TwoPhases(recorded: map<Key, OrderId>, wanted: map<Key, DesiredOrder>, working: map<OrderId, Request>)
      returns (results: seq<Outcome>)
      requires Valid() && Covered(world) && orderIds == NonEmpty(recorded)
      modifies this`orderIds, this`stored, this`log, this`world, venue
      ensures Valid() && Covered(world) && old(log) <= log && world.lost == old(world.lost)
      ensures Reported(results, Unwanted(recorded, wanted) + wanted.Keys, orderIds,
                       DuesOf(wanted, recorded, working, old(world.nameless)), world.nameless)
      ensures venue.reliable && Exact(working, old(venue.book), old(venue.issued)) ==>
                AllEnd(wanted, recorded, working, orderIds, venue.book)
      ensures Unwanted(recorded, wanted) == {} && CalmKeys(wanted, recorded, working) == wanted.Keys ==>
              Here() == old(Here())
    {
      ghost var due := DuesOf(wanted, recorded, working, world.nameless);
      var dropped := DropUnwanted(recorded, wanted, due);
      DistinctIds();
      if venue.reliable && Exact(working, old(venue.book), old(venue.issued)) {
        forall k | k in orderIds ensures SameEntry(orderIds[k], working, venue.book) {
          assert SameEntry(orderIds[k], old(venue.book), venue.book);
        }
      }
      results := PlaceWanted(dropped, Unwanted(recorded, wanted), recorded, wanted, working, due);
    }

    /** Any number of passes, at any venue: nothing this client placed is ever orphaned. Every named
        order still on the book is in the store under its own key, so no key has two. Counting those
        without an id as well, no key ever has two exactly when none was placed for a key that had
        a live one without an id; and whichever of those may have left unseen, exactly when no key was
        sent for again after one came back for it. */
    method ReconcileMany(batches: seq<seq<DesiredOrder>>)
      requires Valid() && Covered(world) && world.lost == {}
      modifies this`orderIds, this`stored, this`log, this`world, venue
      ensures Valid() && old(log) <= log && Covered(world) && world.lost == {}
      ensures forall id :: id in venue.book ==> Holds(stored, world.role, id)
      ensures forall a, b :: a in venue.book && b in venue.book && world.role[a] == world.role[b] ==> a == b
      ensures OneEach(origin) ==> (OneEachThroughout(origin, log) <==> !PlacedOver(origin, log))
      ensures OneEach(origin) && origin.unnamed == multiset{} ==>
                ((forall other :: LooksLike(other, log) ==> OneEachThroughout(origin, other)) <==> !SentAgain(log))
    {
      for i := 0 to |batches|
        invariant Valid() && old(log) <= log && Covered(world) && world.lost == {}
      {
        var _ := Reconcile(batches[i]);
      }
      Sound();
      if OneEach(origin) {
        OneEachExactly(origin, log);
        if origin.unnamed == multiset{} { OneEachWhateverLeft(origin, log); }
      }
    }

    /** Asserting the same desires twice: the second pass leaves a key alone exactly when the first did,
        or its wanted prices are positive; and if that is so of every key, it sends nothing at all. */
    method ReconcileTwice(desired: seq<DesiredOrder>) returns (second: seq<Outcome>, ghost middle: seq<Event>)
      requires Valid() && venue.reliable && venue.canList
      modifies this`orderIds, this`stored, this`log, this`world, venue
      ensures Valid() && old(log) <= middle <= log
      ensures var wanted := Wanted(desired); var calm := CalmKeys(wanted, old(stored), old(venue.book));
              var steady := set k | k in wanted && (k in calm || PositivePrices(wanted[k].request));
              && Told(second, steady, {}) && AllEnd(wanted, old(stored), old(venue.book), orderIds, venue.book)
              && (steady == wanted.Keys ==>
                log == middle + [Restarted, Persisted] && Settled(wanted, stored, venue.book))
    {
      ghost var wanted, before, book := Wanted(desired), stored, venue.book;
      var _ := Reconcile(desired);
      middle := log;
      ghost var ids, between := stored, venue.book;
      SteadyKeys(wanted, before, book, ids, between);
      var outcomes := Reconcile(desired);
      second := outcomes.value;
      EndsTwice(wanted, before, book, ids, between, orderIds, venue.book);
    }
  }
}
