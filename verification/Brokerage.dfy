/** The broker as its contract describes it.

Every call answers arbitrarily within that contract: listings are stale or partial, cancels fail,
replaces are refused, accepted orders may come back without an id, and orders fill between calls.
A `reliable` venue does exactly what it is asked and lists exactly what it holds.
*/
module Brokerage {
  import opened Wrappers
  import opened OrderProtocol

  datatype Side = Buy | Sell
  datatype OrderType = Market | Limit | Stop | StopLimit

  // The terms an order carries. Listings report the same fields, prices only where there are any.
  datatype Request = Request(symbol: string, side: Side, quantity: real, orderType: OrderType,
                             limitPrice: Option<real>, stopPrice: Option<real>)

  datatype Reply = Refused | Accepted(id: Option<OrderId>)

  ghost predicate Exact(working: map<OrderId, Request>, book: map<OrderId, Request>, issued: set<OrderId>) {
    forall id :: id in issued ==> (id in working <==> id in book) && (id in book ==> working[id] == book[id])
  }

  // What a returned id adds to the ids issued, and what an empty one adds to the orders without an id.
  function Named(id: OrderId): set<OrderId> { if id == "" then {} else {id} }
  function Bare(id: OrderId, key: Key): multiset<Key> { if id == "" then multiset{key} else multiset{} }

  // Ids are strings, and strings never run out.
  lemma FreshIdExists(issued: set<OrderId>)
    ensures exists id: OrderId :: id != "" && id !in issued
  {
    var n := LongerThanAll(issued);
    var id := seq(n, _ => 'x');
    assert |id| == n && id !in issued && id != "";
  }

  lemma LongerThanAll(issued: set<OrderId>) returns (n: nat)
    ensures n > 0 && forall id :: id in issued ==> |id| < n
  {
    n := 1;
    var todo := issued;
    while todo != {}
      invariant todo <= issued
      invariant n > 0 && forall id :: id in issued && id !in todo ==> |id| < n
    {
      var id :| id in todo;
      todo := todo - {id};
      n := if |id| < n then n else |id| + 1;
    }
  }

  class Venue {
    const canList: bool
    const reliable: bool
    var book: map<OrderId, Request>   // this client's orders resting here, by id
    var issued: set<OrderId>          // every id ever returned to the client
    ghost var unnamed: multiset<Key>  // its orders resting here without an id, by what it placed them for

    ghost predicate Valid() reads this {
      book.Keys <= issued && "" !in issued
    }

    constructor (canList: bool, reliable: bool)
      ensures Valid() && book == map[] && issued == {} && unnamed == multiset{}
      ensures this.canList == canList && this.reliable == reliable
    {
      this.canList, this.reliable := canList, reliable;
      book, issued, unnamed := map[], {}, multiset{};
    }

    // Orders leave the book on their own: fills, expiries, cancels made by hand.
    method Drift()
      requires Valid()
      modifies this`book, this`unnamed
      ensures Valid() && book.Keys <= old(book.Keys) && unnamed <= old(unnamed)
      ensures reliable ==> book == old(book) && unnamed == old(unnamed)
    {
      if !reliable {
        assert {} <= book.Keys;
        var kept: set<OrderId> :| kept <= book.Keys;
        book := map id | id in kept :: book[id];
        assert multiset{} <= unnamed;
        ghost var resting: multiset<Key> :| resting <= unnamed;
        unnamed := resting;
      }
    }

    method ListWorking() returns (working: Option<map<OrderId, Request>>)
      requires Valid()
      modifies this`book, this`unnamed
      ensures Valid() && book.Keys <= old(book.Keys) && unnamed <= old(unnamed)
      ensures working.Some? <==> canList
      ensures reliable ==> book == old(book) && unnamed == old(unnamed)
      ensures reliable && working.Some? ==> Exact(working.value, book, issued)
    {
      Drift();
      if !canList { return None; }
      var listing: map<OrderId, Request> := *;
      if reliable {
        listing := (listing - issued) + book;
      }
      working := Some(listing);
    }

    // A cancel that returns means the order is not live, whether or not it ever was.
    method CancelOrder(id: OrderId) returns (returned: bool)
      requires Valid()
      modifies this`book, this`unnamed
      ensures Valid() && book.Keys <= old(book.Keys) && unnamed <= old(unnamed)
      ensures returned ==> id !in book
      ensures reliable ==> returned && book == old(book) - {id} && unnamed == old(unnamed)
    {
      Drift();
      returned := *;
      if reliable || returned {
        returned := true;
        book := book - {id};
      }
    }

    // A submit that raises created nothing. One that returns created one order, named by a fresh
    // id or, from some venues, by no id at all.
    method SubmitOrder(request: Request, ghost key: Key) returns (reply: Reply)
      requires Valid()
      modifies this
      ensures Valid()
      ensures reply.Refused? ==> book.Keys <= old(book.Keys) && issued == old(issued) && unnamed <= old(unnamed)
      ensures reply.Accepted? ==>
                && reply.id.Some? && (reply.id.value == "" || reply.id.value !in old(issued))
                && issued == old(issued) + Named(reply.id.value) && book.Keys <= old(book.Keys) + Named(reply.id.value)
                && unnamed <= old(unnamed) + Bare(reply.id.value, key)
      ensures reliable ==>
                && reply.Accepted? && reply.id.value != "" && book == old(book)[reply.id.value := request]
                && unnamed == old(unnamed)
    {
      Drift();
      var accepted, named: bool := *, *;
      if !reliable && !accepted { return Refused; }
      if !reliable && !named {
        unnamed := unnamed + multiset{key};
        return Accepted(Some(""));
      }
      FreshIdExists(issued);
      var id: OrderId :| id != "" && id !in issued;
      issued, book := issued + {id}, book[id := request];
      Drift();
      reply := Accepted(Some(id));
    }

    // Replace is atomic: refused, or the named order is superseded in one step. The reply may keep
    // the id (by repeating or omitting it), carry a fresh one, or carry an empty one.
    method ReplaceOrder(id: OrderId, request: Request, ghost key: Key) returns (reply: Reply)
      requires Valid()
      modifies this
      ensures Valid()
      ensures reply.Refused? ==> book.Keys <= old(book.Keys) && issued == old(issued) && unnamed <= old(unnamed)
      ensures reply.Accepted? ==>
                var next := reply.id.GetOr(id);
                && id in old(book) && (next == id || next == "" || next !in old(issued))
                && issued == old(issued) + Named(next) && book.Keys <= old(book.Keys) - {id} + Named(next)
                && unnamed <= old(unnamed) + Bare(next, key)
      ensures reliable ==>
                && unnamed == old(unnamed)
                && if id !in old(book) then reply.Refused? && book == old(book)
                   else
                     && reply.Accepted? && reply.id != Some("")
                     && book == (old(book) - {id})[reply.id.GetOr(id) := request]
    {
      var accepted, named, kept: bool := *, *, *;
      if id !in book || (!reliable && !accepted) {
        Drift();
        return Refused;
      }
      if kept {
        book := book[id := request];
        Drift();
        var repeated: bool := *;
        return Accepted(if repeated then Some(id) else None);
      }
      book := book - {id};
      if !reliable && !named {
        unnamed := unnamed + multiset{key};
        Drift();
        return Accepted(Some(""));
      }
      FreshIdExists(issued);
      var next: OrderId :| next != "" && next !in issued;
      issued, book := issued + {next}, book[next := request];
      Drift();
      reply := Accepted(Some(next));
    }
  }
}
