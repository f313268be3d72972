/** The exchange as a value: the live orders, the trees that index them, the traders'
    positions and the counters; and what each step of the engine does to them. */
module Markets {
  import opened OrderedSeq
  import opened Orders

  /** A trader's order tree, position and cash per product, and next order number. */
  datatype Trader = Trader(orders: seq<Id>, quantities: seq<int>, cash: seq<int>, next: int)

  datatype Market = Market(store: Store, buy: seq<seq<Id>>, sell: seq<seq<Id>>, traders: seq<Trader>,
                           issued: int, fees: int)

  // ---------- what every state satisfies ----------

  predicate InBook(store: Store, side: Side, p: nat, id: Id) {
    id in store && store[id].side == side && store[id].product == p
  }

  /** A price tree holds exactly the live orders of its side and product, in priority. */
  ghost predicate BookOk(store: Store, side: Side, p: nat, tree: seq<Id>) {
    Priority(store, side, tree) && forall id :: id in tree <==> InBook(store, side, p, id)
  }

  /** A trader's tree holds exactly the trader's live orders, by their numbers. */
  ghost predicate OwnOk(store: Store, t: nat, tree: seq<Id>) {
    Owned(tree, t) && forall id :: id in tree <==> id in store && id.owner == t
  }

  ghost predicate BooksOk(store: Store, side: Side, trees: seq<seq<Id>>) {
    forall p :: 0 <= p < |trees| ==> BookOk(store, side, p, trees[p])
  }

  ghost predicate OwnsOk(store: Store, traders: seq<Trader>) {
    forall t :: 0 <= t < |traders| ==> OwnOk(store, t, traders[t].orders)
  }

  predicate Sizes(m: Market) {
    && |m.buy| == |m.sell|
    && forall t :: 0 <= t < |m.traders| ==>
        |m.traders[t].quantities| == |m.traders[t].cash| == |m.buy| && 0 <= m.traders[t].next
  }

  /** The order's trader and product exist, and both of its numbers were issued. */
  predicate Placed(m: Market, id: Id, o: Order) {
    && id.owner < |m.traders| && o.product < |m.buy| == |m.sell|
    && 0 <= id.local < m.traders[id.owner].next
    && 0 <= o.global_id < m.issued
  }

  ghost predicate AllPlaced(m: Market) {
    forall id :: id in m.store ==> Placed(m, id, m.store[id])
  }

  /** The two indexes agree with the live orders and with each other. */
  ghost predicate Indexed(m: Market) {
    && Sizes(m) && 0 <= m.issued <= INT_LIMIT && Ids(m.store) && AllPlaced(m)
    && BooksOk(m.store, Buy, m.buy) && BooksOk(m.store, Sell, m.sell) && OwnsOk(m.store, m.traders)
  }

  /** The best price is first in every tree, and among equal prices the order that has
      waited longest; and every live order is in the tree of its side and product. */
  lemma PriceTime(m: Market, p: nat)
    requires Indexed(m) && p < |m.buy|
    ensures forall i, j :: 0 <= i < j < |m.sell[p]| ==>
      && m.sell[p][i] in m.store && m.sell[p][j] in m.store
      && var x, y := m.store[m.sell[p][i]], m.store[m.sell[p][j]];
        x.price < y.price || (x.price == y.price && x.global_id < y.global_id)
    ensures forall i, j :: 0 <= i < j < |m.buy[p]| ==>
      && m.buy[p][i] in m.store && m.buy[p][j] in m.store
      && var x, y := m.store[m.buy[p][i]], m.store[m.buy[p][j]];
        x.price > y.price || (x.price == y.price && x.global_id < y.global_id)
    ensures forall id :: id in m.sell[p] <==> id in m.store && m.store[id].side == Sell && m.store[id].product == p
    ensures forall id :: id in m.buy[p] <==> id in m.store && m.store[id].side == Buy && m.store[id].product == p
  {
    var store := m.store;
    assert BookOk(store, Sell, p, m.sell[p]) && BookOk(store, Buy, p, m.buy[p]);
    forall i, j | 0 <= i < j < |m.sell[p]| ensures Before(Sell, store[m.sell[p][i]], store[m.sell[p][j]]) { }
    forall i, j | 0 <= i < j < |m.buy[p]| ensures Before(Buy, store[m.buy[p][i]], store[m.buy[p][j]]) { }
  }

  ghost predicate Positive(store: Store) {
    forall id :: id in store ==> store[id].quantity > 0 && store[id].price > 0
  }

  function Book(m: Market, side: Side, p: nat): seq<Id>
    requires p < |m.buy| == |m.sell|
  {
    if side == Buy then m.buy[p] else m.sell[p]
  }

  function SetBook(m: Market, side: Side, p: nat, tree: seq<Id>): Market
    requires p < |m.buy| == |m.sell|
  {
    if side == Buy then m.(buy := m.buy[p := tree]) else m.(sell := m.sell[p := tree])
  }

  function SetOwn(m: Market, t: nat, tree: seq<Id>): Market
    requires t < |m.traders|
  {
    m.(traders := m.traders[t := m.traders[t].(orders := tree)])
  }

  // ---------- steps ----------

  /** File a live order in its price tree. */
  function FileIn(m: Market, id: Id): Market
    requires id in m.store && m.store[id].product < |m.buy| == |m.sell|
  {
    var o := m.store[id];
    SetBook(m, o.side, o.product, Put(ByPrice(m.store, o.side), Book(m, o.side, o.product), id))
  }

  /** Take a live order out of its price tree. */
  function FileOut(m: Market, id: Id): Market
    requires id in m.store && m.store[id].product < |m.buy| == |m.sell|
  {
    var o := m.store[id];
    SetBook(m, o.side, o.product, Remove(ByPrice(m.store, o.side), Book(m, o.side, o.product), id))
  }

  /** A new order, in both of its trees. */
  function Enter(m: Market, id: Id, o: Order): Market
    requires id.owner < |m.traders| && o.product < |m.buy| == |m.sell|
  {
    var m1 := FileIn(m.(store := m.store[id := o]), id);
    SetOwn(m1, id.owner, Put(ByLocal, m1.traders[id.owner].orders, id))
  }

  /** An order taken from both of its trees and freed. */
  function Leave(m: Market, id: Id): Market
    requires id in m.store && Placed(m, id, m.store[id])
  {
    var m1 := FileOut(m, id);
    SetOwn(m1, id.owner, Remove(ByLocal, m1.traders[id.owner].orders, id)).(store := m.store - {id})
  }

  /** A trader's next order number, used up. */
  function Number(m: Market, t: nat): Market
    requires t < |m.traders|
  {
    m.(traders := m.traders[t := m.traders[t].(next := m.traders[t].next + 1)])
  }

  function Make(m: Market, side: Side, t: nat, p: nat, quantity: Int, price: Int, local: int): Market
    requires t < |m.traders| && p < |m.buy| == |m.sell|
  {
    Enter(m.(issued := m.issued + 1), Id(t, local), Order(side, p, quantity, price, m.issued))
  }

  /** Out of the price tree, changed, and back in under the new key. */
  function Amend(m: Market, id: Id, quantity: Int, price: Int): Market
    requires id in m.store && m.store[id].product < |m.buy| == |m.sell|
  {
    var o := m.store[id].(quantity := quantity, price := price, global_id := m.issued);
    FileIn(FileOut(m, id).(store := m.store[id := o], issued := m.issued + 1), id)
  }

  /** A quantity taken off an order's, as its int holds the difference. */
  function Reduce(store: Store, id: Id, quantity: int): Store
    requires id in store
  {
    store[id := store[id].(quantity := Narrow(store[id].quantity - quantity))]
  }

  // ---------- every step keeps the indexes ----------

  lemma BookPut(store: Store, side: Side, p: nat, tree: seq<Id>, id: Id, o: Order)
    requires BookOk(store, side, p, tree) && id !in store && Ids(store[id := o])
    ensures BookOk(store[id := o], side, p,
      if o.side == side && o.product == p then Put(ByPrice(store[id := o], side), tree, id) else tree)
  {
    var store' := store[id := o];
    assert forall x :: x in tree ==> x in store && store'[x] == store[x];
    assert Priority(store', side, tree);
    if o.side == side && o.product == p { FileOrder(store', side, tree, id); }
  }

  lemma BookLess(store: Store, side: Side, p: nat, tree: seq<Id>, id: Id)
    requires Priority(store, side, tree) && forall x :: x in tree <==> InBook(store, side, p, x) && x != id
    ensures BookOk(store - {id}, side, p, tree)
  {
    forall i | 0 <= i < |tree| ensures tree[i] in store - {id} {
      assert tree[i] in tree && InBook(store, side, p, tree[i]);
    }
    assert Priority(store - {id}, side, tree);
  }

  lemma BookCut(store: Store, side: Side, p: nat, tree: seq<Id>, id: Id)
    requires BookOk(store, side, p, tree) && id in store && Ids(store)
    ensures BookOk(store - {id}, side, p,
      if InBook(store, side, p, id) then Remove(ByPrice(store, side), tree, id) else tree)
  {
    if InBook(store, side, p, id) {
      var k :| 0 <= k < |tree| && tree[k] == id;
      UnfileOrder(store, side, tree, k);
      BookLess(store, side, p, Remove(ByPrice(store, side), tree, id), id);
    } else {
      BookLess(store, side, p, tree, id);
    }
  }

  lemma BookReduce(store: Store, side: Side, p: nat, tree: seq<Id>, id: Id, quantity: int)
    requires BookOk(store, side, p, tree) && id in store
    ensures BookOk(Reduce(store, id, quantity), side, p, tree)
  {
  }

  lemma BooksPut(store: Store, side: Side, trees: seq<seq<Id>>, id: Id, o: Order)
    requires BooksOk(store, side, trees) && id !in store && Ids(store[id := o]) && o.product < |trees|
    ensures BooksOk(store[id := o], side,
      if o.side == side then trees[o.product := Put(ByPrice(store[id := o], side), trees[o.product], id)] else trees)
  {
    forall p | 0 <= p < |trees|
      ensures BookOk(store[id := o], side, p,
        if o.side == side && o.product == p then Put(ByPrice(store[id := o], side), trees[p], id) else trees[p])
    {
      BookPut(store, side, p, trees[p], id, o);
    }
  }

  lemma BooksCut(store: Store, side: Side, trees: seq<seq<Id>>, id: Id)
    requires BooksOk(store, side, trees) && id in store && Ids(store) && store[id].product < |trees|
    ensures BooksOk(store - {id}, side,
      if store[id].side == side
      then trees[store[id].product := Remove(ByPrice(store, side), trees[store[id].product], id)] else trees)
  {
    forall p | 0 <= p < |trees|
      ensures BookOk(store - {id}, side, p,
        if InBook(store, side, p, id) then Remove(ByPrice(store, side), trees[p], id) else trees[p])
    {
      BookCut(store, side, p, trees[p], id);
    }
  }

  lemma OwnsPut(store: Store, traders: seq<Trader>, id: Id, o: Order)
    requires OwnsOk(store, traders) && id !in store && id.owner < |traders|
    ensures var t := traders[id.owner];
      OwnsOk(store[id := o], traders[id.owner := t.(orders := Put(ByLocal, t.orders, id))])
  {
    EnterOwn(traders[id.owner].orders, id);
  }

  lemma OwnsCut(store: Store, traders: seq<Trader>, id: Id)
    requires OwnsOk(store, traders) && id in store && id.owner < |traders|
    ensures var t := traders[id.owner];
      OwnsOk(store - {id}, traders[id.owner := t.(orders := Remove(ByLocal, t.orders, id))])
  {
    LeaveOwn(traders[id.owner].orders, id);
  }

  lemma FreshIds(store: Store, id: Id, o: Order)
    requires Ids(store) && 0 <= o.global_id < INT_LIMIT
    requires forall x :: x in store && x != id ==> store[x].global_id < o.global_id
    ensures Ids(store[id := o])
  {
  }

  lemma EnterFrame(m: Market, id: Id, o: Order)
    requires id.owner < |m.traders| && o.product < |m.buy| == |m.sell|
    ensures var m', t := Enter(m, id, o), m.traders[id.owner];
      && m'.store == m.store[id := o] && m'.issued == m.issued
      && m'.buy == (if o.side == Buy
          then m.buy[o.product := Put(ByPrice(m'.store, Buy), m.buy[o.product], id)] else m.buy)
      && m'.sell == (if o.side == Sell
          then m.sell[o.product := Put(ByPrice(m'.store, Sell), m.sell[o.product], id)] else m.sell)
      && m'.traders == m.traders[id.owner := t.(orders := Put(ByLocal, t.orders, id))]
  {
  }

  lemma EnterIndexed(m: Market, id: Id, o: Order)
    requires Indexed(m) && id !in m.store && Placed(m, id, o) && Ids(m.store[id := o])
    ensures Indexed(Enter(m, id, o))
  {
    var m' := Enter(m, id, o);
    EnterFrame(m, id, o);
    assert BooksOk(m'.store, Buy, m'.buy) by { BooksPut(m.store, Buy, m.buy, id, o); }
    assert BooksOk(m'.store, Sell, m'.sell) by { BooksPut(m.store, Sell, m.sell, id, o); }
    assert OwnsOk(m'.store, m'.traders) by { OwnsPut(m.store, m.traders, id, o); }
    assert AllPlaced(m') by {
      forall x | x in m'.store ensures Placed(m', x, m'.store[x]) {
        assert x in m.store ==> Placed(m, x, m.store[x]);
      }
    }
  }

  lemma LeaveFrame(m: Market, id: Id)
    requires id in m.store && Placed(m, id, m.store[id])
    ensures var m', o, t := Leave(m, id), m.store[id], m.traders[id.owner];
      && m'.store == m.store - {id} && m'.issued == m.issued
      && m'.buy == (if o.side == Buy
          then m.buy[o.product := Remove(ByPrice(m.store, Buy), m.buy[o.product], id)] else m.buy)
      && m'.sell == (if o.side == Sell
          then m.sell[o.product := Remove(ByPrice(m.store, Sell), m.sell[o.product], id)] else m.sell)
      && m'.traders == m.traders[id.owner := t.(orders := Remove(ByLocal, t.orders, id))]
  {
  }

  lemma LeaveIndexed(m: Market, id: Id)
    requires Indexed(m) && id in m.store
    ensures Placed(m, id, m.store[id]) && Indexed(Leave(m, id))
  {
    assert Placed(m, id, m.store[id]);
    var m' := Leave(m, id);
    LeaveFrame(m, id);
    assert BooksOk(m'.store, Buy, m'.buy) by { BooksCut(m.store, Buy, m.buy, id); }
    assert BooksOk(m'.store, Sell, m'.sell) by { BooksCut(m.store, Sell, m.sell, id); }
    assert OwnsOk(m'.store, m'.traders) by { OwnsCut(m.store, m.traders, id); }
    assert AllPlaced(m') by {
      forall x | x in m'.store ensures Placed(m', x, m'.store[x]) { assert Placed(m, x, m.store[x]); }
    }
  }

  /** Numbers not issued yet are free. */
  lemma AdvanceIndexed(m: Market, t: nat)
    requires Indexed(m) && t < |m.traders| && m.issued < INT_LIMIT
    ensures Indexed(Number(m, t).(issued := m.issued + 1))
    ensures forall x :: x in m.store ==> x != Id(t, m.traders[t].next) && m.store[x].global_id < m.issued
  {
    forall x | x in m.store
      ensures x != Id(t, m.traders[t].next) && m.store[x].global_id < m.issued
      ensures Placed(Number(m, t).(issued := m.issued + 1), x, m.store[x])
    {
      assert Placed(m, x, m.store[x]);
    }
  }

  lemma EnterNewest(m: Market, id: Id, o: Order)
    requires Indexed(m) && id !in m.store && Placed(m, id, o)
    requires forall x :: x in m.store ==> m.store[x].global_id < o.global_id
    ensures Indexed(Enter(m, id, o))
  {
    FreshIds(m.store, id, o);
    EnterIndexed(m, id, o);
  }

  /** An order made with the next number of a trader and the next global id. */
  lemma MakeIndexed(m: Market, side: Side, t: nat, p: nat, quantity: Int, price: Int)
    requires Indexed(m) && t < |m.traders| && p < |m.buy| && m.issued < INT_LIMIT
    ensures var next := m.traders[t].next;
      && Id(t, next) !in m.store
      && Indexed(Make(Number(m, t), side, t, p, quantity, price, next))
  {
    AdvanceIndexed(m, t);
    var id, o := Id(t, m.traders[t].next), Order(side, p, quantity, price, m.issued);
    EnterNewest(Number(m, t).(issued := m.issued + 1), id, o);
  }

  /** AMEND rewrites the key of an order while it is out of the tree the key orders. */
  lemma BooksAmended(store: Store, side: Side, trees: seq<seq<Id>>, id: Id, o: Order)
    requires BooksOk(store, side, trees) && id in store && Ids(store) && Ids(store[id := o])
    requires o.product == store[id].product < |trees| && o.side == store[id].side
    ensures var out := Remove(ByPrice(store, side), trees[o.product], id);
      BooksOk(store[id := o], side,
        if o.side == side then trees[o.product := Put(ByPrice(store[id := o], side), out, id)] else trees)
  {
    BooksCut(store, side, trees, id);
    assert (store - {id})[id := o] == store[id := o];
    if o.side == side {
      var p, out := o.product, Remove(ByPrice(store, side), trees[o.product], id);
      var put := Put(ByPrice(store[id := o], side), out, id);
      BooksPut(store - {id}, side, trees[p := out], id, o);
      assert trees[p := out][p := put] == trees[p := put];
    } else {
      BooksPut(store - {id}, side, trees, id, o);
    }
  }

  lemma AmendFrame(m: Market, id: Id, quantity: Int, price: Int)
    requires id in m.store && m.store[id].product < |m.buy| == |m.sell|
    ensures var o := m.store[id].(quantity := quantity, price := price, global_id := m.issued);
      var m', p := Amend(m, id, quantity, price), o.product;
      && m'.store == m.store[id := o] && m'.issued == m.issued + 1 && m'.traders == m.traders
      && m'.buy == (if o.side == Buy
          then m.buy[p := Put(ByPrice(m'.store, Buy), Remove(ByPrice(m.store, Buy), m.buy[p], id), id)] else m.buy)
      && m'.sell == (if o.side == Sell
          then m.sell[p := Put(ByPrice(m'.store, Sell), Remove(ByPrice(m.store, Sell), m.sell[p], id), id)] else m.sell)
  {
  }

  lemma AmendIndexed(m: Market, id: Id, quantity: Int, price: Int)
    requires Indexed(m) && id in m.store && m.issued < INT_LIMIT
    ensures m.store[id].product < |m.buy| && Indexed(Amend(m, id, quantity, price))
  {
    assert Placed(m, id, m.store[id]);
    var o := m.store[id].(quantity := quantity, price := price, global_id := m.issued);
    var m' := Amend(m, id, quantity, price);
    AmendPlaced(m, id, quantity, price);
    AmendFrame(m, id, quantity, price);
    assert OwnsOk(m'.store, m'.traders) by { OwnsAmended(m.store, m.traders, id, o); }
    assert BooksOk(m'.store, Buy, m'.buy) by { BooksAmended(m.store, Buy, m.buy, id, o); }
    assert BooksOk(m'.store, Sell, m'.sell) by { BooksAmended(m.store, Sell, m.sell, id, o); }
  }

  lemma AmendPlaced(m: Market, id: Id, quantity: Int, price: Int)
    requires Indexed(m) && id in m.store && m.issued < INT_LIMIT
    ensures m.store[id].product < |m.buy|
    ensures var m' := Amend(m, id, quantity, price);
      Sizes(m') && 0 <= m'.issued <= INT_LIMIT && Ids(m'.store) && AllPlaced(m')
  {
    assert Placed(m, id, m.store[id]);
    AmendFrame(m, id, quantity, price);
    assert forall x :: x in m.store ==> Placed(m, x, m.store[x]);
    FreshIds(m.store, id, m.store[id].(quantity := quantity, price := price, global_id := m.issued));
  }

  lemma OwnsAmended(store: Store, traders: seq<Trader>, id: Id, o: Order)
    requires OwnsOk(store, traders) && id in store
    ensures OwnsOk(store[id := o], traders)
  {
  }

  lemma ReduceIndexed(m: Market, id: Id, quantity: int)
    requires Indexed(m) && id in m.store
    ensures Indexed(m.(store := Reduce(m.store, id, quantity)))
  {
    forall p | 0 <= p < |m.buy|
      ensures BookOk(Reduce(m.store, id, quantity), Buy, p, m.buy[p])
      ensures BookOk(Reduce(m.store, id, quantity), Sell, p, m.sell[p])
    {
      BookReduce(m.store, Buy, p, m.buy[p], id, quantity);
      BookReduce(m.store, Sell, p, m.sell[p], id, quantity);
    }
  }
}
