/** Matching: trades between the best sell and the best buy order of a product until
    the book is no longer crossed. */
module Trading {
  import opened OrderedSeq
  import opened Orders
  import opened Markets

  /** One trade: who, how much, at what price, and what each side pays in fees. */
  datatype Fill = Fill(sell: Id, buy: Id, quantity: int, price: int, sellFee: int, buyFee: int)

  /** Quotient and remainder as in the source, rounded towards zero. */
  function Quotient(x: int, y: int): int
    requires y > 0
  {
    if x >= 0 then x / y else -(-x / y)
  }

  function Remainder(x: int, y: int): int
    requires y > 0
  {
    x - Quotient(x, y) * y
  }

  /** The fee on a value, in whole units. */
  function Fee(value: int): int {
    Quotient(value, 100) + if Remainder(value, 100) >= 50 then 1 else 0
  }

  ghost predicate Trades(m: Market, p: nat) {
    Indexed(m) && p < |m.buy|
  }

  /** Both sides have orders and the best prices meet. */
  ghost predicate Crossed(m: Market, p: nat)
    requires Trades(m, p)
  {
    && m.sell[p] != [] && m.buy[p] != []
    && m.sell[p][0] in m.store && m.buy[p][0] in m.store
    && m.store[m.sell[p][0]].price <= m.store[m.buy[p][0]].price
  }

  function Min(a: int, b: int): int {
    if a < b then a else b
  }

  /** The trade between a sell and a buy order, one of which was just added. */
  function Deal(store: Store, s: Id, b: Id, added: Id): Fill
    requires s in store && b in store
  {
    var quantity := Min(store[s].quantity, store[b].quantity);
    var price := if b == added then store[s].price else store[b].price;
    var fee := Fee(quantity * price);
    if store[s].global_id < store[b].global_id then Fill(s, b, quantity, price, 0, fee)
    else Fill(s, b, quantity, price, fee, 0)
  }

  ghost function NextFill(m: Market, p: nat, added: Id): Fill
    requires Trades(m, p) && Crossed(m, p)
  {
    Deal(m.store, m.sell[p][0], m.buy[p][0], added)
  }

  function Move(t: Trader, p: nat, quantity: int, cash: int): Trader
    requires p < |t.quantities| == |t.cash|
  {
    t.(quantities := t.quantities[p := t.quantities[p] + quantity], cash := t.cash[p := t.cash[p] + cash])
  }

  /** The traders once the seller has given quantity for cash. */
  function Paid(m: Market, p: nat, f: Fill): (traders: seq<Trader>)
    requires Sizes(m) && p < |m.buy| && f.sell.owner < |m.traders|
    ensures |traders| == |m.traders|
    ensures forall t :: 0 <= t < |traders| ==> |traders[t].quantities| == |traders[t].cash| == |m.buy|
  {
    var s := f.sell.owner;
    m.traders[s := Move(m.traders[s], p, -f.quantity, f.quantity * f.price - f.sellFee)]
  }

  /** Seller, then buyer; they may be the same trader. */
  function Settle(m: Market, p: nat, f: Fill): Market
    requires Sizes(m) && p < |m.buy| && f.sell.owner < |m.traders| && f.buy.owner < |m.traders|
  {
    var b, paid := f.buy.owner, Paid(m, p, f);
    var both := paid[b := Move(paid[b], p, f.quantity, -(f.quantity * f.price + f.buyFee))];
    m.(traders := both, fees := m.fees + f.sellFee + f.buyFee)
  }

  /** An order that is used up leaves both of its trees. */
  ghost function Clear(m: Market, id: Id): Market
    requires Indexed(m) && id in m.store
  {
    assert Placed(m, id, m.store[id]);
    if m.store[id].quantity <= 0 then Leave(m, id) else m
  }

  lemma SettleIndexed(m: Market, p: nat, f: Fill)
    requires Indexed(m) && p < |m.buy| && f.sell.owner < |m.traders| && f.buy.owner < |m.traders|
    ensures Indexed(Settle(m, p, f))
  {
    var m' := Settle(m, p, f);
    assert forall x :: x in m.store ==> Placed(m, x, m.store[x]) && Placed(m', x, m.store[x]);
    assert forall t :: 0 <= t < |m.traders| ==> m'.traders[t].orders == m.traders[t].orders;
  }

  lemma HeadsStored(m: Market, p: nat)
    requires Trades(m, p) && Crossed(m, p)
    ensures var s, b := m.sell[p][0], m.buy[p][0];
      && InBook(m.store, Sell, p, s) && InBook(m.store, Buy, p, b) && s != b
      && Placed(m, s, m.store[s]) && Placed(m, b, m.store[b])
  {
    assert BookOk(m.store, Sell, p, m.sell[p]) && BookOk(m.store, Buy, p, m.buy[p]);
    var s, b := m.sell[p][0], m.buy[p][0];
    assert s in m.sell[p] && b in m.buy[p];
    assert Placed(m, s, m.store[s]) && Placed(m, b, m.store[b]);
  }

  /** Quantities and positions after a trade, before used-up orders leave. */
  ghost function Filled(m: Market, p: nat, f: Fill): Market
    requires Indexed(m) && p < |m.buy| && f.sell in m.store && f.buy in m.store
  {
    assert Placed(m, f.sell, m.store[f.sell]) && Placed(m, f.buy, m.store[f.buy]);
    Settle(m.(store := Reduce(Reduce(m.store, f.sell, f.quantity), f.buy, f.quantity)), p, f)
  }

  lemma FilledIndexed(m: Market, p: nat, f: Fill)
    requires Indexed(m) && p < |m.buy| && f.sell in m.store && f.buy in m.store
    ensures Indexed(Filled(m, p, f))
  {
    ReduceIndexed(m, f.sell, f.quantity);
    ReduceIndexed(m.(store := Reduce(m.store, f.sell, f.quantity)), f.buy, f.quantity);
    assert Placed(m, f.sell, m.store[f.sell]) && Placed(m, f.buy, m.store[f.buy]);
    SettleIndexed(m.(store := Reduce(Reduce(m.store, f.sell, f.quantity), f.buy, f.quantity)), p, f);
  }

  predicate SameFrame(m: Market, m': Market) {
    |m'.buy| == |m.buy| && |m'.traders| == |m.traders| && m'.issued == m.issued
  }

  /** The live orders once an order that is used up is gone. */
  function Kept(store: Store, id: Id): Store
    requires id in store
  {
    if store[id].quantity <= 0 then store - {id} else store
  }

  lemma ClearIndexed(m: Market, id: Id)
    requires Indexed(m) && id in m.store
    ensures Indexed(Clear(m, id)) && SameFrame(m, Clear(m, id))
    ensures Clear(m, id).store == Kept(m.store, id)
  {
    LeaveIndexed(m, id);
  }

  /** One round of the matching loop. */
  ghost function Trade(m: Market, p: nat, f: Fill): Market
    requires Indexed(m) && p < |m.buy| && f.sell in m.store && f.buy in m.store && f.sell != f.buy
  {
    var m1 := Filled(m, p, f);
    FilledIndexed(m, p, f);
    var m2 := Clear(m1, f.sell);
    ClearIndexed(m1, f.sell);
    Clear(m2, f.buy)
  }

  /** What one trade leaves of the live orders. */
  function After(store: Store, s: Id, b: Id, quantity: int): Store
    requires s in store && b in store && s != b
  {
    Kept(Kept(Reduce(Reduce(store, s, quantity), b, quantity), s), b)
  }

  lemma TradeStore(m: Market, p: nat, f: Fill)
    requires Indexed(m) && p < |m.buy| && f.sell in m.store && f.buy in m.store && f.sell != f.buy
    ensures var m' := Trade(m, p, f);
      Indexed(m') && SameFrame(m, m') && m'.store == After(m.store, f.sell, f.buy, f.quantity)
  {
    FilledIndexed(m, p, f);
    ClearIndexed(Filled(m, p, f), f.sell);
    ClearIndexed(Clear(Filled(m, p, f), f.sell), f.buy);
  }

  /** Where an order stands after a trade. */
  lemma AfterAt(store: Store, s: Id, b: Id, quantity: int, id: Id)
    requires s in store && b in store && s != b
    ensures var store' := After(store, s, b, quantity);
      && (id in store' <==> id in store && ((id == s || id == b) ==> Narrow(store[id].quantity - quantity) > 0))
      && (id in store' && (id == s || id == b) ==>
          store'[id] == store[id].(quantity := Narrow(store[id].quantity - quantity)))
      && (id in store' && id != s && id != b ==> store'[id] == store[id])
  {
  }

  /** A trade of the smaller quantity uses up at least one of the two orders, whatever
      the quantities, and leaves positive ones positive. */
  lemma AfterLess(store: Store, s: Id, b: Id)
    requires s in store && b in store && s != b
    ensures var store' := After(store, s, b, Min(store[s].quantity, store[b].quantity));
      store'.Keys < store.Keys && (Positive(store) ==> Positive(store'))
  {
    var q := Min(store[s].quantity, store[b].quantity);
    var store' := After(store, s, b, q);
    forall id | id in store'
      ensures id in store && (Positive(store) ==> store'[id].quantity > 0 && store'[id].price > 0)
    {
      AfterAt(store, s, b, q, id);
    }
    AfterAt(store, s, b, q, s);
    AfterAt(store, s, b, q, b);
    assert s in store.Keys - store'.Keys || b in store.Keys - store'.Keys;
  }

  /** Less the smaller of them, both quantities are held as they are exactly if they differ
      by less than 2^31, as all do that are not negative. */
  lemma TakenExactly(x: Int, y: Int)
    ensures var q := Min(x, y);
      && (Narrow(x - q) == x - q && Narrow(y - q) == y - q <==> -INT_LIMIT < x - y < INT_LIMIT)
      && (x >= 0 && y >= 0 ==> Narrow(x - q) == x - q && Narrow(y - q) == y - q)
  {
  }

  /** Positive quantities stay positive and none grows. */
  lemma AfterLessens(store: Store, s: Id, b: Id)
    requires s in store && b in store && s != b && Positive(store)
    ensures var store' := After(store, s, b, Min(store[s].quantity, store[b].quantity));
      forall id :: id in store' ==> id in store && 0 < store'[id].quantity <= store[id].quantity
  {
    var q := Min(store[s].quantity, store[b].quantity);
    var store' := After(store, s, b, q);
    forall id | id in store' ensures id in store && 0 < store'[id].quantity <= store[id].quantity {
      AfterAt(store, s, b, q, id);
      if id == s || id == b { TakenExactly(store[s].quantity, store[b].quantity); }
    }
  }

  lemma TradeSound(m: Market, p: nat, added: Id)
    requires Trades(m, p) && Crossed(m, p)
    ensures var f := NextFill(m, p, added);
      && f.sell in m.store && f.buy in m.store && f.sell != f.buy
      && var m' := Trade(m, p, f);
        && Trades(m', p) && SameFrame(m, m') && m'.store.Keys < m.store.Keys
        && (Positive(m.store) ==> Positive(m'.store) && f.quantity > 0 && f.price > 0)
  {
    HeadsStored(m, p);
    var f := NextFill(m, p, added);
    TradeStore(m, p, f);
    AfterLess(m.store, f.sell, f.buy);
  }

  /** The matching loop: the state it ends in and the trades it makes, in order. */
  ghost function Match(m: Market, p: nat, added: Id): (r: (Market, seq<Fill>))
    requires Trades(m, p)
    decreases m.store.Keys
  {
    if !Crossed(m, p) then (m, [])
    else
      var f := NextFill(m, p, added);
      TradeSound(m, p, added);
      var r := Match(Trade(m, p, f), p, added);
      (r.0, [f] + r.1)
  }
}
