/** The engine: it changes order and trader records in place and keeps its trees in step. */
module Exchanges {
  import opened OrderedSeq
  import opened Orders
  import opened Markets
  import opened Trading
  import opened Matching
  import opened Commands
  import opened Runs
  import opened Messages
  import opened MessageLines
  import opened Visits
  import opened OrderBook
  import opened Records

  class Exchange {
    const item_names: seq<string>
    const traders: seq<TraderRecord>
    var buy_tree: seq<seq<OrderRecord>>
    var sell_tree: seq<seq<OrderRecord>>
    var global_order_id: int
    var fees: int
    ghost var live: map<Id, OrderRecord>
    ghost var state: Market

    ghost predicate TradersMirror()
      reads this, traders
    {
      && |traders| == |state.traders|
      && (forall i, j :: 0 <= i < j < |traders| ==> traders[i] != traders[j])
      && forall t :: 0 <= t < |traders| ==> traders[t].Is(live, state.traders[t])
    }

    /** The records, trees and counters are those of the state. */
    ghost predicate Valid()
      reads this, traders, live.Values
    {
      && Mirrors(live, state.store)
      && ListsAll(live, buy_tree, state.buy) && ListsAll(live, sell_tree, state.sell)
      && TradersMirror()
      && global_order_id == state.issued && fees == NarrowLong(state.fees) && |item_names| == |state.buy|
    }

    function Tree(side: Side, product: nat): (tree: seq<OrderRecord>)
      requires Valid() && product < |state.buy| == |state.sell|
      reads this, traders, live.Values
      ensures Lists(live, tree, Book(state, side, product))
    {
      if side == Buy then buy_tree[product] else sell_tree[product]
    }

    method SetTree(side: Side, product: nat, tree: seq<OrderRecord>, ghost ids: seq<Id>)
      requires Valid() && product < |state.buy| == |state.sell| && Lists(live, tree, ids)
      modifies `buy_tree, `sell_tree, `state
      ensures Valid() && state == SetBook(old(state), side, product, ids)
    {
      if side == Buy {
        buy_tree := buy_tree[product := tree];
      } else {
        sell_tree := sell_tree[product := tree];
      }
      state := SetBook(state, side, product, ids);
    }

    /** Puts a record into the price tree of its side and product. */
    method FileRecord(o: OrderRecord, ghost id: Id)
      requires Valid() && id in live && live[id] == o
      requires o.product < |state.buy| == |state.sell|
      modifies `buy_tree, `sell_tree, `state
      ensures Valid() && id in old(state.store) && old(state.store[id].product) == o.product
      ensures state == FileIn(old(state), id)
    {
      assert o.Is(id, state.store[id]);
      var tree := Tree(o.side, o.product);
      ghost var ids := Book(state, o.side, o.product);
      var k, found := FindByPrice(tree, o, o.side, live, state.store, ids, id);
      ListsPut(live, tree, ids, k, found, id);
      SetTree(o.side, o.product, PutAt(tree, k, found, o), PutAt(ids, k, found, id));
    }

    /** Takes a record out of the price tree of its side and product. */
    method UnfileRecord(o: OrderRecord, ghost id: Id)
      requires Valid() && id in live && live[id] == o
      requires o.product < |state.buy| == |state.sell|
      modifies `buy_tree, `sell_tree, `state
      ensures Valid() && id in old(state.store) && old(state.store[id].product) == o.product
      ensures state == FileOut(old(state), id)
    {
      assert o.Is(id, state.store[id]);
      var tree := Tree(o.side, o.product);
      ghost var ids := Book(state, o.side, o.product);
      var k, found := FindByPrice(tree, o, o.side, live, state.store, ids, id);
      ListsCut(live, tree, ids, k, found);
      SetTree(o.side, o.product, CutAt(tree, k, found), CutAt(ids, k, found));
    }

    /** Puts a record into its owner's tree. */
    method FileOwn(o: OrderRecord, ghost id: Id)
      requires Valid() && id in live && live[id] == o && o.owner < |traders|
      modifies `state, traders[o.owner]
      ensures Valid() && o.owner == id.owner && id in old(state.store)
      ensures state == SetOwn(old(state), id.owner, Put(ByLocal, old(state).traders[id.owner].orders, id))
    {
      assert o.Is(id, state.store[id]);
      var t := traders[o.owner];
      ghost var ids := state.traders[o.owner].orders;
      var k, found := FindByNumber(t.orders, o.local, live, state.store, ids, id);
      ListsPut(live, t.orders, ids, k, found, id);
      t.orders := PutAt(t.orders, k, found, o);
      state := SetOwn(state, id.owner, Put(ByLocal, ids, id));
    }

    /** Takes a record out of its owner's tree. */
    method UnfileOwn(o: OrderRecord, ghost id: Id)
      requires Valid() && id in live && live[id] == o && o.owner < |traders|
      modifies `state, traders[o.owner]
      ensures Valid() && o.owner == id.owner && id in old(state.store)
      ensures state == SetOwn(old(state), id.owner, Remove(ByLocal, old(state).traders[id.owner].orders, id))
    {
      assert o.Is(id, state.store[id]);
      var t := traders[o.owner];
      ghost var ids := state.traders[o.owner].orders;
      var k, found := FindByNumber(t.orders, o.local, live, state.store, ids, id);
      ListsCut(live, t.orders, ids, k, found);
      t.orders := CutAt(t.orders, k, found);
      state := SetOwn(state, id.owner, Remove(ByLocal, ids, id));
    }

    method MakeNewOrder(side: Side, tid: nat, product: nat, qty: Int, price: Int, order_id: int)
        returns (o: OrderRecord)
      requires Valid() && tid < |traders| && product < |state.buy| == |state.sell|
      requires Id(tid, order_id) !in state.store
      modifies this, traders[tid]
      ensures Valid() && fresh(o) && live == old(live)[Id(tid, order_id) := o]
      ensures tid < |old(state).traders| && state == Make(old(state), side, tid, product, qty, price, order_id)
    {
      o := NewRecord(side, tid, product, qty, price, order_id);
      FileRecord(o, Id(tid, order_id));
      FileOwn(o, Id(tid, order_id));
    }

    method NewRecord(side: Side, tid: nat, product: nat, qty: Int, price: Int, order_id: int)
        returns (o: OrderRecord)
      requires Valid() && Id(tid, order_id) !in state.store
      modifies `live, `state, `global_order_id
      ensures Valid() && fresh(o) && live == old(live)[Id(tid, order_id) := o]
      ensures o.owner == tid && o.product == product
      ensures var s := old(state); var order := Order(side, product, qty, price, s.issued);
        state == s.(store := s.store[Id(tid, order_id) := order], issued := s.issued + 1)
    {
      var order := Order(side, product, qty, price, global_order_id);
      o := new OrderRecord(side, tid, order_id, order);
      assert o.Is(Id(tid, order_id), order);
      Admit(o, Id(tid, order_id), order);
    }

    /** A new record, with the next global id, that no tree refers to yet. */
    method Admit(o: OrderRecord, ghost id: Id, ghost order: Order)
      requires Valid() && id !in live && o.Is(id, order) && order.global_id == state.issued
      modifies `live, `state, `global_order_id
      ensures Valid() && live == old(live)[id := o]
      ensures state == old(state).(store := old(state).store[id := order], issued := old(state).issued + 1)
    {
      global_order_id := global_order_id + 1;
      live := live[id := o];
      state := state.(store := state.store[id := order], issued := state.issued + 1);
    }

    /** The trader's live order of a number, if there is one. */
    method GetOrderByUser(tid: nat, order_id: int) returns (o: OrderRecord?)
      requires Valid() && Findable(state, tid, order_id)
      ensures if Id(tid, order_id) in live then o == live[Id(tid, order_id)] else o == null
    {
      ghost var id := Id(tid, order_id);
      ghost var ids := state.traders[tid].orders;
      var k, found := FindByNumber(traders[tid].orders, order_id, live, state.store, ids, id);
      o := if found then traders[tid].orders[k] else null;
    }

    /** New contents and a new global id for a record. */
    method Rewrite(o: OrderRecord, qty: Int, price: Int, ghost id: Id)
      requires Valid() && id in live && live[id] == o
      modifies `state, `global_order_id, o
      ensures Valid() && id in old(state.store)
      ensures state == Rewritten(old(state), id, qty, price)
    {
      MirrorsAside(live, state.store, id);
      assert o.Is(id, state.store[id]);
      o.quantity := qty;
      o.price := price;
      o.global_id := global_order_id;
      global_order_id := global_order_id + 1;
      MirrorsAgain(live, state.store, id, Rewritten(state, id, qty, price).store[id]);
      state := Rewritten(state, id, qty, price);
    }

    /** Out of the price tree, changed, and in again under the new key. */
    method AmendRecord(o: OrderRecord, qty: Int, price: Int, ghost id: Id)
      requires Valid() && id in live && live[id] == o && o.product < |state.buy| == |state.sell|
      modifies `buy_tree, `sell_tree, `state, `global_order_id, o
      ensures Valid() && id in old(state.store) && old(state.store[id].product) == o.product
      ensures state == Amend(old(state), id, qty, price)
    {
      UnfileRecord(o, id);
      Rewrite(o, qty, price, id);
      FileRecord(o, id);
    }

    /** Lets a record go that no tree refers to. */
    ghost method Forget(id: Id)
      requires Valid() && id in live
      requires NoneRefers(state.buy, state.sell, state.traders, id)
      modifies `live, `state
      ensures Valid() && live == old(live) - {id} && state == old(state).(store := old(state.store) - {id})
    {
      live := live - {id};
      state := state.(store := state.store - {id});
    }

    /** Takes a record out of both trees and lets it go: no tree refers to it any more. */
    method Discard(o: OrderRecord, ghost id: Id)
      requires Valid() && Indexed(state) && id in live && live[id] == o
      modifies this, traders
      ensures Valid() && id in old(state.store) && Placed(old(state), id, old(state.store[id]))
      ensures state == Leave(old(state), id) && live == old(live) - {id}
    {
      LeaveUnfiled(state, id);
      Unfile(o, id);
      Forget(id);
    }

    method Unfile(o: OrderRecord, ghost id: Id)
      requires Valid() && id in live && live[id] == o && Placed(state, id, state.store[id])
      modifies this, traders
      ensures Valid() && live == old(live)
      ensures id in old(state.store) && Placed(old(state), id, old(state.store[id]))
      ensures state == Unfiled(old(state), id)
    {
      assert o.Is(id, state.store[id]);
      UnfileRecord(o, id);
      UnfileOwn(o, id);
    }

    /** Takes a traded quantity off a record, as far as its int holds the difference. */
    method Take(o: OrderRecord, quantity: int, ghost id: Id)
      requires Valid() && id in live && live[id] == o
      modifies `state, o
      ensures Valid() && id in old(state.store)
      ensures state == old(state).(store := Reduce(old(state).store, id, quantity))
    {
      MirrorsAside(live, state.store, id);
      assert o.Is(id, state.store[id]);
      o.quantity := Narrow(o.quantity - quantity);
      MirrorsAgain(live, state.store, id, Reduce(state.store, id, quantity)[id]);
      state := state.(store := Reduce(state.store, id, quantity));
    }

    /** Takes the traded quantity off both records. */
    method Fulfil(s: OrderRecord, b: OrderRecord, quantity: int, ghost sid: Id, ghost bid: Id)
      requires Valid() && sid in live && bid in live && live[sid] == s && live[bid] == b && sid != bid
      modifies `state, s, b
      ensures Valid() && sid in old(state.store) && bid in old(state.store)
      ensures state == old(state).(store := Reduce(Reduce(old(state).store, sid, quantity), bid, quantity))
    {
      Take(s, quantity, sid);
      Take(b, quantity, bid);
    }

    /** Adds to a trader's quantity and cash of a product. */
    method Credit(product: nat, tid: nat, quantity: int, cash: int)
      requires Valid() && Sizes(state) && product < |state.buy| && tid < |traders|
      modifies `state, traders
      ensures Valid() && Sizes(old(state)) && tid < |old(state).traders|
      ensures state == old(state).(traders :=
        old(state).traders[tid := Move(old(state).traders[tid], product, quantity, cash)])
    {
      var t := traders[tid];
      assert t.Is(live, state.traders[tid]);
      t.Add(product, quantity, cash, live, state.traders[tid]);
      state := state.(traders := state.traders[tid := Move(state.traders[tid], product, quantity, cash)]);
    }

    /** Seller gives quantity for cash, then the buyer the reverse; the fees go here. */
    method Pay(product: nat, f: Fill)
      requires Valid() && Sizes(state) && product < |state.buy|
      requires f.sell.owner < |traders| && f.buy.owner < |traders|
      modifies `state, `fees, traders
      ensures Valid() && |traders| == |old(state).traders| && state == Settle(old(state), product, f)
    {
      var value := f.quantity * f.price;
      Credit(product, f.sell.owner, -f.quantity, value - f.sellFee);
      Credit(product, f.buy.owner, f.quantity, -(value + f.buyFee));
      Charge(f.sellFee + f.buyFee);
    }

    /** Adds to the fees. */
    method Charge(fee: int)
      requires Valid()
      modifies `state, `fees
      ensures Valid() && state == old(state).(fees := old(state).fees + fee)
    {
      StoredSum(state.fees, fee);
      fees := NarrowLong(fees + fee);
      state := state.(fees := state.fees + fee);
    }

    /** A record that is used up leaves its trees. */
    method DiscardIfFilled(o: OrderRecord, ghost id: Id)
      requires Valid() && Indexed(state) && id in live && live[id] == o
      modifies this, traders
      ensures Valid() && id in old(state.store) && state == Clear(old(state), id)
      ensures live == if old(state.store[id].quantity) <= 0 then old(live) - {id} else old(live)
    {
      assert o.Is(id, state.store[id]);
      if o.quantity <= 0 { Discard(o, id); }
    }

    /** Quantity, price and fees of the trade between two records. */
    method Terms(s: OrderRecord, b: OrderRecord, new_added: OrderRecord, ghost sid: Id, ghost bid: Id, ghost added: Id)
        returns (f: Fill)
      requires Valid() && sid in live && bid in live && live[sid] == s && live[bid] == b
      requires b == new_added <==> bid == added
      ensures sid in state.store && bid in state.store && f == Deal(state.store, sid, bid, added)
    {
      assert s.Is(sid, state.store[sid]) && b.Is(bid, state.store[bid]);
      var min_qty := if s.quantity < b.quantity then s.quantity else b.quantity;
      var price := if b == new_added then s.price else b.price;
      var value := min_qty * price;
      var s_fee := Quotient(value, 100);
      if Remainder(value, 100) >= 50 { s_fee := s_fee + 1; }
      var b_fee := 0;
      if s.global_id < b.global_id { s_fee, b_fee := 0, s_fee; }
      f := Fill(Id(s.owner, s.local), Id(b.owner, b.local), min_qty, price, s_fee, b_fee);
    }

    /** A trade's quantity and cash change hands. */
    method Execute(s: OrderRecord, b: OrderRecord, product: nat, f: Fill)
      requires Valid() && Indexed(state) && product < |state.buy|
      requires f.sell in live && f.buy in live && f.sell != f.buy && live[f.sell] == s && live[f.buy] == b
      modifies `state, `fees, traders, s, b
      ensures Indexed(old(state)) && f.sell in old(state.store) && f.buy in old(state.store)
      ensures Valid() && state == Filled(old(state), product, f)
    {
      assert Placed(state, f.sell, state.store[f.sell]) && Placed(state, f.buy, state.store[f.buy]);
      Fulfil(s, b, f.quantity, f.sell, f.buy);
      Pay(product, f);
    }

    /** A trade between two records, which may leave their trees. */
    method TradeOnce(s: OrderRecord, b: OrderRecord, product: nat, f: Fill)
      requires Valid() && Indexed(state) && product < |state.buy|
      requires f.sell in live && f.buy in live && f.sell != f.buy && live[f.sell] == s && live[f.buy] == b
      modifies this, traders, s, b
      ensures Indexed(old(state)) && f.sell in old(state.store) && f.buy in old(state.store)
      ensures Valid() && state == Trade(old(state), product, f)
      ensures live.Keys <= old(live.Keys) && forall id :: id in live ==> live[id] == old(live)[id]
    {
      FilledIndexed(state, product, f);
      ClearIndexed(Filled(state, product, f), f.sell);
      Execute(s, b, product, f);
      DiscardIfFilled(s, f.sell);
      DiscardIfFilled(b, f.buy);
    }

    /** The best records of a product, if their prices meet. */
    method Best(product: nat) returns (s: OrderRecord?, b: OrderRecord?)
      requires Valid() && Trades(state, product)
      ensures s != null && b != null <==> Crossed(state, product)
      ensures s != null && b != null ==>
        && state.sell[product][0] in live && live[state.sell[product][0]] == s
        && state.buy[product][0] in live && live[state.buy[product][0]] == b
    {
      assert Lists(live, buy_tree[product], state.buy[product]);
      assert Lists(live, sell_tree[product], state.sell[product]);
      if |sell_tree[product]| == 0 || |buy_tree[product]| == 0 { return null, null; }
      s, b := sell_tree[product][0], buy_tree[product][0];
      ghost var sid, bid := state.sell[product][0], state.buy[product][0];
      assert s.Is(sid, state.store[sid]) && b.Is(bid, state.store[bid]);
      if s.price > b.price { return null, null; }
    }

    /** The trade between the best records of a product. */
    method TradeHeads(s: OrderRecord, b: OrderRecord, product: nat, new_added: OrderRecord, ghost added: Id)
        returns (f: Fill)
      requires Valid() && Trades(state, product) && Crossed(state, product)
      requires added == Id(new_added.owner, new_added.local) && (added in live ==> live[added] == new_added)
      requires state.sell[product][0] in live && live[state.sell[product][0]] == s
      requires state.buy[product][0] in live && live[state.buy[product][0]] == b
      modifies this, traders, s, b
      ensures Valid() && Traded(old(state), product, added, f, state)
      ensures live.Keys <= old(live.Keys) && forall id :: id in live ==> live[id] == old(live)[id]
    {
      HeadsStored(state, product);
      f := Terms(s, b, new_added, state.sell[product][0], state.buy[product][0], added);
      TradeOnce(s, b, product, f);
    }

    /** One round of matching, or nothing if the best prices of a product do not meet. */
    method MatchRound(product: nat, new_added: OrderRecord, ghost added: Id) returns (f: Option<Fill>)
      requires Valid() && Trades(state, product)
      requires added == Id(new_added.owner, new_added.local) && (added in live ==> live[added] == new_added)
      modifies this, traders, live.Values
      ensures Trades(old(state), product) && (f.Some? <==> Crossed(old(state), product))
      ensures f.None? ==> state == old(state)
      ensures f.Some? ==> Traded(old(state), product, added, f.value, state)
      ensures Valid() && live.Keys <= old(live.Keys) && forall id :: id in live ==> live[id] == old(live)[id]
    {
      var s, b := Best(product);
      if s == null || b == null { return None; }
      assert s in live.Values && b in live.Values;
      var fill := TradeHeads(s, b, product, new_added, added);
      f := Some(fill);
    }

    /** Trades the best records of a product against each other until they no longer meet. */
    method MatchOrders(product: nat, new_added: OrderRecord) returns (fills: seq<Fill>)
      requires Valid() && Trades(state, product)
      requires var added := Id(new_added.owner, new_added.local); added in live ==> live[added] == new_added
      modifies this, traders, live.Values
      ensures Valid() && Trades(old(state), product)
      ensures state == Match(old(state), product, Id(new_added.owner, new_added.local)).0
      ensures fills == Match(old(state), product, Id(new_added.owner, new_added.local)).1
    {
      ghost var added := Id(new_added.owner, new_added.local);
      ghost var end := Match(state, product, added);
      fills := [];
      Begins(state, product, added);
      while true
        invariant Valid() && (added in live ==> live[added] == new_added)
        invariant live.Keys <= old(live.Keys) && forall id :: id in live ==> live[id] == old(live)[id]
        invariant Continues(end, state, product, added, fills)
        decreases state.store.Keys
      {
        ghost var before := state;
        var f := MatchRound(product, new_added, added);
        if f.None? { break; }
        GoesOn(end, before, product, added, fills, f.value, state);
        fills := fills + [f.value];
      }
      Ends(end, state, product, added, fills);
    }

    /** The trader's order of a number, amended. */
    method AmendOrder(tid: nat, order_id: int, qty: Int, price: Int) returns (o: OrderRecord?)
      requires Valid() && Findable(state, tid, order_id)
      requires var id := Id(tid, order_id);
        id in state.store ==> state.store[id].product < |state.buy| == |state.sell|
      modifies this, live.Values
      ensures Valid() && live == old(live)
      ensures var id := Id(tid, order_id);
        if id in old(live) then o == live[id] && IsAmended(old(state), id, qty, price, state)
        else o == null && state == old(state)
    {
      o := GetOrderByUser(tid, order_id);
      if o == null { return; }
      ghost var id := Id(tid, order_id);
      assert o.Is(id, state.store[id]);
      assert live[id] in live.Values;
      AmendRecord(o, qty, price, id);
    }

    /** The trader's order of a number, taken from both trees. */
    method CancelOrder(tid: nat, order_id: int) returns (o: OrderRecord?)
      requires Valid() && Indexed(state) && Findable(state, tid, order_id)
      modifies this, traders
      ensures Valid()
      ensures var id := Id(tid, order_id);
        if id in old(state).store then
          && id in old(live) && o == old(live)[id] && Placed(old(state), id, old(state).store[id])
          && state == Leave(old(state), id) && live == old(live) - {id}
        else o == null && state == old(state) && live == old(live)
    {
      o := GetOrderByUser(tid, order_id);
      if o == null { return; }
      Discard(o, Id(tid, order_id));
    }

    /** The first product of a name, or -1. */
    method FindProduct(name: string) returns (product: int)
      ensures product == ProductFrom(item_names, name, 0)
    {
      product := -1;
      var i := 0;
      while i < |item_names|
        invariant 0 <= i <= |item_names|
        invariant ProductFrom(item_names, name, i) == ProductFrom(item_names, name, 0)
      {
        if item_names[i] == name {
          product := i;
          return;
        }
        i := i + 1;
      }
    }

    method NextNumber(tid: nat)
      requires Valid() && tid < |traders|
      modifies `state, traders[tid]
      ensures Valid() && tid < |old(state).traders| && state == Number(old(state), tid)
    {
      var t := traders[tid];
      assert t.Is(live, state.traders[tid]);
      t.current_order_id := t.current_order_id + 1;
      state := Number(state, tid);
    }

    /** A new order with the trader's next number. */
    method EnterNew(tid: nat, c: Command, product: nat) returns (o: OrderRecord)
      requires Valid() && Serves(state, item_names, tid) && c.New?
      requires product < |state.buy| && c.number == state.traders[tid].next
      modifies this, traders[tid]
      ensures Valid() && IsEntered(old(state), item_names, tid, c, product, state)
      ensures fresh(o) && live == old(live)[Id(tid, c.number) := o] && Id(o.owner, o.local) == Id(tid, c.number)
    {
      MakeSound(state, c.side, tid, product, c.quantity, c.price);
      NextNumber(tid);
      o := MakeNewOrder(c.side, tid, product, c.quantity, c.price, c.number);
      assert o.Is(Id(tid, c.number), state.store[Id(tid, c.number)]);
    }

    /** A new order of a known product, entered and matched. */
    method AcceptNew(tid: nat, c: Command, product: nat) returns (fills: seq<Fill>, ghost entered: Market)
      requires Valid() && Serves(state, item_names, tid) && c.New?
      requires c.number == state.traders[tid].next && product < |state.buy|
      modifies this, traders, live.Values
      ensures Valid() && IsEntered(old(state), item_names, tid, c, product, entered)
      ensures state == Match(entered, product, Id(tid, c.number)).0
      ensures fills == Match(entered, product, Id(tid, c.number)).1
    {
      var o := EnterNew(tid, c, product);
      entered := state;
      ValuesWith(old(live), Id(tid, c.number), o);
      fills := MatchOrders(product, o);
    }

    method ProcessNew(tid: nat, c: Command) returns (answer: int, fills: seq<Fill>)
      requires Valid() && Serves(state, item_names, tid) && c.New?
      modifies this, traders, live.Values
      ensures Valid() && Serves(old(state), item_names, tid)
      ensures Is(state, fills, answer, DoNew(old(state), item_names, tid, c))
    {
      answer, fills := -1, [];
      ghost var before, entered := state, state;
      assert traders[tid].Is(live, state.traders[tid]);
      NewRefused(state, item_names, tid, c);
      if c.number != traders[tid].current_order_id { return; }
      var product := FindProduct(c.product);
      if product == -1 { return; }
      answer := product;
      fills, entered := AcceptNew(tid, c, product);
      DoNewMatches(before, item_names, tid, c, product, entered);
    }

    method ProcessChange(tid: nat, c: Command) returns (answer: int, fills: seq<Fill>)
      requires Valid() && Serves(state, item_names, tid) && c.Change?
      modifies this, traders, live.Values
      ensures Valid() && Serves(old(state), item_names, tid)
      ensures Is(state, fills, answer, DoChange(old(state), item_names, tid, c))
    {
      answer, fills := -1, [];
      OwnFound(state, tid, c.number);
      ghost var before, id := state, Id(tid, c.number);
      if id in state.store { LiveIsPlaced(state, id); }
      var o := AmendOrder(tid, c.number, c.quantity, c.price);
      if o == null { return; }
      AmendSound(before, id, c.quantity, c.price);
      assert o.Is(id, state.store[id]);
      DoChangeMatches(before, item_names, tid, c, state);
      fills := MatchOrders(o.product, o);
    }

    method ProcessCancel(tid: nat, c: Command) returns (answer: int, fills: seq<Fill>)
      requires Valid() && Indexed(state) && tid < |traders| && c.Cancel?
      modifies this, traders
      ensures Valid() && Indexed(old(state)) && tid < |old(state).traders|
      ensures Is(state, fills, answer, DoCancel(old(state), tid, c))
    {
      OwnFound(state, tid, c.number);
      var _ := CancelOrder(tid, c.number);
      answer, fills := -1, [];
    }

    /** Carries out one command of one trader. */
    method ProcessCmd(tid: nat, c: Command) returns (answer: int, fills: seq<Fill>)
      requires Valid() && Serves(state, item_names, tid)
      modifies this, traders, live.Values
      ensures Valid() && Serves(old(state), item_names, tid)
      ensures Is(state, fills, answer, Process(old(state), item_names, tid, c))
    {
      match c {
        case New(_, _, _, _, _) => answer, fills := ProcessNew(tid, c);
        case Change(_, _, _) => answer, fills := ProcessChange(tid, c);
        case Cancel(_) => answer, fills := ProcessCancel(tid, c);
      }
    }

    /** Reads an accepted message and carries out the command in it, if there is one. Of the
        messages with a field missing it takes those that are refused before it is read. */
    method ProcessMessage(tid: nat, body: string) returns (answer: int, fills: seq<Fill>)
      requires Valid() && Serves(state, item_names, tid) && ';' !in body && Matches(body + ";")
      requires Answered(state, item_names, tid, Parse(body + ";"))
      modifies this, traders, live.Values
      ensures Valid() && Serves(old(state), item_names, tid)
      ensures Is(state, fills, answer, Carried(old(state), item_names, tid, Parse(body + ";")))
      ensures '\n' !in body ==> Parse(body + ";").Read? && InRange(Parse(body + ";").command)
    {
      if '\n' !in body { OneLineLegal(body); }
      answer, fills := -1, [];
      match Parse(body + ";") {
        case Read(c) => answer, fills := ProcessCmd(tid, c);
        case Short(_, _) => ShortRefused(state, item_names, tid, Parse(body + ";"));
        case Unknown =>
      }
    }

    /** One side of a product's book, in the order it is printed. */
    method ScanSide(side: Side, product: nat) returns (quotes: seq<Quote>)
      requires Valid() && product < |state.buy| == |state.sell|
      ensures quotes == Shown(state, side, product)
    {
      var tree := if side == Buy then buy_tree[product] else sell_tree[product];
      ghost var ids := Book(state, side, product);
      assert Lists(live, tree, ids);
      ghost var shown := Shown(state, side, product);
      quotes := [];
      var i := 0;
      while i < |tree|
        invariant 0 <= i <= |tree| == |shown| && quotes == shown[..i]
      {
        var k := if side == Buy then i else |tree| - 1 - i;
        var o := tree[k];
        assert o.Is(ids[k], state.store[ids[k]]);
        ShownAt(state, side, product, i);
        quotes := quotes + [Quote(Id(o.owner, o.local), o.quantity, o.price)];
        i := i + 1;
      }
    }

    /** The printed book of a product: per side the level count and the lines. */
    method PrintProduct(product: nat)
        returns (sell_levels: int, sells: seq<Line>, buy_levels: int, buys: seq<Line>)
      requires Valid() && product < |state.buy| == |state.sell|
      ensures sell_levels == Levels(Shown(state, Sell, product)) && sells == Printout(Shown(state, Sell, product))
      ensures buy_levels == Levels(Shown(state, Buy, product)) && buys == Printout(Shown(state, Buy, product))
    {
      var sell_quotes := ScanSide(Sell, product);
      var buy_quotes := ScanSide(Buy, product);
      sell_levels, sells := PrintSide(sell_quotes);
      buy_levels, buys := PrintSide(buy_quotes);
    }

    constructor (names: seq<string>, records: seq<TraderRecord>)
      requires forall i, j :: 0 <= i < j < |records| ==> records[i] != records[j]
      requires forall t :: 0 <= t < |records| ==>
        records[t].Is(map[], Trader([], seq(|names|, i => 0), seq(|names|, i => 0), 0))
      ensures Valid() && state == Opening(|names|, |records|)
      ensures item_names == names && traders == records
    {
      item_names := names;
      traders := records;
      buy_tree := seq(|names|, i => []);
      sell_tree := seq(|names|, i => []);
      global_order_id := 0;
      fees := 0;
      live := map[];
      state := Opening(|names|, |records|);
    }
  }

  lemma ShownAt(m: Market, side: Side, p: nat, i: nat)
    requires p < |m.buy| == |m.sell| && i < |Book(m, side, p)|
    ensures |Shown(m, side, p)| == |Book(m, side, p)|
    ensures Shown(m, side, p)[i] ==
      QuoteOf(m.store, Book(m, side, p)[if side == Buy then i else |Book(m, side, p)| - 1 - i])
  {
  }

  /** The trader's tree finds exactly the live order of a number. */
  ghost predicate Findable(m: Market, t: nat, number: int) {
    t < |m.traders| && Lookup(ByLocal, m.traders[t].orders, Id(t, number)) ==
      if Id(t, number) in m.store then Some(Id(t, number)) else None
  }

  ghost predicate IsAmended(m: Market, id: Id, quantity: Int, price: Int, m': Market) {
    && id in m.store && m.store[id].product < |m.buy| == |m.sell|
    && m' == Amend(m, id, quantity, price)
  }

  lemma LiveIsPlaced(m: Market, id: Id)
    requires Indexed(m) && id in m.store
    ensures Placed(m, id, m.store[id])
  {
  }

  lemma NewRefused(m: Market, names: seq<string>, t: nat, c: Command)
    requires Serves(m, names, t) && c.New?
    ensures var p := ProductFrom(names, c.product, 0);
      && (p != -1 ==> 0 <= p < |m.buy|)
      && (c.number != m.traders[t].next || p == -1 ==> Is(m, [], -1, DoNew(m, names, t, c)))
  {
    ProductFound(names, c.product, 0);
  }

  lemma ValuesWith(live: map<Id, OrderRecord>, id: Id, o: OrderRecord)
    ensures live[id := o].Values <= live.Values + {o}
  {
  }

  ghost predicate IsEntered(m: Market, names: seq<string>, t: nat, c: Command, p: nat, m1: Market) {
    && Serves(m, names, t) && c.New? && c.number == m.traders[t].next && p < |m.buy| == |m.sell|
    && m1 == Make(Number(m, t), c.side, t, p, c.quantity, c.price, c.number) && Trades(m1, p)
  }

  lemma DoNewMatches(m: Market, names: seq<string>, t: nat, c: Command, p: nat, m1: Market)
    requires IsEntered(m, names, t, c, p, m1) && p == ProductFrom(names, c.product, 0)
    ensures Is(Match(m1, p, Id(t, c.number)).0, Match(m1, p, Id(t, c.number)).1, p, DoNew(m, names, t, c))
  {
  }

  lemma DoChangeMatches(m: Market, names: seq<string>, t: nat, c: Command, m1: Market)
    requires Serves(m, names, t) && c.Change?
    requires var id := Id(t, c.number);
      IsAmended(m, id, c.quantity, c.price, m1) && Trades(m1, m.store[id].product)
    ensures var id := Id(t, c.number);
      var r := Match(m1, m.store[id].product, id);
      Is(r.0, r.1, -1, DoChange(m, names, t, c))
  {
    OwnFound(m, t, c.number);
  }

  ghost predicate Is(m: Market, fills: seq<Fill>, answer: int, r: Outcome) {
    m == r.market && fills == r.fills && answer == r.answer
  }

  /** What a round of matching does to the state. */
  ghost predicate Traded(m: Market, p: nat, added: Id, f: Fill, m': Market) {
    && Trades(m, p) && Crossed(m, p) && f == NextFill(m, p, added)
    && f.sell in m.store && f.buy in m.store && f.sell != f.buy && m' == Trade(m, p, f)
  }

  /** A matching run that ends as told is the trades made and then matching from here. */
  ghost predicate Continues(end: (Market, seq<Fill>), m: Market, p: nat, added: Id, fills: seq<Fill>) {
    Trades(m, p) && end.0 == Match(m, p, added).0 && end.1 == fills + Match(m, p, added).1
  }

  lemma Begins(m: Market, p: nat, added: Id)
    requires Trades(m, p)
    ensures Continues(Match(m, p, added), m, p, added, [])
  {
    assert Match(m, p, added).1 == [] + Match(m, p, added).1;
  }

  lemma MatchStep(m: Market, p: nat, added: Id, f: Fill, m': Market)
    requires Traded(m, p, added, f, m')
    ensures Trades(m', p) && m'.store.Keys < m.store.Keys
    ensures Match(m, p, added).0 == Match(m', p, added).0
    ensures Match(m, p, added).1 == [f] + Match(m', p, added).1
  {
    TradeSound(m, p, added);
  }

  lemma GoesOn(end: (Market, seq<Fill>), m: Market, p: nat, added: Id, fills: seq<Fill>, f: Fill, m': Market)
    requires Continues(end, m, p, added, fills) && Traded(m, p, added, f, m')
    ensures Continues(end, m', p, added, fills + [f]) && m'.store.Keys < m.store.Keys
  {
    MatchStep(m, p, added, f, m');
    Regroup(fills, f, Match(m', p, added).1);
  }

  lemma Regroup<T>(a: seq<T>, x: T, b: seq<T>)
    ensures a + ([x] + b) == (a + [x]) + b
  {
  }

  lemma Ends(end: (Market, seq<Fill>), m: Market, p: nat, added: Id, fills: seq<Fill>)
    requires Continues(end, m, p, added, fills) && !Crossed(m, p)
    ensures end.0 == m && end.1 == fills
  {
    assert fills + [] == fills;
  }

  /** The state with an order's contents and global id replaced. */
  function Rewritten(m: Market, id: Id, quantity: Int, price: Int): Market
    requires id in m.store
  {
    var o := m.store[id].(quantity := quantity, price := price, global_id := m.issued);
    m.(store := m.store[id := o], issued := m.issued + 1)
  }

  /** A state with an order in no tree any more. */
  function Unfiled(m: Market, id: Id): Market
    requires id in m.store && Placed(m, id, m.store[id])
  {
    var m1 := FileOut(m, id);
    SetOwn(m1, id.owner, Remove(ByLocal, m1.traders[id.owner].orders, id))
  }

  lemma LeaveUnfiled(m: Market, id: Id)
    requires Indexed(m) && id in m.store
    ensures Placed(m, id, m.store[id])
    ensures var m1 := Unfiled(m, id);
      NoneRefers(m1.buy, m1.sell, m1.traders, id) && Leave(m, id) == m1.(store := m1.store - {id})
  {
    LeaveIndexed(m, id);
    Unreferenced(Leave(m, id), id);
  }

  ghost predicate NoneRefers(buy: seq<seq<Id>>, sell: seq<seq<Id>>, traders: seq<Trader>, id: Id) {
    && (forall p, i :: 0 <= p < |buy| && 0 <= i < |buy[p]| ==> buy[p][i] != id)
    && (forall p, i :: 0 <= p < |sell| && 0 <= i < |sell[p]| ==> sell[p][i] != id)
    && (forall t, i :: 0 <= t < |traders| && 0 <= i < |traders[t].orders| ==> traders[t].orders[i] != id)
  }

  /** In an indexed state, no tree holds an order that is not live. */
  lemma Unreferenced(m: Market, id: Id)
    requires Indexed(m) && id !in m.store
    ensures NoneRefers(m.buy, m.sell, m.traders, id)
  {
    forall t, i | 0 <= t < |m.traders| && 0 <= i < |m.traders[t].orders|
      ensures m.traders[t].orders[i] != id
    {
      assert OwnOk(m.store, t, m.traders[t].orders);
      assert m.traders[t].orders[i] in m.traders[t].orders;
    }
  }
}
