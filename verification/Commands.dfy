/** Commands, one at a time: what each does to the market, whatever its fields, and what
    holds before and after it. */
module Commands {
  import opened OrderedSeq
  import opened Orders
  import opened Markets
  import opened Trading
  import opened Matching
  import opened Accounts

  datatype Command =
    | New(side: Side, number: int, product: string, quantity: Int, price: Int)
    | Change(number: int, quantity: Int, price: Int)
    | Cancel(number: int)

  /** The quantities and prices of one-line messages. An accepted message of several
      lines can carry others. */
  predicate Legal(c: Command) {
    !c.Cancel? ==> 0 < c.quantity <= FIELD_MAX && 0 < c.price <= FIELD_MAX
  }

  /** The first product of a name, from the i-th on; -1 if there is none. */
  function ProductFrom(names: seq<string>, name: string, i: nat): int
    requires i <= |names|
    decreases |names| - i
  {
    if i == |names| then -1 else if names[i] == name then i else ProductFrom(names, name, i + 1)
  }

  lemma {:induction false} ProductFound(names: seq<string>, name: string, i: nat)
    requires i <= |names|
    ensures var p := ProductFrom(names, name, i);
      && (p == -1 <==> name !in names[i..])
      && (p != -1 ==> i <= p < |names| && names[p] == name && name !in names[i..p])
    decreases |names| - i
  {
    if i < |names| && names[i] != name {
      ProductFound(names, name, i + 1);
      var p := ProductFrom(names, name, i + 1);
      assert names[i..] == [names[i]] + names[i + 1..];
      if p != -1 { assert names[i..p] == [names[i]] + names[i + 1..p]; }
    }
  }

  // ---------- one command ----------

  /** The state after a command, the trades it caused, and the engine's answer: the
      product of an accepted new order, and -1 otherwise. */
  datatype Outcome = Outcome(market: Market, fills: seq<Fill>, answer: int)

  ghost predicate Serves(m: Market, names: seq<string>, t: nat) {
    Indexed(m) && |names| == |m.buy| && t < |m.traders| && m.issued < INT_LIMIT
  }

  ghost function Matched(m: Market, p: nat, added: Id, answer: int): Outcome
    requires Trades(m, p)
  {
    var r := Match(m, p, added);
    Outcome(r.0, r.1, answer)
  }

  ghost function DoNew(m: Market, names: seq<string>, t: nat, c: Command): Outcome
    requires Serves(m, names, t) && c.New?
  {
    ProductFound(names, c.product, 0);
    var p := ProductFrom(names, c.product, 0);
    if c.number != m.traders[t].next || p == -1 then Outcome(m, [], -1)
    else
      MakeSound(m, c.side, t, p, c.quantity, c.price);
      Matched(Make(Number(m, t), c.side, t, p, c.quantity, c.price, c.number), p, Id(t, c.number), p)
  }

  ghost function DoChange(m: Market, names: seq<string>, t: nat, c: Command): Outcome
    requires Serves(m, names, t) && c.Change?
  {
    OwnFound(m, t, c.number);
    match Lookup(ByLocal, m.traders[t].orders, Id(t, c.number))
    case None => Outcome(m, [], -1)
    case Some(id) =>
      AmendSound(m, id, c.quantity, c.price);
      Matched(Amend(m, id, c.quantity, c.price), m.store[id].product, id, -1)
  }

  ghost function DoCancel(m: Market, t: nat, c: Command): Outcome
    requires Indexed(m) && t < |m.traders| && c.Cancel?
  {
    OwnFound(m, t, c.number);
    match Lookup(ByLocal, m.traders[t].orders, Id(t, c.number))
    case None => Outcome(m, [], -1)
    case Some(id) =>
      assert Placed(m, id, m.store[id]);
      Outcome(Leave(m, id), [], -1)
  }

  ghost function Process(m: Market, names: seq<string>, t: nat, c: Command): Outcome
    requires Serves(m, names, t)
  {
    match c
    case New(_, _, _, _, _) => DoNew(m, names, t, c)
    case Change(_, _, _) => DoChange(m, names, t, c)
    case Cancel(_) => DoCancel(m, t, c)
  }

  /** What making or amending an order does besides filing it. */
  ghost predicate Newcomer(m: Market, m': Market, id: Id, o: Order) {
    && m'.store == m.store[id := o] && o.global_id == m.issued
    && |m'.buy| == |m.buy| && |m'.traders| == |m.traders| && m'.issued == m.issued + 1 && m'.fees == m.fees
  }

  lemma MakeFrame(m: Market, side: Side, t: nat, p: nat, quantity: Int, price: Int)
    requires t < |m.traders| && p < |m.buy| == |m.sell|
    ensures var id := Id(t, m.traders[t].next);
      Newcomer(m, Make(Number(m, t), side, t, p, quantity, price, id.local), id,
        Order(side, p, quantity, price, m.issued))
  {
  }

  lemma MakeSound(m: Market, side: Side, t: nat, p: nat, quantity: Int, price: Int)
    requires Indexed(m) && t < |m.traders| && p < |m.buy| && m.issued < INT_LIMIT
    ensures var id, o := Id(t, m.traders[t].next), Order(side, p, quantity, price, m.issued);
      var m' := Make(Number(m, t), side, t, p, quantity, price, id.local);
      Trades(m', p) && id !in m.store && Newcomer(m, m', id, o)
  {
    var id, o := Id(t, m.traders[t].next), Order(side, p, quantity, price, m.issued);
    var m' := Make(Number(m, t), side, t, p, quantity, price, id.local);
    assert Newcomer(m, m', id, o) by { MakeFrame(m, side, t, p, quantity, price); }
    assert Indexed(m') && id !in m.store by { MakeIndexed(m, side, t, p, quantity, price); }
  }

  lemma AmendSound(m: Market, id: Id, quantity: Int, price: Int)
    requires Indexed(m) && id in m.store && m.issued < INT_LIMIT
    ensures var o := m.store[id].(quantity := quantity, price := price, global_id := m.issued);
      && o.product < |m.buy| == |m.sell|
      && var m' := Amend(m, id, quantity, price);
        Trades(m', o.product) && Newcomer(m, m', id, o)
  {
    AmendIndexed(m, id, quantity, price);
  }

  /** A trader's order is found by its number exactly while it lives. */
  lemma OwnFound(m: Market, t: nat, number: int)
    requires Indexed(m) && t < |m.traders|
    ensures Lookup(ByLocal, m.traders[t].orders, Id(t, number)) ==
      if Id(t, number) in m.store then Some(Id(t, number)) else None
  {
    assert OwnOk(m.store, t, m.traders[t].orders);
    FindOwn(m.traders[t].orders, Id(t, number));
  }

  // ---------- between commands ----------

  ghost predicate Uncrossed(m: Market) {
    Indexed(m) && forall p :: 0 <= p < |m.buy| ==> !Crossed(m, p)
  }

  lemma NewcomerApart(store: Store, id: Id, o: Order, q: nat)
    requires Apart(store, q, None) && (id in store ==> store[id].product == o.product)
    ensures Apart(store[id := o], q, Some(id))
    ensures q != o.product ==> Apart(store[id := o], q, None)
  {
  }

  /** Before matching starts, only the order just made or amended may cross. */
  lemma NewcomerReady(m: Market, m': Market, id: Id, o: Order)
    requires Uncrossed(m) && Trades(m', o.product) && Newcomer(m, m', id, o)
    requires id in m.store ==> m.store[id].product == o.product
    ensures Ready(m', o.product, id)
    ensures forall q :: 0 <= q < |m.buy| && q != o.product ==> !Crossed(m', q)
  {
    forall x | x in m.store ensures m.store[x].global_id < m.issued { assert Placed(m, x, m.store[x]); }
    forall q | 0 <= q < |m.buy|
      ensures Apart(m'.store, q, Some(id)) && (q != o.product ==> !Crossed(m', q))
    {
      CrossedOrApart(m, q);
      NewcomerApart(m.store, id, o, q);
      CrossedOrApart(m', q);
    }
  }

  /** Fewer orders at the same prices do not cross either. */
  lemma FewerApart(m: Market, m': Market, p: nat)
    requires Trades(m, p) && Trades(m', p) && !Crossed(m, p)
    requires forall x :: x in m'.store ==> x in m.store && Requantified(m.store[x], m'.store[x])
    ensures !Crossed(m', p)
  {
    CrossedOrApart(m, p);
    CrossedOrApart(m', p);
  }

  /** Other books stay as they were while one is matched. */
  lemma MatchUncrossed(m: Market, p: nat, added: Id)
    requires Trades(m, p) && forall q :: 0 <= q < |m.buy| && q != p ==> !Crossed(m, q)
    ensures Uncrossed(Match(m, p, added).0)
  {
    MatchSound(m, p, added);
    var m' := Match(m, p, added).0;
    forall q | 0 <= q < |m'.buy| ensures !Crossed(m', q) {
      if q != p { FewerApart(m, m', q); }
    }
  }

  lemma LeaveUncrossed(m: Market, id: Id)
    requires Uncrossed(m) && id in m.store
    ensures Placed(m, id, m.store[id]) && Uncrossed(Leave(m, id))
    ensures Leave(m, id).store == m.store - {id} && SameFrame(m, Leave(m, id)) && SameHoldings(m, Leave(m, id))
  {
    LeaveIndexed(m, id);
    var m' := Leave(m, id);
    forall p | 0 <= p < |m'.buy| ensures !Crossed(m', p) { FewerApart(m, m', p); }
  }

  // ---------- what a command does ----------

  /** A command is refused if it names no new number and known product, or no live order. */
  predicate Refused(m: Market, names: seq<string>, t: nat, c: Command)
    requires t < |m.traders|
  {
    if c.New? then c.number != m.traders[t].next || c.product !in names else Id(t, c.number) !in m.store
  }

  /** A refused command changes nothing, and only a refused one does. */
  lemma RefusedOrNot(m: Market, names: seq<string>, t: nat, c: Command)
    requires Serves(m, names, t)
    ensures var r := Process(m, names, t, c);
      && (Refused(m, names, t, c) ==> r == Outcome(m, [], -1))
      && (!Refused(m, names, t, c) ==> r.market != m)
      && (r.answer != -1 <==> c.New? && !Refused(m, names, t, c))
      && (r.answer != -1 ==> 0 <= r.answer < |names| && names[r.answer] == c.product)
  {
    OwnFound(m, t, c.number);
    if c.New? {
      ProductFound(names, c.product, 0);
      var p := ProductFrom(names, c.product, 0);
      assert names[0..] == names;
      if !Refused(m, names, t, c) {
        MakeSound(m, c.side, t, p, c.quantity, c.price);
        MatchSound(Make(Number(m, t), c.side, t, p, c.quantity, c.price, c.number), p, Id(t, c.number));
      }
    } else if c.Change? && !Refused(m, names, t, c) {
      AmendSound(m, Id(t, c.number), c.quantity, c.price);
      MatchSound(Amend(m, Id(t, c.number), c.quantity, c.price), m.store[Id(t, c.number)].product, Id(t, c.number));
    }
  }

  /** The order a command enters or re-enters. */
  function Entered(m: Market, names: seq<string>, t: nat, c: Command): Order
    requires t < |m.traders| && !Refused(m, names, t, c) && !c.Cancel?
  {
    if c.New? then
      ProductFound(names, c.product, 0);
      assert names[0..] == names;
      Order(c.side, ProductFrom(names, c.product, 0), c.quantity, c.price, m.issued)
    else m.store[Id(t, c.number)].(quantity := c.quantity, price := c.price, global_id := m.issued)
  }

  /** The state in which a command's order meets the book. */
  ghost function Presented(m: Market, names: seq<string>, t: nat, c: Command): Market
    requires Serves(m, names, t) && !Refused(m, names, t, c) && !c.Cancel?
  {
    var o := Entered(m, names, t, c);
    if c.New? then
      ProductFound(names, c.product, 0);
      Make(Number(m, t), o.side, t, o.product, o.quantity, o.price, c.number)
    else
      AmendSound(m, Id(t, c.number), c.quantity, c.price);
      Amend(m, Id(t, c.number), c.quantity, c.price)
  }

  lemma PresentedReady(m: Market, names: seq<string>, t: nat, c: Command)
    requires Serves(m, names, t) && !Refused(m, names, t, c) && !c.Cancel? && Uncrossed(m)
    ensures var o, id, m' := Entered(m, names, t, c), Id(t, c.number), Presented(m, names, t, c);
      && Newcomer(m, m', id, o) && Ready(m', o.product, id)
      && Process(m, names, t, c) == Matched(m', o.product, id, if c.New? then o.product else -1)
      && |m'.sell| == |m.sell| && o.product < |m.buy|
      && Book(m', Opposite(o.side), o.product) == Book(m, Opposite(o.side), o.product)
  {
    var o, id := Entered(m, names, t, c), Id(t, c.number);
    if c.New? {
      ProductFound(names, c.product, 0);
      assert names[0..] == names;
      MakeSound(m, c.side, t, o.product, c.quantity, c.price);
    } else {
      OwnFound(m, t, c.number);
      AmendSound(m, id, c.quantity, c.price);
    }
    NewcomerReady(m, Presented(m, names, t, c), id, o);
  }

  /** An order that meets an empty side rests as it was entered. */
  lemma RestsWhole(m: Market, names: seq<string>, t: nat, c: Command)
    requires Serves(m, names, t) && !Refused(m, names, t, c) && !c.Cancel? && Uncrossed(m)
    requires var o := Entered(m, names, t, c);
      o.product < |m.buy| == |m.sell| && Book(m, Opposite(o.side), o.product) == []
    ensures var o, r := Entered(m, names, t, c), Process(m, names, t, c);
      r.fills == [] && r.market.store == m.store[Id(t, c.number) := o]
  {
    PresentedReady(m, names, t, c);
  }

  /** Which commands are carried out: a new order under its trader's next number for a
      product there is, and a change or cancellation of an order that lives. Only the new
      order is answered, with the first product of that name. */
  lemma CarriedOut(m: Market, names: seq<string>, t: nat, c: Command)
    requires Serves(m, names, t) && Uncrossed(m)
    ensures var r := Process(m, names, t, c);
      match c
      case New(_, number, product, _, _) =>
        if number == m.traders[t].next && product in names then
          && r.market.issued == m.issued + 1
          && 0 <= r.answer < |names| && names[r.answer] == product && product !in names[..r.answer]
        else r == Outcome(m, [], -1)
      case Change(number, _, _) =>
        if Id(t, number) in m.store then r.market.issued == m.issued + 1 && r.answer == -1
        else r == Outcome(m, [], -1)
      case Cancel(number) =>
        r.fills == [] && r.answer == -1 &&
        if Id(t, number) in m.store then r.market.store == m.store - {Id(t, number)} else r.market == m
  {
    RefusedOrNot(m, names, t, c);
    if c.New? {
      ProductFound(names, c.product, 0);
      assert names[0..] == names;
    }
    if !Refused(m, names, t, c) {
      if c.Cancel? { CancelTakes(m, names, t, c); } else { CommandAccounts(m, names, t, c); }
    }
  }

  /** An order that no resting one meets rests as it was entered: under the next global id,
      which puts it behind all others of its price, with an amended order keeping its side
      and product. */
  lemma RestsUntraded(m: Market, names: seq<string>, t: nat, c: Command, side: Side, p: nat)
    requires Serves(m, names, t) && Uncrossed(m) && !c.Cancel?
    requires if c.New? then c.number == m.traders[t].next && c.side == side && p < |names| && names[p] == c.product
                            && c.product !in names[..p]
             else Id(t, c.number) in m.store && m.store[Id(t, c.number)].side == side
                  && m.store[Id(t, c.number)].product == p
    requires forall id :: id in m.store && m.store[id].product == p && m.store[id].side != side ==>
      if side == Buy then m.store[id].price > c.price else m.store[id].price < c.price
    ensures var r := Process(m, names, t, c);
      && r.fills == []
      && r.market.store == m.store[Id(t, c.number) := Order(side, p, c.quantity, c.price, m.issued)]
  {
    assert Entered(m, names, t, c) == Order(side, p, c.quantity, c.price, m.issued) by {
      if c.New? {
        ProductFound(names, c.product, 0);
        assert names[0..] == names;
      }
    }
    PresentedReady(m, names, t, c);
    var m' := Presented(m, names, t, c);
    BookStored(m, Opposite(side), p);
    assert !Crossed(m', p) by {
      if Crossed(m', p) {
        HeadsStored(m', p);
        NewOrderTrades(m', p, Id(t, c.number));
      }
    }
  }

  /** What a command trades, and what it leaves, is the sweep of its order through the
      opposite side of the book as it was before the command. */
  lemma CommandSweeps(m: Market, names: seq<string>, t: nat, c: Command)
    requires Serves(m, names, t) && !Refused(m, names, t, c) && !c.Cancel? && Uncrossed(m)
    ensures var o, id, r := Entered(m, names, t, c), Id(t, c.number), Process(m, names, t, c);
      var them := Opposite(o.side);
      && o.product < |m.buy| == |m.sell| == |r.market.buy| == |r.market.sell|
      && Swept(m.store[id := o], Resting(m, them, o.product), id, r.fills,
               Resting(r.market, them, o.product), r.market.store)
  {
    PresentedReady(m, names, t, c);
    var o, id, m' := Entered(m, names, t, c), Id(t, c.number), Presented(m, names, t, c);
    var them := Opposite(o.side);
    MatchSweeps(m', o.product, id);
    SameResting(m, m', id, o, them);
  }

  /** One side's resting orders are the same while one of the other side is entered. */
  lemma SameResting(m: Market, m': Market, id: Id, o: Order, side: Side)
    requires Trades(m, o.product) && Newcomer(m, m', id, o) && |m'.sell| == |m.sell| && side != o.side
    requires Book(m', side, o.product) == Book(m, side, o.product) && (id in m.store ==> m.store[id].side == o.side)
    ensures Resting(m', side, o.product) == Resting(m, side, o.product)
  {
    BookStored(m, side, o.product);
  }

  /** Positions and fees differ by the trades of one product, whatever the numbers. */
  ghost predicate Settled(m: Market, m': Market, p: nat, fills: seq<Fill>) {
    && |m'.traders| == |m.traders| && m'.fees == m.fees + Fees(fills)
    && forall x :: 0 <= x < |m.traders| ==>
      && p < |m.traders[x].quantities| == |m.traders[x].cash|
      && Credited(m.traders[x].(next := m'.traders[x].next), m'.traders[x], p, Gains(fills, x), Profits(fills, x))
  }

  /** A new order uses up its trader's number; nothing else does. */
  ghost predicate Numbered(m: Market, m': Market, t: nat, c: Command) {
    && |m'.traders| == |m.traders|
    && forall x :: 0 <= x < |m.traders| ==>
      m'.traders[x].next == m.traders[x].next + if c.New? && x == t then 1 else 0
  }

  lemma MakeHoldings(m: Market, side: Side, t: nat, p: nat, quantity: Int, price: Int)
    requires t < |m.traders| && p < |m.buy| == |m.sell|
    ensures SameHoldings(m, Make(Number(m, t), side, t, p, quantity, price, m.traders[t].next))
  {
  }

  lemma AmendHoldings(m: Market, id: Id, quantity: Int, price: Int)
    requires id in m.store && m.store[id].product < |m.buy| == |m.sell|
    ensures SameHoldings(m, Amend(m, id, quantity, price))
  {
  }

  lemma PresentedHoldings(m: Market, names: seq<string>, t: nat, c: Command)
    requires Serves(m, names, t) && !Refused(m, names, t, c) && !c.Cancel?
    ensures SameHoldings(m, Presented(m, names, t, c)) && Numbered(m, Presented(m, names, t, c), t, c)
  {
    var o := Entered(m, names, t, c);
    if c.New? {
      ProductFound(names, c.product, 0);
      MakeHoldings(m, o.side, t, o.product, o.quantity, o.price);
    } else {
      AmendSound(m, Id(t, c.number), c.quantity, c.price);
      AmendHoldings(m, Id(t, c.number), c.quantity, c.price);
    }
  }

  lemma SettledThrough(m: Market, m1: Market, m2: Market, p: nat, fills: seq<Fill>, t: nat, c: Command)
    requires Sizes(m1) && p < |m1.buy| && SameHoldings(m, m1) && Numbered(m, m1, t, c) && Booked(m1, m2, p, fills)
    ensures Settled(m, m2, p, fills) && Numbered(m, m2, t, c)
  {
    forall x | 0 <= x < |m.traders|
      ensures Credited(m1.traders[x], m2.traders[x], p, Gains(fills, x), Profits(fills, x))
    {
    }
  }

  /** What a command does to positions, fees, numbers and other orders: its trades, one
      global id, for a new order the trader's number, and nothing else. */
  lemma CommandAccounts(m: Market, names: seq<string>, t: nat, c: Command)
    requires Serves(m, names, t) && !Refused(m, names, t, c) && !c.Cancel? && Uncrossed(m)
    ensures var o, r := Entered(m, names, t, c), Process(m, names, t, c);
      && r.market.issued == m.issued + 1
      && OnlyFills(m.store[Id(t, c.number) := o], r.market.store, o.product)
      && Settled(m, r.market, o.product, r.fills) && Numbered(m, r.market, t, c)
  {
    PresentedReady(m, names, t, c);
    PresentedHoldings(m, names, t, c);
    var o, m' := Entered(m, names, t, c), Presented(m, names, t, c);
    MatchSound(m', o.product, Id(t, c.number));
    MatchBooked(m', o.product, Id(t, c.number));
    var r := Match(m', o.product, Id(t, c.number));
    SettledThrough(m, m', r.0, o.product, r.1, t, c);
  }

  /** An accepted CANCEL takes exactly its order away. */
  lemma CancelTakes(m: Market, names: seq<string>, t: nat, c: Command)
    requires Serves(m, names, t) && c.Cancel? && !Refused(m, names, t, c)
    ensures var r := Process(m, names, t, c);
      && r.fills == [] && r.market.store == m.store - {Id(t, c.number)}
      && SamePositions(m, r.market) && Numbered(m, r.market, t, c) && r.market.issued == m.issued
  {
    OwnFound(m, t, c.number);
    assert Placed(m, Id(t, c.number), m.store[Id(t, c.number)]);
  }

  // ---------- what every command keeps ----------

  /** The state between commands: indexed, uncrossed and balanced. */
  ghost predicate Steady(m: Market) {
    Uncrossed(m) && Balanced(m)
  }

  function Nexts(traders: seq<Trader>): seq<int> {
    seq(|traders|, t requires 0 <= t < |traders| => traders[t].next)
  }

  /** How many order numbers were used up. */
  function NumbersUsed(traders: seq<Trader>): int {
    Sum(Nexts(traders))
  }

  lemma NumbersAfter(m: Market, m': Market, t: nat, c: Command)
    requires Numbered(m, m', t, c) && t < |m.traders|
    ensures NumbersUsed(m'.traders) == NumbersUsed(m.traders) + if c.New? then 1 else 0
  {
    var a, b := Nexts(m.traders), Nexts(m'.traders);
    if c.New? {
      assert b == a[t := a[t] + 1];
      SumUpdate(a, t, a[t] + 1);
    } else {
      assert b == a;
    }
  }

  /** Trades made and orders left, against the order numbers used up. */
  ghost predicate Counted(m: Market, r: Outcome) {
    var used := NumbersUsed(r.market.traders) - NumbersUsed(m.traders);
    0 <= used <= 1 && |r.fills| + |r.market.store| <= |m.store| + used
  }

  /** One command leaves a steady state, issues at most one global id, and makes no more
      trades than orders left or entered. */
  ghost predicate OneStep(m: Market, r: Outcome) {
    && Steady(r.market) && Counted(m, r)
    && |r.market.buy| == |m.buy| && |r.market.traders| == |m.traders|
    && m.issued <= r.market.issued <= m.issued + 1
    && r.market.fees == m.fees + Fees(r.fills)
  }

  lemma OneMore(store: Store, id: Id, o: Order)
    ensures |store[id := o]| == |store| + if id in store then 0 else 1
  {
    assert store[id := o].Keys == store.Keys + {id};
    assert |store[id := o]| == |store[id := o].Keys| && |store| == |store.Keys|;
  }

  lemma LessOne(store: Store, id: Id)
    requires id in store
    ensures |store - {id}| < |store|
  {
    assert id in store.Keys && id !in (store - {id}).Keys;
    FewerKeys(store, store - {id});
  }

  lemma EnteredSteady(m: Market, names: seq<string>, t: nat, c: Command)
    requires Serves(m, names, t) && Steady(m) && !Refused(m, names, t, c) && !c.Cancel?
    ensures Steady(Process(m, names, t, c).market)
  {
    var o, id, m' := Entered(m, names, t, c), Id(t, c.number), Presented(m, names, t, c);
    PresentedReady(m, names, t, c);
    PresentedHoldings(m, names, t, c);
    SameBalance(m, m');
    assert forall q :: 0 <= q < |m'.buy| && q != o.product ==> !Crossed(m', q) by {
      NewcomerReady(m, m', id, o);
    }
    MatchUncrossed(m', o.product, id);
    MatchBalanced(m', o.product, id);
  }

  lemma EnteredCounts(m: Market, names: seq<string>, t: nat, c: Command)
    requires Serves(m, names, t) && Uncrossed(m) && !Refused(m, names, t, c) && !c.Cancel?
    ensures Counted(m, Process(m, names, t, c))
  {
    var o, id, m' := Entered(m, names, t, c), Id(t, c.number), Presented(m, names, t, c);
    assert Numbered(m, Process(m, names, t, c).market, t, c) by { CommandAccounts(m, names, t, c); }
    NumbersAfter(m, Process(m, names, t, c).market, t, c);
    PresentedReady(m, names, t, c);
    MatchCounts(m', o.product, id);
    EnteredNew(m, names, t, c);
    OneMore(m.store, id, o);
  }

  lemma EnteredSteps(m: Market, names: seq<string>, t: nat, c: Command)
    requires Serves(m, names, t) && Steady(m) && !Refused(m, names, t, c) && !c.Cancel?
    ensures OneStep(m, Process(m, names, t, c))
  {
    EnteredSteady(m, names, t, c);
    EnteredCounts(m, names, t, c);
    CommandAccounts(m, names, t, c);
  }

  /** A new order has a new number; an amended one had its number before. */
  lemma EnteredNew(m: Market, names: seq<string>, t: nat, c: Command)
    requires Serves(m, names, t) && !Refused(m, names, t, c) && !c.Cancel?
    ensures Id(t, c.number) in m.store <==> c.Change?
  {
    if c.New? { AdvanceIndexed(m, t); }
  }

  lemma CancelSteady(m: Market, names: seq<string>, t: nat, c: Command)
    requires Serves(m, names, t) && Steady(m) && !Refused(m, names, t, c) && c.Cancel?
    ensures var r := Process(m, names, t, c);
      Steady(r.market) && SameFrame(m, r.market)
  {
    OwnFound(m, t, c.number);
    LeaveUncrossed(m, Id(t, c.number));
    SameBalance(m, Leave(m, Id(t, c.number)));
  }

  lemma CancelSteps(m: Market, names: seq<string>, t: nat, c: Command)
    requires Serves(m, names, t) && Steady(m) && !Refused(m, names, t, c) && c.Cancel?
    ensures OneStep(m, Process(m, names, t, c))
  {
    var r := Process(m, names, t, c);
    assert Steady(r.market) && SameFrame(m, r.market) by { CancelSteady(m, names, t, c); }
    assert Counted(m, r) && r.market.fees == m.fees && r.fills == [] by { CancelCounts(m, names, t, c); }
  }

  lemma CancelCounts(m: Market, names: seq<string>, t: nat, c: Command)
    requires Serves(m, names, t) && c.Cancel? && !Refused(m, names, t, c)
    ensures var r := Process(m, names, t, c);
      Counted(m, r) && r.market.fees == m.fees && r.fills == []
  {
    CancelTakes(m, names, t, c);
    LessOne(m.store, Id(t, c.number));
    NumbersAfter(m, Process(m, names, t, c).market, t, c);
  }

  /** Every command, whatever its fields, keeps the steady state. */
  lemma ProcessSteady(m: Market, names: seq<string>, t: nat, c: Command)
    requires Serves(m, names, t) && Steady(m)
    ensures OneStep(m, Process(m, names, t, c))
  {
    RefusedOrNot(m, names, t, c);
    if !Refused(m, names, t, c) {
      if c.Cancel? { CancelSteps(m, names, t, c); } else { EnteredSteps(m, names, t, c); }
    }
  }

  // ---------- what legal commands keep ----------

  /** Live orders within the limits of one-line messages, and positions within the reach
      of k trades. */
  ghost predicate Tame(m: Market, k: nat) {
    Limited(m.store) && Within(m, k)
  }

  lemma SameWithin(m: Market, m': Market, k: nat)
    requires Within(m, k) && SameHoldings(m, m')
    ensures Within(m', k)
  {
  }

  lemma EnteredTame(m: Market, names: seq<string>, t: nat, c: Command, k: nat)
    requires Serves(m, names, t) && Uncrossed(m) && Tame(m, k) && Legal(c)
    requires !Refused(m, names, t, c) && !c.Cancel?
    ensures var m' := Presented(m, names, t, c);
      var p := Entered(m, names, t, c).product;
      && Tame(m', k) && Trades(m', p)
      && Process(m, names, t, c).market == Match(m', p, Id(t, c.number)).0
      && Process(m, names, t, c).fills == Match(m', p, Id(t, c.number)).1
  {
    var m' := Presented(m, names, t, c);
    PresentedReady(m, names, t, c);
    assert Limited(m'.store) by { NewcomerLimited(m, m', Id(t, c.number), Entered(m, names, t, c)); }
    assert Within(m', k) by {
      PresentedHoldings(m, names, t, c);
      SameWithin(m, m', k);
    }
  }

  lemma NewcomerLimited(m: Market, m': Market, id: Id, o: Order)
    requires Limited(m.store) && Newcomer(m, m', id, o)
    requires 0 < o.quantity <= FIELD_MAX && 0 < o.price <= FIELD_MAX
    ensures Limited(m'.store)
  {
  }

  lemma CancelTame(m: Market, names: seq<string>, t: nat, c: Command, k: nat)
    requires Serves(m, names, t) && Tame(m, k) && !Refused(m, names, t, c) && c.Cancel?
    ensures var r := Process(m, names, t, c);
      Tame(r.market, k) && r.fills == []
  {
    CancelTakes(m, names, t, c);
  }

  lemma MatchTame(m: Market, p: nat, added: Id, k: nat)
    requires Trades(m, p) && Tame(m, k)
    ensures var r := Match(m, p, added);
      Tame(r.0, k + |r.1|) && AllSmall(r.1)
  {
    MatchSmall(m, p, added);
    MatchWithin(m, p, added, k);
  }

  /** Commands of one-line messages keep that state, trade by trade. */
  lemma ProcessTame(m: Market, names: seq<string>, t: nat, c: Command, k: nat)
    requires Serves(m, names, t) && Uncrossed(m) && Tame(m, k) && Legal(c)
    ensures var r := Process(m, names, t, c);
      Tame(r.market, k + |r.fills|) && AllSmall(r.fills)
  {
    RefusedOrNot(m, names, t, c);
    if !Refused(m, names, t, c) {
      if c.Cancel? {
        CancelTame(m, names, t, c, k);
      } else {
        EnteredTame(m, names, t, c, k);
        MatchTame(Presented(m, names, t, c), Entered(m, names, t, c).product, Id(t, c.number), k);
      }
    }
  }

  lemma {:induction false} SweepLeaves(side: Side, limit: int, quantity: Int, rest: seq<Quote>)
    requires forall i :: 0 <= i < |rest| ==> rest[i].quantity > 0
    ensures var w := Sweep(side, limit, quantity, rest);
      && (forall i :: 0 <= i < |w.1| ==> w.1[i].quantity > 0)
      && (w.2.Some? ==> w.2.value <= quantity && (quantity > 0 ==> w.2.value > 0))
    decreases |rest|
  {
    if rest != [] && Meets(side, limit, rest[0].price) {
      if rest[0].quantity < quantity {
        RemainExactly(quantity, rest[0].quantity);
        SweepLeaves(side, limit, quantity - rest[0].quantity, rest[1..]);
      } else {
        LessenLeaves(rest, quantity);
      }
    }
  }

  lemma LessenLeaves(rest: seq<Quote>, quantity: Int)
    requires rest != [] && forall i :: 0 <= i < |rest| ==> rest[i].quantity > 0
    ensures forall i :: 0 <= i < |Lessen(rest, quantity)| ==> Lessen(rest, quantity)[i].quantity > 0
  {
  }

  lemma RestingPositive(m: Market, side: Side, p: nat)
    requires Trades(m, p) && Positive(m.store)
    ensures forall i :: 0 <= i < |Resting(m, side, p)| ==>
      Resting(m, side, p)[i].quantity > 0 && Resting(m, side, p)[i].price > 0
  {
    BookStored(m, side, p);
  }

  lemma OthersPositive(m: Market, m': Market, id: Id, o: Order, rest: seq<Quote>)
    requires Positive(m.store) && Trades(m', o.product) && OnlyFills(m.store[id := o], m'.store, o.product)
    requires var w := Sweep(o.side, o.price, o.quantity, rest);
      && Resting(m', Opposite(o.side), o.product) == w.1 && forall i :: 0 <= i < |w.1| ==> w.1[i].quantity > 0
    requires LeftOver(m.store[id := o], m'.store, id, None)
    ensures Positive(m'.store)
  {
    var them := Opposite(o.side);
    var tree := Book(m', them, o.product);
    assert BookOk(m'.store, Buy, o.product, m'.buy[o.product]);
    assert BookOk(m'.store, Sell, o.product, m'.sell[o.product]);
    forall x | x in m'.store ensures m'.store[x].quantity > 0 && m'.store[x].price > 0 {
      assert Requantified(m.store[id := o][x], m'.store[x]);
      if m.store[x].product == o.product && m.store[x].side != o.side {
        assert InBook(m'.store, them, o.product, x) && x in tree;
        var i :| 0 <= i < |tree| && tree[i] == x;
        assert Resting(m', them, o.product)[i] == QuoteOf(m'.store, x);
      }
    }
  }

  /** A command of positive fields leaves positive orders. */
  lemma StaysPositive(m: Market, names: seq<string>, t: nat, c: Command)
    requires Serves(m, names, t) && Uncrossed(m) && Positive(m.store)
    requires !Refused(m, names, t, c) && !c.Cancel? && c.quantity > 0 && c.price > 0
    ensures Positive(Process(m, names, t, c).market.store)
  {
    PresentedReady(m, names, t, c);
    var o, m' := Entered(m, names, t, c), Presented(m, names, t, c);
    assert Positive(m'.store) by { NewcomerPositive(m, m', Id(t, c.number), o); }
    MatchLessens(m', o.product, Id(t, c.number));
  }

  lemma NewcomerPositive(m: Market, m': Market, id: Id, o: Order)
    requires Positive(m.store) && Newcomer(m, m', id, o) && o.quantity > 0 && o.price > 0
    ensures Positive(m'.store)
  {
  }

  /** So does one whose order is used up. */
  lemma UsedUpPositive(m: Market, names: seq<string>, t: nat, c: Command)
    requires Serves(m, names, t) && Uncrossed(m) && Positive(m.store)
    requires !Refused(m, names, t, c) && !c.Cancel?
    requires var o := Entered(m, names, t, c);
      && o.product < |m.buy| == |m.sell|
      && Sweep(o.side, o.price, o.quantity, Resting(m, Opposite(o.side), o.product)).2 == None
    ensures Positive(Process(m, names, t, c).market.store)
  {
    var o, id, r := Entered(m, names, t, c), Id(t, c.number), Process(m, names, t, c);
    var them := Opposite(o.side);
    CommandSweeps(m, names, t, c);
    RestingPositive(m, them, o.product);
    SweepLeaves(o.side, o.price, o.quantity, Resting(m, them, o.product));
    assert Trades(r.market, o.product) && OnlyFills(m.store[id := o], r.market.store, o.product) by {
      PresentedReady(m, names, t, c);
      MatchSound(Presented(m, names, t, c), o.product, id);
    }
    OthersPositive(m, r.market, id, o, Resting(m, them, o.product));
  }

  /** Live orders have positive quantities and prices after a command exactly if its own
      fields are positive or the opposite side of the book uses its order up. */
  lemma PositiveExactly(m: Market, names: seq<string>, t: nat, c: Command)
    requires Serves(m, names, t) && Uncrossed(m) && Positive(m.store)
    requires !Refused(m, names, t, c) && !c.Cancel?
    ensures var o := Entered(m, names, t, c);
      && o.product < |m.buy| == |m.sell|
      && var left := Sweep(o.side, o.price, o.quantity, Resting(m, Opposite(o.side), o.product)).2;
        Positive(Process(m, names, t, c).market.store) <==> (c.quantity > 0 && c.price > 0) || left == None
  {
    CommandSweeps(m, names, t, c);
    var o := Entered(m, names, t, c);
    var rest := Resting(m, Opposite(o.side), o.product);
    if c.quantity > 0 && c.price > 0 {
      StaysPositive(m, names, t, c);
    } else if Sweep(o.side, o.price, o.quantity, rest).2 == None {
      UsedUpPositive(m, names, t, c);
    } else {
      RestingPositive(m, Opposite(o.side), o.product);
      SweepLeaves(o.side, o.price, o.quantity, rest);
      RestsUnchecked(m.store[Id(t, c.number) := o], Process(m, names, t, c).market.store, Id(t, c.number));
    }
  }

  lemma RestsUnchecked(store: Store, store': Store, id: Id)
    requires id in store && (store[id].quantity <= 0 || store[id].price <= 0)
    requires exists left :: LeftOver(store, store', id, Some(left)) && left <= store[id].quantity
    ensures !Positive(store')
  {
    assert id in store';
  }
}
