/** Two traders and one product: a trade worked out to the last unit, and a fee on less
    than nothing. */
module TwoTraders {
  import opened OrderedSeq
  import opened Orders
  import opened Markets
  import opened Trading
  import opened Matching
  import opened Accounts
  import opened Commands
  import opened Runs
  import opened Overflows
  import opened Numbers
  import opened Messages
  import opened Framing
  import opened MessageLines
  import opened TwoLineRuns

  /** Nobody has or wants anything. */
  predicate Idle(m: Market) {
    && m.store == map[] && m.buy == [[]] && m.sell == [[]] && m.issued == 0 && m.fees == 0
    && m.traders == [Trader([], [0], [0], 0), Trader([], [0], [0], 0)]
  }

  lemma IdleFields(m: Market)
    requires m.store == map[] && |m.buy| == |m.sell| == 1 && m.buy[0] == m.sell[0] == []
    requires m.issued == 0 && m.fees == 0 && |m.traders| == 2
    requires m.traders[0] == m.traders[1] && m.traders[0].orders == [] && m.traders[0].next == 0
    requires |m.traders[0].quantities| == |m.traders[0].cash| == 1
    requires m.traders[0].quantities[0] == m.traders[0].cash[0] == 0
    ensures Idle(m)
  {
    var trader := m.traders[0];
    assert trader.quantities == [0] && trader.cash == [0];
    assert trader == Trader([], [0], [0], 0);
    assert m.traders == [trader, trader];
  }

  /** Nobody does at the opening. */
  lemma IdleOpening()
    ensures Idle(Opening(1, 2)) && Steady(Opening(1, 2))
  {
    IdleFields(Opening(1, 2));
    OpeningSteady(1, 2);
  }

  function Offer(quantity: Int, price: Int): Command {
    New(Sell, 0, "GPU", quantity, price)
  }

  function Bid(quantity: Int, price: Int): Command {
    New(Buy, 0, "GPU", quantity, price)
  }

  /** What the first trader offers is all there is. */
  ghost predicate Offered(m: Market, quantity: Int, price: Int) {
    && Steady(m) && Serves(m, ["GPU"], 1) && m.issued == 1 && m.fees == 0 && |m.traders| == 2
    && m.store == map[Id(0, 0) := Order(Sell, 0, quantity, price, 0)]
    && m.traders[0].next == 1 && m.traders[0].quantities == [0] && m.traders[0].cash == [0]
    && m.traders[1].next == 0 && m.traders[1].quantities == [0] && m.traders[1].cash == [0]
  }

  lemma OfferRests(m: Market, quantity: Int, price: Int)
    requires Idle(m) && Steady(m)
    ensures Serves(m, ["GPU"], 0)
    ensures var r := Process(m, ["GPU"], 0, Offer(quantity, price));
      r.fills == [] && Offered(r.market, quantity, price)
  {
    assert ["GPU"][0] == "GPU";
    var c := Offer(quantity, price);
    RestsWhole(m, ["GPU"], 0, c);
    CommandAccounts(m, ["GPU"], 0, c);
    ProcessSteady(m, ["GPU"], 0, c);
    var m' := Process(m, ["GPU"], 0, c).market;
    assert Gains([], 0) == Gains([], 1) == 0 && Profits([], 0) == Profits([], 1) == 0 && Fees([]) == 0;
    assert forall x :: 0 <= x < 2 ==> m'.traders[x].quantities == [0][0 := 0] && m'.traders[x].cash == [0][0 := 0];
  }

  lemma OfferResting(m: Market, quantity: Int, price: Int)
    requires Offered(m, quantity, price)
    ensures |m.buy| == |m.sell| == 1 && Resting(m, Sell, 0) == [Quote(Id(0, 0), quantity, price)]
  {
    BookStored(m, Sell, 0);
    assert BookOk(m.store, Sell, 0, m.sell[0]);
    OnlyOne(m.sell[0], Id(0, 0));
  }

  /** A trade of the two, with a fee on the second trader: what it leaves of the offer,
      and who has and pays what. */
  ghost predicate Sold(m: Market, fills: seq<Fill>, offered: Int, quantity: Int, price: Int, fee: int)
    requires 0 < quantity <= offered
  {
    && fills == [Fill(Id(0, 0), Id(1, 0), quantity, price, 0, fee)]
    && m.store == (if offered > quantity then map[Id(0, 0) := Order(Sell, 0, offered - quantity, price, 0)] else map[])
    && |m.traders| == 2 && m.fees == fee
    && m.traders[0].quantities == [-quantity] && m.traders[0].cash == [quantity * price]
    && m.traders[1].quantities == [quantity] && m.traders[1].cash == [-(quantity * price) - fee]
  }

  lemma BidSweep(offered: Int, price: Int, quantity: Int, limit: Int)
    requires 0 < quantity <= offered && price <= limit
    ensures Sweep(Buy, limit, quantity, [Quote(Id(0, 0), offered, price)]) ==
      ([Quote(Id(0, 0), quantity, price)],
       if offered > quantity then [Quote(Id(0, 0), offered - quantity, price)] else [], None)
  {
    var rest := [Quote(Id(0, 0), offered, price)];
    assert Lessen(rest, quantity) == if offered > quantity then [Quote(Id(0, 0), offered - quantity, price)] else [];
  }

  /** The offer's order after the one trade. */
  ghost predicate Trimmed(m: Market, f: Fill, offered: Int) {
    && f.sell == Id(0, 0) && f.buy == Id(1, 0) && f.sellFee == 0 && FitsInt(f.quantity) && FitsInt(f.price)
    && 0 < f.quantity <= offered
    && |m.buy| == |m.sell| == 1 && Id(1, 0) !in m.store
    && Resting(m, Sell, 0) ==
         (if offered > f.quantity then [Quote(Id(0, 0), offered - f.quantity, f.price)] else [])
  }

  lemma BidSwept(m: Market, offered: Int, price: Int, quantity: Int, limit: Int)
    requires Offered(m, offered, price)
    ensures var r := Process(m, ["GPU"], 1, Bid(quantity, limit));
      && |r.market.buy| == |r.market.sell| == 1
      && Swept(m.store[Id(1, 0) := Order(Buy, 0, quantity, limit, 1)], [Quote(Id(0, 0), offered, price)], Id(1, 0),
               r.fills, Resting(r.market, Sell, 0), r.market.store)
  {
    assert ["GPU"][0] == "GPU";
    OfferResting(m, offered, price);
    CommandSweeps(m, ["GPU"], 1, Bid(quantity, limit));
  }

  lemma SweptTrims(m: Market, fills: seq<Fill>, store: Store, offered: Int, f: Fill)
    requires Id(1, 0) in store && FitsInt(f.price) && FitsInt(f.quantity) && |m.buy| == |m.sell| == 1
    requires var o := store[Id(1, 0)];
      o.side == Buy && 0 < o.quantity <= offered && f.price <= o.price && f.quantity == o.quantity
    requires f == FillOf(Buy, Id(1, 0), Quote(Id(0, 0), f.quantity, f.price))
    requires Swept(store, [Quote(Id(0, 0), offered, f.price)], Id(1, 0), fills, Resting(m, Sell, 0), m.store)
    ensures fills == [f] && Trimmed(m, f, offered)
  {
    BidSweep(offered, f.price, f.quantity, store[Id(1, 0)].price);
  }

  lemma BidTrims(m: Market, offered: Int, price: Int, quantity: Int, limit: Int, f: Fill)
    requires Offered(m, offered, price) && 0 < quantity <= offered && price <= limit
    requires f == FillOf(Buy, Id(1, 0), Quote(Id(0, 0), quantity, price))
    ensures var r := Process(m, ["GPU"], 1, Bid(quantity, limit));
      r.fills == [f] && Trimmed(r.market, f, offered)
  {
    BidSwept(m, offered, price, quantity, limit);
    var r := Process(m, ["GPU"], 1, Bid(quantity, limit));
    SweptTrims(r.market, r.fills, m.store[Id(1, 0) := Order(Buy, 0, quantity, limit, 1)], offered, f);
  }

  lemma BidIndexed(m: Market, c: Command, offered: Int, price: Int)
    requires Offered(m, offered, price)
    ensures Indexed(Process(m, ["GPU"], 1, c).market)
  {
    ProcessSteady(m, ["GPU"], 1, c);
  }

  /** What else the bid changes: positions, by the one trade. */
  ghost predicate Charged(m: Market, m': Market, f: Fill, bid: Order) {
    OnlyFills(m.store[Id(1, 0) := bid], m'.store, 0) && Settled(m, m', 0, [f])
  }

  lemma BidCharges(m: Market, offered: Int, price: Int, quantity: Int, limit: Int, f: Fill)
    requires Offered(m, offered, price) && 0 < quantity <= offered && price <= limit
    requires f == FillOf(Buy, Id(1, 0), Quote(Id(0, 0), quantity, price))
    ensures Charged(m, Process(m, ["GPU"], 1, Bid(quantity, limit)).market, f, Order(Buy, 0, quantity, limit, 1))
  {
    assert ["GPU"][0] == "GPU";
    BidTrims(m, offered, price, quantity, limit, f);
    CommandAccounts(m, ["GPU"], 1, Bid(quantity, limit));
  }

  /** Of all the fields nothing but a quantity can have changed. */
  lemma OfferLeft(store: Store, store': Store, price: Int, offered: Int, left: int)
    requires OnlyFills(store, store', 0) && store.Keys == {Id(0, 0), Id(1, 0)} && Id(1, 0) !in store'
    requires store[Id(0, 0)] == Order(Sell, 0, offered, price, 0)
    requires Id(0, 0) in store' <==> left > 0
    requires Id(0, 0) in store' ==> store'[Id(0, 0)].quantity == left
    ensures FitsInt(left) || left <= 0
    ensures store' == if left > 0 then map[Id(0, 0) := Order(Sell, 0, left, price, 0)] else map[]
  {
    forall id | id in store' ensures id == Id(0, 0) { assert id in store; }
    if left > 0 { assert Requantified(store[Id(0, 0)], store'[Id(0, 0)]); }
  }

  /** What is offered is what rests. */
  lemma OfferSeen(m: Market, price: Int, left: Int)
    requires Indexed(m) && |m.sell| == |m.buy| == 1
    requires Resting(m, Sell, 0) == if left > 0 then [Quote(Id(0, 0), left, price)] else []
    requires Id(0, 0) in m.store ==> m.store[Id(0, 0)].side == Sell && m.store[Id(0, 0)].product == 0
    ensures Id(0, 0) in m.store <==> left > 0
    ensures left > 0 ==> m.store[Id(0, 0)].quantity == left
  {
    assert BookOk(m.store, Sell, 0, m.sell[0]);
    assert Id(0, 0) in m.sell[0] <==> InBook(m.store, Sell, 0, Id(0, 0));
    if left > 0 {
      assert m.sell[0][0] == Resting(m, Sell, 0)[0].id == Id(0, 0);
    }
  }

  lemma BidLeaves(m: Market, m': Market, f: Fill, offered: Int, bid: Order)
    requires Indexed(m') && Trimmed(m', f, offered) && Charged(m, m', f, bid)
    requires m.store == map[Id(0, 0) := Order(Sell, 0, offered, f.price, 0)]
    ensures m'.store ==
      if offered > f.quantity then map[Id(0, 0) := Order(Sell, 0, offered - f.quantity, f.price, 0)] else map[]
  {
    var store := m.store[Id(1, 0) := bid];
    if Id(0, 0) in m'.store { assert Requantified(store[Id(0, 0)], m'.store[Id(0, 0)]); }
    OfferSeen(m', f.price, offered - f.quantity);
    OfferLeft(store, m'.store, f.price, offered, offered - f.quantity);
  }

  lemma OneFill(f: Fill)
    requires f.sell.owner == 0 && f.buy.owner == 1 && f.sellFee == 0
    ensures Gains([f], 0) == -f.quantity && Gains([f], 1) == f.quantity && Fees([f]) == f.buyFee
    ensures Profits([f], 0) == f.quantity * f.price && Profits([f], 1) == -(f.quantity * f.price) - f.buyFee
  {
    assert [f][1..] == [];
  }

  lemma FromZero(t: Trader, t': Trader, gain: int, profit: int)
    requires t.quantities == [0] && t.cash == [0] && Credited(t, t', 0, gain, profit)
    ensures t'.quantities == [gain] && t'.cash == [profit]
  {
  }

  lemma BidPositions(m: Market, m': Market, f: Fill)
    requires |m.traders| == 2 && m.fees == 0 && Settled(m, m', 0, [f])
    requires forall x :: 0 <= x < 2 ==> m.traders[x].quantities == [0] && m.traders[x].cash == [0]
    requires f.sell.owner == 0 && f.buy.owner == 1 && f.sellFee == 0
    ensures |m'.traders| == 2 && m'.fees == f.buyFee
    ensures m'.traders[0].quantities == [-f.quantity] && m'.traders[0].cash == [f.quantity * f.price]
    ensures m'.traders[1].quantities == [f.quantity] && m'.traders[1].cash == [-(f.quantity * f.price) - f.buyFee]
  {
    OneFill(f);
    FromZero(m.traders[0].(next := m'.traders[0].next), m'.traders[0], Gains([f], 0), Profits([f], 0));
    FromZero(m.traders[1].(next := m'.traders[1].next), m'.traders[1], Gains([f], 1), Profits([f], 1));
  }

  lemma BidPays(m: Market, offered: Int, price: Int, quantity: Int, limit: Int, fee: int)
    requires Offered(m, offered, price) && 0 < quantity <= offered && price <= limit && fee == Fee(quantity * price)
    ensures var r := Process(m, ["GPU"], 1, Bid(quantity, limit));
      Sold(r.market, r.fills, offered, quantity, price, fee)
  {
    var f := Fill(Id(0, 0), Id(1, 0), quantity, price, 0, fee);
    BidTrims(m, offered, price, quantity, limit, f);
    BidCharges(m, offered, price, quantity, limit, f);
    BidIndexed(m, Bid(quantity, limit), offered, price);
    SoldWith(m, Process(m, ["GPU"], 1, Bid(quantity, limit)).market, offered, f, Order(Buy, 0, quantity, limit, 1));
  }

  lemma SoldWith(m: Market, m': Market, offered: Int, f: Fill, bid: Order)
    requires Indexed(m') && Trimmed(m', f, offered) && Charged(m, m', f, bid)
    requires |m.traders| == 2 && m.fees == 0 && m.store == map[Id(0, 0) := Order(Sell, 0, offered, f.price, 0)]
    requires forall x :: 0 <= x < 2 ==> m.traders[x].quantities == [0] && m.traders[x].cash == [0]
    ensures Sold(m', [f], offered, f.quantity, f.price, f.buyFee)
  {
    BidLeaves(m, m', f, offered, bid);
    BidPositions(m, m', f);
  }

  lemma OfferText()
    ensures Compose(Offer(30, 5)) == "SELL 0 GPU 30 5;"
  {
    DigitsMore(3, 0);
    assert "GPU" + " " + ("30" + " " + "5") == "GPU 30 5";
  }

  lemma TakeText()
    ensures Compose(Bid(12, 7)) == "BUY 0 GPU 12 7;"
  {
    DigitsMore(1, 2);
    assert "GPU" + " " + ("12" + " " + "7") == "GPU 12 7";
  }

  lemma LineArrives(c: Command)
    requires InRange(c)
    ensures Arrives(Compose(c), c)
  {
    RoundTrip(c, "");
    assert Compose(c) + "" == Compose(c);
  }

  /** The messages of the first trade below. */
  lemma LinesArrive()
    ensures Arrives("SELL 0 GPU 30 5;", Offer(30, 5)) && Arrives("BUY 0 GPU 12 7;", Bid(12, 7))
  {
    OfferText();
    LineArrives(Offer(30, 5));
    TakeText();
    LineArrives(Bid(12, 7));
  }

  lemma LowNumbers()
    ensures "GPU" + " " + (Decimal(170) + " " + Decimal(-1)) == "GPU 170 -1"
  {
    DigitsMore(1, 7);
    DigitsMore(17, 0);
    assert "GPU" + " " + ("170" + " " + "-1") == "GPU 170 -1";
  }

  lemma LowText(side: Side)
    ensures TwoLines(side, 0, 170, -1) == Word(side) + " 0 GPU 170 -1" + SECOND_LINE + ";"
  {
    var rest := "GPU 170 -1";
    LowNumbers();
    assert Body(New(side, 0, "GPU", 170, -1)) == Word(side) + " " + ("0" + " " + rest);
    assert Word(side) + " " + ("0" + " " + rest) == Word(side) + (" " + "0" + " " + rest);
    assert " " + "0" + " " + rest == " 0 GPU 170 -1";
  }

  /** The messages of the second. */
  lemma LowArrives()
    ensures Arrives("SELL" + " 0 GPU 170 -1" + SECOND_LINE + ";", Offer(170, -1))
    ensures Arrives("BUY" + " 0 GPU 170 -1" + SECOND_LINE + ";", Bid(170, -1))
  {
    LowText(Sell);
    LowText(Buy);
    TwoLinesReceived(Sell, 0, 170, -1);
    TwoLinesReceived(Buy, 0, 170, -1);
  }

  /** Both commands, one after the other, come to this trade. */
  ghost predicate Deals(m: Market, offer: Command, bid: Command, offered: Int, quantity: Int, price: Int, fee: int)
    requires 0 < quantity <= offered
  {
    && Serves(m, ["GPU"], 0)
    && var m1 := Process(m, ["GPU"], 0, offer).market;
      && Serves(m1, ["GPU"], 1)
      && var r := Process(m1, ["GPU"], 1, bid);
        Sold(r.market, r.fills, offered, quantity, price, fee)
  }

  lemma OfferAndBid(m: Market, offered: Int, price: Int, quantity: Int, limit: Int, fee: int)
    requires Idle(m) && Steady(m) && 0 < quantity <= offered && price <= limit && fee == Fee(quantity * price)
    ensures Deals(m, Offer(offered, price), Bid(quantity, limit), offered, quantity, price, fee)
  {
    OfferRests(m, offered, price);
    BidPays(Process(m, ["GPU"], 0, Offer(offered, price)).market, offered, price, quantity, limit, fee);
  }

  /** 30 offered at 5 and 12 bid for at 7: 12 are sold at 5, for 60, and the second trader
      pays 1 more. */
  lemma TradeAtFive(m: Market)
    requires Idle(m) && Steady(m)
    ensures Deals(m, Offer(30, 5), Bid(12, 7), 30, 12, 5, 1)
  {
    FeeRounds(60);
    OfferAndBid(m, 30, 5, 12, 7, 1);
  }

  /** 170 offered and bid for at -1: the fee on -170 is -1. */
  lemma TradeBelowZero(m: Market)
    requires Idle(m) && Steady(m)
    ensures Deals(m, Offer(170, -1), Bid(170, -1), 170, 170, -1, -1)
  {
    FeeRounds(-170);
    OfferAndBid(m, 170, -1, 170, -1, -1);
  }
}
