/** What matching achieves: the book ends uncrossed, every trade is between the new
    order and an older one on the new order's cost, and the whole loop is the plain
    price-time sweep of the new order through the resting orders. */
module Matching {
  import opened OrderedSeq
  import opened Orders
  import opened Markets
  import opened Trading

  /** Every sell price exceeds every buy price of a product, the excepted order aside. */
  ghost predicate Apart(store: Store, p: nat, except: Option<Id>) {
    forall s, b ::
      (InBook(store, Sell, p, s) && InBook(store, Buy, p, b) && Some(s) != except && Some(b) != except)
      ==> store[s].price > store[b].price
  }

  /** A book is not crossed exactly if every sell price exceeds every buy price. */
  lemma CrossedOrApart(m: Market, p: nat)
    requires Trades(m, p)
    ensures Crossed(m, p) <==> !Apart(m.store, p, None)
  {
    var sell, buy, store := m.sell[p], m.buy[p], m.store;
    assert BookOk(store, Sell, p, sell) && BookOk(store, Buy, p, buy);
    if Crossed(m, p) {
      HeadsStored(m, p);
    } else {
      forall s, b | InBook(store, Sell, p, s) && InBook(store, Buy, p, b)
        ensures store[s].price > store[b].price
      {
        assert s in sell && b in buy;
        var i :| 0 <= i < |sell| && sell[i] == s;
        var j :| 0 <= j < |buy| && buy[j] == b;
        assert i > 0 ==> Before(Sell, store[sell[0]], store[sell[i]]);
        assert j > 0 ==> Before(Buy, store[buy[0]], store[buy[j]]);
      }
    }
  }

  // ---------- the new order ----------

  ghost predicate Newest(store: Store, added: Id) {
    added in store ==> forall id :: id in store && id != added ==> store[id].global_id < store[added].global_id
  }

  /** Where matching starts, and what each round of it keeps: only the order just made
      or amended can cross, and every other order is older. */
  ghost predicate Ready(m: Market, p: nat, added: Id) {
    && Trades(m, p) && Apart(m.store, p, Some(added)) && Newest(m.store, added)
    && (added in m.store ==> m.store[added].product == p)
  }

  /** Each trade has the new order on one side; the price is the other order's and is
      within both limits; the fee falls on the new order. */
  lemma NewOrderTrades(m: Market, p: nat, added: Id)
    requires Ready(m, p, added) && Crossed(m, p)
    ensures added in m.store
    ensures var f := NextFill(m, p, added);
      var fee := Fee(f.quantity * f.price);
      && f.sell in m.store && f.buy in m.store
      && m.store[f.sell].price <= f.price <= m.store[f.buy].price
      && (m.store[added].side == Sell ==>
          added == f.sell != f.buy && f.price == m.store[f.buy].price && f.sellFee == fee && f.buyFee == 0)
      && (m.store[added].side == Buy ==>
          added == f.buy != f.sell && f.price == m.store[f.sell].price && f.buyFee == fee && f.sellFee == 0)
  {
    HeadsStored(m, p);
  }

  predicate Requantified(o: Order, o': Order) {
    o' == o.(quantity := o'.quantity)
  }

  /** Orders of other products stay; of orders of this product only quantities change. */
  ghost predicate OnlyFills(store: Store, store': Store, p: nat) {
    && (forall id :: id in store' ==> id in store)
    && (forall id :: id in store' ==> Requantified(store[id], store'[id]))
    && (forall id :: id in store && store[id].product != p ==> id in store' && store'[id] == store[id])
  }

  lemma TradeOnlyFills(store: Store, s: Id, b: Id, p: nat)
    requires s in store && b in store && s != b
    requires store[s].product == p == store[b].product
    ensures OnlyFills(store, After(store, s, b, Min(store[s].quantity, store[b].quantity)), p)
  {
    var q := Min(store[s].quantity, store[b].quantity);
    var store' := After(store, s, b, q);
    forall id
      ensures id in store' ==> id in store
      ensures id in store' ==> Requantified(store[id], store'[id])
      ensures id in store && store[id].product != p ==> id in store' && store'[id] == store[id]
    {
      AfterAt(store, s, b, q, id);
    }
  }

  lemma TradeFills(m: Market, p: nat, added: Id)
    requires Trades(m, p) && Crossed(m, p)
    ensures var f := NextFill(m, p, added);
      && f.sell in m.store && f.buy in m.store && f.sell != f.buy
      && var m' := Trade(m, p, f);
        Trades(m', p) && SameFrame(m, m') && m'.store.Keys < m.store.Keys && OnlyFills(m.store, m'.store, p)
  {
    var f := NextFill(m, p, added);
    HeadsStored(m, p);
    TradeSound(m, p, added);
    TradeStore(m, p, f);
    TradeOnlyFills(m.store, f.sell, f.buy, p);
  }

  lemma FillsKeepReady(store: Store, store': Store, p: nat, added: Id)
    requires OnlyFills(store, store', p) && Apart(store, p, Some(added)) && Newest(store, added)
    ensures Apart(store', p, Some(added)) && Newest(store', added)
    ensures added in store' ==> added in store && store'[added].product == store[added].product
  {
    assert forall id :: id in store' ==> Requantified(store[id], store'[id]);
  }

  lemma TradeReady(m: Market, p: nat, added: Id)
    requires Ready(m, p, added) && Crossed(m, p)
    ensures var f := NextFill(m, p, added);
      f.sell in m.store && f.buy in m.store && f.sell != f.buy && Ready(Trade(m, p, f), p, added)
  {
    var f := NextFill(m, p, added);
    TradeFills(m, p, added);
    FillsKeepReady(m.store, Trade(m, p, f).store, p, added);
  }

  // ---------- the whole loop ----------

  lemma OnlyFillsThen(store: Store, store1: Store, store2: Store, p: nat)
    requires OnlyFills(store, store1, p) && OnlyFills(store1, store2, p)
    ensures OnlyFills(store, store2, p)
  {
    assert forall id :: id in store2 ==> Requantified(store1[id], store2[id]) && Requantified(store[id], store1[id]);
  }

  /** Matching keeps the indexes, stops uncrossed, and touches one product. */
  lemma {:induction false} MatchSound(m: Market, p: nat, added: Id)
    requires Trades(m, p)
    ensures var m' := Match(m, p, added).0;
      Trades(m', p) && SameFrame(m, m') && !Crossed(m', p) && OnlyFills(m.store, m'.store, p)
    decreases m.store.Keys
  {
    if Crossed(m, p) {
      TradeFills(m, p, added);
      var m1 := Trade(m, p, NextFill(m, p, added));
      MatchSound(m1, p, added);
      OnlyFillsThen(m.store, m1.store, Match(m, p, added).0.store, p);
    }
  }

  ghost predicate Lessened(store: Store, store': Store) {
    forall id :: id in store' ==> id in store && store'[id].quantity <= store[id].quantity
  }

  /** While quantities are positive, matching only lessens them, and they stay positive. */
  lemma {:induction false} MatchLessens(m: Market, p: nat, added: Id)
    requires Trades(m, p) && Positive(m.store)
    ensures Positive(Match(m, p, added).0.store) && Lessened(m.store, Match(m, p, added).0.store)
    decreases m.store.Keys
  {
    if Crossed(m, p) {
      var f := NextFill(m, p, added);
      TradeSound(m, p, added);
      TradeStore(m, p, f);
      AfterLessens(m.store, f.sell, f.buy);
      MatchLessens(Trade(m, p, f), p, added);
    }
  }

  // ---------- the sweep ----------

  /** A resting order as a new one sees it, and what the new one takes from it. */
  datatype Quote = Quote(id: Id, quantity: Int, price: Int)

  function QuoteOf(store: Store, id: Id): Quote {
    if id in store then Quote(id, store[id].quantity, store[id].price) else Quote(id, 0, 0)
  }

  function Quotes(store: Store, tree: seq<Id>): (r: seq<Quote>)
    ensures |r| == |tree|
  {
    seq(|tree|, i requires 0 <= i < |tree| => QuoteOf(store, tree[i]))
  }

  function Opposite(side: Side): Side {
    if side == Buy then Sell else Buy
  }

  /** The limit of a new order allows a resting price. */
  predicate Meets(side: Side, limit: int, price: int) {
    if side == Buy then price <= limit else limit <= price
  }

  /** Take from the resting orders, best first, until the quantity is used up or the
      prices no longer meet: what is taken, what rests afterwards, and what is left. */
  function Sweep(side: Side, limit: int, quantity: Int, rest: seq<Quote>): (seq<Quote>, seq<Quote>, Option<Int>)
    decreases |rest|
  {
    if rest == [] || !Meets(side, limit, rest[0].price) then ([], rest, Some(quantity))
    else if rest[0].quantity >= quantity then ([rest[0].(quantity := quantity)], Lessen(rest, quantity), None)
    else
      match Remain(quantity, rest[0].quantity)
      case None => ([rest[0]], rest[1..], None)
      case Some(left) =>
        var r := Sweep(side, limit, left, rest[1..]);
        ([rest[0]] + r.0, r.1, r.2)
  }

  /** Resting orders with a quantity taken from the first, which goes when its int says
      it is used up. */
  function Lessen(rest: seq<Quote>, quantity: int): seq<Quote>
    requires rest != []
  {
    match Remain(rest[0].quantity, quantity)
    case None => rest[1..]
    case Some(left) => [rest[0].(quantity := left)] + rest[1..]
  }

  /** A quantity less what was taken of it, as an int holds it, or nothing if that is not
      positive. */
  function Remain(quantity: Int, taken: int): Option<Int> {
    var left := Narrow(quantity - taken);
    if left <= 0 then None else Some(left)
  }

  function FillOf(side: Side, added: Id, take: Quote): Fill {
    var fee := Fee(take.quantity * take.price);
    if side == Buy then Fill(take.id, added, take.quantity, take.price, 0, fee)
    else Fill(added, take.id, take.quantity, take.price, fee, 0)
  }

  function Fills(side: Side, added: Id, takes: seq<Quote>): seq<Fill> {
    seq(|takes|, i requires 0 <= i < |takes| => FillOf(side, added, takes[i]))
  }

  function Volume(quotes: seq<Quote>): int {
    if quotes == [] then 0 else quotes[0].quantity + Volume(quotes[1..])
  }

  lemma ClearBook(m: Market, id: Id, side: Side, p: nat)
    requires Indexed(m) && id in m.store && p < |m.buy|
    ensures |Clear(m, id).buy| == |Clear(m, id).sell| == |m.buy|
    ensures Book(Clear(m, id), side, p) ==
      if m.store[id].quantity <= 0 && InBook(m.store, side, p, id)
      then Remove(ByPrice(m.store, side), Book(m, side, p), id) else Book(m, side, p)
  {
    assert Placed(m, id, m.store[id]);
  }

  lemma ClearHead(m: Market, id: Id, side: Side, p: nat)
    requires Indexed(m) && id in m.store && p < |m.buy|
    requires InBook(m.store, side, p, id) ==> Book(m, side, p) != [] && Book(m, side, p)[0] == id
    ensures |Clear(m, id).buy| == |Clear(m, id).sell| == |m.buy|
    ensures Book(Clear(m, id), side, p) ==
      if m.store[id].quantity <= 0 && InBook(m.store, side, p, id) then Book(m, side, p)[1..] else Book(m, side, p)
  {
    ClearBook(m, id, side, p);
    assert BookOk(m.store, Buy, p, m.buy[p]) && BookOk(m.store, Sell, p, m.sell[p]);
    if InBook(m.store, side, p, id) {
      UnfileOrder(m.store, side, Book(m, side, p), 0);
    }
  }

  /** The two heads of a product, of which those used up are taken out. */
  lemma ClearBoth(m: Market, s: Id, b: Id, p: nat)
    requires Indexed(m) && p < |m.buy| && InBook(m.store, Sell, p, s) && InBook(m.store, Buy, p, b)
    requires m.sell[p] != [] && m.sell[p][0] == s && m.buy[p] != [] && m.buy[p][0] == b
    ensures b in Clear(m, s).store && Indexed(Clear(m, s))
    ensures var m' := Clear(Clear(m, s), b);
      && |m'.buy| == |m'.sell| == |m.buy|
      && m'.sell[p] == (if m.store[s].quantity <= 0 then m.sell[p][1..] else m.sell[p])
      && m'.buy[p] == (if m.store[b].quantity <= 0 then m.buy[p][1..] else m.buy[p])
  {
    ClearHead(m, s, Sell, p);
    ClearHead(m, s, Buy, p);
    ClearIndexed(m, s);
    var m1 := Clear(m, s);
    ClearHead(m1, b, Sell, p);
    ClearHead(m1, b, Buy, p);
  }

  lemma FilledQuantities(m: Market, p: nat, f: Fill)
    requires Indexed(m) && p < |m.buy| && f.sell in m.store && f.buy in m.store && f.sell != f.buy
    ensures var m' := Filled(m, p, f);
      && m'.buy == m.buy && m'.sell == m.sell && m'.store.Keys == m.store.Keys
      && Requantified(m.store[f.sell], m'.store[f.sell]) && Requantified(m.store[f.buy], m'.store[f.buy])
      && (m'.store[f.sell].quantity <= 0 <==> Remain(m.store[f.sell].quantity, f.quantity).None?)
      && (m'.store[f.buy].quantity <= 0 <==> Remain(m.store[f.buy].quantity, f.quantity).None?)
  {
  }

  /** A trade between the two heads leaves each tree, or its tail. */
  lemma TradeBooks(m: Market, p: nat, f: Fill)
    requires Trades(m, p) && Crossed(m, p) && f.sell == m.sell[p][0] && f.buy == m.buy[p][0]
    ensures f.sell != f.buy && |Trade(m, p, f).buy| == |Trade(m, p, f).sell| == |m.buy|
    ensures Trade(m, p, f).sell[p] ==
      if Remain(m.store[f.sell].quantity, f.quantity).None? then m.sell[p][1..] else m.sell[p]
    ensures Trade(m, p, f).buy[p] ==
      if Remain(m.store[f.buy].quantity, f.quantity).None? then m.buy[p][1..] else m.buy[p]
  {
    HeadsStored(m, p);
    FilledIndexed(m, p, f);
    FilledQuantities(m, p, f);
    ClearBoth(Filled(m, p, f), f.sell, f.buy, p);
  }

  lemma BookStored(m: Market, side: Side, p: nat)
    requires Trades(m, p)
    ensures forall i :: 0 <= i < |Book(m, side, p)| ==> InBook(m.store, side, p, Book(m, side, p)[i])
    ensures forall i, j :: 0 <= i < j < |Book(m, side, p)| ==> Book(m, side, p)[i] != Book(m, side, p)[j]
    ensures Priority(m.store, side, Book(m, side, p))
  {
    assert BookOk(m.store, Buy, p, m.buy[p]) && BookOk(m.store, Sell, p, m.sell[p]);
    var tree := Book(m, side, p);
    forall i | 0 <= i < |tree| ensures InBook(m.store, side, p, tree[i]) { assert tree[i] in tree; }
    PriorityDistinct(m.store, side, tree);
  }

  /** The resting orders of one side of a product, best first. */
  function Resting(m: Market, side: Side, p: nat): seq<Quote>
    requires p < |m.buy| == |m.sell|
  {
    Quotes(m.store, Book(m, side, p))
  }

  /** The head of a tree after a trade, and the rest of the tree untouched. */
  lemma HeadQuotes(store: Store, tree: seq<Id>, s: Id, b: Id, quantity: int)
    requires s in store && b in store && s != b && tree != [] && (tree[0] == s || tree[0] == b)
    requires forall i :: 1 <= i < |tree| ==> tree[i] in store && tree[i] != s && tree[i] != b
    ensures var store', used := After(store, s, b, quantity), Remain(store[tree[0]].quantity, quantity).None?;
      Quotes(store', if used then tree[1..] else tree) == Lessen(Quotes(store, tree), quantity)
  {
    var store' := After(store, s, b, quantity);
    AfterAt(store, s, b, quantity, tree[0]);
    forall i | 1 <= i < |tree| ensures QuoteOf(store', tree[i]) == QuoteOf(store, tree[i]) {
      AfterAt(store, s, b, quantity, tree[i]);
    }
    HeadLessened(store, store', tree, quantity);
  }

  lemma HeadLessened(store: Store, store': Store, tree: seq<Id>, quantity: int)
    requires tree != [] && tree[0] in store
    requires forall i :: 1 <= i < |tree| ==> QuoteOf(store', tree[i]) == QuoteOf(store, tree[i])
    requires var left := Remain(store[tree[0]].quantity, quantity);
      left.Some? ==> tree[0] in store' && store'[tree[0]] == store[tree[0]].(quantity := left.value)
    ensures var used := Remain(store[tree[0]].quantity, quantity).None?;
      Quotes(store', if used then tree[1..] else tree) == Lessen(Quotes(store, tree), quantity)
  {
    var rest, left := Quotes(store, tree), Remain(store[tree[0]].quantity, quantity);
    assert rest[0] == QuoteOf(store, tree[0]);
    if left == None {
      assert Quotes(store', tree[1..]) == rest[1..];
    } else {
      assert Quotes(store', tree) == [QuoteOf(store', tree[0])] + rest[1..];
    }
  }

  ghost predicate TradeOk(m: Market, p: nat, added: Id)
    requires Ready(m, p, added) && Crossed(m, p)
  {
    var f := NextFill(m, p, added);
    f.sell in m.store && f.buy in m.store && f.sell != f.buy && Ready(Trade(m, p, f), p, added)
  }

  lemma HeadsOnly(m: Market, p: nat, side: Side)
    requires Trades(m, p) && Crossed(m, p)
    ensures var s, b, tree := m.sell[p][0], m.buy[p][0], Book(m, side, p);
      && s in m.store && b in m.store && s != b && tree[0] == (if side == Sell then s else b)
      && forall i :: 1 <= i < |tree| ==> tree[i] in m.store && tree[i] != s && tree[i] != b
  {
    HeadsStored(m, p);
    BookStored(m, side, p);
    var tree := Book(m, side, p);
    forall i | 1 <= i < |tree| ensures tree[i] in m.store && tree[i] != m.sell[p][0] && tree[i] != m.buy[p][0] {
      assert InBook(m.store, side, p, tree[i]) && tree[0] != tree[i];
    }
  }

  lemma TradeTree(m: Market, p: nat, f: Fill, side: Side)
    requires Trades(m, p) && Crossed(m, p) && f.sell == m.sell[p][0] && f.buy == m.buy[p][0]
    ensures f.sell != f.buy && |Trade(m, p, f).buy| == |Trade(m, p, f).sell| == |m.buy|
    ensures var tree := Book(m, side, p);
      && tree != [] && tree[0] in m.store
      && Book(Trade(m, p, f), side, p) ==
         if Remain(m.store[tree[0]].quantity, f.quantity).None? then tree[1..] else tree
  {
    TradeBooks(m, p, f);
  }

  lemma TradeSide(m: Market, p: nat, f: Fill, side: Side)
    requires Trades(m, p) && Crossed(m, p) && f.sell == m.sell[p][0] && f.buy == m.buy[p][0]
    ensures f.sell != f.buy
    ensures var rest, m' := Resting(m, side, p), Trade(m, p, f);
      && |m'.buy| == |m'.sell| == |m.buy| && rest != []
      && Resting(m', side, p) == Lessen(rest, f.quantity)
  {
    HeadsOnly(m, p, side);
    TradeTree(m, p, f, side);
    assert Trade(m, p, f).store == After(m.store, f.sell, f.buy, f.quantity) by { TradeStore(m, p, f); }
    HeadQuotes(m.store, Book(m, side, p), f.sell, f.buy, f.quantity);
  }

  lemma DealTakes(store: Store, s: Id, b: Id, added: Id)
    requires s in store && b in store && store[s].side == Sell && store[b].side == Buy
    requires (added == s && store[b].global_id < store[s].global_id)
          || (added == b && store[s].global_id < store[b].global_id)
    ensures var o, h := store[added], if added == b then s else b;
      Deal(store, s, b, added) ==
      FillOf(o.side, added, QuoteOf(store, h).(quantity := Min(o.quantity, store[h].quantity)))
  {
  }

  /** A trade takes the head of the opposite side, or a part of it. */
  lemma TradeTakes(m: Market, p: nat, added: Id)
    requires Ready(m, p, added) && Crossed(m, p)
    ensures added in m.store && TradeOk(m, p, added)
    ensures var o, f := m.store[added], NextFill(m, p, added);
      var rest := Resting(m, Opposite(o.side), p);
      && rest != [] && Meets(o.side, o.price, rest[0].price)
      && f == FillOf(o.side, added, rest[0].(quantity := Min(o.quantity, rest[0].quantity)))
  {
    NewOrderTrades(m, p, added);
    TradeReady(m, p, added);
    HeadsStored(m, p);
    DealTakes(m.store, m.sell[p][0], m.buy[p][0], added);
  }

  /** A new order that cannot trade meets no resting order. */
  lemma NothingMeets(m: Market, p: nat, added: Id)
    requires Ready(m, p, added) && added in m.store && !Crossed(m, p)
    ensures var o := m.store[added];
      var rest := Resting(m, Opposite(o.side), p);
      rest != [] ==> !Meets(o.side, o.price, rest[0].price)
  {
    var o := m.store[added];
    CrossedOrApart(m, p);
    BookStored(m, Opposite(o.side), p);
    assert InBook(m.store, o.side, p, added);
  }

  /** What is left of a new order after matching, and its own side left alone. */
  ghost predicate LeftOver(store: Store, store': Store, added: Id, left: Option<int>)
    requires added in store
  {
    && (added in store' <==> left.Some?)
    && (added in store' ==> store'[added].quantity == left.value && Requantified(store[added], store'[added]))
    && (forall id :: id in store && id != added && store[id].side == store[added].side ==>
          id in store' && store'[id] == store[id])
  }

  lemma AfterLeft(store: Store, s: Id, b: Id, quantity: int, added: Id)
    requires s in store && b in store && (added == s || added == b) && store[s].side != store[b].side
    ensures LeftOver(store, After(store, s, b, quantity), added, Remain(store[added].quantity, quantity))
  {
    forall id | id in store && id != added && store[id].side == store[added].side
      ensures id in After(store, s, b, quantity) && After(store, s, b, quantity)[id] == store[id]
    {
      AfterAt(store, s, b, quantity, id);
    }
    AfterAt(store, s, b, quantity, added);
  }

  lemma TradeAdded(m: Market, p: nat, added: Id)
    requires Ready(m, p, added) && Crossed(m, p) && added in m.store && TradeOk(m, p, added)
    ensures var f := NextFill(m, p, added);
      LeftOver(m.store, Trade(m, p, f).store, added, Remain(m.store[added].quantity, f.quantity))
  {
    var f := NextFill(m, p, added);
    NewOrderTrades(m, p, added);
    HeadsStored(m, p);
    TradeStore(m, p, f);
    AfterLeft(m.store, f.sell, f.buy, f.quantity, added);
  }

  /** What the sweep says of the trades made, of what rests, and of what is left over. */
  ghost predicate Swept(store: Store, rest: seq<Quote>, added: Id, fills: seq<Fill>, rest': seq<Quote>, store': Store)
    requires added in store
  {
    var o := store[added];
    var w := Sweep(o.side, o.price, o.quantity, rest);
    fills == Fills(o.side, added, w.0) && rest' == w.1 && LeftOver(store, store', added, w.2)
  }

  /** The same of one trade. */
  ghost predicate Took(store: Store, rest: seq<Quote>, added: Id, f: Fill, rest': seq<Quote>, store': Store)
    requires added in store
  {
    var o := store[added];
    && rest != [] && Meets(o.side, o.price, rest[0].price)
    && f == FillOf(o.side, added, rest[0].(quantity := Min(o.quantity, rest[0].quantity)))
    && rest' == Lessen(rest, f.quantity)
    && LeftOver(store, store', added, Remain(o.quantity, f.quantity))
  }

  lemma TakeAll(store: Store, rest: seq<Quote>, added: Id, f: Fill, rest1: seq<Quote>, store1: Store,
                fills: seq<Fill>, rest': seq<Quote>, store': Store)
    requires added in store && Took(store, rest, added, f, rest1, store1)
    requires added in store1 && Swept(store1, rest1, added, fills, rest', store')
    ensures Swept(store, rest, added, [f] + fills, rest', store')
  {
    var o := store[added];
    var left := Remain(o.quantity, f.quantity);
    assert rest[0].quantity < o.quantity && rest1 == rest[1..];
    var w1 := Sweep(o.side, o.price, left.value, rest[1..]);
    var w := Sweep(o.side, o.price, o.quantity, rest);
    assert w.0 == [rest[0]] + w1.0 && w.1 == w1.1 && w.2 == w1.2;
    assert Fills(o.side, added, w.0) == [f] + Fills(o.side, added, w1.0);
  }

  lemma TakePart(store: Store, rest: seq<Quote>, added: Id, f: Fill, rest': seq<Quote>, store': Store)
    requires added in store && Took(store, rest, added, f, rest', store') && added !in store'
    ensures Swept(store, rest, added, [f], rest', store')
  {
    var o := store[added];
    assert Sweep(o.side, o.price, o.quantity, rest).0 == [rest[0].(quantity := Min(o.quantity, rest[0].quantity))];
  }

  lemma TradeTook(m: Market, p: nat, added: Id)
    requires Ready(m, p, added) && Crossed(m, p) && added in m.store
    ensures TradeOk(m, p, added)
    ensures var f, them := NextFill(m, p, added), Opposite(m.store[added].side);
      var m' := Trade(m, p, f);
      && |m'.buy| == |m'.sell| == |m.buy|
      && Took(m.store, Resting(m, them, p), added, f, Resting(m', them, p), m'.store)
  {
    TradeTakes(m, p, added);
    TradeSide(m, p, NextFill(m, p, added), Opposite(m.store[added].side));
    TradeAdded(m, p, added);
  }

  /** The loop is its first round and the loop from there. */
  lemma MatchFirst(m: Market, p: nat, added: Id)
    requires Trades(m, p) && Crossed(m, p)
    ensures var f := NextFill(m, p, added);
      && f.sell in m.store && f.buy in m.store && f.sell != f.buy
      && var m' := Trade(m, p, f);
        && Trades(m', p) && m'.store.Keys < m.store.Keys
        && Match(m, p, added).0 == Match(m', p, added).0
        && Match(m, p, added).1 == [f] + Match(m', p, added).1
  {
    TradeSound(m, p, added);
  }

  ghost predicate IsSweep(m: Market, p: nat, added: Id)
    requires Trades(m, p) && added in m.store
  {
    var r, them := Match(m, p, added), Opposite(m.store[added].side);
    && |r.0.buy| == |r.0.sell| == |m.buy|
    && Swept(m.store, Resting(m, them, p), added, r.1, Resting(r.0, them, p), r.0.store)
  }

  lemma SweptNothing(m: Market, p: nat, added: Id)
    requires Ready(m, p, added) && added in m.store && !Crossed(m, p)
    ensures |m.buy| == |m.sell|
    ensures var rest := Resting(m, Opposite(m.store[added].side), p);
      Swept(m.store, rest, added, [], rest, m.store)
  {
    NothingMeets(m, p, added);
  }

  /** The last trade of a loop, which uses the new order up. */
  lemma SweptOnce(m: Market, p: nat, added: Id)
    requires Ready(m, p, added) && Crossed(m, p) && added in m.store && TradeOk(m, p, added)
    requires added !in Trade(m, p, NextFill(m, p, added)).store
    ensures IsSweep(m, p, added)
  {
    var f, them := NextFill(m, p, added), Opposite(m.store[added].side);
    TradeTook(m, p, added);
    MatchFirst(m, p, added);
    var m1 := Trade(m, p, f);
    if Crossed(m1, p) { NewOrderTrades(m1, p, added); }
    assert [f] + [] == [f];
    TakePart(m.store, Resting(m, them, p), added, f, Resting(m1, them, p), m1.store);
  }

  /** One more trade before a loop that is a sweep. */
  lemma SweptMore(m: Market, p: nat, added: Id)
    requires Ready(m, p, added) && Crossed(m, p) && added in m.store && TradeOk(m, p, added)
    requires added in Trade(m, p, NextFill(m, p, added)).store
    requires IsSweep(Trade(m, p, NextFill(m, p, added)), p, added)
    ensures IsSweep(m, p, added)
  {
    var f, them := NextFill(m, p, added), Opposite(m.store[added].side);
    TradeTook(m, p, added);
    MatchFirst(m, p, added);
    var m1 := Trade(m, p, f);
    var r := Match(m1, p, added);
    TakeAll(m.store, Resting(m, them, p), added, f, Resting(m1, them, p), m1.store,
      r.1, Resting(r.0, them, p), r.0.store);
  }

  /** The matching loop is the sweep: the same trades in the same order, the same
      resting orders, and the same quantity left over. */
  lemma {:induction false} MatchSweeps(m: Market, p: nat, added: Id)
    requires Ready(m, p, added) && added in m.store
    ensures IsSweep(m, p, added)
    decreases m.store.Keys
  {
    if !Crossed(m, p) {
      SweptNothing(m, p, added);
    } else {
      TradeSound(m, p, added);
      TradeReady(m, p, added);
      var m1 := Trade(m, p, NextFill(m, p, added));
      if added in m1.store {
        MatchSweeps(m1, p, added);
        SweptMore(m, p, added);
      } else {
        SweptOnce(m, p, added);
      }
    }
  }

  // ---------- what the sweep achieves ----------

  /** How much rests at prices the limit allows, wherever it stands in the list. */
  function Available(side: Side, limit: int, rest: seq<Quote>): int {
    if rest == [] then 0
    else (if Meets(side, limit, rest[0].price) then rest[0].quantity else 0) + Available(side, limit, rest[1..])
  }

  /** Prices that meet the limit come before those that do not. */
  ghost predicate BestFirst(side: Side, limit: int, rest: seq<Quote>) {
    && (forall i :: 0 <= i < |rest| ==> rest[i].quantity > 0)
    && (forall i, j :: 0 <= i < j < |rest| && Meets(side, limit, rest[j].price) ==> Meets(side, limit, rest[i].price))
  }

  lemma {:induction false} NoneAvailable(side: Side, limit: int, rest: seq<Quote>)
    requires forall i :: 0 <= i < |rest| ==> !Meets(side, limit, rest[i].price)
    ensures Available(side, limit, rest) == 0
  {
    if rest != [] { NoneAvailable(side, limit, rest[1..]); }
  }

  lemma {:induction false} AvailableNat(side: Side, limit: int, rest: seq<Quote>)
    requires forall i :: 0 <= i < |rest| ==> rest[i].quantity > 0
    ensures Available(side, limit, rest) >= 0
  {
    if rest != [] { AvailableNat(side, limit, rest[1..]); }
  }

  /** What of a quantity there is not enough for. */
  function Unfilled(quantity: int, there: int): Option<int> {
    if quantity <= there then None else Some(quantity - there)
  }

  lemma RemainExactly(quantity: Int, taken: Int)
    requires quantity > 0 && taken > 0
    ensures Remain(quantity, taken) == Unfilled(quantity, taken)
  {
  }

  /** As much is taken as is wanted or there, whichever is less, within the limit; the rest
      is left over; and nothing is lost. */
  ghost predicate Fair(side: Side, limit: int, quantity: int, rest: seq<Quote>,
                       taken: seq<Quote>, rest': seq<Quote>, left: Option<int>) {
    var there := Available(side, limit, rest);
    && Volume(taken) == Min(quantity, there) && left == Unfilled(quantity, there)
    && Volume(taken) + Volume(rest') == Volume(rest)
    && (forall i :: 0 <= i < |taken| ==> Meets(side, limit, taken[i].price) && taken[i].quantity > 0)
  }

  lemma FairMore(side: Side, limit: int, quantity: int, rest: seq<Quote>,
                 taken: seq<Quote>, rest': seq<Quote>, left: Option<int>)
    requires rest != [] && Meets(side, limit, rest[0].price) && rest[0].quantity > 0
    requires Fair(side, limit, quantity - rest[0].quantity, rest[1..], taken, rest', left)
    ensures Fair(side, limit, quantity, rest, [rest[0]] + taken, rest', left)
  {
    assert ([rest[0]] + taken)[1..] == taken;
  }

  lemma FairLast(side: Side, limit: int, quantity: Int, rest: seq<Quote>)
    requires rest != [] && Meets(side, limit, rest[0].price) && 0 < quantity <= rest[0].quantity
    requires Available(side, limit, rest[1..]) >= 0
    requires Remain(rest[0].quantity, quantity) == Unfilled(rest[0].quantity, quantity)
    ensures Fair(side, limit, quantity, rest, [rest[0].(quantity := quantity)], Lessen(rest, quantity), None)
  {
    assert [rest[0].(quantity := quantity)][1..] == [] && Volume([]) == 0;
    if rest[0].quantity > quantity { assert Lessen(rest, quantity)[1..] == rest[1..]; }
  }

  /** A new order trades all it wants or all there is within its limit, whichever is
      less, at prices within the limit, and nothing is lost. */
  lemma {:induction false} SweepFills(side: Side, limit: int, quantity: Int, rest: seq<Quote>)
    requires quantity > 0 && BestFirst(side, limit, rest)
    ensures var w := Sweep(side, limit, quantity, rest);
      Fair(side, limit, quantity, rest, w.0, w.1, w.2)
    decreases |rest|
  {
    if rest == [] {
    } else if !Meets(side, limit, rest[0].price) {
      NoneAvailable(side, limit, rest);
    } else {
      AvailableNat(side, limit, rest[1..]);
      RemainExactly(rest[0].quantity, quantity);
      RemainExactly(quantity, rest[0].quantity);
      if rest[0].quantity >= quantity {
        FairLast(side, limit, quantity, rest);
      } else {
        SweepFills(side, limit, quantity - rest[0].quantity, rest[1..]);
        var w := Sweep(side, limit, quantity - rest[0].quantity, rest[1..]);
        FairMore(side, limit, quantity, rest, w.0, w.1, w.2);
      }
    }
  }

  lemma RestingBestFirst(m: Market, side: Side, p: nat, limit: int)
    requires Trades(m, p) && Positive(m.store)
    ensures BestFirst(Opposite(side), limit, Resting(m, side, p))
  {
    BookStored(m, side, p);
    var tree := Book(m, side, p);
    forall i, j | 0 <= i < j < |tree|
      ensures Meets(Opposite(side), limit, m.store[tree[j]].price) ==>
        Meets(Opposite(side), limit, m.store[tree[i]].price)
    {
      assert Before(side, m.store[tree[i]], m.store[tree[j]]);
    }
  }

  /** What is left of a new order is what its limit did not let it trade. */
  lemma MatchFills(m: Market, p: nat, added: Id)
    requires Ready(m, p, added) && added in m.store && Positive(m.store)
    ensures var o := m.store[added];
      LeftOver(m.store, Match(m, p, added).0.store, added,
               Unfilled(o.quantity, Available(o.side, o.price, Resting(m, Opposite(o.side), p))))
  {
    var o := m.store[added];
    MatchSweeps(m, p, added);
    RestingBestFirst(m, Opposite(o.side), p, o.price);
    SweepFills(o.side, o.price, o.quantity, Resting(m, Opposite(o.side), p));
  }
}
