/** Who owns what after trading: positions follow the trades, cash and quantities are
    conserved, and both stay within the reach of the number of trades. */
module Accounts {
  import opened Orders
  import opened Markets
  import opened Trading

  // ---------- positions follow the trades ----------

  /** What one trade does to a trader's quantity and cash, from both sides. */
  function Gain(f: Fill, t: nat): int {
    (if f.buy.owner == t then f.quantity else 0) - (if f.sell.owner == t then f.quantity else 0)
  }

  function Profit(f: Fill, t: nat): int {
    var value := f.quantity * f.price;
    (if f.sell.owner == t then value - f.sellFee else 0) - (if f.buy.owner == t then value + f.buyFee else 0)
  }

  function Gains(fills: seq<Fill>, t: nat): int {
    if fills == [] then 0 else Gain(fills[0], t) + Gains(fills[1..], t)
  }

  function Profits(fills: seq<Fill>, t: nat): int {
    if fills == [] then 0 else Profit(fills[0], t) + Profits(fills[1..], t)
  }

  function Fees(fills: seq<Fill>): int {
    if fills == [] then 0 else fills[0].sellFee + fills[0].buyFee + Fees(fills[1..])
  }

  function Values(fills: seq<Fill>): int {
    if fills == [] then 0 else fills[0].quantity * fills[0].price + Values(fills[1..])
  }

  ghost predicate Credited(t: Trader, t': Trader, p: nat, gain: int, profit: int)
    requires p < |t.quantities| == |t.cash|
  {
    && t'.quantities == t.quantities[p := t.quantities[p] + gain]
    && t'.cash == t.cash[p := t.cash[p] + profit]
    && t'.next == t.next
  }

  /** The positions differ by the trades of one product, trader by trader. */
  ghost predicate Booked(m: Market, m': Market, p: nat, fills: seq<Fill>)
    requires Sizes(m) && p < |m.buy|
  {
    && |m'.traders| == |m.traders| && m'.fees == m.fees + Fees(fills)
    && forall t :: 0 <= t < |m.traders| ==>
      Credited(m.traders[t], m'.traders[t], p, Gains(fills, t), Profits(fills, t))
  }

  ghost predicate SamePositions(m: Market, m': Market) {
    && |m'.traders| == |m.traders| && m'.fees == m.fees
    && forall t :: 0 <= t < |m.traders| ==> m'.traders[t] == m.traders[t].(orders := m'.traders[t].orders)
  }

  lemma SettleBooked(m: Market, p: nat, f: Fill)
    requires Sizes(m) && p < |m.buy| && f.sell.owner < |m.traders| && f.buy.owner < |m.traders|
    ensures Booked(m, Settle(m, p, f), p, [f])
  {
    assert [f][1..] == [];
    var m' := Settle(m, p, f);
    forall t | 0 <= t < |m.traders|
      ensures Credited(m.traders[t], m'.traders[t], p, Gain(f, t), Profit(f, t))
    {
    }
    assert Gains([], 0) == 0;
    forall t: nat ensures Gains([f], t) == Gain(f, t) && Profits([f], t) == Profit(f, t) {
      assert Gains([f][1..], t) == 0 && Profits([f][1..], t) == 0;
    }
  }

  lemma ClearPositions(m: Market, id: Id)
    requires Indexed(m) && id in m.store
    ensures SamePositions(m, Clear(m, id))
  {
    assert Placed(m, id, m.store[id]);
  }

  lemma TradePositions(m: Market, p: nat, f: Fill)
    requires Indexed(m) && p < |m.buy| && f.sell in m.store && f.buy in m.store && f.sell != f.buy
    ensures SamePositions(Filled(m, p, f), Trade(m, p, f))
  {
    FilledIndexed(m, p, f);
    var m1 := Filled(m, p, f);
    ClearIndexed(m1, f.sell);
    ClearPositions(m1, f.sell);
    ClearPositions(Clear(m1, f.sell), f.buy);
  }

  lemma SamePositionsBooked(m: Market, m1: Market, m2: Market, p: nat, fills: seq<Fill>)
    requires Sizes(m) && p < |m.buy| && Booked(m, m1, p, fills) && SamePositions(m1, m2)
    ensures Booked(m, m2, p, fills)
  {
    forall t | 0 <= t < |m.traders|
      ensures Credited(m.traders[t], m2.traders[t], p, Gains(fills, t), Profits(fills, t))
    {
      assert Credited(m.traders[t], m1.traders[t], p, Gains(fills, t), Profits(fills, t));
    }
  }

  lemma TradeBooked(m: Market, p: nat, f: Fill)
    requires Indexed(m) && p < |m.buy| && f.sell in m.store && f.buy in m.store && f.sell != f.buy
    ensures f.sell.owner < |m.traders| && f.buy.owner < |m.traders|
    ensures SamePositions(Settle(m, p, f), Trade(m, p, f))
    ensures Booked(m, Trade(m, p, f), p, [f])
  {
    assert Placed(m, f.sell, m.store[f.sell]) && Placed(m, f.buy, m.store[f.buy]);
    TradePositions(m, p, f);
    SettleBooked(m, p, f);
    SamePositionsBooked(m, Settle(m, p, f), Trade(m, p, f), p, [f]);
  }

  lemma BookedThen(m: Market, m1: Market, m2: Market, p: nat, f: Fill, fills: seq<Fill>)
    requires Sizes(m) && Sizes(m1) && p < |m.buy| == |m1.buy|
    requires Booked(m, m1, p, [f]) && Booked(m1, m2, p, fills)
    ensures Booked(m, m2, p, [f] + fills)
  {
    assert ([f] + fills)[1..] == fills && [f][1..] == [];
    assert Fees([f][1..]) == 0;
    forall t | 0 <= t < |m.traders|
      ensures Credited(m.traders[t], m2.traders[t], p, Gains([f] + fills, t), Profits([f] + fills, t))
    {
      assert Credited(m.traders[t], m1.traders[t], p, Gains([f], t), Profits([f], t));
      assert Credited(m1.traders[t], m2.traders[t], p, Gains(fills, t), Profits(fills, t));
      assert Gains([f][1..], t) == 0 && Profits([f][1..], t) == 0;
    }
  }

  /** After matching, every trader's quantity and cash are what the trades made of them. */
  lemma {:induction false} MatchBooked(m: Market, p: nat, added: Id)
    requires Trades(m, p)
    ensures Booked(m, Match(m, p, added).0, p, Match(m, p, added).1)
    decreases m.store.Keys
  {
    if Crossed(m, p) {
      var f := NextFill(m, p, added);
      TradeSound(m, p, added);
      TradeBooked(m, p, f);
      MatchBooked(Trade(m, p, f), p, added);
      var r := Match(Trade(m, p, f), p, added);
      BookedThen(m, Trade(m, p, f), r.0, p, f, r.1);
    }
  }

  // ---------- conservation ----------

  function Sum(s: seq<int>): int {
    if s == [] then 0 else s[0] + Sum(s[1..])
  }

  lemma {:induction false} SumUpdate(s: seq<int>, i: nat, v: int)
    requires i < |s|
    ensures Sum(s[i := v]) == Sum(s) - s[i] + v
  {
    if i == 0 {
      assert s[i := v][1..] == s[1..];
    } else {
      assert s[i := v][1..] == s[1..][i - 1 := v];
      SumUpdate(s[1..], i - 1, v);
    }
  }

  /** All traders' quantities of one product. */
  function Holdings(traders: seq<Trader>, p: nat): seq<int> {
    seq(|traders|, t requires 0 <= t < |traders| =>
      if p < |traders[t].quantities| then traders[t].quantities[p] else 0)
  }

  /** All traders' cash, over all products. */
  function Purses(traders: seq<Trader>): seq<int> {
    seq(|traders|, t requires 0 <= t < |traders| => Sum(traders[t].cash))
  }

  /** Per product the quantities sum to zero, and so do all the cash and the fees. */
  ghost predicate Balanced(m: Market) {
    && (forall p :: 0 <= p < |m.buy| ==> Sum(Holdings(m.traders, p)) == 0)
    && Sum(Purses(m.traders)) + m.fees == 0
  }

  lemma MoveSums(traders: seq<Trader>, t: nat, p: nat, gain: int, profit: int, q: nat)
    requires t < |traders| && p < |traders[t].quantities| == |traders[t].cash|
    ensures var traders' := traders[t := Move(traders[t], p, gain, profit)];
      && Sum(Holdings(traders', q)) == Sum(Holdings(traders, q)) + (if q == p then gain else 0)
      && Sum(Purses(traders')) == Sum(Purses(traders)) + profit
  {
    var t' := Move(traders[t], p, gain, profit);
    var traders' := traders[t := t'];
    var held := if q < |traders[t].quantities| then t'.quantities[q] else 0;
    assert Holdings(traders', q) == Holdings(traders, q)[t := held];
    SumUpdate(Holdings(traders, q), t, held);
    assert Purses(traders') == Purses(traders)[t := Sum(t'.cash)];
    SumUpdate(Purses(traders), t, Sum(t'.cash));
    SumUpdate(traders[t].cash, p, t'.cash[p]);
  }

  lemma SettleBalanced(m: Market, p: nat, f: Fill)
    requires Sizes(m) && p < |m.buy| && f.sell.owner < |m.traders| && f.buy.owner < |m.traders|
    requires Balanced(m)
    ensures Balanced(Settle(m, p, f))
  {
    var value := f.quantity * f.price;
    var paid := Paid(m, p, f);
    var m' := Settle(m, p, f);
    forall q: nat
      ensures Sum(Holdings(m'.traders, q)) == Sum(Holdings(m.traders, q))
      ensures Sum(Purses(m'.traders)) == Sum(Purses(m.traders)) - f.sellFee - f.buyFee
    {
      MoveSums(m.traders, f.sell.owner, p, -f.quantity, value - f.sellFee, q);
      MoveSums(paid, f.buy.owner, p, f.quantity, -(value + f.buyFee), q);
    }
    assert Sum(Purses(m'.traders)) + m'.fees == 0 by {
      assert Sum(Holdings(m'.traders, 0)) == Sum(Holdings(m.traders, 0));
    }
  }

  ghost predicate SameHoldings(m: Market, m': Market) {
    && |m'.traders| == |m.traders| && m'.fees == m.fees
    && forall t :: 0 <= t < |m.traders| ==>
      m'.traders[t].quantities == m.traders[t].quantities && m'.traders[t].cash == m.traders[t].cash
  }

  /** Only quantities, cash and fees matter to the balance. */
  lemma SameBalance(m: Market, m': Market)
    requires SameHoldings(m, m') && Balanced(m) && |m'.buy| == |m.buy|
    ensures Balanced(m')
  {
    assert Purses(m'.traders) == Purses(m.traders);
    forall p: nat ensures Holdings(m'.traders, p) == Holdings(m.traders, p) { }
  }

  /** Matching moves quantity and cash around, and into the fees; it makes none. */
  lemma {:induction false} MatchBalanced(m: Market, p: nat, added: Id)
    requires Trades(m, p) && Balanced(m)
    ensures Balanced(Match(m, p, added).0)
    decreases m.store.Keys
  {
    if Crossed(m, p) {
      var f := NextFill(m, p, added);
      TradeSound(m, p, added);
      TradeBooked(m, p, f);
      SettleBalanced(m, p, f);
      SameBalance(Settle(m, p, f), Trade(m, p, f));
      MatchBalanced(Trade(m, p, f), p, added);
    }
  }

  // ---------- bounds ----------

  /** The fee on a value is a hundredth of it, rounded half up; on a negative value it is
      rounded towards zero. */
  lemma FeeRounds(value: int)
    ensures value >= 0 ==> Fee(value) == (value + 50) / 100 && -50 < 100 * Fee(value) - value <= 50
    ensures value < 0 ==> Fee(value) <= 0 && -100 < value - 100 * Fee(value) <= 0
  {
  }

  /** The largest quantity, and the largest price, a message can carry. */
  const FIELD_MAX := 999_999
  const VALUE_MAX := 999_998_000_001
  const FEE_MAX := 9_999_980_000
  const SPEND_MAX := 1_009_997_980_001

  ghost predicate Limited(store: Store) {
    forall id :: id in store ==> 0 < store[id].quantity <= FIELD_MAX && 0 < store[id].price <= FIELD_MAX
  }

  predicate SmallFill(f: Fill) {
    var fee := f.sellFee + f.buyFee;
    && 0 < f.quantity <= FIELD_MAX && 0 < f.price <= FIELD_MAX && f.quantity * f.price <= VALUE_MAX
    && 0 <= f.sellFee && 0 <= f.buyFee && fee == Fee(f.quantity * f.price) <= FEE_MAX
  }

  /** What k trades can have moved. */
  ghost predicate Within(m: Market, k: nat) {
    && 0 <= m.fees <= FEE_MAX * k
    && (forall t, p :: 0 <= t < |m.traders| && 0 <= p < |m.traders[t].cash| ==>
        -SPEND_MAX * k <= m.traders[t].cash[p] <= SPEND_MAX * k)
    && (forall t, p :: 0 <= t < |m.traders| && 0 <= p < |m.traders[t].quantities| ==>
        -FIELD_MAX * k <= m.traders[t].quantities[p] <= FIELD_MAX * k)
  }

  lemma ValueBound(quantity: int, price: int)
    requires 0 < quantity <= FIELD_MAX && 0 < price <= FIELD_MAX
    ensures 0 < quantity * price <= VALUE_MAX
  {
    assert quantity * price <= FIELD_MAX * price <= FIELD_MAX * FIELD_MAX;
  }

  lemma NextFillSmall(m: Market, p: nat, added: Id)
    requires Trades(m, p) && Crossed(m, p) && Limited(m.store)
    ensures SmallFill(NextFill(m, p, added))
  {
    HeadsStored(m, p);
    var f := NextFill(m, p, added);
    ValueBound(f.quantity, f.price);
    FeeRounds(f.quantity * f.price);
  }

  lemma BookedWithin(m: Market, m': Market, p: nat, f: Fill, k: nat)
    requires Sizes(m) && p < |m.buy| && Booked(m, m', p, [f]) && SmallFill(f) && Within(m, k)
    ensures Within(m', k + 1)
  {
    assert [f][1..] == [] && Fees([f][1..]) == 0;
    forall t, q | 0 <= t < |m'.traders| && 0 <= q < |m'.traders[t].cash|
      ensures -SPEND_MAX * (k + 1) <= m'.traders[t].cash[q] <= SPEND_MAX * (k + 1)
    {
      assert Credited(m.traders[t], m'.traders[t], p, Gains([f], t), Profits([f], t));
      assert Profits([f][1..], t) == 0;
      assert -SPEND_MAX <= Profit(f, t) <= SPEND_MAX;
    }
    forall t, q | 0 <= t < |m'.traders| && 0 <= q < |m'.traders[t].quantities|
      ensures -FIELD_MAX * (k + 1) <= m'.traders[t].quantities[q] <= FIELD_MAX * (k + 1)
    {
      assert Credited(m.traders[t], m'.traders[t], p, Gains([f], t), Profits([f], t));
      assert Gains([f][1..], t) == 0;
      assert -FIELD_MAX <= Gain(f, t) <= FIELD_MAX;
    }
  }

  lemma LimitedLater(m: Market, p: nat, f: Fill)
    requires Trades(m, p) && Crossed(m, p) && Limited(m.store)
    requires f.sell in m.store && f.buy in m.store && f.sell != f.buy
    requires f.quantity == Min(m.store[f.sell].quantity, m.store[f.buy].quantity)
    ensures Limited(Trade(m, p, f).store)
  {
    TradeStore(m, p, f);
    AfterLessens(m.store, f.sell, f.buy);
    forall id | id in Trade(m, p, f).store
      ensures Trade(m, p, f).store[id].price == m.store[id].price
    {
      AfterAt(m.store, f.sell, f.buy, f.quantity, id);
    }
  }

  lemma FewerKeys(a: Store, b: Store)
    requires b.Keys < a.Keys
    ensures |b| < |a|
  {
    assert |b| == |b.Keys| && |a| == |a.Keys| && a.Keys == b.Keys + (a.Keys - b.Keys);
  }

  predicate AllSmall(fills: seq<Fill>) {
    forall i :: 0 <= i < |fills| ==> SmallFill(fills[i])
  }

  /** The fees of n trades are a hundredth of the traded value, to half a unit a trade. */
  lemma {:induction false} FeesNear(fills: seq<Fill>)
    requires AllSmall(fills)
    ensures -50 * |fills| <= 100 * Fees(fills) - Values(fills) <= 50 * |fills|
  {
    if fills != [] {
      FeeRounds(fills[0].quantity * fills[0].price);
      FeesNear(fills[1..]);
    }
  }

  lemma AllSmallCons(f: Fill, fills: seq<Fill>)
    requires SmallFill(f) && AllSmall(fills)
    ensures AllSmall([f] + fills)
  {
  }

  /** There are no more trades than orders that left. */
  lemma {:induction false} MatchCounts(m: Market, p: nat, added: Id)
    requires Trades(m, p)
    ensures |Match(m, p, added).1| + |Match(m, p, added).0.store| <= |m.store|
    decreases m.store.Keys
  {
    if Crossed(m, p) {
      TradeSound(m, p, added);
      var m1 := Trade(m, p, NextFill(m, p, added));
      FewerKeys(m.store, m1.store);
      MatchCounts(m1, p, added);
    }
  }

  /** Every trade is within the field limits. */
  lemma {:induction false} MatchSmall(m: Market, p: nat, added: Id)
    requires Trades(m, p) && Limited(m.store)
    ensures AllSmall(Match(m, p, added).1) && Limited(Match(m, p, added).0.store)
    decreases m.store.Keys
  {
    if Crossed(m, p) {
      var f := NextFill(m, p, added);
      TradeSound(m, p, added);
      NextFillSmall(m, p, added);
      var m1 := Trade(m, p, f);
      LimitedLater(m, p, f);
      MatchSmall(m1, p, added);
      AllSmallCons(f, Match(m1, p, added).1);
    }
  }

  /** What was within the reach of k trades is within the reach of k + n after n more. */
  lemma {:induction false} MatchWithin(m: Market, p: nat, added: Id, k: nat)
    requires Trades(m, p) && Limited(m.store) && Within(m, k)
    ensures Within(Match(m, p, added).0, k + |Match(m, p, added).1|)
    decreases m.store.Keys
  {
    if Crossed(m, p) {
      var f := NextFill(m, p, added);
      TradeSound(m, p, added);
      NextFillSmall(m, p, added);
      TradeBooked(m, p, f);
      var m1 := Trade(m, p, f);
      BookedWithin(m, m1, p, f, k);
      LimitedLater(m, p, f);
      MatchWithin(m1, p, added, k + 1);
    }
  }
}
