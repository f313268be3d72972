/** Every settlement of a run, with the state it happens in, and which of them fit the
    fields they are kept in: ints of 32 bits for quantities, longs of 64 for cash. */
module Settlements {
  import opened OrderedSeq
  import opened Orders
  import opened Markets
  import opened Trading
  import opened Matching
  import opened Accounts
  import opened Commands
  import opened Runs

  datatype Settlement = Settlement(before: Market, product: nat, fill: Fill)

  predicate Sized(s: Settlement) {
    && Sizes(s.before) && s.product < |s.before.buy|
    && s.fill.sell.owner < |s.before.traders| && s.fill.buy.owner < |s.before.traders|
  }

  /** Both new quantities fit an int, the buyer's after the seller's has changed. */
  predicate IntsFit(s: Settlement)
    requires Sized(s)
  {
    var m, p, f := s.before, s.product, s.fill;
    && FitsInt(m.traders[f.sell.owner].quantities[p] - f.quantity)
    && FitsInt(Paid(m, p, f)[f.buy.owner].quantities[p] + f.quantity)
  }

  /** The value, both amounts, both new cash balances and the new fees fit a long. */
  predicate LongsFit(s: Settlement)
    requires Sized(s)
  {
    var m, p, f := s.before, s.product, s.fill;
    var value := f.quantity * f.price;
    && FitsLong(value) && FitsLong(value - f.sellFee) && FitsLong(value + f.buyFee)
    && FitsLong(m.traders[f.sell.owner].cash[p] + (value - f.sellFee))
    && FitsLong(Paid(m, p, f)[f.buy.owner].cash[p] - (value + f.buyFee))
    && FitsLong(f.sellFee + f.buyFee) && FitsLong(m.fees + (f.sellFee + f.buyFee))
  }

  /** The settlements of fills, in their order. */
  ghost predicate Lists(ss: seq<Settlement>, fills: seq<Fill>) {
    |ss| == |fills| && forall i :: 0 <= i < |ss| ==> Sized(ss[i]) && ss[i].fill == fills[i]
  }

  lemma ListsJoin(a: seq<Settlement>, fa: seq<Fill>, b: seq<Settlement>, fb: seq<Fill>)
    requires Lists(a, fa) && Lists(b, fb)
    ensures Lists(a + b, fa + fb)
  {
  }

  /** Each settlement is a small one in a state within the reach of those before it. */
  ghost predicate Reach(ss: seq<Settlement>, k: nat) {
    forall i :: 0 <= i < |ss| ==> Within(ss[i].before, k + i) && SmallFill(ss[i].fill)
  }

  ghost function Here(m: Market, p: nat, added: Id): (s: Settlement)
    requires Trades(m, p) && Crossed(m, p)
    ensures Sized(s) && s.before == m && s.fill == NextFill(m, p, added)
  {
    HeadsStored(m, p);
    Settlement(m, p, NextFill(m, p, added))
  }

  /** The settlements of a matching loop, round by round. */
  ghost function OfMatch(m: Market, p: nat, added: Id): (ss: seq<Settlement>)
    requires Trades(m, p)
    ensures Lists(ss, Match(m, p, added).1)
    decreases m.store.Keys
  {
    if !Crossed(m, p) then []
    else
      TradeSound(m, p, added);
      var m1 := Trade(m, p, NextFill(m, p, added));
      var ss := OfMatch(m1, p, added);
      ListsJoin([Here(m, p, added)], [NextFill(m, p, added)], ss, Match(m1, p, added).1);
      [Here(m, p, added)] + ss
  }

  lemma {:induction false} MatchReach(m: Market, p: nat, added: Id, k: nat)
    requires Trades(m, p) && Tame(m, k)
    ensures Reach(OfMatch(m, p, added), k)
    decreases m.store.Keys
  {
    if Crossed(m, p) {
      var f := NextFill(m, p, added);
      TradeSound(m, p, added);
      NextFillSmall(m, p, added);
      TradeBooked(m, p, f);
      BookedWithin(m, Trade(m, p, f), p, f, k);
      LimitedLater(m, p, f);
      MatchReach(Trade(m, p, f), p, added, k + 1);
      ReachCons(Here(m, p, added), OfMatch(Trade(m, p, f), p, added), k);
    }
  }

  lemma ReachCons(s: Settlement, ss: seq<Settlement>, k: nat)
    requires Within(s.before, k) && SmallFill(s.fill) && Reach(ss, k + 1)
    ensures Reach([s] + ss, k)
  {
    var all := [s] + ss;
    forall i | 0 <= i < |all| ensures Within(all[i].before, k + i) && SmallFill(all[i].fill) {
      if i > 0 {
        assert all[i] == ss[i - 1] && Within(ss[i - 1].before, k + 1 + (i - 1));
        assert k + 1 + (i - 1) == k + i;
      }
    }
  }

  lemma ReachJoin(a: seq<Settlement>, b: seq<Settlement>, k: nat)
    requires Reach(a, k) && Reach(b, k + |a|)
    ensures Reach(a + b, k)
  {
    var all := a + b;
    forall i | 0 <= i < |all| ensures Within(all[i].before, k + i) && SmallFill(all[i].fill) {
      if i >= |a| {
        assert all[i] == b[i - |a|] && Within(b[i - |a|].before, k + |a| + (i - |a|));
        assert k + |a| + (i - |a|) == k + i;
      }
    }
  }

  /** The settlements one command causes. */
  ghost function OfCommand(m: Market, names: seq<string>, t: nat, c: Command): (ss: seq<Settlement>)
    requires Serves(m, names, t) && Uncrossed(m)
    ensures Lists(ss, Process(m, names, t, c).fills)
  {
    RefusedOrNot(m, names, t, c);
    if Refused(m, names, t, c) then []
    else if c.Cancel? then
      CancelTakes(m, names, t, c);
      []
    else
      PresentedReady(m, names, t, c);
      OfMatch(Presented(m, names, t, c), Entered(m, names, t, c).product, Id(t, c.number))
  }

  lemma CommandReach(m: Market, names: seq<string>, t: nat, c: Command, k: nat)
    requires Serves(m, names, t) && Uncrossed(m) && Tame(m, k) && Legal(c)
    ensures Reach(OfCommand(m, names, t, c), k)
  {
    if !Refused(m, names, t, c) && !c.Cancel? {
      EnteredTame(m, names, t, c, k);
      MatchReach(Presented(m, names, t, c), Entered(m, names, t, c).product, Id(t, c.number), k);
    }
  }

  /** From a tame state, a list of settlements stays within reach. */
  ghost predicate ReachFrom(m: Market, ss: seq<Settlement>) {
    forall k: nat :: Tame(m, k) ==> Reach(ss, k)
  }

  lemma CommandReachAll(m: Market, names: seq<string>, t: nat, c: Command)
    requires Serves(m, names, t) && Uncrossed(m) && Legal(c)
    ensures ReachFrom(m, OfCommand(m, names, t, c))
  {
    forall k: nat | Tame(m, k) ensures Reach(OfCommand(m, names, t, c), k) { CommandReach(m, names, t, c, k); }
  }

  /** Settlements of the state that earlier ones lead to. */
  lemma ReachFromJoin(m: Market, m1: Market, before: seq<Settlement>, after: seq<Settlement>)
    requires ReachFrom(m, before) && ReachFrom(m1, after)
    requires forall k: nat :: Tame(m, k) ==> Tame(m1, k + |before|)
    ensures ReachFrom(m, before + after)
  {
    forall k: nat | Tame(m, k) ensures Reach(before + after, k) {
      ReachJoin(before, after, k);
    }
  }

  lemma CommandReachFrom(m: Market, m1: Market, fills: seq<Fill>, before: seq<Settlement>,
                         names: seq<string>, t: nat, c: Command)
    requires ReachFrom(m, before) && RanTame(m, m1, fills) && |before| == |fills|
    requires Serves(m1, names, t) && Uncrossed(m1) && Legal(c)
    ensures ReachFrom(m, before + OfCommand(m1, names, t, c))
  {
    CommandReachAll(m1, names, t, c);
    ReachFromJoin(m, m1, before, OfCommand(m1, names, t, c));
  }

  lemma OneMoreCommand(m: Market, m1: Market, fills: seq<Fill>, before: seq<Settlement>,
                       names: seq<string>, t: nat, c: Command, legal: bool)
    requires Lists(before, fills) && Serves(m1, names, t) && Uncrossed(m1)
    requires legal ==> ReachFrom(m, before) && RanTame(m, m1, fills) && Legal(c)
    ensures Lists(before + OfCommand(m1, names, t, c), fills + Process(m1, names, t, c).fills)
    ensures legal ==> ReachFrom(m, before + OfCommand(m1, names, t, c))
  {
    ListsJoin(before, fills, OfCommand(m1, names, t, c), Process(m1, names, t, c).fills);
    if legal { CommandReachFrom(m, m1, fills, before, names, t, c); }
  }

  lemma OfRunMore(m: Market, names: seq<string>, cs: Input, before: seq<Settlement>)
    requires Steady(m) && Runnable(m, names, cs) && cs != []
    requires var early := cs[..|cs| - 1];
      && Runnable(m, names, early) && Lists(before, Run(m, names, early).1)
      && (AllLegal(early) && SomeTame(m) ==> ReachFrom(m, before))
    ensures var n := |cs| - 1;
      var m1 := Run(m, names, cs[..n]).0;
      && Serves(m1, names, cs[n].0) && Uncrossed(m1)
      && var ss := before + OfCommand(m1, names, cs[n].0, cs[n].1);
        Lists(ss, Run(m, names, cs).1) && (AllLegal(cs) && SomeTame(m) ==> ReachFrom(m, ss))
  {
    var n := |cs| - 1;
    var r := Run(m, names, cs[..n]);
    OneMoreCommand(m, r.0, r.1, before, names, cs[n].0, cs[n].1, AllLegal(cs) && SomeTame(m));
  }

  /** All the settlements of a run, in order. */
  ghost function OfRun(m: Market, names: seq<string>, cs: Input): (ss: seq<Settlement>)
    requires Steady(m) && Runnable(m, names, cs)
    ensures Lists(ss, Run(m, names, cs).1)
    ensures AllLegal(cs) && SomeTame(m) ==> ReachFrom(m, ss)
    decreases |cs|
  {
    if cs == [] then []
    else
      var n := |cs| - 1;
      var before := OfRun(m, names, cs[..n]);
      OfRunMore(m, names, cs, before);
      before + OfCommand(Run(m, names, cs[..n]).0, names, cs[n].0, cs[n].1)
  }

  /** The settlements of a run are those before its last command and those of it. */
  lemma OfRunLast(m: Market, names: seq<string>, cs: Input) returns (m1: Market, before: seq<Settlement>)
    requires Steady(m) && Runnable(m, names, cs) && cs != []
    ensures var n := |cs| - 1;
      && Runnable(m, names, cs[..n]) && m1 == Run(m, names, cs[..n]).0 && before == OfRun(m, names, cs[..n])
      && Serves(m1, names, cs[n].0) && Uncrossed(m1)
      && Run(m, names, cs).0 == Process(m1, names, cs[n].0, cs[n].1).market
      && OfRun(m, names, cs) == before + OfCommand(m1, names, cs[n].0, cs[n].1)
  {
    var n := |cs| - 1;
    m1, before := Run(m, names, cs[..n]).0, OfRun(m, names, cs[..n]);
  }

  // ---------- what fits ----------

  /** A settlement after at most 2146 others keeps quantities within an int. */
  lemma IntsReached(s: Settlement, k: nat)
    requires Sized(s) && Within(s.before, k) && SmallFill(s.fill) && k < 2147
    ensures IntsFit(s)
  {
  }

  /** A settlement after fewer than nine million others keeps everything within a long. */
  lemma LongsReached(s: Settlement, k: nat)
    requires Sized(s) && Within(s.before, k) && SmallFill(s.fill) && k < 9_000_000
    ensures LongsFit(s)
  {
    var m, p, f := s.before, s.product, s.fill;
    var c, v := m.traders[f.sell.owner].cash[p], f.quantity * f.price;
    assert -SPEND_MAX * 9_000_000 <= -SPEND_MAX * k <= c <= SPEND_MAX * k <= SPEND_MAX * 9_000_000;
  }

  /** Of every run of legal commands, the first 2147 settlements fit ints and the first
      nine million fit longs. */
  lemma SettlementsFit(products: nat, traders: nat, names: seq<string>, cs: Input)
    requires |names| == products && |cs| <= INT_LIMIT && AllLegal(cs)
    requires forall i :: 0 <= i < |cs| ==> cs[i].0 < traders
    ensures Steady(Opening(products, traders))
    ensures var ss := OfRun(Opening(products, traders), names, cs);
      && Lists(ss, Run(Opening(products, traders), names, cs).1)
      && (forall i :: 0 <= i < |ss| && i < 2147 ==> IntsFit(ss[i]))
      && (forall i :: 0 <= i < |ss| && i < 9_000_000 ==> LongsFit(ss[i]))
  {
    OpeningSteady(products, traders);
    var ss := OfRun(Opening(products, traders), names, cs);
    assert Reach(ss, 0);
    forall i | 0 <= i < |ss| && i < 2147 ensures IntsFit(ss[i]) { IntsReached(ss[i], i); }
    forall i | 0 <= i < |ss| && i < 9_000_000 ensures LongsFit(ss[i]) { LongsReached(ss[i], i); }
  }

  lemma {:induction false} SumBound(s: seq<int>, max: nat)
    requires forall i :: 0 <= i < |s| ==> s[i] <= max
    ensures Sum(s) <= max * |s|
  {
    if s != [] { SumBound(s[1..], max); }
  }

  /** With at most nine traders and numbers of six digits there are at most nine million
      trades, so everything fits longs, in every settlement and after every run. */
  lemma NineTradersFit(traders: nat, names: seq<string>, cs: Input)
    requires ShortRun(traders, cs) && traders <= 9
    ensures Steady(Opening(|names|, traders))
    ensures var ss := OfRun(Opening(|names|, traders), names, cs);
      forall i :: 0 <= i < |ss| ==> Sized(ss[i]) && LongsFit(ss[i])
    ensures CashFits(RunOf(traders, names, cs).0)
  {
    NineMillionTrades(traders, names, cs);
    SettlementsFit(|names|, traders, names, cs);
    WithinCash(RunOf(traders, names, cs).0, |RunOf(traders, names, cs).1|);
  }

  lemma NineMillionTrades(traders: nat, names: seq<string>, cs: Input)
    requires ShortRun(traders, cs) && traders <= 9
    ensures var r := RunOf(traders, names, cs);
      |r.1| <= 9_000_000 && Within(r.0, |r.1|)
  {
    OpeningSteady(|names|, traders);
    EveryLegalRun(|names|, traders, names, cs);
    SumBound(Nexts(RunOf(traders, names, cs).0.traders), FIELD_MAX + 1);
  }

  lemma WithinCash(m: Market, k: nat)
    requires Within(m, k) && k <= 9_000_000
    ensures CashFits(m)
  {
    forall t, p | 0 <= t < |m.traders| && 0 <= p < |m.traders[t].cash| ensures FitsLong(m.traders[t].cash[p]) {
      assert -SPEND_MAX * 9_000_000 <= -SPEND_MAX * k <= m.traders[t].cash[p] <= SPEND_MAX * k <= SPEND_MAX * 9_000_000;
    }
  }

  /** After at most 2147 trades all quantities fit ints. */
  lemma FewTradesFit(traders: nat, names: seq<string>, cs: Input)
    requires ShortRun(traders, cs) && |RunOf(traders, names, cs).1| <= 2147
    ensures QuantitiesFit(RunOf(traders, names, cs).0)
  {
    EveryLegalRun(|names|, traders, names, cs);
  }
}
