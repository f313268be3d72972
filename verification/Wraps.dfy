/** Rounds that take more off an order's quantity than its int can hold, and from which
    quantities entered on there are none. */
module Wraps {
  import opened OrderedSeq
  import opened Orders
  import opened Markets
  import opened Trading
  import opened Matching
  import opened Accounts
  import opened Commands
  import opened Runs
  import opened Settlements
  import opened Overflows
  import opened MessageLines

  /** The traded quantity comes off both orders without wrap-around. */
  ghost predicate Exact(s: Settlement) {
    var store, f := s.before.store, s.fill;
    && f.sell in store && Narrow(store[f.sell].quantity - f.quantity) == store[f.sell].quantity - f.quantity
    && f.buy in store && Narrow(store[f.buy].quantity - f.quantity) == store[f.buy].quantity - f.quantity
  }

  ghost predicate AllExact(ss: seq<Settlement>) {
    forall i :: 0 <= i < |ss| ==> Exact(ss[i])
  }

  ghost predicate NoneNegative(store: Store) {
    forall id :: id in store ==> store[id].quantity >= 0
  }

  /** What a trade between two quantities that are not negative leaves is not either. */
  lemma AfterNotNegative(store: Store, s: Id, b: Id)
    requires s in store && b in store && s != b && NoneNegative(store)
    ensures NoneNegative(After(store, s, b, Min(store[s].quantity, store[b].quantity)))
  {
    var q := Min(store[s].quantity, store[b].quantity);
    forall id | id in After(store, s, b, q) ensures After(store, s, b, q)[id].quantity >= 0 {
      AfterAt(store, s, b, q, id);
    }
  }

  lemma HereExact(m: Market, p: nat, added: Id)
    requires Trades(m, p) && Crossed(m, p) && NoneNegative(m.store)
    ensures Exact(Here(m, p, added))
  {
    var f := NextFill(m, p, added);
    HeadsStored(m, p);
    TakenExactly(m.store[f.sell].quantity, m.store[f.buy].quantity);
  }

  lemma ExactCons(s: Settlement, ss: seq<Settlement>)
    requires Exact(s) && AllExact(ss)
    ensures AllExact([s] + ss)
  {
  }

  lemma {:induction false} MatchExact(m: Market, p: nat, added: Id)
    requires Trades(m, p) && NoneNegative(m.store)
    ensures AllExact(OfMatch(m, p, added)) && NoneNegative(Match(m, p, added).0.store)
    decreases m.store.Keys
  {
    if Crossed(m, p) {
      var f := NextFill(m, p, added);
      HeadsStored(m, p);
      TradeSound(m, p, added);
      TradeStore(m, p, f);
      AfterNotNegative(m.store, f.sell, f.buy);
      HereExact(m, p, added);
      MatchExact(Trade(m, p, f), p, added);
      ExactCons(Here(m, p, added), OfMatch(Trade(m, p, f), p, added));
    }
  }

  lemma ExactParts(a: seq<Settlement>, b: seq<Settlement>)
    ensures AllExact(a + b) <==> AllExact(a) && AllExact(b)
  {
    forall i | AllExact(a + b) && 0 <= i < |b| ensures Exact(b[i]) { assert Exact((a + b)[|a| + i]); }
    forall i | AllExact(a + b) && 0 <= i < |a| ensures Exact(a[i]) { assert Exact((a + b)[i]); }
  }

  /** A command's quantity, if it has one, is at least this. */
  predicate Enters(c: Command, least: int) {
    !c.Cancel? ==> c.quantity >= least
  }

  lemma NewcomerNotNegative(m: Market, m': Market, id: Id, o: Order)
    requires NoneNegative(m.store) && Newcomer(m, m', id, o) && o.quantity >= 0
    ensures NoneNegative(m'.store)
  {
  }

  lemma EnteredExact(m: Market, names: seq<string>, t: nat, c: Command)
    requires Serves(m, names, t) && Uncrossed(m) && NoneNegative(m.store) && Enters(c, 0)
    requires !Refused(m, names, t, c) && !c.Cancel?
    ensures AllExact(OfCommand(m, names, t, c)) && NoneNegative(Process(m, names, t, c).market.store)
  {
    var o, m' := Entered(m, names, t, c), Presented(m, names, t, c);
    PresentedReady(m, names, t, c);
    NewcomerNotNegative(m, m', Id(t, c.number), o);
    MatchExact(m', o.product, Id(t, c.number));
  }

  lemma CommandExact(m: Market, names: seq<string>, t: nat, c: Command)
    requires Serves(m, names, t) && Uncrossed(m) && NoneNegative(m.store) && Enters(c, 0)
    ensures AllExact(OfCommand(m, names, t, c)) && NoneNegative(Process(m, names, t, c).market.store)
  {
    RefusedOrNot(m, names, t, c);
    if !Refused(m, names, t, c) {
      if c.Cancel? { CancelTakes(m, names, t, c); } else { EnteredExact(m, names, t, c); }
    }
  }

  predicate AllEnter(cs: Input, least: int) {
    forall i :: 0 <= i < |cs| ==> Enters(cs[i].1, least)
  }

  lemma OneMoreExact(m: Market, before: seq<Settlement>, names: seq<string>, t: nat, c: Command)
    requires Serves(m, names, t) && Uncrossed(m) && NoneNegative(m.store) && Enters(c, 0) && AllExact(before)
    ensures AllExact(before + OfCommand(m, names, t, c)) && NoneNegative(Process(m, names, t, c).market.store)
  {
    CommandExact(m, names, t, c);
    ExactParts(before, OfCommand(m, names, t, c));
  }

  ghost predicate StaysExact(m: Market, names: seq<string>, cs: Input)
    requires Steady(m) && Runnable(m, names, cs)
  {
    AllExact(OfRun(m, names, cs)) && NoneNegative(Run(m, names, cs).0.store)
  }

  lemma NothingRun(m: Market, names: seq<string>, cs: Input)
    requires Steady(m) && Runnable(m, names, cs) && NoneNegative(m.store) && cs == []
    ensures StaysExact(m, names, cs)
  {
  }

  lemma OneMoreRun(m: Market, names: seq<string>, cs: Input)
    requires Steady(m) && Runnable(m, names, cs) && cs != [] && AllEnter(cs, 0)
    requires Runnable(m, names, cs[..|cs| - 1]) && StaysExact(m, names, cs[..|cs| - 1])
    ensures StaysExact(m, names, cs)
  {
    var n := |cs| - 1;
    var m1, before := OfRunLast(m, names, cs);
    OneMoreExact(m1, before, names, cs[n].0, cs[n].1);
  }

  lemma {:induction false} RunExact(m: Market, names: seq<string>, cs: Input)
    requires Steady(m) && Runnable(m, names, cs) && NoneNegative(m.store) && AllEnter(cs, 0)
    ensures StaysExact(m, names, cs)
    decreases |cs|
  {
    if cs == [] {
      NothingRun(m, names, cs);
    } else {
      RunExact(m, names, cs[..|cs| - 1]);
      OneMoreRun(m, names, cs);
    }
  }

  // ---------- a round that wraps ----------

  /** One product and one trader, whose order to sell as much as an int holds is all there is. */
  ghost predicate Loaded(m: Market) {
    && Steady(m) && Serves(m, ["GPU"], 0) && m.traders[0].next == 1
    && m.store == map[Id(0, 0) := Order(Sell, 0, INT_LIMIT - 1, 1, 0)]
  }

  function Load(): Command {
    New(Sell, 0, "GPU", INT_LIMIT - 1, 1)
  }

  function Unload(quantity: Int): Command {
    New(Buy, 1, "GPU", quantity, 1)
  }

  lemma LoadFirst(m: Market)
    requires Bare(m) && Steady(m)
    ensures Serves(m, ["GPU"], 0) && Loaded(Process(m, ["GPU"], 0, Load()).market)
  {
    FirstRests(m, Sell, INT_LIMIT - 1, 1);
    FirstEntered(m, Sell, INT_LIMIT - 1, 1);
    CommandAccounts(m, ["GPU"], 0, Load());
    ProcessSteady(m, ["GPU"], 0, Load());
  }

  lemma LoadedResting(m: Market)
    requires Loaded(m)
    ensures Resting(m, Sell, 0) == [Quote(Id(0, 0), INT_LIMIT - 1, 1)]
  {
    BookStored(m, Sell, 0);
    assert BookOk(m.store, Sell, 0, m.sell[0]);
    OnlyOne(m.sell[0], Id(0, 0));
  }

  lemma UnloadSweep(quantity: Int)
    requires quantity < 0
    ensures Sweep(Buy, 1, quantity, [Quote(Id(0, 0), INT_LIMIT - 1, 1)]) == ([Quote(Id(0, 0), quantity, 1)], [], None)
  {
    var rest := [Quote(Id(0, 0), INT_LIMIT - 1, 1)];
    assert Remain(INT_LIMIT - 1, quantity) == None;
    assert Lessen(rest, quantity) == [];
  }

  /** An order to buy less than nothing meets it: both are gone, though the difference
      of their quantities is more than there was. */
  lemma UnloadEmpties(m: Market, quantity: Int)
    requires Loaded(m) && quantity < 0
    ensures !Refused(m, ["GPU"], 0, Unload(quantity))
    ensures var r := Process(m, ["GPU"], 0, Unload(quantity));
      r.market.store == map[] && r.fills == [FillOf(Buy, Id(0, 1), Quote(Id(0, 0), quantity, 1))]
  {
    var c := Unload(quantity);
    assert ["GPU"][0] == "GPU";
    LoadedResting(m);
    UnloadSweep(quantity);
    CommandSweeps(m, ["GPU"], 0, c);
    CommandAccounts(m, ["GPU"], 0, c);
    var r := Process(m, ["GPU"], 0, c);
    assert Steady(r.market) by { ProcessSteady(m, ["GPU"], 0, c); }
    assert r.fills == [FillOf(Buy, Id(0, 1), Quote(Id(0, 0), quantity, 1))];
    assert BookOk(r.market.store, Sell, 0, r.market.sell[0]);
    forall id ensures id !in r.market.store {
      if id in r.market.store { assert id == Id(0, 0) && InBook(r.market.store, Sell, 0, id); }
    }
  }

  lemma UnloadWraps(m: Market, quantity: Int)
    requires Loaded(m) && quantity < 0
    ensures !AllExact(OfCommand(m, ["GPU"], 0, Unload(quantity)))
  {
    var c, id := Unload(quantity), Id(0, 1);
    UnloadEmpties(m, quantity);
    PresentedReady(m, ["GPU"], 0, c);
    var m', ss := Presented(m, ["GPU"], 0, c), OfCommand(m, ["GPU"], 0, c);
    assert |ss| == 1 && ss[0] == Here(m', 0, id);
    assert m'.store[Id(0, 0)].quantity == INT_LIMIT - 1;
    assert !Exact(ss[0]);
  }

  // ---------- which runs wrap ----------

  predicate FromOpening(traders: nat, cs: Input) {
    |cs| <= INT_LIMIT && forall i :: 0 <= i < |cs| ==> cs[i].0 < traders
  }

  ghost function SettlementsOf(traders: nat, names: seq<string>, cs: Input): seq<Settlement>
    requires FromOpening(traders, cs)
  {
    OpeningSteady(|names|, traders);
    OfRun(Opening(|names|, traders), names, cs)
  }

  ghost predicate ExactRun(traders: nat, names: seq<string>, cs: Input) {
    FromOpening(traders, cs) ==> AllExact(SettlementsOf(traders, names, cs))
  }

  /** Quantities are held as they are in every round of every run into which no quantity
      below this is entered. */
  ghost predicate AlwaysExact(least: int) {
    forall traders, names, cs :: AllEnter(cs, least) ==> ExactRun(traders, names, cs)
  }

  lemma RunLoads(m: Market, cs: Input)
    requires Bare(m) && Steady(m) && |cs| == 1 && cs[0] == (0, Load())
    ensures Runnable(m, ["GPU"], cs) && Loaded(Run(m, ["GPU"], cs).0)
  {
    assert cs[..0] == [];
    var m1, before := OfRunLast(m, ["GPU"], cs);
    LoadFirst(m);
  }

  lemma LastWraps(m: Market, before: seq<Settlement>, quantity: Int)
    requires Loaded(m) && quantity < 0
    ensures !AllExact(before + OfCommand(m, ["GPU"], 0, Unload(quantity)))
  {
    UnloadWraps(m, quantity);
    ExactParts(before, OfCommand(m, ["GPU"], 0, Unload(quantity)));
  }

  lemma RunWraps(m: Market, names: seq<string>, cs: Input, quantity: Int)
    requires Bare(m) && Steady(m) && Runnable(m, names, cs) && quantity < 0
    requires names == ["GPU"] && |cs| == 2 && cs[0] == (0, Load()) && cs[1] == (0, Unload(quantity))
    ensures !AllExact(OfRun(m, names, cs))
  {
    var m1, before := OfRunLast(m, names, cs);
    RunLoads(m, cs[..1]);
    LastWraps(m1, before, quantity);
  }

  lemma OpeningWraps(traders: nat, names: seq<string>, cs: Input, quantity: Int)
    requires traders == 1 && names == ["GPU"] && quantity < 0
    requires |cs| == 2 && cs[0] == (0, Load()) && cs[1] == (0, Unload(quantity))
    ensures !ExactRun(traders, names, cs)
  {
    BareOpening(|names|, traders);
    RunWraps(Opening(|names|, traders), names, cs, quantity);
  }

  lemma NegativeWraps(quantity: Int) returns (traders: nat, names: seq<string>, cs: Input)
    requires quantity < 0
    ensures !ExactRun(traders, names, cs) && AllEnter(cs, quantity)
  {
    traders, names, cs := 1, ["GPU"], [(0, Load()), (0, Unload(quantity))];
    OpeningWraps(traders, names, cs, quantity);
  }

  lemma NoneNegativeExact(traders: nat, names: seq<string>, cs: Input)
    requires AllEnter(cs, 0)
    ensures ExactRun(traders, names, cs)
  {
    OpeningSteady(|names|, traders);
    if FromOpening(traders, cs) { RunExact(Opening(|names|, traders), names, cs); }
  }

  lemma Entering(cs: Input, least: int, less: int)
    requires AllEnter(cs, least) && less <= least
    ensures AllEnter(cs, less)
  {
  }

  /** They are exactly if the quantities entered are not negative. */
  lemma ExactFrom(least: int)
    ensures AlwaysExact(least) <==> least >= 0
  {
    if least >= 0 {
      forall traders, names, cs | AllEnter(cs, least) ensures ExactRun(traders, names, cs) {
        Entering(cs, least, 0);
        NoneNegativeExact(traders, names, cs);
      }
    } else {
      var traders, names, cs := NegativeWraps(-1);
      Entering(cs, -1, least);
    }
  }
}
