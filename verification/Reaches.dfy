/** How far positions can go in a number of commands: a trader's quantity of a product is
    within what the trader's own commands, and what the others' commands, have entered. */
module Reaches {
  import opened OrderedSeq
  import opened Orders
  import opened Markets
  import opened Trading
  import opened Matching
  import opened Accounts
  import opened Commands
  import opened Runs
  import opened Settlements
  import opened Overflows

  // ---------- what is on offer ----------

  /** An order's quantity, if its owner is the trader, or is not, as asked. */
  function Weight(id: Id, o: Order, t: nat, own: bool): int {
    if (id.owner == t) == own then o.quantity else 0
  }

  /** What the trader, or everybody else, has in live orders. */
  ghost function Offered(store: Store, t: nat, own: bool): int
    decreases |store|
  {
    if store == map[] then 0
    else
      var id :| id in store;
      LessOne(store, id);
      Weight(id, store[id], t, own) + Offered(store - {id}, t, own)
  }

  lemma {:induction false} OfferedLess(store: Store, id: Id, t: nat, own: bool)
    requires id in store
    ensures Offered(store, t, own) == Weight(id, store[id], t, own) + Offered(store - {id}, t, own)
    decreases |store|
  {
    var x :| x in store && Offered(store, t, own) == Weight(x, store[x], t, own) + Offered(store - {x}, t, own);
    if x != id {
      LessOne(store, x);
      LessOne(store, id);
      OfferedLess(store - {x}, id, t, own);
      OfferedLess(store - {id}, x, t, own);
      assert store - {x} - {id} == store - {id} - {x};
    }
  }

  lemma OfferedWith(store: Store, id: Id, o: Order, t: nat, own: bool)
    ensures Offered(store[id := o], t, own) == Weight(id, o, t, own) + Offered(store - {id}, t, own)
  {
    OfferedLess(store[id := o], id, t, own);
    assert store[id := o] - {id} == store - {id};
  }

  lemma {:induction false} OfferedNat(store: Store, t: nat, own: bool)
    requires Positive(store)
    ensures Offered(store, t, own) >= 0
    decreases |store|
  {
    if id :| id in store {
      LessOne(store, id);
      OfferedLess(store, id, t, own);
      OfferedNat(store - {id}, t, own);
    }
  }

  lemma OfferedReduced(store: Store, id: Id, quantity: int, t: nat, own: bool)
    requires id in store && 0 <= quantity <= store[id].quantity
    ensures Offered(Reduce(store, id, quantity), t, own) ==
      Offered(store, t, own) - if (id.owner == t) == own then quantity else 0
  {
    OfferedWith(store, id, store[id].(quantity := Narrow(store[id].quantity - quantity)), t, own);
    OfferedLess(store, id, t, own);
  }

  lemma OfferedKept(store: Store, id: Id, t: nat, own: bool)
    requires id in store && store[id].quantity >= 0
    ensures Offered(Kept(store, id), t, own) == Offered(store, t, own)
  {
    OfferedLess(store, id, t, own);
  }

  /** A trade takes its quantity off both orders. */
  lemma OfferedAfter(store: Store, s: Id, b: Id, t: nat, own: bool)
    requires s in store && b in store && s != b && Positive(store)
    ensures var q := Min(store[s].quantity, store[b].quantity);
      Offered(After(store, s, b, q), t, own) == Offered(store, t, own)
        - (if (s.owner == t) == own then q else 0) - (if (b.owner == t) == own then q else 0)
  {
    var q := Min(store[s].quantity, store[b].quantity);
    var store1 := Reduce(store, s, q);
    var store2 := Reduce(store1, b, q);
    OfferedReduced(store, s, q, t, own);
    OfferedReduced(store1, b, q, t, own);
    OfferedKept(store2, s, t, own);
    OfferedKept(Kept(store2, s), b, t, own);
  }

  // ---------- positions and offers ----------

  function Abs(x: int): int {
    if x < 0 then -x else x
  }

  /** No quantity of the trader, with what is on offer, is more than k commands can enter. */
  ghost predicate Reaches(m: Market, t: nat, own: bool, k: nat) {
    t < |m.traders| ==> forall p :: 0 <= p < |m.traders[t].quantities| ==>
      Abs(m.traders[t].quantities[p]) + Offered(m.store, t, own) <= FIELD_MAX * k
  }

  lemma BookedReaches(m: Market, m1: Market, p: nat, f: Fill, t: nat, own: bool, k: nat)
    requires Sizes(m) && p < |m.buy| && Positive(m.store) && Reaches(m, t, own, k)
    requires f.sell in m.store && f.buy in m.store && f.sell != f.buy
    requires f.quantity == Min(m.store[f.sell].quantity, m.store[f.buy].quantity)
    requires Booked(m, m1, p, [f]) && m1.store == After(m.store, f.sell, f.buy, f.quantity)
    ensures Reaches(m1, t, own, k)
  {
    OfferedAfter(m.store, f.sell, f.buy, t, own);
    if t < |m1.traders| {
      assert Credited(m.traders[t], m1.traders[t], p, Gains([f], t), Profits([f], t));
      assert [f][1..] == [] && Gains([f][1..], t) == 0;
      forall q | 0 <= q < |m1.traders[t].quantities|
        ensures Abs(m1.traders[t].quantities[q]) + Offered(m1.store, t, own) <= FIELD_MAX * k
      {
        assert Abs(m.traders[t].quantities[q]) + Offered(m.store, t, own) <= FIELD_MAX * k;
      }
    }
  }

  lemma TradeReaches(m: Market, p: nat, added: Id, t: nat, own: bool, k: nat)
    requires Trades(m, p) && Crossed(m, p) && Positive(m.store) && Reaches(m, t, own, k)
    ensures var f := NextFill(m, p, added);
      && f.sell in m.store && f.buy in m.store && f.sell != f.buy
      && Reaches(Trade(m, p, f), t, own, k)
  {
    var f := NextFill(m, p, added);
    TradeSound(m, p, added);
    TradeStore(m, p, f);
    TradeBooked(m, p, f);
    BookedReaches(m, Trade(m, p, f), p, f, t, own, k);
  }

  lemma {:induction false} MatchReaches(m: Market, p: nat, added: Id, t: nat, own: bool, k: nat)
    requires Trades(m, p) && Positive(m.store) && Reaches(m, t, own, k)
    ensures Reaches(Match(m, p, added).0, t, own, k)
    decreases m.store.Keys
  {
    if Crossed(m, p) {
      TradeSound(m, p, added);
      TradeReaches(m, p, added, t, own, k);
      MatchReaches(Trade(m, p, NextFill(m, p, added)), p, added, t, own, k);
    }
  }

  // ---------- commands ----------

  /** Whether a command counts: it is the trader's own, or is not, as asked. */
  function Share(from: nat, t: nat, own: bool): nat {
    if (from == t) == own then 1 else 0
  }

  function CommandsOf(cs: Input, t: nat, own: bool): nat {
    if cs == [] then 0
    else
      var n := |cs| - 1;
      CommandsOf(cs[..n], t, own) + Share(cs[n].0, t, own)
  }

  lemma {:induction false} AllCommands(cs: Input, t: nat)
    ensures CommandsOf(cs, t, true) + CommandsOf(cs, t, false) == |cs|
  {
    if cs != [] { AllCommands(cs[..|cs| - 1], t); }
  }

  lemma NewcomerReaches(m: Market, m': Market, id: Id, o: Order, t: nat, own: bool, k: nat)
    requires Positive(m.store) && Newcomer(m, m', id, o) && SameHoldings(m, m') && Reaches(m, t, own, k)
    requires 0 < o.quantity <= FIELD_MAX
    ensures Reaches(m', t, own, k + Share(id.owner, t, own))
  {
    OfferedWith(m.store, id, o, t, own);
    if id in m.store {
      OfferedLess(m.store, id, t, own);
    } else {
      assert m.store - {id} == m.store;
    }
  }

  lemma EnteredReaches(m: Market, names: seq<string>, u: nat, c: Command, t: nat, own: bool, k: nat)
    requires Serves(m, names, u) && Uncrossed(m) && Limited(m.store) && Legal(c) && Reaches(m, t, own, k)
    requires !Refused(m, names, u, c) && !c.Cancel?
    ensures Reaches(Process(m, names, u, c).market, t, own, k + Share(u, t, own))
  {
    var o, id, m' := Entered(m, names, u, c), Id(u, c.number), Presented(m, names, u, c);
    PresentedReady(m, names, u, c);
    PresentedHoldings(m, names, u, c);
    NewcomerReaches(m, m', id, o, t, own, k);
    NewcomerPositive(m, m', id, o);
    MatchReaches(m', o.product, id, t, own, k + Share(u, t, own));
  }

  lemma CancelReaches(m: Market, names: seq<string>, u: nat, c: Command, t: nat, own: bool, k: nat)
    requires Serves(m, names, u) && Positive(m.store) && Reaches(m, t, own, k)
    requires !Refused(m, names, u, c) && c.Cancel?
    ensures Reaches(Process(m, names, u, c).market, t, own, k)
  {
    CancelTakes(m, names, u, c);
    OfferedLess(m.store, Id(u, c.number), t, own);
  }

  lemma Further(m: Market, t: nat, own: bool, k: nat, n: nat)
    requires Reaches(m, t, own, k) && k <= n
    ensures Reaches(m, t, own, n)
  {
    assert FIELD_MAX * k <= FIELD_MAX * n;
  }

  /** A command of a one-line message adds at most its own quantity. */
  lemma ProcessReaches(m: Market, names: seq<string>, u: nat, c: Command, t: nat, own: bool, k: nat)
    requires Serves(m, names, u) && Uncrossed(m) && Limited(m.store) && Legal(c) && Reaches(m, t, own, k)
    ensures Reaches(Process(m, names, u, c).market, t, own, k + Share(u, t, own))
  {
    RefusedOrNot(m, names, u, c);
    if Refused(m, names, u, c) {
      Further(m, t, own, k, k + Share(u, t, own));
    } else if c.Cancel? {
      CancelReaches(m, names, u, c, t, own, k);
      Further(Process(m, names, u, c).market, t, own, k, k + Share(u, t, own));
    } else {
      EnteredReaches(m, names, u, c, t, own, k);
    }
  }

  // ---------- runs ----------

  lemma RunOfLast(traders: nat, names: seq<string>, cs: Input) returns (m1: Market)
    requires ShortRun(traders, cs) && cs != []
    ensures var n := |cs| - 1;
      && ShortRun(traders, cs[..n]) && m1 == RunOf(traders, names, cs[..n]).0
      && Serves(m1, names, cs[n].0) && Steady(m1) && Limited(m1.store)
      && RunOf(traders, names, cs).0 == Process(m1, names, cs[n].0, cs[n].1).market
  {
    var n := |cs| - 1;
    assert cs == cs[..n] + [cs[n]];
    OneMoreOf(traders, names, cs[..n], cs[n].0, cs[n].1);
    EveryLegalRun(|names|, traders, names, cs[..n]);
    m1 := RunOf(traders, names, cs[..n]).0;
  }

  ghost predicate RunReaches(traders: nat, names: seq<string>, cs: Input, t: nat, own: bool) {
    ShortRun(traders, cs) ==> Reaches(RunOf(traders, names, cs).0, t, own, CommandsOf(cs, t, own))
  }

  lemma OneMoreReaches(traders: nat, names: seq<string>, cs: Input, t: nat, own: bool)
    requires ShortRun(traders, cs) && cs != [] && RunReaches(traders, names, cs[..|cs| - 1], t, own)
    ensures RunReaches(traders, names, cs, t, own)
  {
    var n := |cs| - 1;
    var m1 := RunOfLast(traders, names, cs);
    ProcessReaches(m1, names, cs[n].0, cs[n].1, t, own, CommandsOf(cs[..n], t, own));
  }

  lemma OpeningReaches(traders: nat, names: seq<string>, t: nat, own: bool)
    ensures RunReaches(traders, names, [], t, own)
  {
  }

  /** After a run of one-line messages, no quantity of a trader is more than the trader's
      own commands, nor more than the others' commands, can have entered. */
  lemma {:induction false} EveryRunReaches(traders: nat, names: seq<string>, cs: Input, t: nat, own: bool)
    requires ShortRun(traders, cs)
    ensures RunReaches(traders, names, cs, t, own)
    decreases |cs|
  {
    if cs == [] {
      OpeningReaches(traders, names, t, own);
    } else {
      EveryRunReaches(traders, names, cs[..|cs| - 1], t, own);
      OneMoreReaches(traders, names, cs, t, own);
    }
  }

  // ---------- how many commands ints bear ----------

  lemma ReachFits(m: Market, t: nat, p: nat, k: nat, n: nat)
    requires t < |m.traders| && p < |m.traders[t].quantities| && Positive(m.store)
    requires Reaches(m, t, true, k) && Reaches(m, t, false, n)
    ensures Abs(m.traders[t].quantities[p]) <= FIELD_MAX * k && Abs(m.traders[t].quantities[p]) <= FIELD_MAX * n
  {
    OfferedNat(m.store, t, true);
    OfferedNat(m.store, t, false);
  }

  lemma {:induction false} NoOthers(cs: Input)
    requires forall i :: 0 <= i < |cs| ==> cs[i].0 == 0
    ensures CommandsOf(cs, 0, false) == 0
  {
    if cs != [] { NoOthers(cs[..|cs| - 1]); }
  }

  /** Of the trader's own commands or of the others' there are at most 2147. */
  lemma FewCommands(traders: nat, cs: Input, t: nat)
    requires ShortRun(traders, cs) && t < traders && (traders == 1 || |cs| <= 4295)
    ensures CommandsOf(cs, t, true) <= 2147 || CommandsOf(cs, t, false) <= 2147
  {
    AllCommands(cs, t);
    if traders == 1 { NoOthers(cs); }
  }

  ghost predicate FitAfter(traders: nat, names: seq<string>, cs: Input) {
    ShortRun(traders, cs) ==> QuantitiesFit(RunOf(traders, names, cs).0)
  }

  lemma RunReachFits(traders: nat, names: seq<string>, cs: Input, t: nat, p: nat)
    requires ShortRun(traders, cs) && t < traders && p < |names| && (traders == 1 || |cs| <= 4295)
    ensures var m := RunOf(traders, names, cs).0;
      p < |m.traders[t].quantities| && FitsInt(m.traders[t].quantities[p])
  {
    var m := RunOf(traders, names, cs).0;
    EveryLegalRun(|names|, traders, names, cs);
    EveryRunReaches(traders, names, cs, t, true);
    EveryRunReaches(traders, names, cs, t, false);
    ReachFits(m, t, p, CommandsOf(cs, t, true), CommandsOf(cs, t, false));
    FewCommands(traders, cs, t);
  }

  lemma FewCommandsFit(traders: nat, names: seq<string>, cs: Input)
    requires traders <= 1 || |cs| <= 4295
    ensures FitAfter(traders, names, cs)
  {
    if ShortRun(traders, cs) {
      var m := RunOf(traders, names, cs).0;
      forall t, p | 0 <= t < |m.traders| && 0 <= p < |m.traders[t].quantities|
        ensures FitsInt(m.traders[t].quantities[p])
      {
        RunReachFits(traders, names, cs, t, p);
      }
    }
  }

  /** Trader 0 sells to trader 1, 2148 times, in 2148 commands of each. */
  lemma SoldOut(traders: nat) returns (r: Ending)
    requires traders >= 2
    ensures Reached(traders, r, 4296)
    ensures |r.0.traders| == traders && |r.0.traders[0].quantities| == 1 && r.0.traders[0].quantities[0] == -2148 * MOST
  {
    var r0 := OneSeller(traders);
    var r1 := Rounds(traders, r0, 1, Id(0, 0), Sell, 1, 2147);
    r := FirstHalf(traders, r1, 4295, Id(0, 0), Sell, 1);
    var f := TakeOf(Sell, Id(0, 0), 1, r1.0.traders[1].next);
    assert [f][1..] == [] && Gains([f][1..], 0) == 0;
  }

  /** Quantities fit ints after every run of at most n one-line messages. */
  ghost predicate CommandsAlwaysFit(traders: nat, n: nat) {
    forall names, cs :: |cs| <= n ==> FitAfter(traders, names, cs)
  }

  /** They do exactly if n is at most 4295, or there is no second trader. */
  lemma CommandsBear(traders: nat, n: nat)
    ensures CommandsAlwaysFit(traders, n) <==> traders <= 1 || n <= 4295
  {
    if traders <= 1 || n <= 4295 {
      forall names, cs | |cs| <= n ensures FitAfter(traders, names, cs) { FewCommandsFit(traders, names, cs); }
    } else {
      var r := SoldOut(traders);
      var cs := RunReaching(traders, r, 4296);
      assert !FitsInt(-2148 * MOST) && !FitAfter(traders, NAMES, cs);
    }
  }
}
