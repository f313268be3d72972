/** A run after which a printed total is no longer the total. */
module FullBooks {
  import opened OrderedSeq
  import opened Orders
  import opened Markets
  import opened Trading
  import opened Matching
  import opened Accounts
  import opened Commands
  import opened Runs
  import opened Overflows
  import opened OrderBook

  ghost predicate Stocked(m: Market, n: nat) {
    && |m.buy| == 1 && |m.traders| == 1 && m.traders[0].next == n && |m.store| == n
    && forall id :: id in m.store ==>
      m.store[id] == Order(Sell, 0, FIELD_MAX, FIELD_MAX, m.store[id].global_id)
  }

  /** One more order to sell, like those there are. */
  function Stock(n: nat): Command {
    New(Sell, n, "GPU", FIELD_MAX, FIELD_MAX)
  }

  lemma StockMore(m: Market, n: nat)
    requires Stocked(m, n) && Steady(m) && Serves(m, NAMES, 0)
    ensures Stocked(Process(m, NAMES, 0, Stock(n)).market, n + 1)
  {
    var c := Stock(n);
    assert NAMES[0] == "GPU";
    BookStored(m, Buy, 0);
    SomeMember(m.buy[0]);
    assert Entered(m, NAMES, 0, c) == Order(Sell, 0, FIELD_MAX, FIELD_MAX, m.issued);
    RestsWhole(m, NAMES, 0, c);
    EnteredNew(m, NAMES, 0, c);
    OneMore(m.store, Id(0, n), Entered(m, NAMES, 0, c));
    CommandAccounts(m, NAMES, 0, c);
    ProcessSteady(m, NAMES, 0, c);
  }

  lemma NothingStocked(n: nat) returns (r: Ending)
    requires n == 1
    ensures Reached(n, r, 0) && Stocked(r.0, 0)
  {
    OpeningSteady(n, n);
    r := (Opening(n, n), []);
    assert RunOf(n, NAMES, []) == r;
    ReachedBy(n, [], 0);
  }

  lemma OneMoreStocked(was: Ending, n: nat) returns (r: Ending)
    requires Reached(1, was, n) && Stocked(was.0, n) && n <= FIELD_MAX
    ensures Reached(1, r, n + 1) && Stocked(r.0, n + 1)
  {
    OneMoreReached(1, was, n, 0, Stock(n));
    StockMore(was.0, n);
    var p := Process(was.0, NAMES, 0, Stock(n));
    r := (p.market, was.1 + p.fills);
  }

  lemma {:induction false} StockedRun(n: nat) returns (r: Ending)
    requires n <= FIELD_MAX + 1
    ensures Reached(1, r, n) && Stocked(r.0, n)
  {
    if n == 0 {
      r := NothingStocked(1);
    } else {
      var was := StockedRun(n - 1);
      r := OneMoreStocked(was, n - 1);
    }
  }

  lemma ReachedSteady(traders: nat, r: Ending, n: nat)
    requires Reached(traders, r, n)
    ensures Steady(r.0)
  {
    var cs := RunReaching(traders, r, n);
  }

  /** A list of all keys, each once, is as long as the map. */
  lemma {:induction false} AllKeys(tree: seq<Id>, keys: set<Id>)
    requires forall i, j :: 0 <= i < j < |tree| ==> tree[i] != tree[j]
    requires forall id :: id in tree <==> id in keys
    ensures |tree| == |keys|
  {
    if tree == [] {
      assert keys == {};
    } else {
      var n := |tree| - 1;
      assert tree[n] in tree && tree == tree[..n] + [tree[n]];
      AllKeys(tree[..n], keys - {tree[n]});
    }
  }

  lemma StockedShown(m: Market, n: nat)
    requires Stocked(m, n) && Steady(m)
    ensures |m.buy| == |m.sell|
    ensures FullQuotes(Shown(m, Sell, 0)) && |Shown(m, Sell, 0)| == n
  {
    BookStored(m, Sell, 0);
    PriorityDistinct(m.store, Sell, m.sell[0]);
    AllKeys(m.sell[0], m.store.Keys);
    assert |m.store| == |m.store.Keys|;
  }

  /** By one-line messages of one trader a price can come to rest at which up to 2147
      orders are printed with their exact total, and more are not. */
  lemma LinesBear(n: nat) returns (cs: Input)
    requires 0 < n <= FIELD_MAX + 1
    ensures ShortRun(1, cs) && |cs| <= n
    ensures var m := RunOf(1, NAMES, cs).0;
      && |m.buy| == |m.sell| == 1
      && (Printout(Shown(m, Sell, 0)) == Lines(Shown(m, Sell, 0)) <==> n <= 2147)
  {
    var r := StockedRun(n);
    cs := RunReaching(1, r, n);
    ReachedSteady(1, r, n);
    StockedShown(r.0, n);
    FullLine(Shown(r.0, Sell, 0));
  }
}
