/** Runs that leave the fields: how many trades ints bear, and how many traders longs. */
module Overflows {
  import opened OrderedSeq
  import opened Orders
  import opened Markets
  import opened Trading
  import opened Matching
  import opened Accounts
  import opened Commands
  import opened Runs
  import opened Settlements

  /** The state a run ends in, and its trades. */
  type Ending = (Market, seq<Fill>)

  const NAMES := ["GPU"]
  const MOST := FIELD_MAX - 1

  /** One live order, of product p and the largest price. */
  ghost predicate Alone(m: Market, p: nat, r: Id, side: Side, quantity: Int) {
    && Steady(m) && |m.buy| == 1 && r in m.store && m.store.Keys == {r}
    && m.store[r] == Order(side, p, quantity, FIELD_MAX, m.store[r].global_id)
  }

  /** One product, and one live order, of the largest quantity and price. */
  ghost predicate Stands(m: Market, r: Id, side: Side) {
    |m.buy| == 1 && forall p: nat :: p < |m.buy| ==> Alone(m, p, r, side, FIELD_MAX)
  }

  lemma OnlyOne(tree: seq<Id>, r: Id)
    requires forall i, j :: 0 <= i < j < |tree| ==> tree[i] != tree[j]
    requires forall x :: x in tree <==> x == r
    ensures tree == [r]
  {
    assert r in tree;
    assert |tree| == 1 by {
      assert tree[0] in tree && tree[|tree| - 1] in tree;
    }
  }

  lemma SomeMember<T>(tree: seq<T>)
    ensures tree == [] || exists x :: x in tree
  {
    if tree != [] { assert tree[0] in tree; }
  }

  lemma AloneResting(m: Market, r: Id, side: Side, quantity: Int)
    requires Alone(m, 0, r, side, quantity)
    ensures Resting(m, side, 0) == [Quote(r, quantity, FIELD_MAX)] && Book(m, Opposite(side), 0) == []
  {
    BookStored(m, side, 0);
    BookStored(m, Opposite(side), 0);
    assert BookOk(m.store, Buy, 0, m.buy[0]) && BookOk(m.store, Sell, 0, m.sell[0]);
    OnlyOne(Book(m, side, 0), r);
    SomeMember(Book(m, Opposite(side), 0));
  }

  lemma AloneAgain(m: Market, r: Id, side: Side, quantity: Int, before: Order)
    requires Steady(m) && |m.buy| == 1 && |Resting(m, side, 0)| == 1
    requires Resting(m, side, 0)[0] == Quote(r, quantity, FIELD_MAX)
    requires forall x :: x in m.store ==> x == r
    requires before.side == side && before.product == 0 && before.price == FIELD_MAX
    requires r in m.store ==> Requantified(before, m.store[r])
    ensures Alone(m, 0, r, side, quantity)
  {
    BookStored(m, side, 0);
    assert Book(m, side, 0)[0] == r;
  }

  /** What a newcomer trades with the lone order, up to its number. */
  function TakeOf(side: Side, r: Id, t: nat, number: int): Fill {
    FillOf(Opposite(side), Id(t, number), Quote(r, MOST, FIELD_MAX))
  }

  function Hit(m: Market, side: Side, t: nat): Command
    requires t < |m.traders|
  {
    New(Opposite(side), m.traders[t].next, "GPU", MOST, FIELD_MAX)
  }

  lemma HitSweep(side: Side, r: Id)
    ensures Sweep(Opposite(side), FIELD_MAX, MOST, [Quote(r, FIELD_MAX, FIELD_MAX)]) ==
      ([Quote(r, MOST, FIELD_MAX)], [Quote(r, 1, FIELD_MAX)], None)
  {
    var rest := [Quote(r, FIELD_MAX, FIELD_MAX)];
    assert rest[1..] == [] && Lessen(rest, MOST) == [Quote(r, 1, FIELD_MAX)];
  }

  /** What the sweep makes of a newcomer's order. */
  lemma HitSwept(m: Market, r: Id, side: Side, t: nat)
    requires Alone(m, 0, r, side, FIELD_MAX) && Serves(m, NAMES, t)
    ensures !Refused(m, NAMES, t, Hit(m, side, t))
    ensures Entered(m, NAMES, t, Hit(m, side, t)) == Order(Opposite(side), 0, MOST, FIELD_MAX, m.issued)
    ensures var p, id := Process(m, NAMES, t, Hit(m, side, t)), Id(t, m.traders[t].next);
      && p.fills == [TakeOf(side, r, t, id.local)] && id !in p.market.store
      && |p.market.sell| == |p.market.buy| == 1 && Resting(p.market, side, 0) == [Quote(r, 1, FIELD_MAX)]
  {
    var c, id := Hit(m, side, t), Id(t, m.traders[t].next);
    assert NAMES[0] == "GPU";
    AloneResting(m, r, side, FIELD_MAX);
    CommandSweeps(m, NAMES, t, c);
    HitSweep(side, r);
    assert Process(m, NAMES, t, c).fills == [TakeOf(side, r, t, id.local)];
  }

  /** Only the lone order is left, by what the newcomer's order has met. */
  lemma HitOthers(m: Market, r: Id, side: Side, t: nat)
    requires Alone(m, 0, r, side, FIELD_MAX) && Serves(m, NAMES, t)
    ensures !Refused(m, NAMES, t, Hit(m, side, t))
    ensures var p := Process(m, NAMES, t, Hit(m, side, t));
      && Settled(m, p.market, 0, p.fills) && Numbered(m, p.market, t, Hit(m, side, t))
      && p.market.issued == m.issued + 1
      && forall x :: x in p.market.store && x != Id(t, m.traders[t].next) ==>
        x == r && Requantified(m.store[r], p.market.store[r])
  {
    assert NAMES[0] == "GPU";
    CommandAccounts(m, NAMES, t, Hit(m, side, t));
    assert Id(t, m.traders[t].next) != r by { EnteredNew(m, NAMES, t, Hit(m, side, t)); }
  }

  /** A newcomer takes all but one unit of the lone order. */
  lemma HitLeavesOne(m: Market, r: Id, side: Side, t: nat)
    requires Alone(m, 0, r, side, FIELD_MAX) && Serves(m, NAMES, t)
    ensures var p := Process(m, NAMES, t, Hit(m, side, t));
      && Alone(p.market, 0, r, side, 1) && p.fills == [TakeOf(side, r, t, m.traders[t].next)]
      && Settled(m, p.market, 0, p.fills) && Numbered(m, p.market, t, Hit(m, side, t))
      && p.market.issued == m.issued + 1
  {
    HitSwept(m, r, side, t);
    HitOthers(m, r, side, t);
    assert Steady(Process(m, NAMES, t, Hit(m, side, t)).market) by { ProcessSteady(m, NAMES, t, Hit(m, side, t)); }
    AloneAgain(Process(m, NAMES, t, Hit(m, side, t)).market, r, side, 1, m.store[r]);
  }

  /** The owner makes the lone order what it was. */
  lemma RenewFills(m: Market, r: Id, side: Side)
    requires Alone(m, 0, r, side, 1) && Serves(m, NAMES, r.owner)
    ensures var c := Change(r.local, FIELD_MAX, FIELD_MAX);
      var p := Process(m, NAMES, r.owner, c);
      && Alone(p.market, 0, r, side, FIELD_MAX) && p.fills == []
      && Settled(m, p.market, 0, []) && Numbered(m, p.market, r.owner, c) && p.market.issued == m.issued + 1
  {
    var c := Change(r.local, FIELD_MAX, FIELD_MAX);
    AloneResting(m, r, side, 1);
    RestsWhole(m, NAMES, r.owner, c);
    CommandAccounts(m, NAMES, r.owner, c);
    ProcessSteady(m, NAMES, r.owner, c);
  }

  /** An order put into an empty market stands alone. */
  lemma RestAlone(m: Market, side: Side, t: nat)
    requires Steady(m) && |m.buy| == 1 && m.store == map[] && Serves(m, NAMES, t)
    ensures var c := New(side, m.traders[t].next, "GPU", FIELD_MAX, FIELD_MAX);
      var p := Process(m, NAMES, t, c);
      && Alone(p.market, 0, Id(t, m.traders[t].next), side, FIELD_MAX) && p.fills == []
      && Settled(m, p.market, 0, []) && Numbered(m, p.market, t, c) && p.market.issued == m.issued + 1
  {
    var c := New(side, m.traders[t].next, "GPU", FIELD_MAX, FIELD_MAX);
    assert NAMES[0] == "GPU";
    NobodyRests(m, Opposite(side));
    RestsWhole(m, NAMES, t, c);
    assert Steady(Process(m, NAMES, t, c).market) by { ProcessSteady(m, NAMES, t, c); }
    CommandAccounts(m, NAMES, t, c);
  }

  lemma NobodyRests(m: Market, side: Side)
    requires Steady(m) && |m.buy| == 1 && m.store == map[]
    ensures |m.sell| == 1 && Book(m, side, 0) == []
  {
    BookStored(m, side, 0);
    SomeMember(Book(m, side, 0));
  }

  /** The owner takes the lone order away. */
  lemma CancelEmpties(m: Market, r: Id, side: Side)
    requires Alone(m, 0, r, side, FIELD_MAX) && Serves(m, NAMES, r.owner)
    ensures var p := Process(m, NAMES, r.owner, Cancel(r.local));
      && Steady(p.market) && |p.market.buy| == 1 && p.market.store == map[] && p.fills == []
      && SamePositions(m, p.market) && p.market.issued == m.issued
  {
    CancelTakes(m, NAMES, r.owner, Cancel(r.local));
    ProcessSteady(m, NAMES, r.owner, Cancel(r.local));
  }

  // ---------- rounds ----------

  /** Every trader's quantity and cash moved n times as one trade moves them. */
  ghost predicate Moved(m: Market, m': Market, f: Fill, n: nat) {
    && |m'.traders| == |m.traders|
    && forall x :: 0 <= x < |m.traders| ==>
      && |m.traders[x].quantities| == |m'.traders[x].quantities| == 1
      && |m.traders[x].cash| == |m'.traders[x].cash| == 1
      && m'.traders[x].quantities[0] == m.traders[x].quantities[0] + n * Gain(f, x)
      && m'.traders[x].cash[0] == m.traders[x].cash[0] + n * Profit(f, x)
  }

  /** Only one trader's numbers went on, by n. */
  ghost predicate WentOn(m: Market, m': Market, t: nat, n: nat) {
    && |m'.traders| == |m.traders|
    && forall x :: 0 <= x < |m.traders| ==> m'.traders[x].next == m.traders[x].next + if x == t then n else 0
  }

  lemma MovedOnce(m: Market, m1: Market, m2: Market, side: Side, r: Id, t: nat, number: int)
    requires Sizes(m) && |m.buy| == 1
    requires Settled(m, m1, 0, [TakeOf(side, r, t, number)]) && Settled(m1, m2, 0, [])
    ensures Moved(m, m2, TakeOf(side, r, t, 0), 1)
  {
    var f := TakeOf(side, r, t, number);
    assert [f][1..] == [];
    forall x | 0 <= x < |m.traders|
      ensures Gains([f], x) == Gain(TakeOf(side, r, t, 0), x) && Profits([f], x) == Profit(TakeOf(side, r, t, 0), x)
    {
      assert Gains([f][1..], x) == 0 && Profits([f][1..], x) == 0;
    }
  }

  /** What n rounds of one newcomer come to. */
  ghost predicate Went(was: Ending, now: Ending, r: Id, side: Side, t: nat, n: nat) {
    && |now.1| == |was.1| + n
    && Moved(was.0, now.0, TakeOf(side, r, t, 0), n) && WentOn(was.0, now.0, t, n)
  }

  lemma WentNowhere(was: Ending, r: Id, side: Side, t: nat)
    requires Stands(was.0, r, side)
    ensures Went(was, was, r, side, t, 0)
  {
    assert Alone(was.0, 0, r, side, FIELD_MAX);
    assert Sizes(was.0);
  }

  lemma WentThen(was: Ending, then1: Ending, now: Ending,
                 r: Id, side: Side, t: nat, n: nat)
    requires Went(was, then1, r, side, t, n) && Went(then1, now, r, side, t, 1)
    ensures Went(was, now, r, side, t, n + 1)
  {
    var f := TakeOf(side, r, t, 0);
    forall x | 0 <= x < |was.0.traders|
      ensures (n + 1) * Gain(f, x) == n * Gain(f, x) + Gain(f, x)
      ensures (n + 1) * Profit(f, x) == n * Profit(f, x) + Profit(f, x)
    {
    }
  }

  /** Some run of at most n commands ends like this. */
  ghost predicate EndsIn(traders: nat, r: Ending, n: nat) {
    exists cs :: ShortRun(traders, cs) && |cs| <= n && RunOf(traders, NAMES, cs) == r
  }

  /** A run of n commands, or of a few more, ends like this. */
  ghost predicate Reached(traders: nat, r: Ending, n: nat) {
    forall k: nat :: k >= n ==> EndsIn(traders, r, k)
  }

  lemma ReachedBy(traders: nat, cs: Input, n: nat)
    requires ShortRun(traders, cs) && |cs| <= n
    ensures Reached(traders, RunOf(traders, NAMES, cs), n)
  {
  }

  lemma ReachedLater(traders: nat, r: Ending, n: nat, k: nat)
    requires Reached(traders, r, n) && n <= k
    ensures Reached(traders, r, k)
  {
  }

  /** A run that ends like this. */
  lemma RunReaching(traders: nat, r: Ending, n: nat) returns (cs: Input)
    requires Reached(traders, r, n)
    ensures ShortRun(traders, cs) && |cs| <= n && RunOf(traders, NAMES, cs) == r
  {
    assert EndsIn(traders, r, n);
    cs :| ShortRun(traders, cs) && |cs| <= n && RunOf(traders, NAMES, cs) == r;
  }

  lemma OneMoreReached(traders: nat, r: Ending, n: nat, t: nat, c: Command)
    requires Reached(traders, r, n) && n < INT_LIMIT && t < traders && SixDigits(c)
    ensures Serves(r.0, NAMES, t) && Steady(r.0)
    ensures var p := Process(r.0, NAMES, t, c); Reached(traders, (p.market, r.1 + p.fills), n + 1)
  {
    var cs := RunReaching(traders, r, n);
    OneMoreOf(traders, NAMES, cs, t, c);
    ReachedBy(traders, cs + [(t, c)], n + 1);
  }

  /** The newcomer trades with the lone order. */
  lemma FirstHalf(traders: nat, was: Ending, n: nat, r: Id, side: Side, t: nat) returns (mid: Ending)
    requires Reached(traders, was, n) && n < INT_LIMIT && t < traders && Stands(was.0, r, side)
    requires t < |was.0.traders| && was.0.traders[t].next <= FIELD_MAX
    ensures Reached(traders, mid, n + 1) && Alone(mid.0, 0, r, side, 1) && |mid.1| == |was.1| + 1
    ensures Settled(was.0, mid.0, 0, [TakeOf(side, r, t, was.0.traders[t].next)]) && WentOn(was.0, mid.0, t, 1)
    ensures Sizes(was.0) && |was.0.buy| == 1
  {
    assert Alone(was.0, 0, r, side, FIELD_MAX);
    var c := Hit(was.0, side, t);
    OneMoreReached(traders, was, n, t, c);
    HitLeavesOne(was.0, r, side, t);
    var p := Process(was.0, NAMES, t, c);
    mid := (p.market, was.1 + p.fills);
  }

  /** The owner of the lone order renews it. */
  lemma SecondHalf(traders: nat, mid: Ending, n: nat, r: Id, side: Side) returns (now: Ending)
    requires Reached(traders, mid, n) && n < INT_LIMIT && r.owner < traders && 0 <= r.local <= FIELD_MAX
    requires Alone(mid.0, 0, r, side, 1)
    ensures Reached(traders, now, n + 1) && Stands(now.0, r, side) && |now.1| == |mid.1|
    ensures Settled(mid.0, now.0, 0, []) && WentOn(mid.0, now.0, 0, 0)
  {
    var c := Change(r.local, FIELD_MAX, FIELD_MAX);
    OneMoreReached(traders, mid, n, r.owner, c);
    RenewFills(mid.0, r, side);
    var p := Process(mid.0, NAMES, r.owner, c);
    now := (p.market, mid.1 + p.fills);
  }

  lemma Round(traders: nat, was: Ending, n: nat, r: Id, side: Side, t: nat) returns (now: Ending)
    requires Reached(traders, was, n) && n + 2 <= INT_LIMIT && t < traders && r.owner < traders
    requires Stands(was.0, r, side) && 0 <= r.local <= FIELD_MAX
    requires t < |was.0.traders| && was.0.traders[t].next <= FIELD_MAX
    ensures Reached(traders, now, n + 2) && Stands(now.0, r, side) && Went(was, now, r, side, t, 1)
  {
    var mid := FirstHalf(traders, was, n, r, side, t);
    now := SecondHalf(traders, mid, n + 1, r, side);
    MovedOnce(was.0, mid.0, now.0, side, r, t, was.0.traders[t].next);
  }

  /** Rounds of one newcomer, as many as its numbers allow. */
  lemma {:induction false} Rounds(traders: nat, was: Ending, n: nat, r: Id, side: Side, t: nat, k: nat)
    returns (now: Ending)
    requires Reached(traders, was, n) && n + 2 * k <= INT_LIMIT && t < traders && r.owner < traders
    requires Stands(was.0, r, side) && 0 <= r.local <= FIELD_MAX
    requires t < |was.0.traders| && was.0.traders[t].next + k <= FIELD_MAX + 1
    ensures Reached(traders, now, n + 2 * k) && Stands(now.0, r, side) && Went(was, now, r, side, t, k)
    decreases k
  {
    if k == 0 {
      now := was;
      WentNowhere(was, r, side, t);
    } else {
      var then1 := Rounds(traders, was, n, r, side, t, k - 1);
      now := Round(traders, then1, n + 2 * (k - 1), r, side, t);
      WentThen(was, then1, now, r, side, t, k - 1);
    }
  }

  // ---------- ints ----------

  /** From the opening, a lone order of trader 0 to sell. */
  lemma OneSeller(traders: nat) returns (r: Ending)
    requires traders > 0
    ensures Reached(traders, r, 1) && Stands(r.0, Id(0, 0), Sell) && r.1 == []
    ensures Flat(r.0) && WentOn(Opening(1, traders), r.0, 0, 1)
  {
    var m := Opening(1, traders);
    OpeningSteady(1, traders);
    assert RunOf(traders, NAMES, []) == (m, []);
    ReachedBy(traders, [], 0);
    var c := New(Sell, 0, "GPU", FIELD_MAX, FIELD_MAX);
    OneMoreReached(traders, (m, []), 0, 0, c);
    RestAlone(m, Sell, 0);
    var p := Process(m, NAMES, 0, c);
    r := (p.market, [] + p.fills);
  }

  /** Nobody holds anything. */
  ghost predicate Flat(m: Market) {
    forall x :: 0 <= x < |m.traders| ==>
      |m.traders[x].quantities| == |m.traders[x].cash| == 1 && m.traders[x].quantities[0] == m.traders[x].cash[0] == 0
  }

  /** 2148 trades, between three traders, with which the first leaves the ints. */
  lemma IntsLeft() returns (r: Ending)
    ensures Reached(3, r, 4297) && |r.1| == 2148
    ensures Holdings(r.0.traders, 0) == [-2148 * MOST, 1074 * MOST, 1074 * MOST]
  {
    var r0 := OneSeller(3);
    var r1 := Rounds(3, r0, 1, Id(0, 0), Sell, 1, 1074);
    r := Rounds(3, r1, 2149, Id(0, 0), Sell, 2, 1074);
  }

  /** What the fields hold sums to what the quantities sum to, up to multiples of 2^32. */
  lemma {:induction false} StoredResidue(s: seq<int>) returns (j: int)
    ensures Sum(Stored(s)) == Sum(s) + 2 * INT_LIMIT * j
  {
    if s == [] {
      j := 0;
    } else {
      var i := StoredResidue(s[1..]);
      assert Stored(s)[1..] == Stored(s[1..]);
      j := i - (s[0] + INT_LIMIT) / (2 * INT_LIMIT);
    }
  }

  /** All quantities fit ints after every run of at most k trades, exactly if k is at most 2147. */
  ghost predicate IntsAlwaysFit(k: nat) {
    forall traders, names, cs :: ShortRun(traders, cs) && |RunOf(traders, names, cs).1| <= k ==>
      QuantitiesFit(RunOf(traders, names, cs).0)
  }

  lemma IntsBear(k: nat)
    ensures IntsAlwaysFit(k) <==> k <= 2147
  {
    forall traders, names, cs | k <= 2147 && ShortRun(traders, cs) && |RunOf(traders, names, cs).1| <= k
      ensures QuantitiesFit(RunOf(traders, names, cs).0)
    {
      FewTradesFit(traders, names, cs);
    }
    if k > 2147 {
      var r := IntsLeft();
      var cs := RunReaching(3, r, 4297);
      assert Holdings(r.0.traders, 0)[0] == r.0.traders[0].quantities[0];
      assert !FitsInt(-2148 * MOST) && !QuantitiesFit(r.0);
      assert |RunOf(3, NAMES, cs).1| <= k && !QuantitiesFit(RunOf(3, NAMES, cs).0);
    }
  }

  lemma SumThree(a: int, b: int, c: int)
    ensures Sum([a, b, c]) == a + b + c
  {
    assert [a, b, c][1..] == [b, c] && [b, c][1..] == [c] && [c][1..] == [];
    assert Sum([c]) == c && Sum([b, c]) == b + c;
  }

  lemma StoredThree()
    ensures Sum(Stored([-2148 * MOST, 1074 * MOST, 1074 * MOST])) == 2 * INT_LIMIT
  {
    var t := Stored([-2148 * MOST, 1074 * MOST, 1074 * MOST]);
    assert t == [2_146_971_592, 1_073_997_852, 1_073_997_852];
    SumThree(t[0], t[1], t[2]);
  }

  /** Conservation is lost in the fields by then: they sum to 2^32. */
  lemma StoredNotBalanced() returns (cs: Input)
    ensures ShortRun(3, cs) && |RunOf(3, NAMES, cs).1| == 2148
    ensures Sum(Stored(Holdings(RunOf(3, NAMES, cs).0.traders, 0))) == 2 * INT_LIMIT
  {
    var r := IntsLeft();
    cs := RunReaching(3, r, 4297);
    StoredThree();
  }

  // ---------- longs ----------

  const GAIN := 999_997_000_002
  const BLOCK := FIELD_MAX

  lemma SellerGains(t: nat)
    requires t > 0
    ensures Profit(TakeOf(Sell, Id(0, 0), t, 0), 0) == GAIN
    ensures Profit(TakeOf(Buy, Id(t, BLOCK), 0, 0), 0) == GAIN - 9_999_970_000
  {
    assert MOST * FIELD_MAX == GAIN && Fee(GAIN) == 9_999_970_000;
  }

  /** Traders 1 to k have used all their numbers but one; trader 0 has gained from each. */
  ghost predicate Gained(was: Market, now: Market, k: nat) {
    && |now.traders| == |was.traders| > 0
    && |was.traders[0].cash| == |now.traders[0].cash| == 1
    && now.traders[0].cash[0] == was.traders[0].cash[0] + k * (BLOCK * GAIN)
    && forall x :: 0 <= x < |was.traders| ==>
      now.traders[x].next == was.traders[x].next + if 1 <= x <= k then BLOCK else 0
  }

  lemma GainedThen(was: Ending, mid: Ending, now: Ending, k: nat)
    requires Gained(was.0, mid.0, k) && Went(mid, now, Id(0, 0), Sell, k + 1, BLOCK)
    ensures Gained(was.0, now.0, k + 1)
  {
    SellerGains(k + 1);
  }

  /** The commands with which k traders use up their numbers but one. */
  function Span(k: nat): nat {
    1_999_998 * k
  }

  /** Traders 1 to k have bought, by a run of n commands at most. */
  ghost predicate Bought(traders: nat, was: Ending, now: Ending, n: nat, k: nat) {
    Reached(traders, now, n) && Stands(now.0, Id(0, 0), Sell) && Gained(was.0, now.0, k)
  }

  /** Traders 1 to k buy from trader 0 in turn. */
  lemma {:induction false} Buyers(traders: nat, was: Ending, n: nat, k: nat) returns (now: Ending)
    requires Bought(traders, was, was, n, 0) && n + Span(k) <= INT_LIMIT && k < traders == |was.0.traders|
    requires forall x :: 1 <= x < traders ==> was.0.traders[x].next == 0
    ensures Bought(traders, was, now, n + Span(k), k)
    decreases k
  {
    if k == 0 {
      now := was;
    } else {
      var mid := Buyers(traders, was, n, k - 1);
      now := OneBuyer(traders, was, mid, n + Span(k - 1), k - 1);
      assert n + Span(k - 1) + Span(1) == n + Span(k);
    }
  }

  lemma OneBuyer(traders: nat, was: Ending, mid: Ending, n: nat, k: nat) returns (now: Ending)
    requires Bought(traders, was, mid, n, k) && n + Span(1) <= INT_LIMIT && k + 1 < traders
    requires k + 1 < |was.0.traders| && was.0.traders[k + 1].next == 0
    ensures Bought(traders, was, now, n + Span(1), k + 1)
  {
    now := Rounds(traders, mid, n, Id(0, 0), Sell, k + 1, BLOCK);
    GainedThen(was, mid, now, k);
  }

  /** Trader 0 takes its order away, and trader 1 puts one up with its last number. */
  lemma Switch(traders: nat, was: Ending, n: nat) returns (now: Ending)
    requires Reached(traders, was, n) && n + 2 <= INT_LIMIT && 1 < traders == |was.0.traders|
    requires Stands(was.0, Id(0, 0), Sell) && was.0.traders[1].next == BLOCK && |was.0.traders[0].cash| == 1
    ensures Reached(traders, now, n + 2) && Stands(now.0, Id(1, BLOCK), Buy)
    ensures |now.0.traders| == traders && now.0.traders[0].next == was.0.traders[0].next
    ensures now.0.traders[0].cash == was.0.traders[0].cash
  {
    assert Alone(was.0, 0, Id(0, 0), Sell, FIELD_MAX);
    OneMoreReached(traders, was, n, 0, Cancel(0));
    CancelEmpties(was.0, Id(0, 0), Sell);
    var p := Process(was.0, NAMES, 0, Cancel(0));
    var c := New(Buy, BLOCK, "GPU", FIELD_MAX, FIELD_MAX);
    OneMoreReached(traders, (p.market, was.1 + p.fills), n + 1, 1, c);
    RestAlone(p.market, Buy, 1);
    var p' := Process(p.market, NAMES, 1, c);
    now := (p'.market, (was.1 + p.fills) + p'.fills);
  }

  /** With ten traders or more, the cash of the first can leave the longs. */
  lemma LongsLeft(traders: nat) returns (r: Ending)
    requires traders >= 10
    ensures Reached(traders, r, 18_500_000) && |r.0.traders| == traders && |r.0.traders[0].cash| == 1
    ensures r.0.traders[0].cash[0] >= LONG_LIMIT
  {
    var r0 := OneSeller(traders);
    var r1 := Buyers(traders, r0, 1, 9);
    var n := 1 + 2 * BLOCK * 9;
    var r2 := Switch(traders, r1, n);
    r := Rounds(traders, r2, n + 2, Id(1, BLOCK), Buy, 0, 226_000);
    SellerGains(1);
    ReachedLater(traders, r, n + 2 + 2 * 226_000, 18_500_000);
  }

  /** Cash and fees fit longs after every run. */
  ghost predicate LongsAlwaysFit(traders: nat) {
    forall names, cs :: ShortRun(traders, cs) ==> CashFits(RunOf(traders, names, cs).0)
  }

  /** They do exactly if there are at most nine traders. */
  lemma LongsBear(traders: nat)
    ensures LongsAlwaysFit(traders) <==> traders <= 9
  {
    forall names, cs | traders <= 9 && ShortRun(traders, cs) ensures CashFits(RunOf(traders, names, cs).0) {
      NineTradersFit(traders, names, cs);
    }
    if traders > 9 {
      var r := LongsLeft(traders);
      var cs := RunReaching(traders, r, 18_500_000);
      assert !FitsLong(r.0.traders[0].cash[0]) && !CashFits(RunOf(traders, NAMES, cs).0);
    }
  }
}
