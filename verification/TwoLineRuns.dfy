/** What accepted messages of two lines can do to an order's quantity and to the print. */
module TwoLineRuns {
  import opened OrderedSeq
  import opened Orders
  import opened Markets
  import opened Trading
  import opened Matching
  import opened Commands
  import opened Runs
  import opened Overflows
  import opened Numbers
  import opened Messages
  import opened MessageLines
  import opened OrderBook
  import opened FullBooks
  import opened Wraps

  lemma DigitsMore(n: nat, d: nat)
    requires n > 0 && d < 10
    ensures Digits(10 * n + d) == Digits(n) + [DigitOf(d)]
  {
  }

  lemma LargestDigits()
    ensures Decimal(2_147_483_647) == "2147483647"
  {
    DigitsMore(2, 1);
    DigitsMore(21, 4);
    DigitsMore(214, 7);
    DigitsMore(2147, 4);
    DigitsMore(21_474, 8);
    DigitsMore(214_748, 3);
    DigitsMore(2_147_483, 6);
    DigitsMore(21_474_836, 4);
    DigitsMore(214_748_364, 7);
  }

  lemma SmallDigits()
    ensures Decimal(0) == "0" && Decimal(1) == "1" && Decimal(3) == "3" && Decimal(5) == "5"
    ensures Decimal(-1) == "-1" && Decimal(-2) == "-2" && Decimal(-5) == "-5"
  {
  }

  lemma LoadText()
    ensures TwoLines(Sell, 0, INT_LIMIT - 1, 1) == "SELL 0 GPU 2147483647 1\nCANCEL 1;"
  {
    LargestDigits();
    SmallDigits();
    LoadParts();
    assert "SELL 0 GPU 2147483647 1" + SECOND_LINE + ";" == "SELL 0 GPU 2147483647 1\nCANCEL 1;";
  }

  lemma LoadParts()
    ensures "SELL" + " " + ("0" + " " + ("GPU" + " " + ("2147483647" + " " + "1"))) == "SELL 0 GPU 2147483647 1"
  {
    assert "2147483647" + " " + "1" == "2147483647 1";
    assert "GPU" + " " + "2147483647 1" == "GPU 2147483647 1";
  }

  lemma UnloadText()
    ensures TwoLines(Buy, 1, -5, 1) == "BUY 1 GPU -5 1\nCANCEL 1;"
  {
    SmallDigits();
  }

  lemma BidText()
    ensures TwoLines(Buy, 0, 5, -1) == "BUY 0 GPU 5 -1\nCANCEL 1;"
  {
    SmallDigits();
  }

  lemma SecondBidText()
    ensures TwoLines(Buy, 1, 3, -2) == "BUY 1 GPU 3 -2\nCANCEL 1;"
  {
    SmallDigits();
  }

  lemma Loads()
    ensures Arrives("SELL 0 GPU 2147483647 1\nCANCEL 1;", Load())
  {
    TwoLinesReceived(Sell, 0, INT_LIMIT - 1, 1);
    LoadText();
  }

  lemma Unloads()
    ensures Arrives("BUY 1 GPU -5 1\nCANCEL 1;", Unload(-5))
  {
    TwoLinesReceived(Buy, 1, -5, 1);
    UnloadText();
  }

  /** Two messages after which both of their orders are gone: of the one to sell, all an
      int holds, less than nothing was sold, and what should be left is too much for its
      int. */
  lemma QuantityWraps(m: Market)
    requires Bare(m) && Steady(m)
    ensures Arrives("SELL 0 GPU 2147483647 1\nCANCEL 1;", Load()) && Arrives("BUY 1 GPU -5 1\nCANCEL 1;", Unload(-5))
    ensures Serves(m, ["GPU"], 0)
    ensures var m1 := Process(m, ["GPU"], 0, Load()).market;
      && m1.store == map[Id(0, 0) := Order(Sell, 0, 2_147_483_647, 1, 0)] && Serves(m1, ["GPU"], 0)
      && var r := Process(m1, ["GPU"], 0, Unload(-5));
        |r.fills| == 1 && r.fills[0].quantity == -5 && r.market.store == map[]
  {
    Loads();
    Unloads();
    LoadFirst(m);
    UnloadEmpties(Process(m, ["GPU"], 0, Load()).market, -5);
  }

  // ---------- the price -1 ----------

  /** One product and one trader, whose order to buy at this price is all there is. */
  ghost predicate Bids(m: Market, quantity: Int, price: Int) {
    && Steady(m) && Serves(m, ["GPU"], 0) && m.traders[0].next == 1
    && m.store == map[Id(0, 0) := Order(Buy, 0, quantity, price, 0)]
  }

  lemma BidFirst(m: Market, quantity: Int, price: Int)
    requires Bare(m) && Steady(m)
    ensures Serves(m, ["GPU"], 0)
    ensures Bids(Process(m, ["GPU"], 0, New(Buy, 0, "GPU", quantity, price)).market, quantity, price)
  {
    FirstRests(m, Buy, quantity, price);
    FirstEntered(m, Buy, quantity, price);
    CommandAccounts(m, ["GPU"], 0, New(Buy, 0, "GPU", quantity, price));
    ProcessSteady(m, ["GPU"], 0, New(Buy, 0, "GPU", quantity, price));
  }

  lemma BidShown(m: Market, quantity: Int, price: Int)
    requires Bids(m, quantity, price)
    ensures |m.buy| == |m.sell| && Shown(m, Buy, 0) == [Quote(Id(0, 0), quantity, price)]
  {
    BookStored(m, Buy, 0);
    assert BookOk(m.store, Buy, 0, m.buy[0]);
    OnlyOne(m.buy[0], Id(0, 0));
  }

  lemma BidArrives()
    ensures Arrives("BUY 0 GPU 5 -1\nCANCEL 1;", New(Buy, 0, "GPU", 5, -1))
  {
    TwoLinesReceived(Buy, 0, 5, -1);
    BidText();
  }

  lemma MinusOneAlone(quotes: seq<Quote>)
    requires |quotes| == 1 && quotes[0].price == -1
    ensures Levels(quotes) == 0 && |Printout(quotes)| == 1
  {
    assert quotes[1..] == [] && Lines(quotes) == [LineOf(quotes[0])];
  }

  lemma BidUncounted(m: Market, quantity: Int)
    requires Bids(m, quantity, -1)
    ensures |m.buy| == |m.sell| == 1 && Levels(Shown(m, Buy, 0)) == 0 && |Printout(Shown(m, Buy, 0))| == 1
  {
    BidShown(m, quantity, -1);
    MinusOneAlone(Shown(m, Buy, 0));
  }

  /** A message after which a line is printed that the headline does not count. */
  lemma HeadlineMisses(m: Market)
    requires Bare(m) && Steady(m)
    ensures Arrives("BUY 0 GPU 5 -1\nCANCEL 1;", New(Buy, 0, "GPU", 5, -1))
    ensures Serves(m, ["GPU"], 0)
    ensures var m1 := Process(m, ["GPU"], 0, New(Buy, 0, "GPU", 5, -1)).market;
      && |m1.buy| == |m1.sell| == 1
      && Levels(Shown(m1, Buy, 0)) == 0 && |Printout(Shown(m1, Buy, 0))| == 1
  {
    BidArrives();
    BidFirst(m, 5, -1);
    BidUncounted(Process(m, ["GPU"], 0, New(Buy, 0, "GPU", 5, -1)).market, 5);
  }

  lemma OnlyTwo(tree: seq<Id>, a: Id, b: Id)
    requires a != b && forall i, j :: 0 <= i < j < |tree| ==> tree[i] != tree[j]
    requires forall x :: x in tree <==> x == a || x == b
    ensures tree == [a, b] || tree == [b, a]
  {
    assert a in tree && b in tree;
    AllKeys(tree, {a, b});
    assert tree[0] in tree && tree[1] in tree;
  }

  /** A second order to buy, at a lower price. */
  lemma BidSecond(m: Market, quantity: Int, price: Int, c: Command)
    requires Bids(m, quantity, price) && c.New? && c.side == Buy && c.product == "GPU"
    requires c.number == 1 && c.price < price
    ensures var m1 := Process(m, ["GPU"], 0, c).market;
      && Steady(m1) && |m1.buy| == |m1.sell| == 1
      && m1.store == m.store[Id(0, 1) := Order(Buy, 0, c.quantity, c.price, m.issued)]
  {
    assert ["GPU"][0] == "GPU";
    BookStored(m, Sell, 0);
    SomeMember(m.sell[0]);
    RestsWhole(m, ["GPU"], 0, c);
    ProcessSteady(m, ["GPU"], 0, c);
  }

  lemma BidsShown(m: Market, a: Id, b: Id)
    requires Steady(m) && |m.buy| == |m.sell| == 1 && a != b && m.store.Keys == {a, b}
    requires InBook(m.store, Buy, 0, a) && InBook(m.store, Buy, 0, b) && m.store[b].price < m.store[a].price
    ensures Shown(m, Buy, 0) == [QuoteOf(m.store, a), QuoteOf(m.store, b)]
  {
    BookStored(m, Buy, 0);
    assert BookOk(m.store, Buy, 0, m.buy[0]);
    OnlyTwo(m.buy[0], a, b);
    assert m.buy[0] == [a, b];
  }

  lemma SecondBidArrives()
    ensures Arrives("BUY 1 GPU 3 -2\nCANCEL 1;", New(Buy, 1, "GPU", 3, -2))
  {
    TwoLinesReceived(Buy, 1, 3, -2);
    SecondBidText();
  }

  lemma MinusOneFirst(quotes: seq<Quote>)
    requires |quotes| == 2 && quotes[0].price == -1 && quotes[1].price != -1
    ensures Printout(quotes) != Lines(quotes)
  {
    assert quotes == quotes[..1] + [quotes[1]] && quotes[..1][1..] == [];
    assert Lines(quotes[..1]) == [LineOf(quotes[0])];
    LinesSnoc(quotes[..1], quotes[1]);
    PrintedExactly(quotes);
  }

  lemma TwoBidsShown(m: Market, c: Command)
    requires Bids(m, 5, -1) && c.New? && c.side == Buy && c.product == "GPU" && c.number == 1 && c.price < -1
    ensures var m2 := Process(m, ["GPU"], 0, c).market;
      && |m2.buy| == |m2.sell| == 1
      && Printout(Shown(m2, Buy, 0)) != Lines(Shown(m2, Buy, 0))
  {
    BidSecond(m, 5, -1, c);
    var m2 := Process(m, ["GPU"], 0, c).market;
    BidsShown(m2, Id(0, 0), Id(0, 1));
    MinusOneFirst(Shown(m2, Buy, 0));
  }

  /** With a second message the price -1 is above another, and its line is not printed. */
  lemma LineMissing(m: Market)
    requires Bare(m) && Steady(m)
    ensures Arrives("BUY 0 GPU 5 -1\nCANCEL 1;", New(Buy, 0, "GPU", 5, -1))
    ensures Arrives("BUY 1 GPU 3 -2\nCANCEL 1;", New(Buy, 1, "GPU", 3, -2))
    ensures Serves(m, ["GPU"], 0)
    ensures var m1 := Process(m, ["GPU"], 0, New(Buy, 0, "GPU", 5, -1)).market;
      && Serves(m1, ["GPU"], 0)
      && var m2 := Process(m1, ["GPU"], 0, New(Buy, 1, "GPU", 3, -2)).market;
        && |m2.buy| == |m2.sell| == 1
        && Printout(Shown(m2, Buy, 0)) != Lines(Shown(m2, Buy, 0))
  {
    BidArrives();
    SecondBidArrives();
    BidFirst(m, 5, -1);
    TwoBidsShown(Process(m, ["GPU"], 0, New(Buy, 0, "GPU", 5, -1)).market, New(Buy, 1, "GPU", 3, -2));
  }
}
