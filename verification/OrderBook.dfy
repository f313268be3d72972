/** The printed order book: the orders of one side, grouped by price. */
module OrderBook {
  import opened Orders
  import opened Markets
  import opened Trading
  import opened Matching
  import opened Accounts
  import opened Visits

  /** One line of the book: how much there is at a price, in how many orders. */
  datatype Line = Line(quantity: int, price: int, count: int)

  function Join(line: Line, lines: seq<Line>): seq<Line> {
    if lines != [] && lines[0].price == line.price
    then [Line(line.quantity + lines[0].quantity, line.price, line.count + lines[0].count)] + lines[1..]
    else [line] + lines
  }

  function LineOf(q: Quote): Line {
    Line(q.quantity, q.price, 1)
  }

  /** Runs of equal prices, each as one line. */
  function Lines(quotes: seq<Quote>): seq<Line> {
    if quotes == [] then [] else Join(LineOf(quotes[0]), Lines(quotes[1..]))
  }

  // ---------- the grouping ----------

  function QuantityAt(quotes: seq<Quote>, price: int): int {
    if quotes == [] then 0
    else (if quotes[0].price == price then quotes[0].quantity else 0) + QuantityAt(quotes[1..], price)
  }

  function CountAt(quotes: seq<Quote>, price: int): int {
    if quotes == [] then 0
    else (if quotes[0].price == price then 1 else 0) + CountAt(quotes[1..], price)
  }

  ghost predicate Descending(quotes: seq<Quote>) {
    forall i, j :: 0 <= i < j < |quotes| ==> quotes[i].price >= quotes[j].price
  }

  /** Exactly one line for every price there is, highest first, with its totals. */
  ghost predicate GroupsByPrice(lines: seq<Line>, quotes: seq<Quote>) {
    && (forall i, j :: 0 <= i < j < |lines| ==> lines[i].price > lines[j].price)
    && (forall i :: 0 <= i < |lines| ==> TotalsAt(lines[i], quotes))
    && (forall i :: 0 <= i < |quotes| ==> Listed(lines, quotes[i].price))
  }

  predicate Listed(lines: seq<Line>, price: int) {
    exists j :: 0 <= j < |lines| && lines[j].price == price
  }

  ghost predicate TotalsAt(line: Line, quotes: seq<Quote>) {
    && line.quantity == QuantityAt(quotes, line.price) && line.count == CountAt(quotes, line.price)
    && line.count > 0
  }

  lemma {:induction false} NoneAt(quotes: seq<Quote>, price: int)
    requires forall i :: 0 <= i < |quotes| ==> quotes[i].price != price
    ensures QuantityAt(quotes, price) == 0 && CountAt(quotes, price) == 0
  {
    if quotes != [] { NoneAt(quotes[1..], price); }
  }

  lemma JoinGroups(q: Quote, quotes: seq<Quote>, lines: seq<Line>)
    requires Descending([q] + quotes) && GroupsByPrice(lines, quotes)
    requires forall i :: 0 <= i < |lines| ==> lines[i].price <= q.price
    requires lines == [] <==> quotes == []
    ensures GroupsByPrice(Join(LineOf(q), lines), [q] + quotes)
  {
    var all, lines' := [q] + quotes, Join(LineOf(q), lines);
    var d := |lines'| - |lines|;
    forall i | 0 <= i < |all| ensures Listed(lines', all[i].price) {
      if i == 0 {
        assert lines'[0].price == q.price;
      } else {
        assert Listed(lines, quotes[i - 1].price);
        var j :| 0 <= j < |lines| && lines[j].price == quotes[i - 1].price;
        assert lines'[j + d].price == all[i].price;
      }
    }
    JoinTotals(q, quotes, lines);
  }

  lemma JoinTotals(q: Quote, quotes: seq<Quote>, lines: seq<Line>)
    requires GroupsByPrice(lines, quotes)
    requires forall i :: 0 <= i < |lines| ==> lines[i].price <= q.price
    ensures forall i :: 0 <= i < |Join(LineOf(q), lines)| ==> TotalsAt(Join(LineOf(q), lines)[i], [q] + quotes)
  {
    var all, lines' := [q] + quotes, Join(LineOf(q), lines);
    assert all[1..] == quotes;
    var d := |lines'| - |lines|;
    if d == 1 {
      forall i | 0 <= i < |quotes| ensures quotes[i].price != q.price {
        assert Listed(lines, quotes[i].price);
        var j :| 0 <= j < |lines| && lines[j].price == quotes[i].price;
      }
      NoneAt(quotes, q.price);
    }
    forall i | 0 <= i < |lines'| ensures TotalsAt(lines'[i], all) {
      if d == 0 || i > 0 { assert TotalsAt(lines[i - d], quotes); }
    }
  }

  lemma {:induction false} LinesGroup(quotes: seq<Quote>)
    requires Descending(quotes)
    ensures GroupsByPrice(Lines(quotes), quotes)
    ensures forall i :: 0 <= i < |Lines(quotes)| ==> Lines(quotes)[i].price <= quotes[0].price
    ensures Lines(quotes) == [] <==> quotes == []
  {
    if quotes != [] {
      LinesGroup(quotes[1..]);
      assert quotes == [quotes[0]] + quotes[1..];
      JoinGroups(quotes[0], quotes[1..], Lines(quotes[1..]));
    }
  }

  // ---------- gathering and printing ----------

  /** Collects the orders a scan visits, and counts the prices it meets. */
  class IterHelper {
    const orders: array<Quote>
    var price: int
    var levels: int
    var count: nat

    constructor (n: nat, filler: Quote)
      ensures fresh(this) && fresh(orders) && orders.Length == n
      ensures price == -1 && levels == 0 && count == 0
    {
      orders := new Quote[n](i => filler);
      price, levels, count := -1, 0, 0;
    }

    method OrderIter(o: Quote) returns (go: bool)
      requires count < orders.Length
      modifies this, orders
      ensures go && count == old(count) + 1 && orders[..count] == old(orders[..count]) + [o]
      ensures price == o.price && levels == old(levels) + if o.price != old(price) then 1 else 0
    {
      orders[count] := o;
      count := count + 1;
      if o.price != price {
        price := o.price;
        levels := levels + 1;
      }
      go := true;
    }
  }

  /** The lines after one more order: it joins the last line or starts a new one. */
  function Extend(lines: seq<Line>, q: Quote): seq<Line> {
    if lines != [] && lines[|lines| - 1].price == q.price then
      var last := lines[|lines| - 1];
      lines[..|lines| - 1] + [Line(last.quantity + q.quantity, q.price, last.count + 1)]
    else lines + [LineOf(q)]
  }

  lemma JoinExtend(line: Line, lines: seq<Line>, q: Quote)
    ensures Join(line, Extend(lines, q)) == Extend(Join(line, lines), q)
  {
    if |lines| > 1 {
      var joined := Join(line, lines);
      assert joined[|joined| - 1] == lines[|lines| - 1];
      assert Extend(lines, q)[0] == lines[0];
    }
  }

  lemma {:induction false} LinesSnoc(quotes: seq<Quote>, q: Quote)
    ensures Lines(quotes + [q]) == Extend(Lines(quotes), q)
  {
    if quotes == [] {
      assert ([] + [q])[1..] == [];
    } else {
      assert (quotes + [q])[1..] == quotes[1..] + [q];
      LinesSnoc(quotes[1..], q);
      JoinExtend(LineOf(quotes[0]), Lines(quotes[1..]), q);
    }
  }

  /** The last line is that of the last order. */
  lemma LinesLast(quotes: seq<Quote>)
    requires quotes != []
    ensures var lines := Lines(quotes);
      lines != [] && lines[|lines| - 1].price == quotes[|quotes| - 1].price
  {
    var n := |quotes| - 1;
    LinesSnoc(quotes[..n], quotes[n]);
    assert quotes[..n] + [quotes[n]] == quotes;
  }

  /** The level count of the headline: the prices met, the scan having started from -1. */
  function Levels(quotes: seq<Quote>): int {
    |Lines(quotes)| - if quotes != [] && quotes[0].price == -1 then 1 else 0
  }

  /** What a scan of the orders gathers. */
  method Gather(quotes: seq<Quote>) returns (h: IterHelper)
    ensures fresh(h) && fresh(h.orders) && h.orders.Length == |quotes|
    ensures h.orders[..] == quotes && h.levels == Levels(quotes)
  {
    h := new IterHelper(|quotes|, Quote(Id(0, 0), 0, 0));
    var i := 0;
    while i < |quotes|
      invariant 0 <= i == h.count <= |quotes| == h.orders.Length
      invariant h.orders[..i] == quotes[..i] && h.levels == Levels(quotes[..i])
      invariant h.price == if i == 0 then -1 else quotes[i - 1].price
    {
      if i > 0 { LinesLast(quotes[..i]); }
      LinesSnoc(quotes[..i], quotes[i]);
      assert quotes[..i] + [quotes[i]] == quotes[..i + 1];
      var _ := h.OrderIter(quotes[i]);
      i := i + 1;
    }
    assert quotes[..i] == quotes && h.orders[..i] == h.orders[..];
  }

  /** The lines of a price other than -1. */
  function Priced(lines: seq<Line>): (r: seq<Line>)
    ensures |r| <= |lines|
  {
    if lines == [] then []
    else
      var n := |lines| - 1;
      Priced(lines[..n]) + if lines[n].price == -1 then [] else [lines[n]]
  }

  /** Lines with their totals as an int holds them. */
  function AsInts(lines: seq<Line>): seq<Line> {
    seq(|lines|, i requires 0 <= i < |lines| => lines[i].(quantity := Narrow(lines[i].quantity)))
  }

  /** What is printed: a line of price -1 only at the end. */
  function Printout(quotes: seq<Quote>): seq<Line> {
    var lines := Lines(quotes);
    if lines == [] then [] else AsInts(Priced(lines[..|lines| - 1]) + [lines[|lines| - 1]])
  }

  /** One more order joins the last line or ends it. */
  lemma LinesStep(quotes: seq<Quote>, q: Quote, past: seq<Line>, line: Line)
    requires Lines(quotes) == past + [line]
    ensures Lines(quotes + [q]) ==
      if q.price == line.price then past + [Line(line.quantity + q.quantity, q.price, line.count + 1)]
      else (past + [line]) + [LineOf(q)]
  {
    LinesSnoc(quotes, q);
  }

  lemma PricedSnoc(lines: seq<Line>, line: Line)
    ensures AsInts(Priced(lines + [line])) ==
      AsInts(Priced(lines)) + if line.price == -1 then [] else [line.(quantity := Narrow(line.quantity))]
  {
    assert (lines + [line])[..|lines|] == lines;
  }

  /** Where the printing stands after some orders: lines printed, and one in the making. */
  ghost predicate Printing(quotes: seq<Quote>, past: seq<Line>, line: Line, lines: seq<Line>, quantity: int)
  {
    && quotes != [] && line.price == quotes[|quotes| - 1].price && Lines(quotes) == past + [line]
    && lines == AsInts(Priced(past)) && quantity == Narrow(line.quantity)
  }

  lemma PrintingFirst(q: Quote)
    ensures Printing([q], [], LineOf(q), [], q.quantity)
  {
    assert [q][1..] == [];
  }

  lemma PrintingJoins(quotes: seq<Quote>, q: Quote, past: seq<Line>, line: Line, lines: seq<Line>, quantity: int)
    requires Printing(quotes, past, line, lines, quantity) && q.price == line.price
    ensures Printing(quotes + [q], past, Line(line.quantity + q.quantity, q.price, line.count + 1),
      lines, Narrow(quantity + q.quantity))
  {
    LinesStep(quotes, q, past, line);
    StoredSum(line.quantity, q.quantity);
  }

  lemma PrintingNext(quotes: seq<Quote>, q: Quote, past: seq<Line>, line: Line, lines: seq<Line>, quantity: int)
    requires Printing(quotes, past, line, lines, quantity) && q.price != line.price
    ensures Printing(quotes + [q], past + [line], LineOf(q),
      if line.price == -1 then lines else lines + [line.(quantity := quantity)], q.quantity)
  {
    LinesStep(quotes, q, past, line);
    PricedSnoc(past, line);
  }

  /** The lines printed for the orders gathered. */
  method PrintLines(orders: array<Quote>) returns (lines: seq<Line>)
    ensures lines == Printout(orders[..])
  {
    var price, quantity, count := -1, 0, 0;
    lines := [];
    if orders.Length == 0 { return; }
    ghost var past: seq<Line>, total := [], 0;
    var i := 0;
    while i < orders.Length
      invariant 0 <= i <= orders.Length
      invariant i == 0 ==> price == -1 && past == lines == [] && quantity == total == count == 0
      invariant i > 0 ==> Printing(orders[..i], past, Line(total, price, count), lines, quantity)
    {
      var o := orders[i];
      assert orders[..i] + [o] == orders[..i + 1];
      if i == 0 {
        PrintingFirst(o);
      } else if o.price == price {
        PrintingJoins(orders[..i], o, past, Line(total, price, count), lines, quantity);
      } else {
        PrintingNext(orders[..i], o, past, Line(total, price, count), lines, quantity);
        past := past + [Line(total, price, count)];
      }
      if o.price != price {
        if price != -1 { lines := lines + [Line(quantity, price, count)]; }
        quantity, price, count := o.quantity, o.price, 1;
        total := o.quantity;
      } else {
        quantity, count := Narrow(quantity + o.quantity), count + 1;
        total := total + o.quantity;
      }
      i := i + 1;
    }
    lines := lines + [Line(quantity, price, count)];
    assert orders[..i] == orders[..];
  }

  // ---------- when the print is exact ----------

  lemma {:induction false} PricedAll(lines: seq<Line>)
    ensures |Priced(lines)| == |lines| <==> forall i :: 0 <= i < |lines| ==> lines[i].price != -1
    ensures |Priced(lines)| == |lines| ==> Priced(lines) == lines
  {
    if lines != [] {
      var n := |lines| - 1;
      PricedAll(lines[..n]);
      assert lines == lines[..n] + [lines[n]];
    }
  }

  /** What is printed is the grouping of the orders by price exactly if every total fits an
      int and no price but the lowest is -1. */
  lemma PrintedExactly(quotes: seq<Quote>)
    ensures var lines := Lines(quotes);
      Printout(quotes) == lines <==>
        && (forall i :: 0 <= i < |lines| ==> FitsInt(lines[i].quantity))
        && (forall i :: 0 <= i < |lines| - 1 ==> lines[i].price != -1)
  {
    var lines := Lines(quotes);
    if lines != [] {
      var n := |lines| - 1;
      PricedAll(lines[..n]);
      assert lines == lines[..n] + [lines[n]];
      forall i | 0 <= i < |lines|
        ensures Narrow(lines[i].quantity) == lines[i].quantity <==> FitsInt(lines[i].quantity)
      {
        StoredExactly(lines[i].quantity);
      }
      if Printout(quotes) == lines {
        assert |Priced(lines[..n])| == n;
        assert forall i :: 0 <= i < |lines| ==> lines[i].quantity == Printout(quotes)[i].quantity;
      }
    }
  }

  lemma {:induction false} PricedButOne(lines: seq<Line>, k: nat)
    requires k < |lines| && lines[k].price == -1
    requires forall i, j :: 0 <= i < j < |lines| ==> lines[i].price > lines[j].price
    ensures |Priced(lines)| == |lines| - 1
  {
    var n := |lines| - 1;
    if k == n { PricedAll(lines[..n]); } else { PricedButOne(lines[..n], k); }
  }

  /** One price -1 above others is missed in the print; the headline misses one at the top. */
  lemma LevelsMissed(lines: seq<Line>, k: nat)
    requires k < |lines| - 1 && lines[k].price == -1
    requires forall i, j :: 0 <= i < j < |lines| ==> lines[i].price > lines[j].price
    ensures |Priced(lines[..|lines| - 1])| == |lines| - 2
    ensures lines[0].price == -1 <==> k == 0
    ensures forall i :: 0 <= i < |lines| && lines[i].price == -1 ==> i == k
  {
    PricedButOne(lines[..|lines| - 1], k);
  }

  lemma LevelsPriced(lines: seq<Line>)
    requires lines != [] && forall i, j :: 0 <= i < j < |lines| ==> lines[i].price > lines[j].price
    ensures var n := |lines| - 1;
      |Priced(lines[..n])| == n - (if lines[0].price == -1 then 1 else 0) <==>
        forall k :: 0 <= k < |lines| && lines[k].price == -1 ==> (k == 0) != (k == n)
  {
    var n := |lines| - 1;
    if k :| 0 <= k < n && lines[k].price == -1 {
      LevelsMissed(lines, k);
    } else {
      PricedAll(lines[..n]);
    }
  }

  /** The headline counts the lines printed exactly if the price -1 is the highest or the
      lowest there is but not both, or not there. */
  lemma LevelsExactly(quotes: seq<Quote>)
    requires Descending(quotes)
    ensures var lines := Lines(quotes);
      Levels(quotes) == |Printout(quotes)| <==>
        forall k :: 0 <= k < |lines| && lines[k].price == -1 ==> (k == 0) != (k == |lines| - 1)
  {
    LinesGroup(quotes);
    var lines := Lines(quotes);
    if lines != [] {
      LinesFirst(quotes);
      LevelsPriced(lines);
      assert |Printout(quotes)| == |Priced(lines[..|lines| - 1])| + 1;
    }
  }

  lemma LinesFirst(quotes: seq<Quote>)
    requires quotes != []
    ensures Lines(quotes) != [] && Lines(quotes)[0].price == quotes[0].price
  {
  }

  /** The orders of one side in the order they are printed: highest price first. */
  function Shown(m: Market, side: Side, p: nat): seq<Quote>
    requires p < |m.buy| == |m.sell|
  {
    if side == Buy then Resting(m, side, p) else Reverse(Resting(m, side, p))
  }

  lemma ShownDescending(m: Market, side: Side, p: nat)
    requires Trades(m, p)
    ensures Descending(Shown(m, side, p))
  {
    BookStored(m, side, p);
    var tree := Book(m, side, p);
    forall i, j | 0 <= i < j < |tree|
      ensures if side == Sell then m.store[tree[i]].price <= m.store[tree[j]].price
              else m.store[tree[i]].price >= m.store[tree[j]].price
    {
      assert Before(side, m.store[tree[i]], m.store[tree[j]]);
    }
  }

  /** One side of a product's book: the level count of the headline and the lines. */
  method PrintSide(quotes: seq<Quote>) returns (levels: int, lines: seq<Line>)
    ensures levels == Levels(quotes) && lines == Printout(quotes)
  {
    var h := Gather(quotes);
    levels := h.levels;
    lines := PrintLines(h.orders);
  }

  // ---------- the print of a book ----------

  ghost predicate SmallQuotes(quotes: seq<Quote>) {
    forall i :: 0 <= i < |quotes| ==> 0 < quotes[i].quantity <= FIELD_MAX && 0 < quotes[i].price
  }

  lemma ShownSmall(m: Market, side: Side, p: nat)
    requires Trades(m, p) && Limited(m.store)
    ensures SmallQuotes(Shown(m, side, p))
  {
    BookStored(m, side, p);
  }

  lemma {:induction false} TotalBound(quotes: seq<Quote>, price: int)
    requires SmallQuotes(quotes)
    ensures 0 <= QuantityAt(quotes, price) <= FIELD_MAX * CountAt(quotes, price)
    ensures price <= 0 ==> CountAt(quotes, price) == 0
  {
    if quotes != [] { TotalBound(quotes[1..], price); }
  }

  /** With orders of one-line messages, of which at most 2147 rest at any one price, the
      print is one line for every price, highest first, with its exact total, and the
      headline counts the lines. */
  lemma BookPrinted(m: Market, side: Side, p: nat)
    requires Trades(m, p) && Limited(m.store)
    requires forall price :: CountAt(Shown(m, side, p), price) <= 2147
    ensures var quotes := Shown(m, side, p);
      && Printout(quotes) == Lines(quotes) && GroupsByPrice(Printout(quotes), quotes)
      && Levels(quotes) == |Printout(quotes)|
  {
    var quotes := Shown(m, side, p);
    ShownDescending(m, side, p);
    ShownSmall(m, side, p);
    LinesGroup(quotes);
    var lines := Lines(quotes);
    forall i | 0 <= i < |lines| ensures FitsInt(lines[i].quantity) && lines[i].price != -1 {
      assert TotalsAt(lines[i], quotes);
      TotalBound(quotes, lines[i].price);
    }
    PrintedExactly(quotes);
    LevelsExactly(quotes);
  }

  ghost predicate FullQuotes(quotes: seq<Quote>) {
    forall i :: 0 <= i < |quotes| ==> quotes[i].quantity == FIELD_MAX && quotes[i].price == FIELD_MAX
  }

  /** Orders of the largest quantity, all at one price, are on one line. */
  lemma {:induction false} OneLineOf(quotes: seq<Quote>)
    requires FullQuotes(quotes) && quotes != []
    ensures Lines(quotes) == [Line(FIELD_MAX * |quotes|, FIELD_MAX, |quotes|)]
  {
    if |quotes| > 1 { OneLineOf(quotes[1..]); } else { assert quotes[1..] == []; }
  }

  lemma OneLinePrinted(quotes: seq<Quote>, line: Line)
    requires Lines(quotes) == [line]
    ensures Printout(quotes) == Lines(quotes) <==> FitsInt(line.quantity)
  {
    StoredExactly(line.quantity);
    assert Printout(quotes)[0].quantity == Narrow(line.quantity);
  }

  /** Its total is printed as it is exactly if there are at most 2147 of them. */
  lemma FullLine(quotes: seq<Quote>)
    requires FullQuotes(quotes) && quotes != []
    ensures Printout(quotes) == Lines(quotes) <==> |quotes| <= 2147
  {
    OneLineOf(quotes);
    OneLinePrinted(quotes, Line(FIELD_MAX * |quotes|, FIELD_MAX, |quotes|));
  }
}
