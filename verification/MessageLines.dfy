/** Messages of several lines: they are accepted for their last line alone and read from
    their first. */
module MessageLines {
  import opened OrderedSeq
  import opened Orders
  import opened Markets
  import opened Trading
  import opened Matching
  import opened Commands
  import opened Runs
  import opened Numbers
  import opened Messages
  import opened Framing

  const SECOND_LINE := "\nCANCEL 1"

  /** The number of a command fits an int, and its product is one part of a message. */
  predicate Writable(c: Command) {
    && FitsInt(c.number)
    && (c.New? ==> c.product != "" && ' ' !in c.product && ';' !in c.product && '\0' !in c.product)
  }

  lemma SecondLineSplit(body: string)
    ensures Split(body + SECOND_LINE + ";") == Ended(Split(body), "\nCANCEL") + ["1;"]
  {
    assert body + SECOND_LINE + ";" == (body + "\nCANCEL") + " " + "1;";
    SplitJoin(body + "\nCANCEL", "1;");
    SplitEnd(body, "\nCANCEL");
    SplitWord("1;");
  }

  lemma SecondLineAccepted(body: string)
    requires ';' !in body && '\0' !in body
    ensures Matches(body + SECOND_LINE + ";")
  {
    var all, n := body + SECOND_LINE, |body| + 1;
    var last := all[n..];
    assert last == "CANCEL" + " " + "1" && all[n - 1] == '\n';
    assert forall k :: n <= k < |all| ==> all[k] == last[k - n];
    assert LineStart(all) == n;
    SplitTwo("CANCEL", "1");
    SplitWord("1");
    LastLineDecides(all);
  }

  /** The parts of a command's body with the second line behind it. */
  lemma SecondLineTokens(c: Command)
    requires Writable(c)
    ensures Tokens(Split(Body(c) + SECOND_LINE + ";")) == Ended(Fields(c), "\nCANCEL") + ["1;"]
  {
    SecondLineSplit(Body(c));
    SplitFields(c);
    FieldsFull(c);
    AllTokens(Ended(Fields(c), "\nCANCEL") + ["1;"]);
  }

  lemma FieldsFull(c: Command)
    requires Writable(c)
    ensures forall i :: 0 <= i < |Fields(c)| ==> Fields(c)[i] != ""
    ensures c.New? ==> Fields(c) == [Word(c.side), Decimal(c.number), c.product, Decimal(c.quantity), Decimal(c.price)]
  {
    DecimalShape(c.number);
    if c.New? { SplitWord(c.product); }
    if !c.Cancel? {
      DecimalShape(c.quantity);
      DecimalShape(c.price);
    }
  }

  /** In front of a second line that is accepted, every command is read, whatever its
      numbers: negative, zero, or of more than six digits. */
  lemma SecondLineReads(c: Command)
    requires Writable(c)
    ensures Matches(Body(c) + SECOND_LINE + ";") && Parse(Body(c) + SECOND_LINE + ";") == Read(c)
  {
    assert Matches(Body(c) + SECOND_LINE + ";") by {
      BodyWithout(c, ';');
      BodyWithout(c, '\0');
      SecondLineAccepted(Body(c));
    }
    SecondLineTokens(c);
    if c.New? { SplitWord(c.product); }
    ReadsAs(Body(c) + SECOND_LINE + ";", c, "\nCANCEL");
  }

  lemma TwoWordTokens(a: string, b: string)
    requires a != "" && b != "" && ' ' !in a && ' ' !in b
    ensures Tokens(Split(a + " " + b + SECOND_LINE + ";")) == [a, b + "\nCANCEL", "1;"]
  {
    SplitTwo(a, b);
    SplitWord(b);
    SecondLineSplit(a + " " + b);
    assert Ended([a, b], "\nCANCEL") == [a, b + "\nCANCEL"];
    AllTokens([a, b + "\nCANCEL", "1;"]);
  }

  /** Fields can be missing from an accepted message, as from "AMEND 0\nCANCEL 1;". */
  lemma FieldMissing(number: int)
    requires FitsInt(number)
    ensures var msg := "AMEND" + " " + Decimal(number) + SECOND_LINE + ";";
      Matches(msg) && Parse(msg) == Short(Change(number, 1, 0), true)
  {
    var body := "AMEND" + " " + Decimal(number);
    DecimalShape(number);
    DecimalWithout(number, ';');
    DecimalWithout(number, '\0');
    SecondLineAccepted(body);
    TwoWordTokens("AMEND", Decimal(number));
    ReadsShort(body + SECOND_LINE + ";", number);
  }

  lemma ChangeShort(msg: string, number: string, quantity: string)
    requires Tokens(Split(msg)) == ["AMEND", number, quantity]
    ensures Parse(msg) == Short(Change(ReadNumber(number), ReadNumber(quantity), 0), true)
  {
    KindsApart("AMEND");
    assert ReadNumber("") == 0;
  }

  lemma ReadsShort(msg: string, number: int)
    requires FitsInt(number) && Tokens(Split(msg)) == ["AMEND", Decimal(number) + "\nCANCEL", "1;"]
    ensures Parse(msg) == Short(Change(number, 1, 0), true)
  {
    ChangeShort(msg, Decimal(number) + "\nCANCEL", "1;");
    ReadField(number, "\nCANCEL");
    assert Decimal(1) + ";" == "1;";
    ReadField(1, ";");
  }

  /** An accepted message can hold no command at all. */
  lemma AcceptedSecondLine()
    ensures Matches("A B" + SECOND_LINE + ";") && Parse("A B" + SECOND_LINE + ";") == Unknown
  {
    SecondLineAccepted("A B");
    assert "A B" == "A" + " " + "B";
    TwoWordTokens("A", "B");
    var kind := "A";
    assert |kind| == 1;
  }

  lemma IntLength(n: int)
    requires FitsInt(n)
    ensures |Decimal(n)| <= 11
  {
    DigitsLength(if n < 0 then -n else n, 10);
    assert Pow10(6) == 1_000_000;
    assert Pow10(10) == 10_000 * Pow10(6);
  }

  /** The message of a new order with a second line behind it. */
  function TwoLines(side: Side, number: nat, quantity: Int, price: Int): string {
    Body(New(side, number, "GPU", quantity, price)) + SECOND_LINE + ";"
  }

  /** A message is framed whole, accepted, and read as a command. */
  ghost predicate Arrives(msg: string, c: Command) {
    Status(msg) > 0 && Message(msg) == msg && Rest(msg) == "" && Matches(msg) && Parse(msg) == Read(c)
  }

  lemma TwoLinesReceived(side: Side, number: nat, quantity: Int, price: Int)
    requires number < 10
    ensures Arrives(TwoLines(side, number, quantity, price), New(side, number, "GPU", quantity, price))
  {
    var c := New(side, number, "GPU", quantity, price);
    var body := Body(c) + SECOND_LINE;
    SecondLineReads(c);
    BodyWithout(c, ';');
    IntLength(quantity);
    IntLength(price);
    assert |Decimal(number)| == 1;
    assert |body| < MAX_BUF - 1;
    assert body + ";" + "" == body + ";";
    FrameExact(body, "");
  }

  /** One product, one trader, and nothing entered: an opening. */
  predicate Bare(m: Market) {
    m.store == map[] && m.buy == [[]] && m.sell == [[]] && |m.traders| == 1 && m.traders[0].next == 0 && m.issued == 0
  }

  lemma FirstEntered(m: Market, side: Side, quantity: Int, price: Int)
    requires Bare(m)
    ensures var c := New(side, 0, "GPU", quantity, price);
      && !Refused(m, ["GPU"], 0, c)
      && Entered(m, ["GPU"], 0, c) == Order(side, 0, quantity, price, 0)
      && Book(m, Opposite(side), 0) == []
  {
    var names := ["GPU"];
    assert names[0] == "GPU";
  }

  /** The opening with one product and one trader. */
  lemma BareOpening(products: nat, traders: nat)
    ensures Steady(Opening(products, traders))
    ensures Bare(Opening(products, traders)) <==> products == traders == 1
  {
    var m := Opening(products, traders);
    OpeningSteady(products, traders);
    if products == 1 { assert m.buy == [[]] && m.sell == [[]]; }
  }

  lemma SteadyServes(m: Market)
    requires Steady(m) && Bare(m)
    ensures Serves(m, ["GPU"], 0)
  {
  }

  /** The first order there is rests as it was entered, whatever its numbers. */
  lemma FirstRests(m: Market, side: Side, quantity: Int, price: Int)
    requires Steady(m) && Bare(m)
    ensures Serves(m, ["GPU"], 0)
    ensures var r := Process(m, ["GPU"], 0, New(side, 0, "GPU", quantity, price));
      && Steady(r.market) && r.fills == []
      && r.market.store == map[Id(0, 0) := Order(side, 0, quantity, price, 0)]
  {
    SteadyServes(m);
    FirstEntered(m, side, quantity, price);
    var c := New(side, 0, "GPU", quantity, price);
    RestsWhole(m, ["GPU"], 0, c);
    assert Steady(Process(m, ["GPU"], 0, c).market) by { ProcessSteady(m, ["GPU"], 0, c); }
  }

  /** So quantities and prices need not be positive: any two numbers that fit an int come
      through framing, pattern and parser, and rest in the book as an order. */
  lemma AnyNumbersRest(m: Market, side: Side, quantity: Int, price: Int)
    requires Bare(m) && Steady(m)
    ensures Serves(m, ["GPU"], 0)
    ensures var c := New(side, 0, "GPU", quantity, price);
      && Arrives(TwoLines(side, 0, quantity, price), c)
      && var m' := Process(m, ["GPU"], 0, c).market;
        && Steady(m') && m'.store == map[Id(0, 0) := Order(side, 0, quantity, price, 0)]
        && (Positive(m'.store) <==> quantity > 0 && price > 0)
  {
    TwoLinesReceived(side, 0, quantity, price);
    FirstRests(m, side, quantity, price);
    OnePositive(Id(0, 0), Order(side, 0, quantity, price, 0));
  }

  lemma OnePositive(id: Id, o: Order)
    ensures Positive(map[id := o]) <==> o.quantity > 0 && o.price > 0
  {
    assert id in map[id := o];
  }

  lemma ZeroText()
    ensures TwoLines(Sell, 0, 0, 5) == "SELL 0 GPU 0 5\nCANCEL 1;"
  {
    assert Decimal(0) == "0" && Decimal(5) == "5";
  }

  lemma NegativeText()
    ensures TwoLines(Buy, 0, -5, 1) == "BUY 0 GPU -5 1\nCANCEL 1;"
  {
    assert Decimal(0) == "0" && Decimal(-5) == "-5" && Decimal(1) == "1";
  }

  /** An order of quantity 0. */
  lemma NothingForSale(m: Market)
    requires Bare(m) && Steady(m)
    ensures var c := New(Sell, 0, "GPU", 0, 5);
      && Serves(m, ["GPU"], 0) && Arrives("SELL 0 GPU 0 5\nCANCEL 1;", c)
      && !Positive(Process(m, ["GPU"], 0, c).market.store)
  {
    ZeroText();
    AnyNumbersRest(m, Sell, 0, 5);
  }

  /** An order of a negative quantity. */
  lemma LessThanNothing(m: Market)
    requires Bare(m) && Steady(m)
    ensures var c := New(Buy, 0, "GPU", -5, 1);
      && Serves(m, ["GPU"], 0) && Arrives("BUY 0 GPU -5 1\nCANCEL 1;", c)
      && !Positive(Process(m, ["GPU"], 0, c).market.store)
  {
    NegativeText();
    AnyNumbersRest(m, Buy, -5, 1);
  }

  lemma {:induction false} TwoTokens(parts: seq<string>, i: nat, j: nat)
    requires i < j < |parts| && parts[i] != "" && parts[j] != ""
    ensures |Tokens(parts)| >= 2
  {
    if i == 0 { OneToken(parts[1..], j - 1); } else { TwoTokens(parts[1..], i - 1, j - 1); }
  }

  lemma {:induction false} OneToken(parts: seq<string>, i: nat)
    requires i < |parts| && parts[i] != ""
    ensures |Tokens(parts)| >= 1
  {
    if i > 0 { OneToken(parts[1..], i - 1); }
  }

  /** Every accepted message has a first and a second part that are not missing. */
  lemma KindAndNumber(body: string)
    requires ';' !in body && Matches(body + ";")
    ensures |Tokens(Split(body + ";"))| >= 2
  {
    LastLineDecides(body);
    var last := LastLine(body);
    var before := body[..LineStart(body)];
    assert body == before + last;
    SplitGlue(before, last);
    SplitEnd(body, ";");
    var n, f := |Split(before)|, Split(last);
    var parts := Split(body + ";");
    assert parts[n - 1] != "" && parts[n] != "" by {
      assert Split(body)[n - 1] == Split(before)[n - 1] + f[0] && Split(body)[n] == f[1];
    }
    TwoTokens(parts, n - 1, n);
  }

  /** An accepted message of one line is a command within the limits. */
  lemma OneLineLegal(body: string)
    requires ';' !in body && Matches(body + ";") && '\n' !in body
    ensures Parse(body + ";").Read? && InRange(Parse(body + ";").command)
  {
    OneLine(body);
    AcceptedLegal(body);
  }

  /** Whether the code gets by without a field that is missing: only a new order can, if
      its number or its product is refused first. */
  predicate Answered(m: Market, names: seq<string>, t: nat, p: Parsed)
    requires t < |m.traders|
  {
    p.Short? ==>
      && p.command.New?
      && (p.command.number != m.traders[t].next || (p.named && p.command.product !in names))
  }

  /** What a message does. */
  ghost function Carried(m: Market, names: seq<string>, t: nat, p: Parsed): Outcome
    requires Serves(m, names, t)
  {
    if p.Unknown? then Outcome(m, [], -1) else Process(m, names, t, p.command)
  }

  lemma ShortRefused(m: Market, names: seq<string>, t: nat, p: Parsed)
    requires Serves(m, names, t) && Answered(m, names, t, p) && p.Short?
    ensures Carried(m, names, t, p) == Outcome(m, [], -1)
  {
    RefusedOrNot(m, names, t, p.command);
  }
}
