/** What the parser makes of messages the pattern accepts for another line: words that only
    begin like a command's, and orders that end early. */
module MessageForms {
  import opened Orders
  import opened Markets
  import opened Commands
  import opened Numbers
  import opened Messages
  import opened Framing
  import opened MessageLines

  /** The word a command begins with. */
  function Kind(c: Command): string {
    match c
    case New(side, _, _, _, _) => if side == Buy then "BUY" else "SELL"
    case Change(_, _, _) => "AMEND"
    case Cancel(_) => "CANCEL"
  }

  /** What follows it. */
  function Behind(c: Command): string {
    match c
    case New(_, number, product, quantity, price) =>
      Decimal(number) + " " + (product + " " + (Decimal(quantity) + " " + Decimal(price)))
    case Change(number, quantity, price) => Decimal(number) + " " + (Decimal(quantity) + " " + Decimal(price))
    case Cancel(number) => Decimal(number)
  }

  lemma BehindSplit(c: Command)
    ensures Body(c) == Kind(c) + " " + Behind(c)
    ensures Fields(c) == [Kind(c)] + Split(Behind(c))
  {
    SplitFields(c);
    SplitTwo(Kind(c), Behind(c));
  }

  lemma KindTaken(c: Command, more: string)
    ensures var kind := Kind(c) + more;
      && (Starts(kind, "BUY") <==> c.New? && c.side == Buy)
      && (Starts(kind, "SELL") <==> c.New? && c.side == Sell)
      && (Starts(kind, "AMEND") <==> c.Change?)
      && (Starts(kind, "CANCEL") <==> c.Cancel?)
  {
    var kind := Kind(c) + more;
    assert kind[0] == Kind(c)[0] && kind[..|Kind(c)|] == Kind(c);
    assert Starts(kind, "BUY") ==> kind[0] == "BUY"[0];
    assert Starts(kind, "SELL") ==> kind[0] == "SELL"[0];
    assert Starts(kind, "AMEND") ==> kind[0] == "AMEND"[0];
    assert Starts(kind, "CANCEL") ==> kind[0] == "CANCEL"[0];
  }

  lemma LongerParts(c: Command, more: string)
    requires ' ' !in more
    ensures Split(Kind(c) + more + " " + Behind(c)) == [Kind(c) + more] + Fields(c)[1..]
  {
    BehindSplit(c);
    SplitTwo(Kind(c) + more, Behind(c));
  }

  lemma LongerTokens(c: Command, more: string)
    requires Writable(c) && ' ' !in more
    ensures Tokens(Split(Kind(c) + more + " " + Behind(c) + SECOND_LINE + ";")) ==
      Ended([Kind(c) + more] + Fields(c)[1..], "\nCANCEL") + ["1;"]
  {
    var f := [Kind(c) + more] + Fields(c)[1..];
    LongerParts(c, more);
    SecondLineSplit(Kind(c) + more + " " + Behind(c));
    FieldsFull(c);
    assert forall i :: 0 <= i < |f| ==> f[i] != "";
    AllTokens(Ended(f, "\nCANCEL") + ["1;"]);
  }

  lemma NewTaken(msg: string, c: Command, more: string)
    requires c.New? && FitsInt(c.number)
    requires Tokens(Split(msg)) ==
      [Kind(c) + more, Decimal(c.number), c.product, Decimal(c.quantity), Decimal(c.price) + "\nCANCEL", "1;"]
    ensures Parse(msg) == Read(c)
  {
    KindTaken(c, more);
    ReadField(c.number, "");
    ReadField(c.quantity, "");
    ReadField(c.price, "\nCANCEL");
  }

  lemma ChangeTaken(msg: string, c: Command, more: string)
    requires c.Change? && FitsInt(c.number)
    requires Tokens(Split(msg)) ==
      [Kind(c) + more, Decimal(c.number), Decimal(c.quantity), Decimal(c.price) + "\nCANCEL", "1;"]
    ensures Parse(msg) == Read(c)
  {
    KindTaken(c, more);
    ReadField(c.number, "");
    ReadField(c.quantity, "");
    ReadField(c.price, "\nCANCEL");
  }

  lemma CancelTaken(msg: string, c: Command, more: string)
    requires c.Cancel? && FitsInt(c.number)
    requires Tokens(Split(msg)) == [Kind(c) + more, Decimal(c.number) + "\nCANCEL", "1;"]
    ensures Parse(msg) == Read(c)
  {
    KindTaken(c, more);
    ReadField(c.number, "\nCANCEL");
  }

  lemma LongerRead(c: Command, more: string)
    requires Writable(c) && ' ' !in more
    ensures Parse(Kind(c) + more + " " + Behind(c) + SECOND_LINE + ";") == Read(c)
  {
    var msg := Kind(c) + more + " " + Behind(c) + SECOND_LINE + ";";
    LongerTokens(c, more);
    FieldsFull(c);
    match c {
      case New(_, _, _, _, _) => NewTaken(msg, c, more);
      case Change(_, _, _) => ChangeTaken(msg, c, more);
      case Cancel(_) => CancelTaken(msg, c, more);
    }
  }

  /** A word that only begins with a command's is read as the command: BUYING as BUY. */
  lemma LongerWord(c: Command, more: string)
    requires Writable(c) && ' ' !in more && ';' !in more && '\0' !in more
    ensures var msg := Kind(c) + more + " " + Behind(c) + SECOND_LINE + ";";
      Matches(msg) && Parse(msg) == Read(c)
  {
    BehindSplit(c);
    BodyWithout(c, ';');
    BodyWithout(c, '\0');
    SecondLineAccepted(Kind(c) + more + " " + Behind(c));
    LongerRead(c, more);
  }

  /** An amendment's fields are its number, the quantity and the price, in this order. */
  lemma AmendmentRead()
    ensures Matches("AMEND 3 7 9;") && Parse("AMEND 3 7 9;") == Read(Change(3, 7, 9))
  {
    var c := Change(3, 7, 9);
    assert Decimal(3) == "3" && Decimal(7) == "7" && Decimal(9) == "9";
    assert "AMEND" + " " + ("3" + " " + ("7" + " " + "9")) + ";" == "AMEND 3 7 9;";
    ComposedAccepted(c);
    ParseFields(c);
  }

  lemma BuyShort(msg: string)
    requires Tokens(Split(msg)) == ["BUY" + "\nCANCEL", "1;"]
    ensures Parse(msg) == Short(New(Buy, 1, "", 0, 0), false)
  {
    var kind := "BUY" + "\nCANCEL";
    assert "BUY" <= kind;
    assert Decimal(1) + ";" == "1;";
    ReadField(1, ";");
    assert ReadNumber("") == 0;
  }

  /** An order that ends with its first word: not even the product is there. */
  lemma FirstWordOnly()
    ensures Matches("BUY" + SECOND_LINE + ";")
    ensures Parse("BUY" + SECOND_LINE + ";") == Short(New(Buy, 1, "", 0, 0), false)
  {
    SecondLineAccepted("BUY");
    SecondLineSplit("BUY");
    SplitWord("BUY");
    assert Ended(["BUY"], "\nCANCEL") == ["BUY" + "\nCANCEL"];
    AllTokens(["BUY" + "\nCANCEL", "1;"]);
    BuyShort("BUY" + SECOND_LINE + ";");
  }

  lemma SellShort(msg: string)
    requires Tokens(Split(msg)) == ["SELL", "0" + "\nCANCEL", "1;"]
    ensures Parse(msg) == Short(New(Sell, 0, "1;", 0, 0), true)
  {
    KindsApart("SELL");
    assert Decimal(0) == "0";
    ReadField(0, "\nCANCEL");
    assert ReadNumber("") == 0;
  }

  /** One that ends with its number: the next line is taken for the product. */
  lemma NumberOnly()
    ensures Matches("SELL 0" + SECOND_LINE + ";")
    ensures Parse("SELL 0" + SECOND_LINE + ";") == Short(New(Sell, 0, "1;", 0, 0), true)
  {
    assert "SELL 0" == "SELL" + " " + "0";
    SecondLineAccepted("SELL 0");
    TwoWordTokens("SELL", "0");
    SellShort("SELL 0" + SECOND_LINE + ";");
  }

  /** A composed command is carried out as the command it is. */
  lemma ComposedCarried(m: Market, names: seq<string>, t: nat, c: Command)
    requires Serves(m, names, t) && InRange(c)
    ensures Carried(m, names, t, Parse(Compose(c))) == Process(m, names, t, c)
  {
    ParseFields(c);
  }

  /** An accepted message that holds no command does nothing. */
  lemma NothingCarried(m: Market, names: seq<string>, t: nat)
    requires Serves(m, names, t)
    ensures Matches("A B" + SECOND_LINE + ";")
    ensures Carried(m, names, t, Parse("A B" + SECOND_LINE + ";")) == Outcome(m, [], -1)
  {
    AcceptedSecondLine();
  }
}
