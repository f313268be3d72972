/** The messages of one line that the pattern accepts, character by character. */
module Grammar {
  import opened Numbers
  import opened Messages

  /** Of at least one and at most so many characters, all of an alphabet. */
  predicate Over(s: string, most: nat, alphabet: string) {
    1 <= |s| <= most && forall i :: 0 <= i < |s| ==> s[i] in alphabet
  }

  predicate Number(s: string) {
    Over(s, 6, "0123456789")
  }

  predicate Amount(s: string) {
    Over(s, 6, "0123456789") && s[0] != '0'
  }

  predicate Name(s: string) {
    Over(s, 16, "abcdefghijklmnopqrstuvwxyz" + "ABCDEFGHIJKLMNOPQRSTUVWXYZ" + "0123456789")
  }

  ghost predicate Cancellation(s: string) {
    exists number: string :: s == "CANCEL " + number && Number(number)
  }

  ghost predicate Amendment(s: string) {
    exists number: string, quantity: string, price: string ::
      s == "AMEND " + number + " " + quantity + " " + price && Number(number) && Amount(quantity) && Amount(price)
  }

  ghost predicate Ordering(s: string) {
    exists side: string, number: string, product: string, quantity: string, price: string ::
      && s == side + " " + number + " " + product + " " + quantity + " " + price
      && side in ["BUY", "SELL"] && Number(number) && Name(product) && Amount(quantity) && Amount(price)
  }

  lemma Alphabets(c: char)
    ensures IsDigit(c) <==> c in "0123456789"
    ensures 'a' <= c <= 'z' <==> c in "abcdefghijklmnopqrstuvwxyz"
    ensures 'A' <= c <= 'Z' <==> c in "ABCDEFGHIJKLMNOPQRSTUVWXYZ"
  {
  }

  lemma FieldsOver(s: string)
    ensures Number(s) <==> IsId(s)
    ensures Amount(s) <==> IsAmount(s)
    ensures Name(s) <==> IsName(s)
  {
    forall i | 0 <= i < |s|
      ensures IsDigit(s[i]) <==> s[i] in "0123456789"
      ensures NameChar(s[i]) <==>
        s[i] in "abcdefghijklmnopqrstuvwxyz" + "ABCDEFGHIJKLMNOPQRSTUVWXYZ" + "0123456789"
    {
      Alphabets(s[i]);
    }
  }

  /** The parts with a blank between each two. */
  function Joined(parts: seq<string>): string
    requires parts != []
  {
    if |parts| == 1 then parts[0] else parts[0] + " " + Joined(parts[1..])
  }

  lemma {:induction false} JoinedSplit(s: string)
    ensures Joined(Split(s)) == s
  {
    if s != [] {
      var r := Split(s[1..]);
      JoinedSplit(s[1..]);
      assert s == [s[0]] + s[1..];
      if s[0] == ' ' {
        assert ([""] + r)[1..] == r;
      } else {
        var first := [s[0]] + r[0];
        assert ([first] + r[1..])[1..] == r[1..];
        if |r| > 1 { assert first + " " + Joined(r[1..]) == [s[0]] + (r[0] + " " + Joined(r[1..])); }
      }
    }
  }

  /** Splitting takes nothing away, and parts without blanks are found again. */
  lemma {:induction false} SplitJoined(parts: seq<string>)
    requires parts != [] && forall i :: 0 <= i < |parts| ==> ' ' !in parts[i]
    ensures Split(Joined(parts)) == parts
  {
    if |parts| == 1 { SplitWord(parts[0]); } else {
      SplitTwo(parts[0], Joined(parts[1..]));
      SplitJoined(parts[1..]);
    }
  }

  lemma StatementWords(f: seq<string>)
    requires Statement(f)
    ensures forall i :: 0 <= i < |f| ==> ' ' !in f[i]
  {
    forall i | 0 <= i < |f| ensures ' ' !in f[i] {
      if i == 0 { Blankless(f[0]); } else if i == 1 { Blankless(f[1]); } else { Blankless(f[i]); }
    }
  }

  lemma Blankless(s: string)
    requires IsId(s) || IsName(s) || s in ["CANCEL", "AMEND", "BUY", "SELL"]
    ensures ' ' !in s
  {
  }

  lemma JoinedTwo(f: seq<string>)
    requires |f| == 2
    ensures Joined(f) == f[0] + " " + f[1]
  {
  }

  lemma JoinedFour(f: seq<string>)
    requires |f| == 4
    ensures Joined(f) == f[0] + " " + f[1] + " " + f[2] + " " + f[3]
  {
    JoinedTwo(f[2..]);
    assert f[1..][1..] == f[2..] && Joined(f) == f[0] + " " + (f[1] + " " + (f[2] + " " + f[3]));
  }

  lemma JoinedFive(f: seq<string>)
    requires |f| == 5
    ensures Joined(f) == f[0] + " " + f[1] + " " + f[2] + " " + f[3] + " " + f[4]
  {
    JoinedFour(f[1..]);
    assert Joined(f) == f[0] + " " + (f[1] + " " + f[2] + " " + f[3] + " " + f[4]);
  }

  lemma CancelParts(number: string)
    ensures Statement(["CANCEL", number]) <==> Number(number)
  {
    FieldsOver(number);
  }

  lemma SplitCancel(number: string)
    requires Statement(["CANCEL", number])
    ensures Split("CANCEL " + number) == ["CANCEL", number]
  {
    var f := ["CANCEL", number];
    JoinedTwo(f);
    StatementWords(f);
    SplitJoined(f);
    assert "CANCEL" + " " + number == "CANCEL " + number;
  }

  lemma CancelForm(s: string)
    ensures Cancellation(s) <==> Statement(Split(s)) && |Split(s)| == 2
  {
    if Cancellation(s) {
      var number :| s == "CANCEL " + number && Number(number);
      CancelParts(number);
      SplitCancel(number);
    }
    if Statement(Split(s)) && |Split(s)| == 2 {
      var f := Split(s);
      JoinedTwo(f);
      JoinedSplit(s);
      assert s == "CANCEL " + f[1];
      assert f == ["CANCEL", f[1]];
      CancelParts(f[1]);
    }
  }

  lemma AmendParts(number: string, quantity: string, price: string)
    ensures Statement(["AMEND", number, quantity, price]) <==> Number(number) && Amount(quantity) && Amount(price)
  {
    FieldsOver(number);
    FieldsOver(quantity);
    FieldsOver(price);
  }

  lemma SplitAmend(number: string, quantity: string, price: string)
    requires Statement(["AMEND", number, quantity, price])
    ensures Split("AMEND " + number + " " + quantity + " " + price) == ["AMEND", number, quantity, price]
  {
    var f := ["AMEND", number, quantity, price];
    JoinedFour(f);
    StatementWords(f);
    SplitJoined(f);
    assert "AMEND" + " " + number == "AMEND " + number;
  }

  lemma AmendForm(s: string)
    ensures Amendment(s) <==> Statement(Split(s)) && |Split(s)| == 4
  {
    if Amendment(s) {
      var number: string, quantity: string, price: string :|
        s == "AMEND " + number + " " + quantity + " " + price && Number(number) && Amount(quantity) && Amount(price);
      AmendParts(number, quantity, price);
      SplitAmend(number, quantity, price);
    }
    if Statement(Split(s)) && |Split(s)| == 4 {
      var f := Split(s);
      JoinedFour(f);
      JoinedSplit(s);
      assert f[0] + " " + f[1] == "AMEND " + f[1];
      assert f == ["AMEND", f[1], f[2], f[3]];
      AmendParts(f[1], f[2], f[3]);
    }
  }

  lemma OrderParts(side: string, number: string, product: string, quantity: string, price: string)
    ensures Statement([side, number, product, quantity, price]) <==>
      side in ["BUY", "SELL"] && Number(number) && Name(product) && Amount(quantity) && Amount(price)
    ensures Statement([side, number, product, quantity, price]) ==>
      Split(side + " " + number + " " + product + " " + quantity + " " + price) ==
        [side, number, product, quantity, price]
  {
    var f := [side, number, product, quantity, price];
    FieldsOver(number);
    FieldsOver(product);
    FieldsOver(quantity);
    FieldsOver(price);
    if Statement(f) {
      JoinedFive(f);
      StatementWords(f);
      SplitJoined(f);
    }
  }

  lemma OrderForm(s: string)
    ensures Ordering(s) <==> Statement(Split(s)) && |Split(s)| == 5
  {
    if Ordering(s) {
      var side: string, number: string, product: string, quantity: string, price: string :|
        && s == side + " " + number + " " + product + " " + quantity + " " + price
        && side in ["BUY", "SELL"] && Number(number) && Name(product) && Amount(quantity) && Amount(price);
      OrderParts(side, number, product, quantity, price);
    }
    if Statement(Split(s)) && |Split(s)| == 5 {
      var f := Split(s);
      JoinedFive(f);
      JoinedSplit(s);
      assert f == [f[0], f[1], f[2], f[3], f[4]];
      OrderParts(f[0], f[1], f[2], f[3], f[4]);
    }
  }

  /** Exactly these messages of one line are accepted. */
  lemma OneLineGrammar(body: string)
    requires ';' !in body && '\n' !in body
    ensures Matches(body + ";") <==> Cancellation(body) || Amendment(body) || Ordering(body)
  {
    if Matches(body + ";") { OneLine(body); }
    if Statement(Split(body)) { StatementMatches(body); }
    CancelForm(body);
    AmendForm(body);
    OrderForm(body);
  }

  /** So a product's name is any 1 to 16 letters and digits. */
  lemma NameAccepted(name: string)
    requires ';' !in name && '\n' !in name
    ensures Matches("BUY 0 " + name + " 1 1;") <==> 1 <= |name| <= 16 && forall i :: 0 <= i < |name| ==>
      name[i] in "abcdefghijklmnopqrstuvwxyz" + "ABCDEFGHIJKLMNOPQRSTUVWXYZ" + "0123456789"
  {
    var body := "BUY 0 " + name + " 1 1";
    NameParts(name);
    FieldsOver(name);
    if Matches(body + ";") { OneLine(body); }
    if Statement(Split(body)) { StatementMatches(body); }
    assert body + ";" == "BUY 0 " + name + " 1 1;";
  }

  lemma NameParts(name: string)
    ensures var f := Split("BUY 0 " + name + " 1 1"); Statement(f) <==> IsName(name)
  {
    var tail := "1" + " " + "1";
    SplitTwo("1", "1");
    SplitWord("1");
    SplitJoin(name, tail);
    SplitThree("BUY", "0", name + " " + tail);
    SplitWord(name);
    if IsName(name) { Blankless(name); }
    assert "BUY 0 " + name + " 1 1" == "BUY" + " " + ("0" + " " + (name + " " + tail));
  }
}
