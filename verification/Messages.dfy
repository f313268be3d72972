/** Messages: how they are composed, framed, checked against the pattern and read back. */
module Messages {
  import opened OrderedSeq
  import opened Orders
  import opened Accounts
  import opened Commands
  import opened Runs
  import opened Numbers

  // ---------- words ----------

  /** The parts between blanks, empty ones included. */
  function Split(s: string): (r: seq<string>)
    ensures |r| > 0
  {
    if s == [] then [""]
    else
      var r := Split(s[1..]);
      if s[0] == ' ' then [""] + r else [[s[0]] + r[0]] + r[1..]
  }

  lemma {:induction false} SplitJoin(a: string, b: string)
    ensures Split(a + " " + b) == Split(a) + Split(b)
  {
    var s := a + " " + b;
    if a == [] {
      assert s[1..] == b;
    } else {
      assert s[1..] == a[1..] + " " + b;
      SplitJoin(a[1..], b);
    }
  }

  lemma {:induction false} SplitWord(s: string)
    ensures ' ' !in s <==> |Split(s)| == 1
    ensures ' ' !in s ==> Split(s) == [s]
  {
    if s != [] {
      SplitWord(s[1..]);
      assert s == [s[0]] + s[1..];
    }
  }

  /** What strtok with a blank yields: the parts that are not empty. */
  function Tokens(parts: seq<string>): seq<string> {
    if parts == [] then [] else (if parts[0] == "" then [] else [parts[0]]) + Tokens(parts[1..])
  }

  lemma {:induction false} AllTokens(parts: seq<string>)
    requires forall i :: 0 <= i < |parts| ==> parts[i] != ""
    ensures Tokens(parts) == parts
  {
    if parts != [] { AllTokens(parts[1..]); }
  }

  /** A word behind the last part. */
  function Ended(parts: seq<string>, word: string): seq<string>
    requires parts != []
  {
    parts[..|parts| - 1] + [parts[|parts| - 1] + word]
  }

  lemma EndedPush(c: char, parts: seq<string>, word: string)
    requires parts != []
    ensures Ended([""] + parts, word) == [""] + Ended(parts, word)
    ensures Ended([[c] + parts[0]] + parts[1..], word) == [[c] + Ended(parts, word)[0]] + Ended(parts, word)[1..]
  {
    var whole, last := [[c] + parts[0]] + parts[1..], parts[|parts| - 1];
    if |parts| == 1 {
      assert ([c] + parts[0]) + word == [c] + (parts[0] + word);
    } else {
      assert whole[|whole| - 1] == last;
      assert whole[..|whole| - 1] == [[c] + parts[0]] + parts[1..|parts| - 1];
      assert Ended(parts, word)[0] == parts[0] && Ended(parts, word)[1..] == parts[1..|parts| - 1] + [last + word];
    }
  }

  /** Between two strings put together, the last part of one and the first of the other
      become one part. */
  lemma {:induction false} SplitGlue(s: string, w: string)
    ensures Split(s + w) == Ended(Split(s), Split(w)[0]) + Split(w)[1..]
  {
    if s == [] {
      assert s + w == w && "" + Split(w)[0] == Split(w)[0];
    } else {
      assert (s + w)[1..] == s[1..] + w;
      SplitGlue(s[1..], w);
      EndedPush(s[0], Split(s[1..]), Split(w)[0]);
    }
  }

  /** A word without a blank stays with the last part, as the semicolon of a message does. */
  lemma SplitEnd(s: string, word: string)
    requires ' ' !in word
    ensures Split(s + word) == Ended(Split(s), word)
  {
    SplitWord(word);
    SplitGlue(s, word);
  }

  // ---------- the pattern ----------

  predicate IsId(s: string) {
    1 <= |s| <= 6 && AllDigits(s)
  }

  predicate IsAmount(s: string) {
    1 <= |s| <= 6 && AllDigits(s) && s[0] != '0'
  }

  predicate NameChar(c: char) {
    IsDigit(c) || 'a' <= c <= 'z' || 'A' <= c <= 'Z'
  }

  predicate IsName(s: string) {
    1 <= |s| <= 16 && forall i :: 0 <= i < |s| ==> NameChar(s[i])
  }

  /** The alternatives of the pattern, part by part. */
  predicate Statement(f: seq<string>) {
    || (|f| == 2 && f[0] == "CANCEL" && IsId(f[1]))
    || (|f| == 4 && f[0] == "AMEND" && IsId(f[1]) && IsAmount(f[2]) && IsAmount(f[3]))
    || (|f| == 5 && (f[0] == "BUY" || f[0] == "SELL")
        && IsId(f[1]) && IsName(f[2]) && IsAmount(f[3]) && IsAmount(f[4]))
  }

  /** The pattern is found in a message: from the start of some line up to a semicolon,
      with no zero byte before it. */
  ghost predicate Matches(msg: string) {
    exists i, j :: MatchAt(msg, i, j)
  }

  predicate MatchAt(msg: string, i: int, j: int) {
    && 0 <= i <= j < |msg| && (i == 0 || msg[i - 1] == '\n') && msg[j] == ';' && '\0' !in msg[..j]
    && Statement(Split(msg[i..j]))
  }

  predicate PlainChar(c: char) {
    NameChar(c) || c == ' '
  }

  predicate Plain(s: string) {
    forall i :: 0 <= i < |s| ==> PlainChar(s[i])
  }

  lemma {:induction false} SplitPlain(s: string)
    requires forall i :: 0 <= i < |Split(s)| ==> Plain(Split(s)[i])
    ensures Plain(s)
  {
    if s != [] {
      var r := Split(s[1..]);
      if s[0] == ' ' {
        assert Split(s) == [""] + r;
        assert forall i :: 0 <= i < |r| ==> r[i] == Split(s)[i + 1];
      } else {
        var first := [s[0]] + r[0];
        assert Split(s) == [first] + r[1..] && Plain(first) && first[0] == s[0];
        assert forall i :: 0 <= i < |r[0]| ==> r[0][i] == first[i + 1];
        assert forall i :: 0 < i < |r| ==> r[i] == Split(s)[i];
      }
      SplitPlain(s[1..]);
    }
  }

  lemma PartPlain(part: string)
    requires part in ["CANCEL", "AMEND", "BUY", "SELL"] || IsId(part) || IsName(part)
    ensures Plain(part)
  {
  }

  lemma PartsPlain(f: seq<string>)
    requires Statement(f)
    ensures forall i :: 0 <= i < |f| ==> Plain(f[i])
  {
    forall i | 0 <= i < |f| ensures Plain(f[i]) {
      if i == 0 { PartPlain(f[0]); } else if i == 1 { PartPlain(f[1]); } else { PartPlain(f[i]); }
    }
  }

  /** A statement holds digits, letters and blanks only. */
  lemma StatementPlain(s: string)
    requires Statement(Split(s))
    ensures Plain(s) && '\n' !in s && '\0' !in s && ';' !in s
  {
    PartsPlain(Split(s));
    SplitPlain(s);
  }

  /** Where the last line starts. */
  function LineStart(s: string): (r: nat)
    ensures r <= |s| && (r == 0 || s[r - 1] == '\n')
    ensures forall k :: r <= k < |s| ==> s[k] != '\n'
  {
    if s == [] then 0
    else
      var n := |s| - 1;
      if s[n] == '\n' then |s| else LineStart(s[..n])
  }

  function LastLine(s: string): string {
    s[LineStart(s)..]
  }

  /** Where the pattern is found, the last line is, up to the semicolon. */
  lemma FoundInLast(body: string, i: int, j: int)
    requires ';' !in body && MatchAt(body + ";", i, j)
    ensures i == LineStart(body) && j == |body|
  {
    var msg := body + ";";
    assert forall k :: 0 <= k < |body| ==> msg[k] == body[k] && msg[k] in body;
    StatementPlain(msg[i..j]);
    assert forall k :: i <= k < j ==> msg[k] == msg[i..j][k - i];
  }

  /** A message with its only semicolon at the end is accepted exactly if its last line is
      a statement and no byte is zero, whatever its other lines are. */
  lemma LastLineDecides(body: string)
    requires ';' !in body
    ensures Matches(body + ";") <==> '\0' !in body && Statement(Split(LastLine(body)))
  {
    var msg, n := body + ";", LineStart(body);
    assert forall k :: 0 <= k < |body| ==> msg[k] == body[k] && msg[k] in body;
    assert msg[..|body|] == body && msg[n..|body|] == LastLine(body);
    if Matches(msg) {
      var i, j :| MatchAt(msg, i, j);
      FoundInLast(body, i, j);
    }
    if '\0' !in body && Statement(Split(LastLine(body))) { assert MatchAt(msg, n, |body|); }
  }

  /** An accepted message is a statement exactly if it is of one line. */
  lemma OneLine(body: string)
    requires ';' !in body && Matches(body + ";")
    ensures Statement(Split(body)) <==> '\n' !in body
  {
    LastLineDecides(body);
    if Statement(Split(body)) { StatementPlain(body); }
    if '\n' !in body { assert LineStart(body) == 0 && LastLine(body) == body; }
  }

  /** A statement is accepted. */
  lemma StatementMatches(body: string)
    requires Statement(Split(body))
    ensures Matches(body + ";") && ';' !in body
  {
    StatementPlain(body);
    assert LineStart(body) == 0 && LastLine(body) == body;
    LastLineDecides(body);
  }

  // ---------- composing and reading ----------

  function Word(side: Side): string {
    if side == Buy then "BUY" else "SELL"
  }

  /** The message for a command, without its semicolon. */
  function Body(c: Command): string {
    match c
    case New(side, number, product, quantity, price) =>
      Word(side) + " " + (Decimal(number) + " " + (product + " " + (Decimal(quantity) + " " + Decimal(price))))
    case Change(number, quantity, price) =>
      "AMEND" + " " + (Decimal(number) + " " + (Decimal(quantity) + " " + Decimal(price)))
    case Cancel(number) => "CANCEL" + " " + Decimal(number)
  }

  function Compose(c: Command): string {
    Body(c) + ";"
  }

  /** What the fields of a one-line message may be. */
  predicate InRange(c: Command) {
    SixDigits(c) && (c.New? ==> IsName(c.product))
  }

  /** What was read: a command; a command with a field missing, empty or 0 here, which may
      be the product's name or only numbers behind it; or none of the commands. */
  datatype Parsed = Read(command: Command) | Short(command: Command, named: bool) | Unknown

  function Part(t: seq<string>, i: nat): string {
    if i < |t| then t[i] else ""
  }

  predicate Starts(s: string, prefix: string) {
    prefix <= s
  }

  /** The command in a message, as its leading parts are read. */
  function Parse(msg: string): Parsed {
    var t := Tokens(Split(msg));
    var kind, number := Part(t, 0), ReadNumber(Part(t, 1));
    if Starts(kind, "BUY") || Starts(kind, "SELL") then
      var c := New(if Starts(kind, "BUY") then Buy else Sell, number, Part(t, 2),
        ReadNumber(Part(t, 3)), ReadNumber(Part(t, 4)));
      if |t| > 4 then Read(c) else Short(c, |t| > 2)
    else if Starts(kind, "AMEND") then
      var c := Change(number, ReadNumber(Part(t, 2)), ReadNumber(Part(t, 3)));
      if |t| > 3 then Read(c) else Short(c, true)
    else if Starts(kind, "CANCEL") then Read(Cancel(number))
    else Unknown
  }

  lemma KindsApart(kind: string)
    requires kind == "BUY" || kind == "SELL" || kind == "AMEND" || kind == "CANCEL"
    ensures Starts(kind, "BUY") <==> kind == "BUY"
    ensures Starts(kind, "SELL") <==> kind == "SELL"
    ensures Starts(kind, "AMEND") <==> kind == "AMEND"
    ensures Starts(kind, "CANCEL") <==> kind == "CANCEL"
  {
    var c := kind[0];
    assert Starts(kind, "BUY") ==> c == "BUY"[0];
    assert Starts(kind, "SELL") ==> c == "SELL"[0];
    assert Starts(kind, "AMEND") ==> c == "AMEND"[0];
    assert Starts(kind, "CANCEL") ==> c == "CANCEL"[0];
  }

  function Fields(c: Command): seq<string> {
    match c
    case New(side, number, product, quantity, price) =>
      [Word(side), Decimal(number)] + Split(product) + [Decimal(quantity), Decimal(price)]
    case Change(number, quantity, price) => ["AMEND", Decimal(number), Decimal(quantity), Decimal(price)]
    case Cancel(number) => ["CANCEL", Decimal(number)]
  }

  lemma DecimalShape(n: int)
    ensures ' ' !in Decimal(n) && ';' !in Decimal(n) && '\n' !in Decimal(n) && '\0' !in Decimal(n) && Decimal(n) != ""
    ensures IsId(Decimal(n)) <==> 0 <= n <= FIELD_MAX
    ensures IsAmount(Decimal(n)) <==> 0 < n <= FIELD_MAX
    ensures Split(Decimal(n)) == [Decimal(n)]
  {
    var m := if n < 0 then -n else n;
    DigitsShape(m);
    DigitsLength(m, 6);
    assert Pow10(6) == 1_000_000;
    if n < 0 { assert Decimal(n)[0] == '-'; }
    SplitWord(Decimal(n));
  }

  lemma SplitTwo(a: string, b: string)
    requires ' ' !in a
    ensures Split(a + " " + b) == [a] + Split(b)
  {
    SplitWord(a);
    SplitJoin(a, b);
  }

  lemma SplitNumbers(a: int, b: int)
    ensures Split(Decimal(a) + " " + Decimal(b)) == [Decimal(a), Decimal(b)]
  {
    DecimalShape(a);
    DecimalShape(b);
    SplitTwo(Decimal(a), Decimal(b));
  }

  lemma SplitNamed(product: string, quantity: Int, price: Int)
    ensures Split(product + " " + (Decimal(quantity) + " " + Decimal(price))) ==
      Split(product) + [Decimal(quantity), Decimal(price)]
  {
    SplitNumbers(quantity, price);
    SplitJoin(product, Decimal(quantity) + " " + Decimal(price));
  }

  lemma SplitThree(a: string, b: string, rest: string)
    requires ' ' !in a && ' ' !in b
    ensures Split(a + " " + (b + " " + rest)) == [a, b] + Split(rest)
  {
    SplitTwo(b, rest);
    SplitTwo(a, b + " " + rest);
  }

  lemma SplitNew(side: Side, number: int, product: string, quantity: Int, price: Int)
    ensures Split(Body(New(side, number, product, quantity, price))) ==
      [Word(side), Decimal(number)] + Split(product) + [Decimal(quantity), Decimal(price)]
  {
    var named := product + " " + (Decimal(quantity) + " " + Decimal(price));
    DecimalShape(number);
    SplitThree(Word(side), Decimal(number), named);
    SplitNamed(product, quantity, price);
  }

  lemma SplitChange(number: int, quantity: Int, price: Int)
    ensures Split(Body(Change(number, quantity, price))) ==
      ["AMEND", Decimal(number), Decimal(quantity), Decimal(price)]
  {
    DecimalShape(number);
    SplitNumbers(quantity, price);
    SplitThree("AMEND", Decimal(number), Decimal(quantity) + " " + Decimal(price));
  }

  lemma SplitFields(c: Command)
    ensures Split(Body(c)) == Fields(c)
  {
    match c {
      case New(side, number, product, quantity, price) => SplitNew(side, number, product, quantity, price);
      case Change(number, quantity, price) => SplitChange(number, quantity, price);
      case Cancel(number) =>
        DecimalShape(number);
        SplitTwo("CANCEL", Decimal(number));
    }
  }

  // ---------- what is accepted ----------

  lemma StatementFields(c: Command)
    ensures Statement(Fields(c)) <==> InRange(c)
  {
    DecimalShape(c.number);
    if c.New? {
      SplitWord(c.product);
      if IsName(c.product) { assert ' ' !in c.product; }
    }
    if !c.Cancel? {
      DecimalShape(c.quantity);
      DecimalShape(c.price);
    }
  }

  lemma DecimalWithout(n: int, ch: char)
    requires !PlainChar(ch) && ch != '-'
    ensures ch !in Decimal(n)
  {
    DigitsShape(if n < 0 then -n else n);
  }

  /** A character that is in no field is not in the body. */
  lemma BodyWithout(c: Command, ch: char)
    requires !PlainChar(ch) && ch != '-' && (c.New? ==> ch !in c.product)
    ensures ch !in Body(c)
  {
    DecimalWithout(c.number, ch);
    if !c.Cancel? { NumbersWithout(c.quantity, c.price, ch); }
    match c {
      case New(side, number, product, quantity, price) =>
        var rest := Decimal(quantity) + " " + Decimal(price);
        assert ch !in product + " " + rest;
        assert ch !in Word(side) && ch !in Decimal(number) + " " + (product + " " + rest);
      case Change(number, quantity, price) =>
        assert ch !in Decimal(number) + " " + (Decimal(quantity) + " " + Decimal(price));
      case Cancel(_) =>
    }
  }

  lemma NumbersWithout(a: int, b: int, ch: char)
    requires !PlainChar(ch) && ch != '-'
    ensures ch !in Decimal(a) + " " + Decimal(b)
  {
    DecimalWithout(a, ch);
    DecimalWithout(b, ch);
  }

  /** A composed message is accepted exactly if its fields are in range. */
  lemma ComposedAccepted(c: Command)
    requires c.New? ==> '\n' !in c.product && ';' !in c.product
    ensures Matches(Compose(c)) <==> InRange(c)
  {
    BodyWithout(c, '\n');
    BodyWithout(c, ';');
    if Matches(Compose(c)) { OneLine(Body(c)); }
    if Statement(Split(Body(c))) { StatementMatches(Body(c)); }
    SplitFields(c);
    StatementFields(c);
  }

  // ---------- what is read ----------

  lemma StatementTokens(body: string)
    requires Statement(Split(body))
    ensures Tokens(Split(body + ";")) == Ended(Split(body), ";")
  {
    SplitEnd(body, ";");
    var f, parts := Split(body), Split(body + ";");
    assert forall i :: 0 <= i < |f| - 1 ==> parts[i] == f[i] && f[i] != "";
    AllTokens(parts);
  }

  /** A number the pattern accepts, with what may follow it. */
  lemma MagnitudeLimit(s: string, rest: string)
    requires IsId(s) && (rest == "" || rest == ";")
    ensures Magnitude(s + rest) <= FIELD_MAX && (IsAmount(s) ==> Magnitude(s + rest) > 0)
  {
    var base, t := if s[0] == '0' then 8 else 10, s + rest;
    assert t[0] == s[0] && t[1..] == s[1..] + rest && IsDigit(s[0]);
    assert |t| > 1 ==> t[1] == ';' || IsDigit(t[1]);
    ScanBound(base, s, 0, rest, 0);
    Pow10Grows(|s|, 6);
    assert Pow10(6) == 1_000_000;
    ReadUnsigned(t);
    ScanGrows(t[1..], DigitValue(s[0]));
  }

  lemma ReadLimit(s: string, rest: string)
    requires IsId(s) && (rest == "" || rest == ";")
    ensures 0 <= ReadNumber(s + rest) <= FIELD_MAX
    ensures IsAmount(s) ==> ReadNumber(s + rest) > 0
  {
    var t := s + rest;
    assert t[0] == s[0] && (|t| > 1 ==> t[1] == ';' || IsDigit(t[1]));
    MagnitudeLimit(s, rest);
    ReadUnsigned(t);
    StoredClamped(Magnitude(t));
  }

  lemma ReadLimits(s: string)
    requires IsId(s)
    ensures 0 <= ReadNumber(s) <= FIELD_MAX && 0 <= ReadNumber(s + ";") <= FIELD_MAX
    ensures IsAmount(s) ==> ReadNumber(s) > 0 && ReadNumber(s + ";") > 0
  {
    assert s + "" == s;
    ReadLimit(s, "");
    ReadLimit(s, ";");
  }

  /** Every statement is read as a command within the limits of one-line messages. */
  lemma AcceptedLegal(body: string)
    requires Statement(Split(body))
    ensures Parse(body + ";").Read? && InRange(Parse(body + ";").command)
  {
    var f := Split(body);
    StatementTokens(body);
    match |f| {
      case 2 => CancelLegal(body + ";", f);
      case 4 => ChangeLegal(body + ";", f);
      case _ => NewLegal(body + ";", f);
    }
  }

  lemma CancelLegal(msg: string, f: seq<string>)
    requires Statement(f) && |f| == 2 && Tokens(Split(msg)) == Ended(f, ";")
    ensures Parse(msg).Read? && InRange(Parse(msg).command)
  {
    KindsApart(f[0]);
    ReadLimits(f[1]);
  }

  lemma ChangeLegal(msg: string, f: seq<string>)
    requires Statement(f) && |f| == 4 && Tokens(Split(msg)) == Ended(f, ";")
    ensures Parse(msg).Read? && InRange(Parse(msg).command)
  {
    KindsApart("AMEND");
    ReadLimits(f[1]);
    ReadLimits(f[2]);
    ReadLimits(f[3]);
  }

  lemma NewLegal(msg: string, f: seq<string>)
    requires Statement(f) && |f| == 5 && Tokens(Split(msg)) == Ended(f, ";")
    ensures Parse(msg).Read? && InRange(Parse(msg).command)
  {
    KindsApart(f[0]);
    ReadLimits(f[1]);
    ReadLimits(f[3]);
    ReadLimits(f[4]);
  }

  lemma ReadField(n: int, rest: string)
    requires FitsInt(n) && (rest == "" || DigitValue(rest[0]) == 36)
    ensures ReadNumber(Decimal(n) + rest) == n
    ensures rest == "" ==> ReadNumber(Decimal(n)) == n
  {
    assert rest == "" ==> Decimal(n) + rest == Decimal(n);
    ReadPrinted(n, rest);
  }

  lemma NewReadsAs(msg: string, c: Command, tail: string)
    requires c.New? && FitsInt(c.number)
    requires tail != "" && DigitValue(tail[0]) == 36
    requires [Word(c.side), Decimal(c.number), c.product, Decimal(c.quantity), Decimal(c.price) + tail]
      <= Tokens(Split(msg))
    ensures Parse(msg) == Read(c)
  {
    KindsApart(Word(c.side));
    ReadField(c.number, "");
    ReadField(c.quantity, "");
    ReadField(c.price, tail);
  }

  lemma ChangeReadsAs(msg: string, c: Command, tail: string)
    requires c.Change? && FitsInt(c.number)
    requires tail != "" && DigitValue(tail[0]) == 36
    requires ["AMEND", Decimal(c.number), Decimal(c.quantity), Decimal(c.price) + tail] <= Tokens(Split(msg))
    ensures Parse(msg) == Read(c)
  {
    KindsApart("AMEND");
    ReadField(c.number, "");
    ReadField(c.quantity, "");
    ReadField(c.price, tail);
  }

  lemma CancelReadsAs(msg: string, c: Command, tail: string)
    requires c.Cancel? && FitsInt(c.number) && tail != "" && DigitValue(tail[0]) == 36
    requires ["CANCEL", Decimal(c.number) + tail] <= Tokens(Split(msg))
    ensures Parse(msg) == Read(c)
  {
    KindsApart("CANCEL");
    ReadField(c.number, tail);
  }

  /** A command's fields, whatever is behind the last that is no digit or letter, are read
      as the command. */
  lemma ReadsAs(msg: string, c: Command, tail: string)
    requires FitsInt(c.number)
    requires c.New? ==> Split(c.product) == [c.product]
    requires tail != "" && DigitValue(tail[0]) == 36
    requires Ended(Fields(c), tail) <= Tokens(Split(msg))
    ensures Parse(msg) == Read(c)
  {
    match c {
      case New(_, _, _, _, _) => NewReadsAs(msg, c, tail);
      case Change(_, _, _) => ChangeReadsAs(msg, c, tail);
      case Cancel(_) => CancelReadsAs(msg, c, tail);
    }
  }

  lemma ParseFields(c: Command)
    requires InRange(c)
    ensures Parse(Compose(c)) == Read(c)
  {
    SplitFields(c);
    StatementFields(c);
    StatementTokens(Body(c));
    if c.New? { SplitWord(c.product); assert ' ' !in c.product; }
    ReadsAs(Compose(c), c, ";");
  }

  /** A CANCEL of any digits the pattern accepts is read as what strtol makes of them. */
  lemma CancelReads(number: string)
    requires IsId(number)
    ensures var msg := "CANCEL" + " " + number + ";";
      Matches(msg) && Parse(msg) == Read(Cancel(ReadNumber(number + ";")))
  {
    var body := "CANCEL" + " " + number;
    SplitTwo("CANCEL", number);
    SplitWord(number);
    StatementMatches(body);
    StatementTokens(body);
    assert Tokens(Split(body + ";")) == ["CANCEL", number + ";"];
    KindsApart("CANCEL");
  }

  /** A leading zero is accepted, and makes the number octal. */
  lemma OctalNumber()
    ensures Matches("CANCEL 010;") && Parse("CANCEL 010;") == Read(Cancel(8))
  {
    assert "CANCEL 010;" == "CANCEL" + " " + "010" + ";";
    CancelReads("010");
    assert "010" + ";" == "010;";
    ReadOctal();
  }

  lemma ReadOctal()
    ensures ReadNumber("010;") == 8
  {
    var s := "010;";
    ReadUnsigned(s);
    assert s[1..] == "10;" && s[1..][1..] == "0;" && s[1..][1..][1..] == ";";
    assert Scan(8, ";", 8) == 8;
    assert Scan(8, "0;", 1) == 8;
    assert Scan(8, "10;", 0) == 8;
  }
}
