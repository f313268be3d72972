/** Framing: one message at a time off a stream of bytes, and the way of a composed
    command through stream, pattern and parser. */
module Framing {
  import opened Accounts
  import opened Commands
  import opened Numbers
  import opened Messages

  const MAX_BUF := 50

  /** A non-blocking descriptor: what can be read from it now. */
  class Pipe {
    var data: string

    constructor (data: string)
      ensures this.data == data
    {
      this.data := data;
    }

    /** Reads one byte, if there is one. */
    method Read() returns (ok: bool, c: char)
      modifies this
      ensures ok <==> old(data) != ""
      ensures ok ==> old(data) == [c] + data
      ensures !ok ==> data == old(data)
    {
      ok, c := data != "", ' ';
      if ok {
        c := data[0];
        data := data[1..];
      }
    }
  }

  function SemicolonFrom(s: string, i: nat): (r: nat)
    requires i <= |s|
    ensures i <= r <= |s|
    ensures r < |s| ==> s[r] == ';'
    ensures forall k :: i <= k < r ==> s[k] != ';'
    decreases |s| - i
  {
    if i == |s| || s[i] == ';' then i else SemicolonFrom(s, i + 1)
  }

  lemma {:induction false} SemicolonFromAt(s: string, i: nat, r: nat)
    requires i <= r <= |s| && (r < |s| ==> s[r] == ';') && forall k :: i <= k < r ==> s[k] != ';'
    ensures SemicolonFrom(s, i) == r
    decreases r - i
  {
    if i < r { SemicolonFromAt(s, i + 1, r); }
  }

  lemma SemicolonAt(s: string, r: nat)
    requires r <= |s| && (r < |s| ==> s[r] == ';') && forall k :: 0 <= k < r ==> s[k] != ';'
    ensures SemicolonFrom(s, 0) == r
  {
    SemicolonFromAt(s, 0, r);
  }

  /** What reading a message reports: the place of its semicolon, 0 if there was nothing
      to read, and -1 if the message was cut off or too long. */
  function Status(data: string): int {
    var k := SemicolonFrom(data, 0);
    if data == "" then 0 else if k < |data| && k < MAX_BUF - 1 then k else -1
  }

  /** What remains to be read: whatever follows the first semicolon. */
  function Rest(data: string): string {
    var k := SemicolonFrom(data, 0);
    if k < |data| then data[k + 1..] else ""
  }

  /** The first message of a stream that has one within the limit. */
  function Message(data: string): string {
    var k := SemicolonFrom(data, 0);
    if k < |data| then data[..k + 1] else data
  }

  /** Reads on to the next semicolon, or to the end, from a place without one before it. */
  method Drain(pipe: Pipe, buf: array<char>, i: nat, ghost start: string, ghost from: nat)
    requires i < buf.Length && from <= |start| && pipe.data == start[from..]
    requires forall k :: 0 <= k < from ==> start[k] != ';'
    modifies pipe, buf
    ensures pipe.data == Rest(start)
    ensures SemicolonFrom(start, 0) >= from
  {
    ghost var n := from;
    while true
      invariant from <= n <= |start| && pipe.data == start[n..]
      invariant forall k :: 0 <= k < n ==> start[k] != ';'
      decreases |pipe.data|
    {
      var ok, c := pipe.Read();
      if !ok { break; }
      buf[i] := c;
      assert start[n..] == [c] + pipe.data;
      n := n + 1;
      if c == ';' {
        SemicolonAt(start, n - 1);
        return;
      }
    }
    SemicolonAt(start, n);
  }

  /** Reads one message into a buffer of MAX_BUF bytes and ends it with a zero. */
  method ReadFd(pipe: Pipe, buf: array<char>) returns (status: int)
    requires buf.Length == MAX_BUF
    modifies pipe, buf
    ensures status == Status(old(pipe.data)) && pipe.data == Rest(old(pipe.data))
    ensures old(pipe.data) != "" && status >= 0 ==>
      status + 1 < MAX_BUF && buf[..status + 1] == Message(old(pipe.data)) && buf[status + 1] == '\0'
  {
    ghost var start := pipe.data;
    var i := 0;
    while i < MAX_BUF - 1
      invariant 0 <= i <= MAX_BUF - 1 && i <= |start| && pipe.data == start[i..]
      invariant buf[..i] == start[..i]
      invariant forall k :: 0 <= k < i ==> start[k] != ';'
    {
      var ok, c := pipe.Read();
      if !ok {
        SemicolonAt(start, i);
        return if i == 0 then 0 else -1;
      }
      assert start[i..] == [c] + pipe.data;
      buf[i] := c;
      if c == ';' {
        buf[i + 1] := '\0';
        SemicolonAt(start, i);
        assert buf[..i + 1] == start[..i + 1];
        return i;
      }
      i := i + 1;
    }
    Drain(pipe, buf, i, start, i);
    status := -1;
  }

  /** A message has come exactly if one of the first 49 bytes is a semicolon. Otherwise -1
      is reported, and what there is of it is not read again. */
  lemma StatusExactly(data: string)
    requires data != ""
    ensures Status(data) == -1 <==> forall k :: 0 <= k < |data| && k < 49 ==> data[k] != ';'
    ensures Status(data) != -1 ==>
      0 <= Status(data) < |data| && data[Status(data)] == ';' && ';' !in data[..Status(data)]
    ensures ';' !in data ==> Rest(data) == ""
  {
  }

  /** Status 0 does not tell an empty stream from an empty message. */
  lemma StatusZero(data: string)
    ensures Status(data) == 0 <==> data == "" || data[0] == ';'
  {
  }

  /** A message without a semicolon inside, and short enough, is framed whole, and
      exactly the rest of the stream remains. */
  lemma FrameExact(body: string, rest: string)
    requires body != "" && ';' !in body
    ensures var data := body + ";" + rest;
      && Message(data) == body + ";" && Rest(data) == rest
      && Status(data) == if |body| < MAX_BUF - 1 then |body| else -1
  {
    var data := body + ";" + rest;
    assert forall k :: 0 <= k < |body| ==> data[k] in body;
    SemicolonAt(data, |body|);
  }

  lemma InRangeShort(c: Command)
    requires InRange(c)
    ensures 0 < |Body(c)| < MAX_BUF - 1 && '\n' !in Body(c) && ';' !in Body(c)
  {
    BodyWithout(c, '\n');
    BodyWithout(c, ';');
    DigitsLength(c.number, 6);
    if !c.Cancel? {
      DigitsLength(c.quantity, 6);
      DigitsLength(c.price, 6);
    }
    assert Pow10(6) == 1_000_000;
  }

  /** Every command in range, composed and put in front of any stream, is framed alone,
      leaves the rest of the stream, matches the pattern, and is read back as it was. */
  lemma RoundTrip(c: Command, rest: string)
    requires InRange(c)
    ensures var data := Compose(c) + rest;
      && Status(data) == |Body(c)| > 0 && Message(data) == Compose(c) && Rest(data) == rest
      && Matches(Message(data)) && Parse(Message(data)) == Read(c)
  {
    InRangeShort(c);
    FrameExact(Body(c), rest);
    ComposedAccepted(c);
    ParseFields(c);
  }

  /** The commands read in the accepted messages of a stream. */
  ghost function Received(data: string): seq<Command>
    decreases |data|
  {
    if data == "" then []
    else
      var msg := Message(data);
      (if Status(data) > 0 && Matches(msg) && Parse(msg).Read? then [Parse(msg).command] else [])
      + Received(Rest(data))
  }

  function Stream(cs: seq<Command>): string {
    if cs == [] then "" else Compose(cs[0]) + Stream(cs[1..])
  }

  /** A stream of commands in range is received as exactly those commands, in order. */
  lemma {:induction false} StreamRoundTrip(cs: seq<Command>)
    requires forall i :: 0 <= i < |cs| ==> InRange(cs[i])
    ensures Received(Stream(cs)) == cs
  {
    if cs != [] {
      RoundTrip(cs[0], Stream(cs[1..]));
      StreamRoundTrip(cs[1..]);
    }
  }
}
