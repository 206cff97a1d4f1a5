/** What the handler writes is what the client shows. */
module RoundTrip {
  import opened Base
  import opened Text
  import opened Numbering
  import opened Parser
  import opened Resp
  import opened Client
  import opened Reply

  /** The kinds of reply a command handler gives. */
  datatype Response =
    | Nil
    | Status(word: string)
    | Integer(n: int)
    | Quote(s: string)
    | Error(message: string)
    | List(items: seq<Response>)

  /** The handler's text for a reply; the lines of a list are numbered from 1. */
  function Show(r: Response): string
    decreases r, 0
  {
    match r
    case Nil => "(nil)"
    case Status(w) => w
    case Integer(n) => "(integer) " + ToString(n)
    case Quote(s) => Quoted(s)
    case Error(m) => m
    case List(items) => if items == [] then "(empty list)" else Numbered(Shows(items), 1)
  }

  function Shows(items: seq<Response>): (r: seq<string>)
    ensures |r| == |items|
    decreases items, 1
  {
    if items == [] then [] else [Show(items[0])] + Shows(items[1..])
  }

  /** Wherever `wire` stands in a buffer, the client reads `text` from it. */
  ghost predicate ReadAs(wire: string, text: string) {
    forall buffer, pos: nat :: At(buffer, pos, wire) ==> ParseAt(buffer, pos) == Some(Value(text, pos + |wire|))
  }

  /** The client shows what the handler wrote. */
  ghost predicate RoundTrips(text: string) {
    ReadAs(Serialize(text), text)
  }

  ghost predicate HasCrlf(s: string) {
    exists i :: CrlfAt(s, i)
  }

  /** Which replies survive the trip. */
  ghost predicate Faithful(r: Response)
    decreases r
  {
    match r
    case Nil => true
    case Status(w) => IsStatus(w)
    case Integer(n) => InRange(n, 64)
    case Quote(s) => |s| < 0x8000_0000
    case Error(m) => IsError(m) && !HasCrlf(m)
    case List(items) =>
      && 0 < |items| < 0x8000_0000
      && forall i :: 0 <= i < |items| ==> Faithful(items[i]) && OneLine(Show(items[i]))
  }

  // ---------------------------------------------------------------------
  // One-line replies
  // ---------------------------------------------------------------------

  /** A line without CRLF, and the CRLF that ends it. */
  lemma {:induction false} WholeLine(buffer: string, pos: nat, line: string)
    requires At(buffer, pos, line + CRLF) && !HasCrlf(line)
    ensures FindCrlf(buffer, pos) == Some(pos + |line|)
    ensures buffer[pos..pos + |line|] == line
  {
    AtConcat(buffer, pos, line, CRLF);
    assert CRLF[0] == buffer[pos + |line|] && CRLF[1] == buffer[pos + |line| + 1];
    forall i | pos <= i < pos + |line| ensures !CrlfAt(buffer, i) {
      assert !CrlfAt(line, i - pos);
      assert line[i - pos] == buffer[i];
      assert i + 1 < pos + |line| ==> line[i - pos + 1] == buffer[i + 1];
    }
    FoundAt(buffer, pos, pos + |line|);
  }

  lemma {:induction false} MarkAddsNone(mark: char, body: string)
    requires mark != '\r' && !HasCrlf(body)
    ensures !HasCrlf([mark] + body)
  {
    if HasCrlf([mark] + body) {
      var i :| CrlfAt([mark] + body, i);
      assert CrlfAt(body, i - 1);
    }
  }

  lemma {:induction false} MarkedLine(buffer: string, pos: nat, mark: char, body: string)
    requires At(buffer, pos, [mark] + body + CRLF) && mark != '\r' && !HasCrlf(body)
    ensures buffer[pos] == mark && FindCrlf(buffer, pos) == Some(pos + 1 + |body|)
    ensures buffer[pos + 1..pos + 1 + |body|] == body
  {
    var line := [mark] + body;
    MarkAddsNone(mark, body);
    WholeLine(buffer, pos, line);
    assert line[0] == buffer[pos];
    assert buffer[pos + 1..pos + |line|] == buffer[pos..pos + |line|][1..] == line[1..] == body;
  }

  lemma {:induction false} PlainRead(buffer: string, pos: nat, mark: char, body: string)
    requires mark == '+' || mark == '-' || mark == ':'
    requires At(buffer, pos, [mark] + body + CRLF) && !HasCrlf(body)
    ensures ParseAt(buffer, pos) == Some(Value(if mark == ':' then "(integer) " + body else body, pos + |body| + 3))
  {
    MarkedLine(buffer, pos, mark, body);
    assert ParseAt(buffer, pos) == ValueFrom(buffer, pos, pos + 1 + |body|);
  }

  lemma {:induction false} PlainReadAs(mark: char, body: string)
    requires mark == '+' || mark == '-' || mark == ':'
    requires !HasCrlf(body)
    ensures ReadAs([mark] + body + CRLF, if mark == ':' then "(integer) " + body else body)
  {
    var wire, text := [mark] + body + CRLF, if mark == ':' then "(integer) " + body else body;
    assert |wire| == |body| + 3;
    forall buffer, pos: nat | At(buffer, pos, wire)
      ensures ParseAt(buffer, pos) == Some(Value(text, pos + |wire|))
    {
      PlainRead(buffer, pos, mark, body);
    }
  }

  lemma {:induction false} StatusTrips(word: string)
    requires IsStatus(word)
    ensures RoundTrips(word)
  {
    assert !HasCrlf(word);
    PlainReadAs('+', word);
  }

  lemma {:induction false} ErrorTrips(message: string)
    requires IsError(message) && !HasCrlf(message)
    ensures RoundTrips(message)
  {
    ErrorWire(message);
    PlainReadAs('-', message);
  }

  lemma {:induction false} ErrorWire(message: string)
    requires IsError(message)
    ensures Serialize(message) == "-" + message + CRLF
  {
    assert message[0] == 'E' || message[0] == 'W' || message[0] == 'N' by {
      assert StartsWith(message, "ERR") ==> "ERR"[0] == message[0];
      assert StartsWith(message, "WRONGTYPE ") ==> "WRONGTYPE "[0] == message[0];
      assert StartsWith(message, "NOAUTH ") ==> "NOAUTH "[0] == message[0];
    }
    assert |message| >= 3;
  }

  /** An error is shown as it was written exactly when it has no CRLF in it. */
  lemma {:induction false} ErrorTripsExactly(message: string)
    requires IsError(message)
    ensures RoundTrips(message) <==> !HasCrlf(message)
  {
    if HasCrlf(message) {
      ErrorWire(message);
      var wire := Serialize(message);
      assert At(wire, 0, wire);
      var j :| CrlfAt(message, j);
      assert CrlfAt(wire, j + 1);
      var crlf := FindCrlf(wire, 0).value;
      assert crlf <= j + 1;
      assert ParseAt(wire, 0) == ValueFrom(wire, 0, crlf);
      assert ParseAt(wire, 0).value.next == crlf + 2 < |wire|;
    } else {
      ErrorTrips(message);
    }
  }

  lemma {:induction false} NilRead(buffer: string, pos: nat)
    requires At(buffer, pos, NULL_BULK)
    ensures ParseAt(buffer, pos) == Some(Value("(nil)", pos + 5))
  {
    assert NULL_BULK == "$" + ToString(-1) + CRLF;
    NumberLine(buffer, pos, '$', -1);
    StoiBack(-1);
    assert ParseAt(buffer, pos) == BulkValue(buffer, pos + 5, Some(-1));
  }

  lemma {:induction false} NilTrips()
    ensures RoundTrips("(nil)")
  {
    forall buffer, pos: nat | At(buffer, pos, NULL_BULK)
      ensures ParseAt(buffer, pos) == Some(Value("(nil)", pos + |NULL_BULK|))
    {
      NilRead(buffer, pos);
    }
  }

  lemma {:induction false} IntegerTrips(n: int)
    requires InRange(n, 64)
    ensures RoundTrips("(integer) " + ToString(n))
  {
    var text := "(integer) " + ToString(n);
    assert text[0] == '(' && text[1] == 'i';
    assert text[10..] == ToString(n);
    ReadBack(n);
    IntegerWire(text, n);
    NumberHasNoCr(n);
    assert !HasCrlf(ToString(n));
    PlainReadAs(':', ToString(n));
  }

  /** A text that starts like no status, error or special text. */
  lemma {:induction false} NotSpecial(text: string)
    requires |text| >= 2 && text[0] != 'O' && text[0] != 'P' && text[0] != 'Q'
    requires text[0] != 'E' && text[0] != 'W' && text[0] != 'N'
    requires text[0] == '(' ==> text[1] == 'i'
    ensures !IsStatus(text) && text != "(nil)" && text != "(empty list)" && !IsError(text)
  {
    assert "ERR"[0] != text[0] && "WRONGTYPE "[0] != text[0] && "NOAUTH "[0] != text[0];
    assert "OK"[0] != text[0] && "PONG"[0] != text[0] && "QUEUED"[0] != text[0];
    assert "(nil)"[0] != text[0] || "(nil)"[1] != text[1];
    assert "(empty list)"[0] != text[0] || "(empty list)"[1] != text[1];
  }

  lemma {:induction false} IntegerWire(text: string, n: int)
    requires |text| > 10 && StartsWith(text, "(integer) ") && Stoll(text[10..]) == Some(n)
    ensures Serialize(text) == ":" + ToString(n) + CRLF
  {
    assert "(integer) "[0] == text[0] && "(integer) "[1] == text[1];
    NotSpecial(text);
    assert IntegerIn(text) == Some(n);
  }

  lemma {:induction false} QuotedWire(text: string)
    requires IsQuoted(text)
    ensures Serialize(text) == BulkString(text[1..|text| - 1])
  {
    NotSpecial(text);
    assert IntegerIn(text) == None by {
      assert "(integer) "[0] != text[0];
    }
  }

  lemma {:induction false} QuoteWire(s: string)
    ensures Serialize(Quoted(s)) == BulkString(s)
  {
    QuotedWire(Quoted(s));
    assert Quoted(s)[1..|Quoted(s)| - 1] == s;
  }

  lemma {:induction false} QuoteRead(buffer: string, pos: nat, s: string)
    requires |s| < 0x8000_0000 && At(buffer, pos, BulkString(s))
    ensures ParseAt(buffer, pos) == Some(Value(Quoted(s), pos + |BulkString(s)|))
  {
    var start := pos + 3 + |ToString(|s|)|;
    BulkParts(buffer, pos, s);
    NumberLine(buffer, pos, '$', |s|);
    StoiBack(|s|);
    assert ParseAt(buffer, pos) == BulkValue(buffer, start, Some(|s|));
    AtConcat(buffer, start, s, CRLF);
    assert buffer[start..start + |s|] == s;
  }

  lemma {:induction false} QuoteReadAs(s: string)
    requires |s| < 0x8000_0000
    ensures ReadAs(BulkString(s), Quoted(s))
  {
    forall buffer, pos: nat | At(buffer, pos, BulkString(s))
      ensures ParseAt(buffer, pos) == Some(Value(Quoted(s), pos + |BulkString(s)|))
    {
      QuoteRead(buffer, pos, s);
    }
  }

  lemma {:induction false} QuoteTrips(s: string)
    requires |s| < 0x8000_0000
    ensures RoundTrips(Quoted(s))
  {
    QuoteWire(s);
    QuoteReadAs(s);
  }
}
