/** Replies of several lines: LRANGE, KEYS and EXEC. */
module ListReply {
  import opened Base
  import opened Text
  import opened Numbering
  import opened Parser
  import opened Resp
  import opened Client
  import opened Reply
  import opened RoundTrip

  // ---------------------------------------------------------------------
  // The lines of a list
  // ---------------------------------------------------------------------

  function NumberedLines(texts: seq<string>, i: nat): (r: seq<string>)
    ensures |r| == |texts|
  {
    if texts == [] then [] else [Label(i) + texts[0]] + NumberedLines(texts[1..], i + 1)
  }

  ghost predicate OneLiners(texts: seq<string>) {
    forall i :: 0 <= i < |texts| ==> OneLine(texts[i])
  }

  lemma {:induction false} LabelOneLine(i: nat, s: string)
    requires OneLine(s)
    ensures OneLine(Label(i) + s)
  {
    DecimalDigits(i);
  }

  lemma {:induction false} LastLine(line: string)
    requires line != [] && OneLine(line)
    ensures Lines(line) == [line]
  {
  }

  lemma {:induction false} FirstLine(line: string, rest: string)
    requires OneLine(line)
    ensures Lines(line + "\n" + rest) == [line] + Lines(rest)
  {
    var text := line + "\n" + rest;
    var n := FindNewline(text, 0);
    assert text[|line|] == '\n';
    assert forall k :: 0 <= k < |line| ==> text[k] == line[k];
    assert n == Some(|line|);
    assert text[..|line|] == line && text[|line| + 1..] == rest;
  }

  /** Numbered one-line texts have one line each. */
  lemma {:induction false} LinesOfList(texts: seq<string>, i: nat)
    requires texts != [] && OneLiners(texts)
    ensures Lines(Numbered(texts, i)) == NumberedLines(texts, i)
    decreases |texts|
  {
    var line := Label(i) + texts[0];
    LabelOneLine(i, texts[0]);
    if |texts| == 1 {
      LastLine(line);
      assert NumberedLines(texts[1..], i + 1) == [];
    } else {
      LinesOfList(texts[1..], i + 1);
      FirstLine(line, Numbered(texts[1..], i + 1));
    }
  }

  // ---------------------------------------------------------------------
  // One line of a list
  // ---------------------------------------------------------------------

  lemma {:induction false} ParenFound(line: string, start: nat, p: nat)
    requires start <= p && p + 2 <= |line| && line[p] == ')' && line[p + 1] == ' '
    requires forall k :: start <= k < p ==> line[k] != ')'
    ensures FindParen(line, start) == Some(p)
    decreases p - start
  {
    if start == p {
    } else {
      ParenFound(line, start + 1, p);
    }
  }

  lemma {:induction false} ParenAfterNumber(i: nat, content: string)
    ensures FindParen(Label(i) + content, 0) == Some(|ToString(i)|)
    ensures (Label(i) + content)[|ToString(i)| + 2..] == content
  {
    var line := Label(i) + content;
    var p := |ToString(i)|;
    assert line[p] == ')' && line[p + 1] == ' ';
    DecimalDigits(i);
    forall k | 0 <= k < p ensures line[k] != ')' {
      assert line[k] == ToString(i)[k] == Decimal(i)[k];
    }
    ParenFound(line, 0, p);
  }

  /** The number of a line is dropped, and the rest is serialized as if alone. */
  lemma {:induction false} LineWire(i: nat, content: string, bound: nat)
    requires |Label(i) + content| <= bound
    ensures SerializeLine(Label(i) + content, bound) == Serialize(content)
  {
    ParenAfterNumber(i, content);
    if IsQuoted(content) { QuotedWire(content); }
  }

  // ---------------------------------------------------------------------
  // The wire form of a list
  // ---------------------------------------------------------------------

  function Wires(texts: seq<string>): (r: seq<string>)
    ensures |r| == |texts|
  {
    if texts == [] then [] else [Serialize(texts[0])] + Wires(texts[1..])
  }

  lemma {:induction false} LineWires(lines: seq<string>, texts: seq<string>, i: nat, bound: nat)
    requires lines == NumberedLines(texts, i)
    requires forall k :: 0 <= k < |lines| ==> |lines[k]| <= bound
    ensures SerializeLines(lines, bound) == Wires(texts)
    decreases |texts|
  {
    if texts == [] {
    } else {
      assert lines[0] == Label(i) + texts[0];
      LineWire(i, texts[0], bound);
      LineWires(lines[1..], texts[1..], i + 1, bound);
    }
  }

  lemma {:induction false} LooksLikeList(texts: seq<string>)
    requires texts != []
    ensures var text := Numbered(texts, 1); |text| >= 3 && text[0] == '1' && text[1] == ')'
  {
    assert Label(1) == "1) ";
    assert Label(1) <= Numbered(texts, 1);
  }

  lemma {:induction false} ListText(text: string)
    requires |text| >= 3 && text[0] == '1' && text[1] == ')'
    ensures Serialize(text) == ArrayOf(SerializeLines(Lines(text), |text|))
  {
    NotSpecial(text);
    assert IntegerIn(text) == None by {
      assert "(integer) "[0] != text[0];
    }
  }

  /** Numbered one-line texts are sent as the array of their wire forms. */
  lemma {:induction false} ListWire(texts: seq<string>)
    requires texts != [] && OneLiners(texts)
    ensures Serialize(Numbered(texts, 1)) == ArrayOf(Wires(texts))
  {
    var text := Numbered(texts, 1);
    LooksLikeList(texts);
    ListText(text);
    LinesOfList(texts, 1);
    LineWires(Lines(text), texts, 1, |text|);
  }

  // ---------------------------------------------------------------------
  // Reading a list
  // ---------------------------------------------------------------------

  /** What is known of each element, without saying how it came about. */
  ghost predicate EachReadAs(wires: seq<string>, texts: seq<string>)
    decreases |texts|
  {
    |wires| == |texts| && (texts != [] ==> ReadAs(wires[0], texts[0]) && EachReadAs(wires[1..], texts[1..]))
  }

  lemma {:induction false} ReadHere(buffer: string, pos: nat, wire: string, rest: string, text: string)
    requires At(buffer, pos, wire + rest) && ReadAs(wire, text)
    ensures ParseAt(buffer, pos) == Some(Value(text, pos + |wire|))
    ensures At(buffer, pos + |wire|, rest)
  {
    AtConcat(buffer, pos, wire, rest);
  }

  lemma {:induction false} WireFirst(buffer: string, pos: nat, wires: seq<string>, texts: seq<string>, end: nat)
    requires |wires| == |texts| > 0 && ReadAs(wires[0], texts[0]) && At(buffer, pos, Concat(wires))
    requires InARow(buffer, pos + |wires[0]|, texts[1..], end)
    ensures InARow(buffer, pos, texts, end)
  {
    ReadHere(buffer, pos, wires[0], Concat(wires[1..]), texts[0]);
    RowFirst(buffer, pos, Value(texts[0], pos + |wires[0]|), texts[1..], end);
    assert [texts[0]] + texts[1..] == texts;
  }

  lemma {:induction false} WiresInARow(buffer: string, pos: nat, wires: seq<string>, texts: seq<string>, end: nat)
    requires EachReadAs(wires, texts) && At(buffer, pos, Concat(wires)) && end == pos + |Concat(wires)|
    ensures InARow(buffer, pos, texts, end)
    decreases |texts|
  {
    if texts == [] {
    } else {
      AtConcat(buffer, pos, wires[0], Concat(wires[1..]));
      WiresInARow(buffer, pos + |wires[0]|, wires[1..], texts[1..], end);
      WireFirst(buffer, pos, wires, texts, end);
    }
  }

  lemma {:induction false} ArrayBack(buffer: string, pos: nat, wires: seq<string>, texts: seq<string>)
    requires 0 < |texts| < 0x8000_0000 && EachReadAs(wires, texts) && At(buffer, pos, ArrayOf(wires))
    ensures ParseAt(buffer, pos) == Some(Value(Numbered(texts, 1), pos + |ArrayOf(wires)|))
  {
    ArrayParts(buffer, pos, wires);
    WiresInARow(buffer, pos + 3 + |ToString(|wires|)|, wires, texts, pos + |ArrayOf(wires)|);
    HeadAndItems(buffer, pos, texts, pos + |ArrayOf(wires)|);
  }

  lemma {:induction false} ArrayParts(buffer: string, pos: nat, wires: seq<string>)
    requires At(buffer, pos, ArrayOf(wires))
    ensures At(buffer, pos, "*" + ToString(|wires|) + CRLF)
    ensures At(buffer, pos + 3 + |ToString(|wires|)|, Concat(wires))
    ensures |ArrayOf(wires)| == 3 + |ToString(|wires|)| + |Concat(wires)|
  {
    AtConcat(buffer, pos, "*" + ToString(|wires|) + CRLF, Concat(wires));
  }

  lemma {:induction false} HeadAndItems(buffer: string, pos: nat, texts: seq<string>, end: nat)
    requires 0 < |texts| < 0x8000_0000 && At(buffer, pos, "*" + ToString(|texts|) + CRLF)
    requires InARow(buffer, pos + 3 + |ToString(|texts|)|, texts, end)
    ensures ParseAt(buffer, pos) == Some(Value(Numbered(texts, 1), end))
  {
    ArrayHead(buffer, pos, |texts|);
    ItemsBack(buffer, pos + 3 + |ToString(|texts|)|, texts, end);
  }

  lemma {:induction false} ArrayHead(buffer: string, pos: nat, n: nat)
    requires 0 < n < 0x8000_0000 && At(buffer, pos, "*" + ToString(n) + CRLF)
    ensures ParseAt(buffer, pos) == Listed(ParseItems(buffer, pos + 3 + |ToString(n)|, n))
  {
    NumberLine(buffer, pos, '*', n);
    StoiBack(n);
    assert ParseAt(buffer, pos) == ArrayValue(buffer, pos + 3 + |ToString(n)|, Some(n));
  }

  lemma {:induction false} ArrayReadAs(wires: seq<string>, texts: seq<string>)
    requires 0 < |texts| < 0x8000_0000 && EachReadAs(wires, texts)
    ensures ReadAs(ArrayOf(wires), Numbered(texts, 1))
  {
    forall buffer, pos: nat | At(buffer, pos, ArrayOf(wires))
      ensures ParseAt(buffer, pos) == Some(Value(Numbered(texts, 1), pos + |ArrayOf(wires)|))
    {
      ArrayBack(buffer, pos, wires, texts);
    }
  }

  lemma {:induction false} AllReadAs(texts: seq<string>)
    requires forall k :: 0 <= k < |texts| ==> RoundTrips(texts[k])
    ensures EachReadAs(Wires(texts), texts)
    decreases |texts|
  {
    if texts == [] {
    } else {
      AllReadAs(texts[1..]);
      assert RoundTrips(texts[0]);
      assert Wires(texts)[1..] == Wires(texts[1..]);
    }
  }

  lemma {:induction false} ListTrips(texts: seq<string>)
    requires 0 < |texts| < 0x8000_0000 && OneLiners(texts)
    requires forall k :: 0 <= k < |texts| ==> RoundTrips(texts[k])
    ensures RoundTrips(Numbered(texts, 1))
  {
    AllReadAs(texts);
    ListWire(texts);
    ArrayReadAs(Wires(texts), texts);
  }

  lemma {:induction false} ShowsAt(items: seq<Response>, k: nat)
    requires k < |items|
    ensures Shows(items)[k] == Show(items[k])
    decreases |items|
  {
    if k == 0 {
    } else {
      ShowsAt(items[1..], k - 1);
    }
  }

  /** Every faithful reply is shown by the client as the handler wrote it. */
  lemma {:induction false} FaithfulTrips(r: Response)
    requires Faithful(r)
    ensures RoundTrips(Show(r))
    decreases r
  {
    match r
    case Nil => NilTrips();
    case Status(w) => StatusTrips(w);
    case Integer(n) => IntegerTrips(n);
    case Quote(s) => QuoteTrips(s);
    case Error(m) => ErrorTrips(m);
    case List(items) =>
      var texts := Shows(items);
      forall k | 0 <= k < |texts| ensures RoundTrips(texts[k]) && OneLine(texts[k]) {
        FaithfulTrips(items[k]);
        ShowsAt(items, k);
      }
      ListTrips(texts);
  }

  lemma {:induction false} EmptyRead(buffer: string, pos: nat)
    requires At(buffer, pos, EMPTY_ARRAY)
    ensures ParseAt(buffer, pos) == Some(Value("(empty array)", pos + 4))
  {
    assert EMPTY_ARRAY == "*" + ToString(0) + CRLF;
    NumberLine(buffer, pos, '*', 0);
    StoiBack(0);
    assert ParseAt(buffer, pos) == ArrayValue(buffer, pos + 4, Some(0));
  }

  /** An empty list is shown in other words than the handler's. */
  lemma {:induction false} EmptyListRenamed()
    ensures ReadAs(Serialize(Show(List([]))), "(empty array)") && !RoundTrips(Show(List([])))
  {
    forall buffer, pos: nat | At(buffer, pos, EMPTY_ARRAY)
      ensures ParseAt(buffer, pos) == Some(Value("(empty array)", pos + |EMPTY_ARRAY|))
    {
      EmptyRead(buffer, pos);
    }
    assert At(EMPTY_ARRAY, 0, EMPTY_ARRAY);
    assert "(empty array)"[7] != "(empty list)"[7];
  }

  // ---------------------------------------------------------------------
  // When a list keeps its shape
  // ---------------------------------------------------------------------

  function Newlines(s: string): nat {
    if s == [] then 0 else (if s[0] == '\n' then 1 else 0) + Newlines(s[1..])
  }

  lemma {:induction false} NewlinesConcat(a: string, b: string)
    ensures Newlines(a + b) == Newlines(a) + Newlines(b)
    decreases |a|
  {
    if a == [] {
      assert a + b == b;
    } else {
      assert (a + b)[1..] == a[1..] + b;
      NewlinesConcat(a[1..], b);
    }
  }

  lemma {:induction false} NoNewlines(s: string)
    ensures Newlines(s) == 0 <==> OneLine(s)
    decreases |s|
  {
    if s == [] {
    } else {
      NoNewlines(s[1..]);
      if OneLine(s) {
        assert OneLine(s[1..]);
      } else if s[0] != '\n' {
        var i :| 0 <= i < |s| && s[i] == '\n';
        assert s[1..][i - 1] == '\n';
      }
    }
  }

  predicate EndsInNewline(s: string) {
    s != [] && s[|s| - 1] == '\n'
  }

  lemma {:induction false} LineCount(text: string)
    requires text != [] && !EndsInNewline(text)
    ensures |Lines(text)| == Newlines(text) + 1
    decreases |text|
  {
    match FindNewline(text, 0)
    case None => NoNewlines(text);
    case Some(i) =>
      var rest := text[i + 1..];
      assert text == text[..i] + "\n" + rest;
      NewlinesConcat(text[..i] + "\n", rest);
      NewlinesConcat(text[..i], "\n");
      NoNewlines(text[..i]);
      assert Newlines("\n") == 1 + Newlines("");
      LineCount(rest);
  }

  lemma {:induction false} NewlinesNumbered(texts: seq<string>, i: nat)
    requires texts != []
    ensures Newlines(Numbered(texts, i)) >= |texts| - 1
    ensures (exists k :: 0 <= k < |texts| && !OneLine(texts[k])) ==> Newlines(Numbered(texts, i)) >= |texts|
    decreases |texts|
  {
    var first := Label(i) + texts[0];
    NewlinesConcat(Label(i), texts[0]);
    NoNewlines(texts[0]);
    if |texts| == 1 {
    } else {
      var rest := Numbered(texts[1..], i + 1);
      assert Numbered(texts, i) == first + ("\n" + rest);
      NewlinesConcat(first, "\n" + rest);
      assert ("\n" + rest)[1..] == rest;
      NewlinesNumbered(texts[1..], i + 1);
      if k :| 0 < k < |texts| && !OneLine(texts[k]) {
        assert !OneLine(texts[1..][k - 1]);
      }
    }
  }

  lemma {:induction false} SameHead(buffer: string, pos: nat, m: nat, n: nat)
    requires At(buffer, pos, "*" + ToString(m) + CRLF) && At(buffer, pos, "*" + ToString(n) + CRLF)
    ensures m == n
  {
    NumberLine(buffer, pos, '*', m);
    NumberLine(buffer, pos, '*', n);
    ReadBack(m);
    ReadBack(n);
  }

  /** The number in the head of an array is its length. */
  lemma {:induction false} SameArraySameLength(a: seq<string>, b: seq<string>)
    requires ArrayOf(a) == ArrayOf(b)
    ensures |a| == |b|
  {
    var wire := ArrayOf(a);
    assert At(wire, 0, wire);
    ArrayParts(wire, 0, a);
    ArrayParts(wire, 0, b);
    SameHead(wire, 0, |a|, |b|);
  }

  lemma {:induction false} TooManyLines(texts: seq<string>)
    requires texts != [] && !EndsInNewline(Numbered(texts, 1)) && !OneLiners(texts)
    ensures Serialize(Numbered(texts, 1)) != ArrayOf(Wires(texts))
  {
    var text := Numbered(texts, 1);
    LooksLikeList(texts);
    ListText(text);
    LineCount(text);
    NewlinesNumbered(texts, 1);
    if Serialize(text) == ArrayOf(Wires(texts)) {
      SameArraySameLength(SerializeLines(Lines(text), |text|), Wires(texts));
    }
  }

  /** Numbered texts are sent as one element each exactly when each is on one line. */
  lemma {:induction false} ShapeKeptExactly(texts: seq<string>)
    requires texts != [] && !EndsInNewline(Numbered(texts, 1))
    ensures Serialize(Numbered(texts, 1)) == ArrayOf(Wires(texts)) <==> OneLiners(texts)
  {
    if OneLiners(texts) {
      ListWire(texts);
    } else {
      TooManyLines(texts);
    }
  }

  function Quotes(strings: seq<string>): (r: seq<Response>)
    ensures |r| == |strings|
  {
    if strings == [] then [] else [Quote(strings[0])] + Quotes(strings[1..])
  }

  lemma {:induction false} QuotesAt(strings: seq<string>, k: nat)
    requires k < |strings|
    ensures Quotes(strings)[k] == Quote(strings[k])
    decreases |strings|
  {
    if k == 0 {
    } else {
      QuotesAt(strings[1..], k - 1);
    }
  }

  lemma {:induction false} QuotesShown(strings: seq<string>)
    ensures Wires(Shows(Quotes(strings))) == BulkStrings(strings)
    ensures forall k :: 0 <= k < |strings| ==> Shows(Quotes(strings))[k] == Quoted(strings[k])
    decreases |strings|
  {
    if strings == [] {
    } else {
      QuoteWire(strings[0]);
      assert Quotes(strings)[1..] == Quotes(strings[1..]);
      QuotesShown(strings[1..]);
    }
  }

  lemma {:induction false} LastCharacter(texts: seq<string>, i: nat)
    requires texts != [] && texts[|texts| - 1] != [] && !EndsInNewline(texts[|texts| - 1])
    ensures Numbered(texts, i) != [] && !EndsInNewline(Numbered(texts, i))
    decreases |texts|
  {
    if |texts| == 1 {
    } else {
      LastCharacter(texts[1..], i + 1);
    }
  }

  lemma {:induction false} QuotedOneLine(s: string)
    ensures OneLine(Quoted(s)) <==> OneLine(s)
  {
    if OneLine(Quoted(s)) {
      forall i | 0 <= i < |s| ensures s[i] != '\n' {
        assert Quoted(s)[i + 1] == s[i];
      }
    }
  }

  /** The strings of LRANGE or KEYS reach the wire as they are exactly when none holds a newline. */
  lemma {:induction false} StringsSentExactly(strings: seq<string>)
    requires strings != []
    ensures Serialize(Show(List(Quotes(strings)))) == ArrayOf(BulkStrings(strings)) <==> OneLiners(strings)
  {
    var texts := Shows(Quotes(strings));
    QuotesShown(strings);
    LastCharacter(texts, 1);
    ShapeKeptExactly(texts);
    QuotedOneLiners(strings, texts);
  }

  lemma {:induction false} QuotedOneLiners(strings: seq<string>, texts: seq<string>)
    requires |strings| == |texts| && forall k :: 0 <= k < |strings| ==> texts[k] == Quoted(strings[k])
    ensures OneLiners(texts) <==> OneLiners(strings)
  {
    forall k | 0 <= k < |strings| ensures OneLine(texts[k]) <==> OneLine(strings[k]) {
      QuotedOneLine(strings[k]);
    }
  }

  lemma {:induction false} JoinedText(a: string, b: string, l: string)
    ensures Quoted(a + "\"\n" + l + "\"" + b) == Quoted(a) + "\n" + (l + Quoted(b))
  {
  }

  /** With a newline in an element, two different lists have one text. */
  lemma {:induction false} ListTextAmbiguous(a: string, b: string)
    ensures Numbered([Quoted(a + "\"\n" + Label(2) + "\"" + b)], 1) == Numbered([Quoted(a), Quoted(b)], 1)
  {
    JoinedText(a, b, Label(2));
    var two := [Quoted(a), Quoted(b)];
    assert two[1..] == [Quoted(b)];
    assert Numbered(two, 1) == Label(1) + Quoted(a) + "\n" + (Label(2) + Quoted(b));
  }

  // ---------------------------------------------------------------------
  // A published message
  // ---------------------------------------------------------------------

  lemma {:induction false} BulksReadAs(strings: seq<string>)
    requires forall k :: 0 <= k < |strings| ==> |strings[k]| < 0x8000_0000
    ensures EachReadAs(BulkStrings(strings), Shows(Quotes(strings)))
    decreases |strings|
  {
    if strings == [] {
    } else {
      QuoteReadAs(strings[0]);
      BulksReadAs(strings[1..]);
      assert Quotes(strings)[1..] == Quotes(strings[1..]);
    }
  }

  /** Built as an array, a message is shown with its channel and payload whatever bytes they hold. */
  lemma {:induction false} PublishedShown(channel: string, message: string)
    requires |channel| < 0x8000_0000 && |message| < 0x8000_0000
    ensures ReadAs(Push(channel, message), Show(List(Quotes(["message", channel, message]))))
  {
    var strings := ["message", channel, message];
    BulksReadAs(strings);
    ArrayReadAs(BulkStrings(strings), Shows(Quotes(strings)));
  }

  // ---------------------------------------------------------------------
  // A conversation
  // ---------------------------------------------------------------------

  /** Each text is one that the client shows as it is written. */
  ghost predicate AllTrip(texts: seq<string>) {
    forall k :: 0 <= k < |texts| ==> RoundTrips(texts[k])
  }

  lemma {:induction false} WiresFrom(texts: seq<string>, i: nat, more: string)
    requires i < |texts|
    ensures Concat(Wires(texts[i..])) + more == Serialize(texts[i]) + (Concat(Wires(texts[i + 1..])) + more)
  {
    assert texts[i..][1..] == texts[i + 1..];
    assert Wires(texts[i..])[1..] == Wires(texts[i + 1..]);
  }

  lemma {:induction false} FirstShown(text: string, rest: string)
    requires RoundTrips(text)
    ensures ParseAt(Serialize(text) + rest, 0) == Some(Value(text, |Serialize(text)|))
    ensures (Serialize(text) + rest)[|Serialize(text)|..] == rest
  {
    var wire := Serialize(text);
    assert At(wire + rest, 0, wire + rest);
    ReadHere(wire + rest, 0, wire, rest, text);
  }

  /** What has been read and what is still to come. */
  ghost predicate ReadSoFar(texts: seq<string>, i: nat, shown: seq<string>, coming: string, more: string) {
    i <= |texts| && shown == texts[..i] && coming == Concat(Wires(texts[i..])) + more
  }

  lemma {:induction false} ReadOneMore(texts: seq<string>, i: nat, shown: seq<string>, coming: string, more: string,
                                       text: string, left: string)
    requires AllTrip(texts) && i < |texts| && ReadSoFar(texts, i, shown, coming, more)
    requires ParseAt(coming, 0).Some? ==>
      text == ParseAt(coming, 0).value.text && left == coming[ParseAt(coming, 0).value.next..]
    ensures ReadSoFar(texts, i + 1, shown + [text], left, more)
  {
    WiresFrom(texts, i, more);
    FirstShown(texts[i], Concat(Wires(texts[i + 1..])) + more);
    assert texts[..i + 1] == texts[..i] + [texts[i]];
  }

  /**
   Whatever pieces the replies arrive in, the client shows each of them as the
   handler wrote it, in order, and keeps what follows for the next read, if they
   are texts that it shows as they are written.
   */
  method ReadTexts(client: Client, ghost texts: seq<string>, n: nat, chunks: seq<string>, ghost more: string)
    returns (shown: seq<string>, left: seq<string>)
    requires n == |texts| && client.readBuffer + Concat(chunks) == Concat(Wires(texts)) + more
    modifies client
    ensures AllTrip(texts) ==> shown == texts && client.readBuffer + Concat(left) == more
  {
    shown, left := [], chunks;
    assert texts[0..] == texts && texts[..0] == [];
    for i := 0 to n
      invariant AllTrip(texts) ==> ReadSoFar(texts, i, shown, client.readBuffer + Concat(left), more)
    {
      ghost var coming := client.readBuffer + Concat(left);
      var ok, text, used := client.ReadRespResponse(left);
      left := left[used..];
      if AllTrip(texts) {
        ReadOneMore(texts, i, shown, coming, more, text, client.readBuffer + Concat(left));
      }
      shown := shown + [text];
    }
    assert texts[..n] == texts && texts[n..] == [];
    assert "" + more == more;
  }

  /** The same of faithful replies. */
  method ReadReplies(client: Client, replies: seq<Response>, chunks: seq<string>, ghost more: string)
    returns (shown: seq<string>, left: seq<string>)
    requires client.readBuffer + Concat(chunks) == Concat(Wires(Shows(replies))) + more
    requires forall k :: 0 <= k < |replies| ==> Faithful(replies[k])
    modifies client
    ensures shown == Shows(replies) && client.readBuffer + Concat(left) == more
  {
    shown, left := ReadTexts(client, Shows(replies), |replies|, chunks, more);
    forall k | 0 <= k < |replies| ensures RoundTrips(Shows(replies)[k]) {
      ShowsAt(replies, k);
      FaithfulTrips(replies[k]);
    }
  }
}
