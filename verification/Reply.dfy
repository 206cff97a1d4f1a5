/**
 Replies: the text a command handler produces, the wire form the server infers
 from that text, and the text the client shows for the wire form.
 */
module Reply {
  import opened Base
  import opened Text
  import opened Resp

  // ---------------------------------------------------------------------
  // Serialization
  // ---------------------------------------------------------------------

  const NULL_BULK := "$-1\r\n"
  const EMPTY_ARRAY := "*0\r\n"

  function SimpleString(s: string): string {
    "+" + s + CRLF
  }

  function ErrorLine(s: string): string {
    "-" + s + CRLF
  }

  function IntegerLine(n: int): string {
    ":" + ToString(n) + CRLF
  }

  predicate StartsWith(s: string, prefix: string) {
    At(s, 0, prefix)
  }

  predicate IsStatus(text: string) {
    text == "OK" || text == "PONG" || text == "QUEUED"
  }

  predicate IsError(text: string) {
    StartsWith(text, "ERR") || StartsWith(text, "WRONGTYPE ") || StartsWith(text, "NOAUTH ")
  }

  predicate IsQuoted(text: string) {
    |text| >= 2 && text[0] == '"' && text[|text| - 1] == '"'
  }

  predicate IsList(text: string) {
    |text| >= 3 && '1' <= text[0] <= '9' && text[1] == ')'
  }

  predicate IsPush(text: string) {
    StartsWith(text, "subscribe ") || StartsWith(text, "unsubscribe ") || StartsWith(text, "message ")
  }

  /** The number behind "(integer) ", if there is one. */
  function IntegerIn(text: string): Option<int> {
    if |text| > 10 && StartsWith(text, "(integer) ") then Stoll(text[10..]) else None
  }

  /** `std::getline` until the end: a final newline does not start another line. */
  function Lines(text: string): (r: seq<string>)
    ensures forall i :: 0 <= i < |r| ==> |r[i]| <= |text|
    decreases |text|
  {
    if text == [] then []
    else match FindNewline(text, 0)
      case None => [text]
      case Some(i) => [text[..i]] + Lines(text[i + 1..])
  }

  /** The first ") " of a line. */
  function FindParen(line: string, start: nat): (r: Option<nat>)
    ensures r.Some? ==> start <= r.value && r.value + 2 <= |line|
    decreases |line| - start
  {
    if start + 2 > |line| then None
    else if line[start] == ')' && line[start + 1] == ' ' then Some(start)
    else FindParen(line, start + 1)
  }

  /** The wire form of a reply text, by the first pattern that fits. */
  function Serialize(text: string): string
    decreases |text|, 1, 0
  {
    if text == "" then NULL_BULK
    else if IsStatus(text) then SimpleString(text)
    else if text == "(nil)" then NULL_BULK
    else if text == "(empty list)" then EMPTY_ARRAY
    else if IsError(text) then ErrorLine(text)
    else if IntegerIn(text).Some? then IntegerLine(IntegerIn(text).value)
    else if IsQuoted(text) then BulkString(text[1..|text| - 1])
    else if IsList(text) then ArrayOf(SerializeLines(Lines(text), |text|))
    else if IsPush(text) then Concat(PushLines(Lines(text)))
    else BulkString(text)
  }

  function SerializeLines(lines: seq<string>, bound: nat): (r: seq<string>)
    requires forall i :: 0 <= i < |lines| ==> |lines[i]| <= bound
    ensures |r| == |lines|
    decreases bound, 0, |lines|
  {
    if lines == [] then [] else [SerializeLine(lines[0], bound)] + SerializeLines(lines[1..], bound)
  }

  /** One line "N) content" of a list. */
  function SerializeLine(line: string, bound: nat): string
    requires |line| <= bound
    decreases bound, 0, 0
  {
    match FindParen(line, 0)
    case None => BulkString(line)
    case Some(p) =>
      var content := line[p + 2..];
      if IsQuoted(content) then BulkString(content[1..|content| - 1]) else Serialize(content)
  }

  /** A confirmation or a message: type, channel, and the rest of the line. */
  function PushLine(line: string): string {
    var kind := Word(line);
    var channel := Word(kind.1);
    var third := SkipBlanks(channel.1);
    var last :=
      if kind.0 != "message" && Stoll(third).Some? then IntegerLine(Stoll(third).value) else BulkString(third);
    ArrayOf([BulkString(kind.0), BulkString(channel.0), last])
  }

  function PushLines(lines: seq<string>): seq<string> {
    if lines == [] then [] else [PushLine(lines[0])] + PushLines(lines[1..])
  }

  function SkipBlanks(s: string): string {
    if s != [] && IsSpace(s[0]) then SkipBlanks(s[1..]) else s
  }

  /** The next word and what follows it. */
  function Word(s: string): (string, string) {
    var t := SkipBlanks(s);
    var n := WordLength(t);
    (t[..n], t[n..])
  }

  function WordLength(s: string): (n: nat)
    ensures n <= |s|
  {
    if s == [] || IsSpace(s[0]) then 0 else 1 + WordLength(s[1..])
  }

  // ---------------------------------------------------------------------
  // The code
  // ---------------------------------------------------------------------

  lemma {:induction false} ContentWire(line: string, bound: nat, content: string)
    requires |line| <= bound && FindParen(line, 0).Some? && content == line[FindParen(line, 0).value + 2..]
    ensures !IsQuoted(content) ==> SerializeLine(line, bound) == Serialize(content)
    ensures IsQuoted(content) ==> SerializeLine(line, bound) == BulkString(content[1..|content| - 1])
  {
  }

  method SerializeElement(line: string, ghost bound: nat) returns (element: string)
    requires |line| <= bound
    ensures element == SerializeLine(line, bound)
    decreases bound, 0
  {
    var paren := FindParen(line, 0);
    if paren.None? { return BulkString(line); }
    var content := line[paren.value + 2..];
    ContentWire(line, bound, content);
    if IsQuoted(content) { return BulkString(content[1..|content| - 1]); }
    element := SerializeResponse(content);
  }

  method SerializeElements(lines: seq<string>, ghost bound: nat) returns (elements: seq<string>)
    requires forall i :: 0 <= i < |lines| ==> |lines[i]| <= bound
    ensures elements == SerializeLines(lines, bound)
    decreases bound, 1
  {
    elements := [];
    for i := 0 to |lines|
      invariant elements + SerializeLines(lines[i..], bound) == SerializeLines(lines, bound)
    {
      var element := SerializeElement(lines[i], bound);
      assert lines[i..][1..] == lines[i + 1..];
      Regroup(elements, [element], SerializeLines(lines[i + 1..], bound));
      elements := elements + [element];
    }
    assert elements + [] == elements;
  }

  method SerializeResponse(response: string) returns (wire: string)
    ensures wire == Serialize(response)
    decreases |response|, 2
  {
    if response == "" { return NULL_BULK; }
    if response == "OK" { return SimpleString("OK"); }
    if response == "PONG" { return SimpleString("PONG"); }
    if response == "QUEUED" { return SimpleString("QUEUED"); }
    if response == "(nil)" { return NULL_BULK; }
    if response == "(empty list)" { return EMPTY_ARRAY; }
    if IsError(response) { return ErrorLine(response); }
    var n := IntegerIn(response);
    if n.Some? { return IntegerLine(n.value); }
    if IsQuoted(response) { return BulkString(response[1..|response| - 1]); }
    if IsList(response) {
      var elements := SerializeElements(Lines(response), |response|);
      wire := JoinArray(elements);
      return;
    }
    if IsPush(response) { return Concat(PushLines(Lines(response))); }
    return BulkString(response);
  }
}
