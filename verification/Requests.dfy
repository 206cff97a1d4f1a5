/** What the server makes of whole requests: inline lines, arrays, and what is neither. */
module Requests {
  import opened Base
  import opened Text
  import opened Numbers
  import opened Parser
  import opened Spelling
  import opened Resp
  import opened Server

  // ---------------------------------------------------------------------
  // Lines
  // ---------------------------------------------------------------------

  ghost predicate NoBreak(line: string) {
    forall i :: 0 <= i < |line| ==> line[i] != '\r' && line[i] != '\n'
  }

  predicate Trimmed(c: char) {
    c == ' ' || c == '\t' || c == '\r'
  }

  lemma {:induction false} GapTrimmed(gap: string, rest: string) returns (gap': string)
    requires AllBlank(gap) && rest != [] && !IsBlank(rest[0])
    ensures AllBlank(gap') && TrimLeft(gap + rest) == gap' + rest
    decreases |gap|
  {
    if gap == [] || !Trimmed(gap[0]) {
      gap' := gap;
      if gap == [] { assert gap + rest == rest; }
    } else {
      assert (gap + rest)[1..] == gap[1..] + rest;
      gap' := GapTrimmed(gap[1..], rest);
    }
  }

  lemma {:induction false} WordStart(w: Word, open: bool)
    requires IsWord(w)
    ensures Written(w, open) != [] && !IsBlank(Written(w, open)[0])
  {
  }

  lemma {:induction false} LineTrimmed(words: seq<Word>, gaps: seq<string>, open: bool) returns (gaps': seq<string>)
    requires words != [] && IsLine(words, gaps, open)
    ensures IsLine(words, gaps', open) && TrimLeft(Line(words, gaps, open)) == Line(words, gaps', open)
  {
    var w := Written(words[0], open && |words| == 1);
    var tail := Line(words[1..], gaps[1..], open);
    WordStart(words[0], open && |words| == 1);
    assert (w + tail)[0] == w[0];
    var gap := GapTrimmed(gaps[0], w + tail);
    gaps' := [gap] + gaps[1..];
    assert gaps'[1..] == gaps[1..];
    Regroup(gaps[0], w, tail);
    Regroup(gap, w, tail);
  }

  lemma {:induction false} WholeLine(buffer: string, line: string)
    requires NoBreak(line) && At(buffer, 0, line + CRLF) && (line != [] ==> line[0] != '*')
    ensures ParseCommand(buffer) == ParseLine(line, |line| + 2)
  {
    LineEnds(buffer, 0, line);
    assert buffer[..|line|] == buffer[0..|line|] == line;
    if line != [] { assert (line + CRLF)[0] == line[0] == buffer[0]; } else { assert (line + CRLF)[0] == '\r'; }
  }

  lemma {:induction false} NotAllTrimmed(words: seq<Word>, gaps: seq<string>, open: bool)
    requires words != [] && IsLine(words, gaps, open)
    ensures Line(words, gaps, open) != []
  {
    WordStart(words[0], open && |words| == 1);
  }

  lemma {:induction false} AllMeantSome(words: seq<Word>)
    ensures |AllMeant(words)| == |words|
    decreases |words|
  {
    if words == [] {
    } else {
      AllMeantSome(words[1..]);
    }
  }

  /** A line of words stands for the command they mean, and exactly that line is consumed. */
  lemma {:induction false} InlineExactly(buffer: string, words: seq<Word>, gaps: seq<string>, open: bool)
    requires words != [] && IsLine(words, gaps, open) && NoBreak(Line(words, gaps, open))
    requires Line(words, gaps, open)[..1] != "*" && At(buffer, 0, Line(words, gaps, open) + CRLF)
    ensures ParseCommand(buffer).Ok? && ParseCommand(buffer).consumed == |Line(words, gaps, open)| + 2
    ensures Resp.Stands(AllMeant(words), ParseCommand(buffer).command)
  {
    var line := Line(words, gaps, open);
    NotAllTrimmed(words, gaps, open);
    WholeLine(buffer, line);
    var gaps' := LineTrimmed(words, gaps, open);
    NotAllTrimmed(words, gaps', open);
    var trimmed := TrimLeft(line);
    assert At(trimmed, 0, Line(words, gaps', open));
    TokensExactly(trimmed, 0, words, gaps', open);
    AllMeantSome(words);
    MadeStands(AllMeant(words));
  }

  lemma {:induction false} TrimmedAway(line: string)
    ensures TrimLeft(line) == [] <==> forall i :: 0 <= i < |line| ==> Trimmed(line[i])
    ensures AllBlank(line) ==> AllBlank(TrimLeft(line))
    decreases |line|
  {
    if line == [] || !Trimmed(line[0]) {
    } else {
      TrimmedAway(line[1..]);
      assert forall i :: 0 < i < |line| ==> line[i] == line[1..][i - 1];
    }
  }

  /** A line of blanks and tabs is consumed in silence; with other blanks in it, it is an error. */
  lemma {:induction false} BlankLineExactly(buffer: string, line: string)
    requires AllBlank(line) && NoBreak(line) && At(buffer, 0, line + CRLF)
    ensures ParseCommand(buffer) ==
      if forall i :: 0 <= i < |line| ==> line[i] == ' ' || line[i] == '\t' then NeedMore(|line| + 2) else ProtocolError
  {
    WholeLine(buffer, line);
    TrimmedAway(line);
    var rest := TrimLeft(line);
    GapSkipped(rest, 0, rest);
  }

  /** Without the end of a line, the server waits for 64 kilobytes and no longer. */
  lemma {:induction false} NoLineYetExactly(buffer: string)
    requires buffer != [] && buffer[0] != '*' && forall i :: 0 <= i < |buffer| ==> buffer[i] != '\n'
    ensures ParseCommand(buffer) == if |buffer| > 65536 then ProtocolError else NeedMore(0)
  {
  }

  // ---------------------------------------------------------------------
  // Arrays
  // ---------------------------------------------------------------------

  /** An element of an array; any negative length stands for an empty string. */
  datatype Element = Bulk(text: string) | Null(length: int)

  predicate IsElement(e: Element) {
    match e
    case Bulk(t) => |t| < 0x8000_0000
    case Null(n) => -0x8000_0000 <= n < 0
  }

  function Sent(e: Element): string {
    match e
    case Bulk(t) => BulkString(t)
    case Null(n) => "$" + ToString(n) + CRLF
  }

  function Received(e: Element): string {
    match e
    case Bulk(t) => t
    case Null(_) => ""
  }

  function AllSentBytes(es: seq<Element>): string {
    Concat(ElementWires(es))
  }

  function ElementWires(es: seq<Element>): (r: seq<string>)
    ensures |r| == |es|
  {
    if es == [] then [] else [Sent(es[0])] + ElementWires(es[1..])
  }

  function AllReceived(es: seq<Element>): (r: seq<string>)
    ensures |r| == |es|
  {
    if es == [] then [] else [Received(es[0])] + AllReceived(es[1..])
  }

  ghost predicate AllElements(es: seq<Element>) {
    forall i :: 0 <= i < |es| ==> IsElement(es[i])
  }

  lemma {:induction false} NullRead(buffer: string, pos: nat, n: int)
    requires -0x8000_0000 <= n < 0 && At(buffer, pos, "$" + ToString(n) + CRLF)
    ensures ReadBulk(buffer, pos) == Got("", pos + 3 + |ToString(n)|)
  {
    NumberLine(buffer, pos, '$', n);
    StoiBack(n);
    BulkRead(buffer, pos, pos + 1 + |ToString(n)|, n);
  }

  lemma {:induction false} ElementRead(buffer: string, pos: nat, e: Element)
    requires IsElement(e) && At(buffer, pos, Sent(e))
    ensures ReadBulk(buffer, pos) == Got(Received(e), pos + |Sent(e)|)
  {
    match e
    case Bulk(t) => BulkBack(buffer, pos, t);
    case Null(n) => NullRead(buffer, pos, n);
  }

  /** The texts stand one after another as bulk strings from `pos` to `end`. */
  ghost predicate BulksInARow(buffer: string, pos: nat, texts: seq<string>, end: nat)
    decreases |texts|
  {
    if texts == [] then pos == end
    else
      var first := ReadBulk(buffer, pos);
      first.Got? && first.value == texts[0] && BulksInARow(buffer, first.next, texts[1..], end)
  }

  lemma {:induction false} RowLonger(buffer: string, pos: nat, text: string, next: nat, texts: seq<string>, end: nat)
    requires ReadBulk(buffer, pos) == Got(text, next) && BulksInARow(buffer, next, texts, end)
    ensures BulksInARow(buffer, pos, [text] + texts, end)
  {
    assert ([text] + texts)[1..] == texts;
  }

  /** Wherever `wire` stands, `text` is read from it. */
  ghost predicate BulkReadAs(wire: string, text: string) {
    forall buffer, pos: nat :: At(buffer, pos, wire) ==> ReadBulk(buffer, pos) == Got(text, pos + |wire|)
  }

  ghost predicate EachBulkReadAs(wires: seq<string>, texts: seq<string>)
    decreases |texts|
  {
    && |wires| == |texts|
    && (texts != [] ==> BulkReadAs(wires[0], texts[0]) && EachBulkReadAs(wires[1..], texts[1..]))
  }

  lemma {:induction false} ElementReadAs(e: Element)
    requires IsElement(e)
    ensures BulkReadAs(Sent(e), Received(e))
  {
    forall buffer, pos: nat | At(buffer, pos, Sent(e)) ensures ReadBulk(buffer, pos) ==
      Got(Received(e), pos + |Sent(e)|) {
      ElementRead(buffer, pos, e);
    }
  }

  lemma {:induction false} ElementsReadAs(es: seq<Element>)
    requires AllElements(es)
    ensures EachBulkReadAs(ElementWires(es), AllReceived(es))
    decreases |es|
  {
    if es == [] {
    } else {
      ElementReadAs(es[0]);
      ElementsReadAs(es[1..]);
      assert ElementWires(es)[1..] == ElementWires(es[1..]) && AllReceived(es)[1..] == AllReceived(es[1..]);
    }
  }

  lemma {:induction false} BulkFirst(buffer: string, pos: nat, wires: seq<string>, texts: seq<string>, end: nat)
    requires |wires| == |texts| > 0 && BulkReadAs(wires[0], texts[0]) && At(buffer, pos, Concat(wires))
    requires BulksInARow(buffer, pos + |wires[0]|, texts[1..], end)
    ensures BulksInARow(buffer, pos, texts, end)
  {
    AtConcat(buffer, pos, wires[0], Concat(wires[1..]));
    RowLonger(buffer, pos, texts[0], pos + |wires[0]|, texts[1..], end);
    assert [texts[0]] + texts[1..] == texts;
  }

  lemma {:induction false} WiresInARow(buffer: string, pos: nat, wires: seq<string>, texts: seq<string>, end: nat)
    requires EachBulkReadAs(wires, texts) && At(buffer, pos, Concat(wires)) && end == pos + |Concat(wires)|
    ensures BulksInARow(buffer, pos, texts, end)
    decreases |texts|
  {
    if texts == [] {
    } else {
      AtConcat(buffer, pos, wires[0], Concat(wires[1..]));
      WiresInARow(buffer, pos + |wires[0]|, wires[1..], texts[1..], end);
      BulkFirst(buffer, pos, wires, texts, end);
    }
  }

  lemma {:induction false} ElementsInARow(buffer: string, pos: nat, es: seq<Element>, end: nat)
    requires AllElements(es) && At(buffer, pos, AllSentBytes(es)) && end == pos + |AllSentBytes(es)|
    ensures BulksInARow(buffer, pos, AllReceived(es), end)
  {
    ElementsReadAs(es);
    WiresInARow(buffer, pos, ElementWires(es), AllReceived(es), end);
  }

  /** The elements read so far, and what becomes of the rest. */
  lemma {:induction false} BulksStep(buffer: string, pos: nat, count: nat, text: string, next: nat)
    requires count > 0 && ReadBulk(buffer, pos) == Got(text, next)
    ensures ReadBulks(buffer, pos, count) == Prefixed([text], ReadBulks(buffer, next, count - 1))
  {
  }

  lemma {:induction false} RowRead(buffer: string, pos: nat, texts: seq<string>, end: nat, more: nat, count: nat)
    requires BulksInARow(buffer, pos, texts, end) && count == |texts| + more
    ensures ReadBulks(buffer, pos, count) == Prefixed(texts, ReadBulks(buffer, end, more))
    decreases |texts|
  {
    if texts == [] {
      PrefixedNothing(ReadBulks(buffer, pos, more));
    } else {
      var next := ReadBulk(buffer, pos).next;
      BulksStep(buffer, pos, count, texts[0], next);
      RowRead(buffer, next, texts[1..], end, more, count - 1);
      assert [texts[0]] + texts[1..] == texts;
      PrefixedJoin([texts[0]], texts[1..], ReadBulks(buffer, pos, count),
                   ReadBulks(buffer, next, count - 1), ReadBulks(buffer, end, more), texts);
    }
  }

  lemma {:induction false} PrefixedJoin(a: seq<string>, b: seq<string>, x: Take<seq<string>>, y: Take<seq<string>>,
                                        z: Take<seq<string>>, c: seq<string>)
    requires x == Prefixed(a, y) && y == Prefixed(b, z) && c == a + b
    ensures x == Prefixed(c, z)
  {
    PrefixedTwice(a, b, z);
  }

  /** What becomes of the elements of an array. */
  function Verdict(r: Take<seq<string>>): Parsed
    requires r.Got? ==> r.value != []
  {
    match r
    case More => NeedMore(0)
    case Bad => ProtocolError
    case Got(parts, next) => Ok(MakeCommand(parts), next)
  }

  lemma {:induction false} ArrayOpens(buffer: string, n: int, rest: string, start: nat)
    requires -0x8000_0000 <= n < 0x8000_0000 && At(buffer, 0, "*" + ToString(n) + CRLF + rest)
    requires start == 3 + |ToString(n)|
    ensures At(buffer, start, rest)
    ensures n <= 0 ==> ParseCommand(buffer) == ProtocolError
    ensures n > 0 ==> ParseCommand(buffer) == Verdict(ReadBulks(buffer, start, n))
  {
    AtConcat(buffer, 0, "*" + ToString(n) + CRLF, rest);
    NumberLine(buffer, 0, '*', n);
    StoiBack(n);
  }

  /** An array of elements, null ones among them, stands for the command they make. */
  lemma {:induction false} ArrayExactly(buffer: string, es: seq<Element>, start: nat)
    requires 0 < |es| < 0x8000_0000 && AllElements(es) && start == 3 + |ToString(|es|)|
    requires At(buffer, 0, "*" + ToString(|es|) + CRLF + AllSentBytes(es))
    ensures ParseCommand(buffer).Ok? && ParseCommand(buffer).consumed == start + |AllSentBytes(es)|
    ensures Resp.Stands(AllReceived(es), ParseCommand(buffer).command)
  {
    ArrayOpens(buffer, |es|, AllSentBytes(es), start);
    ElementsGot(buffer, start, es, start + |AllSentBytes(es)|);
    MadeStands(AllReceived(es));
  }

  lemma {:induction false} ElementsGot(buffer: string, pos: nat, es: seq<Element>, end: nat)
    requires AllElements(es) && At(buffer, pos, AllSentBytes(es)) && end == pos + |AllSentBytes(es)|
    ensures ReadBulks(buffer, pos, |es|) == Got(AllReceived(es), end)
  {
    ElementsInARow(buffer, pos, es, end);
    RowRead(buffer, pos, AllReceived(es), end, 0, |es|);
    assert AllReceived(es) + [] == AllReceived(es);
  }

  /** An array of no elements, or of fewer, is an error. */
  lemma {:induction false} EmptyArrayRejected(buffer: string, n: int, rest: string)
    requires -0x8000_0000 <= n <= 0 && At(buffer, 0, "*" + ToString(n) + CRLF + rest)
    ensures ParseCommand(buffer) == ProtocolError
  {
    ArrayOpens(buffer, n, rest, 3 + |ToString(n)|);
  }

  lemma {:induction false} UncountedRejected(buffer: string, text: string)
    requires NoBreak(text) && Stoi(text) == None && At(buffer, 0, "*" + text + CRLF)
    ensures ParseCommand(buffer) == ProtocolError
  {
    LineEnds(buffer, 0, "*" + text);
    assert ("*" + text + CRLF)[0] == buffer[0];
    assert buffer[1..1 + |text|] == buffer[0..1 + |text|][1..] == text;
  }

  /** What is no element at all: it does not start with a dollar sign, its length is no
      number, or its text is not followed by CRLF. */
  ghost predicate Malformed(buffer: string, pos: nat) {
    || (pos < |buffer| && buffer[pos] != '$')
    || (exists text :: NoBreak(text) && Stoi(text) == None && At(buffer, pos, "$" + text + CRLF))
    || (exists n: nat :: n < 0x8000_0000 && At(buffer, pos, "$" + ToString(n) + CRLF)
          && Overrun(buffer, pos + 3 + |ToString(n)| + n))
  }

  predicate Overrun(buffer: string, end: nat) {
    end + 2 <= |buffer| && !(buffer[end] == '\r' && buffer[end + 1] == '\n')
  }

  lemma {:induction false} UnsizedRead(buffer: string, pos: nat, text: string)
    requires NoBreak(text) && Stoi(text) == None && At(buffer, pos, "$" + text + CRLF)
    ensures ReadBulk(buffer, pos) == Bad
  {
    LineEnds(buffer, pos, "$" + text);
    assert ("$" + text + CRLF)[0] == buffer[pos];
    assert buffer[pos + 1..pos + 1 + |text|] == buffer[pos..pos + 1 + |text|][1..] == text;
  }

  lemma {:induction false} MalformedRead(buffer: string, pos: nat)
    requires Malformed(buffer, pos)
    ensures ReadBulk(buffer, pos) == Bad
  {
    if pos < |buffer| && buffer[pos] != '$' {
    } else if text :| NoBreak(text) && Stoi(text) == None && At(buffer, pos, "$" + text + CRLF) {
      UnsizedRead(buffer, pos, text);
    } else {
      var n: nat :| n < 0x8000_0000 && At(buffer, pos, "$" + ToString(n) + CRLF)
        && Overrun(buffer, pos + 3 + |ToString(n)| + n);
      BulkHead(buffer, pos, n);
    }
  }

  /** Behind any number of good elements, such a thing makes the whole array an error. */
  lemma {:induction false} MalformedRejected(buffer: string, n: int, es: seq<Element>, start: nat)
    requires |es| < n < 0x8000_0000 && AllElements(es) && start == 3 + |ToString(n)|
    requires At(buffer, 0, "*" + ToString(n) + CRLF + AllSentBytes(es))
    requires Malformed(buffer, start + |AllSentBytes(es)|)
    ensures ParseCommand(buffer) == ProtocolError
  {
    ArrayOpens(buffer, n, AllSentBytes(es), start);
    ElementsBad(buffer, start, es, n - |es|, start + |AllSentBytes(es)|);
  }

  lemma {:induction false} ElementsBad(buffer: string, pos: nat, es: seq<Element>, more: nat, end: nat)
    requires AllElements(es) && At(buffer, pos, AllSentBytes(es)) && end == pos + |AllSentBytes(es)|
    requires more > 0 && Malformed(buffer, end)
    ensures ReadBulks(buffer, pos, |es| + more) == Bad
  {
    MalformedRead(buffer, end);
    ElementsInARow(buffer, pos, es, end);
    RowBad(buffer, pos, AllReceived(es), end, more);
  }

  lemma {:induction false} RowBad(buffer: string, pos: nat, texts: seq<string>, end: nat, more: nat)
    requires BulksInARow(buffer, pos, texts, end) && more > 0 && ReadBulk(buffer, end) == Bad
    ensures ReadBulks(buffer, pos, |texts| + more) == Bad
  {
    RowRead(buffer, pos, texts, end, more, |texts| + more);
  }

  // ---------------------------------------------------------------------
  // How a connection ends
  // ---------------------------------------------------------------------

  /** QUIT, in capitals or small letters, ends the connection and is not dispatched. */
  lemma {:induction false} QuitEnds(buffer: string, parts: seq<string>, rest: string, sends: nat -> bool, n: nat)
    requires Sendable(parts) && SameSpelling(parts[0], "QUIT") && |rest| <= 67108864
    requires buffer == EncodeCommand(parts) + rest
    ensures Drain(buffer, sends, n) == Outcome([], rest, Quit)
  {
    assert At(buffer, 0, EncodeCommand(parts));
    CommandBack(buffer, parts);
    MadeStands(parts);
    QuitName(parts, MakeCommand(parts));
    assert buffer[|EncodeCommand(parts)|..] == rest;
  }

  lemma {:induction false} QuitName(parts: seq<string>, c: Command)
    requires Resp.Stands(parts, c) && SameSpelling(parts[0], "QUIT")
    ensures c.name == "QUIT"
  {
    var quit := "QUIT";
    forall i | 0 <= i < 4 ensures c.name[i] == quit[i] {
      assert Capital(parts[0][i], c.name[i]) && SameLetter(parts[0][i], quit[i]);
    }
    assert c.name == quit;
  }

  /** A reply that cannot be sent ends the connection right behind its command. */
  lemma {:induction false} UnsendableEnds(buffer: string, command: Command, consumed: nat, sends: nat -> bool, n: nat)
    requires buffer != [] && ParseCommand(buffer) == Ok(command, consumed) && command.name != "QUIT"
    requires consumed <= |buffer| <= consumed + 67108864 && !sends(n)
    ensures Drain(buffer, sends, n) == Outcome([command], buffer[consumed..], Unsendable)
  {
  }

  /** More than 64 megabytes behind a command end the connection before it is dispatched. */
  lemma {:induction false} FloodEnds(buffer: string, command: Command, consumed: nat, sends: nat -> bool, n: nat)
    requires buffer != [] && ParseCommand(buffer) == Ok(command, consumed) && |buffer| > consumed + 67108864
    ensures Drain(buffer, sends, n) == Outcome([], buffer[consumed..], Flooded)
  {
  }

  /** What is rejected ends the connection; what is skipped leaves no trace. */
  lemma {:induction false} RejectedEnds(buffer: string, sends: nat -> bool, n: nat)
    requires buffer != []
    ensures ParseCommand(buffer) == ProtocolError ==> Drain(buffer, sends, n) == Outcome([], buffer, Rejected)
    ensures ParseCommand(buffer) == NeedMore(0) ==> Drain(buffer, sends, n) == Outcome([], buffer, Waiting)
    ensures forall c :: 0 < c <= |buffer| && ParseCommand(buffer) == NeedMore(c) ==>
              Drain(buffer, sends, n) == Drain(buffer[c..], sends, n)
  {
  }
}
