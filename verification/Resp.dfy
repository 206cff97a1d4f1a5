/** The server's side of the wire: parsing commands out of a growing buffer. */
module Resp {
  import opened Base
  import opened Text
  import opened Parser

  const MAX_LINE := 64 * 1024

  datatype Parsed =
    | Ok(command: Command, consumed: nat)
    | NeedMore(consumed: nat)
    | ProtocolError

  // ---------------------------------------------------------------------
  // RESP arrays
  // ---------------------------------------------------------------------

  /** Something read from the buffer, up to `next`. */
  datatype Take<+T> = Got(value: T, next: nat) | More | Bad

  /** One bulk string; a negative length stands for an empty one. */
  function ReadBulk(buffer: string, pos: nat): Take<string> {
    if pos >= |buffer| then More
    else if buffer[pos] != '$' then Bad
    else match FindCrlf(buffer, pos)
      case None => More
      case Some(crlf) =>
        assert pos != crlf;
        match Stoi(buffer[pos + 1..crlf])
        case None => Bad
        case Some(len) => BulkData(buffer, crlf + 2, len)
  }

  function BulkData(buffer: string, start: nat, len: int): Take<string> {
    if len < 0 then Got("", start)
    else if start + len + 2 > |buffer| then More
    else if !CrlfAt(buffer, start + len) then Bad
    else Got(buffer[start..start + len], start + len + 2)
  }

  function ReadBulks(buffer: string, pos: nat, count: nat): (r: Take<seq<string>>)
    ensures r.Got? ==> |r.value| == count
    decreases count, 0
  {
    if count == 0 then Got([], pos) else Then(ReadBulk(buffer, pos), buffer, count - 1)
  }

  /** A bulk string has been read; reads the others. */
  function Then(first: Take<string>, buffer: string, count: nat): (r: Take<seq<string>>)
    ensures r.Got? ==> |r.value| == count + 1
    decreases count, 1
  {
    match first
    case More => More
    case Bad => Bad
    case Got(text, next) => Prefixed([text], ReadBulks(buffer, next, count))
  }

  function Prefixed(parts: seq<string>, r: Take<seq<string>>): Take<seq<string>> {
    if r.Got? then Got(parts + r.value, r.next) else r
  }

  function ParseArray(buffer: string): Parsed
    requires buffer != [] && buffer[0] == '*'
  {
    match FindCrlf(buffer, 0)
    case None => NeedMore(0)
    case Some(crlf) =>
      assert crlf != 0;
      match Stoi(buffer[1..crlf])
      case None => ProtocolError
      case Some(count) =>
        if count <= 0 then ProtocolError
        else match ReadBulks(buffer, crlf + 2, count)
          case More => NeedMore(0)
          case Bad => ProtocolError
          case Got(parts, next) => Ok(MakeCommand(parts), next)
  }

  // ---------------------------------------------------------------------
  // Inline commands
  // ---------------------------------------------------------------------

  function FindNewline(s: string, start: nat): (r: Option<nat>)
    ensures r.Some? ==> start <= r.value < |s| && s[r.value] == '\n'
    ensures r.Some? ==> forall i :: start <= i < r.value ==> s[i] != '\n'
    ensures r.None? ==> forall i :: start <= i < |s| ==> s[i] != '\n'
    decreases |s| - start
  {
    if start >= |s| then None
    else if s[start] == '\n' then Some(start)
    else FindNewline(s, start + 1)
  }

  /** Drops leading blanks, tabs and carriage returns. */
  function TrimLeft(line: string): string {
    if line != [] && (line[0] == ' ' || line[0] == '\t' || line[0] == '\r') then TrimLeft(line[1..]) else line
  }

  /** What to make of a complete line; an empty one is consumed in silence. */
  function ParseLine(line: string, consume: nat): Parsed {
    var trimmed := TrimLeft(line);
    if trimmed == [] then NeedMore(consume)
    else match Parse(trimmed)
      case None => ProtocolError
      case Some(command) => Ok(command, consume)
  }

  function ParseInline(buffer: string): Parsed {
    match FindCrlf(buffer, 0)
    case Some(crlf) => ParseLine(buffer[..crlf], crlf + 2)
    case None =>
      match FindNewline(buffer, 0)
      case Some(newline) => ParseLine(buffer[..newline], newline + 1)
      case None => if |buffer| > MAX_LINE then ProtocolError else NeedMore(0)
  }

  function ParseCommand(buffer: string): Parsed {
    if buffer == [] then NeedMore(0)
    else if buffer[0] == '*' then ParseArray(buffer)
    else ParseInline(buffer)
  }

  // ---------------------------------------------------------------------
  // The code
  // ---------------------------------------------------------------------

  method ParseRespArray(buffer: string) returns (r: Parsed)
    requires buffer != [] && buffer[0] == '*'
    ensures r == ParseArray(buffer)
  {
    var crlf := SearchCrlf(buffer, 0);
    if crlf.None? { return NeedMore(0); }
    assert crlf.value != 0;
    var count := Stoi(buffer[1..crlf.value]);
    if count.None? { return ProtocolError; }
    if count.value < 0 { return ProtocolError; }
    if count.value == 0 { return ProtocolError; }
    var bulks := ParseBulks(buffer, crlf.value + 2, count.value);
    match bulks {
      case More => return NeedMore(0);
      case Bad => return ProtocolError;
      case Got(parts, next) => return Ok(MakeCommand(parts), next);
    }
  }

  /** The loop over the elements. */
  method ParseBulks(buffer: string, start: nat, count: nat) returns (r: Take<seq<string>>)
    ensures r == ReadBulks(buffer, start, count)
  {
    var pos := start;
    var parts: seq<string> := [];
    ghost var all := ReadBulks(buffer, start, count);
    PrefixedNothing(all);
    for i := 0 to count
      invariant all == Prefixed(parts, ReadBulks(buffer, pos, count - i))
    {
      var bulk := ParseBulk(buffer, pos);
      match bulk {
        case More => return More;
        case Bad => return Bad;
        case Got(text, next) =>
          PrefixedTwice(parts, [text], ReadBulks(buffer, next, count - i - 1));
          parts, pos := parts + [text], next;
      }
    }
    assert parts + [] == parts;
    return Got(parts, pos);
  }

  lemma {:induction false} PrefixedNothing(r: Take<seq<string>>)
    ensures Prefixed([], r) == r
  {
    if r.Got? { assert [] + r.value == r.value; }
  }

  lemma {:induction false} PrefixedTwice(a: seq<string>, b: seq<string>, r: Take<seq<string>>)
    ensures Prefixed(a, Prefixed(b, r)) == Prefixed(a + b, r)
  {
    if r.Got? { assert a + (b + r.value) == a + b + r.value; }
  }

  method ParseBulk(buffer: string, pos: nat) returns (r: Take<string>)
    ensures r == ReadBulk(buffer, pos)
  {
    if pos >= |buffer| { return More; }
    if buffer[pos] != '$' { return Bad; }
    var crlf := SearchCrlf(buffer, pos);
    if crlf.None? { return More; }
    assert crlf.value != pos;
    var len := Stoi(buffer[pos + 1..crlf.value]);
    if len.None? { return Bad; }
    var dataStart := crlf.value + 2;
    if len.value < 0 { return Got("", dataStart); }
    if dataStart + len.value + 2 > |buffer| { return More; }
    if buffer[dataStart + len.value] != '\r' || buffer[dataStart + len.value + 1] != '\n' { return Bad; }
    return Got(buffer[dataStart..dataStart + len.value], dataStart + len.value + 2);
  }

  // ---------------------------------------------------------------------
  // Verdicts are final and local
  // ---------------------------------------------------------------------

  ghost predicate Agree(a: string, b: string, n: nat) {
    n <= |a| && n <= |b| && forall i :: 0 <= i < n ==> a[i] == b[i]
  }

  lemma {:induction false} SameCrlf(a: string, b: string, n: nat, start: nat, crlf: nat)
    requires Agree(a, b, n) && FindCrlf(a, start) == Some(crlf) && crlf + 2 <= n
    ensures FindCrlf(b, start) == Some(crlf)
  {
    assert CrlfAt(b, crlf);
    forall i | start <= i < crlf ensures !CrlfAt(b, i) {
      assert !CrlfAt(a, i);
    }
    FoundAt(b, start, crlf);
  }

  lemma {:induction false} SameLength(a: string, b: string, n: nat, pos: nat, crlf: nat)
    requires Agree(a, b, n) && pos < crlf <= n
    ensures a[pos + 1..crlf] == b[pos + 1..crlf]
  {
  }

  lemma {:induction false} BulkForward(buffer: string, pos: nat)
    requires ReadBulk(buffer, pos).Got?
    ensures pos < ReadBulk(buffer, pos).next <= |buffer|
  {
  }

  lemma {:induction false} DataLocal(a: string, b: string, start: nat, len: int)
    requires BulkData(a, start, len).Got? && Agree(a, b, BulkData(a, start, len).next)
    ensures BulkData(b, start, len) == BulkData(a, start, len)
  {
    if len >= 0 {
      assert a[start..start + len] == b[start..start + len];
    }
  }

  lemma {:induction false} BulkLocal(a: string, b: string, pos: nat)
    requires ReadBulk(a, pos).Got? && Agree(a, b, ReadBulk(a, pos).next)
    ensures ReadBulk(b, pos) == ReadBulk(a, pos)
  {
    var n := ReadBulk(a, pos).next;
    var crlf := FindCrlf(a, pos).value;
    SameCrlf(a, b, n, pos, crlf);
    SameLength(a, b, n, pos, crlf);
    DataLocal(a, b, crlf + 2, Stoi(a[pos + 1..crlf]).value);
  }

  lemma {:induction false} BulkRejectionFinal(a: string, b: string, pos: nat)
    requires ReadBulk(a, pos).Bad? && Agree(a, b, |a|)
    ensures ReadBulk(b, pos).Bad?
  {
    if a[pos] == '$' {
      var crlf := FindCrlf(a, pos).value;
      SameCrlf(a, b, |a|, pos, crlf);
      SameLength(a, b, |a|, pos, crlf);
    }
  }

  lemma {:induction false} BulksForward(buffer: string, pos: nat, count: nat)
    requires ReadBulks(buffer, pos, count).Got? && pos <= |buffer|
    ensures pos <= ReadBulks(buffer, pos, count).next <= |buffer|
    decreases count
  {
    if count == 0 {
    } else {
      BulkForward(buffer, pos);
      BulksForward(buffer, ReadBulk(buffer, pos).next, count - 1);
    }
  }

  lemma {:induction false} BulksLocal(a: string, b: string, pos: nat, count: nat)
    requires pos <= |a| && ReadBulks(a, pos, count).Got?
    requires Agree(a, b, ReadBulks(a, pos, count).next)
    ensures ReadBulks(b, pos, count) == ReadBulks(a, pos, count)
    decreases count
  {
    if count == 0 {
    } else {
      var next := ReadBulk(a, pos).next;
      BulkForward(a, pos);
      BulksForward(a, next, count - 1);
      BulkLocal(a, b, pos);
      BulksLocal(a, b, next, count - 1);
    }
  }

  lemma {:induction false} BulksRejectionFinal(a: string, b: string, pos: nat, count: nat)
    requires pos <= |a| && Agree(a, b, |a|)
    requires ReadBulks(a, pos, count).Bad?
    ensures ReadBulks(b, pos, count).Bad?
    decreases count
  {
    if count == 0 {
    } else {
      if ReadBulk(a, pos).Bad? {
        BulkRejectionFinal(a, b, pos);
      } else {
        BulkForward(a, pos);
        BulkLocal(a, b, pos);
        BulksRejectionFinal(a, b, ReadBulk(a, pos).next, count - 1);
      }
    }
  }

  /** Verdicts on a buffer that starts with '*': an accepted command depends only on
      the bytes it consumes, and a rejection survives any further bytes. */
  lemma {:induction false} VerdictFinal(a: string, b: string)
    requires a != [] && a[0] == '*'
    requires ParseCommand(a).Ok? ==> Agree(a, b, ParseCommand(a).consumed)
    requires ParseCommand(a).ProtocolError? ==> Agree(a, b, |a|)
    requires !ParseCommand(a).NeedMore?
    ensures ParseCommand(b) == ParseCommand(a)
  {
    var crlf := FindCrlf(a, 0).value;
    var count := Stoi(a[1..crlf]);
    var n := if ParseCommand(a).Ok? then ParseCommand(a).consumed else |a|;
    if ParseCommand(a).Ok? {
      BulksForward(a, crlf + 2, count.value);
    }
    SameCrlf(a, b, n, 0, crlf);
    SameLength(a, b, n, 0, crlf);
    if count.Some? && count.value > 0 {
      if ParseCommand(a).Ok? {
        BulksLocal(a, b, crlf + 2, count.value);
      } else {
        BulksRejectionFinal(a, b, crlf + 2, count.value);
      }
    }
  }

  /** What is consumed has been received. */
  lemma {:induction false} ConsumedReceived(buffer: string)
    requires buffer != [] && buffer[0] == '*' && ParseCommand(buffer).Ok?
    ensures 0 < ParseCommand(buffer).consumed <= |buffer|
  {
    var crlf := FindCrlf(buffer, 0).value;
    BulksForward(buffer, crlf + 2, Stoi(buffer[1..crlf]).value);
  }

  // ---------------------------------------------------------------------
  // Encoding
  // ---------------------------------------------------------------------

  function BulkString(s: string): string {
    "$" + ToString(|s|) + CRLF + s + CRLF
  }

  function Concat(elements: seq<string>): string {
    if elements == [] then "" else elements[0] + Concat(elements[1..])
  }

  function ArrayOf(elements: seq<string>): string {
    "*" + ToString(|elements|) + CRLF + Concat(elements)
  }

  function BulkStrings(parts: seq<string>): (r: seq<string>)
    ensures |r| == |parts|
  {
    if parts == [] then [] else [BulkString(parts[0])] + BulkStrings(parts[1..])
  }

  /** A published message. */
  function Push(channel: string, message: string): string {
    ArrayOf(BulkStrings(["message", channel, message]))
  }

  /** A command as a client library sends it. */
  function EncodeCommand(parts: seq<string>): string {
    ArrayOf(BulkStrings(parts))
  }

  method JoinArray(elements: seq<string>) returns (result: string)
    ensures result == ArrayOf(elements)
  {
    result := "*" + ToString(|elements|) + CRLF;
    ghost var head := result;
    for i := 0 to |elements|
      invariant head + Concat(elements) == result + Concat(elements[i..])
    {
      assert elements[i..][1..] == elements[i + 1..];
      Regroup(result, elements[i], Concat(elements[i + 1..]));
      result := result + elements[i];
    }
    assert result + "" == result;
  }

  /** A number line: a type character, a number, CRLF. */
  lemma {:induction false} NumberLine(buffer: string, pos: nat, mark: char, n: int)
    requires mark != '\r' && At(buffer, pos, [mark] + ToString(n) + CRLF)
    ensures buffer[pos] == mark
    ensures FindCrlf(buffer, pos) == Some(pos + 1 + |ToString(n)|)
    ensures buffer[pos + 1..pos + 1 + |ToString(n)|] == ToString(n)
  {
    var line := [mark] + ToString(n);
    NumberHasNoCr(n);
    LineEnds(buffer, pos, line);
    assert line[0] == buffer[pos];
    assert buffer[pos + 1..pos + |line|] == buffer[pos..pos + |line|][1..] == line[1..] == ToString(n);
  }

  lemma {:induction false} StoiBack(n: int)
    requires InRange(n, 32)
    ensures Stoi(ToString(n)) == Some(n)
  {
    ReadBack(n);
  }

  lemma {:induction false} BulkRead(buffer: string, pos: nat, crlf: nat, len: int)
    requires pos < |buffer| && buffer[pos] == '$' && FindCrlf(buffer, pos) == Some(crlf) && pos < crlf
    requires Stoi(buffer[pos + 1..crlf]) == Some(len)
    ensures ReadBulk(buffer, pos) == BulkData(buffer, crlf + 2, len)
  {
  }

  lemma {:induction false} BulkHead(buffer: string, pos: nat, len: nat)
    requires len < 0x8000_0000 && At(buffer, pos, "$" + ToString(len) + CRLF)
    ensures ReadBulk(buffer, pos) == BulkData(buffer, pos + 3 + |ToString(len)|, len)
  {
    NumberLine(buffer, pos, '$', len);
    StoiBack(len);
    BulkRead(buffer, pos, pos + 1 + |ToString(len)|, len);
  }

  lemma {:induction false} ArrayRead(buffer: string, crlf: nat, count: int, parts: seq<string>, next: nat)
    requires 0 < crlf && buffer != [] && buffer[0] == '*' && FindCrlf(buffer, 0) == Some(crlf)
    requires Stoi(buffer[1..crlf]) == Some(count) && 0 < count
    requires ReadBulks(buffer, crlf + 2, count) == Got(parts, next)
    ensures ParseCommand(buffer) == Ok(MakeCommand(parts), next)
  {
  }

  lemma {:induction false} DataAt(buffer: string, start: nat, s: string)
    requires At(buffer, start, s + CRLF)
    ensures BulkData(buffer, start, |s|) == Got(s, start + |s| + 2)
  {
    AtConcat(buffer, start, s, CRLF);
    assert CRLF[0] == buffer[start + |s|] && CRLF[1] == buffer[start + |s| + 1];
    assert buffer[start..start + |s|] == s;
  }

  lemma {:induction false} BulkParts(buffer: string, pos: nat, s: string)
    requires At(buffer, pos, BulkString(s))
    ensures At(buffer, pos, "$" + ToString(|s|) + CRLF)
    ensures At(buffer, pos + 3 + |ToString(|s|)|, s + CRLF)
    ensures |BulkString(s)| == 3 + |ToString(|s|)| + |s| + 2
  {
    var head := "$" + ToString(|s|) + CRLF;
    assert BulkString(s) == head + (s + CRLF);
    AtConcat(buffer, pos, head, s + CRLF);
  }

  /** A bulk string is read back, whatever bytes it holds and whatever follows. */
  lemma {:induction false} BulkBack(buffer: string, pos: nat, s: string)
    requires |s| < 0x8000_0000
    requires At(buffer, pos, BulkString(s))
    ensures ReadBulk(buffer, pos) == Got(s, pos + |BulkString(s)|)
  {
    BulkParts(buffer, pos, s);
    BulkHead(buffer, pos, |s|);
    DataAt(buffer, pos + 3 + |ToString(|s|)|, s);
  }

  ghost predicate Sendable(parts: seq<string>) {
    && 0 < |parts| < 0x8000_0000
    && forall i :: 0 <= i < |parts| ==> |parts[i]| < 0x8000_0000
  }

  lemma {:induction false} BulksBack(buffer: string, pos: nat, parts: seq<string>)
    requires forall i :: 0 <= i < |parts| ==> |parts[i]| < 0x8000_0000
    requires At(buffer, pos, Concat(BulkStrings(parts)))
    ensures ReadBulks(buffer, pos, |parts|) == Got(parts, pos + |Concat(BulkStrings(parts))|)
    decreases |parts|
  {
    if parts == [] {
    } else {
      var next := pos + |BulkString(parts[0])|;
      BulksParts(buffer, pos, parts);
      BulkBack(buffer, pos, parts[0]);
      BulksBack(buffer, next, parts[1..]);
      BulksRead(buffer, pos, parts, next, pos + |Concat(BulkStrings(parts))|);
    }
  }

  lemma {:induction false} BulksRead(buffer: string, pos: nat, parts: seq<string>, next: nat, end: nat)
    requires parts != [] && ReadBulk(buffer, pos) == Got(parts[0], next)
    requires ReadBulks(buffer, next, |parts| - 1) == Got(parts[1..], end)
    ensures ReadBulks(buffer, pos, |parts|) == Got(parts, end)
  {
    assert parts == [parts[0]] + parts[1..];
  }

  lemma {:induction false} BulksParts(buffer: string, pos: nat, parts: seq<string>)
    requires parts != [] && At(buffer, pos, Concat(BulkStrings(parts)))
    ensures At(buffer, pos, BulkString(parts[0]))
    ensures At(buffer, pos + |BulkString(parts[0])|, Concat(BulkStrings(parts[1..])))
    ensures |Concat(BulkStrings(parts))| == |BulkString(parts[0])| + |Concat(BulkStrings(parts[1..]))|
  {
    assert BulkStrings(parts)[1..] == BulkStrings(parts[1..]);
    AtConcat(buffer, pos, BulkString(parts[0]), Concat(BulkStrings(parts[1..])));
  }

  /** Parsing an encoded command gives it back and consumes exactly its bytes. */
  lemma {:induction false} CommandBack(buffer: string, parts: seq<string>)
    requires Sendable(parts) && At(buffer, 0, EncodeCommand(parts))
    ensures ParseCommand(buffer) == Ok(MakeCommand(parts), |EncodeCommand(parts)|)
  {
    var head := "*" + ToString(|parts|) + CRLF;
    AtConcat(buffer, 0, head, Concat(BulkStrings(parts)));
    NumberLine(buffer, 0, '*', |parts|);
    StoiBack(|parts|);
    BulksBack(buffer, |head|, parts);
    ArrayRead(buffer, 1 + |ToString(|parts|)|, |parts|, parts, |EncodeCommand(parts)|);
  }

  /** A command that has not arrived completely is neither accepted nor rejected. */
  lemma {:induction false} PrefixNeedsMore(prefix: string, parts: seq<string>)
    requires Sendable(parts) && |prefix| < |EncodeCommand(parts)|
    requires Agree(prefix, EncodeCommand(parts), |prefix|)
    ensures ParseCommand(prefix) == NeedMore(0)
  {
    var whole := EncodeCommand(parts);
    assert At(whole, 0, whole);
    CommandBack(whole, parts);
    assert whole[0] == '*';
    if prefix != [] && !ParseCommand(prefix).NeedMore? {
      if ParseCommand(prefix).Ok? { ConsumedReceived(prefix); }
      VerdictFinal(prefix, whole);
    }
  }

  // ---------------------------------------------------------------------
  // Quoted inline commands
  // ---------------------------------------------------------------------

  /** A quoted line is read back word by word, whatever follows it. */
  lemma {:induction false} QuotedLineBack(buffer: string, parts: seq<string>)
    requires parts != [] && At(buffer, 0, QuoteAll(parts) + CRLF)
    ensures ParseCommand(buffer) == Ok(MakeCommand(parts), |QuoteAll(parts)| + 2)
  {
    var line := QuoteAll(parts);
    QuoteAllOneLine(parts);
    AtConcat(buffer, 0, line, CRLF);
    assert CRLF[0] == buffer[|line|] && CRLF[1] == buffer[|line| + 1];
    assert line[0] == buffer[0];
    forall i | 0 <= i < |line| ensures !CrlfAt(buffer, i) {
      assert i + 1 < |line| ==> line[i + 1] == buffer[i + 1];
    }
    FoundAt(buffer, 0, |line|);
    assert buffer[..|line|] == line;
    QuotingUndone(line, 0, 0, parts);
  }

  // ---------------------------------------------------------------------
  // Names
  // ---------------------------------------------------------------------

  /** One letter: small letters become capitals, everything else stays. */
  predicate Capital(c: char, d: char) {
    if 'a' <= c <= 'z' then d as int == c as int - 32 else d == c
  }

  /** The command that the parts of a request stand for, its name in capitals. */
  ghost predicate Stands(parts: seq<string>, c: Command) {
    && parts != [] && c.args == parts[1..] && |c.name| == |parts[0]|
    && forall i :: 0 <= i < |parts[0]| ==> Capital(parts[0][i], c.name[i])
  }

  lemma {:induction false} MadeStands(parts: seq<string>)
    requires parts != []
    ensures Stands(parts, MakeCommand(parts))
  {
  }

  /** An array is parsed as the command it stands for. */
  lemma {:induction false} ArrayStands(buffer: string, parts: seq<string>)
    requires Sendable(parts) && At(buffer, 0, EncodeCommand(parts))
    ensures ParseCommand(buffer).Ok? && Stands(parts, ParseCommand(buffer).command)
  {
    CommandBack(buffer, parts);
    MadeStands(parts);
  }

  /** So is a line of quoted words. */
  lemma {:induction false} LineStands(buffer: string, parts: seq<string>)
    requires parts != [] && At(buffer, 0, QuoteAll(parts) + CRLF)
    ensures ParseCommand(buffer).Ok? && Stands(parts, ParseCommand(buffer).command)
  {
    QuotedLineBack(buffer, parts);
    MadeStands(parts);
  }

  /** The same letter, small or capital. */
  predicate SameLetter(c: char, d: char) {
    || c == d
    || ('a' <= c <= 'z' && d as int == c as int - 32)
    || ('a' <= d <= 'z' && c as int == d as int - 32)
  }

  ghost predicate SameSpelling(a: string, b: string) {
    |a| == |b| && forall i :: 0 <= i < |a| ==> SameLetter(a[i], b[i])
  }

  lemma {:induction false} SpellingsStand(a: seq<string>, b: seq<string>, c: Command, d: Command)
    requires Stands(a, c) && Stands(b, d) && SameSpelling(a[0], b[0]) && a[1..] == b[1..]
    ensures c == d
  {
    forall i | 0 <= i < |c.name| ensures c.name[i] == d.name[i] {
      assert Capital(a[0][i], c.name[i]) && Capital(b[0][i], d.name[i]) && SameLetter(a[0][i], b[0][i]);
    }
    assert c.name == d.name;
  }

  /** Two requests whose names differ only in the case of letters are one command. */
  lemma {:induction false} CaseIgnored(a: seq<string>, b: seq<string>, x: string, y: string)
    requires Sendable(a) && Sendable(b) && SameSpelling(a[0], b[0]) && a[1..] == b[1..]
    requires At(x, 0, EncodeCommand(a)) && (At(y, 0, EncodeCommand(b)) || At(y, 0, QuoteAll(b) + CRLF))
    ensures ParseCommand(x).Ok? && ParseCommand(y).Ok? && ParseCommand(x).command == ParseCommand(y).command
  {
    ArrayStands(x, a);
    if At(y, 0, EncodeCommand(b)) {
      ArrayStands(y, b);
    } else {
      LineStands(y, b);
    }
    SpellingsStand(a, b, ParseCommand(x).command, ParseCommand(y).command);
  }
}
