/**
 A byte stream cut into reads at arbitrary places still delivers the commands
 that were sent, and the buffer never grows beyond one incomplete command.
 */
module Framing {
  import opened Base
  import opened Text
  import opened Parser
  import opened Resp
  import opened Server

  // ---------------------------------------------------------------------
  // Between reads
  // ---------------------------------------------------------------------

  /** The buffer between two reads: empty, or the start of something incomplete. */
  ghost predicate Idle(buffer: string) {
    ParseCommand(buffer) == NeedMore(0)
  }

  lemma {:induction false} WaitingIsIdle(buffer: string, sends: nat -> bool, n: nat)
    requires Drain(buffer, sends, n).end == Waiting
    ensures Idle(Drain(buffer, sends, n).rest)
    decreases |buffer|
  {
    if buffer == [] || Idle(buffer) {
    } else {
      ParseConsumes(buffer);
      var p := ParseCommand(buffer);
      WaitingIsIdle(buffer[p.consumed..], sends, if p.Ok? then n + 1 else n);
    }
  }

  /** Whatever is consumed after a read ends within the bytes just read. */
  lemma {:induction false} ConsumesNewBytes(kept: string, bytes: string)
    requires Idle(kept) && bytes != []
    ensures
      var p := ParseCommand(kept + bytes);
      !p.ProtocolError? && (p.Ok? || p.consumed > 0) ==> |kept| < p.consumed <= |kept| + |bytes|
  {
    var buffer := kept + bytes;
    var p := ParseCommand(buffer);
    ParseConsumes(buffer);
    if kept != [] && kept[0] == '*' {
      assert buffer[0] == '*';
      if p.Ok? && p.consumed <= |kept| {
        VerdictFinal(buffer, kept);
      }
    } else if kept != [] {
      assert buffer[0] == kept[0];
      NoNewlineYet(kept);
      LineEndsLater(kept, bytes);
    }
  }

  lemma {:induction false} NoNewlineYet(buffer: string)
    requires Idle(buffer) && buffer != [] && buffer[0] != '*'
    ensures forall i :: 0 <= i < |buffer| ==> buffer[i] != '\n'
  {
  }

  lemma {:induction false} LineEndsLater(kept: string, bytes: string)
    requires forall i :: 0 <= i < |kept| ==> kept[i] != '\n'
    ensures
      var crlf := FindCrlf(kept + bytes, 0);
      var newline := FindNewline(kept + bytes, 0);
      (crlf.Some? ==> crlf.value + 1 >= |kept|) && (newline.Some? ==> newline.value >= |kept|)
  {
    var buffer := kept + bytes;
    assert forall i :: 0 <= i < |kept| ==> buffer[i] == kept[i];
  }

  lemma {:induction false} SmallNeverFloods(buffer: string, sends: nat -> bool, n: nat)
    requires |buffer| <= MAX_BUFFER
    ensures Drain(buffer, sends, n).end != Flooded
    decreases |buffer|
  {
    if buffer == [] || ParseCommand(buffer).ProtocolError? || Idle(buffer) {
    } else {
      ParseConsumes(buffer);
      var p := ParseCommand(buffer);
      SmallNeverFloods(buffer[p.consumed..], sends, if p.Ok? then n + 1 else n);
    }
  }

  /** The buffer limit never cuts off a client, however long its commands are. */
  lemma {:induction false} NeverFloods(kept: string, bytes: string, sends: nat -> bool)
    requires Idle(kept) && 0 < |bytes| <= READ_SIZE
    ensures Drain(kept + bytes, sends, 0).end != Flooded
  {
    var buffer := kept + bytes;
    ConsumesNewBytes(kept, bytes);
    var p := ParseCommand(buffer);
    if !p.ProtocolError? && !Idle(buffer) {
      SmallNeverFloods(buffer[p.consumed..], sends, if p.Ok? then 1 else 0);
    }
  }

  // ---------------------------------------------------------------------
  // Frames
  // ---------------------------------------------------------------------

  /** The bytes of one command, and what they stand for. */
  datatype Frame = Frame(bytes: string, command: Command)

  ghost predicate Prefix(a: string, b: string) {
    Agree(a, b, |a|)
  }

  /** Self-delimiting: the bytes are accepted whatever follows, and no part of them is. */
  ghost predicate IsFrame(f: Frame) {
    && f.bytes != "" && f.command.name != "QUIT"
    && (forall b :: At(b, 0, f.bytes) ==> ParseCommand(b) == Ok(f.command, |f.bytes|))
    && (forall p :: |p| < |f.bytes| && Prefix(p, f.bytes) ==> Idle(p))
  }

  ghost predicate AllFrames(frames: seq<Frame>) {
    frames != [] ==> IsFrame(frames[0]) && AllFrames(frames[1..])
  }

  /** A command encoded as a RESP array is a frame. */
  lemma {:induction false} ArrayIsFrame(parts: seq<string>)
    requires Sendable(parts) && Upper(parts[0]) != "QUIT"
    ensures IsFrame(Frame(EncodeCommand(parts), MakeCommand(parts)))
  {
    var bytes := EncodeCommand(parts);
    forall b | At(b, 0, bytes) ensures ParseCommand(b) == Ok(MakeCommand(parts), |bytes|) {
      CommandBack(b, parts);
    }
    forall p | |p| < |bytes| && Prefix(p, bytes) ensures Idle(p) {
      PrefixNeedsMore(p, parts);
    }
  }

  /** A line of quoted words is one exactly when it is short enough to wait for:
      of a longer one, the part up to its CR is rejected. */
  lemma {:induction false} QuotedLineIsFrame(parts: seq<string>)
    requires parts != [] && Upper(parts[0]) != "QUIT"
    ensures IsFrame(Frame(QuoteAll(parts) + CRLF, MakeCommand(parts))) <==> |QuoteAll(parts)| < MAX_LINE
  {
    var bytes := QuoteAll(parts) + CRLF;
    forall b | At(b, 0, bytes) ensures ParseCommand(b) == Ok(MakeCommand(parts), |bytes|) {
      QuotedLineBack(b, parts);
    }
    if |QuoteAll(parts)| < MAX_LINE {
      forall p | |p| < |bytes| && Prefix(p, bytes) ensures Idle(p) {
        PartialLine(p, parts);
      }
    } else {
      LongLineRejected(parts);
      var p := QuoteAll(parts) + "\r";
      assert |p| < |bytes| && Prefix(p, bytes);
    }
  }

  lemma {:induction false} LongLineRejected(parts: seq<string>)
    requires parts != [] && |QuoteAll(parts)| >= MAX_LINE
    ensures ParseCommand(QuoteAll(parts) + "\r") == ProtocolError
  {
    var line := QuoteAll(parts);
    var p := line + "\r";
    QuoteAllOneLine(parts);
    assert forall i :: 0 <= i < |line| ==> p[i] == line[i];
    assert forall i :: 0 <= i < |p| ==> p[i] != '\n';
    assert FindCrlf(p, 0) == None && FindNewline(p, 0) == None;
    assert p[0] == '"';
  }

  lemma {:induction false} PartialLine(p: string, parts: seq<string>)
    requires parts != [] && |QuoteAll(parts)| < MAX_LINE
    requires |p| < |QuoteAll(parts)| + 2 && Prefix(p, QuoteAll(parts) + CRLF)
    ensures Idle(p)
  {
    var line := QuoteAll(parts);
    QuoteAllOneLine(parts);
    forall i | 0 <= i < |p| ensures p[i] != '\n' {
      assert p[i] == (line + CRLF)[i];
    }
    if p != [] { assert p[0] == (line + CRLF)[0] == line[0]; }
  }

  // ---------------------------------------------------------------------
  // Streams of frames
  // ---------------------------------------------------------------------

  function Stream(frames: seq<Frame>): string {
    if frames == [] then "" else frames[0].bytes + Stream(frames[1..])
  }

  function Delivered(frames: seq<Frame>): seq<Command> {
    if frames == [] then [] else [frames[0].command] + Delivered(frames[1..])
  }

  predicate FirstComplete(frames: seq<Frame>, received: nat) {
    frames != [] && |frames[0].bytes| <= received
  }

  /** The commands that the first `received` bytes of the stream hold completely. */
  function Ready(frames: seq<Frame>, received: nat): seq<Command> {
    if !FirstComplete(frames, received) then []
    else [frames[0].command] + Ready(frames[1..], received - |frames[0].bytes|)
  }

  /** The frames still to be completed. */
  function Pending(frames: seq<Frame>, received: nat): seq<Frame> {
    if !FirstComplete(frames, received) then frames
    else Pending(frames[1..], received - |frames[0].bytes|)
  }

  /** The bytes of the complete ones. */
  function Used(frames: seq<Frame>, received: nat): (n: nat)
    ensures n <= received
  {
    if !FirstComplete(frames, received) then 0
    else |frames[0].bytes| + Used(frames[1..], received - |frames[0].bytes|)
  }

  lemma {:induction false} DropTwice(s: string, m: nat, n: nat)
    requires m + n <= |s|
    ensures s[m..][n..] == s[m + n..]
  {
  }

  lemma {:induction false} DropFromSum(a: string, b: string, n: nat)
    ensures (a + b)[|a|..] == b && (a + b)[..|a|] == a
    ensures n <= |a| ==> (a + b)[n..] == a[n..] + b
    ensures Prefix(a, a + b)
  {
  }

  lemma {:induction false} PrefixTail(a: string, b: string, n: nat)
    requires Prefix(a, b) && n <= |a|
    ensures Prefix(a[n..], b[n..]) && At(a, 0, b[..n])
  {
  }

  lemma {:induction false} StreamPending(frames: seq<Frame>, received: nat)
    ensures Used(frames, received) <= |Stream(frames)|
    ensures Stream(frames)[Used(frames, received)..] == Stream(Pending(frames, received))
    ensures Delivered(frames) == Ready(frames, received) + Delivered(Pending(frames, received))
    decreases |frames|
  {
    if FirstComplete(frames, received) {
      var e, rest := frames[0].bytes, Stream(frames[1..]);
      StreamPending(frames[1..], received - |e|);
      DropFromSum(e, rest, 0);
      DropTwice(e + rest, |e|, Used(frames[1..], received - |e|));
    }
  }

  lemma {:induction false} PendingAreFrames(frames: seq<Frame>, received: nat)
    requires AllFrames(frames)
    ensures AllFrames(Pending(frames, received))
    decreases |frames|
  {
    if FirstComplete(frames, received) {
      PendingAreFrames(frames[1..], received - |frames[0].bytes|);
    }
  }

  lemma {:induction false} FirstFrame(frames: seq<Frame>, buffer: string)
    requires FirstComplete(frames, |buffer|) && IsFrame(frames[0]) && Prefix(buffer, Stream(frames))
    ensures ParseCommand(buffer) == Ok(frames[0].command, |frames[0].bytes|)
    ensures Prefix(buffer[|frames[0].bytes|..], Stream(frames[1..]))
  {
    var e := frames[0].bytes;
    DropFromSum(e, Stream(frames[1..]), 0);
    PrefixTail(buffer, Stream(frames), |e|);
    assert At(buffer, 0, e);
  }

  lemma {:induction false} NoFrame(frames: seq<Frame>, buffer: string)
    requires AllFrames(frames) && !FirstComplete(frames, |buffer|) && Prefix(buffer, Stream(frames))
    ensures Idle(buffer)
  {
    if frames != [] {
      DropFromSum(frames[0].bytes, Stream(frames[1..]), 0);
      assert IsFrame(frames[0]) && Prefix(buffer, frames[0].bytes);
    }
  }

  lemma {:induction false} DrainOne(buffer: string, command: Command, c: nat, sends: nat -> bool, n: nat)
    requires 0 < c <= |buffer| && |buffer| - c <= MAX_BUFFER
    requires ParseCommand(buffer) == Ok(command, c) && command.name != "QUIT" && sends(n)
    ensures Drain(buffer, sends, n) == After([command], Drain(buffer[c..], sends, n + 1))
  {
  }

  lemma {:induction false} DrainFirst(frames: seq<Frame>, buffer: string, sends: nat -> bool, n: nat)
    returns (rest: string)
    requires AllFrames(frames) && Prefix(buffer, Stream(frames)) && FirstComplete(frames, |buffer|)
    requires |buffer| - |frames[0].bytes| <= MAX_BUFFER && sends(n)
    ensures rest == buffer[|frames[0].bytes|..]
    ensures AllFrames(frames[1..]) && Prefix(rest, Stream(frames[1..]))
    ensures Drain(buffer, sends, n) == After([frames[0].command], Drain(rest, sends, n + 1))
  {
    rest := buffer[|frames[0].bytes|..];
    assert IsFrame(frames[0]);
    FirstFrame(frames, buffer);
    DrainOne(buffer, frames[0].command, |frames[0].bytes|, sends, n);
  }

  /** The complete commands have been taken out and the rest is kept. */
  ghost predicate Drained(frames: seq<Frame>, buffer: string, o: Outcome) {
    o == Outcome(Ready(frames, |buffer|), buffer[Used(frames, |buffer|)..], Waiting)
  }

  lemma {:induction false} Compose(frames: seq<Frame>, buffer: string, rest: string, o: Outcome)
    requires FirstComplete(frames, |buffer|) && rest == buffer[|frames[0].bytes|..]
    requires Drained(frames[1..], rest, o)
    ensures Drained(frames, buffer, After([frames[0].command], o))
  {
    DropTwice(buffer, |frames[0].bytes|, Used(frames[1..], |buffer| - |frames[0].bytes|));
  }

  lemma {:induction false} Incomplete(frames: seq<Frame>, buffer: string, sends: nat -> bool, n: nat)
    requires AllFrames(frames) && !FirstComplete(frames, |buffer|) && Prefix(buffer, Stream(frames))
    ensures Drained(frames, buffer, Drain(buffer, sends, n))
  {
    NoFrame(frames, buffer);
    assert buffer[0..] == buffer;
  }

  /** Draining a prefix of the stream dispatches the complete commands and keeps the rest. */
  lemma {:induction false} DrainPrefix(frames: seq<Frame>, buffer: string, sends: nat -> bool, n: nat)
    requires AllFrames(frames) && Prefix(buffer, Stream(frames))
    requires frames != [] ==> |buffer| - |frames[0].bytes| <= MAX_BUFFER
    requires forall i :: sends(i)
    ensures Drained(frames, buffer, Drain(buffer, sends, n))
    decreases |frames|
  {
    if FirstComplete(frames, |buffer|) {
      var rest := DrainFirst(frames, buffer, sends, n);
      DrainPrefix(frames[1..], rest, sends, n + 1);
      Compose(frames, buffer, rest, Drain(rest, sends, n + 1));
    } else {
      Incomplete(frames, buffer, sends, n);
    }
  }

  // ---------------------------------------------------------------------
  // Runs of reads
  // ---------------------------------------------------------------------

  /** Processes one read after the other, until one of them ends the connection;
      `sends` says of each read which of its replies can be sent. */
  function Receive(kept: string, chunks: seq<string>, sends: seq<nat -> bool>): Outcome
    requires |sends| == |chunks|
    decreases |chunks|
  {
    if chunks == [] then Outcome([], kept, Waiting)
    else
      var o := Drain(kept + chunks[0], sends[0], 0);
      if o.end != Waiting then o else After(o.commands, Receive(o.rest, chunks[1..], sends[1..]))
  }

  ghost predicate AllSent(sends: seq<nat -> bool>) {
    forall k, i :: 0 <= k < |sends| ==> sends[k](i)
  }

  /** Every read yields 1 to 4096 bytes. */
  ghost predicate Reads(chunks: seq<string>) {
    forall i :: 0 <= i < |chunks| ==> 0 < |chunks[i]| <= READ_SIZE
  }

  lemma {:induction false} Exhausted(frames: seq<Frame>, kept: string)
    requires AllFrames(frames)
    requires Idle(kept) && kept == Stream(frames)
    ensures frames == [] && kept == ""
  {
    if frames != [] {
      assert IsFrame(frames[0]);
      FirstFrame(frames, kept);
    }
  }

  lemma {:induction false} ResidueFits(frames: seq<Frame>, kept: string, bytes: string)
    requires AllFrames(frames) && frames != []
    requires Idle(kept) && 0 < |bytes| <= READ_SIZE && Prefix(kept + bytes, Stream(frames))
    ensures |kept + bytes| - |frames[0].bytes| <= MAX_BUFFER
  {
    if |frames[0].bytes| <= |kept + bytes| {
      assert IsFrame(frames[0]);
      FirstFrame(frames, kept + bytes);
      ConsumesNewBytes(kept, bytes);
    }
  }

  /** One read of a stream: what is dispatched, and that the rest of the stream is still to come. */
  lemma {:induction false} ReadStep(frames: seq<Frame>, kept: string, bytes: string, later: string, sends: nat -> bool)
    requires AllFrames(frames)
    requires Idle(kept) && 0 < |bytes| <= READ_SIZE
    requires kept + bytes + later == Stream(frames)
    requires forall i :: sends(i)
    ensures
      var o := Drain(kept + bytes, sends, 0);
      && o.end == Waiting && o.commands == Ready(frames, |kept + bytes|) && Idle(o.rest)
      && o.rest + later == Stream(Pending(frames, |kept + bytes|))
  {
    var buffer := kept + bytes;
    DropFromSum(buffer, later, Used(frames, |buffer|));
    if frames != [] { ResidueFits(frames, kept, bytes); }
    DrainPrefix(frames, buffer, sends, 0);
    WaitingIsIdle(buffer, sends, 0);
    StreamPending(frames, |buffer|);
  }

  /** However the stream is cut into reads, every command is dispatched exactly
      once and in order, and nothing is left in the buffer. */
  lemma {:induction false} StreamDelivered(frames: seq<Frame>, kept: string, chunks: seq<string>,
                                           sends: seq<nat -> bool>)
    requires AllFrames(frames) && Reads(chunks) && |sends| == |chunks| && AllSent(sends)
    requires Idle(kept) && kept + Concat(chunks) == Stream(frames)
    ensures Receive(kept, chunks, sends) == Outcome(Delivered(frames), "", Waiting)
    decreases |chunks|
  {
    if chunks == [] {
      assert kept + "" == kept;
      Exhausted(frames, kept);
    } else {
      var buffer, later := kept + chunks[0], Concat(chunks[1..]);
      Regroup(kept, chunks[0], later);
      assert forall i :: sends[0](i);
      ReadStep(frames, kept, chunks[0], later, sends[0]);
      StreamPending(frames, |buffer|);
      PendingAreFrames(frames, |buffer|);
      StreamDelivered(Pending(frames, |buffer|), Drain(buffer, sends[0], 0).rest, chunks[1..], sends[1..]);
    }
  }

  // ---------------------------------------------------------------------
  // Commands on the wire
  // ---------------------------------------------------------------------

  /** A command as a client may send it: an array, or a line of quoted words. */
  datatype Message = Array(parts: seq<string>) | Line(parts: seq<string>)

  ghost predicate IsMessage(m: Message) {
    && m.parts != [] && Upper(m.parts[0]) != "QUIT"
    && match m
       case Array(parts) => Sendable(parts)
       case Line(parts) => |QuoteAll(parts)| < MAX_LINE
  }

  function Encoded(m: Message): string
    requires m.parts != []
  {
    match m
    case Array(parts) => EncodeCommand(parts)
    case Line(parts) => QuoteAll(parts) + CRLF
  }

  ghost predicate AllMessages(messages: seq<Message>) {
    messages != [] ==> IsMessage(messages[0]) && AllMessages(messages[1..])
  }

  function Wire(messages: seq<Message>): string
    requires AllMessages(messages)
  {
    if messages == [] then "" else Encoded(messages[0]) + Wire(messages[1..])
  }

  function Meant(messages: seq<Message>): seq<Command>
    requires AllMessages(messages)
  {
    if messages == [] then [] else [MakeCommand(messages[0].parts)] + Meant(messages[1..])
  }

  ghost function FramesOf(messages: seq<Message>): (frames: seq<Frame>)
    requires AllMessages(messages)
  {
    if messages == [] then []
    else [Frame(Encoded(messages[0]), MakeCommand(messages[0].parts))] + FramesOf(messages[1..])
  }

  lemma {:induction false} MessageIsFrame(m: Message)
    requires IsMessage(m)
    ensures IsFrame(Frame(Encoded(m), MakeCommand(m.parts)))
  {
    match m
    case Array(parts) => ArrayIsFrame(parts);
    case Line(parts) => QuotedLineIsFrame(parts);
  }

  lemma {:induction false} MessagesAreFrames(messages: seq<Message>)
    requires AllMessages(messages)
    ensures AllFrames(FramesOf(messages))
    ensures Stream(FramesOf(messages)) == Wire(messages) && Delivered(FramesOf(messages)) == Meant(messages)
    decreases |messages|
  {
    if messages == [] {
    } else {
      MessageIsFrame(messages[0]);
      MessagesAreFrames(messages[1..]);
      assert FramesOf(messages)[1..] == FramesOf(messages[1..]);
    }
  }

  /** Any commands but QUIT, sent as arrays or quoted lines and cut into reads
      anywhere, are dispatched exactly once each and in order. */
  lemma {:induction false} CommandsDelivered(messages: seq<Message>, chunks: seq<string>, sends: seq<nat -> bool>)
    requires AllMessages(messages) && Reads(chunks) && |sends| == |chunks| && AllSent(sends)
    requires Concat(chunks) == Wire(messages)
    ensures Receive("", chunks, sends) == Outcome(Meant(messages), "", Waiting)
  {
    MessagesAreFrames(messages);
    assert "" + Concat(chunks) == Concat(chunks);
    StreamDelivered(FramesOf(messages), "", chunks, sends);
  }

  // ---------------------------------------------------------------------
  // The code
  // ---------------------------------------------------------------------

  /** The reads of a connection, as the server runs them: in between the buffer is always idle. */
  method ReceiveAll(connection: Connection, chunks: seq<string>, sends: seq<nat -> bool>)
    returns (keep: bool, dispatched: seq<Command>, ghost end: End)
    requires Idle(connection.readBuffer) && Reads(chunks) && |sends| == |chunks|
    modifies connection
    ensures Outcome(dispatched, connection.readBuffer, end) == Receive(old(connection.readBuffer), chunks, sends)
    ensures end != Flooded && (keep <==> end == Waiting)
    ensures keep ==> Idle(connection.readBuffer)
  {
    dispatched, end := [], Waiting;
    ghost var whole := Receive(connection.readBuffer, chunks, sends);
    assert [] + whole.commands == whole.commands;
    for i := 0 to |chunks|
      invariant Idle(connection.readBuffer)
      invariant whole == After(dispatched, Receive(connection.readBuffer, chunks[i..], sends[i..]))
    {
      ghost var kept := connection.readBuffer;
      NeverFloods(kept, chunks[i], sends[i]);
      assert chunks[i..][1..] == chunks[i + 1..] && sends[i..][1..] == sends[i + 1..];
      var commands;
      keep, commands, end := connection.ProcessClient(chunks[i], sends[i]);
      AfterTwice(dispatched, commands, Receive(connection.readBuffer, chunks[i + 1..], sends[i + 1..]));
      dispatched := dispatched + commands;
      if !keep { return; }
      WaitingIsIdle(kept + chunks[i], sends[i], 0);
    }
    keep := true;
    assert dispatched + [] == dispatched;
    end := Waiting;
  }

  /** A new connection dispatches what its client sends. */
  method ReceiveCommands(ghost messages: seq<Message>, chunks: seq<string>, sends: seq<nat -> bool>)
    returns (keep: bool, dispatched: seq<Command>)
    requires AllMessages(messages) && Reads(chunks) && |sends| == |chunks| && AllSent(sends)
    requires Concat(chunks) == Wire(messages)
    ensures keep && dispatched == Meant(messages)
  {
    var connection := new Connection();
    ghost var end;
    keep, dispatched, end := ReceiveAll(connection, chunks, sends);
    CommandsDelivered(messages, chunks, sends);
  }

  lemma {:induction false} AfterTwice(a: seq<Command>, b: seq<Command>, o: Outcome)
    ensures After(a, After(b, o)) == After(a + b, o)
  {
    assert a + (b + o.commands) == a + b + o.commands;
  }

  // ---------------------------------------------------------------------
  // Inline commands in general
  // ---------------------------------------------------------------------

  /** An accepted inline command is final exactly when its line ended in CRLF: a
      bare newline is given up for a CRLF that arrives later. */
  lemma {:induction false} InlineFinalExactly(buffer: string)
    requires buffer != [] && buffer[0] != '*' && ParseCommand(buffer).Ok?
    ensures (forall more :: ParseCommand(buffer + more) == ParseCommand(buffer)) <==> FindCrlf(buffer, 0).Some?
  {
    if FindCrlf(buffer, 0).Some? {
      forall more ensures ParseCommand(buffer + more) == ParseCommand(buffer) {
        var crlf := FindCrlf(buffer, 0).value;
        assert Agree(buffer, buffer + more, |buffer|);
        SameCrlf(buffer, buffer + more, |buffer|, 0, crlf);
        assert (buffer + more)[..crlf] == buffer[..crlf];
      }
    } else {
      var longer := buffer + CRLF;
      assert CrlfAt(longer, |buffer|);
      var crlf := FindCrlf(longer, 0).value;
      forall i | 0 <= i < |buffer| - 1 ensures !CrlfAt(longer, i) {
        assert !CrlfAt(buffer, i);
      }
      assert ParseCommand(longer) != ParseCommand(buffer);
    }
  }

  lemma {:induction false} FirstVerdict(a: string)
    requires IsBare(a) && a[0] != '*'
    ensures ParseCommand(a + "\n") == Ok(MakeCommand([a]), |a| + 1)
  {
    var buffer := a + "\n";
    assert forall i :: 0 <= i < |a| ==> buffer[i] == a[i] && !IsSpace(a[i]);
    assert FindCrlf(buffer, 0) == None;
    assert buffer[|a|] == '\n' && FindNewline(buffer, 0) == Some(|a|);
    assert buffer[..|a|] == a && TrimLeft(a) == a;
    OneWord(a);
  }

  lemma {:induction false} SecondVerdict(a: string, b: string)
    requires IsBare(a) && IsBare(b) && a[0] != '*'
    ensures ParseCommand(a + "\n" + b + CRLF) == Ok(MakeCommand([a, b]), |a| + |b| + 3)
  {
    var line := a + "\n" + b;
    var buffer, n := line + CRLF, |line|;
    assert At(buffer, 0, line + CRLF);
    assert buffer[0] == line[0] == a[0] && !IsSpace(a[0]);
    forall i | 0 <= i < n ensures line[i] != '\r' {
      assert i < |a| ==> line[i] == a[i] && !IsSpace(a[i]);
      assert i > |a| ==> line[i] == b[i - |a| - 1] && !IsSpace(b[i - |a| - 1]);
    }
    LineEnds(buffer, 0, line);
    assert buffer[..n] == buffer[0..n] == line && TrimLeft(line) == line;
    TwoWords(a, b);
  }

  /** A command that ended in a bare newline is taken back: with a second word and
      CRLF behind it the two become one command. */
  lemma {:induction false} BareNewlineRevised(a: string, b: string)
    requires IsBare(a) && IsBare(b) && a[0] != '*'
    ensures ParseCommand(a + "\n") == Ok(MakeCommand([a]), |a| + 1)
    ensures ParseCommand(a + "\n" + b + CRLF) == Ok(MakeCommand([a, b]), |a| + |b| + 3)
    ensures MakeCommand([a]) != MakeCommand([a, b])
  {
    FirstVerdict(a);
    SecondVerdict(a, b);
    assert |MakeCommand([a]).args| == 0 && |MakeCommand([a, b]).args| == 1;
  }

  lemma {:induction false} BareNewlineInput()
    ensures IsBare("PING") && IsBare("x")
  {
  }

  lemma {:induction false} WordLine(word: string)
    requires IsBare(word) && word[0] != '*'
    ensures ParseCommand(word + CRLF) == Ok(MakeCommand([word]), |word| + 2)
  {
    var buffer, n := word + CRLF, |word|;
    assert At(buffer, 0, word + CRLF);
    assert buffer[0] == word[0] && !IsSpace(word[0]);
    assert forall i :: 0 <= i < n ==> !IsSpace(word[i]);
    LineEnds(buffer, 0, word);
    assert buffer[..n] == buffer[0..n] == word && TrimLeft(word) == word;
    OneWord(word);
  }

  lemma {:induction false} WholeRead(buffer: string, sends: nat -> bool, command: Command)
    requires buffer != [] && ParseCommand(buffer) == Ok(command, |buffer|) && command.name != "QUIT" && sends(0)
    ensures Drain(buffer, sends, 0) == Outcome([command], "", Waiting)
  {
    ParseConsumes(buffer);
    assert buffer[|buffer|..] == "";
    assert Drain("", sends, 1) == Outcome([], "", Waiting);
    assert Dispatched(command, "", sends, 0) == Outcome([command] + [], "", Waiting);
  }

  lemma {:induction false} NothingMore(commands: seq<Command>, sends: seq<nat -> bool>)
    requires sends == []
    ensures After(commands, Receive("", [], sends)) == Outcome(commands, "", Waiting)
  {
    assert commands + [] == commands;
  }

  /** So it matters where such a stream is cut: the same bytes are two commands in two
      reads and one command in one. */
  lemma {:induction false} CuttingMatters(a: string, b: string, sends: seq<nat -> bool>)
    requires IsBare(a) && IsBare(b) && a[0] != '*' && b[0] != '*' && Upper(a) != "QUIT" && Upper(b) != "QUIT"
    requires |sends| == 2 && AllSent(sends)
    ensures Concat([a + "\n", b + CRLF]) == Concat([a + "\n" + b + CRLF])
    ensures Receive("", [a + "\n", b + CRLF], sends) == Outcome([MakeCommand([a]), MakeCommand([b])], "", Waiting)
    ensures Receive("", [a + "\n" + b + CRLF], sends[..1]) == Outcome([MakeCommand([a, b])], "", Waiting)
  {
    BareNewlineRevised(a, b);
    WordLine(b);
    TwoReads(a + "\n", b + CRLF, sends, MakeCommand([a]), MakeCommand([b]));
    OneRead(a + "\n" + b + CRLF, sends[..1], MakeCommand([a, b]));
    SameBytes(a + "\n", b + CRLF);
    assert a + "\n" + (b + CRLF) == a + "\n" + b + CRLF;
  }

  lemma {:induction false} SameBytes(x: string, y: string)
    ensures Concat([x, y]) == Concat([x + y])
  {
    assert [x, y][1..] == [y] && [y][1..] == [] && [x + y][1..] == [];
    assert y + "" == y && x + y + "" == x + y;
  }

  lemma {:induction false} OneRead(chunk: string, sends: seq<nat -> bool>, command: Command)
    requires |sends| == 1 && AllSent(sends)
    requires chunk != [] && ParseCommand(chunk) == Ok(command, |chunk|) && command.name != "QUIT"
    ensures Receive("", [chunk], sends) == Outcome([command], "", Waiting)
  {
    assert "" + chunk == chunk && [chunk][1..] == [];
    WholeRead(chunk, sends[0], command);
    NothingMore([command], sends[1..]);
  }

  lemma {:induction false} TwoReads(x: string, y: string, sends: seq<nat -> bool>, first: Command, second: Command)
    requires |sends| == 2 && AllSent(sends)
    requires x != [] && ParseCommand(x) == Ok(first, |x|) && first.name != "QUIT"
    requires y != [] && ParseCommand(y) == Ok(second, |y|) && second.name != "QUIT"
    ensures Receive("", [x, y], sends) == Outcome([first, second], "", Waiting)
  {
    assert "" + x == x && [x, y][1..] == [y];
    WholeRead(x, sends[0], first);
    OneRead(y, sends[1..], second);
    assert [first] + [second] == [first, second];
  }
}
