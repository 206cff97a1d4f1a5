/** The confirmations of SUBSCRIBE and UNSUBSCRIBE on their way to the client. */
module Confirmations {
  import opened Base
  import opened Text
  import opened Numbering
  import opened Parser
  import opened Resp
  import opened Client
  import opened Reply
  import opened RoundTrip
  import opened ListReply
  import opened Shown
  import Commands
  import PubSub

  /** The word that starts a confirmation. */
  predicate IsKind(word: string) {
    word == "subscribe" || word == "unsubscribe"
  }

  /** A channel name that a line of words can hold. */
  predicate IsName(channel: string) {
    channel != [] && forall i :: 0 <= i < |channel| ==> !IsSpace(channel[i])
  }

  /** What the server means to send for one channel. */
  function Confirmation(word: string, n: PubSub.Notice): string {
    ArrayOf([BulkString(word), BulkString(n.channel), IntegerLine(n.count)])
  }

  /** The handler's line for one channel. */
  function NoticeLine(word: string, n: PubSub.Notice): string {
    word + " " + (n.channel + " " + ToString(n.count))
  }

  // ---------------------------------------------------------------------
  // Words
  // ---------------------------------------------------------------------

  lemma {:induction false} WordLengthOf(w: string, rest: string)
    requires forall i :: 0 <= i < |w| ==> !IsSpace(w[i])
    requires rest != [] ==> IsSpace(rest[0])
    ensures WordLength(w + rest) == |w|
    decreases |w|
  {
    if w == [] {
      assert w + rest == rest;
    } else {
      assert (w + rest)[1..] == w[1..] + rest;
      WordLengthOf(w[1..], rest);
    }
  }

  lemma {:induction false} WordOf(w: string, rest: string)
    requires IsName(w) && (rest != [] ==> IsSpace(rest[0]))
    ensures Word(w + rest) == (w, rest)
  {
    assert (w + rest)[0] == w[0];
    assert SkipBlanks(w + rest) == w + rest;
    WordLengthOf(w, rest);
    assert (w + rest)[..|w|] == w && (w + rest)[|w|..] == rest;
  }

  lemma {:induction false} BlankFirst(s: string)
    ensures SkipBlanks(" " + s) == SkipBlanks(s) && Word(" " + s) == Word(s)
  {
    assert (" " + s)[1..] == s;
  }

  lemma {:induction false} WordIsClean(s: string)
    ensures forall i :: 0 <= i < WordLength(s) ==> !IsSpace(s[i])
    decreases |s|
  {
    if s == [] || IsSpace(s[0]) {
    } else {
      WordIsClean(s[1..]);
      forall i | 0 <= i < WordLength(s) ensures !IsSpace(s[i]) {
        if i > 0 { assert s[1..][i - 1] == s[i]; }
      }
    }
  }

  lemma {:induction false} NumberIsName(n: int)
    ensures IsName(ToString(n))
  {
    DecimalDigits(if n < 0 then -n else n);
  }

  // ---------------------------------------------------------------------
  // One line
  // ---------------------------------------------------------------------

  lemma {:induction false} KindIsName(word: string)
    requires IsKind(word)
    ensures IsName(word) && word != "message"
  {
    assert "message"[0] != word[0];
  }

  /** The second word of a confirmation. */
  function Second(rest: string): string {
    Word(rest).0
  }

  lemma {:induction false} KindFirst(word: string, rest: string)
    requires IsKind(word)
    ensures Word(word + " " + rest) == (word, " " + rest)
  {
    KindIsName(word);
    WordOf(word, " " + rest);
    assert word + " " + rest == word + (" " + rest);
  }

  /** A push line holds its two first words as bulk strings, whatever they are. */
  lemma {:induction false} PushParts(word: string, rest: string) returns (last: string)
    requires IsKind(word)
    ensures PushLine(word + " " + rest) == ArrayOf([BulkString(word), BulkString(Second(rest)), last])
  {
    KindFirst(word, rest);
    BlankFirst(rest);
    var channel := Word(rest);
    var third := SkipBlanks(channel.1);
    last := if word != "message" && Stoll(third).Some? then IntegerLine(Stoll(third).value) else BulkString(third);
  }

  lemma {:induction false} NumberLast(n: int)
    requires InRange(n, 64)
    ensures SkipBlanks(" " + ToString(n)) == ToString(n) && Stoll(ToString(n)) == Some(n)
  {
    NumberIsName(n);
    BlankFirst(ToString(n));
    ReadBack(n);
  }

  /** A channel without blanks is confirmed as it should be. */
  lemma {:induction false} LineConfirms(word: string, n: PubSub.Notice)
    requires IsKind(word) && IsName(n.channel) && InRange(n.count, 64)
    ensures PushLine(NoticeLine(word, n)) == Confirmation(word, n)
  {
    var number := ToString(n.count);
    KindFirst(word, n.channel + " " + number);
    KindIsName(word);
    BlankFirst(n.channel + " " + number);
    WordOf(n.channel, " " + number);
    assert n.channel + " " + number == n.channel + (" " + number);
    NumberLast(n.count);
  }

  // ---------------------------------------------------------------------
  // The wire form
  // ---------------------------------------------------------------------

  lemma {:induction false} NoOtherKind(text: string)
    requires |text| >= 2 && (text[0] == 's' || text[0] == 'u')
    ensures !IsStatus(text) && text != "(nil)" && text != "(empty list)" && !IsError(text) && IntegerIn(text).None?
  {
    NotSpecial(text);
    assert "(integer) "[0] != text[0];
  }

  lemma {:induction false} PushBranch(text: string)
    requires text != "" && !IsStatus(text) && text != "(nil)" && text != "(empty list)" && !IsError(text)
    requires IntegerIn(text).None? && !IsQuoted(text) && !IsList(text) && IsPush(text)
    ensures Serialize(text) == Concat(PushLines(Lines(text)))
  {
  }

  lemma {:induction false} PushStart(word: string, text: string)
    requires IsKind(word) && word + " " <= text
    ensures IsPush(text) && |text| >= 2 && (text[0] == 's' || text[0] == 'u')
  {
    assert text[0] == word[0];
    assert StartsWith(text, word + " ");
    assert "subscribe" + " " == "subscribe " && "unsubscribe" + " " == "unsubscribe ";
  }

  lemma {:induction false} PushText(word: string, text: string)
    requires IsKind(word) && word + " " <= text
    ensures Serialize(text) == Concat(PushLines(Lines(text)))
  {
    PushStart(word, text);
    NoOtherKind(text);
    PushBranch(text);
  }

  lemma {:induction false} SecondElement(buffer: string, a: string, b: string, c: string)
    requires At(buffer, 0, ArrayOf([a, b, c]))
    ensures At(buffer, 3 + |ToString(3)| + |a|, b)
  {
    var start := 3 + |ToString(3)|;
    ArrayParts(buffer, 0, [a, b, c]);
    assert [a, b, c][1..] == [b, c] && [b, c][1..] == [c];
    AtConcat(buffer, start, a, Concat([b, c]));
    AtConcat(buffer, start + |a|, b, Concat([c]));
  }

  lemma {:induction false} SameSize(buffer: string, pos: nat, m: nat, n: nat)
    requires At(buffer, pos, "$" + ToString(m) + CRLF) && At(buffer, pos, "$" + ToString(n) + CRLF)
    ensures m == n
  {
    NumberLine(buffer, pos, '$', m);
    NumberLine(buffer, pos, '$', n);
    ReadBack(m);
    ReadBack(n);
  }

  lemma {:induction false} SameBulk(buffer: string, pos: nat, x: string, y: string)
    requires At(buffer, pos, BulkString(x)) && At(buffer, pos, BulkString(y))
    ensures x == y
  {
    BulkParts(buffer, pos, x);
    BulkParts(buffer, pos, y);
    SameSize(buffer, pos, |x|, |y|);
    var start := pos + 3 + |ToString(|x|)|;
    AtConcat(buffer, start, x, CRLF);
    AtConcat(buffer, start, y, CRLF);
    assert x == buffer[start..start + |x|] == y;
  }

  /** The head of a confirmation is its kind and the head of what follows. */
  lemma {:induction false} FirstPush(word: string, rest: string) returns (last: string, more: string)
    requires IsKind(word)
    ensures Serialize(word + " " + rest) == ArrayOf([BulkString(word), BulkString(Second(Head(rest))), last]) + more
  {
    var text := word + " " + rest;
    KindIsName(word);
    PushText(word, text);
    FirstIsHead(text);
    HeadBehind(word + " ", rest);
    assert PushLines(Lines(text))[1..] == PushLines(Lines(text)[1..]);
    last := PushParts(word, Head(rest));
    more := Concat(PushLines(Lines(text)[1..]));
  }

  /** With no channel name, the count is taken for it. */
  lemma {:induction false} NumberMisread(channel: string, number: string)
    requires channel == [] && IsName(number)
    ensures Second(Head(channel + " " + number)) == number
  {
    assert channel + " " + number == " " + number && OneLine(" " + number) && number + "" == number;
    WordOf(number, "");
    BlankFirst(number);
  }

  /** The second word is the channel only if the channel is a word. */
  lemma {:induction false} SecondExactly(channel: string, number: string)
    requires IsName(number) && Second(Head(channel + " " + number)) == channel
    ensures IsName(channel)
  {
    var rest := Head(channel + " " + number);
    if channel == [] {
      NumberMisread(channel, number);
    } else {
      WordIsClean(SkipBlanks(rest));
    }
  }

  /** A confirmation reaches the wire as it should exactly when the channel is not empty and has no blanks. */
  lemma {:induction false} ConfirmedExactly(word: string, n: PubSub.Notice)
    requires IsKind(word) && InRange(n.count, 64)
    ensures Serialize(NoticeLine(word, n)) == Confirmation(word, n) <==> IsName(n.channel)
  {
    if IsName(n.channel) {
      NameConfirmed(word, n);
    } else if Serialize(NoticeLine(word, n)) == Confirmation(word, n) {
      MisreadChannel(word, n);
    }
  }

  lemma {:induction false} MisreadChannel(word: string, n: PubSub.Notice)
    requires IsKind(word) && Serialize(NoticeLine(word, n)) == Confirmation(word, n)
    ensures IsName(n.channel)
  {
    var number := ToString(n.count);
    var rest, buffer := n.channel + " " + number, Confirmation(word, n);
    var last, more := FirstPush(word, rest);
    var c := Second(Head(rest));
    assert At(buffer, 0, buffer);
    AtConcat(buffer, 0, ArrayOf([BulkString(word), BulkString(c), last]), more);
    SecondElement(buffer, BulkString(word), BulkString(c), last);
    SecondElement(buffer, BulkString(word), BulkString(n.channel), IntegerLine(n.count));
    SameBulk(buffer, 3 + |ToString(3)| + |BulkString(word)|, c, n.channel);
    NumberIsName(n.count);
    SecondExactly(n.channel, number);
  }

  lemma {:induction false} NoticeOneLine(word: string, n: PubSub.Notice)
    requires IsKind(word) && IsName(n.channel)
    ensures OneLine(NoticeLine(word, n)) && NoticeLine(word, n) != []
  {
    KindIsName(word);
    NumberIsName(n.count);
  }

  lemma {:induction false} NameConfirmed(word: string, n: PubSub.Notice)
    requires IsKind(word) && IsName(n.channel) && InRange(n.count, 64)
    ensures Serialize(NoticeLine(word, n)) == Confirmation(word, n)
  {
    var line := NoticeLine(word, n);
    PushText(word, line);
    NoticeOneLine(word, n);
    LastLine(line);
    LineConfirms(word, n);
    assert [line][1..] == [] && [PushLine(line)][1..] == [];
    assert PushLine(line) + "" == PushLine(line);
  }

  // ---------------------------------------------------------------------
  // Several channels
  // ---------------------------------------------------------------------

  ghost predicate AllConfirmable(notices: seq<PubSub.Notice>) {
    forall i :: 0 <= i < |notices| ==>
      IsName(notices[i].channel) && InRange(notices[i].count, 64) && |notices[i].channel| < 0x8000_0000
  }

  function AllConfirmations(word: string, notices: seq<PubSub.Notice>): (r: seq<string>)
    ensures |r| == |notices|
  {
    if notices == [] then [] else [Confirmation(word, notices[0])] + AllConfirmations(word, notices[1..])
  }

  /** What the client shows for one confirmation. */
  function Confirmed(word: string, n: PubSub.Notice): string {
    Numbered([Quoted(word), Quoted(n.channel), "(integer) " + ToString(n.count)], 1)
  }

  function AllConfirmed(word: string, notices: seq<PubSub.Notice>): (r: seq<string>)
    ensures |r| == |notices|
  {
    if notices == [] then [] else [Confirmed(word, notices[0])] + AllConfirmed(word, notices[1..])
  }

  lemma {:induction false} NoticesText(word: string, notices: seq<PubSub.Notice>)
    requires notices != []
    ensures Commands.NoticeLines(word + " ", notices) ==
      if |notices| == 1 then NoticeLine(word, notices[0])
      else NoticeLine(word, notices[0]) + "\n" + Commands.NoticeLines(word + " ", notices[1..])
  {
    var n := notices[0];
    var line := word + " " + n.channel + " " + ToString(n.count);
    assert line == NoticeLine(word, n);
    if |notices| == 1 {
      assert line + "" == line;
    } else {
      Regroup(line, "\n", Commands.NoticeLines(word + " ", notices[1..]));
    }
  }

  lemma {:induction false} NoticesLines(word: string, notices: seq<PubSub.Notice>)
    requires IsKind(word) && notices != [] && AllConfirmable(notices)
    ensures PushLines(Lines(Commands.NoticeLines(word + " ", notices))) == AllConfirmations(word, notices)
    decreases |notices|
  {
    var line := NoticeLine(word, notices[0]);
    NoticesText(word, notices);
    NoticeOneLine(word, notices[0]);
    LineConfirms(word, notices[0]);
    if |notices| == 1 {
      LastLine(line);
      assert [line][1..] == [] && notices[1..] == [];
    } else {
      FirstLine(line, Commands.NoticeLines(word + " ", notices[1..]));
      NoticesLines(word, notices[1..]);
      PushFirst(line, Lines(Commands.NoticeLines(word + " ", notices[1..])));
    }
  }

  lemma {:induction false} PushFirst(line: string, lines: seq<string>)
    ensures PushLines([line] + lines) == [PushLine(line)] + PushLines(lines)
  {
    assert ([line] + lines)[1..] == lines;
  }

  lemma {:induction false} ConfirmationReadAs(word: string, n: PubSub.Notice)
    requires |word| < 0x8000_0000 && |n.channel| < 0x8000_0000
    ensures ReadAs(Confirmation(word, n), Confirmed(word, n))
  {
    var wires := [BulkString(word), BulkString(n.channel), IntegerLine(n.count)];
    var texts := [Quoted(word), Quoted(n.channel), "(integer) " + ToString(n.count)];
    QuoteReadAs(word);
    QuoteReadAs(n.channel);
    NumberHasNoCr(n.count);
    assert !HasCrlf(ToString(n.count));
    PlainReadAs(':', ToString(n.count));
    ThreeReadAs(wires, texts);
    ArrayReadAs(wires, texts);
  }

  lemma {:induction false} ThreeReadAs(wires: seq<string>, texts: seq<string>)
    requires |wires| == |texts| == 3 && ReadAs(wires[0], texts[0]) && ReadAs(wires[1], texts[1]) &&
      ReadAs(wires[2], texts[2])
    ensures EachReadAs(wires, texts)
  {
    assert EachReadAs(wires[3..], texts[3..]);
    assert wires[2..][1..] == wires[3..] && texts[2..][1..] == texts[3..];
    assert EachReadAs(wires[2..], texts[2..]);
    assert wires[1..][1..] == wires[2..] && texts[1..][1..] == texts[2..];
    assert EachReadAs(wires[1..], texts[1..]);
  }

  lemma {:induction false} ConfirmationsReadAs(word: string, notices: seq<PubSub.Notice>)
    requires IsKind(word) && AllConfirmable(notices)
    ensures EachReadAs(AllConfirmations(word, notices), AllConfirmed(word, notices))
    decreases |notices|
  {
    if notices == [] {
    } else {
      ConfirmationReadAs(word, notices[0]);
      ConfirmationsReadAs(word, notices[1..]);
    }
  }

  /** The one reply to a SUBSCRIBE or UNSUBSCRIBE of several channels is as many values to the client. */
  lemma {:induction false} ConfirmationsRead(word: string, notices: seq<PubSub.Notice>, wire: string, buffer: string,
                                             pos: nat)
    requires IsKind(word) && notices != [] && AllConfirmable(notices)
    requires wire == Serialize(Commands.NoticeLines(word + " ", notices)) && At(buffer, pos, wire)
    ensures InARow(buffer, pos, AllConfirmed(word, notices), pos + |wire|)
  {
    NoticesWire(word, notices);
    ConfirmationsInARow(word, notices, wire, buffer, pos);
  }

  lemma {:induction false} EachInARow(wires: seq<string>, texts: seq<string>, wire: string, buffer: string, pos: nat)
    requires EachReadAs(wires, texts) && wire == Concat(wires) && At(buffer, pos, wire)
    ensures InARow(buffer, pos, texts, pos + |wire|)
  {
    WiresInARow(buffer, pos, wires, texts, pos + |wire|);
  }

  lemma {:induction false} ConfirmationsInARow(word: string, notices: seq<PubSub.Notice>, wire: string,
                                               buffer: string, pos: nat)
    requires IsKind(word) && AllConfirmable(notices) && wire == Concat(AllConfirmations(word, notices))
    requires At(buffer, pos, wire)
    ensures InARow(buffer, pos, AllConfirmed(word, notices), pos + |wire|)
  {
    ConfirmationsReadAs(word, notices);
    EachInARow(AllConfirmations(word, notices), AllConfirmed(word, notices), wire, buffer, pos);
  }

  lemma {:induction false} NoticesStart(word: string, notices: seq<PubSub.Notice>)
    requires notices != []
    ensures word + " " <= Commands.NoticeLines(word + " ", notices)
  {
    NoticesText(word, notices);
    assert word + " " <= NoticeLine(word, notices[0]);
  }

  lemma {:induction false} NoticesWire(word: string, notices: seq<PubSub.Notice>)
    requires IsKind(word) && notices != [] && AllConfirmable(notices)
    ensures Serialize(Commands.NoticeLines(word + " ", notices)) == Concat(AllConfirmations(word, notices))
  {
    NoticesLines(word, notices);
    NoticesStart(word, notices);
    PushText(word, Commands.NoticeLines(word + " ", notices));
  }

  lemma {:induction false} ConfirmedAt(word: string, notices: seq<PubSub.Notice>, i: nat)
    requires i < |notices|
    ensures AllConfirmed(word, notices)[i] == Confirmed(word, notices[i])
    decreases i
  {
    if i == 0 {
    } else {
      ConfirmedAt(word, notices[1..], i - 1);
    }
  }

  /** The first two values of a buffer. */
  ghost predicate StartsWithBoth(buffer: string, first: string, second: string) {
    && ParseAt(buffer, 0).Some? && ParseAt(buffer, 0).value.text == first
    && var v := ParseAt(buffer, ParseAt(buffer, 0).value.next);
       v.Some? && v.value.text == second
  }

  lemma {:induction false} RowOfTwo(buffer: string, texts: seq<string>, end: nat, first: string, second: string)
    requires InARow(buffer, 0, texts, end) && |texts| > 1 && texts[0] == first && texts[1] == second
    ensures StartsWithBoth(buffer, first, second)
  {
  }

  lemma {:induction false} BothFirst(wires: seq<string>, texts: seq<string>, wire: string, buffer: string,
                                     first: string, second: string)
    requires EachReadAs(wires, texts) && |texts| > 1 && texts[0] == first && texts[1] == second
    requires wire == Concat(wires) && wire <= buffer
    ensures StartsWithBoth(buffer, first, second)
  {
    EachInARow(wires, texts, wire, buffer, 0);
    RowOfTwo(buffer, texts, |wire|, first, second);
  }

  lemma {:induction false} ShiftAt(word: string, notices: seq<PubSub.Notice>, wire: string, buffer: string)
    requires IsKind(word) && |notices| > 1 && AllConfirmable(notices)
    requires wire == Concat(AllConfirmations(word, notices)) && wire <= buffer
    ensures StartsWithBoth(buffer, Confirmed(word, notices[0]), Confirmed(word, notices[1]))
  {
    ConfirmationsReadAs(word, notices);
    ConfirmedAt(word, notices, 0);
    ConfirmedAt(word, notices, 1);
    BothFirst(AllConfirmations(word, notices), AllConfirmed(word, notices), wire, buffer,
              Confirmed(word, notices[0]), Confirmed(word, notices[1]));
  }

  /**
   The client takes one value for a reply.  After a SUBSCRIBE of several channels it
   takes the second confirmation for the reply to its next command, whatever follows.
   */
  lemma {:induction false} LaterRepliesShift(word: string, notices: seq<PubSub.Notice>, wire: string, buffer: string)
    requires IsKind(word) && |notices| > 1 && AllConfirmable(notices)
    requires wire == Serialize(Commands.NoticeLines(word + " ", notices)) && wire <= buffer
    ensures StartsWithBoth(buffer, Confirmed(word, notices[0]), Confirmed(word, notices[1]))
  {
    NoticesWire(word, notices);
    ShiftAt(word, notices, wire, buffer);
  }

  // ---------------------------------------------------------------------
  // Messages
  // ---------------------------------------------------------------------

  /** The text of a message: its channel is a word, its payload a line that does not start with a blank. */
  predicate IsPayload(payload: string) {
    payload != [] && !IsSpace(payload[0])
  }

  lemma {:induction false} MessageWords(channel: string, payload: string)
    requires IsName(channel) && IsPayload(payload)
    ensures
      var line := "message " + channel + " " + payload;
      && Word(line) == ("message", " " + channel + " " + payload)
      && Word(" " + channel + " " + payload) == (channel, " " + payload)
      && SkipBlanks(" " + payload) == payload
  {
    var tail := channel + " " + payload;
    assert IsName("message");
    WordOf("message", " " + tail);
    assert "message" + (" " + tail) == "message " + channel + " " + payload;
    assert " " + tail == " " + channel + " " + payload;
    BlankFirst(tail);
    WordOf(channel, " " + payload);
    assert channel + (" " + payload) == tail;
    BlankFirst(payload);
  }

  lemma {:induction false} ThreeBulks(a: string, b: string, c: string)
    ensures BulkStrings([a, b, c]) == [BulkString(a), BulkString(b), BulkString(c)]
  {
    assert [a, b, c][1..] == [b, c] && [b, c][1..] == [c] && [c][1..] == [];
    assert BulkStrings([c]) == [BulkString(c)] + BulkStrings([]);
    assert BulkStrings([b, c]) == [BulkString(b)] + BulkStrings([c]);
  }

  lemma {:induction false} MessageLine(channel: string, payload: string)
    requires IsName(channel) && IsPayload(payload)
    ensures PushLine("message " + channel + " " + payload) == Push(channel, payload)
  {
    MessageWords(channel, payload);
    ThreeBulks("message", channel, payload);
  }

  lemma {:induction false} MessageText(text: string)
    requires "message " <= text
    ensures Serialize(text) == Concat(PushLines(Lines(text)))
  {
    assert "message "[0] == 'm' && text[0] == 'm';
    NotSpecial(text);
    assert "(integer) "[0] != text[0];
    assert StartsWith(text, "message ");
    PushBranch(text);
  }

  lemma {:induction false} OneLinePush(line: string)
    requires "message " <= line && OneLine(line)
    ensures Serialize(line) == PushLine(line)
  {
    MessageText(line);
    LastLine(line);
    assert [line][1..] == [] && [PushLine(line)][1..] == [];
    assert PushLine(line) + "" == PushLine(line);
  }

  lemma {:induction false} MessageOneLine(channel: string, payload: string)
    requires IsName(channel) && OneLine(payload)
    ensures "message " <= "message " + channel + " " + payload && OneLine("message " + channel + " " + payload)
  {
  }

  /** A message as a text is sent as the same array as a published one, numbers and all. */
  lemma {:induction false} MessageSent(channel: string, payload: string)
    requires IsName(channel) && IsPayload(payload) && OneLine(payload)
    ensures Serialize("message " + channel + " " + payload) == Push(channel, payload)
  {
    MessageOneLine(channel, payload);
    OneLinePush("message " + channel + " " + payload);
    MessageLine(channel, payload);
  }
}
