/** Exactly which texts the client shows as the handler wrote them. */
module Shown {
  import opened Base
  import opened Text
  import opened Numbering
  import opened Parser
  import opened Resp
  import opened Client
  import opened Reply
  import opened RoundTrip
  import opened ListReply

  /** A text up to its first newline. */
  function Head(s: string): string {
    match FindNewline(s, 0)
    case None => s
    case Some(i) => s[..i]
  }

  /** The text shown is `u`, or at least its first line is, if `u` is one line. */
  ghost predicate Fits(u: string, text: string) {
    text == u || (OneLine(u) && u < text && text[|u|] == '\n')
  }

  lemma {:induction false} FitsLine(u: string, text: string)
    requires Fits(u, text) && OneLine(text)
    ensures text == u
  {
  }

  lemma {:induction false} FitsHead(u: string, text: string)
    requires OneLine(u) && Fits(u, text)
    ensures Head(text) == u
  {
    if u != text {
      assert FindNewline(text, 0) == Some(|u|);
    }
  }

  lemma {:induction false} FitsStart(u: string, text: string)
    requires Fits(u, text) && text != [] && text[0] != '\n'
    ensures u != [] && u[0] == text[0]
  {
  }

  // ---------------------------------------------------------------------
  // What cannot be read
  // ---------------------------------------------------------------------

  const BAD_LENGTH := "(error) invalid bulk string length"
  const BAD_COUNT := "(error) invalid array count"

  lemma {:induction false} TooLarge(n: nat)
    requires n >= 0x8000_0000
    ensures Stoi(ToString(n)) == None
  {
    ReadBack(n);
  }

  lemma {:induction false} BulkHead(buffer: string, pos: nat, n: nat)
    requires At(buffer, pos, "$" + ToString(n) + CRLF)
    ensures ParseAt(buffer, pos) == BulkValue(buffer, pos + 3 + |ToString(n)|, Stoi(ToString(n)))
  {
    NumberLine(buffer, pos, '$', n);
  }

  lemma {:induction false} LongBulkRead(buffer: string, pos: nat, s: string)
    requires |s| >= 0x8000_0000 && At(buffer, pos, BulkString(s))
    ensures ParseAt(buffer, pos).Some? && ParseAt(buffer, pos).value.text == BAD_LENGTH
  {
    BulkParts(buffer, pos, s);
    BulkHead(buffer, pos, |s|);
    TooLarge(|s|);
  }

  lemma {:induction false} LongArrayRead(buffer: string, pos: nat, n: nat)
    requires n >= 0x8000_0000 && At(buffer, pos, "*" + ToString(n) + CRLF)
    ensures ParseAt(buffer, pos).Some? && ParseAt(buffer, pos).value.text == BAD_COUNT
  {
    NumberLine(buffer, pos, '*', n);
    TooLarge(n);
    assert ParseAt(buffer, pos) == ArrayValue(buffer, pos + 3 + |ToString(n)|, None);
  }

  lemma {:induction false} BadTexts()
    ensures OneLine(BAD_LENGTH) && OneLine(BAD_COUNT) && OneLine("(nil)") && OneLine("(empty array)")
  {
  }

  // ---------------------------------------------------------------------
  // Texts that are not lists
  // ---------------------------------------------------------------------

  lemma {:induction false} OneLineNoCrlf(s: string)
    requires OneLine(s)
    ensures !HasCrlf(s)
  {
  }

  lemma {:induction false} EmptyConverse(buffer: string, pos: nat, u: string, v: Value)
    requires u == "" || u == "(empty list)"
    requires At(buffer, pos, Serialize(u)) && ParseAt(buffer, pos) == Some(v)
    ensures !Fits(u, v.text)
  {
    BadTexts();
    if u == "" {
      NilRead(buffer, pos);
    } else {
      EmptyRead(buffer, pos);
      assert "(empty array)"[7] != "(empty list)"[7];
    }
    if Fits(u, v.text) { FitsLine(u, v.text); }
  }

  lemma {:induction false} StatusConverse(buffer: string, pos: nat, u: string, v: Value)
    requires IsStatus(u) && At(buffer, pos, Serialize(u)) && ParseAt(buffer, pos) == Some(v)
    ensures v == Value(u, pos + |Serialize(u)|)
  {
    assert OneLine(u);
    OneLineNoCrlf(u);
    PlainRead(buffer, pos, '+', u);
  }

  lemma {:induction false} NilConverse(buffer: string, pos: nat, v: Value)
    requires At(buffer, pos, Serialize("(nil)")) && ParseAt(buffer, pos) == Some(v)
    ensures v == Value("(nil)", pos + |Serialize("(nil)")|)
  {
    NilRead(buffer, pos);
  }

  /** With CRLF in it, an error is cut short. */
  lemma {:induction false} ErrorConverse(buffer: string, pos: nat, u: string, v: Value)
    requires IsError(u) && At(buffer, pos, Serialize(u)) && ParseAt(buffer, pos) == Some(v) && Fits(u, v.text)
    ensures !HasCrlf(u) && v == Value(u, pos + |Serialize(u)|)
  {
    ErrorWire(u);
    if HasCrlf(u) {
      CutShort(buffer, pos, u, v);
    } else {
      PlainRead(buffer, pos, '-', u);
    }
  }

  lemma {:induction false} CutShort(buffer: string, pos: nat, u: string, v: Value)
    requires At(buffer, pos, "-" + u + CRLF) && HasCrlf(u) && ParseAt(buffer, pos) == Some(v)
    ensures !Fits(u, v.text)
  {
    var j :| CrlfAt(u, j);
    var wire := "-" + u + CRLF;
    assert wire[0] == buffer[pos] && wire[j + 1] == buffer[pos + j + 1] && wire[j + 2] == buffer[pos + j + 2];
    assert CrlfAt(buffer, pos + j + 1);
    var crlf := FindCrlf(buffer, pos).value;
    assert crlf <= pos + j + 1;
    assert ParseAt(buffer, pos) == ValueFrom(buffer, pos, crlf);
    assert |v.text| < |u| && !OneLine(u);
  }

  lemma {:induction false} IntegerConverse(buffer: string, pos: nat, u: string, v: Value, n: int)
    requires IntegerIn(u) == Some(n) && Serialize(u) == ":" + ToString(n) + CRLF
    requires At(buffer, pos, Serialize(u)) && ParseAt(buffer, pos) == Some(v) && Fits(u, v.text)
    ensures u == "(integer) " + ToString(n) && v == Value(u, pos + |Serialize(u)|)
  {
    NumberOneLine(n);
    OneLineNoCrlf(ToString(n));
    PlainRead(buffer, pos, ':', ToString(n));
    FitsLine(u, v.text);
  }

  lemma {:induction false} NumberOneLine(n: int)
    ensures OneLine(ToString(n)) && OneLine("(integer) " + ToString(n))
  {
    DecimalDigits(if n < 0 then -n else n);
  }

  lemma {:induction false} QuotedConverse(buffer: string, pos: nat, s: string, v: Value)
    requires At(buffer, pos, BulkString(s)) && ParseAt(buffer, pos) == Some(v) && Fits(Quoted(s), v.text)
    ensures |s| < 0x8000_0000 && v == Value(Quoted(s), pos + |BulkString(s)|)
  {
    if |s| < 0x8000_0000 {
      QuoteRead(buffer, pos, s);
    } else {
      assert BAD_LENGTH[0] == '(' && Quoted(s)[0] == '"';
      LongBulkRead(buffer, pos, s);
      BadTexts();
      FitsLine(Quoted(s), v.text);
    }
  }

  /** A text that no pattern fits comes back in quotes. */
  lemma {:induction false} BulkConverse(buffer: string, pos: nat, u: string, v: Value)
    requires At(buffer, pos, BulkString(u)) && ParseAt(buffer, pos) == Some(v)
    ensures !Fits(u, v.text)
  {
    if |u| < 0x8000_0000 {
      QuoteRead(buffer, pos, u);
      QuotedDiffers(u);
    } else {
      LongBulkRead(buffer, pos, u);
      assert |BAD_LENGTH| < |u|;
    }
  }

  lemma {:induction false} QuotedDiffers(u: string)
    ensures !Fits(u, Quoted(u))
  {
    assert |Quoted(u)| == |u| + 2;
    if OneLine(u) { QuotedOneLine(u); }
  }

  lemma {:induction false} PushStarts(u: string)
    requires IsPush(u)
    ensures u != [] && (u[0] == 's' || u[0] == 'u' || u[0] == 'm')
  {
    assert StartsWith(u, "subscribe ") ==> "subscribe "[0] == u[0];
    assert StartsWith(u, "unsubscribe ") ==> "unsubscribe "[0] == u[0];
    assert StartsWith(u, "message ") ==> "message "[0] == u[0];
  }

  lemma {:induction false} PushConverse(buffer: string, pos: nat, u: string, v: Value, parts: seq<string>, rest: string)
    requires IsPush(u) && |parts| == 3 && At(buffer, pos, ArrayOf(parts) + rest) && ParseAt(buffer, pos) == Some(v)
    ensures !Fits(u, v.text)
  {
    AtConcat(buffer, pos, ArrayOf(parts), rest);
    ArrayParts(buffer, pos, parts);
    ArrayHead(buffer, pos, 3);
    var items := ParseItems(buffer, pos + 3 + |ToString(3)|, 3).value;
    LooksLikeList(items.texts);
    PushStarts(u);
    if Fits(u, v.text) { FitsStart(u, v.text); }
  }

  lemma {:induction false} PushWire(u: string) returns (parts: seq<string>, rest: string)
    requires IsPush(u)
    ensures |parts| == 3 && Concat(PushLines(Lines(u))) == ArrayOf(parts) + rest
  {
    PushStarts(u);
    var lines := Lines(u);
    assert lines != [];
    rest := Concat(PushLines(lines[1..]));
    var kind := Word(lines[0]);
    var channel := Word(kind.1);
    var third := SkipBlanks(channel.1);
    var last :=
      if kind.0 != "message" && Stoll(third).Some? then IntegerLine(Stoll(third).value) else BulkString(third);
    parts := [BulkString(kind.0), BulkString(channel.0), last];
    assert PushLines(lines)[1..] == PushLines(lines[1..]);
  }

  lemma {:induction false} OtherConverse(buffer: string, pos: nat, u: string, v: Value)
    requires u != "" && !IsStatus(u) && u != "(nil)" && u != "(empty list)" && !IsError(u)
    requires IntegerIn(u).None? && !IsQuoted(u) && !IsList(u)
    requires At(buffer, pos, Serialize(u)) && ParseAt(buffer, pos) == Some(v)
    ensures !Fits(u, v.text)
  {
    if IsPush(u) {
      var parts, rest := PushWire(u);
      PushConverse(buffer, pos, u, v, parts, rest);
    } else {
      BulkConverse(buffer, pos, u, v);
    }
  }

  /** The text is that of a faithful reply, and the client reads all of its wire form. */
  ghost predicate Genuine(r: Response, u: string, pos: nat, v: Value) {
    Faithful(r) && Show(r) == u && v == Value(u, pos + |Serialize(u)|)
  }

  lemma {:induction false} FixedConverse(buffer: string, pos: nat, u: string, v: Value) returns (r: Response)
    requires u == "" || u == "(empty list)" || u == "(nil)" || IsStatus(u)
    requires At(buffer, pos, Serialize(u)) && ParseAt(buffer, pos) == Some(v) && Fits(u, v.text)
    ensures Genuine(r, u, pos, v)
  {
    if IsStatus(u) {
      StatusConverse(buffer, pos, u, v);
      r := Status(u);
    } else if u == "(nil)" {
      NilConverse(buffer, pos, v);
      r := Nil;
    } else {
      EmptyConverse(buffer, pos, u, v);
    }
  }

  lemma {:induction false} NumberConverse(buffer: string, pos: nat, u: string, v: Value) returns (r: Response)
    requires IntegerIn(u).Some? && At(buffer, pos, Serialize(u)) && ParseAt(buffer, pos) == Some(v) && Fits(u, v.text)
    ensures Genuine(r, u, pos, v)
  {
    var n := IntegerIn(u).value;
    IntegerWire(u, n);
    IntegerConverse(buffer, pos, u, v, n);
    r := Integer(n);
  }

  lemma {:induction false} Unquoted(u: string) returns (s: string)
    requires IsQuoted(u)
    ensures u == Quoted(s)
  {
    s := u[1..|u| - 1];
  }

  lemma {:induction false} QuoteConverse(buffer: string, pos: nat, s: string, v: Value)
    requires At(buffer, pos, Serialize(Quoted(s))) && ParseAt(buffer, pos) == Some(v) && Fits(Quoted(s), v.text)
    ensures Genuine(Quote(s), Quoted(s), pos, v)
  {
    QuoteWire(s);
    QuotedConverse(buffer, pos, s, v);
  }

  lemma {:induction false} PlainConverse(buffer: string, pos: nat, u: string, v: Value) returns (r: Response)
    requires !IsList(u) && At(buffer, pos, Serialize(u)) && ParseAt(buffer, pos) == Some(v) && Fits(u, v.text)
    ensures Genuine(r, u, pos, v)
  {
    if u == "" || u == "(empty list)" || u == "(nil)" || IsStatus(u) {
      r := FixedConverse(buffer, pos, u, v);
    } else if IsError(u) {
      ErrorConverse(buffer, pos, u, v);
      r := Error(u);
    } else if IntegerIn(u).Some? {
      r := NumberConverse(buffer, pos, u, v);
    } else if IsQuoted(u) {
      var s := Unquoted(u);
      QuoteConverse(buffer, pos, s, v);
      r := Quote(s);
    } else {
      OtherConverse(buffer, pos, u, v);
    }
  }

  // ---------------------------------------------------------------------
  // Lists
  // ---------------------------------------------------------------------

  lemma {:induction false} HeadOneLine(s: string)
    ensures OneLine(Head(s)) && Fits(Head(s), s)
  {
  }

  lemma {:induction false} HeadBehind(a: string, b: string)
    requires OneLine(a)
    ensures Head(a + b) == a + Head(b)
  {
    var s := a + b;
    assert forall k :: 0 <= k < |b| ==> s[|a| + k] == b[k];
    match FindNewline(b, 0)
    case None => assert OneLine(s);
    case Some(i) =>
      assert s[|a| + i] == '\n' && forall k :: 0 <= k < |a| + i ==> s[k] != '\n';
      assert FindNewline(s, 0) == Some(|a| + i);
  }

  lemma {:induction false} HeadBefore(a: string, b: string)
    ensures Head(a + "\n" + b) == Head(a)
  {
    var s := a + "\n" + b;
    assert s[|a|] == '\n' && forall k :: 0 <= k < |a| ==> s[k] == a[k];
    match FindNewline(a, 0)
    case None => assert FindNewline(s, 0) == Some(|a|);
    case Some(i) => assert FindNewline(s, 0) == Some(i);
  }

  lemma {:induction false} HeadNumbered(ts: seq<string>, i: nat)
    requires ts != []
    ensures Head(Numbered(ts, i)) == Label(i) + Head(ts[0])
  {
    LabelOneLine(i, "");
    assert Label(i) + "" == Label(i);
    if |ts| == 1 {
      HeadBehind(Label(i), ts[0]);
    } else {
      var rest := Numbered(ts[1..], i + 1);
      HeadBefore(ts[0], rest);
      HeadBehind(Label(i), ts[0] + "\n" + rest);
      FourTexts(Label(i), ts[0], "\n", rest);
    }
  }

  lemma {:induction false} FirstIsHead(u: string)
    requires u != []
    ensures Lines(u) != [] && Lines(u)[0] == Head(u)
  {
  }

  /** As many lines as elements, and the lines are those of the elements. */
  ghost predicate Corresponds(lines: seq<string>, ts: seq<string>, i: nat) {
    && ts != [] && |lines| == |ts| && lines[0] == Label(i) + Head(ts[0])
    && (|ts| > 1 ==> lines == Lines(Numbered(ts, i)))
  }

  lemma {:induction false} FirstLines(u: string, ts: seq<string>)
    requires ts != [] && u != [] && |Lines(u)| == |ts| && Fits(u, Numbered(ts, 1))
    ensures Corresponds(Lines(u), ts, 1)
  {
    HeadNumbered(ts, 1);
    FirstIsHead(u);
    if u != Numbered(ts, 1) {
      FitsHead(u, Numbered(ts, 1));
      LastLine(u);
    }
  }

  lemma {:induction false} NextLines(lines: seq<string>, ts: seq<string>, i: nat)
    requires Corresponds(lines, ts, i) && |ts| > 1 && OneLine(ts[0])
    ensures Corresponds(lines[1..], ts[1..], i + 1)
  {
    var rest := Numbered(ts[1..], i + 1);
    LabelOneLine(i, ts[0]);
    FirstLine(Label(i) + ts[0], rest);
    assert lines[1..] == Lines(rest);
    FirstIsHead(rest);
    HeadNumbered(ts[1..], i + 1);
  }

  lemma {:induction false} RowOf(buffer: string, pos: nat, count: nat)
    requires pos <= |buffer| && ParseItems(buffer, pos, count).Some?
    ensures var items := ParseItems(buffer, pos, count).value; InARow(buffer, pos, items.texts, items.next)
    decreases count
  {
    if count == 0 {
    } else {
      var next := ParseAt(buffer, pos).value.next;
      RowOf(buffer, next, count - 1);
      assert ParseItems(buffer, pos, count).value.texts[1..] == ParseItems(buffer, next, count - 1).value.texts;
    }
  }

  ghost predicate AllFaithful(rs: seq<Response>) {
    forall i :: 0 <= i < |rs| ==> Faithful(rs[i]) && OneLine(Show(rs[i]))
  }

  lemma {:induction false} WireOfLine(buffer: string, pos: nat, lines: seq<string>, i: nat, content: string, bound: nat)
    requires lines != [] && lines[0] == Label(i) + content && forall k :: 0 <= k < |lines| ==> |lines[k]| <= bound
    requires At(buffer, pos, Concat(SerializeLines(lines, bound)))
    ensures At(buffer, pos, Serialize(content)) && |content| < bound
    ensures At(buffer, pos + |Serialize(content)|, Concat(SerializeLines(lines[1..], bound)))
    ensures |Concat(SerializeLines(lines, bound))| == |Serialize(content)| + |Concat(SerializeLines(lines[1..], bound))|
  {
    LineWire(i, content, bound);
    var wires := SerializeLines(lines, bound);
    assert wires[0] == Serialize(content) && wires[1..] == SerializeLines(lines[1..], bound);
    AtConcat(buffer, pos, wires[0], Concat(wires[1..]));
  }

  lemma {:induction false} MoreFaithful(r: Response, rs: seq<Response>, t: string, ts: seq<string>)
    requires Faithful(r) && Show(r) == t && OneLine(t) && AllFaithful(rs) && Shows(rs) == ts
    ensures AllFaithful([r] + rs) && Shows([r] + rs) == [t] + ts
  {
    assert ([r] + rs)[1..] == rs;
  }

  lemma {:induction false} ElementConverse(buffer: string, pos: nat, lines: seq<string>, t: string, i: nat, bound: nat,
                                           v: Value) returns (r: Response)
    requires lines != [] && lines[0] == Label(i) + Head(t) && forall k :: 0 <= k < |lines| ==> |lines[k]| <= bound
    requires At(buffer, pos, Concat(SerializeLines(lines, bound))) && ParseAt(buffer, pos) == Some(v) && v.text == t
    ensures Faithful(r) && Show(r) == t && OneLine(t)
    ensures At(buffer, v.next, Concat(SerializeLines(lines[1..], bound)))
    ensures pos + |Concat(SerializeLines(lines, bound))| == v.next + |Concat(SerializeLines(lines[1..], bound))|
    decreases bound, 0, 0
  {
    WireOfLine(buffer, pos, lines, i, Head(t), bound);
    HeadOneLine(t);
    r := Converse(buffer, pos, Head(t), v);
  }

  lemma {:induction false} ItemsConverse(buffer: string, pos: nat, lines: seq<string>, ts: seq<string>, i: nat,
                                         end: nat, bound: nat) returns (rs: seq<Response>)
    requires Corresponds(lines, ts, i) && forall k :: 0 <= k < |lines| ==> |lines[k]| <= bound
    requires At(buffer, pos, Concat(SerializeLines(lines, bound))) && InARow(buffer, pos, ts, end)
    ensures Shows(rs) == ts && AllFaithful(rs) && end == pos + |Concat(SerializeLines(lines, bound))|
    decreases bound, 0, |ts|
  {
    var v := ParseAt(buffer, pos).value;
    var r := ElementConverse(buffer, pos, lines, ts[0], i, bound, v);
    if |ts| == 1 {
      rs := [];
      assert lines[1..] == [] && ts[1..] == [];
    } else {
      NextLines(lines, ts, i);
      rs := ItemsConverse(buffer, v.next, lines[1..], ts[1..], i + 1, end, bound);
    }
    MoreFaithful(r, rs, ts[0], ts[1..]);
    assert [ts[0]] + ts[1..] == ts;
    rs := [r] + rs;
  }

  lemma {:induction false} ListTextAny(u: string)
    requires IsList(u)
    ensures Serialize(u) == ArrayOf(SerializeLines(Lines(u), |u|)) && Lines(u) != []
  {
    NotSpecial(u);
    assert "(integer) "[0] != u[0];
    FirstIsHead(u);
  }

  lemma {:induction false} NotTooLong(buffer: string, pos: nat, u: string, v: Value, n: nat)
    requires IsList(u) && At(buffer, pos, "*" + ToString(n) + CRLF) && ParseAt(buffer, pos) == Some(v) &&
      Fits(u, v.text)
    ensures n < 0x8000_0000
  {
    if n >= 0x8000_0000 {
      LongArrayRead(buffer, pos, n);
      FitsStart(u, v.text);
    }
  }

  /** One line can only be a list of one. */
  lemma {:induction false} WholeList(u: string, ts: seq<string>, rs: seq<Response>)
    requires ts != [] && Shows(rs) == ts && AllFaithful(rs) && |ts| == |Lines(u)| < 0x8000_0000
    requires u != [] && Fits(u, Numbered(ts, 1))
    ensures Faithful(List(rs)) && Show(List(rs)) == u == Numbered(ts, 1)
  {
    if u != Numbered(ts, 1) {
      LastLine(u);
      ShowsAt(rs, 0);
      LabelOneLine(1, ts[0]);
      FitsLine(u, Numbered(ts, 1));
    }
  }

  /** The elements the client reads from a list's wire form. */
  lemma {:induction false} ListParts(buffer: string, pos: nat, u: string, v: Value, n: nat) returns (ts: seq<string>)
    requires IsList(u) && 0 < n && At(buffer, pos, "*" + ToString(n) + CRLF)
    requires ParseAt(buffer, pos) == Some(v) && Fits(u, v.text)
    ensures |ts| == n < 0x8000_0000 && v.text == Numbered(ts, 1)
    ensures InARow(buffer, pos + 3 + |ToString(n)|, ts, v.next)
  {
    NotTooLong(buffer, pos, u, v, n);
    ArrayHead(buffer, pos, n);
    var start := pos + 3 + |ToString(n)|;
    ts := ParseItems(buffer, start, n).value.texts;
    RowOf(buffer, start, n);
  }

  function ItemWires(u: string): string {
    Concat(SerializeLines(Lines(u), |u|))
  }

  lemma {:induction false} WireHead(buffer: string, pos: nat, u: string) returns (n: nat)
    requires IsList(u) && At(buffer, pos, Serialize(u))
    ensures n > 0 && At(buffer, pos, "*" + ToString(n) + CRLF)
  {
    ListTextAny(u);
    var wires := SerializeLines(Lines(u), |u|);
    ArrayParts(buffer, pos, wires);
    n := |wires|;
  }

  lemma {:induction false} WireParts(buffer: string, pos: nat, u: string, n: nat)
    requires IsList(u) && At(buffer, pos, Serialize(u)) && At(buffer, pos, "*" + ToString(n) + CRLF)
    ensures n == |Lines(u)| && At(buffer, pos + 3 + |ToString(n)|, ItemWires(u))
    ensures |Serialize(u)| == 3 + |ToString(n)| + |ItemWires(u)|
  {
    ListTextAny(u);
    var wires := SerializeLines(Lines(u), |u|);
    ArrayParts(buffer, pos, wires);
    SameHead(buffer, pos, n, |wires|);
  }

  lemma {:induction false} ListItems(buffer: string, start: nat, u: string, ts: seq<string>, end: nat)
    returns (r: Response)
    requires u != [] && ts != [] && |ts| == |Lines(u)| < 0x8000_0000 && Fits(u, Numbered(ts, 1))
    requires InARow(buffer, start, ts, end) && At(buffer, start, ItemWires(u))
    ensures Faithful(r) && Show(r) == u == Numbered(ts, 1) && end == start + |ItemWires(u)|
    decreases |u|, 1
  {
    FirstLines(u, ts);
    var rs := ItemsConverse(buffer, start, Lines(u), ts, 1, end, |u|);
    WholeList(u, ts, rs);
    r := List(rs);
  }

  lemma {:induction false} ArrayConverse(buffer: string, pos: nat, u: string, ts: seq<string>, n: nat, end: nat)
    returns (r: Response)
    requires IsList(u) && At(buffer, pos, Serialize(u)) && At(buffer, pos, "*" + ToString(n) + CRLF)
    requires 0 < |ts| == n < 0x8000_0000 && Fits(u, Numbered(ts, 1)) && InARow(buffer, pos + 3 + |ToString(n)|, ts, end)
    ensures Faithful(r) && Show(r) == u == Numbered(ts, 1) && end == pos + |Serialize(u)|
    decreases |u|, 2
  {
    WireParts(buffer, pos, u, n);
    r := ListItems(buffer, pos + 3 + |ToString(n)|, u, ts, end);
  }

  lemma {:induction false} ListConverse(buffer: string, pos: nat, u: string, v: Value) returns (r: Response)
    requires IsList(u) && At(buffer, pos, Serialize(u)) && ParseAt(buffer, pos) == Some(v) && Fits(u, v.text)
    ensures Genuine(r, u, pos, v)
    decreases |u|, 3
  {
    var n := WireHead(buffer, pos, u);
    var ts := ListParts(buffer, pos, u, v, n);
    r := ArrayConverse(buffer, pos, u, ts, n, v.next);
  }

  lemma {:induction false} Converse(buffer: string, pos: nat, u: string, v: Value) returns (r: Response)
    requires At(buffer, pos, Serialize(u)) && ParseAt(buffer, pos) == Some(v) && Fits(u, v.text)
    ensures Genuine(r, u, pos, v)
    decreases |u|, 4
  {
    if IsList(u) {
      r := ListConverse(buffer, pos, u, v);
    } else {
      r := PlainConverse(buffer, pos, u, v);
    }
  }

  lemma {:induction false} TextOf(text: string) returns (r: Response)
    requires RoundTrips(text)
    ensures Faithful(r) && Show(r) == text
  {
    var wire := Serialize(text);
    assert At(wire, 0, wire);
    r := Converse(wire, 0, text, Value(text, |wire|));
  }

  /** The client shows a text as it was written exactly when it is the text of a faithful reply. */
  lemma {:induction false} ShownExactly(text: string)
    ensures RoundTrips(text) <==> exists r :: Faithful(r) && Show(r) == text
  {
    if RoundTrips(text) {
      var r := TextOf(text);
      assert Faithful(r) && Show(r) == text;
    } else {
      forall r | Faithful(r) ensures Show(r) != text {
        FaithfulTrips(r);
      }
    }
  }
}
