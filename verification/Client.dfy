/**
 The command-line client's reply parser.

 `ParseAt` is the parser as a function of a buffer and a position.  The client
 itself has one buffer and parses nested values by replacing that buffer with
 its own tail for a while; `ParseRespValue` is proved to compute the same and
 to put the buffer back on every path.
 */
module Client {
  import opened Base
  import opened Text
  import opened Numbering
  import opened Resp

  /** The text shown for a value, and the position behind the value. */
  datatype Value = Value(text: string, next: nat)

  /** The texts of several values, and the position behind the last of them. */
  datatype Items = Items(texts: seq<string>, next: nat)

  function ParseAt(buffer: string, pos: nat): (r: Option<Value>)
    requires pos <= |buffer|
    ensures r.Some? ==> pos + 2 <= r.value.next <= |buffer|
    decreases |buffer| - pos, 1, 0
  {
    if pos == |buffer| then None
    else match FindCrlf(buffer, pos)
      case None => None
      case Some(crlf) => ValueFrom(buffer, pos, crlf)
  }

  /** A value whose first line ends at `crlf`. */
  function ValueFrom(buffer: string, pos: nat, crlf: nat): (r: Option<Value>)
    requires pos <= crlf && CrlfAt(buffer, crlf)
    ensures r.Some? ==> crlf + 2 <= r.value.next <= |buffer|
    decreases |buffer| - pos, 0, 1
  {
    match buffer[pos]
    case '$' => BulkValue(buffer, crlf + 2, Stoi(buffer[pos + 1..crlf]))
    case '*' => ArrayValue(buffer, crlf + 2, Stoi(buffer[pos + 1..crlf]))
    case _ => Some(Value(LineText(buffer, pos, crlf), crlf + 2))
  }

  function ArrayValue(buffer: string, start: nat, count: Option<int>): (r: Option<Value>)
    requires start <= |buffer|
    ensures r.Some? ==> start <= r.value.next <= |buffer|
    decreases |buffer| - start, 3, 0
  {
    match count
    case None => Some(Value("(error) invalid array count", start))
    case Some(n) =>
      if n < 0 then Some(Value("(nil)", start))
      else if n == 0 then Some(Value("(empty array)", start))
      else Listed(ParseItems(buffer, start, n))
  }

  /** An array is shown as the numbered lines of its elements. */
  function Listed(items: Option<Items>): Option<Value>
    requires items.Some? ==> items.value.texts != []
  {
    if items.None? then None else Some(Value(Numbered(items.value.texts, 1), items.value.next))
  }

  /** The one-line kinds; a line of unknown kind is shown as it is. */
  function LineText(buffer: string, pos: nat, crlf: nat): string
    requires pos <= crlf <= |buffer| && pos < |buffer|
    requires crlf == pos ==> buffer[pos] == '\r'
  {
    match buffer[pos]
    case '+' => buffer[pos + 1..crlf]
    case '-' => buffer[pos + 1..crlf]
    case ':' => "(integer) " + buffer[pos + 1..crlf]
    case _ => buffer[pos..crlf]
  }

  /** The two bytes behind the data are skipped unread. */
  function BulkValue(buffer: string, start: nat, len: Option<int>): (r: Option<Value>)
    requires start <= |buffer|
    ensures r.Some? ==> start <= r.value.next <= |buffer|
  {
    match len
    case None => Some(Value("(error) invalid bulk string length", start))
    case Some(n) =>
      if n < 0 then Some(Value("(nil)", start))
      else if start + n + 2 > |buffer| then None
      else Some(Value(Quoted(buffer[start..start + n]), start + n + 2))
  }

  function Quoted(s: string): string {
    "\"" + s + "\""
  }

  /** `count` values from `pos` on. */
  function ParseItems(buffer: string, pos: nat, count: nat): (r: Option<Items>)
    requires pos <= |buffer|
    ensures r.Some? ==> |r.value.texts| == count && pos <= r.value.next <= |buffer|
    decreases |buffer| - pos, 2, count
  {
    if count == 0 then Some(Items([], pos))
    else match ParseAt(buffer, pos)
      case None => None
      case Some(v) => Prepend([v.text], ParseItems(buffer, v.next, count - 1))
  }

  function Prepend(texts: seq<string>, rest: Option<Items>): Option<Items> {
    if rest.None? then None else Some(Items(texts + rest.value.texts, rest.value.next))
  }

  // ---------------------------------------------------------------------
  // Values in a row
  // ---------------------------------------------------------------------

  /** The texts stand one after another from `pos` to `end`. */
  ghost predicate InARow(buffer: string, pos: nat, texts: seq<string>, end: nat)
    decreases |texts|
  {
    pos <= |buffer| &&
    if texts == [] then pos == end
    else
      var v := ParseAt(buffer, pos);
      v.Some? && v.value.text == texts[0] && InARow(buffer, v.value.next, texts[1..], end)
  }

  lemma {:induction false} ItemsBack(buffer: string, pos: nat, texts: seq<string>, end: nat)
    requires InARow(buffer, pos, texts, end)
    ensures ParseItems(buffer, pos, |texts|) == Some(Items(texts, end))
    decreases |texts|
  {
    if texts == [] {
    } else {
      ItemsBack(buffer, ParseAt(buffer, pos).value.next, texts[1..], end);
      assert [texts[0]] + texts[1..] == texts;
    }
  }

  lemma {:induction false} RowFirst(buffer: string, pos: nat, v: Value, texts: seq<string>, end: nat)
    requires pos <= |buffer| && ParseAt(buffer, pos) == Some(v) && InARow(buffer, v.next, texts, end)
    ensures InARow(buffer, pos, [v.text] + texts, end)
  {
    assert ([v.text] + texts)[1..] == texts;
  }

  lemma {:induction false} RowMore(buffer: string, pos: nat, texts: seq<string>, end: nat, v: Value)
    requires InARow(buffer, pos, texts, end) && end <= |buffer| && ParseAt(buffer, end) == Some(v)
    ensures InARow(buffer, pos, texts + [v.text], v.next)
    decreases |texts|
  {
    if texts == [] {
      assert ([] + [v.text])[1..] == [];
    } else {
      RowMore(buffer, ParseAt(buffer, pos).value.next, texts[1..], end, v);
      assert (texts + [v.text])[1..] == texts[1..] + [v.text];
    }
  }

  lemma {:induction false} RowStops(buffer: string, pos: nat, texts: seq<string>, end: nat, count: nat)
    requires InARow(buffer, pos, texts, end) && end <= |buffer| && ParseAt(buffer, end) == None && |texts| < count
    ensures ParseItems(buffer, pos, count) == None
    decreases |texts|
  {
    if texts == [] {
    } else {
      RowStops(buffer, ParseAt(buffer, pos).value.next, texts[1..], end, count - 1);
    }
  }

  // ---------------------------------------------------------------------
  // Positions and tails
  // ---------------------------------------------------------------------

  /** The same value, with positions counted from `tail`. */
  function From(tail: nat, r: Option<Value>): Option<Value>
    requires r.Some? ==> tail <= r.value.next
  {
    if r.None? then None else Some(Value(r.value.text, r.value.next - tail))
  }

  lemma {:induction false} TailCrlf(buffer: string, tail: nat, pos: nat)
    requires tail <= pos <= |buffer|
    ensures FindCrlf(buffer[tail..], pos - tail).Some? <==> FindCrlf(buffer, pos).Some?
    ensures FindCrlf(buffer, pos).Some? ==>
      FindCrlf(buffer[tail..], pos - tail) == Some(FindCrlf(buffer, pos).value - tail)
  {
    var t := buffer[tail..];
    forall i ensures CrlfAt(t, i) <==> i >= 0 && CrlfAt(buffer, tail + i) {
    }
    var b := FindCrlf(buffer, pos);
    if b.Some? {
      forall i | pos - tail <= i < b.value - tail ensures !CrlfAt(t, i) {
        assert !CrlfAt(buffer, tail + i);
      }
      FoundAt(t, pos - tail, b.value - tail);
    } else {
      forall i | pos - tail <= i ensures !CrlfAt(t, i) {
        assert !CrlfAt(buffer, tail + i);
      }
    }
  }

  lemma {:induction false} TailSlice(buffer: string, tail: nat, lo: nat, hi: nat)
    requires tail <= lo <= hi <= |buffer|
    ensures buffer[tail..][lo - tail..hi - tail] == buffer[lo..hi]
  {
  }

  lemma {:induction false} TailBulk(buffer: string, tail: nat, start: nat, len: Option<int>)
    requires tail <= start <= |buffer|
    ensures BulkValue(buffer[tail..], start - tail, len) == From(tail, BulkValue(buffer, start, len))
  {
    if len.Some? && 0 <= len.value && start + len.value + 2 <= |buffer| {
      TailSlice(buffer, tail, start, start + len.value);
    }
  }

  lemma {:induction false} TailLine(buffer: string, tail: nat, pos: nat, crlf: nat)
    requires tail <= pos <= crlf && CrlfAt(buffer, crlf)
    requires buffer[pos] != '$' && buffer[pos] != '*'
    ensures LineText(buffer[tail..], pos - tail, crlf - tail) == LineText(buffer, pos, crlf)
  {
    TailSlice(buffer, tail, pos, crlf);
    if pos < crlf { TailSlice(buffer, tail, pos + 1, crlf); }
  }

  /** Parsing a tail of the buffer is parsing the buffer at that position. */
  lemma {:induction false} ParseTail(buffer: string, tail: nat, pos: nat)
    requires tail <= pos <= |buffer|
    ensures ParseAt(buffer[tail..], pos - tail) == From(tail, ParseAt(buffer, pos))
    decreases |buffer| - pos, 1, 0
  {
    TailCrlf(buffer, tail, pos);
    if pos < |buffer| && FindCrlf(buffer, pos).Some? {
      LineTail(buffer, tail, pos, FindCrlf(buffer, pos).value);
    }
  }

  lemma {:induction false} LineTail(buffer: string, tail: nat, pos: nat, crlf: nat)
    requires tail <= pos <= crlf && CrlfAt(buffer, crlf)
    ensures CrlfAt(buffer[tail..], crlf - tail)
    ensures ValueFrom(buffer[tail..], pos - tail, crlf - tail) == From(tail, ValueFrom(buffer, pos, crlf))
    decreases |buffer| - pos, 0, 1
  {
    var t := buffer[tail..];
    TailAt(buffer, tail, pos, crlf);
    if buffer[pos] == '$' {
      TailSlice(buffer, tail, pos + 1, crlf);
      var len := Stoi(buffer[pos + 1..crlf]);
      TailBulk(buffer, tail, crlf + 2, len);
      BulkLine(buffer, t, tail, pos, crlf, len);
    } else if buffer[pos] == '*' {
      TailSlice(buffer, tail, pos + 1, crlf);
      var count := Stoi(buffer[pos + 1..crlf]);
      ArrayTail(buffer, tail, crlf + 2, count);
      ArrayLine(buffer, t, tail, pos, crlf, count);
    } else {
      TailLine(buffer, tail, pos, crlf);
      TextLine(buffer, t, tail, pos, crlf);
    }
  }

  lemma {:induction false} TailAt(buffer: string, tail: nat, pos: nat, crlf: nat)
    requires tail <= pos <= crlf && CrlfAt(buffer, crlf)
    ensures buffer[tail..][pos - tail] == buffer[pos] && CrlfAt(buffer[tail..], crlf - tail)
  {
  }

  lemma {:induction false} BulkLine(buffer: string, t: string, tail: nat, pos: nat, crlf: nat, len: Option<int>)
    requires tail <= pos <= crlf && CrlfAt(buffer, crlf) && CrlfAt(t, crlf - tail)
    requires buffer[pos] == t[pos - tail] == '$'
    requires Stoi(buffer[pos + 1..crlf]) == Stoi(t[pos - tail + 1..crlf - tail]) == len
    requires BulkValue(t, crlf + 2 - tail, len) == From(tail, BulkValue(buffer, crlf + 2, len))
    ensures ValueFrom(t, pos - tail, crlf - tail) == From(tail, ValueFrom(buffer, pos, crlf))
  {
  }

  lemma {:induction false} ArrayLine(buffer: string, t: string, tail: nat, pos: nat, crlf: nat, count: Option<int>)
    requires tail <= pos <= crlf && CrlfAt(buffer, crlf) && CrlfAt(t, crlf - tail)
    requires buffer[pos] == t[pos - tail] == '*'
    requires Stoi(buffer[pos + 1..crlf]) == Stoi(t[pos - tail + 1..crlf - tail]) == count
    requires ArrayValue(t, crlf + 2 - tail, count) == From(tail, ArrayValue(buffer, crlf + 2, count))
    ensures ValueFrom(t, pos - tail, crlf - tail) == From(tail, ValueFrom(buffer, pos, crlf))
  {
  }

  lemma {:induction false} TextLine(buffer: string, t: string, tail: nat, pos: nat, crlf: nat)
    requires tail <= pos <= crlf && CrlfAt(buffer, crlf) && CrlfAt(t, crlf - tail)
    requires buffer[pos] == t[pos - tail] && buffer[pos] != '$' && buffer[pos] != '*'
    requires LineText(t, pos - tail, crlf - tail) == LineText(buffer, pos, crlf)
    ensures ValueFrom(t, pos - tail, crlf - tail) == From(tail, ValueFrom(buffer, pos, crlf))
  {
  }

  lemma {:induction false} ArrayTail(buffer: string, tail: nat, start: nat, count: Option<int>)
    requires tail <= start <= |buffer|
    ensures ArrayValue(buffer[tail..], start - tail, count) == From(tail, ArrayValue(buffer, start, count))
    decreases |buffer| - start, 3, 0
  {
    if count.Some? && count.value > 0 {
      ItemsTail(buffer, tail, start, count.value);
    }
  }

  function ItemsFrom(tail: nat, r: Option<Items>): Option<Items>
    requires r.Some? ==> tail <= r.value.next
  {
    if r.None? then None else Some(Items(r.value.texts, r.value.next - tail))
  }

  lemma {:induction false} ItemsEnd(buffer: string, t: string, pos: nat, at: nat, count: nat)
    requires pos <= |buffer| && at <= |t| && count > 0 && ParseAt(buffer, pos) == ParseAt(t, at) == None
    ensures ParseItems(t, at, count) == ParseItems(buffer, pos, count) == None
  {
  }

  lemma {:induction false} ItemsJoin(buffer: string, t: string, tail: nat, pos: nat, count: nat, v: Value)
    requires tail <= pos <= |buffer| && pos - tail <= |t| && count > 0 && tail <= v.next
    requires ParseAt(buffer, pos) == Some(v) && ParseAt(t, pos - tail) == Some(Value(v.text, v.next - tail))
    requires ParseItems(t, v.next - tail, count - 1) == ItemsFrom(tail, ParseItems(buffer, v.next, count - 1))
    ensures ParseItems(t, pos - tail, count) == ItemsFrom(tail, ParseItems(buffer, pos, count))
  {
  }

  lemma {:induction false} ItemsMore(buffer: string, tail: nat, pos: nat, count: nat, v: Value)
    requires tail <= pos <= |buffer| && count > 0 && tail <= v.next
    requires ParseAt(buffer, pos) == Some(v)
    requires ParseAt(buffer[tail..], pos - tail) == Some(Value(v.text, v.next - tail))
    ensures ParseItems(buffer[tail..], pos - tail, count) == ItemsFrom(tail, ParseItems(buffer, pos, count))
    decreases |buffer| - pos, 2, count, 0
  {
    ItemsTail(buffer, tail, v.next, count - 1);
    ItemsJoin(buffer, buffer[tail..], tail, pos, count, v);
  }

  lemma {:induction false} ItemsTail(buffer: string, tail: nat, pos: nat, count: nat)
    requires tail <= pos <= |buffer|
    ensures ParseItems(buffer[tail..], pos - tail, count) == ItemsFrom(tail, ParseItems(buffer, pos, count))
    decreases |buffer| - pos, 2, count, 1
  {
    if count == 0 {
    } else {
      ParseTail(buffer, tail, pos);
      match ParseAt(buffer, pos)
      case None => ItemsEnd(buffer, buffer[tail..], pos, pos - tail, count);
      case Some(v) => ItemsMore(buffer, tail, pos, count, v);
    }
  }

  // ---------------------------------------------------------------------
  // A parsed value is final
  // ---------------------------------------------------------------------

  lemma {:induction false} SameSlice(a: string, b: string, n: nat, lo: nat, hi: nat)
    requires Agree(a, b, n) && lo <= hi <= n
    ensures a[lo..hi] == b[lo..hi]
  {
  }

  lemma {:induction false} BulkValueLocal(a: string, b: string, start: nat, len: Option<int>)
    requires start <= |a| && BulkValue(a, start, len).Some? && Agree(a, b, BulkValue(a, start, len).value.next)
    ensures BulkValue(b, start, len) == BulkValue(a, start, len)
  {
    if len.Some? && len.value >= 0 {
      SameSlice(a, b, BulkValue(a, start, len).value.next, start, start + len.value);
    }
  }

  lemma {:induction false} LineTextLocal(a: string, b: string, pos: nat, crlf: nat)
    requires pos <= crlf && CrlfAt(a, crlf) && Agree(a, b, crlf + 2)
    requires a[pos] != '$' && a[pos] != '*'
    ensures CrlfAt(b, crlf) && LineText(b, pos, crlf) == LineText(a, pos, crlf)
  {
    SameSlice(a, b, crlf + 2, pos, crlf);
    if pos < crlf { SameSlice(a, b, crlf + 2, pos + 1, crlf); }
  }

  /** A value depends only on the bytes it occupies. */
  lemma {:induction false} ParseLocal(a: string, b: string, pos: nat)
    requires pos <= |a| && ParseAt(a, pos).Some? && Agree(a, b, ParseAt(a, pos).value.next)
    ensures ParseAt(b, pos) == ParseAt(a, pos)
    decreases |a| - pos, 1, 0
  {
    var crlf := FindCrlf(a, pos).value;
    SameCrlf(a, b, ParseAt(a, pos).value.next, pos, crlf);
    LineLocal(a, b, pos, crlf);
  }

  lemma {:induction false} LineLocal(a: string, b: string, pos: nat, crlf: nat)
    requires pos <= crlf && CrlfAt(a, crlf)
    requires ValueFrom(a, pos, crlf).Some? && Agree(a, b, ValueFrom(a, pos, crlf).value.next)
    ensures CrlfAt(b, crlf) && ValueFrom(b, pos, crlf) == ValueFrom(a, pos, crlf)
    decreases |a| - pos, 0, 1
  {
    var n := ValueFrom(a, pos, crlf).value.next;
    if a[pos] == '$' {
      SameSlice(a, b, n, pos + 1, crlf);
      BulkValueLocal(a, b, crlf + 2, Stoi(a[pos + 1..crlf]));
    } else if a[pos] == '*' {
      SameSlice(a, b, n, pos + 1, crlf);
      ArrayLocal(a, b, crlf + 2, Stoi(a[pos + 1..crlf]));
    } else {
      LineTextLocal(a, b, pos, crlf);
    }
  }

  lemma {:induction false} ArrayLocal(a: string, b: string, start: nat, count: Option<int>)
    requires start <= |a| && ArrayValue(a, start, count).Some? && Agree(a, b, ArrayValue(a, start, count).value.next)
    ensures ArrayValue(b, start, count) == ArrayValue(a, start, count)
    decreases |a| - start, 3, 0
  {
    if count.Some? && count.value > 0 {
      ItemsLocal(a, b, start, count.value);
    }
  }

  lemma {:induction false} ItemsLocal(a: string, b: string, pos: nat, count: nat)
    requires pos <= |a| && ParseItems(a, pos, count).Some? && Agree(a, b, ParseItems(a, pos, count).value.next)
    ensures ParseItems(b, pos, count) == ParseItems(a, pos, count)
    decreases |a| - pos, 2, count
  {
    if count == 0 {
    } else {
      ParseLocal(a, b, pos);
      ItemsLocal(a, b, ParseAt(a, pos).value.next, count - 1);
    }
  }

  /** Whether a value is complete can only change from no to yes. */
  lemma {:induction false} ParseGrows(buffer: string, more: string)
    requires ParseAt(buffer, 0).Some?
    ensures ParseAt(buffer + more, 0) == ParseAt(buffer, 0)
  {
    ParseLocal(buffer, buffer + more, 0);
  }

  // ---------------------------------------------------------------------
  // The code
  // ---------------------------------------------------------------------

  class Client {
    var readBuffer: string

    constructor ()
      ensures readBuffer == ""
    {
      readBuffer := "";
    }

    method ParseRespValue() returns (ok: bool, text: string, consumed: nat)
      modifies this
      ensures readBuffer == old(readBuffer)
      ensures ok == ParseAt(readBuffer, 0).Some?
      ensures ok ==> ParseAt(readBuffer, 0) == Some(Value(text, consumed))
      decreases |readBuffer|, 1
    {
      ok, text, consumed := false, "", 0;
      if readBuffer == [] { return; }
      var found := SearchCrlf(readBuffer, 0);
      if found.None? { return; }
      var crlf := found.value;
      match readBuffer[0] {
        case '$' =>
          var len := Stoi(readBuffer[1..crlf]);
          if len.None? { return true, "(error) invalid bulk string length", crlf + 2; }
          if len.value < 0 { return true, "(nil)", crlf + 2; }
          var dataStart := crlf + 2;
          if dataStart + len.value + 2 > |readBuffer| { return; }
          return true, Quoted(readBuffer[dataStart..dataStart + len.value]), dataStart + len.value + 2;
        case '*' =>
          var count := Stoi(readBuffer[1..crlf]);
          assert ParseAt(readBuffer, 0) == ArrayValue(readBuffer, crlf + 2, count);
          if count.None? { return true, "(error) invalid array count", crlf + 2; }
          if count.value < 0 { return true, "(nil)", crlf + 2; }
          if count.value == 0 { return true, "(empty array)", crlf + 2; }
          ok, text, consumed := ParseElements(crlf + 2, count.value);
        case _ =>
          return true, LineText(readBuffer, 0, crlf), crlf + 2;
      }
    }

    /** Reads until a value is complete; `chunks` are what the socket will yield. */
    method ReadRespResponse(chunks: seq<string>) returns (ok: bool, text: string, used: nat)
      modifies this
      ensures used <= |chunks|
      ensures var whole := old(readBuffer) + Concat(chunks);
              ok == ParseAt(whole, 0).Some? &&
              (ok ==> text == ParseAt(whole, 0).value.text
                      && readBuffer + Concat(chunks[used..]) == whole[ParseAt(whole, 0).value.next..])
    {
      ghost var whole := readBuffer + Concat(chunks);
      used := 0;
      while true
        invariant used <= |chunks| && readBuffer + Concat(chunks[used..]) == whole
        decreases |chunks| - used
      {
        var parsed, value, consumed := ParseRespValue();
        if parsed {
          ParseGrows(readBuffer, Concat(chunks[used..]));
          assert (readBuffer + Concat(chunks[used..]))[consumed..] == readBuffer[consumed..] + Concat(chunks[used..]);
          readBuffer := readBuffer[consumed..];
          return true, value, used;
        }
        if used == |chunks| {
          assert readBuffer + "" == readBuffer;
          return false, "", used;
        }
        assert chunks[used..][1..] == chunks[used + 1..];
        Regroup(readBuffer, chunks[used], Concat(chunks[used + 1..]));
        readBuffer := readBuffer + chunks[used];
        used := used + 1;
      }
    }

    /** One element: the tail that starts with it takes the place of the buffer. */
    method ParseElement(saved: string, pos: nat) returns (ok: bool, text: string, next: nat)
      requires pos <= |saved|
      modifies this
      ensures ok == ParseAt(saved, pos).Some?
      ensures ok ==> ParseAt(saved, pos) == Some(Value(text, next))
      decreases |saved| - pos, 2
    {
      readBuffer := saved[pos..];
      var consumed;
      ok, text, consumed := ParseRespValue();
      SubParse(saved, pos, ok, text, consumed);
      next := pos + consumed;
    }

    /** The elements of an array, each parsed from a tail that stands in for the buffer. */
    method ParseElements(start: nat, count: nat) returns (ok: bool, text: string, pos: nat)
      requires 0 < start <= |readBuffer| && count > 0
      modifies this
      ensures readBuffer == old(readBuffer)
      ensures ok == ParseItems(readBuffer, start, count).Some?
      ensures ok ==> Listed(ParseItems(readBuffer, start, count)) == Some(Value(text, pos))
      decreases |readBuffer|, 0
    {
      var saved := readBuffer;
      ghost var texts := [];
      ok, text, pos := false, "", start;
      var i := 0;
      while i < count
        invariant 0 <= i <= count && start <= pos <= |saved| && |texts| == i
        invariant InARow(saved, start, texts, pos)
        invariant text == SoFar(texts, i == count)
      {
        var subOk, elem, next := ParseElement(saved, pos);
        if !subOk {
          readBuffer := saved;
          RowStops(saved, start, texts, pos, count);
          return;
        }
        RowMore(saved, start, texts, pos, Value(elem, next));
        pos := next;
        text := AddLine(text, texts, i, elem, i + 1 == count);
        texts := texts + [elem];
        i := i + 1;
      }
      readBuffer := saved;
      ok := true;
      ItemsBack(saved, start, texts, pos);
    }
  }

  lemma {:induction false} SubParse(buffer: string, pos: nat, ok: bool, text: string, consumed: nat)
    requires pos <= |buffer| && ok == ParseAt(buffer[pos..], 0).Some?
    requires ok ==> ParseAt(buffer[pos..], 0) == Some(Value(text, consumed))
    ensures ok == ParseAt(buffer, pos).Some?
    ensures ok ==> ParseAt(buffer, pos) == Some(Value(text, pos + consumed))
  {
    ParseTail(buffer, pos, pos);
  }
}
