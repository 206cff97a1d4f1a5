/** The wire form of each kind of reply, and what the client makes of each kind of value, character by character. */
module Forms {
  import opened Base
  import opened Text
  import opened Resp
  import opened Client
  import opened Reply
  import opened RoundTrip
  import opened Shown

  // ---------------------------------------------------------------------
  // What is sent
  // ---------------------------------------------------------------------

  lemma {:induction false} FixedForms()
    ensures Serialize("OK") == "+OK\r\n" && Serialize("PONG") == "+PONG\r\n" && Serialize("QUEUED") == "+QUEUED\r\n"
    ensures Serialize("") == "$-1\r\n" && Serialize("(nil)") == "$-1\r\n" && Serialize("(empty list)") == "*0\r\n"
  {
  }

  /** The three ways to start an error. */
  predicate ErrorText(text: string) {
    "ERR" <= text || "WRONGTYPE " <= text || "NOAUTH " <= text
  }

  lemma {:induction false} ErrorTextExactly(text: string)
    ensures ErrorText(text) <==> IsError(text)
  {
    PrefixIsStart("ERR", text);
    PrefixIsStart("WRONGTYPE ", text);
    PrefixIsStart("NOAUTH ", text);
  }

  lemma {:induction false} PrefixIsStart(prefix: string, text: string)
    ensures prefix <= text <==> StartsWith(text, prefix)
  {
    if StartsWith(text, prefix) {
      assert text[..|prefix|] == prefix;
    }
  }

  lemma {:induction false} ErrorForm(text: string)
    requires ErrorText(text)
    ensures Serialize(text) == "-" + text + "\r\n"
  {
    ErrorTextExactly(text);
    ErrorWire(text);
  }

  lemma {:induction false} IntegerForm(n: int)
    requires -9223372036854775808 <= n <= 9223372036854775807
    ensures Serialize("(integer) " + ToString(n)) == ":" + ToString(n) + "\r\n"
  {
    var text := "(integer) " + ToString(n);
    assert text[10..] == ToString(n);
    ReadBack(n);
    IntegerWire(text, n);
  }

  lemma {:induction false} QuotedForm(s: string)
    ensures Serialize("\"" + s + "\"") == "$" + ToString(|s|) + "\r\n" + s + "\r\n"
  {
    QuoteWire(s);
  }

  /** A text that starts like a numbered line is an array of its lines. */
  lemma {:induction false} ListForm(text: string)
    requires |text| >= 3 && '1' <= text[0] <= '9' && text[1] == ')'
    ensures Serialize(text) == "*" + ToString(|Lines(text)|) + "\r\n" + Concat(SerializeLines(Lines(text), |text|))
  {
    ListTextAny(text);
  }

  /** Any other text is a bulk string. */
  predicate PlainText(text: string) {
    && text != "" && text != "OK" && text != "PONG" && text != "QUEUED" && text != "(nil)" && text != "(empty list)"
    && !ErrorText(text) && !("(integer) " <= text && Stoll(text[10..]).Some?)
    && !(|text| >= 2 && text[0] == '"' && text[|text| - 1] == '"')
    && !(|text| >= 3 && '1' <= text[0] <= '9' && text[1] == ')')
    && !("subscribe " <= text) && !("unsubscribe " <= text) && !("message " <= text)
  }

  lemma {:induction false} PlainForm(text: string)
    requires PlainText(text)
    ensures Serialize(text) == "$" + ToString(|text|) + "\r\n" + text + "\r\n"
  {
    ErrorTextExactly(text);
    PrefixIsStart("(integer) ", text);
    assert |"(integer) "| == 10;
    PrefixIsStart("subscribe ", text);
    PrefixIsStart("unsubscribe ", text);
    PrefixIsStart("message ", text);
    PlainBranch(text);
  }

  lemma {:induction false} PlainBranch(text: string)
    requires text != "" && !IsStatus(text) && text != "(nil)" && text != "(empty list)" && !IsError(text)
    requires IntegerIn(text).None? && !IsQuoted(text) && !IsList(text) && !IsPush(text)
    ensures Serialize(text) == "$" + ToString(|text|) + "\r\n" + text + "\r\n"
  {
  }

  // ---------------------------------------------------------------------
  // What is shown
  // ---------------------------------------------------------------------

  /** A line is shown without its mark, a number with a word before it, and an unknown kind as it is. */
  lemma {:induction false} LineShown(buffer: string, pos: nat, mark: char, body: string)
    requires mark != '\r' && mark != '$' && mark != '*'
    requires At(buffer, pos, [mark] + body + "\r\n") && !HasCrlf(body)
    ensures ParseAt(buffer, pos).Some? && ParseAt(buffer, pos).value.next == pos + |body| + 3
    ensures ParseAt(buffer, pos).value.text ==
      if mark == '+' || mark == '-' then body
      else if mark == ':' then "(integer) " + body
      else [mark] + body
  {
    MarkedLine(buffer, pos, mark, body);
    assert ParseAt(buffer, pos) == ValueFrom(buffer, pos, pos + 1 + |body|);
    assert buffer[pos..pos + 1 + |body|] == [buffer[pos]] + buffer[pos + 1..pos + 1 + |body|];
  }

  /** A negative length or count is nothing. */
  lemma {:induction false} NothingShown(buffer: string, pos: nat, mark: char, n: int)
    requires -2147483648 <= n < 0 && (mark == '$' || mark == '*') && At(buffer, pos, [mark] + ToString(n) + "\r\n")
    ensures ParseAt(buffer, pos) == Some(Value("(nil)", pos + 3 + |ToString(n)|))
  {
    NumberLine(buffer, pos, mark, n);
    StoiBack(n);
    assert ParseAt(buffer, pos) == ValueFrom(buffer, pos, pos + 1 + |ToString(n)|);
  }

  /** What should be a number and is none is reported. */
  lemma {:induction false} UnreadableShown(buffer: string, pos: nat, mark: char, text: string)
    requires (mark == '$' || mark == '*') && At(buffer, pos, [mark] + text + "\r\n") && !HasCrlf(text) &&
      Stoi(text) == None
    ensures ParseAt(buffer, pos) ==
      Some(Value(if mark == '$' then "(error) invalid bulk string length" else "(error) invalid array count",
                 pos + |text| + 3))
  {
    MarkedLine(buffer, pos, mark, text);
    assert ParseAt(buffer, pos) == ValueFrom(buffer, pos, pos + 1 + |text|);
    if mark == '$' {
      assert ParseAt(buffer, pos) == BulkValue(buffer, pos + |text| + 3, None);
    } else {
      assert ParseAt(buffer, pos) == ArrayValue(buffer, pos + |text| + 3, None);
    }
  }
}
