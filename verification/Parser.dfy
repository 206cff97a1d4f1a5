/** The tokenizer for inline commands, and the quoting that it undoes. */
module Parser {
  import opened Base
  import opened Text

  datatype Command = Command(name: string, args: seq<string>)

  /** The first token, upper-cased, and the rest. */
  function MakeCommand(parts: seq<string>): Command
    requires parts != []
  {
    Command(Upper(parts[0]), parts[1..])
  }

  datatype Token = Token(text: string, next: nat)

  // ---------------------------------------------------------------------
  // Tokens
  // ---------------------------------------------------------------------

  function SkipFrom(s: string, i: nat): (j: nat)
    requires i <= |s|
    ensures i <= j <= |s| && (j < |s| ==> !IsSpace(s[j]))
    decreases |s| - i
  {
    if i < |s| && IsSpace(s[i]) then SkipFrom(s, i + 1) else i
  }

  function Unescape(c: char): string {
    match c
    case '"' => "\""
    case '\\' => "\\"
    case 'n' => "\n"
    case 't' => "\t"
    case _ => ['\\', c]
  }

  /** What one step inside double quotes contributes. */
  function Piece(s: string, i: nat): string
    requires i < |s|
  {
    if s[i] == '\\' && i + 1 < |s| then Unescape(s[i + 1]) else [s[i]]
  }

  function Width(s: string, i: nat): (n: nat)
    requires i < |s|
    ensures 0 < n && i + n <= |s|
  {
    if s[i] == '\\' && i + 1 < |s| then 2 else 1
  }

  function Front(text: string, t: Token): Token {
    Token(text + t.text, t.next)
  }

  /** The rest of a double-quoted token, after its opening quote. */
  function ReadDouble(s: string, i: nat): (t: Token)
    requires i <= |s|
    ensures i <= t.next <= |s|
    decreases |s| - i
  {
    if i == |s| then Token("", i)
    else if s[i] == '"' then Token("", i + 1)
    else Front(Piece(s, i), ReadDouble(s, i + Width(s, i)))
  }

  /** The rest of a single-quoted token, after its opening quote. */
  function ReadSingle(s: string, i: nat): (t: Token)
    requires i <= |s|
    ensures i <= t.next <= |s|
    decreases |s| - i
  {
    if i == |s| then Token("", i)
    else if s[i] == '\'' then Token("", i + 1)
    else Front([s[i]], ReadSingle(s, i + 1))
  }

  function ReadBare(s: string, i: nat): (t: Token)
    requires i <= |s|
    ensures i <= t.next <= |s|
    decreases |s| - i
  {
    if i == |s| || IsSpace(s[i]) then Token("", i)
    else Front([s[i]], ReadBare(s, i + 1))
  }

  /** One token that starts at `i`. */
  function ReadToken(s: string, i: nat): (t: Token)
    requires i < |s| && !IsSpace(s[i])
    ensures i < t.next <= |s|
  {
    if s[i] == '"' then ReadDouble(s, i + 1)
    else if s[i] == '\'' then ReadSingle(s, i + 1)
    else Front([s[i]], ReadBare(s, i + 1))
  }

  function Tokens(s: string, i: nat): seq<string>
    requires i <= |s|
    decreases |s| - i
  {
    var j := SkipFrom(s, i);
    if j == |s| then []
    else
      var t := ReadToken(s, j);
      [t.text] + Tokens(s, t.next)
  }

  lemma {:induction false} FrontTwice(a: string, b: string, t: Token)
    ensures Front(a, Front(b, t)) == Front(a + b, t)
  {
    assert a + (b + t.text) == a + b + t.text;
  }

  lemma {:induction false} FrontEnds(a: string, next: nat)
    ensures Front(a, Token("", next)) == Token(a, next)
  {
    assert a + "" == a;
  }

  lemma {:induction false} FrontNothing(t: Token)
    ensures Front("", t) == t
  {
    assert "" + t.text == t.text;
  }

  method ScanDouble(input: string, start: nat) returns (token: string, i: nat)
    requires start <= |input|
    ensures Token(token, i) == ReadDouble(input, start)
  {
    token, i := "", start;
    FrontNothing(ReadDouble(input, start));
    while i < |input| && input[i] != '"'
      invariant start <= i <= |input|
      invariant ReadDouble(input, start) == Front(token, ReadDouble(input, i))
    {
      FrontTwice(token, Piece(input, i), ReadDouble(input, i + Width(input, i)));
      if input[i] == '\\' && i + 1 < |input| {
        i := i + 1;
        token := token + Unescape(input[i]);
      } else {
        token := token + [input[i]];
      }
      i := i + 1;
    }
    FrontEnds(token, if i < |input| then i + 1 else i);
    if i < |input| { i := i + 1; }
  }

  method ScanSingle(input: string, start: nat) returns (token: string, i: nat)
    requires start <= |input|
    ensures Token(token, i) == ReadSingle(input, start)
  {
    token, i := "", start;
    FrontNothing(ReadSingle(input, start));
    while i < |input| && input[i] != '\''
      invariant start <= i <= |input|
      invariant ReadSingle(input, start) == Front(token, ReadSingle(input, i))
    {
      FrontTwice(token, [input[i]], ReadSingle(input, i + 1));
      token := token + [input[i]];
      i := i + 1;
    }
    FrontEnds(token, if i < |input| then i + 1 else i);
    if i < |input| { i := i + 1; }
  }

  method ScanBare(input: string, start: nat) returns (token: string, i: nat)
    requires start <= |input|
    ensures Token(token, i) == ReadBare(input, start)
  {
    token, i := "", start;
    FrontNothing(ReadBare(input, start));
    while i < |input| && !IsSpace(input[i])
      invariant start <= i <= |input|
      invariant ReadBare(input, start) == Front(token, ReadBare(input, i))
    {
      FrontTwice(token, [input[i]], ReadBare(input, i + 1));
      token := token + [input[i]];
      i := i + 1;
    }
    FrontEnds(token, i);
  }

  method ScanToken(input: string, i: nat) returns (token: string, next: nat)
    requires i < |input| && !IsSpace(input[i])
    ensures Token(token, next) == ReadToken(input, i)
  {
    if input[i] == '"' {
      token, next := ScanDouble(input, i + 1);
    } else if input[i] == '\'' {
      token, next := ScanSingle(input, i + 1);
    } else {
      token, next := ScanBare(input, i);
    }
  }

  method Tokenize(input: string) returns (tokens: seq<string>)
    ensures tokens == Tokens(input, 0)
  {
    tokens := [];
    var i := 0;
    while i < |input|
      invariant 0 <= i <= |input|
      invariant tokens + Tokens(input, i) == Tokens(input, 0)
      decreases |input| - i
    {
      ghost var start := i;
      while i < |input| && IsSpace(input[i])
        invariant start <= i <= |input|
        invariant SkipFrom(input, start) == SkipFrom(input, i)
      {
        i := i + 1;
      }
      if i >= |input| { break; }
      var token, next := ScanToken(input, i);
      TokensStep(input, start, i, token, next);
      Regroup(tokens, [token], Tokens(input, next));
      tokens, i := tokens + [token], next;
    }
  }

  /** `Parser::parse`: no tokens is a failure. */
  function Parse(line: string): Option<Command> {
    var tokens := Tokens(line, 0);
    if tokens == [] then None else Some(MakeCommand(tokens))
  }

  // ---------------------------------------------------------------------
  // Quoting
  // ---------------------------------------------------------------------

  function EscapeChar(c: char): (r: string)
    ensures r != []
  {
    match c
    case '"' => "\\\""
    case '\\' => "\\\\"
    case '\n' => "\\n"
    case '\t' => "\\t"
    case _ => [c]
  }

  function Escape(s: string): string {
    if s == [] then [] else EscapeChar(s[0]) + Escape(s[1..])
  }

  function Quote(s: string): (r: string)
    ensures |r| >= 2
  {
    "\"" + Escape(s) + "\""
  }

  /** Every word quoted, separated by blanks. */
  function QuoteAll(parts: seq<string>): (r: string)
    requires parts != []
    ensures |r| >= 2 && r[0] == '"'
  {
    if |parts| == 1 then Quote(parts[0]) else Quote(parts[0]) + " " + QuoteAll(parts[1..])
  }

  ghost predicate OneLine(s: string) {
    forall i :: 0 <= i < |s| ==> s[i] != '\n'
  }

  lemma {:induction false} EscapeOneLine(s: string)
    ensures OneLine(Escape(s))
    decreases |s|
  {
    if s == [] {
    } else {
      EscapeOneLine(s[1..]);
    }
  }

  lemma {:induction false} QuoteAllOneLine(parts: seq<string>)
    requires parts != []
    ensures OneLine(QuoteAll(parts))
    decreases |parts|
  {
    EscapeOneLine(parts[0]);
    if |parts| == 1 {
    } else {
      QuoteAllOneLine(parts[1..]);
    }
  }

  lemma {:induction false} EscapedChar(s: string, pos: nat, c: char)
    requires At(s, pos, EscapeChar(c))
    ensures s[pos] != '"' && Piece(s, pos) == [c] && Width(s, pos) == |EscapeChar(c)|
  {
    var e := EscapeChar(c);
    assert e[0] == s[pos];
    assert |e| == 2 ==> e[1] == s[pos + 1];
  }

  lemma {:induction false} EscapeBack(s: string, pos: nat, x: string)
    requires At(s, pos, Escape(x)) && At(s, pos + |Escape(x)|, "\"")
    ensures ReadDouble(s, pos) == Token(x, pos + |Escape(x)| + 1)
    decreases |x|
  {
    if x == [] {
      assert "\""[0] == s[pos];
    } else {
      var next := pos + |EscapeChar(x[0])|;
      EscapeParts(s, pos, x, next);
      EscapeBack(s, next, x[1..]);
      EscapedChar(s, pos, x[0]);
      assert x == [x[0]] + x[1..];
    }
  }

  lemma {:induction false} EscapeParts(s: string, pos: nat, x: string, next: nat)
    requires x != [] && At(s, pos, Escape(x)) && next == pos + |EscapeChar(x[0])|
    ensures At(s, pos, EscapeChar(x[0])) && At(s, next, Escape(x[1..]))
    ensures pos + |Escape(x)| == next + |Escape(x[1..])|
  {
    AtConcat(s, pos, EscapeChar(x[0]), Escape(x[1..]));
  }

  lemma {:induction false} QuotedToken(s: string, pos: nat, x: string)
    requires At(s, pos, Quote(x))
    ensures s[pos] == '"' && ReadToken(s, pos) == Token(x, pos + |Quote(x)|)
  {
    AtConcat(s, pos, "\"" + Escape(x), "\"");
    AtConcat(s, pos, "\"", Escape(x));
    assert "\""[0] == s[pos];
    EscapeBack(s, pos + 1, x);
  }

  lemma {:induction false} TokensStep(s: string, i: nat, pos: nat, x: string, next: nat)
    requires i <= pos < |s| && SkipFrom(s, i) == pos
    requires ReadToken(s, pos) == Token(x, next)
    ensures Tokens(s, i) == [x] + Tokens(s, next)
  {
  }

  lemma {:induction false} QuotedFirst(s: string, i: nat, pos: nat, x: string, end: nat)
    requires At(s, pos, Quote(x)) && end == pos + |Quote(x)|
    requires i == pos || (i + 1 == pos && s[i] == ' ')
    ensures Tokens(s, i) == [x] + Tokens(s, end)
  {
    QuotedToken(s, pos, x);
    assert SkipFrom(s, pos) == pos;
    assert SkipFrom(s, i) == pos;
  }

  /** Quoting a list of words is undone by the tokenizer; the blank before it may have been read or not. */
  lemma {:induction false} QuotingUndone(s: string, i: nat, pos: nat, parts: seq<string>)
    requires parts != []
    requires At(s, pos, QuoteAll(parts)) && |s| == pos + |QuoteAll(parts)|
    requires i == pos || (i + 1 == pos && s[i] == ' ')
    ensures Tokens(s, i) == parts
    decreases |parts|
  {
    var end := pos + |Quote(parts[0])|;
    if |parts| == 1 {
      QuotedFirst(s, i, pos, parts[0], end);
      assert Tokens(s, end) == [];
    } else {
      QuoteAllParts(s, pos, parts, end);
      QuotedFirst(s, i, pos, parts[0], end);
      QuotingUndone(s, end, end + 1, parts[1..]);
      assert [parts[0]] + parts[1..] == parts;
    }
  }

  lemma {:induction false} QuoteAllParts(s: string, pos: nat, parts: seq<string>, end: nat)
    requires |parts| > 1 && At(s, pos, QuoteAll(parts)) && end == pos + |Quote(parts[0])|
    ensures At(s, pos, Quote(parts[0])) && end < |s| && s[end] == ' '
    ensures At(s, end + 1, QuoteAll(parts[1..]))
    ensures pos + |QuoteAll(parts)| == end + 1 + |QuoteAll(parts[1..])|
  {
    AtConcat(s, pos, Quote(parts[0]) + " ", QuoteAll(parts[1..]));
    AtConcat(s, pos, Quote(parts[0]), " ");
    assert " "[0] == s[end];
  }

  // ---------------------------------------------------------------------
  // Words without quotes
  // ---------------------------------------------------------------------

  /** A word that needs no quotes. */
  ghost predicate IsBare(word: string) {
    word != [] && word[0] != '"' && word[0] != '\'' && forall i :: 0 <= i < |word| ==> !IsSpace(word[i])
  }

  lemma {:induction false} BareBack(s: string, pos: nat, word: string)
    requires At(s, pos, word) && forall i :: 0 <= i < |word| ==> !IsSpace(word[i])
    requires pos + |word| == |s| || IsSpace(s[pos + |word|])
    ensures ReadBare(s, pos) == Token(word, pos + |word|)
    decreases |word|
  {
    if word == [] {
    } else {
      assert word[0] == s[pos];
      AtConcat(s, pos, [word[0]], word[1..]);
      BareBack(s, pos + 1, word[1..]);
      assert [word[0]] + word[1..] == word;
    }
  }

  lemma {:induction false} BareToken(s: string, pos: nat, word: string)
    requires IsBare(word) && At(s, pos, word) && (pos + |word| == |s| || IsSpace(s[pos + |word|]))
    ensures !IsSpace(s[pos]) && ReadToken(s, pos) == Token(word, pos + |word|)
  {
    assert word[0] == s[pos];
    BareBack(s, pos, word);
  }

  lemma {:induction false} OneWord(word: string)
    requires IsBare(word)
    ensures Tokens(word, 0) == [word]
  {
    assert At(word, 0, word);
    BareToken(word, 0, word);
    TokensStep(word, 0, 0, word, |word|);
    assert Tokens(word, |word|) == [];
  }

  lemma {:induction false} TwoWords(a: string, b: string)
    requires IsBare(a) && IsBare(b)
    ensures Tokens(a + "\n" + b, 0) == [a, b]
  {
    var s, n := a + "\n" + b, |a| + 1;
    assert At(s, 0, a) && At(s, n, b) && s[|a|] == '\n';
    BareToken(s, 0, a);
    BareToken(s, n, b);
    assert SkipFrom(s, |a|) == SkipFrom(s, n) == n;
    assert Tokens(s, |s|) == [];
    TokensStep(s, |a|, n, b, |s|);
    TokensStep(s, 0, 0, a, |a|);
  }
}
