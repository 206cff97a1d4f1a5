/** How words may be written on a command line, and what the tokenizer makes of them. */
module Spelling {
  import opened Base
  import opened Text
  import opened Parser
  import opened Numbers

  /** A character inside double quotes, alone or behind a backslash. */
  datatype Mark = Plain(c: char) | Escaped(c: char)

  /** A word as it is, in single quotes, or in double quotes. */
  datatype Word = Bare(text: string) | Single(text: string) | Double(marks: seq<Mark>)

  predicate IsMark(m: Mark) {
    m.Plain? ==> m.c != '"' && m.c != '\\'
  }

  ghost predicate IsWord(w: Word) {
    match w
    case Bare(t) => t != [] && t[0] != '"' && t[0] != '\'' && forall i :: 0 <= i < |t| ==> !IsBlank(t[i])
    case Single(t) => forall i :: 0 <= i < |t| ==> t[i] != '\''
    case Double(ms) => forall i :: 0 <= i < |ms| ==> IsMark(ms[i])
  }

  function MarkWritten(m: Mark): (r: string)
    ensures 1 <= |r| <= 2
  {
    if m.Plain? then [m.c] else ['\\', m.c]
  }

  /** Behind a backslash a quote and a backslash stand for themselves, n for a newline
      and t for a tab; before anything else the backslash stays. */
  function MarkMeant(m: Mark): string {
    if m.Plain? then [m.c]
    else if m.c == '"' then "\""
    else if m.c == '\\' then "\\"
    else if m.c == 'n' then "\n"
    else if m.c == 't' then "\t"
    else ['\\', m.c]
  }

  function MarksWritten(ms: seq<Mark>): string {
    if ms == [] then "" else MarkWritten(ms[0]) + MarksWritten(ms[1..])
  }

  function MarksMeant(ms: seq<Mark>): string {
    if ms == [] then "" else MarkMeant(ms[0]) + MarksMeant(ms[1..])
  }

  /** The characters of a word; a quote may be left open at the end of the line. */
  function Written(w: Word, open: bool): string {
    match w
    case Bare(t) => t
    case Single(t) => "'" + t + (if open then "" else "'")
    case Double(ms) => "\"" + MarksWritten(ms) + (if open then "" else "\"")
  }

  function Meant(w: Word): string {
    match w
    case Bare(t) => t
    case Single(t) => t
    case Double(ms) => MarksMeant(ms)
  }

  // ---------------------------------------------------------------------
  // One word
  // ---------------------------------------------------------------------

  lemma {:induction false} SingleRead(s: string, pos: nat, t: string, end: nat)
    requires At(s, pos, t) && forall i :: 0 <= i < |t| ==> t[i] != '\''
    requires (end == pos + |t| + 1 && end <= |s| && s[end - 1] == '\'') || end == pos + |t| == |s|
    ensures ReadSingle(s, pos) == Token(t, end)
    decreases |t|
  {
    if t == [] {
    } else {
      assert t[0] == s[pos];
      AtConcat(s, pos, [t[0]], t[1..]);
      SingleRead(s, pos + 1, t[1..], end);
      assert [t[0]] + t[1..] == t;
    }
  }

  lemma {:induction false} MarkRead(s: string, pos: nat, m: Mark)
    requires IsMark(m) && At(s, pos, MarkWritten(m))
    ensures s[pos] != '"' && Piece(s, pos) == MarkMeant(m) && Width(s, pos) == |MarkWritten(m)|
  {
    var e := MarkWritten(m);
    assert e[0] == s[pos];
    if m.Escaped? { assert e[1] == s[pos + 1]; }
  }

  lemma {:induction false} DoubleRead(s: string, pos: nat, ms: seq<Mark>, end: nat)
    requires At(s, pos, MarksWritten(ms)) && forall i :: 0 <= i < |ms| ==> IsMark(ms[i])
    requires
      var n := pos + |MarksWritten(ms)|;
      (end == n + 1 && end <= |s| && s[end - 1] == '"') || end == n == |s|
    ensures ReadDouble(s, pos) == Token(MarksMeant(ms), end)
    decreases |ms|
  {
    if ms == [] {
    } else {
      AtConcat(s, pos, MarkWritten(ms[0]), MarksWritten(ms[1..]));
      MarkRead(s, pos, ms[0]);
      DoubleRead(s, pos + |MarkWritten(ms[0])|, ms[1..], end);
    }
  }

  /** A word that stands at `pos`, and what may follow it: anything behind a closed
      quote, the end of the line behind an open one, a blank or the end behind a bare word. */
  ghost predicate Stands(s: string, pos: nat, w: Word, open: bool) {
    var end := pos + |Written(w, open)|;
    && IsWord(w) && At(s, pos, Written(w, open))
    && (open ==> end == |s|) && (w.Bare? ==> end == |s| || IsBlank(s[end]))
  }

  lemma {:induction false} BareRead(s: string, pos: nat, t: string)
    requires Stands(s, pos, Bare(t), false)
    ensures !IsSpace(s[pos]) && ReadToken(s, pos) == Token(t, pos + |t|)
  {
    assert IsBare(t);
    if pos + |t| < |s| { BlankIsSpace(s[pos + |t|]); }
    BareToken(s, pos, t);
  }

  lemma {:induction false} SingleToken(s: string, pos: nat, t: string, open: bool)
    requires Stands(s, pos, Single(t), open)
    ensures s[pos] == '\'' && ReadToken(s, pos) == Token(t, pos + |Written(Single(t), open)|)
  {
    var tail := if open then "" else "'";
    AtConcat(s, pos, "'" + t, tail);
    AtConcat(s, pos, "'", t);
    assert "'"[0] == s[pos];
    if !open { assert "'"[0] == s[pos + 1 + |t|]; }
    SingleRead(s, pos + 1, t, pos + |Written(Single(t), open)|);
  }

  lemma {:induction false} DoubleToken(s: string, pos: nat, ms: seq<Mark>, open: bool)
    requires Stands(s, pos, Double(ms), open)
    ensures s[pos] == '"' && ReadToken(s, pos) == Token(MarksMeant(ms), pos + |Written(Double(ms), open)|)
  {
    var tail := if open then "" else "\"";
    AtConcat(s, pos, "\"" + MarksWritten(ms), tail);
    AtConcat(s, pos, "\"", MarksWritten(ms));
    assert "\""[0] == s[pos];
    if !open { assert "\""[0] == s[pos + 1 + |MarksWritten(ms)|]; }
    DoubleRead(s, pos + 1, ms, pos + |Written(Double(ms), open)|);
  }

  lemma {:induction false} WordRead(s: string, pos: nat, w: Word, open: bool)
    requires Stands(s, pos, w, open)
    ensures pos < |s| && !IsSpace(s[pos]) && ReadToken(s, pos) == Token(Meant(w), pos + |Written(w, open)|)
  {
    match w
    case Bare(t) => BareRead(s, pos, t);
    case Single(t) => SingleToken(s, pos, t, open);
    case Double(ms) => DoubleToken(s, pos, ms, open);
  }

  // ---------------------------------------------------------------------
  // A line
  // ---------------------------------------------------------------------

  /** Words, each behind a gap of blanks, and a gap at the end. */
  function Line(words: seq<Word>, gaps: seq<string>, open: bool): string
    requires |gaps| == |words| + 1
    decreases |words|
  {
    if words == [] then gaps[0]
    else gaps[0] + Written(words[0], open && |words| == 1) + Line(words[1..], gaps[1..], open)
  }

  function AllMeant(words: seq<Word>): seq<string> {
    if words == [] then [] else [Meant(words[0])] + AllMeant(words[1..])
  }

  /** Blanks are needed only behind a bare word; behind a quote left open there is nothing. */
  ghost predicate IsLine(words: seq<Word>, gaps: seq<string>, open: bool)
    decreases |words|
  {
    && |gaps| == |words| + 1 && AllBlank(gaps[0])
    && (words != [] ==>
          && IsWord(words[0]) && (words[0].Bare? && |words| > 1 ==> gaps[1] != "")
          && (open && |words| == 1 ==> gaps[1] == "")
          && IsLine(words[1..], gaps[1..], open))
  }

  lemma {:induction false} GapSkipped(s: string, pos: nat, gap: string)
    requires AllBlank(gap) && At(s, pos, gap)
    requires pos + |gap| == |s| || !IsSpace(s[pos + |gap|])
    ensures SkipFrom(s, pos) == pos + |gap|
    decreases |gap|
  {
    if gap == [] {
    } else {
      assert gap[0] == s[pos];
      BlankIsSpace(gap[0]);
      AtConcat(s, pos, [gap[0]], gap[1..]);
      assert [gap[0]] + gap[1..] == gap;
      GapSkipped(s, pos + 1, gap[1..]);
    }
  }

  lemma {:induction false} ThreeParts(s: string, pos: nat, a: string, b: string, c: string)
    requires At(s, pos, a + b + c) && |s| == pos + |a + b + c|
    ensures At(s, pos, a) && At(s, pos + |a|, b) && At(s, pos + |a| + |b|, c) && |s| == pos + |a| + |b| + |c|
  {
    AtConcat(s, pos, a + b, c);
    AtConcat(s, pos, a, b);
  }

  lemma {:induction false} LineStart(words: seq<Word>, gaps: seq<string>, open: bool)
    requires IsLine(words, gaps, open) && gaps[0] != ""
    ensures Line(words, gaps, open) != "" && IsBlank(Line(words, gaps, open)[0])
  {
    if words == [] {
    } else {
      var tail := Written(words[0], open && |words| == 1) + Line(words[1..], gaps[1..], open);
      Regroup(gaps[0], Written(words[0], open && |words| == 1), Line(words[1..], gaps[1..], open));
      assert (gaps[0] + tail)[0] == gaps[0][0];
    }
  }

  lemma {:induction false} BareFollowed(words: seq<Word>, gaps: seq<string>, open: bool)
    requires words != [] && IsLine(words, gaps, open)
    ensures
      var rest := Line(words[1..], gaps[1..], open);
      && (words[0].Bare? ==> rest == "" || IsBlank(rest[0]))
      && (open && |words| == 1 ==> rest == "")
  {
    if |words| == 1 {
      assert words[1..] == [];
    }
    if gaps[1] != "" {
      LineStart(words[1..], gaps[1..], open);
    }
  }

  lemma {:induction false} WordStands(s: string, pos: nat, w: Word, open: bool, rest: string)
    requires IsWord(w) && At(s, pos, Written(w, open)) && At(s, pos + |Written(w, open)|, rest)
    requires |s| == pos + |Written(w, open)| + |rest|
    requires (open ==> rest == "") && (w.Bare? ==> rest == "" || IsBlank(rest[0]))
    ensures Stands(s, pos, w, open)
  {
  }

  lemma {:induction false} LineStep(s: string, pos: nat, gap: string, w: Word, open: bool, end: nat)
    requires AllBlank(gap) && At(s, pos, gap) && Stands(s, pos + |gap|, w, open)
    requires end == pos + |gap| + |Written(w, open)|
    ensures end <= |s| && Tokens(s, pos) == [Meant(w)] + Tokens(s, end)
  {
    var start := pos + |gap|;
    WordRead(s, start, w, open);
    GapSkipped(s, pos, gap);
    TokensStep(s, pos, start, Meant(w), end);
  }

  lemma {:induction false} FirstWord(s: string, pos: nat, gap: string, w: Word, open: bool, rest: string, end: nat)
    requires AllBlank(gap) && IsWord(w) && end == pos + |gap| + |Written(w, open)|
    requires At(s, pos, gap + Written(w, open) + rest) && |s| == pos + |gap + Written(w, open) + rest|
    requires (open ==> rest == "") && (w.Bare? ==> rest == "" || IsBlank(rest[0]))
    ensures At(s, end, rest) && |s| == end + |rest| && Tokens(s, pos) == [Meant(w)] + Tokens(s, end)
  {
    ThreeParts(s, pos, gap, Written(w, open), rest);
    WordStands(s, pos + |gap|, w, open, rest);
    LineStep(s, pos, gap, w, open, end);
  }

  lemma {:induction false} LineParts(s: string, pos: nat, words: seq<Word>, gaps: seq<string>, open: bool, end: nat)
    requires IsLine(words, gaps, open) && words != []
    requires At(s, pos, Line(words, gaps, open)) && |s| == pos + |Line(words, gaps, open)|
    requires end == pos + |gaps[0]| + |Written(words[0], open && |words| == 1)|
    ensures
      var rest := Line(words[1..], gaps[1..], open);
      At(s, end, rest) && |s| == end + |rest| && Tokens(s, pos) == [Meant(words[0])] + Tokens(s, end)
  {
    BareFollowed(words, gaps, open);
    FirstWord(s, pos, gaps[0], words[0], open && |words| == 1, Line(words[1..], gaps[1..], open), end);
  }

  /** The tokens of a line are what its words mean, however they are written. */
  lemma {:induction false} TokensExactly(s: string, pos: nat, words: seq<Word>, gaps: seq<string>, open: bool)
    requires IsLine(words, gaps, open)
    requires At(s, pos, Line(words, gaps, open)) && |s| == pos + |Line(words, gaps, open)|
    ensures Tokens(s, pos) == AllMeant(words)
    decreases |words|
  {
    if words == [] {
      GapSkipped(s, pos, gaps[0]);
    } else {
      var end := pos + |gaps[0]| + |Written(words[0], open && |words| == 1)|;
      LineParts(s, pos, words, gaps, open, end);
      TokensExactly(s, end, words[1..], gaps[1..], open);
    }
  }
}
