/** Numbered lines, as the handler writes lists and the client shows arrays. */
module Numbering {
  import opened Text

  function Label(i: nat): string {
    ToString(i) + ") "
  }

  /** Texts numbered from `i`, one to a line. */
  function Numbered(texts: seq<string>, i: nat): string
    requires texts != []
  {
    if |texts| == 1 then Label(i) + texts[0]
    else Label(i) + texts[0] + "\n" + Numbered(texts[1..], i + 1)
  }

  /** The text of the first lines, with the newline that announces another. */
  function SoFar(texts: seq<string>, complete: bool): string {
    if texts == [] then "" else if complete then Numbered(texts, 1) else Numbered(texts, 1) + "\n"
  }

  lemma {:induction false} FourTexts(a: string, b: string, c: string, d: string)
    ensures a + (b + c + d) == a + b + c + d
  {
  }

  lemma {:induction false} NumberedSnoc(texts: seq<string>, text: string, i: nat)
    requires texts != []
    ensures Numbered(texts + [text], i) == Numbered(texts, i) + "\n" + (Label(i + |texts|) + text)
    decreases |texts|
  {
    assert (texts + [text])[1..] == texts[1..] + [text];
    if |texts| == 1 {
      assert texts[1..] + [text] == [text];
    } else {
      NumberedSnoc(texts[1..], text, i + 1);
      FourTexts(Label(i) + texts[0] + "\n", Numbered(texts[1..], i + 1), "\n", Label(i + |texts|) + text);
    }
  }

  /** One line more. */
  lemma {:induction false} NumberedMore(texts: seq<string>, text: string)
    ensures SoFar(texts, false) + (Label(|texts| + 1) + text) == SoFar(texts + [text], true)
    ensures SoFar(texts, false) + (Label(|texts| + 1) + text) + "\n" == SoFar(texts + [text], false)
  {
    if texts == [] {
      assert texts + [text] == [text];
      assert "" + (Label(1) + text) == Label(1) + text;
    } else {
      NumberedSnoc(texts, text, 1);
    }
  }

  /** Writes one line, and a newline unless it is the last. */
  method AddLine(text: string, ghost texts: seq<string>, i: nat, line: string, last: bool) returns (result: string)
    requires text == SoFar(texts, false) && i == |texts|
    ensures result == SoFar(texts + [line], last)
  {
    NumberedMore(texts, line);
    result := text + (Label(i + 1) + line);
    if !last {
      result := result + "\n";
    }
  }

  /** The loop that writes numbered lines. */
  method NumberLines(texts: seq<string>) returns (text: string)
    requires texts != []
    ensures text == Numbered(texts, 1)
  {
    text := "";
    for i := 0 to |texts|
      invariant text == SoFar(texts[..i], i == |texts|)
    {
      text := AddLine(text, texts[..i], i, texts[i], i + 1 == |texts|);
      assert texts[..i + 1] == texts[..i] + [texts[i]];
    }
    assert texts[..|texts|] == texts;
  }
}
