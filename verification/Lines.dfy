/** `text.split(sep)` and `pieces.join(sep)` for a one-character separator, and the first line of a text. */
module Lines {

  predicate Lacks(sep: char, s: string) {
    sep !in s
  }

  predicate IsLine(s: string) {
    Lacks('\n', s)
  }

  /** `text.split(sep)`: never empty, even for the empty text. */
  function Split(sep: char, text: string): (pieces: seq<string>)
    ensures |pieces| >= 1
  {
    if text == "" then
      [""]
    else
      var rest := Split(sep, text[1..]);
      if text[0] == sep then [""] + rest else [[text[0]] + rest[0]] + rest[1..]
  }

  /** `pieces.join(sep)`. */
  function Join(sep: char, pieces: seq<string>): string {
    if pieces == [] then ""
    else if |pieces| == 1 then pieces[0]
    else pieces[0] + [sep] + Join(sep, pieces[1..])
  }

  /** The position of the first newline, or the length of the text when it has none. */
  function FirstNewline(text: string): (k: nat)
    ensures k <= |text|
    ensures '\n' !in text[..k]
    ensures k < |text| ==> text[k] == '\n'
  {
    if text == "" || text[0] == '\n' then 0
    else
      var k := FirstNewline(text[1..]) + 1;
      assert text[..k] == [text[0]] + text[1..][..k - 1];
      k
  }

  function FirstLine(text: string): string {
    text[..FirstNewline(text)]
  }

  /** The text after its first newline; empty when there is no newline. */
  function AfterFirstLine(text: string): string {
    var k := FirstNewline(text);
    if k == |text| then "" else text[k + 1..]
  }

  lemma {:induction false} SplitYieldsPieces(sep: char, text: string)
    ensures forall piece :: piece in Split(sep, text) ==> Lacks(sep, piece)
  {
    if text == "" {
    } else {
      SplitYieldsPieces(sep, text[1..]);
      var rest := Split(sep, text[1..]);
      assert Lacks(sep, rest[0]);
    }
  }

  /** Joining the split of any text restores it: carriage returns and trailing separators included. */
  lemma {:induction false} JoinSplit(sep: char, text: string)
    ensures Join(sep, Split(sep, text)) == text
  {
    if text == "" {
    } else {
      JoinSplit(sep, text[1..]);
      var rest := Split(sep, text[1..]);
      if text[0] == sep {
        assert ([""] + rest)[1..] == rest;
        assert text == "" + [sep] + text[1..];
      } else {
        var pieces := [[text[0]] + rest[0]] + rest[1..];
        assert pieces[1..] == rest[1..];
        if |rest| == 1 {
          assert text == [text[0]] + rest[0];
        } else {
          assert text == [text[0]] + (rest[0] + [sep] + Join(sep, rest[1..]));
          assert text == [text[0]] + rest[0] + [sep] + Join(sep, rest[1..]);
        }
      }
    }
  }

  lemma {:induction false} SplitPiecePrefix(sep: char, piece: string, rest: string)
    requires Lacks(sep, piece)
    ensures Split(sep, piece + [sep] + rest) == [piece] + Split(sep, rest)
  {
    if piece == "" {
      assert piece + [sep] + rest == [sep] + rest;
      assert ([sep] + rest)[1..] == rest;
    } else {
      SplitPiecePrefix(sep, piece[1..], rest);
      assert (piece + [sep] + rest)[1..] == piece[1..] + [sep] + rest;
      assert piece == [piece[0]] + piece[1..];
    }
  }

  lemma {:induction false} SplitSinglePiece(sep: char, piece: string)
    requires Lacks(sep, piece)
    ensures Split(sep, piece) == [piece]
  {
    if piece == "" {
    } else {
      SplitSinglePiece(sep, piece[1..]);
      assert piece == [piece[0]] + piece[1..];
    }
  }

  lemma {:induction false} SplitJoin(sep: char, pieces: seq<string>)
    requires pieces != []
    requires forall piece :: piece in pieces ==> Lacks(sep, piece)
    ensures Split(sep, Join(sep, pieces)) == pieces
  {
    if |pieces| == 1 {
      SplitSinglePiece(sep, pieces[0]);
    } else {
      SplitJoin(sep, pieces[1..]);
      SplitPiecePrefix(sep, pieces[0], Join(sep, pieces[1..]));
      assert pieces == [pieces[0]] + pieces[1..];
    }
  }

  /** `Split` is the one way to cut a text into separator-free pieces that join back to it. */
  lemma SplitIsTheOnlyCut(sep: char, text: string, pieces: seq<string>)
    ensures pieces == Split(sep, text) <==>
            pieces != [] && (forall piece :: piece in pieces ==> Lacks(sep, piece)) && Join(sep, pieces) == text
  {
    SplitYieldsPieces(sep, text);
    JoinSplit(sep, text);
    if pieces != [] && forall piece :: piece in pieces ==> Lacks(sep, piece) {
      SplitJoin(sep, pieces);
    }
  }

  lemma {:induction false} JoinAppend(sep: char, a: seq<string>, b: seq<string>)
    requires a != [] && b != []
    ensures Join(sep, a + b) == Join(sep, a) + [sep] + Join(sep, b)
  {
    assert (a + b)[1..] == a[1..] + b;
    if |a| == 1 {
      assert a[1..] + b == b;
    } else {
      JoinAppend(sep, a[1..], b);
      JoinedParts(a[0], [sep], Join(sep, a[1..]), Join(sep, b));
    }
  }

  lemma JoinedParts(first: string, sep: string, middle: string, last: string)
    ensures first + sep + (middle + sep + last) == first + sep + middle + sep + last
  {
  }

  /** Splitting at a separator between two texts. */
  lemma SplitAppend(sep: char, a: string, b: string)
    ensures Split(sep, a + [sep] + b) == Split(sep, a) + Split(sep, b)
  {
    var pieces := Split(sep, a) + Split(sep, b);
    SplitIsTheOnlyCut(sep, a, Split(sep, a));
    SplitIsTheOnlyCut(sep, b, Split(sep, b));
    JoinAppend(sep, Split(sep, a), Split(sep, b));
    SplitIsTheOnlyCut(sep, a + [sep] + b, pieces);
  }

  /** Dropping the first element of the line array and joining is taking the text after the first newline. */
  lemma DropFirstLine(text: string)
    ensures Split('\n', text)[0] == FirstLine(text)
    ensures Join('\n', Split('\n', text)[1..]) == AfterFirstLine(text)
  {
    var k := FirstNewline(text);
    if k == |text| {
      assert text[..k] == text;
      SplitSinglePiece('\n', text);
    } else {
      assert text == text[..k] + ['\n'] + text[k + 1..];
      SplitPiecePrefix('\n', text[..k], text[k + 1..]);
      JoinSplit('\n', text[k + 1..]);
    }
  }

  lemma FirstLineOfPrefixed(line: string, rest: string)
    requires IsLine(line)
    ensures FirstLine(line + "\n" + rest) == line
    ensures AfterFirstLine(line + "\n" + rest) == rest
  {
    DropFirstLine(line + ['\n'] + rest);
    SplitPiecePrefix('\n', line, rest);
    JoinSplit('\n', rest);
  }

  /** First line and rest are a cut at the first newline, if there is one. */
  lemma FirstLineCuts(text: string)
    ensures IsLine(FirstLine(text))
    ensures '\n' in text ==> text == FirstLine(text) + "\n" + AfterFirstLine(text)
    ensures '\n' !in text ==> text == FirstLine(text) && AfterFirstLine(text) == ""
  {
    var k := FirstNewline(text);
    if k < |text| {
      assert text == text[..k] + [text[k]] + text[k + 1..];
    } else {
      assert text == text[..k];
    }
  }
}
