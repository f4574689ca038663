/** Words, and filling one line with them. */
module WrapLines {
  import opened Wrappers
  import opened Strings
  import opened TextLines

  // ----- the words of the text -----

  function NonBlank(s: string): string {
    if s == "" then "" else (if IsSpace(s[0]) then "" else [s[0]]) + NonBlank(s[1..])
  }

  predicate IsWord(w: string) {
    w != "" && forall i :: 0 <= i < |w| ==> !IsSpace(w[i])
  }

  predicate AreWords(ws: seq<string>) {
    forall i :: 0 <= i < |ws| ==> IsWord(ws[i])
  }

  /** Where the first word ends. */
  function WordEnd(s: string): (n: nat)
    ensures n <= |s| && (n < |s| ==> IsSpace(s[n])) && forall i :: 0 <= i < n ==> !IsSpace(s[i])
  {
    if s == "" || IsSpace(s[0]) then 0 else 1 + WordEnd(s[1..])
  }

  function Words(s: string): (ws: seq<string>)
    ensures AreWords(ws)
    decreases |s|
  {
    if s == "" then [] else
      var n := WordEnd(s);
      if n == 0 then Words(s[1..]) else [s[..n]] + Words(s[n..])
  }

  /** The words of each line; empty lines only if they are allowed. */
  function WordLines(ls: seq<string>, allowEmpty: bool): (wss: seq<seq<string>>)
    ensures forall i :: 0 <= i < |wss| ==> AreWords(wss[i])
  {
    if ls == [] then [] else
      var l := Chomp(ls[0]);
      (if !allowEmpty && l == "" then [] else [Words(l)]) + WordLines(ls[1..], allowEmpty)
  }

  lemma {:induction false} NonBlankConcat(a: string, b: string)
    ensures NonBlank(a + b) == NonBlank(a) + NonBlank(b)
  {
    if a == "" {
      assert a + b == b;
    } else {
      assert (a + b)[1..] == a[1..] + b;
      NonBlankConcat(a[1..], b);
    }
  }

  lemma {:induction false} NonBlankWord(w: string)
    requires forall i :: 0 <= i < |w| ==> !IsSpace(w[i])
    ensures NonBlank(w) == w
  {
    if w != "" {
      NonBlankWord(w[1..]);
    }
  }

  lemma {:induction false} WordsNonBlank(s: string)
    ensures Concat(Words(s)) == NonBlank(s)
    decreases |s|
  {
    hide Concat, WordEnd;
    if s == "" {
      NoLines();
    } else {
      var n := WordEnd(s);
      if n == 0 {
        WordsNonBlank(s[1..]);
      } else {
        WordsNonBlank(s[n..]);
        FirstWord(s[..n], s[n..]);
        assert s[..n] + s[n..] == s;
        ConcatCons(s[..n], Words(s[n..]));
      }
    }
  }

  lemma FirstWord(w: string, rest: string)
    requires forall i :: 0 <= i < |w| ==> !IsSpace(w[i])
    ensures NonBlank(w + rest) == w + NonBlank(rest)
  {
    NonBlankConcat(w, rest);
    NonBlankWord(w);
  }

  function ConcatAll(wss: seq<seq<string>>): string {
    if wss == [] then "" else Concat(wss[0]) + ConcatAll(wss[1..])
  }

  lemma ConcatAllCons(ws: seq<string>, wss: seq<seq<string>>)
    ensures ConcatAll([ws] + wss) == Concat(ws) + ConcatAll(wss)
  {
  }

  lemma ChompNonBlank(l: string)
    ensures NonBlank(Chomp(l)) == NonBlank(l)
  {
    if Chomp(l) != l {
      var n := |l| - 1;
      assert l == l[..n] + "\n";
      NonBlankConcat(l[..n], "\n");
      assert NonBlank("\n") == "";
    }
  }

  /** The words of a text have all its non-blank characters. */
  lemma {:induction false} WordLinesNonBlank(ls: seq<string>, allowEmpty: bool)
    ensures ConcatAll(WordLines(ls, allowEmpty)) == NonBlank(Concat(ls))
  {
    if ls != [] {
      var l, rest := Chomp(ls[0]), WordLines(ls[1..], allowEmpty);
      WordLinesNonBlank(ls[1..], allowEmpty);
      NonBlankConcat(ls[0], Concat(ls[1..]));
      ChompNonBlank(ls[0]);
      WordsNonBlank(l);
      if allowEmpty || l != "" {
        assert WordLines(ls, allowEmpty) == [Words(l)] + rest;
        ConcatAllCons(Words(l), rest);
      } else {
        assert WordLines(ls, allowEmpty) == rest;
      }
    }
  }

  // ----- what a line is made of -----

  /** Words and parts of words with a space between them. */
  function Spaced(ps: seq<string>): string {
    if ps == [] then "" else if |ps| == 1 then ps[0] else Spaced(ps[..|ps| - 1]) + " " + ps[|ps| - 1]
  }

  /** What is left of the words when the pieces are taken from them in order: a piece is a word, or the beginning of a
      word that is too long for a line of its own. */
  function After(ws: seq<string>, ps: seq<string>, width: nat): Option<seq<string>>
    decreases |ps|
  {
    if ps == [] then Some(ws)
    else if ws == [] then None
    else if ps[0] == ws[0] then After(ws[1..], ps[1..], width)
    else if |ws[0]| > width && ps[0] != "" && ps[0] < ws[0] then After([ws[0][|ps[0]|..]] + ws[1..], ps[1..], width)
    else None
  }

  lemma {:induction false} AfterMore(ws: seq<string>, ps: seq<string>, p: string, width: nat)
    requires After(ws, ps, width).Some?
    ensures After(ws, ps + [p], width) == After(After(ws, ps, width).value, [p], width)
    decreases |ps|
  {
    if ps != [] {
      assert (ps + [p])[1..] == ps[1..] + [p];
      if ps[0] == ws[0] {
        AfterMore(ws[1..], ps[1..], p, width);
      } else {
        AfterMore([ws[0][|ps[0]|..]] + ws[1..], ps[1..], p, width);
      }
    }
  }

  lemma {:induction false} AfterChars(ws: seq<string>, ps: seq<string>, width: nat)
    requires After(ws, ps, width).Some?
    ensures Concat(ws) == Concat(ps) + Concat(After(ws, ps, width).value)
    decreases |ps|
  {
    if ps != [] {
      if ps[0] == ws[0] {
        AfterChars(ws[1..], ps[1..], width);
      } else {
        var tail := ws[0][|ps[0]|..];
        AfterChars([tail] + ws[1..], ps[1..], width);
        ConcatCons(tail, ws[1..]);
        assert ws[0] == ps[0] + tail;
        assert Concat(ws) == ps[0] + (tail + Concat(ws[1..]));
      }
    }
  }

  /** The line has the pieces, and a space after them only when it is full then. */
  predicate IsLine(line: string, ps: seq<string>, width: nat) {
    line == Spaced(ps) || (line == Spaced(ps) + " " && ps != [] && |line| == width)
  }

  /** Nothing of the next word belongs on the line any more. */
  predicate Full(line: string, next: string, width: nat) {
    |line| == width || (line != "" && |line| + 1 + |next| > width >= |next|)
  }

  // ----- filling one line -----

  function Joined(line: string, word: string): string {
    (if line == "" then "" else " ") + word
  }

  lemma SpacedMore(ps: seq<string>, p: string)
    ensures Spaced(ps + [p]) == if ps == [] then p else Spaced(ps) + " " + p
  {
    assert ps != [] ==> (ps + [p])[..|ps|] == ps;
  }

  lemma {:induction false} SpacedNotEmpty(ps: seq<string>)
    requires AreWords(ps) && ps != []
    ensures Spaced(ps) != ""
  {
  }

  /** One more word on the line. */
  lemma TakeWord(words: seq<string>, ps: seq<string>, rest: seq<string>, line: string, width: nat)
    requires AreWords(ps) && AreWords(rest) && rest != [] && After(words, ps, width) == Some(rest)
    requires IsLine(line, ps, width) && |line| < width
    ensures After(words, ps + [rest[0]], width) == Some(rest[1..])
            && IsLine(line + Joined(line, rest[0]), ps + [rest[0]], width)
    ensures AreWords(ps + [rest[0]]) && AreWords(rest[1..])
  {
    AfterMore(words, ps, rest[0], width);
    SpacedMore(ps, rest[0]);
    if ps != [] { SpacedNotEmpty(ps); }
  }

  /** The part of a word that is put at the end of a line when the word has to be split; none if only the space fits. */
  function Piece(line: string, head: string): string
    requires head != ""
  {
    if line == "" then head else head[1..]
  }

  /** A word that is too long for any line is split where the line ends. */
  lemma SplitWord(words: seq<string>, ps: seq<string>, rest: seq<string>, line: string, width: nat)
    requires AreWords(ps) && AreWords(rest) && rest != [] && After(words, ps, width) == Some(rest)
    requires IsLine(line, ps, width) && |line| < width < |rest[0]|
    ensures var add, rem := Joined(line, rest[0]), width - |line|;
            var piece, rest' := Piece(line, add[..rem]), [add[rem..]] + rest[1..];
            var ps' := if piece == "" then ps else ps + [piece];
            && After(words, ps', width) == Some(rest') && AreWords(ps') && AreWords(rest')
            && |line + add[..rem]| == width && IsLine(line + add[..rem], ps', width)
  {
    hide After, AreWords, Spaced, IsWord;
    var word, add, rem := rest[0], Joined(line, rest[0]), width - |line|;
    var piece, tail := Piece(line, add[..rem]), add[rem..];
    if ps != [] { SpacedNotEmpty(ps); } else { NothingOnLine(); }
    assert word == piece + tail;
    if piece == "" {
      assert [tail] + rest[1..] == rest;
    } else {
      AfterMore(words, ps, piece, width);
      SpacedMore(ps, piece);
      PieceOfWord(rest, piece, tail, width);
      MoreWords(ps, piece);
      FirstReplaced(rest, tail);
    }
  }

  lemma NothingOnLine()
    ensures Spaced([]) == ""
  {
  }

  lemma EmptyLine(line: string, width: nat)
    ensures IsLine(line, [], width) <==> line == ""
  {
  }

  lemma MoreWords(ps: seq<string>, p: string)
    requires AreWords(ps) && IsWord(p)
    ensures AreWords(ps + [p])
  {
  }

  lemma FirstReplaced(ws: seq<string>, w: string)
    requires AreWords(ws) && ws != [] && IsWord(w)
    ensures AreWords([w] + ws[1..])
  {
  }

  lemma PieceOfWord(rest: seq<string>, piece: string, tail: string, width: nat)
    requires AreWords(rest) && rest != [] && rest[0] == piece + tail && piece != "" && tail != "" && |rest[0]| > width
    ensures IsWord(piece) && IsWord(tail) && After(rest, [piece], width) == Some([tail] + rest[1..])
  {
    assert forall i :: 0 <= i < |piece| ==> piece[i] == rest[0][i];
    assert forall i :: 0 <= i < |tail| ==> tail[i] == rest[0][|piece| + i];
    assert [piece][1..] == [] && rest[0][|piece|..] == tail;
  }

  lemma Progress(words: seq<string>, ps: seq<string>, width: nat)
    requires After(words, ps, width).Some? && AreWords(ps) && ps != []
    ensures |Concat(After(words, ps, width).value)| < |Concat(words)|
  {
    AfterChars(words, ps, width);
  }

  /** Takes as much from the words of an input line as fits on a line. */
  method FillLine(words: seq<string>, width: nat) returns (line: string, rest: seq<string>, ghost ps: seq<string>)
    requires AreWords(words)
    ensures AreWords(rest) && AreWords(ps) && After(words, ps, width) == Some(rest)
    ensures |line| <= width && IsLine(line, ps, width)
    ensures rest != [] ==> Full(line, rest[0], width)
    ensures words == [] ==> rest == []
    ensures words != [] && width > 0 ==> |Concat(rest)| < |Concat(words)|
  {
    hide After, AreWords, IsLine, Spaced, Concat;
    NoWords();
    line, rest, ps := "", words, [];
    NothingOnLine();
    EmptyLine("", width);
    assert After(words, ps, width) == Some(rest) by { AfterNone(words, width); }
    while rest != []
      invariant AreWords(rest) && AreWords(ps) && After(words, ps, width) == Some(rest)
      invariant |line| <= width && IsLine(line, ps, width) && (words == [] ==> rest == [])
      decreases width - |line|
    {
      var word := rest[0];
      assert word != "" by { WordsNotEmpty(rest); }
      var add := Joined(line, word);
      var rem := width - |line|;
      if rem == 0 {
        break;
      }
      if |add| > rem {
        if |word| <= width {
          break;
        }
        SplitWord(words, ps, rest, line, width);
        var head, tail := add[..rem], add[rem..];
        ghost var piece := Piece(line, head);
        ps := if piece == "" then ps else ps + [piece];
        line := line + head;
        rest := [tail] + rest[1..];
        continue;
      }
      TakeWord(words, ps, rest, line, width);
      ps := ps + [word];
      line := line + add;
      rest := rest[1..];
    }
    if ps != [] {
      Progress(words, ps, width);
    } else {
      EmptyLine(line, width);
      AfterNone(words, width);
    }
  }

  lemma NoWords()
    ensures AreWords([])
  {
  }

  lemma AfterNone(words: seq<string>, width: nat)
    ensures After(words, [], width) == Some(words)
  {
  }

  lemma WordsNotEmpty(ws: seq<string>)
    requires AreWords(ws) && ws != []
    ensures ws[0] != ""
  {
  }
}
