/** Wrapping a text into lines of a given width, and at most so many of them. */
module LineWrap {
  import opened Wrappers
  import opened Strings
  import opened TextLines
  import opened WrapLines

  // ----- reading the text -----

  /** Reads the next word, as stream extraction does. */
  method ReadWords(line: string) returns (words: seq<string>)
    ensures words == Words(line)
  {
    hide Words, IsSpace;
    NoWordsIn();
    words := [];
    var start := 0;
    while start < |line|
      invariant start <= |line| && words + Words(line[start..]) == Words(line)
    {
      var end := start;
      while end < |line| && !IsSpace(line[end])
        invariant start <= end <= |line| && forall k :: start <= k < end ==> !IsSpace(line[k])
      {
        end := end + 1;
      }
      WordStep(words, line, start, end);
      if end == start {
        start := start + 1;
      } else {
        words := words + [line[start..end]];
        start := end;
      }
    }
    assert line[start..] == "" && words + [] == words;
  }

  lemma NoWordsIn()
    ensures Words("") == []
  {
  }

  lemma {:induction false} WordEndAt(w: string, rest: string)
    requires (forall k :: 0 <= k < |w| ==> !IsSpace(w[k])) && (rest != "" ==> IsSpace(rest[0]))
    ensures WordEnd(w + rest) == |w|
  {
    if w != "" {
      WordEndAt(w[1..], rest);
      assert (w + rest)[1..] == w[1..] + rest;
    }
  }

  lemma WordStep(words: seq<string>, line: string, start: nat, end: nat)
    requires start < |line| && start <= end <= |line| && (forall k :: start <= k < end ==> !IsSpace(line[k]))
    requires end < |line| ==> IsSpace(line[end])
    ensures words + Words(line[start..]) ==
            if end == start then words + Words(line[start + 1..]) else words + [line[start..end]] + Words(line[end..])
  {
    hide WordEnd;
    var w, rest := line[start..end], line[end..];
    assert line[start..] == w + rest;
    WordEndAt(w, rest);
    if end == start {
      assert line[start..][1..] == line[start + 1..];
    } else {
      assert (w + rest)[..|w|] == w && (w + rest)[|w|..] == rest;
      assert words + ([w] + Words(rest)) == words + [w] + Words(rest);
    }
  }

  /** Reads the text line by line, and each line word by word. */
  method ReadLines(text: string, allowEmpty: bool) returns (input: seq<seq<string>>)
    ensures input == WordLines(LinesOf(text), allowEmpty)
  {
    hide WordLines, LinesOf, Words;
    input := [];
    var start := 0;
    while start < |text|
      invariant start <= |text|
      invariant input + WordLines(LinesOf(text[start..]), allowEmpty) == WordLines(LinesOf(text), allowEmpty)
    {
      var end := start;
      while end < |text| && text[end] != '\n'
        invariant start <= end <= |text| && forall k :: start <= k < end ==> text[k] != '\n'
      {
        end := end + 1;
      }
      var next := if end < |text| then end + 1 else end;
      var line := text[start..end];
      WordLineStep(input, text, start, end, next, allowEmpty);
      if allowEmpty || line != "" {
        var words := ReadWords(line);
        input := input + [words];
      }
      start := next;
    }
    assert text[start..] == "";
    NoWordLines(allowEmpty);
    assert input + [] == input;
  }

  lemma NoWordLines(allowEmpty: bool)
    ensures WordLines(LinesOf(""), allowEmpty) == []
  {
  }

  lemma WordLineStep(input: seq<seq<string>>, text: string, start: nat, end: nat, next: nat, allowEmpty: bool)
    requires start <= end <= next <= |text| && start < |text| && (forall k :: start <= k < end ==> text[k] != '\n')
    requires if end < |text| then text[end] == '\n' && next == end + 1 else next == end
    ensures var line := text[start..end];
            input + WordLines(LinesOf(text[start..]), allowEmpty) ==
            (if allowEmpty || line != "" then input + [Words(line)] else input)
                + WordLines(LinesOf(text[next..]), allowEmpty)
  {
    hide LinesOf, Words, WordLines, Chomp;
    var l, rest := text[start..next], text[next..];
    assert text[start..] == l + rest;
    FirstLine(l, rest);
    ChompedLine(text, start, end, next);
    var after := WordLines(LinesOf(rest), allowEmpty);
    WordLinesFirst(l, LinesOf(rest), allowEmpty);
    assert input + ([Words(Chomp(l))] + after) == input + [Words(Chomp(l))] + after;
  }

  lemma ChompedLine(text: string, start: nat, end: nat, next: nat)
    requires start <= end <= next <= |text| && (forall k :: start <= k < end ==> text[k] != '\n')
    requires if end < |text| then text[end] == '\n' && next == end + 1 else next == end
    ensures Chomp(text[start..next]) == text[start..end]
  {
    var l := text[start..next];
    if end < |text| {
      assert l[|l| - 1] == text[end] && l[..|l| - 1] == text[start..end];
    } else if start < end {
      assert l[|l| - 1] == text[end - 1];
    }
  }

  lemma WordLinesFirst(l: string, ls: seq<string>, allowEmpty: bool)
    ensures WordLines([l] + ls, allowEmpty)
            == (if !allowEmpty && Chomp(l) == "" then [] else [Words(Chomp(l))]) + WordLines(ls, allowEmpty)
  {
    assert ([l] + ls)[1..] == ls;
  }

  // ----- all lines -----

  /** What is left of the input when lines with these pieces have been taken from it, and whether the last of them is in
      the middle of an input line. */
  datatype Left = Left(rest: seq<seq<string>>, open: bool)

  function LeftAfter(input: seq<seq<string>>, layout: seq<seq<string>>, width: nat): Option<Left> {
    if layout == [] then Some(Left(input, false)) else
      var n := |layout| - 1;
      match LeftAfter(input, layout[..n], width)
      case None => None
      case Some(before) =>
        if before.rest == [] then None else
          match After(before.rest[0], layout[n], width)
          case None => None
          case Some(words) => Some(if words
              == [] then Left(before.rest[1..], false) else Left([words] + before.rest[1..], true))
  }

  /** Each line has its pieces; and one that ends in the middle of an input line is full. */
  predicate Wrapped(input: seq<seq<string>>, layout: seq<seq<string>>, lines: seq<string>, width: nat) {
    && |lines| == |layout|
    && LeftAfter(input, layout, width).Some?
    && (layout != [] ==>
         var n := |layout| - 1;
         && Wrapped(input, layout[..n], lines[..n], width)
         && |lines[n]| <= width && AreWords(layout[n]) && IsLine(lines[n], layout[n], width)
         && var left := LeftAfter(input, layout, width).value;
            left.open ==>
              && left.rest != [] && left.rest[0] != [] && IsWord(left.rest[0][0])
              && Full(lines[n], left.rest[0][0], width))
  }

  lemma WrappedMore(input: seq<seq<string>>, layout: seq<seq<string>>, lines: seq<string>, width: nat,
                    line: string, ps: seq<string>, words: seq<string>)
    requires Wrapped(input, layout, lines, width) && LeftAfter(input, layout, width).value.rest != []
    requires After(LeftAfter(input, layout, width).value.rest[0], ps, width) == Some(words)
    requires |line| <= width && AreWords(ps) && IsLine(line, ps, width)
             && (words != [] ==> IsWord(words[0]) && Full(line, words[0], width))
    ensures Wrapped(input, layout + [ps], lines + [line], width)
    ensures var rest := LeftAfter(input, layout, width).value.rest;
            LeftAfter(input, layout + [ps], width)
            == Some(if words == [] then Left(rest[1..], false) else Left([words] + rest[1..], true))
  {
    hide After, IsLine, Full, AreWords;
    assert (layout + [ps])[..|layout|] == layout && (lines + [line])[..|lines|] == lines;
  }

  /** A line with as much of the next word as still fits. */
  function CutOff(line: string, word: string, width: nat): string
    requires |line + Joined(line, word)| > width
  {
    (line + Joined(line, word))[..width]
  }

  ghost predicate AllWords(input: seq<seq<string>>) {
    forall i :: 0 <= i < |input| ==> AreWords(input[i])
  }

  function Size(input: seq<seq<string>>): nat {
    if input == [] then 0 else 1 + |Concat(input[0])| + Size(input[1..])
  }

  /** What has been laid out, cut off at the end when the last line stops in the middle of an input line. */
  predicate Finished(input: seq<seq<string>>, layout: seq<seq<string>>, whole: seq<string>, lines: seq<string>,
      width: nat)
    requires Wrapped(input, layout, whole, width)
  {
    var left := LeftAfter(input, layout, width).value;
    if left.open then
      var n := |whole| - 1;
      && layout != []
      && |whole[n] + Joined(whole[n], left.rest[0][0])| > width
      && lines == whole[..n] + [CutOff(whole[n], left.rest[0][0], width)]
    else lines == whole
  }

  lemma NothingWrapped(input: seq<seq<string>>, width: nat)
    ensures Wrapped(input, [], [], width) && LeftAfter(input, [], width) == Some(Left(input, false))
  {
  }

  lemma InputWords(ls: seq<string>, allowEmpty: bool)
    ensures AllWords(WordLines(ls, allowEmpty))
  {
  }

  lemma FirstIsWord(words: seq<string>)
    requires AreWords(words) && words != []
    ensures IsWord(words[0])
  {
  }

  lemma FrontWords(input: seq<seq<string>>)
    requires AllWords(input) && input != []
    ensures AreWords(input[0])
  {
  }

  /** The input that is left has less in it, whether or not its first line is finished. */
  lemma SmallerInput(input: seq<seq<string>>, words: seq<string>)
    requires AllWords(input) && input != [] && AreWords(words)
    ensures AllWords(input[1..]) && AllWords([words] + input[1..]) && Size(input[1..]) < Size(input)
    ensures |Concat(words)| < |Concat(input[0])| ==> Size([words] + input[1..]) < Size(input)
  {
    hide Concat, AreWords;
    assert ([words] + input[1..])[1..] == input[1..];
  }

  /** When the last line stops in the middle of an input line, the next word does not fit on it. */
  lemma OpenIsFull(input: seq<seq<string>>, layout: seq<seq<string>>, lines: seq<string>, width: nat)
    requires Wrapped(input, layout, lines, width) && LeftAfter(input, layout, width).value.open
    ensures layout != [] && |lines| == |layout|
    ensures var left, line := LeftAfter(input, layout, width).value, lines[|lines| - 1];
            && left.rest != [] && left.rest[0] != [] && IsWord(left.rest[0][0])
            && |line| <= width < |line + Joined(line, left.rest[0][0])|
  {
  }

  // ----- what is shown -----

  lemma {:induction false} SpacedNonBlank(ps: seq<string>)
    requires AreWords(ps)
    ensures NonBlank(Spaced(ps)) == Concat(ps)
  {
    hide NonBlank, Concat, Spaced;
    if ps == [] {
      NothingSpaced();
    } else {
      var n := |ps| - 1;
      SpacedNonBlank(ps[..n]);
      assert ps == ps[..n] + [ps[n]];
      SpacedMore(ps[..n], ps[n]);
      ConcatMore(ps[..n], ps[n]);
      NonBlankWord(ps[n]);
      if n > 0 {
        NonBlankConcat(Spaced(ps[..n]) + " ", ps[n]);
        NonBlankConcat(Spaced(ps[..n]), " ");
        NothingSpaced();
      } else {
        NothingSpaced();
      }
    }
  }

  lemma NothingSpaced()
    ensures Spaced([]) == "" && NonBlank("") == "" && Concat([]) == "" && NonBlank(" ") == ""
  {
  }

  lemma LineNonBlank(line: string, ps: seq<string>, width: nat)
    requires AreWords(ps) && IsLine(line, ps, width)
    ensures NonBlank(line) == Concat(ps)
  {
    SpacedNonBlank(ps);
    NonBlankConcat(Spaced(ps), " ");
    assert NonBlank(" ") == "";
  }

  lemma {:induction false} ConcatAllMore(wss: seq<seq<string>>, ws: seq<string>)
    ensures ConcatAll(wss + [ws]) == ConcatAll(wss) + Concat(ws)
  {
    if wss == [] {
      assert ConcatAll([ws]) == Concat(ws) + ConcatAll([]);
    } else {
      assert (wss + [ws])[1..] == wss[1..] + [ws];
      ConcatAllMore(wss[1..], ws);
    }
  }

  lemma ConcatMore(ls: seq<string>, l: string)
    ensures Concat(ls + [l]) == Concat(ls) + l
  {
    ConcatAppend(ls, [l]);
    assert Concat([l]) == l;
  }

  lemma ConcatAllFront(rest: seq<seq<string>>, words: seq<string>)
    requires rest != []
    ensures ConcatAll(rest) == Concat(rest[0]) + ConcatAll(rest[1..])
    ensures ConcatAll([words] + rest[1..]) == Concat(words) + ConcatAll(rest[1..])
  {
    assert ([words] + rest[1..])[1..] == rest[1..];
  }

  /** The lines have the characters of the words that were taken from the input, in order. */
  lemma {:induction false} WrappedShows(input: seq<seq<string>>, layout: seq<seq<string>>, lines: seq<string>,
      width: nat)
    requires Wrapped(input, layout, lines, width)
    ensures ConcatAll(input) == NonBlank(Concat(lines)) + ConcatAll(LeftAfter(input, layout, width).value.rest)
    decreases |layout|
  {
    hide NonBlank, Concat, ConcatAll, After, IsLine, Full, AreWords;
    if layout == [] {
      NothingShown(input);
    } else {
      var n := |layout| - 1;
      WrappedShows(input, layout[..n], lines[..n], width);
      var rest := LeftAfter(input, layout[..n], width).value.rest;
      var words := After(rest[0], layout[n], width).value;
      AfterChars(rest[0], layout[n], width);
      LineNonBlank(lines[n], layout[n], width);
      ConcatAllFront(rest, words);
      if words == [] { NothingShown(input); }
      ConcatMore(lines[..n], lines[n]);
      assert lines == lines[..n] + [lines[n]];
      NonBlankConcat(Concat(lines[..n]), lines[n]);
    }
  }

  lemma NothingShown(input: seq<seq<string>>)
    ensures NonBlank(Concat([])) == "" && Concat([]) == ""
  {
  }

  /** What a wrapped text shows is the beginning of the text, apart from blanks, and all of it unless the lines
      ran out. */
  lemma WrapShows(text: string, allowEmpty: bool, layout: seq<seq<string>>, whole: seq<string>, lines: seq<string>,
      width: nat)
    requires var input := WordLines(LinesOf(text), allowEmpty);
             Wrapped(input, layout, whole, width) && Finished(input, layout, whole, lines, width)
    ensures NonBlank(Concat(lines)) <= NonBlank(text)
    ensures LeftAfter(WordLines(LinesOf(text), allowEmpty), layout, width).value.rest == [] ==>
              NonBlank(Concat(lines)) == NonBlank(text)
  {
    var input := WordLines(LinesOf(text), allowEmpty);
    assert LeftAfter(input, layout, width).Some?;
    hide Wrapped, LeftAfter;
    WordLinesNonBlank(LinesOf(text), allowEmpty);
    LinesOfText(text);
    WrappedShows(input, layout, whole, width);
    var left := LeftAfter(input, layout, width).value;
    if left.open {
      OpenIsFull(input, layout, whole, width);
      CutOffShows(whole, left.rest, lines, width);
    }
  }

  /** Cutting the next word off shows a beginning of it. */
  lemma CutOffShows(whole: seq<string>, rest: seq<seq<string>>, lines: seq<string>, width: nat)
    requires whole != [] && rest != [] && rest[0] != []
    requires |whole[|whole| - 1]| <= width < |whole[|whole| - 1] + Joined(whole[|whole| - 1], rest[0][0])|
    requires lines == whole[..|whole| - 1] + [CutOff(whole[|whole| - 1], rest[0][0], width)]
    requires IsWord(rest[0][0])
    ensures NonBlank(Concat(lines)) <= NonBlank(Concat(whole)) + ConcatAll(rest)
  {
    hide NonBlank, Concat, ConcatAll, CutOff, Joined, IsWord;
    var n := |whole| - 1;
    var line, word := whole[n], rest[0][0];
    var shown := Joined(line, word)[..width - |line|];
    CutOffIs(line, word, width);
    assert whole == whole[..n] + [line] && lines == whole[..n] + [lines[n]];
    ConcatMore(whole[..n], line);
    ConcatMore(whole[..n], lines[n]);
    assert Concat(lines) == Concat(whole) + shown;
    NonBlankConcat(Concat(whole), shown);
    BlankThenWord(line, word, width - |line|);
    ConcatAllFront(rest, rest[0]);
    ConcatCons(word, rest[0][1..]);
    assert [word] + rest[0][1..] == rest[0];
    assert NonBlank(shown) <= word <= ConcatAll(rest);
  }

  lemma CutOffIs(line: string, word: string, width: nat)
    requires |line| <= width < |line + Joined(line, word)|
    ensures CutOff(line, word, width) == line + Joined(line, word)[..width - |line|]
  {
  }

  lemma BlankThenWord(line: string, word: string, k: nat)
    requires IsWord(word) && k <= |Joined(line, word)|
    ensures NonBlank(Joined(line, word)[..k]) <= word
  {
    hide NonBlank, IsSpace;
    var shown := Joined(line, word)[..k];
    NothingSpaced();
    if line == "" {
      assert shown == word[..k];
      NonBlankWord(word[..k]);
    } else if k == 0 {
      assert shown == "";
    } else {
      assert shown == " " + word[..k - 1];
      NonBlankConcat(" ", word[..k - 1]);
      NonBlankWord(word[..k - 1]);
    }
  }

  // ----- wrapping -----

  /** Fills one line after the other until the text or the lines run out. */
  method FillLines(all: seq<seq<string>>, w: nat, height: Option<nat>)
    returns (lines: seq<string>, input: seq<seq<string>>, last: Option<seq<string>>, ghost layout: seq<seq<string>>)
    requires AllWords(all) && (w == 0 ==> height.Some?)
    ensures height.Some? ==> |lines| <= height.value
    ensures |lines| == |layout| && forall i :: 0 <= i < |lines| ==> |lines[i]| <= w
    ensures Wrapped(all, layout, lines, w) && LeftAfter(all, layout, w) == Some(Left(input, last.Some?))
    ensures last.Some? ==> input != [] && last.value == input[0]
    ensures input != [] ==> height == Some(|lines|)
  {
    hide Wrapped, LeftAfter, AllWords, After, IsLine, Full, AreWords, Concat, Size, IsWord;
    NothingWrapped(all, w);
    lines, input, last, layout := [], all, None, [];
    while (height.None? || |lines| < height.value) && input != []
      invariant height.Some? ==> |lines| <= height.value
      invariant Wrapped(all, layout, lines, w) && LeftAfter(all, layout, w) == Some(Left(input, last.Some?))
      invariant AllWords(input) && (last.Some? ==> input != [] && last.value == input[0])
      invariant |layout| == |lines| && forall i :: 0 <= i < |lines| ==> |lines[i]| <= w
      decreases if w > 0 then Size(input) else height.value - |lines|
    {
      FrontWords(input);
      var line, words;
      ghost var ps;
      line, words, ps := FillLine(input[0], w);
      if words != [] { FirstIsWord(words); }
      WrappedMore(all, layout, lines, w, line, ps, words);
      SmallerInput(input, words);
      lines, layout := lines + [line], layout + [ps];
      if words == [] {
        input := input[1..];
        last := None;
      } else {
        input := [words] + input[1..];
        last := Some(words);
      }
    }
  }

  /** Wraps a text. Every word goes on the line as long as it fits, a word is split only when it is longer than a line,
      and when there are no more lines to be had the last one gets as much of the next word as fits. */
  method Wrap(width: Option<nat>, height: Option<nat>, allowEmpty: bool, text: string)
    returns (lines: seq<string>, ghost layout: seq<seq<string>>, ghost whole: seq<string>)
    requires width == Some(0) ==> height.Some?
    ensures width.None? ==> lines == [text]
    ensures width.Some? ==>
              var input := WordLines(LinesOf(text), allowEmpty);
              && (height.Some? ==> |lines| <= height.value)
              && (forall i :: 0 <= i < |lines| ==> |lines[i]| <= width.value)
              && Wrapped(input, layout, whole, width.value) && Finished(input, layout, whole, lines, width.value)
              && (LeftAfter(input, layout, width.value).value.rest != [] ==> height == Some(|lines|))
    ensures NonBlank(Concat(lines)) <= NonBlank(text)
    ensures width.None? || height != Some(|lines|) ==> NonBlank(Concat(lines)) == NonBlank(text)
  {
    hide NonBlank, Wrapped, LeftAfter, AllWords, LinesOf, WordLines, Concat;
    layout, whole := [], [];
    if width.None? {
      OneLine(text);
      return [text], layout, whole;
    }
    var w := width.value;
    var input := ReadLines(text, allowEmpty);
    InputWords(LinesOf(text), allowEmpty);
    var rest, last;
    lines, rest, last, layout := FillLines(input, w, height);
    whole := lines;
    if last.Some? && last.value != [] {
      var n := |lines| - 1;
      OpenIsFull(input, layout, lines, w);
      var word := last.value[0];
      var line := lines[n] + Joined(lines[n], word);
      assert |line| > w;
      lines := lines[..n] + [line[..w]];
    } else if last.Some? {
      OpenIsFull(input, layout, lines, w);
    }
    WrapShows(text, allowEmpty, layout, whole, lines, w);
  }

  lemma OneLine(text: string)
    ensures Concat([text]) == text
  {
    assert Concat([text]) == text + Concat([]);
  }
}
