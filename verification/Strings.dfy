/** The string operations the parsers share: splitting and joining lines, trimming, prefixes. */
module Strings {
  /** C's isspace in the default locale. */
  predicate IsSpace(c: char) {
    c == ' ' || 9 <= c as int <= 13
  }

  predicate StartsWith(prefix: string, s: string) {
    prefix <= s
  }

  function TrimLeft(s: string): (r: string)
    ensures r == [] || !IsSpace(r[0])
  {
    if s != [] && IsSpace(s[0]) then TrimLeft(s[1..]) else s
  }

  function TrimRight(s: string): (r: string)
    ensures r <= s
    ensures r == [] || !IsSpace(r[|r| - 1])
  {
    if s != [] && IsSpace(s[|s| - 1]) then TrimRight(s[..|s| - 1]) else s
  }

  function Trim(s: string): string {
    TrimRight(TrimLeft(s))
  }

  predicate Trimmed(s: string) {
    s != [] ==> !IsSpace(s[0]) && !IsSpace(s[|s| - 1])
  }

  lemma TrimIsTrimmed(s: string)
    ensures Trimmed(Trim(s))
    ensures forall c :: c in Trim(s) ==> c in s
  {
    TrimLeftPart(s);
  }

  lemma {:induction false} TrimLeftPart(s: string)
    ensures forall c :: c in TrimLeft(s) ==> c in s
  {
    if s != [] && IsSpace(s[0]) {
      TrimLeftPart(s[1..]);
    }
  }

  lemma TrimTrimmed(s: string)
    requires Trimmed(s)
    ensures Trim(s) == s
  {
  }

  lemma {:induction false} TrimLeftSpaces(before: string, s: string)
    requires (s != [] ==> !IsSpace(s[0])) && forall c :: c in before ==> IsSpace(c)
    ensures TrimLeft(before + s) == s
  {
    if before == [] {
      assert before + s == s;
    } else {
      assert (before + s)[1..] == before[1..] + s;
      TrimLeftSpaces(before[1..], s);
    }
  }

  lemma {:induction false} TrimRightSpaces(s: string, after: string)
    requires (s != [] ==> !IsSpace(s[|s| - 1])) && forall c :: c in after ==> IsSpace(c)
    ensures TrimRight(s + after) == s
  {
    if after == [] {
      assert s + after == s;
    } else {
      var n := |after| - 1;
      assert (s + after)[..|s + after| - 1] == s + after[..n] && (s + after)[|s + after| - 1] == after[n];
      TrimRightSpaces(s, after[..n]);
    }
  }

  /** Spaces around a trimmed text are what trimming removes. */
  lemma TrimSpaces(before: string, s: string, after: string)
    requires Trimmed(s) && s != []
    requires forall c :: c in before || c in after ==> IsSpace(c)
    ensures Trim(before + s + after) == s
  {
    hide TrimLeft, TrimRight;
    assert before + s + after == before + (s + after);
    TrimLeftSpaces(before, s + after);
    TrimRightSpaces(s, after);
  }

  /** Cuts at every newline: always one more piece than there are newlines. */
  function Split(s: string): (lines: seq<string>)
    ensures lines != []
  {
    if s == [] then [""]
    else if s[0] == '\n' then [""] + Split(s[1..])
    else
      var rest := Split(s[1..]);
      [[s[0]] + rest[0]] + rest[1..]
  }

  function Join(lines: seq<string>): string {
    if lines == [] then ""
    else if |lines| == 1 then lines[0]
    else lines[0] + "\n" + Join(lines[1..])
  }

  predicate NoNewline(s: string) {
    '\n' !in s
  }

  predicate LinesOnly(lines: seq<string>) {
    forall i :: 0 <= i < |lines| ==> NoNewline(lines[i])
  }

  lemma {:induction false} SplitLines(s: string)
    ensures LinesOnly(Split(s))
  {
    if s != [] {
      SplitLines(s[1..]);
    }
  }

  /** Splitting then joining gives the text back. */
  lemma {:induction false} JoinSplit(s: string)
    ensures Join(Split(s)) == s
  {
    if s != [] {
      JoinSplit(s[1..]);
      var rest := Split(s[1..]);
      if s[0] == '\n' {
        assert ([""] + rest)[1..] == rest;
        assert "" + "\n" + s[1..] == s;
      } else {
        var lines := [[s[0]] + rest[0]] + rest[1..];
        assert lines[1..] == rest[1..];
        if |rest| > 1 {
          assert [s[0]] + rest[0] + "\n" + Join(rest[1..]) == [s[0]] + (rest[0] + "\n" + Join(rest[1..]));
        }
      }
    }
  }

  lemma {:induction false} SplitLine(s: string)
    requires NoNewline(s)
    ensures Split(s) == [s]
  {
    if s != [] {
      SplitLine(s[1..]);
      assert [s[0]] + s[1..] == s;
    }
  }

  /** A line followed by a newline is split off whole. */
  lemma {:induction false} SplitFirst(line: string, rest: string)
    requires NoNewline(line)
    ensures Split(line + "\n" + rest) == [line] + Split(rest)
  {
    var s := line + "\n" + rest;
    if line == [] {
      assert s[0] == '\n' && s[1..] == rest;
    } else {
      assert s[0] == line[0] && s[1..] == line[1..] + "\n" + rest;
      SplitFirst(line[1..], rest);
      assert [line[0]] + line[1..] == line;
    }
  }

  /** Joining then splitting gives the lines back, when there are any and none holds a newline. */
  lemma {:induction false} SplitJoin(lines: seq<string>)
    requires lines != [] && LinesOnly(lines)
    ensures Split(Join(lines)) == lines
  {
    if |lines| == 1 {
      SplitLine(lines[0]);
    } else {
      SplitJoin(lines[1..]);
      SplitFirst(lines[0], Join(lines[1..]));
    }
  }
}
