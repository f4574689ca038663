/** What the parser of a commit message makes of any text, not only of a printed one. */
module MessageLaws {
  import opened Wrappers
  import opened Strings
  import opened CommitTime
  import opened CommitMessage

  // ----- authors -----

  lemma {:induction false} FirstAt(x: string, c: char, rest: string)
    requires c !in x
    ensures FindFirst(x + [c] + rest, c) == |x|
  {
    if x != "" {
      assert (x + [c] + rest)[1..] == x[1..] + [c] + rest;
      FirstAt(x[1..], c, rest);
    }
  }

  lemma {:induction false} LastAt(front: string, c: char, z: string)
    requires c !in z
    ensures AfterLast(front + [c] + z, c) == |front| + 1
  {
    var s := front + [c] + z;
    if z == "" {
      assert s[|s| - 1] == c;
    } else {
      assert s[..|s| - 1] == front + [c] + z[..|z| - 1] && s[|s| - 1] == z[|z| - 1];
      LastAt(front, c, z[..|z| - 1]);
    }
  }

  /** The name is what stands before the first opening bracket, the email what stands between that and the last closing
      one, both without the spaces around them; there is no author if one of them is empty. */
  lemma AuthorIs(x: string, y: string, z: string)
    requires '<' !in x && '>' !in z
    ensures AuthorParse(x + "<" + y + ">" + z)
            == if Trim(x) == "" || Trim(y) == "" then None else Some(CommitAuthor(Trim(x), Trim(y)))
  {
    hide Trim, FindFirst, AfterLast;
    var s := x + "<" + y + ">" + z;
    assert s == x + ['<'] + (y + ">" + z) && s == (x + "<" + y) + ['>'] + z;
    FirstAt(x, '<', y + ">" + z);
    LastAt(x + "<" + y, '>', z);
    assert s[..|x|] == x && s[|x| + 1..|x| + 1 + |y|] == y;
    EmptyEmail(y);
  }

  lemma EmptyEmail(y: string)
    ensures y == "" ==> Trim(y) == ""
  {
  }

  /** Only such a text has an author. */
  lemma AuthorOnly(s: string) returns (x: string, y: string, z: string)
    requires AuthorParse(s).Some?
    ensures s == x + "<" + y + ">" + z && '<' !in x && '>' !in z
  {
    hide Trim;
    var a, b := FindFirst(s, '<'), AfterLast(s, '>');
    x, y, z := s[..a], s[a + 1..b - 1], s[b..];
  }

  // ----- messages -----

  predicate AllBlank(lines: seq<string>) {
    forall i :: 0 <= i < |lines| ==> Trim(lines[i]) == ""
  }

  /** The line, if there is one. */
  function Opt(line: Option<string>): seq<string> {
    if line.Some? then [line.value] else []
  }

  predicate IsField(prefix: string, line: string) {
    StartsWith(prefix, Trim(line))
  }

  function FieldText(prefix: string, line: string): string
    requires IsField(prefix, line)
  {
    Trim(Trim(line)[|prefix|..])
  }

  /** What comes first is neither blank nor such a field. */
  predicate StartsOther(lines: seq<string>, prefix: string) {
    lines == [] || (Trim(lines[0]) != "" && !IsField(prefix, lines[0]))
  }

  lemma {:induction false} BlanksFirst(b: seq<string>, t: seq<string>)
    requires AllBlank(b) && (t == [] || Trim(t[0]) != "")
    ensures BlankCount(b + t) == |b|
  {
    hide Trim;
    if b == [] {
      assert b + t == t;
    } else {
      assert (b + t)[1..] == b[1..] + t && (b + t)[0] == b[0];
      BlanksFirst(b[1..], t);
    }
  }

  lemma FieldThere(b: seq<string>, line: string, t: seq<string>, prefix: string)
    requires AllBlank(b) && prefix != "" && IsField(prefix, line)
    ensures Field(b + [line] + t, prefix) == (Some(FieldText(prefix, line)), |b| + 1)
    ensures (b + [line] + t)[|b| + 1..] == t
  {
    hide Trim, BlankCount, AllBlank;
    assert Trim(line) != "";
    assert b + [line] + t == b + ([line] + t);
    BlanksFirst(b, [line] + t);
  }

  lemma FieldMissing(b: seq<string>, t: seq<string>, prefix: string)
    requires AllBlank(b) && StartsOther(t, prefix)
    ensures Field(b + t, prefix) == (None, |b|) && (b + t)[|b|..] == t
  {
    hide Trim, BlankCount, AllBlank;
    BlanksFirst(b, t);
  }

  /** One field of a text, whether it is there or not: what is parsed of it, and what is left. */
  lemma FieldIs(b: seq<string>, line: Option<string>, t: seq<string>, prefix: string)
    requires AllBlank(b) && prefix != "" && if line.Some? then IsField(prefix, line.value) else StartsOther(t, prefix)
    ensures var f := Field(b + Opt(line) + t, prefix);
            && f.0 == (if line.Some? then Some(FieldText(prefix, line.value)) else None)
            && (b + Opt(line) + t)[f.1..] == t
  {
    hide Trim, BlankCount, AllBlank, Field, IsField, FieldText, StartsOther;
    if line.Some? {
      FieldThere(b, line.value, t, prefix);
    } else {
      assert b + [] + t == b + t;
      FieldMissing(b, t, prefix);
    }
  }

  /** Blank lines, then the author if there is one, blank lines, then the date if there is one, blank lines, and what is
      left is the message: each field is parsed by itself, whether the other one is there or not. */
  lemma TextIs(b1: seq<string>, author: Option<string>, b2: seq<string>, date: Option<string>, b3: seq<string>,
      rest: seq<string>)
    requires AllBlank(b1) && AllBlank(b2) && AllBlank(b3) && (rest == [] || Trim(rest[0]) != "")
    requires author.Some? ==> IsField("Author:", author.value)
    requires author.None? ==> b2 == [] && StartsOther(Opt(date) + b3 + rest, "Author:")
    requires date.Some? ==> IsField("Date:", date.value)
    requires date.None? ==> b3 == [] && StartsOther(rest, "Date:")
    ensures MessageFromLines(b1 + Opt(author) + (b2 + Opt(date) + (b3 + rest)))
            == Message(
                 if author.Some? then AuthorParse(FieldText("Author:", author.value)) else None,
                 if date.Some? then TimeFromString(FieldText("Date:", date.value)) else None,
                 Join(rest))
  {
    hide Trim, BlankCount, AllBlank, Field, IsField, FieldText, StartsOther, Join, AuthorParse, TimeFromString,
        MessageFromLines;
    var t := b2 + Opt(date) + (b3 + rest);
    assert author.None? ==> t == Opt(date) + b3 + rest;
    assert date.None? ==> b3 + rest == rest;
    FieldIs(b1, author, t, AUTHOR_PREFIX);
    FieldIs(b2, date, b3 + rest, TIME_PREFIX);
    BlanksFirst(b3, rest);
    assert (b3 + rest)[|b3|..] == rest;
    MessageOf(b1 + Opt(author) + t, t, b3 + rest, rest);
  }

  /** The three steps of the parser, one after the other. */
  lemma MessageOf(lines: seq<string>, t: seq<string>, r: seq<string>, rest: seq<string>)
    requires lines[Field(lines, AUTHOR_PREFIX).1..] == t && t[Field(t, TIME_PREFIX).1..] == r
    requires r[BlankCount(r)..] == rest
    ensures var author, date := Field(lines, AUTHOR_PREFIX).0, Field(t, TIME_PREFIX).0;
            MessageFromLines(lines)
            == Message(if author.Some? then AuthorParse(author.value) else None,
                   if date.Some? then TimeFromString(date.value) else None, Join(rest))
  {
    hide Trim, BlankCount, Field, Join, AuthorParse, TimeFromString;
    var a, d := Field(lines, AUTHOR_PREFIX).1, Field(t, TIME_PREFIX).1;
    assert lines[a + d..] == r by { assert lines[a..][d..] == lines[a + d..]; }
  }
}
