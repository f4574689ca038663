/** The editable text of a commit message: its printer, its parser and what survives the round trip. */
module CommitMessage {
  import opened Wrappers
  import opened Strings
  import opened CommitTime

  datatype CommitAuthor = CommitAuthor(name: string, email: string)

  datatype Message = Message(author: Option<CommitAuthor>, time: Option<Time>, message: string)

  const AUTHOR_PREFIX := "Author:"
  const TIME_PREFIX := "Date:"

  /** The text that is given to the editor. */
  function StringFromCommitMessage(author: CommitAuthor, time: Time, message: string): string {
    AUTHOR_PREFIX + " " + author.name + " <" + author.email + ">" + "\n"
      + (TIME_PREFIX + "   " + StringFromTime(time) + "\n"
      + ("" + "\n"
      + message))
  }

  // ----- parsing -----

  /** The position of the first character of `s` that is `c`, or its length. */
  function FindFirst(s: string, c: char): (i: nat)
    ensures i <= |s| && (i < |s| ==> s[i] == c)
    ensures forall j :: 0 <= j < i ==> s[j] != c
  {
    if s == [] || s[0] == c then 0 else 1 + FindFirst(s[1..], c)
  }

  /** The position after the last character of `s` that is `c`, or 0. */
  function AfterLast(s: string, c: char): (i: nat)
    ensures i <= |s| && (i > 0 ==> s[i - 1] == c)
    ensures forall j :: i <= j < |s| ==> s[j] != c
  {
    if s == [] || s[|s| - 1] == c then |s| else AfterLast(s[..|s| - 1], c)
  }

  function AuthorParse(s: string): Option<CommitAuthor> {
    var emailStart, emailEnd := FindFirst(s, '<'), AfterLast(s, '>');
    if emailStart == |s| || emailEnd == 0 || emailStart >= emailEnd - 1 then None else
    var name, email := Trim(s[..emailStart]), Trim(s[emailStart + 1..emailEnd - 1]);
    if name == "" || email == "" then None else Some(CommitAuthor(name, email))
  }

  /** How many leading lines hold nothing but spaces. */
  function BlankCount(lines: seq<string>): (n: nat)
    ensures n <= |lines|
    ensures forall i :: 0 <= i < n ==> Trim(lines[i]) == ""
    ensures n < |lines| ==> Trim(lines[n]) != ""
  {
    if lines == [] || Trim(lines[0]) != "" then 0 else 1 + BlankCount(lines[1..])
  }

  /** Looks for a field: the first line that is not blank, when it starts with the prefix. */
  function Field(lines: seq<string>, prefix: string): (r: (Option<string>, nat))
    ensures r.1 <= |lines|
  {
    var n := BlankCount(lines);
    if n < |lines| && StartsWith(prefix, Trim(lines[n])) then (Some(Trim(Trim(lines[n])[|prefix|..])), n + 1)
    else (None, n)
  }

  function MessageFromLines(lines: seq<string>): Message {
    var (authorStr, a) := Field(lines, AUTHOR_PREFIX);
    var (timeStr, t) := Field(lines[a..], TIME_PREFIX);
    var rest := lines[a + t..];
    Message(
      if authorStr.Some? then AuthorParse(authorStr.value) else None,
      if timeStr.Some? then TimeFromString(timeStr.value) else None,
      Join(rest[BlankCount(rest)..]))
  }

  /** One field: `i` is the iterator, which ends after the field's line or on the line that is not the field. */
  method ScanField(lines: seq<string>, start: nat, prefix: string) returns (value: Option<string>, i: nat)
    requires start <= |lines| && prefix != ""
    ensures i <= |lines| && (value, i - start) == Field(lines[start..], prefix)
  {
    value := None;
    i := start;
    ghost var n := BlankCount(lines[start..]);
    while value.None? && i < |lines|
      invariant start <= i <= |lines|
      invariant value.None? ==> i <= start + n
      invariant value.Some? ==> (value, i - start) == Field(lines[start..], prefix)
    {
      assert i < start + n ==> Trim(lines[start..][i - start]) == "";
      assert i == start + n ==> Trim(lines[start..][n]) != "";
      var line := Trim(lines[i]);
      if StartsWith(prefix, line) {
        value := Some(Trim(line[|prefix|..]));
      } else if line != "" {
        break;
      }
      i := i + 1;
    }
  }

  /** Skips the lines that hold nothing but spaces. */
  method SkipBlank(lines: seq<string>, start: nat) returns (i: nat)
    requires start <= |lines|
    ensures i == start + BlankCount(lines[start..])
  {
    i := start;
    ghost var n := BlankCount(lines[start..]);
    while i < |lines|
      invariant start <= i <= start + n
    {
      assert i < start + n ==> Trim(lines[start..][i - start]) == "";
      assert i == start + n ==> Trim(lines[start..][n]) != "";
      var line := Trim(lines[i]);
      if line != "" {
        break;
      }
      i := i + 1;
    }
  }

  /** Puts the lines from `start` on back together; the first of them is not empty. */
  method Recompose(lines: seq<string>, start: nat) returns (msg: string)
    requires start <= |lines| && (start < |lines| ==> lines[start] != "")
    ensures msg == Join(lines[start..])
  {
    msg := "";
    var i := start;
    while i < |lines|
      invariant start <= i <= |lines|
      invariant msg == Join(lines[start..i])
      invariant i > start ==> msg != ""
    {
      JoinSnoc(lines[start..i], lines[i]);
      assert lines[start..i + 1] == lines[start..i] + [lines[i]];
      msg := msg + (if msg == "" then lines[i] else "\n" + lines[i]);
      i := i + 1;
    }
    assert lines[start..i] == lines[start..];
  }

  lemma AfterBlanks(lines: seq<string>, j: nat)
    requires j <= |lines|
    ensures var k := j + BlankCount(lines[j..]);
            && k <= |lines| && lines[k..] == lines[j..][k - j..]
            && (k < |lines| ==> lines[k] != "")
  {
    hide Trim;
    var k := j + BlankCount(lines[j..]);
    if k < |lines| {
      assert lines[j..][k - j] == lines[k];
      TrimEmpty();
    }
  }

  method CommitMessageFromString(s: string) returns (m: Message)
    ensures m == MessageFromLines(Split(s))
  {
    hide Join, Split, Trim, Field, BlankCount, AuthorParse, TimeFromString;
    var lines := Split(s);
    var authorStr, i := ScanField(lines, 0, AUTHOR_PREFIX);
    assert lines[0..] == lines;
    var timeStr, j := ScanField(lines, i, TIME_PREFIX);
    var k := SkipBlank(lines, j);
    AfterBlanks(lines, j);
    var msg := Recompose(lines, k);
    var author := if authorStr.Some? then AuthorParse(authorStr.value) else None;
    var time := if timeStr.Some? then TimeFromString(timeStr.value) else None;
    m := Message(author, time, msg);
  }

  lemma TrimEmpty()
    ensures Trim("") == ""
  {
  }

  lemma {:induction false} JoinSnoc(lines: seq<string>, line: string)
    ensures Join(lines + [line]) == if lines == [] then line else Join(lines) + "\n" + line
  {
    if |lines| > 1 {
      assert (lines + [line])[1..] == lines[1..] + [line];
      JoinSnoc(lines[1..], line);
      var x, y := lines[0] + "\n", Join(lines[1..]);
      assert x + (y + "\n" + line) == x + y + "\n" + line;
    } else if lines != [] {
      assert (lines + [line])[1..] == [line];
    }
  }

  // ----- the round trip -----

  /** The authors that the printed form can carry. */
  predicate PlainAuthor(a: CommitAuthor) {
    && a.name != "" && Trimmed(a.name) && NoNewline(a.name) && '<' !in a.name
    && a.email != "" && Trimmed(a.email) && NoNewline(a.email)
  }

  predicate PlainTime(t: Time) {
    OffsetSurvives(t.offset) && t.time + t.offset * 60 != -1
  }

  /** The message texts that the printed form can carry: empty, or with a first line that is not blank. */
  predicate PlainText(message: string) {
    message == "" || Trim(Split(message)[0]) != ""
  }

  lemma FieldHasNoNewline(lines: seq<string>, prefix: string)
    requires LinesOnly(lines) && Field(lines, prefix).0.Some?
    ensures NoNewline(Field(lines, prefix).0.value)
  {
    hide BlankCount;
    var line := lines[BlankCount(lines)];
    TrimIsTrimmed(line);
    var value := Trim(line)[|prefix|..];
    TrimIsTrimmed(value);
    assert forall c :: c in value ==> c in Trim(line);
  }

  lemma ParsedTextIsPlain(rest: seq<string>)
    requires LinesOnly(rest)
    ensures PlainText(Join(rest[BlankCount(rest)..]))
  {
    hide Trim, Join, Split;
    var text := rest[BlankCount(rest)..];
    if text != [] {
      SplitJoin(text);
      assert text[0] == rest[BlankCount(rest)];
    } else {
      JoinNothing();
    }
  }

  lemma JoinNothing()
    ensures Join([]) == ""
  {
  }

  /** Everything the parser returns can be carried: the conditions on author and text are not restrictions on it. */
  lemma ParsedIsPlain(lines: seq<string>)
    requires LinesOnly(lines)
    ensures var m := MessageFromLines(lines);
            (m.author.Some? ==> PlainAuthor(m.author.value)) && PlainText(m.message)
  {
    hide TimeFromString, Field, AuthorParse, PlainAuthor, PlainText, Join, BlankCount;
    var (authorStr, a) := Field(lines, AUTHOR_PREFIX);
    if authorStr.Some? {
      FieldHasNoNewline(lines, AUTHOR_PREFIX);
      ParsedAuthorIsPlain(authorStr.value);
    }
    var (timeStr, t) := Field(lines[a..], TIME_PREFIX);
    ParsedTextIsPlain(lines[a + t..]);
  }

  lemma ParsedAuthorIsPlain(s: string)
    requires NoNewline(s)
    ensures AuthorParse(s).Some? ==> PlainAuthor(AuthorParse(s).value)
  {
    hide Trim;
    if AuthorParse(s).Some? {
      var emailStart, emailEnd := FindFirst(s, '<'), AfterLast(s, '>');
      var name, email := s[..emailStart], s[emailStart + 1..emailEnd - 1];
      TrimIsTrimmed(name);
      TrimIsTrimmed(email);
      assert '<' !in name;
      assert forall c :: c in name || c in email ==> c in s;
    }
  }

  /** The name ends where the first '<' is and the email where the last '>' is. */
  lemma AuthorRoundTrip(a: CommitAuthor)
    requires PlainAuthor(a)
    ensures AuthorParse(a.name + " <" + a.email + ">") == Some(a)
  {
    var s := a.name + " <" + a.email + ">";
    var n := |a.name| + 1;
    assert s[..n] == a.name + " ";
    assert s[n] == '<' && forall j :: 0 <= j < n ==> s[j] == s[..n][j];
    assert FindFirst(s, '<') == n;
    assert AfterLast(s, '>') == |s|;
    assert s[n + 1..|s| - 1] == a.email;
    TrimSpaces("", a.name, " ");
    assert "" + a.name + " " == a.name + " ";
    TrimTrimmed(a.email);
  }

  /** The three lines above the text, and the lines they are read back from. */
  lemma PrintedLines(author: CommitAuthor, time: Time, message: string)
    requires NoNewline(author.name) && NoNewline(author.email)
    ensures Split(StringFromCommitMessage(author, time, message)) ==
            [AUTHOR_PREFIX + " " + author.name + " <" + author.email + ">",
                TIME_PREFIX + "   " + StringFromTime(time), ""]
              + Split(message)
  {
    hide StringFromTime;
    var a := AUTHOR_PREFIX + " " + author.name + " <" + author.email + ">";
    var t := TIME_PREFIX + "   " + StringFromTime(time);
    StringFromTimeIsLine(time);
    SplitFirst("", message);
    SplitFirst(t, "" + "\n" + message);
    SplitFirst(a, t + "\n" + ("" + "\n" + message));
  }

  /** A field line that starts and ends with something else than a space is found at once. */
  lemma FieldOnFirstLine(prefix: string, space: string, value: string, rest: seq<string>)
    requires prefix != "" && !IsSpace(prefix[0])
    requires forall c :: c in space ==> IsSpace(c)
    requires value != "" && Trimmed(value)
    ensures Field([prefix + space + value] + rest, prefix) == (Some(value), 1)
  {
    var line := prefix + space + value;
    var lines := [line] + rest;
    assert Trim(line) == line by {
      assert line[0] == prefix[0] && line[|line| - 1] == value[|value| - 1];
      TrimTrimmed(line);
    }
    hide Trim;
    assert BlankCount(lines) == 0;
    assert line[|prefix|..] == space + value + "";
    TrimSpaces(space, value, "");
  }

  /** What the text of a plain author reads back as. */
  lemma ParsePrinted(author: CommitAuthor, time: Time, message: string)
    requires PlainAuthor(author)
    ensures var m := MessageFromLines(Split(StringFromCommitMessage(author, time, message)));
            && m.author == Some(author)
            && m.time == TimeFromString(StringFromTime(time))
            && (PlainText(message) ==> m.message == message)
  {
    hide StringFromTime, Split, Join, Field, AuthorParse, TimeFromString, BlankCount, StringFromCommitMessage,
        PlainText;
    var authorText := author.name + " <" + author.email + ">";
    var a := AUTHOR_PREFIX + " " + authorText;
    var t := TIME_PREFIX + "   " + StringFromTime(time);
    var lines := [a, t, ""] + Split(message);
    assert Split(StringFromCommitMessage(author, time, message)) == lines by {
      PrintedLines(author, time, message);
      assert AUTHOR_PREFIX + " " + author.name + " <" + author.email + ">" == a;
    }
    StringFromTimeIsLine(time);
    assert lines == [a] + ([t, ""] + Split(message));
    FieldOnFirstLine(AUTHOR_PREFIX, " ", authorText, [t, ""] + Split(message));
    assert lines[1..] == [t] + ([""] + Split(message));
    FieldOnFirstLine(TIME_PREFIX, "   ", StringFromTime(time), [""] + Split(message));
    AuthorRoundTrip(author);
    assert lines[1 + 1..] == [""] + Split(message);
    if PlainText(message) {
      TextAfterBlankLine(message);
    }
  }

  lemma TextAfterBlankLine(message: string)
    requires PlainText(message)
    ensures var rest := [""] + Split(message); Join(rest[BlankCount(rest)..]) == message
  {
    hide Join;
    var rest := [""] + Split(message);
    TrimEmpty();
    assert rest[1..] == Split(message);
    if message == "" {
      assert BlankCount(Split(message)) == 1;
      assert rest[2..] == [];
      JoinNothing();
    } else {
      assert BlankCount(Split(message)) == 0;
      JoinSplit(message);
    }
  }

  /** Leaving the editor's text as it is gives back the same author, time and message if and only if the author and the
      message have the plain form and the date survives; otherwise an untouched edit counts as a change. */
  lemma MessageRoundTrip(author: CommitAuthor, time: Time, message: string)
    ensures MessageFromLines(Split(StringFromCommitMessage(author, time, message)))
            == Message(Some(author), Some(time), message)
            <==> PlainAuthor(author) && PlainTime(time) && PlainText(message)
  {
    hide *;
    var lines := Split(StringFromCommitMessage(author, time, message));
    SplitLines(StringFromCommitMessage(author, time, message));
    ParsedIsPlain(lines);
    if PlainAuthor(author) {
      ParsePrinted(author, time, message);
      PrintedTime(time);
    }
  }

  lemma PrintedTime(time: Time)
    ensures TimeFromString(StringFromTime(time)) == Some(time) <==> PlainTime(time)
  {
    hide TimeFromString, StringFromTime;
    TimeRoundTrip(time);
  }
}
