/** Merge conflicts as text with conflict markers, and as hunks. */
module Conflicts {
  import opened Wrappers
  import opened Strings

  datatype Side = Ours | Theirs

  datatype Hunk = Normal(lines: seq<string>) | Conflict(ours: seq<string>, theirs: seq<string>) {
    predicate Empty() {
      match this case Normal(ls) => ls == [] case Conflict(o, t) => o == [] && t == []
    }

    function Lines(side: Side): seq<string> {
      match this case Normal(ls) => ls case Conflict(o, t) => if side.Ours? then o else t
    }
  }

  datatype ConflictType = File | Submodule

  datatype FileConflict = FileConflict(kind: ConflictType, hunks: seq<Hunk>) {
    /** Whether the file does not exist on one side. */
    predicate NoFile(side: Side) {
      kind.File? && |hunks| == 1 && hunks[0].Conflict? && hunks[0].Lines(side) == []
    }
  }

  datatype Markers = Markers(start: string, separator: string, end: string)

  /** The markers shown in an editor. */
  const BARE_MARKERS := Markers("<<<<<<<", "=======", ">>>>>>>")

  /** The markers looked for in a merged file. */
  const MERGE_MARKERS := Markers("<<<<<<< " + PRODUCT_ID, "=======", ">>>>>>> " + PRODUCT_ID)

  const PRODUCT_ID := "llc.toaster.debase"

  // ----- parsing -----

  datatype ParseState = InNormal | InOurs | InTheirs

  /** The hunks so far, the one that lines are being added to, and what is being looked for. */
  datatype Parse = Parse(hunks: seq<Hunk>, hunk: Hunk, state: ParseState)

  const PARSE_START := Parse([], Normal([]), InNormal)

  function Pushed(hunks: seq<Hunk>, hunk: Hunk): seq<Hunk> {
    if hunk.Empty() then hunks else hunks + [hunk]
  }

  /** Which kind of hunk each state adds to. */
  predicate Fits(p: Parse) {
    p.state.InNormal? <==> p.hunk.Normal?
  }

  function ParseLine(m: Markers, p: Parse, line: string): (p': Parse)
    requires Fits(p)
    ensures Fits(p')
  {
    match p.state
    case InNormal =>
      if StartsWith(m.start, line) then Parse(Pushed(p.hunks, p.hunk), Conflict([], []), InOurs)
      else p.(hunk := Normal(p.hunk.lines + [line]))
    case InOurs =>
      if StartsWith(m.separator, line) then p.(state := InTheirs)
      else p.(hunk := Conflict(p.hunk.ours + [line], p.hunk.theirs))
    case InTheirs =>
      if StartsWith(m.end, line) then Parse(Pushed(p.hunks, p.hunk), Normal([]), InNormal)
      else p.(hunk := Conflict(p.hunk.ours, p.hunk.theirs + [line]))
  }

  function ParseLines(m: Markers, p: Parse, lines: seq<string>): (p': Parse)
    requires Fits(p)
    ensures Fits(p')
    decreases |lines|
  {
    if lines == [] then p else ParseLines(m, ParseLine(m, p, lines[0]), lines[1..])
  }

  function Hunks(m: Markers, lines: seq<string>): seq<Hunk> {
    var p := ParseLines(m, PARSE_START, lines);
    Pushed(p.hunks, p.hunk)
  }

  method HunksFromConflictString(m: Markers, s: string) returns (hunks: seq<Hunk>)
    ensures hunks == Hunks(m, Split(s))
  {
    var lines := Split(s);
    hunks := [];
    var hunk := Normal([]);
    var state := InNormal;
    for i := 0 to |lines|
      invariant Fits(Parse(hunks, hunk, state))
      invariant ParseLines(m, Parse(hunks, hunk, state), lines[i..]) == ParseLines(m, PARSE_START, lines)
    {
      var line := lines[i];
      assert lines[i..][0] == line && lines[i..][1..] == lines[i + 1..];
      match state {
        case InNormal =>
          if StartsWith(m.start, line) {
            if !hunk.Empty() { hunks := hunks + [hunk]; }
            state := InOurs;
            hunk := Conflict([], []);
          } else {
            hunk := Normal(hunk.lines + [line]);
          }
        case InOurs =>
          if StartsWith(m.separator, line) {
            state := InTheirs;
          } else {
            hunk := Conflict(hunk.ours + [line], hunk.theirs);
          }
        case InTheirs =>
          if StartsWith(m.end, line) {
            if !hunk.Empty() { hunks := hunks + [hunk]; }
            state := InNormal;
            hunk := Normal([]);
          } else {
            hunk := Conflict(hunk.ours, hunk.theirs + [line]);
          }
      }
    }
    if !hunk.Empty() {
      hunks := hunks + [hunk];
    }
  }

  // ----- printing -----

  function HunkLines(m: Markers, h: Hunk): seq<string> {
    match h
    case Normal(ls) => ls
    case Conflict(o, t) => [m.start] + o + [m.separator] + t + [m.end]
  }

  function PrintedLines(m: Markers, hs: seq<Hunk>): seq<string> {
    if hs == [] then [] else PrintedLines(m, hs[..|hs| - 1]) + HunkLines(m, hs[|hs| - 1])
  }

  method ConflictStringFromHunks(m: Markers, hs: seq<Hunk>) returns (s: string)
    ensures s == Join(PrintedLines(m, hs))
  {
    var lines := [];
    for i := 0 to |hs|
      invariant lines == PrintedLines(m, hs[..i])
    {
      assert hs[..i + 1][..i] == hs[..i];
      match hs[i] {
        case Normal(ls) =>
          lines := lines + ls;
        case Conflict(o, t) =>
          var before := lines;
          lines := lines + [m.start];
          lines := lines + o;
          lines := lines + [m.separator];
          lines := lines + t;
          lines := lines + [m.end];
          assert lines == before + ([m.start] + o + [m.separator] + t + [m.end]);
      }
    }
    assert hs[..|hs|] == hs;
    s := Join(lines);
  }

  predicate HasMarker(m: Markers, line: string) {
    StartsWith(m.start, line) || StartsWith(m.separator, line) || StartsWith(m.end, line)
  }

  predicate AnyMarker(m: Markers, lines: seq<string>) {
    exists i :: 0 <= i < |lines| && HasMarker(m, lines[i])
  }

  method ContainsConflictMarkers(m: Markers, s: string) returns (r: bool)
    ensures r == AnyMarker(m, Split(s))
  {
    var lines := Split(s);
    r := false;
    for i := 0 to |lines|
      invariant forall k :: 0 <= k < i ==> !HasMarker(m, lines[k])
    {
      if HasMarker(m, lines[i]) {
        return true;
      }
    }
  }

  // ----- the round trip -----

  predicate CleanLines(marker: string, lines: seq<string>) {
    forall i :: 0 <= i < |lines| ==> NoNewline(lines[i]) && !StartsWith(marker, lines[i])
  }

  /** No line of the hunk has a newline in it, or looks like the marker that is looked for at that point. */
  predicate CleanHunk(m: Markers, h: Hunk) {
    match h
    case Normal(ls) => CleanLines(m.start, ls)
    case Conflict(o, t) => CleanLines(m.separator, o) && CleanLines(m.end, t)
  }

  predicate CleanHunks(m: Markers, hs: seq<Hunk>) {
    forall i :: 0 <= i < |hs| ==> CleanHunk(m, hs[i])
  }

  predicate NoneEmpty(hs: seq<Hunk>) {
    forall i :: 0 <= i < |hs| ==> !hs[i].Empty()
  }

  predicate NormalsApart(hs: seq<Hunk>) {
    forall i :: 0 <= i < |hs| - 1 ==> !(hs[i].Normal? && hs[i + 1].Normal?)
  }

  /** The hunks that survive the round trip. */
  predicate Canonical(m: Markers, hs: seq<Hunk>) {
    hs != [] && CleanHunks(m, hs) && NoneEmpty(hs) && NormalsApart(hs)
  }

  predicate MarkersOnOneLine(m: Markers) {
    m.start != "" && NoNewline(m.start) && NoNewline(m.separator) && NoNewline(m.end)
  }

  lemma {:induction false} ParseConcat(m: Markers, p: Parse, a: seq<string>, b: seq<string>)
    requires Fits(p)
    ensures ParseLines(m, p, a + b) == ParseLines(m, ParseLines(m, p, a), b)
    decreases |a|
  {
    hide ParseLine, Fits;
    if a == [] {
      assert a + b == b;
    } else {
      assert (a + b)[0] == a[0] && (a + b)[1..] == a[1..] + b;
      ParseConcat(m, ParseLine(m, p, a[0]), a[1..], b);
    }
  }

  /** Lines that do not look like the marker that is looked for are added to the hunk. */
  function Added(p: Parse, lines: seq<string>): Parse
    requires Fits(p)
  {
    match p.state
    case InNormal => p.(hunk := Normal(p.hunk.lines + lines))
    case InOurs => p.(hunk := Conflict(p.hunk.ours + lines, p.hunk.theirs))
    case InTheirs => p.(hunk := Conflict(p.hunk.ours, p.hunk.theirs + lines))
  }

  function LookedFor(m: Markers, st: ParseState): string {
    match st case InNormal => m.start case InOurs => m.separator case InTheirs => m.end
  }

  lemma {:induction false} ParseClean(m: Markers, p: Parse, lines: seq<string>)
    requires Fits(p) && CleanLines(LookedFor(m, p.state), lines)
    ensures ParseLines(m, p, lines) == Added(p, lines)
    decreases |lines|
  {
    if lines == [] {
      assert Added(p, lines) == p;
    } else {
      var p' := ParseLine(m, p, lines[0]);
      assert p' == Added(p, [lines[0]]);
      CleanTail(LookedFor(m, p.state), lines);
      ParseClean(m, p', lines[1..]);
      assert [lines[0]] + lines[1..] == lines;
      AddedTwice(p, [lines[0]], lines[1..]);
    }
  }

  lemma AddedTwice(p: Parse, a: seq<string>, b: seq<string>)
    requires Fits(p)
    ensures Added(Added(p, a), b) == Added(p, a + b)
  {
    match p.state
    case InNormal => assert p.hunk.lines + a + b == p.hunk.lines + (a + b);
    case InOurs => assert p.hunk.ours + a + b == p.hunk.ours + (a + b);
    case InTheirs => assert p.hunk.theirs + a + b == p.hunk.theirs + (a + b);
  }

  lemma CleanTail(marker: string, lines: seq<string>)
    requires CleanLines(marker, lines) && lines != []
    ensures CleanLines(marker, lines[1..])
  {
  }

  /** What parsing makes of a printed hunk. */
  function Tidied(p: Parse, h: Hunk): Parse
    requires p.state.InNormal? && p.hunk.Normal?
  {
    match h
    case Normal(ls) => p.(hunk := Normal(p.hunk.lines + ls))
    case Conflict(_, _) => Parse(Pushed(Pushed(p.hunks, p.hunk), h), Normal([]), InNormal)
  }

  /** Markers that are written: they begin with those looked for, and a carriage return may follow. */
  predicate Extends(w: Markers, m: Markers) {
    StartsWith(m.start, w.start) && StartsWith(m.separator, w.separator) && StartsWith(m.end, w.end)
  }

  lemma ParseHunk(m: Markers, w: Markers, p: Parse, h: Hunk)
    requires p.state.InNormal? && p.hunk.Normal? && CleanHunk(m, h) && Extends(w, m)
    ensures ParseLines(m, p, HunkLines(w, h)) == Tidied(p, h)
  {
    hide ParseLines, CleanLines;
    match h
    case Normal(ls) => ParseClean(m, p, ls);
    case Conflict(o, t) =>
      var p1 := Parse(Pushed(p.hunks, p.hunk), Conflict([], []), InOurs);
      ParseClean(m, p1, o);
      var p2 := p1.(hunk := Conflict(o, []));
      var p3 := p2.(state := InTheirs);
      ParseClean(m, p3, t);
      var p4 := p3.(hunk := Conflict(o, t));
      ParseConflict(m, w, p, o, t);
      assert [] + o == o && [] + t == t;
  }

  /** The lines of a printed conflict, one part after the other. */
  lemma ParseConflict(m: Markers, w: Markers, p: Parse, o: seq<string>, t: seq<string>)
    requires Fits(p)
    ensures var p1 := ParseLines(m, ParseLine(m, p, w.start), o);
            var p2 := ParseLines(m, ParseLine(m, p1, w.separator), t);
            ParseLines(m, p, HunkLines(w, Conflict(o, t))) == ParseLine(m, p2, w.end)
  {
    hide ParseLine, ParseLines, Fits;
    ParseOne(m, p, w.start);
    ParseConcat(m, p, [w.start], o);
    ParseConcat(m, p, [w.start] + o, [w.separator]);
    ParseConcat(m, p, [w.start] + o + [w.separator], t);
    ParseConcat(m, p, [w.start] + o + [w.separator] + t, [w.end]);
    ParseOne(m, ParseLines(m, p, [w.start] + o), w.separator);
    ParseOne(m, ParseLines(m, p, [w.start] + o + [w.separator] + t), w.end);
  }

  lemma ParseOne(m: Markers, p: Parse, line: string)
    requires Fits(p)
    ensures ParseLines(m, p, [line]) == ParseLine(m, p, line)
  {
    assert [line][1..] == [];
  }

  /** What parsing makes of printed hunks: neighbouring normal hunks become one, and empty hunks are dropped. */
  function TidiedAll(hs: seq<Hunk>): (p: Parse)
    ensures p.state.InNormal? && p.hunk.Normal?
  {
    if hs == [] then PARSE_START else Tidied(TidiedAll(hs[..|hs| - 1]), hs[|hs| - 1])
  }

  lemma {:induction false} ParsePrinted(m: Markers, w: Markers, hs: seq<Hunk>)
    requires CleanHunks(m, hs) && Extends(w, m)
    ensures ParseLines(m, PARSE_START, PrintedLines(w, hs)) == TidiedAll(hs)
  {
    hide Extends;
    if hs != [] {
      var front, h := hs[..|hs| - 1], hs[|hs| - 1];
      ParsePrinted(m, w, front);
      ParseConcat(m, PARSE_START, PrintedLines(w, front), HunkLines(w, h));
      ParseHunk(m, w, TidiedAll(front), h);
    }
  }

  lemma TidyFront(hs: seq<Hunk>)
    requires NoneEmpty(hs) && NormalsApart(hs) && hs != []
    ensures var n := |hs| - 1;
            && NoneEmpty(hs[..n]) && NormalsApart(hs[..n]) && !hs[n].Empty() && hs == hs[..n] + [hs[n]]
            && (n > 0 ==>
                 && hs[..n][n - 1] == hs[n - 1] && hs[..n] == hs[..n][..n - 1] + [hs[n - 1]]
                 && !hs[n - 1].Empty())
            && (n > 0 ==> !(hs[n - 1].Normal? && hs[n].Normal?))
  {
    var n := |hs| - 1;
    assert n > 0 ==> !(hs[n - 1].Normal? && hs[n - 1 + 1].Normal?);
  }

  lemma {:induction false} TidyKeeps(hs: seq<Hunk>)
    requires NoneEmpty(hs) && NormalsApart(hs)
    ensures var p := TidiedAll(hs);
            if hs != [] && hs[|hs| - 1].Normal? then p.hunks == hs[..|hs| - 1] && p.hunk == hs[|hs| - 1]
            else p.hunks == hs && p.hunk == Normal([])
  {
    hide NoneEmpty, NormalsApart;
    if hs != [] {
      TidyFront(hs);
      TidyKeeps(hs[..|hs| - 1]);
      var h := hs[|hs| - 1];
      assert h.Normal? ==> Normal([] + h.lines) == h;
    }
  }

  lemma ApartFront(hs: seq<Hunk>, i: nat)
    requires hs != [] && NormalsApart(hs[..|hs| - 1]) && i + 2 < |hs|
    ensures !(hs[i].Normal? && hs[i + 1].Normal?)
  {
    var front := hs[..|hs| - 1];
    assert !(front[i].Normal? && front[i + 1].Normal?);
  }

  /** Where two normal hunks are neighbours, tidying leaves fewer hunks. */
  lemma {:induction false} TidyShrinks(hs: seq<Hunk>)
    requires NoneEmpty(hs)
    ensures var p := TidiedAll(hs); var n := |Pushed(p.hunks, p.hunk)|;
            && n <= |hs| && (!NormalsApart(hs) ==> n < |hs|)
            && (hs != [] && hs[|hs| - 1].Normal? ==> !p.hunk.Empty())
  {
    if hs != [] {
      var n := |hs| - 1;
      var front := hs[..n];
      TidyShrinks(front);
      if !NormalsApart(hs) && NormalsApart(front) {
        var i :| 0 <= i < n && hs[i].Normal? && hs[i + 1].Normal?;
        assert i == n - 1 by {
          if i < n - 1 { ApartFront(hs, i); }
        }
      }
    }
  }

  lemma {:induction false} PrintedNotEmpty(m: Markers, hs: seq<Hunk>)
    requires hs != [] && NoneEmpty(hs)
    ensures PrintedLines(m, hs) != []
  {
    assert !hs[|hs| - 1].Empty();
  }

  lemma LinesOnlyConcat(a: seq<string>, b: seq<string>)
    requires LinesOnly(a) && LinesOnly(b)
    ensures LinesOnly(a + b)
  {
  }

  predicate OnOneLine(h: Hunk) {
    LinesOnly(h.Lines(Ours)) && LinesOnly(h.Lines(Theirs))
  }

  predicate AllOnOneLine(hs: seq<Hunk>) {
    forall i :: 0 <= i < |hs| ==> OnOneLine(hs[i])
  }

  lemma CleanOnOneLine(m: Markers, hs: seq<Hunk>)
    requires CleanHunks(m, hs)
    ensures AllOnOneLine(hs)
  {
    hide NoNewline;
  }

  lemma HunkLinesOnly(w: Markers, h: Hunk)
    requires OnOneLine(h) && MarkersOnOneLine(w)
    ensures LinesOnly(HunkLines(w, h))
  {
    hide NoNewline;
    match h
    case Normal(ls) =>
    case Conflict(o, t) =>
      assert o == h.Lines(Ours) && t == h.Lines(Theirs);
      LinesOnlyConcat([w.start], o);
      LinesOnlyConcat([w.start] + o, [w.separator]);
      LinesOnlyConcat([w.start] + o + [w.separator], t);
      LinesOnlyConcat([w.start] + o + [w.separator] + t, [w.end]);
  }

  lemma {:induction false} PrintedLinesOnly(w: Markers, hs: seq<Hunk>)
    requires AllOnOneLine(hs) && MarkersOnOneLine(w)
    ensures LinesOnly(PrintedLines(w, hs))
  {
    hide OnOneLine, HunkLines, MarkersOnOneLine;
    if hs != [] {
      PrintedLinesOnly(w, hs[..|hs| - 1]);
      HunkLinesOnly(w, hs[|hs| - 1]);
      LinesOnlyConcat(PrintedLines(w, hs[..|hs| - 1]), HunkLines(w, hs[|hs| - 1]));
    }
  }

  /** What parsing yields is never an empty hunk, and never a line with a newline or with the marker looked for. */
  lemma {:induction false} ParsedClean(m: Markers, p: Parse, lines: seq<string>)
    requires Fits(p) && CleanHunks(m, p.hunks) && CleanHunk(m, p.hunk) && NoneEmpty(p.hunks) && LinesOnly(lines)
    ensures var p' := ParseLines(m, p, lines); CleanHunks(m, p'.hunks) && CleanHunk(m, p'.hunk) && NoneEmpty(p'.hunks)
    decreases |lines|
  {
    if lines != [] {
      ParsedClean(m, ParseLine(m, p, lines[0]), lines[1..]);
    }
  }

  /** Printing hunks and parsing the text gives the same hunks back exactly when they are canonical. */
  lemma RoundTrip(m: Markers, hs: seq<Hunk>)
    requires MarkersOnOneLine(m)
    ensures Hunks(m, Split(Join(PrintedLines(m, hs)))) == hs <==> Canonical(m, hs)
  {
    hide ParseLines, CleanHunk, NoneEmpty, NormalsApart, LinesOnly;
    var text := Join(PrintedLines(m, hs));
    SplitLines(text);
    StartIsClean(m);
    ParsedClean(m, PARSE_START, Split(text));
    var p := ParseLines(m, PARSE_START, Split(text));
    PushedClean(m, p);
    if hs == [] {
      EmptyText(m);
    } else if CleanHunks(m, hs) && NoneEmpty(hs) {
      PrintedNotEmpty(m, hs);
      CleanOnOneLine(m, hs);
      PrintedLinesOnly(m, hs);
      SplitJoin(PrintedLines(m, hs));
      ParsePrinted(m, m, hs);
      TidyShrinks(hs);
      if NormalsApart(hs) {
        TidyKeeps(hs);
        TidyAgain(hs);
      }
    }
  }

  lemma StartIsClean(m: Markers)
    ensures Fits(PARSE_START) && CleanHunks(m, []) && CleanHunk(m, Normal([])) && NoneEmpty([])
  {
  }

  lemma PushedClean(m: Markers, p: Parse)
    requires CleanHunks(m, p.hunks) && CleanHunk(m, p.hunk) && NoneEmpty(p.hunks)
    ensures CleanHunks(m, Pushed(p.hunks, p.hunk)) && NoneEmpty(Pushed(p.hunks, p.hunk))
  {
  }

  lemma TidyAgain(hs: seq<Hunk>)
    requires hs != [] && NoneEmpty(hs)
    ensures hs == hs[..|hs| - 1] + [hs[|hs| - 1]] && !hs[|hs| - 1].Empty()
  {
  }

  lemma EmptyText(m: Markers)
    requires m.start != ""
    ensures Hunks(m, Split(Join(PrintedLines(m, [])))) != []
  {
    assert Split("") == [""];
    ParseOne(m, PARSE_START, "");
  }

  /** A text in which no line begins a conflict parses to one normal hunk, which prints as that text. */
  lemma PlainText(m: Markers, s: string)
    requires forall i :: 0 <= i < |Split(s)| ==> !StartsWith(m.start, Split(s)[i])
    ensures Hunks(m, Split(s)) == [Normal(Split(s))] && Join(PrintedLines(m, Hunks(m, Split(s)))) == s
  {
    SplitLines(s);
    ParseClean(m, PARSE_START, Split(s));
    JoinSplit(s);
    assert [] + Split(s) == Split(s);
    var hs := [Normal(Split(s))];
    assert hs[..0] == [];
    assert PrintedLines(m, hs) == [] + Split(s);
  }

  /** One of our lines that looks like the separator does not survive, whatever else the markers are. */
  lemma SeparatorDoesNotSurvive(m: Markers, line: string)
    requires MarkersOnOneLine(m) && StartsWith(m.separator, line)
    ensures var hs := [Conflict([line], [])]; Hunks(m, Split(Join(PrintedLines(m, hs)))) != hs
  {
    hide Hunks, Split, Join, PrintedLines;
    var hs := [Conflict([line], [])];
    RoundTrip(m, hs);
    assert StartsWith(m.separator, hs[0].ours[0]);
    assert !CleanHunk(m, hs[0]);
  }

  lemma MergeMarkersOnOneLine()
    ensures MarkersOnOneLine(MERGE_MARKERS)
  {
    ShortNames();
    var m := MERGE_MARKERS;
    assert m.start == "<<<<<<< " + PRODUCT_ID && m.end == ">>>>>>> " + PRODUCT_ID;
    assert NoNewline(m.start) && NoNewline(m.end);
  }

  lemma ShortNames()
    ensures NoNewline("<<<<<<< ") && NoNewline("=======") && NoNewline(">>>>>>> ") && NoNewline(PRODUCT_ID)
  {
  }

  lemma TitleDoesNotSurvive()
    ensures var hs := [Conflict(["======= Title"], [])];
            Hunks(MERGE_MARKERS, Split(Join(PrintedLines(MERGE_MARKERS, hs)))) != hs
  {
    hide Hunks, Split, Join, PrintedLines, MarkersOnOneLine;
    MergeMarkersOnOneLine();
    SeparatorDoesNotSurvive(MERGE_MARKERS, "======= Title");
  }

  // ----- resolving -----

  function AllLines(hs: seq<Hunk>, side: Side): seq<string> {
    if hs == [] then [] else AllLines(hs[..|hs| - 1], side) + hs[|hs| - 1].Lines(side)
  }

  /** The content of one side; None when there is no file on that side. */
  method Content(c: FileConflict, side: Side) returns (content: Option<string>)
    ensures content == if c.NoFile(side) then None else Some(Join(AllLines(c.hunks, side)))
  {
    if c.NoFile(side) {
      return None;
    }
    var lines := [];
    for i := 0 to |c.hunks|
      invariant lines == AllLines(c.hunks[..i], side)
    {
      assert c.hunks[..i + 1][..i] == c.hunks[..i];
      lines := lines + c.hunks[i].Lines(side);
    }
    assert c.hunks[..|c.hunks|] == c.hunks;
    return Some(Join(lines));
  }

  /** One run of the editor: what the user leaves in it, and whether to go on editing if that is not acceptable. */
  datatype EditorRun = EditorRun(text: string, goOn: bool)

  datatype Answer = ChooseSide(side: Side) | OpenInEditor(runs: seq<EditorRun>) | Cancel

  datatype Outcome = Done(content: Option<string>) | Canceled | Waiting

  /** A submodule's content is the hash of a commit it has. */
  predicate Acceptable(c: FileConflict, isCommit: string -> bool, text: string) {
    !AnyMarker(BARE_MARKERS, Split(text)) && (c.kind.Submodule? ==> isCommit(Trim(text)))
  }

  /** The first acceptable text, unless the user gives up before. */
  function Edited(c: FileConflict, isCommit: string -> bool, runs: seq<EditorRun>): Outcome {
    if runs == [] then Waiting
    else if Acceptable(c, isCommit, runs[0].text) then
      Done(Some(if c.kind.Submodule? then Trim(runs[0].text) else runs[0].text))
    else if runs[0].goOn then Edited(c, isCommit, runs[1..])
    else Canceled
  }

  method ResolveInEditor(c: FileConflict, isCommit: string -> bool, runs: seq<EditorRun>) returns (outcome: Outcome)
    ensures outcome == Edited(c, isCommit, runs)
  {
    var i := 0;
    while i < |runs|
      invariant i <= |runs| && Edited(c, isCommit, runs[i..]) == Edited(c, isCommit, runs)
    {
      var text := runs[i].text;
      assert runs[i..][0] == runs[i] && runs[i..][1..] == runs[i + 1..];
      var hasMarkers := ContainsConflictMarkers(BARE_MARKERS, text);
      if hasMarkers {
        if !runs[i].goOn {
          return Canceled;
        }
        i := i + 1;
        continue;
      }
      if c.kind.Submodule? {
        text := Trim(text);
        if !isCommit(text) {
          if !runs[i].goOn {
            return Canceled;
          }
          i := i + 1;
          continue;
        }
      }
      return Done(Some(text));
    }
    assert runs[i..] == [];
    return Waiting;
  }

  /** What the panel makes of the hunks from `k` on, with the lines chosen so far and the answers still to come. */
  function Resolved(c: FileConflict, isCommit: string -> bool, k: nat, lines: seq<string>,
      answers: seq<Answer>): Outcome
    requires k <= |c.hunks|
    decreases |c.hunks| - k, |answers|
  {
    if k == |c.hunks| then Done(if lines == [] then None else Some(Join(lines)))
    else match c.hunks[k]
      case Normal(ls) => Resolved(c, isCommit, k + 1, lines + ls, answers)
      case Conflict(_, _) =>
        if answers == [] then Waiting else
          match answers[0]
          case ChooseSide(side) => Resolved(c, isCommit, k + 1, lines + c.hunks[k].Lines(side), answers[1..])
          case Cancel => Canceled
          case OpenInEditor(runs) =>
            match Edited(c, isCommit, runs)
            case Done(content) => Done(if content == Some("")
                && (c.NoFile(Ours) || c.NoFile(Theirs)) then None else content)
            case Canceled => Resolved(c, isCommit, k, lines, answers[1..])
            case Waiting => Waiting
  }

  // ----- which texts are accepted -----

  /** A text is accepted exactly when no line of it begins with a marker and, for a submodule, what it says between
      spaces is the hash of a commit. */
  lemma AcceptableIs(c: FileConflict, isCommit: string -> bool, text: string)
    ensures Acceptable(c, isCommit, text) <==>
            && (forall line :: line in Split(text) ==>
                 !("<<<<<<<" <= line) && !("=======" <= line) && !(">>>>>>>" <= line))
            && (c.kind == Submodule ==> isCommit(Trim(text)))
  {
    hide Split, Trim;
    forall line ensures HasMarker(BARE_MARKERS, line) <==>
        "<<<<<<<" <= line || "=======" <= line || ">>>>>>>" <= line {
    }
    assert AnyMarker(BARE_MARKERS, Split(text)) <==>
           exists line :: line in Split(text) && HasMarker(BARE_MARKERS, line);
  }

  /** A text that still shows a conflict is not accepted, so leaving the text in the editor as it is is not enough. */
  lemma UneditedIsNotAcceptable(c: FileConflict, isCommit: string -> bool, hs: seq<Hunk>, i: nat)
    requires AllOnOneLine(hs) && i < |hs| && hs[i].Conflict?
    ensures !Acceptable(c, isCommit, Join(PrintedLines(BARE_MARKERS, hs)))
  {
    hide Split, Join, PrintedLines, AllOnOneLine, Trim;
    var lines := PrintedLines(BARE_MARKERS, hs);
    PrintedMarker(BARE_MARKERS, hs, i);
    assert MarkersOnOneLine(BARE_MARKERS) by { BareMarkersOnOneLine(); }
    PrintedLinesOnly(BARE_MARKERS, hs);
    SplitJoin(lines);
    AcceptableIs(c, isCommit, Join(lines));
  }

  lemma BareMarkersOnOneLine()
    ensures MarkersOnOneLine(BARE_MARKERS)
  {
    assert NoNewline("<<<<<<<") && NoNewline("=======") && NoNewline(">>>>>>>");
  }

  lemma {:induction false} PrintedMarker(m: Markers, hs: seq<Hunk>, i: nat)
    requires i < |hs| && hs[i].Conflict?
    ensures m.start in PrintedLines(m, hs)
  {
    var front, h := hs[..|hs| - 1], hs[|hs| - 1];
    if i < |hs| - 1 {
      PrintedMarker(m, front, i);
    } else {
      assert HunkLines(m, h)[0] == m.start;
    }
  }

  // ----- what the panel comes to, told by the answers -----

  /** The sides that are chosen, in order. */
  function Choices(answers: seq<Answer>): seq<Side> {
    if answers == [] then []
    else (if answers[0].ChooseSide? then [answers[0].side] else []) + Choices(answers[1..])
  }

  function ConflictCount(hs: seq<Hunk>): nat {
    if hs == [] then 0 else (if hs[0].Conflict? then 1 else 0) + ConflictCount(hs[1..])
  }

  /** The common lines, and of the conflicts, one after the other, the lines of the side that was chosen for it. */
  function ChosenLines(hs: seq<Hunk>, sides: seq<Side>): seq<string>
    requires ConflictCount(hs) <= |sides|
  {
    if hs == [] then []
    else match hs[0]
      case Normal(ls) => ls + ChosenLines(hs[1..], sides)
      case Conflict(o, t) => (if sides[0] == Ours then o else t) + ChosenLines(hs[1..], sides[1..])
  }

  /** None of the first `n` texts is acceptable. */
  predicate NoneAcceptable(c: FileConflict, isCommit: string -> bool, runs: seq<EditorRun>, n: nat)
    requires n <= |runs|
  {
    forall k :: 0 <= k < n ==> !Acceptable(c, isCommit, runs[k].text)
  }

  /** Run `i` leaves the first acceptable text, and the user goes on up to there. */
  predicate Accepts(c: FileConflict, isCommit: string -> bool, runs: seq<EditorRun>, i: nat) {
    && i < |runs| && NoneAcceptable(c, isCommit, runs, i) && Acceptable(c, isCommit, runs[i].text)
    && forall k :: 0 <= k < i ==> runs[k].goOn
  }

  /** The user gives up at run `i`, with no acceptable text so far. */
  predicate GivesUp(c: FileConflict, isCommit: string -> bool, runs: seq<EditorRun>, i: nat) {
    && i < |runs| && NoneAcceptable(c, isCommit, runs, i + 1) && !runs[i].goOn
    && forall k :: 0 <= k < i ==> runs[k].goOn
  }

  /** No text is acceptable so far, and the user has not given up. */
  predicate KeepsEditing(c: FileConflict, isCommit: string -> bool, runs: seq<EditorRun>) {
    NoneAcceptable(c, isCommit, runs, |runs|) && forall k :: 0 <= k < |runs| ==> runs[k].goOn
  }

  /** The answer chooses a side, or comes to nothing. */
  ghost predicate Passes(c: FileConflict, isCommit: string -> bool, a: Answer) {
    a.ChooseSide? || (a.OpenInEditor? && exists i: nat :: GivesUp(c, isCommit, a.runs, i))
  }

  ghost predicate AllPass(c: FileConflict, isCommit: string -> bool, answers: seq<Answer>) {
    forall j :: 0 <= j < |answers| ==> Passes(c, isCommit, answers[j])
  }

  /** The content an accepted text stands for. */
  function AcceptedContent(c: FileConflict, text: string): Option<string> {
    var content := if c.kind.Submodule? then Trim(text) else text;
    if content == "" && (c.NoFile(Ours) || c.NoFile(Theirs)) then None else Some(content)
  }

  /** What the panel comes to by the answers, where only choices and abandoned edits come before answer `j`: with a
      conflict still open, it waits for the answer, is canceled by it, or takes the accepted text whatever was chosen
      before; with a side chosen for each conflict, it is the lines of those sides. */
  ghost predicate AnsweredAt(c: FileConflict, isCommit: string -> bool, answers: seq<Answer>, j: nat, outcome: Outcome)
    requires j <= |answers|
  {
    AllPass(c, isCommit, answers[..j]) ==>
      if |Choices(answers[..j])| < ConflictCount(c.hunks) then
        && (j == |answers| ==> outcome == Waiting)
        && (j < |answers| ==>
             match answers[j]
             case ChooseSide(_) => true
             case Cancel => outcome == Canceled
             case OpenInEditor(runs) =>
               && (forall i: nat :: Accepts(c, isCommit, runs, i) ==> outcome == Done(AcceptedContent(c, runs[i].text)))
               && (KeepsEditing(c, isCommit, runs) ==> outcome == Waiting))
      else
        var lines := ChosenLines(c.hunks, Choices(answers[..j]));
        outcome == Done(if lines == [] then None else Some(Join(lines)))
  }

  lemma {:induction false} EditedAccepts(c: FileConflict, isCommit: string -> bool, runs: seq<EditorRun>, i: nat)
    requires Accepts(c, isCommit, runs, i)
    ensures Edited(c, isCommit, runs) == Done(Some(if c.kind.Submodule? then Trim(runs[i].text) else runs[i].text))
    decreases i
  {
    hide Acceptable, Trim;
    if i > 0 {
      assert forall k :: 0 <= k < |runs| - 1 ==> runs[1..][k] == runs[k + 1];
      assert !Acceptable(c, isCommit, runs[0].text) && runs[0].goOn;
      EditedAccepts(c, isCommit, runs[1..], i - 1);
    }
  }

  lemma {:induction false} EditedGivesUp(c: FileConflict, isCommit: string -> bool, runs: seq<EditorRun>, i: nat)
    requires GivesUp(c, isCommit, runs, i)
    ensures Edited(c, isCommit, runs) == Canceled
    decreases i
  {
    hide Acceptable, Trim;
    assert !Acceptable(c, isCommit, runs[0].text);
    if i > 0 {
      assert forall k :: 0 <= k < |runs| - 1 ==> runs[1..][k] == runs[k + 1];
      EditedGivesUp(c, isCommit, runs[1..], i - 1);
    }
  }

  lemma {:induction false} EditedWaits(c: FileConflict, isCommit: string -> bool, runs: seq<EditorRun>)
    requires KeepsEditing(c, isCommit, runs)
    ensures Edited(c, isCommit, runs) == Waiting
    decreases |runs|
  {
    hide Acceptable, Trim;
    if runs != [] {
      assert forall k :: 0 <= k < |runs| - 1 ==> runs[1..][k] == runs[k + 1];
      EditedWaits(c, isCommit, runs[1..]);
    }
  }

  /** An abandoned edit leaves the panel where it is. */
  lemma StaysThere(c: FileConflict, isCommit: string -> bool, k: nat, lines: seq<string>, answers: seq<Answer>)
    requires k < |c.hunks| && c.hunks[k].Conflict? && answers != []
    requires answers[0].OpenInEditor? && exists i: nat :: GivesUp(c, isCommit, answers[0].runs, i)
    ensures Resolved(c, isCommit, k, lines, answers) == Resolved(c, isCommit, k, lines, answers[1..])
  {
    hide Edited, GivesUp;
    var i :| GivesUp(c, isCommit, answers[0].runs, i);
    EditedGivesUp(c, isCommit, answers[0].runs, i);
  }

  lemma PassTail(c: FileConflict, isCommit: string -> bool, answers: seq<Answer>, j: nat)
    requires 0 < j <= |answers| && AllPass(c, isCommit, answers[..j])
    ensures Passes(c, isCommit, answers[0]) && AllPass(c, isCommit, answers[1..][..j - 1])
    ensures answers[1..][..j - 1] == answers[..j][1..] && answers[..j][0] == answers[0]
    ensures answers[1..][j - 1..] == answers[j..]
  {
    hide Passes;
    assert answers[..j][0] == answers[0];
    var tail := answers[1..][..j - 1];
    forall i | 0 <= i < |tail| ensures Passes(c, isCommit, tail[i]) {
      assert answers[..j][i + 1] == tail[i];
    }
  }

  /** With a conflict still open, the panel comes to the answer. */
  lemma {:induction false} ComesTo(c: FileConflict, isCommit: string -> bool, k: nat, lines: seq<string>,
      answers: seq<Answer>, j: nat) returns (k': nat, lines': seq<string>)
    requires k <= |c.hunks| && j <= |answers| && AllPass(c, isCommit, answers[..j])
    requires |Choices(answers[..j])| < ConflictCount(c.hunks[k..])
    ensures k' < |c.hunks| && c.hunks[k'].Conflict?
    ensures Resolved(c, isCommit, k, lines, answers) == Resolved(c, isCommit, k', lines', answers[j..])
    decreases |c.hunks| - k, j
  {
    hide Passes, Edited, AllPass;
    assert c.hunks[k..][1..] == c.hunks[k + 1..];
    if c.hunks[k].Normal? {
      k', lines' := ComesTo(c, isCommit, k + 1, lines + c.hunks[k].lines, answers, j);
    } else if j == 0 {
      k', lines' := k, lines;
      assert answers[0..] == answers;
    } else {
      PassTail(c, isCommit, answers, j);
      if answers[0].ChooseSide? {
        k', lines' := ComesTo(c, isCommit, k + 1, lines + c.hunks[k].Lines(answers[0].side), answers[1..], j - 1);
      } else {
        PassesEditor(c, isCommit, answers[0]);
        StaysThere(c, isCommit, k, lines, answers);
        k', lines' := ComesTo(c, isCommit, k, lines, answers[1..], j - 1);
      }
    }
  }

  lemma PassesEditor(c: FileConflict, isCommit: string -> bool, a: Answer)
    requires Passes(c, isCommit, a) && !a.ChooseSide?
    ensures a.OpenInEditor? && exists i: nat :: GivesUp(c, isCommit, a.runs, i)
  {
  }

  lemma NothingChosenYet(answers: seq<Answer>)
    ensures Choices(answers[..0]) == []
  {
  }

  lemma NoHunksLeft(sides: seq<Side>)
    ensures ChosenLines([], sides) == []
  {
  }

  lemma ChosenNext(hs: seq<Hunk>, side: Side, sides: seq<Side>, lines: seq<string>)
    requires hs != [] && hs[0].Conflict? && ConflictCount(hs) <= 1 + |sides|
    ensures ConflictCount(hs[1..]) <= |sides|
    ensures lines + ChosenLines(hs, [side] + sides) == lines + hs[0].Lines(side) + ChosenLines(hs[1..], sides)
  {
    ChosenFirst(hs, side, sides);
    hide ChosenLines, ConflictCount;
  }

  lemma ChosenFirst(hs: seq<Hunk>, side: Side, sides: seq<Side>)
    requires hs != [] && hs[0].Conflict? && ConflictCount(hs) <= 1 + |sides|
    ensures ConflictCount(hs[1..]) <= |sides|
    ensures ChosenLines(hs, [side] + sides) == hs[0].Lines(side) + ChosenLines(hs[1..], sides)
  {
    assert ([side] + sides)[1..] == sides;
  }

  lemma CommonNext(hs: seq<Hunk>, sides: seq<Side>, lines: seq<string>)
    requires hs != [] && hs[0].Normal? && ConflictCount(hs) <= |sides|
    ensures ConflictCount(hs[1..]) <= |sides|
    ensures lines + ChosenLines(hs, sides) == lines + hs[0].lines + ChosenLines(hs[1..], sides)
  {
  }

  /** The choices of answers that pass, told from the first one. */
  lemma FirstChoice(answers: seq<Answer>)
    requires answers != []
    ensures Choices(answers)
            == if answers[0].ChooseSide? then [answers[0].side] + Choices(answers[1..]) else Choices(answers[1..])
  {
  }

  /** With a side chosen for each conflict, the panel comes to the end. */
  lemma {:induction false} ComesToEnd(c: FileConflict, isCommit: string -> bool, k: nat, lines: seq<string>,
      answers: seq<Answer>, j: nat)
    requires k <= |c.hunks| && j <= |answers| && AllPass(c, isCommit, answers[..j])
    requires |Choices(answers[..j])| >= ConflictCount(c.hunks[k..])
    ensures var all := lines + ChosenLines(c.hunks[k..], Choices(answers[..j]));
            Resolved(c, isCommit, k, lines, answers) == Done(if all == [] then None else Some(Join(all)))
    decreases |c.hunks| - k, j
  {
    hide Passes, Edited, AllPass, Join, ChosenLines, Choices;
    if k == |c.hunks| {
      assert c.hunks[k..] == [] && lines + [] == lines;
      NoHunksLeft(Choices(answers[..j]));
    } else {
      assert c.hunks[k..][1..] == c.hunks[k + 1..];
      if c.hunks[k].Normal? {
        ComesToEnd(c, isCommit, k + 1, lines + c.hunks[k].lines, answers, j);
        CommonNext(c.hunks[k..], Choices(answers[..j]), lines);
      } else {
        NothingChosenYet(answers);
        PassTail(c, isCommit, answers, j);
        FirstChoice(answers[..j]);
        if answers[0].ChooseSide? {
          var rest := Choices(answers[1..][..j - 1]);
          ChosenNext(c.hunks[k..], answers[0].side, rest, lines);
          ComesToEnd(c, isCommit, k + 1, lines + c.hunks[k].Lines(answers[0].side), answers[1..], j - 1);
        } else {
          PassesEditor(c, isCommit, answers[0]);
          StaysThere(c, isCommit, k, lines, answers);
          ComesToEnd(c, isCommit, k, lines, answers[1..], j - 1);
        }
      }
    }
  }

  /** The answer the panel has come to decides. */
  lemma Decides(c: FileConflict, isCommit: string -> bool, k: nat, lines: seq<string>, rest: seq<Answer>)
    requires k < |c.hunks| && c.hunks[k].Conflict?
    ensures var outcome := Resolved(c, isCommit, k, lines, rest);
            && (rest == [] ==> outcome == Waiting)
            && (rest != [] && rest[0].Cancel? ==> outcome == Canceled)
            && (rest != [] && rest[0].OpenInEditor? ==>
                 && (forall i: nat :: Accepts(c, isCommit, rest[0].runs, i) ==>
                       outcome == Done(AcceptedContent(c, rest[0].runs[i].text)))
                 && (KeepsEditing(c, isCommit, rest[0].runs) ==> outcome == Waiting))
  {
    hide Edited, Accepts, KeepsEditing, Trim;
    if rest != [] && rest[0].OpenInEditor? {
      var runs := rest[0].runs;
      forall i: nat | Accepts(c, isCommit, runs, i)
        ensures i < |runs| && Edited(c, isCommit, runs)
                == Done(Some(if c.kind.Submodule? then Trim(runs[i].text) else runs[i].text))
      {
        AcceptsIn(c, isCommit, runs, i);
        EditedAccepts(c, isCommit, runs, i);
      }
      if KeepsEditing(c, isCommit, runs) {
        EditedWaits(c, isCommit, runs);
      }
    }
  }

  lemma AcceptsIn(c: FileConflict, isCommit: string -> bool, runs: seq<EditorRun>, i: nat)
    requires Accepts(c, isCommit, runs, i)
    ensures i < |runs|
  {
  }

  lemma {:induction false} ResolvedIsAnswered(c: FileConflict, isCommit: string -> bool, answers: seq<Answer>, j: nat)
    requires j <= |answers|
    ensures AnsweredAt(c, isCommit, answers, j, Resolved(c, isCommit, 0, [], answers))
  {
    hide AllPass, Accepts, KeepsEditing, Resolved, Join;
    assert c.hunks[0..] == c.hunks;
    if AllPass(c, isCommit, answers[..j]) {
      if |Choices(answers[..j])| < ConflictCount(c.hunks) {
        var k, lines := ComesTo(c, isCommit, 0, [], answers, j);
        Decides(c, isCommit, k, lines, answers[j..]);
        assert j < |answers| ==> answers[j..][0] == answers[j];
      } else {
        ComesToEnd(c, isCommit, 0, [], answers, j);
        assert [] + ChosenLines(c.hunks, Choices(answers[..j])) == ChosenLines(c.hunks, Choices(answers[..j]));
      }
    }
  }

  method RunConflictPanel(c: FileConflict, isCommit: string -> bool, answers: seq<Answer>) returns (outcome: Outcome)
    ensures outcome == Resolved(c, isCommit, 0, [], answers)
    ensures forall j :: 0 <= j <= |answers| ==> AnsweredAt(c, isCommit, answers, j, outcome)
  {
    forall j | 0 <= j <= |answers| ensures AnsweredAt(c, isCommit, answers, j, Resolved(c, isCommit, 0, [], answers)) {
      ResolvedIsAnswered(c, isCommit, answers, j);
    }
    hide AnsweredAt;
    var lines, i, a := [], 0, 0;
    while i < |c.hunks|
      invariant i <= |c.hunks| && a <= |answers|
      invariant Resolved(c, isCommit, i, lines, answers[a..]) == Resolved(c, isCommit, 0, [], answers)
      decreases |c.hunks| - i, |answers| - a
    {
      var hunk := c.hunks[i];
      if hunk.Normal? {
        lines := lines + hunk.lines;
        i := i + 1;
        continue;
      }
      if a == |answers| {
        return Waiting;
      }
      var answer := answers[a];
      assert answers[a..][0] == answer && answers[a..][1..] == answers[a + 1..];
      a := a + 1;
      match answer {
        case ChooseSide(side) =>
          lines := lines + hunk.Lines(side);
          i := i + 1;
        case Cancel =>
          return Canceled;
        case OpenInEditor(runs) =>
          var edited := ResolveInEditor(c, isCommit, runs);
          if edited.Done? {
            if edited.content == Some("") && (c.NoFile(Ours) || c.NoFile(Theirs)) {
              return Done(None);
            }
            return edited;
          } else if edited.Waiting? {
            return Waiting;
          }
      }
    }
    if |lines| == 0 {
      return Done(None);
    }
    return Done(Some(Join(lines)));
  }

  lemma {:induction false} ChosenSide(c: FileConflict, isCommit: string -> bool, side: Side, k: nat,
      answers: seq<Answer>)
    requires k <= |c.hunks| <= k + |answers| && forall i :: 0 <= i < |answers| ==> answers[i] == ChooseSide(side)
    ensures var lines := AllLines(c.hunks, side);
            Resolved(c, isCommit, k, AllLines(c.hunks[..k], side), answers)
                == Done(if lines == [] then None else Some(Join(lines)))
    decreases |c.hunks| - k
  {
    if k == |c.hunks| {
      assert c.hunks[..k] == c.hunks;
    } else {
      assert c.hunks[..k + 1][..k] == c.hunks[..k];
      ChosenSide(c, isCommit, side, k + 1, if c.hunks[k].Normal? then answers else answers[1..]);
    }
  }

  /** Answering every conflict with the same side gives that side's content, exactly when that side has lines or its
      file does not exist: otherwise it is taken for a file that does not exist. */
  lemma {:induction false} OneSide(c: FileConflict, isCommit: string -> bool, side: Side, answers: seq<Answer>)
    requires |answers| >= |c.hunks| && forall i :: 0 <= i < |answers| ==> answers[i] == ChooseSide(side)
    ensures Resolved(c, isCommit, 0, [], answers)
            == Done(if c.NoFile(side) then None else Some(Join(AllLines(c.hunks, side))))
            <==> AllLines(c.hunks, side) != [] || c.NoFile(side)
  {
    ChosenSide(c, isCommit, side, 0, answers);
    assert c.hunks[..0] == [];
    if c.NoFile(side) {
      assert c.hunks[..|c.hunks| - 1] == [];
    }
  }

  /** A text from the editor is the first acceptable one: it has no marker in it, and a submodule's is the hash of
      a commit. */
  lemma {:induction false} EditedIsAcceptable(c: FileConflict, isCommit: string -> bool,
      runs: seq<EditorRun>) returns (i: nat)
    requires Edited(c, isCommit, runs).Done?
    ensures i < |runs| && Acceptable(c, isCommit, runs[i].text)
    ensures Edited(c, isCommit, runs).content == Some(if c.kind.Submodule? then Trim(runs[i].text) else runs[i].text)
    ensures forall k :: 0 <= k < i ==> !Acceptable(c, isCommit, runs[k].text) && runs[k].goOn
  {
    hide Acceptable, Trim;
    if Acceptable(c, isCommit, runs[0].text) {
      i := 0;
    } else {
      i := EditedIsAcceptable(c, isCommit, runs[1..]);
      assert forall k :: 0 <= k < i + 1 ==> k == 0 || runs[k] == runs[1..][k - 1];
      i := i + 1;
    }
  }

  // ----- choosing a side -----

  /** What the index has of a path on one side. */
  datatype Entry = NoEntry | FileEntry(content: string) | SubmoduleEntry(id: string) | OtherEntry

  /** Two files in conflict: what merging them wrote, parsed. */
  function MergedConflict(merged: string): FileConflict {
    FileConflict(File, Hunks(MERGE_MARKERS, Split(merged)))
  }

  /** The conflict of a path; None when it is of a kind that is not supported. `merged` is what merging the files on the
      two sides wrote. */
  function ConflictOf(ours: Entry, theirs: Entry, merged: string): Option<FileConflict> {
    match (ours, theirs)
    case (FileEntry(_), FileEntry(_)) => Some(MergedConflict(merged))
    case (SubmoduleEntry(o), SubmoduleEntry(t)) => Some(FileConflict(Submodule, [Conflict([o], [t])]))
    case (FileEntry(o), NoEntry) => Some(FileConflict(File, [Conflict(Split(o), [])]))
    case (NoEntry, FileEntry(t)) => Some(FileConflict(File, [Conflict([], Split(t))]))
    case _ => None
  }

  /** The text ends outside every conflict, and not with a marker. */
  predicate EndsOutside(m: Markers, text: string) {
    var p := ParseLines(m, PARSE_START, Split(text));
    p.state.InNormal? && p.hunk != Normal([])
  }

  /** Where only one side has the file, the other side is the one without a file; a commit is never taken for one; and
      of two files, only a merged text that is nothing but one conflict, with no line on that side, is. */
  lemma NoFileIs(ours: Entry, theirs: Entry, merged: string, side: Side)
    requires ConflictOf(ours, theirs, merged).Some?
    ensures ConflictOf(ours, theirs, merged).value.NoFile(side) <==>
            || (if side == Ours then ours.NoEntry? else theirs.NoEntry?)
            || (ours.FileEntry? && theirs.FileEntry?
                && exists o, t :: Hunks(MERGE_MARKERS, Split(merged)) == [Conflict(o, t)]
                                  && (if side == Ours then o else t) == [])
  {
    hide Hunks, Split;
    if ours.FileEntry? && theirs.NoEntry? { SplitSomething(ours.content); }
    if theirs.FileEntry? && ours.NoEntry? { SplitSomething(theirs.content); }
    if ours.FileEntry? && theirs.FileEntry? {
      var hs := Hunks(MERGE_MARKERS, Split(merged));
      assert |hs| == 1 && hs[0].Conflict? ==> hs == [Conflict(hs[0].ours, hs[0].theirs)];
    }
  }

  lemma SplitSomething(s: string)
    ensures Split(s) != []
  {
  }

  /** What is left of a conflict when the same side is chosen everywhere. */
  function Chosen(ours: Entry, theirs: Entry, merged: string, side: Side): Option<string> {
    match if side.Ours? then ours else theirs
    case NoEntry => None
    case FileEntry(content) =>
      Some(if ours.FileEntry? && theirs.FileEntry? then Join(AllLines(Hunks(MERGE_MARKERS, Split(merged)), side))
           else content)
    case SubmoduleEntry(id) => Some(id)
    case OtherEntry => None
  }

  lemma OneHunk(h: Hunk, side: Side)
    ensures AllLines([h], side) == h.Lines(side)
  {
    assert [h][..0] == [];
  }

  lemma OutsideHasLines(m: Markers, text: string, side: Side)
    requires EndsOutside(m, text)
    ensures AllLines(Hunks(m, Split(text)), side) != []
  {
    var p := ParseLines(m, PARSE_START, Split(text));
    assert p.hunk.Normal? && p.hunk.lines != [];
  }

  /** In a merged text, choosing the same side everywhere leaves the common lines and the lines of that side. */
  lemma {:induction false} ChoosingInText(merged: string, isCommit: string -> bool, side: Side, answers: seq<Answer>)
    requires EndsOutside(MERGE_MARKERS, merged) && |answers| >= |MergedConflict(merged).hunks|
    requires forall i :: 0 <= i < |answers| ==> answers[i] == ChooseSide(side)
    ensures Resolved(MergedConflict(merged), isCommit, 0, [], answers)
            == Done(Some(Join(AllLines(MergedConflict(merged).hunks, side))))
  {
    hide Hunks, EndsOutside, Split, AllLines;
    var c := MergedConflict(merged);
    ChosenSide(c, isCommit, side, 0, answers);
    NoLinesYet(c.hunks, side);
    OutsideHasLines(MERGE_MARKERS, merged, side);
  }

  /** Choosing the same side everywhere leaves the commit of that side, its file or no file where only one side has one,
      and of two files the merged text with the lines of that side. */
  lemma {:induction false} ChoosingASide(ours: Entry, theirs: Entry, merged: string, isCommit: string -> bool,
      side: Side, answers: seq<Answer>)
    requires ConflictOf(ours, theirs, merged).Some?
    requires ours.FileEntry? && theirs.FileEntry? ==> EndsOutside(MERGE_MARKERS, merged)
    requires |answers| >= |ConflictOf(ours, theirs, merged).value.hunks|
    requires forall i :: 0 <= i < |answers| ==> answers[i] == ChooseSide(side)
    ensures Resolved(ConflictOf(ours, theirs, merged).value, isCommit, 0, [], answers)
            == Done(Chosen(ours, theirs, merged, side))
  {
    hide Hunks, EndsOutside, Split, AllLines;
    var c := ConflictOf(ours, theirs, merged).value;
    if ours.FileEntry? && theirs.FileEntry? {
      ChoosingInText(merged, isCommit, side, answers);
    } else {
      ChosenSide(c, isCommit, side, 0, answers);
      NoLinesYet(c.hunks, side);
      OneHunk(c.hunks[0], side);
      if ours.FileEntry? { JoinSplit(ours.content); }
      if theirs.FileEntry? { JoinSplit(theirs.content); }
    }
  }

  lemma NoLinesYet(hs: seq<Hunk>, side: Side)
    ensures AllLines(hs[..0], side) == []
  {
  }

  /** No line outside the conflicts looks like a start, and none inside them like an end. */
  predicate NoStrays(m: Markers, hs: seq<Hunk>) {
    forall i :: 0 <= i < |hs| ==>
      match hs[i]
      case Normal(ls) => CleanLines(m.start, ls)
      case Conflict(o, t) => CleanLines(m.end, o) && CleanLines(m.end, t)
  }

  /** Inside a conflict, only an end ends it. */
  lemma {:induction false} StaysInside(m: Markers, p: Parse, lines: seq<string>)
    requires Fits(p) && !p.state.InNormal? && CleanLines(m.end, lines)
    ensures !ParseLines(m, p, lines).state.InNormal?
    ensures p.state.InTheirs? ==> ParseLines(m, p, lines).state.InTheirs?
    decreases |lines|
  {
    if lines != [] {
      CleanTail(m.end, lines);
      StaysInside(m, ParseLine(m, p, lines[0]), lines[1..]);
    }
  }

  lemma HunkEndsOutside(m: Markers, w: Markers, p: Parse, h: Hunk)
    requires p.state.InNormal? && p.hunk.Normal? && NoStrays(m, [h]) && Extends(w, m)
             && !StartsWith(m.end, w.separator)
    ensures var p' := ParseLines(m, p, HunkLines(w, h));
            && p'.state.InNormal? && p'.hunk.Normal?
            && (h.Normal? ==> p'.hunk.lines == p.hunk.lines + h.lines)
  {
    hide ParseLines, CleanLines;
    assert [h][0] == h;
    match h
    case Normal(ls) => ParseClean(m, p, ls);
    case Conflict(o, t) =>
      ParseConflict(m, w, p, o, t);
      var p0 := ParseLine(m, p, w.start);
      StaysInside(m, p0, o);
      StaysInside(m, ParseLine(m, ParseLines(m, p0, o), w.separator), t);
  }

  lemma {:induction false} PrintedEndsOutside(m: Markers, w: Markers, hs: seq<Hunk>)
    requires NoStrays(m, hs) && Extends(w, m) && !StartsWith(m.end, w.separator)
    ensures var p := ParseLines(m, PARSE_START, PrintedLines(w, hs));
            && p.state.InNormal? && p.hunk.Normal?
            && (hs != [] && hs[|hs| - 1].Normal? && !hs[|hs| - 1].Empty() ==> p.hunk.lines != [])
  {
    hide ParseLine, HunkLines, Extends;
    if hs != [] {
      var front, h := hs[..|hs| - 1], hs[|hs| - 1];
      PrintedEndsOutside(m, w, front);
      ParseConcat(m, PARSE_START, PrintedLines(w, front), HunkLines(w, h));
      HunkEndsOutside(m, w, ParseLines(m, PARSE_START, PrintedLines(w, front)), h);
    }
  }

  /** Every line was printed or is common, so the parsed hunks have the lines of the printed ones, side by side. */
  lemma {:induction false} TidyAllLines(hs: seq<Hunk>, side: Side)
    ensures var p := TidiedAll(hs); AllLines(Pushed(p.hunks, p.hunk), side) == AllLines(hs, side)
  {
    if hs == [] {
    } else {
      var front, h := hs[..|hs| - 1], hs[|hs| - 1];
      TidyAllLines(front, side);
      TidyStep(TidiedAll(front), h, side);
    }
  }

  lemma PushedLines(hs: seq<Hunk>, h: Hunk, side: Side)
    ensures AllLines(Pushed(hs, h), side) == AllLines(hs, side) + h.Lines(side)
  {
    if !h.Empty() {
      assert (hs + [h])[..|hs|] == hs;
    }
  }

  lemma TidyStep(p: Parse, h: Hunk, side: Side)
    requires p.state.InNormal? && p.hunk.Normal?
    ensures var p' := Tidied(p, h);
            AllLines(Pushed(p'.hunks, p'.hunk), side) == AllLines(Pushed(p.hunks, p.hunk), side) + h.Lines(side)
  {
    hide Pushed, AllLines;
    PushedLines(p.hunks, p.hunk, side);
    match h
    case Normal(ls) =>
      PushedLines(p.hunks, Normal(p.hunk.lines + ls), side);
    case Conflict(_, _) =>
      PushedLines(Pushed(p.hunks, p.hunk), h, side);
      PushedLines(Pushed(Pushed(p.hunks, p.hunk), h), Normal([]), side);
  }

  /** A merge writes the common lines and the conflicts, and ends with a common line or a newline. Unless lines of the
      files themselves look like markers, a side chosen everywhere gives the file with the lines of that side. */
  lemma {:induction false} ChoosingInMerged(w: Markers, hs: seq<Hunk>, isCommit: string -> bool,
      side: Side, answers: seq<Answer>)
    requires Extends(w, MERGE_MARKERS) && MarkersOnOneLine(w) && CleanHunks(MERGE_MARKERS, hs)
    requires hs != [] && hs[|hs| - 1].Normal? && !hs[|hs| - 1].Empty()
    requires var c := MergedConflict(Join(PrintedLines(w, hs)));
             |answers| >= |c.hunks| && forall i :: 0 <= i < |answers| ==> answers[i] == ChooseSide(side)
    ensures var c := MergedConflict(Join(PrintedLines(w, hs)));
            Resolved(c, isCommit, 0, [], answers) == Done(Some(Join(AllLines(hs, side))))
  {
    hide Hunks, EndsOutside, CleanHunks, AllLines, Join, Split, PrintedLines, Extends, MarkersOnOneLine;
    var text := Join(PrintedLines(w, hs));
    MergedLines(MERGE_MARKERS, w, hs, side);
    ChoosingInText(text, isCommit, side, answers);
  }

  /** The parsed hunks of a merged text have the lines that were written. */
  lemma MergedLines(m: Markers, w: Markers, hs: seq<Hunk>, side: Side)
    requires Extends(w, m) && MarkersOnOneLine(w) && CleanHunks(m, hs)
    requires hs != [] && hs[|hs| - 1].Normal? && !hs[|hs| - 1].Empty()
    ensures EndsOutside(m, Join(PrintedLines(w, hs)))
    ensures AllLines(Hunks(m, Split(Join(PrintedLines(w, hs)))), side) == AllLines(hs, side)
  {
    hide ParseLines, AllLines, Pushed, CleanHunks, Extends, MarkersOnOneLine, Split, Join;
    CleanOnOneLine(m, hs);
    PrintedSplits(w, hs);
    ParsePrinted(m, w, hs);
    TidyAllLines(hs, side);
  }

  lemma PrintedSplits(w: Markers, hs: seq<Hunk>)
    requires MarkersOnOneLine(w) && AllOnOneLine(hs) && hs != [] && hs[|hs| - 1].Normal? && !hs[|hs| - 1].Empty()
    ensures Split(Join(PrintedLines(w, hs))) == PrintedLines(w, hs)
  {
    hide Split, Join, AllOnOneLine, MarkersOnOneLine;
    PrintedLinesOnly(w, hs);
    SplitJoin(PrintedLines(w, hs));
  }

  /** A merged file is never lost by choosing a side, whatever lines it has, as long as none of them is a start marker
      outside the conflicts or an end marker inside one. */
  lemma {:induction false} FileIsKept(w: Markers, hs: seq<Hunk>, isCommit: string -> bool, side: Side,
      answers: seq<Answer>)
    requires Extends(w, MERGE_MARKERS) && MarkersOnOneLine(w) && !StartsWith(MERGE_MARKERS.end, w.separator)
    requires AllOnOneLine(hs) && NoStrays(MERGE_MARKERS, hs)
    requires hs != [] && hs[|hs| - 1].Normal? && !hs[|hs| - 1].Empty()
    requires var c := MergedConflict(Join(PrintedLines(w, hs)));
             |answers| >= |c.hunks| && forall i :: 0 <= i < |answers| ==> answers[i] == ChooseSide(side)
    ensures var c := MergedConflict(Join(PrintedLines(w, hs)));
            Resolved(c, isCommit, 0, [], answers) == Done(Some(Join(AllLines(c.hunks, side))))
  {
    hide Hunks, AllLines, Join, Split, PrintedLines, Extends, MarkersOnOneLine, NoStrays, AllOnOneLine, ParseLines;
    var text := Join(PrintedLines(w, hs));
    PrintedSplits(w, hs);
    PrintedEndsOutside(MERGE_MARKERS, w, hs);
    assert EndsOutside(MERGE_MARKERS, text);
    ChoosingInText(text, isCommit, side, answers);
  }

  /** A file that begins with an end marker and a start marker. */
  function MarkedFile(m: Markers): seq<string> {
    [m.end, m.start, ""]
  }

  /** What merging it with a file that has no line in common with it writes: one conflict, and a last newline. */
  function MarkedMerge(m: Markers): seq<Hunk> {
    [Conflict(["a"], [m.end, m.start]), Normal([""])]
  }

  function MarkedLines(m: Markers): seq<string> {
    [m.start] + (["a"] + ([m.separator] + ([m.end] + ([m.start] + ([m.end] + ([""] + []))))))
  }

  lemma ParseNext(m: Markers, p: Parse, line: string, rest: seq<string>)
    requires Fits(p)
    ensures ParseLines(m, p, [line] + rest) == ParseLines(m, ParseLine(m, p, line), rest)
  {
    hide ParseLine, Fits;
    assert ([line] + rest)[1..] == rest;
  }

  /** The markers in the file end the conflict early and begin another one, which never ends. */
  lemma MarkedParse(m: Markers)
    requires !StartsWith(m.separator, "a") && !StartsWith(m.separator, m.end) && !StartsWith(m.separator, "")
    ensures ParseLines(m, PARSE_START, MarkedLines(m))
            == Parse([Conflict(["a"], [])], Conflict([m.end, ""], []), InOurs)
  {
    hide ParseLines;
    var p1 := Parse([], Conflict([], []), InOurs);
    var p2 := Parse([], Conflict(["a"], []), InOurs);
    var p4 := Parse([Conflict(["a"], [])], Normal([]), InNormal);
    var p5 := Parse([Conflict(["a"], [])], Conflict([], []), InOurs);
    var p6 := p5.(hunk := Conflict([m.end], []));
    assert [] + ["a"] == ["a"] && [] + [m.end] == [m.end] && [m.end] + [""] == [m.end, ""];
    ParseNext(m, PARSE_START, m.start, ["a"] + ([m.separator] + ([m.end] + ([m.start] + ([m.end] + ([""] + []))))));
    ParseNext(m, p1, "a", [m.separator] + ([m.end] + ([m.start] + ([m.end] + ([""] + [])))));
    ParseNext(m, p2, m.separator, [m.end] + ([m.start] + ([m.end] + ([""] + []))));
    ParseNext(m, p2.(state := InTheirs), m.end, [m.start] + ([m.end] + ([""] + [])));
    ParseNext(m, p4, m.start, [m.end] + ([""] + []));
    ParseNext(m, p5, m.end, [""] + []);
    ParseNext(m, p6, "", []);
    ParseNothing(m, p6.(hunk := Conflict([m.end, ""], [])));
    assert ParseLine(m, PARSE_START, m.start) == p1;
    assert ParseLine(m, p1, "a") == p2;
    assert ParseLine(m, p2, m.separator) == p2.(state := InTheirs);
    assert ParseLine(m, p2.(state := InTheirs), m.end) == p4;
    assert ParseLine(m, p4, m.start) == p5;
    assert ParseLine(m, p5, m.end) == p6;
    assert ParseLine(m, p6, "") == p6.(hunk := Conflict([m.end, ""], []));
  }

  lemma ParseNothing(m: Markers, p: Parse)
    requires Fits(p)
    ensures ParseLines(m, p, []) == p
  {
  }

  lemma MarkedMergePrints(m: Markers)
    ensures PrintedLines(m, MarkedMerge(m)) == MarkedLines(m)
  {
    hide HunkLines, PrintedLines;
    var hs := MarkedMerge(m);
    PrintedTwo(m, hs[0], hs[1]);
    MarkedHunkLines(m);
  }

  lemma MarkedHunkLines(m: Markers)
    ensures HunkLines(m, MarkedMerge(m)[0]) + HunkLines(m, MarkedMerge(m)[1]) == MarkedLines(m)
  {
  }

  lemma PrintedTwo(m: Markers, a: Hunk, b: Hunk)
    ensures PrintedLines(m, [a, b]) == HunkLines(m, a) + HunkLines(m, b)
  {
    hide HunkLines;
    assert [a, b][..1] == [a] && [a][..0] == [];
    assert PrintedLines(m, [a]) == [] + HunkLines(m, a);
  }

  /** A file that holds the markers themselves is lost when its side is chosen: it is taken for no file. */
  lemma MarkedFileLost(m: Markers, isCommit: string -> bool)
    requires MarkersOnOneLine(m)
    requires !StartsWith(m.separator, "a") && !StartsWith(m.separator, m.end) && !StartsWith(m.separator, "")
    ensures var c := FileConflict(File, Hunks(m, Split(Join(PrintedLines(m, MarkedMerge(m))))));
            Resolved(c, isCommit, 0, [], [ChooseSide(Theirs), ChooseSide(Theirs)]) == Done(None) && !c.NoFile(Theirs)
  {
    hide Split, Join, ParseLines, PrintedLines;
    MarkedMergePrints(m);
    PrintedSplits(m, MarkedMerge(m));
    MarkedParse(m);
    var c := FileConflict(File, [Conflict(["a"], []), Conflict([m.end, ""], [])]);
    assert Hunks(m, Split(Join(PrintedLines(m, MarkedMerge(m))))) == c.hunks;
    ChosenSide(c, isCommit, Theirs, 0, [ChooseSide(Theirs), ChooseSide(Theirs)]);
    NoLinesYet(c.hunks, Theirs);
    assert c.hunks[..1] == [c.hunks[0]] && c.hunks[..1][..0] == [];
    assert AllLines(c.hunks, Theirs) == AllLines(c.hunks[..1], Theirs) + [];
  }

  lemma SeparatorIsOther()
    ensures var m := MERGE_MARKERS;
            !StartsWith(m.separator, "a") && !StartsWith(m.separator, m.end) && !StartsWith(m.separator, "")
  {
    assert MERGE_MARKERS.separator[0] == '=' && MERGE_MARKERS.end[0] == '>';
  }

  lemma MarkersLoseAFile(isCommit: string -> bool)
    ensures var theirs := Join(MarkedFile(MERGE_MARKERS));
            var c := ConflictOf(FileEntry("a\n"), FileEntry(theirs),
                         Join(PrintedLines(MERGE_MARKERS, MarkedMerge(MERGE_MARKERS)))).value;
            Resolved(c, isCommit, 0, [], [ChooseSide(Theirs), ChooseSide(Theirs)]) == Done(None)
  {
    hide Hunks, Split, Join, PrintedLines, Resolved, MarkersOnOneLine;
    MergeMarkersOnOneLine();
    SeparatorIsOther();
    MarkedFileLost(MERGE_MARKERS, isCommit);
  }
}
