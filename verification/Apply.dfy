/** Applying a patch, hunk by hunk, with hunks that may be skipped. */
module Apply {
  import opened Wrappers
  import opened TextLines
  import opened PatchImages

  const EAPPLYFAIL: int := -35
  const SIZE_RANGE: nat := 0x1_0000_0000_0000_0000

  datatype LineOrigin = Context | Deletion | Addition | ContextEofNl | DelEofNl | AddEofNl

  datatype DiffLine = DiffLine(origin: LineOrigin, content: string)

  /** The header of a hunk, and which of the patch's lines are its own. */
  datatype Hunk = Hunk(oldLines: nat, newStart: nat, newLines: nat, lineStart: nat, lineCount: nat)

  datatype Patch = Patch(hunks: seq<Hunk>, lines: seq<DiffLine>) {
    /** Whether the patch has the first `n` lines of a hunk. */
    predicate HasLines(h: Hunk, n: nat) {
      n == 0 || h.lineStart + n <= |lines|
    }

    function FirstLines(h: Hunk, n: nat): seq<DiffLine>
      requires HasLines(h, n)
    {
      if n == 0 then [] else lines[h.lineStart..h.lineStart + n]
    }

    predicate Has(h: Hunk) {
      HasLines(h, h.lineCount)
    }

    function Images(h: Hunk): (seq<string>, seq<string>)
      requires Has(h)
    {
      (Side(FirstLines(h, h.lineCount), true), Side(FirstLines(h, h.lineCount), false))
    }
  }

  // ----- the two images of a hunk -----

  predicate EofNl(o: LineOrigin) {
    o.ContextEofNl? || o.DelEofNl? || o.AddEofNl?
  }

  /** Whether a line is there before the patch, or after it. */
  predicate OnSide(o: LineOrigin, before: bool) {
    o.Context? || (if before then o.Deletion? else o.Addition?)
  }

  /** The lines of one side of a hunk: a marker takes the newline off the line in front of it. */
  function Side(ls: seq<DiffLine>, before: bool): (s: seq<string>)
    ensures ls != [] && OnSide(ls[|ls| - 1].origin, before) ==> s != []
  {
    if ls == [] then [] else
      var n := |ls| - 1;
      var front := Side(ls[..n], before);
      if OnSide(ls[n].origin, before) then front + [ls[n].content]
      else if EofNl(ls[n].origin) && n > 0 && OnSide(ls[n - 1].origin, before) then
        assert ls[..n][n - 1] == ls[n - 1];
        front[..|front| - 1] + [Chomp(front[|front| - 1])]
      else front
  }

  /** A line of an edit script. It has its newline, unless it is the last one of a file that does not end in one. */
  datatype Edit = Keep(line: string) | Remove(line: string) | Add(line: string)

  function EditOrigin(e: Edit): LineOrigin {
    match e case Keep(_) => Context case Remove(_) => Deletion case Add(_) => Addition
  }

  function EditMarker(e: Edit): LineOrigin {
    match e case Keep(_) => ContextEofNl case Remove(_) => DelEofNl case Add(_) => AddEofNl
  }

  /** How a hunk is written: a line that lacks its newline gets one, and a marker after it. */
  function Written(e: Edit): seq<DiffLine> {
    if e.line != "" && e.line[|e.line| - 1] == '\n' then [DiffLine(EditOrigin(e), e.line)]
    else [DiffLine(EditOrigin(e), e.line + "\n"), DiffLine(EditMarker(e), "\n\\ No newline at end of file\n")]
  }

  function WrittenAll(es: seq<Edit>): seq<DiffLine> {
    if es == [] then [] else WrittenAll(es[..|es| - 1]) + Written(es[|es| - 1])
  }

  /** The old lines, or the new lines, of an edit script. */
  function EditSide(es: seq<Edit>, before: bool): seq<string> {
    if es == [] then [] else
      var e := es[|es| - 1];
      EditSide(es[..|es| - 1], before) + (if OnSide(EditOrigin(e), before) then [e.line] else [])
  }

  /** The images taken from a written hunk are the two sides of the edit script, also at the end of a file without
      a newline. */
  lemma {:induction false} SidesOfWritten(es: seq<Edit>, before: bool)
    ensures Side(WrittenAll(es), before) == EditSide(es, before)
  {
    hide Side, OnSide;
    if es == [] {
      SideNone(before);
    } else {
      var e := es[|es| - 1];
      var front := WrittenAll(es[..|es| - 1]);
      SidesOfWritten(es[..|es| - 1], before);
      SideOfEdit(front, e, before);
    }
  }

  lemma SideNone(before: bool)
    ensures Side([], before) == []
  {
  }

  lemma SideOfEdit(front: seq<DiffLine>, e: Edit, before: bool)
    ensures Side(front + Written(e), before)
            == Side(front, before) + (if OnSide(EditOrigin(e), before) then [e.line] else [])
  {
    hide Side, OnSide;
    if e.line != "" && e.line[|e.line| - 1] == '\n' {
      SideAdd(front, DiffLine(EditOrigin(e), e.line), before);
    } else {
      SideOfMarked(front, e, Written(e)[1], before);
    }
  }

  /** A line that was given a newline, and the marker after it. */
  lemma SideOfMarked(front: seq<DiffLine>, e: Edit, mark: DiffLine, before: bool)
    requires EofNl(mark.origin)
    ensures Side(front + [DiffLine(EditOrigin(e), e.line + "\n"), mark], before)
            == Side(front, before) + (if OnSide(EditOrigin(e), before) then [e.line] else [])
  {
    hide Side, OnSide;
    var l := DiffLine(EditOrigin(e), e.line + "\n");
    SideAdd(front, l, before);
    SideMark(front + [l], mark, before);
    assert front + [l] + [mark] == front + [l, mark];
    assert Chomp(e.line + "\n") == e.line;
  }

  lemma SideAdd(ls: seq<DiffLine>, l: DiffLine, before: bool)
    requires !EofNl(l.origin)
    ensures Side(ls + [l], before) == Side(ls, before) + (if OnSide(l.origin, before) then [l.content] else [])
  {
    assert (ls + [l])[..|ls|] == ls;
  }

  lemma MarkIsNoLine(o: LineOrigin, before: bool)
    ensures EofNl(o) ==> !OnSide(o, before)
  {
  }

  lemma SideMark(ls: seq<DiffLine>, l: DiffLine, before: bool)
    requires EofNl(l.origin)
    ensures var s := Side(ls, before);
            Side(ls + [l], before) ==
            if ls != [] && OnSide(ls[|ls| - 1].origin, before) then s[..|s| - 1] + [Chomp(s[|s| - 1])] else s
  {
    MarkIsNoLine(l.origin, before);
    hide OnSide, Chomp, EofNl;
    assert (ls + [l])[..|ls|] == ls;
  }

  // ----- what one hunk does -----

  /** The image, and how many lines of the skipped hunks there are on either side. */
  datatype Progress = Progress(image: seq<string>, skippedNew: nat, skippedOld: nat)

  datatype Outcome = Outcome(error: int, progress: Progress)

  /** The line a hunk is tried at; the arithmetic is that of a 64-bit size. */
  function Landing(h: Hunk, p: Progress): (n: nat)
    ensures n <= |p.image|
  {
    var n := if h.newStart > 0 then (h.newStart - p.skippedNew + p.skippedOld - 1) % SIZE_RANGE else 0;
    if n > |p.image| then |p.image| else n
  }

  function Accepted(patch: Patch, h: Hunk, p: Progress): Outcome {
    if !patch.Has(h) then Outcome(EAPPLYFAIL, p) else
      var (pre, post) := patch.Images(h);
      var at := Landing(h, p);
      if Matches(p.image, pre, at) then Outcome(0,
          p.(image := Updated(p.image, pre, post, at))) else Outcome(EAPPLYFAIL, p)
  }

  /** `answer` is what the caller's callback says about the hunk. */
  function Tried(patch: Patch, h: Hunk, answer: int, p: Progress): Outcome {
    if answer < 0 then Outcome(answer, p)
    else if answer > 0 then Outcome(0, Progress(p.image, p.skippedNew + h.newLines, p.skippedOld + h.oldLines))
    else Accepted(patch, h, p)
  }

  function TriedFrom(patch: Patch, k: nat, answers: seq<int>, p: Progress): Outcome
    requires k <= |patch.hunks| == |answers|
    decreases |answers| - k
  {
    if k == |answers| then Outcome(0, p) else
      var r := Tried(patch, patch.hunks[k], answers[k], p);
      if r.error < 0 then r else TriedFrom(patch, k + 1, answers, r.progress)
  }

  class HunksContext {
    var skippedNewLines: nat
    var skippedOldLines: nat

    constructor ()
      ensures skippedNewLines == 0 && skippedOldLines == 0
    {
      skippedNewLines, skippedOldLines := 0, 0;
    }
  }

  /** Takes the two images of a hunk from its lines. */
  method TakeImages(patch: Patch, h: Hunk) returns (error: int, preimage: seq<string>, postimage: seq<string>)
    ensures error == if patch.Has(h) then 0 else EAPPLYFAIL
    ensures patch.Has(h) ==> (preimage, postimage) == patch.Images(h)
  {
    hide Side, OnSide;
    error, preimage, postimage := 0, [], [];
    SideNone(true);
    SideNone(false);
    var i := 0;
    while i < h.lineCount
      invariant i <= h.lineCount && patch.HasLines(h, i)
      invariant preimage == Side(patch.FirstLines(h, i), true) && postimage == Side(patch.FirstLines(h, i), false)
    {
      var linenum := h.lineStart + i;
      if linenum >= |patch.lines| {
        return EAPPLYFAIL, preimage, postimage;
      }
      var line := patch.lines[linenum];
      preimage := TakeLine(patch, h, i, line, preimage, true);
      postimage := TakeLine(patch, h, i, line, postimage, false);
      i := i + 1;
    }
  }

  lemma FirstLinesStep(patch: Patch, h: Hunk, i: nat)
    requires patch.HasLines(h, i + 1)
    ensures patch.HasLines(h, i)
            && patch.FirstLines(h, i + 1) == patch.FirstLines(h, i) + [patch.lines[h.lineStart + i]]
    ensures |patch.FirstLines(h, i)| == i
            && (i > 0 ==> patch.FirstLines(h, i)[i - 1] == patch.lines[h.lineStart + i - 1])
  {
  }

  /** What one line of a hunk adds to an image. */
  method TakeLine(patch: Patch, h: Hunk, i: nat, line: DiffLine, image: seq<string>,
      before: bool) returns (r: seq<string>)
    requires patch.HasLines(h, i + 1) && line == patch.lines[h.lineStart + i]
             && image == Side(patch.FirstLines(h, i), before)
    ensures r == Side(patch.FirstLines(h, i + 1), before)
  {
    FirstLinesStep(patch, h, i);
    hide Side, patch.FirstLines;
    r := image;
    ghost var ls := patch.FirstLines(h, i);
    match line.origin {
      case ContextEofNl | DelEofNl | AddEofNl =>
        SideMark(ls, line, before);
        if i > 0 {
          var prev := patch.lines[h.lineStart + i - 1];
          if OnSide(prev.origin, before) {
            r := r[..|r| - 1] + [Chomp(r[|r| - 1])];
          }
        }
      case Context | Deletion | Addition =>
        SideAdd(ls, line, before);
        if OnSide(line.origin, before) {
          r := r + [line.content];
        }
    }
  }

  ghost function ProgressOf(image: PatchImage, ctx: HunksContext): Progress
    reads image, ctx
    requires image.Valid()
  {
    Progress(image.Contents(), ctx.skippedNewLines, ctx.skippedOldLines)
  }

  /** Applies one hunk to the image, unless the callback says to skip it or to stop. */
  method ApplyHunk(image: PatchImage, patch: Patch, h: Hunk, answer: int, ctx: HunksContext) returns (error: int)
    requires image.Valid()
    modifies image, ctx
    ensures image.Valid()
            && Outcome(error, ProgressOf(image, ctx)) == Tried(patch, h, answer, old(ProgressOf(image, ctx)))
  {
    hide Updated, patch.Images, patch.Has;
    if answer != 0 {
      if answer > 0 {
        ctx.skippedNewLines := ctx.skippedNewLines + h.newLines;
        ctx.skippedOldLines := ctx.skippedOldLines + h.oldLines;
        return 0;
      }
      return answer;
    }
    var preimage, postimage;
    error, preimage, postimage := TakeImages(patch, h);
    if error != 0 {
      return;
    }
    var lineNum := 0;
    if h.newStart > 0 {
      lineNum := (h.newStart - ctx.skippedNewLines + ctx.skippedOldLines - 1) % SIZE_RANGE;
    }
    var isMatch, found := image.FindHunkLinenum(preimage, lineNum);
    if !isMatch {
      return EAPPLYFAIL;
    }
    image.UpdateHunk(found, preimage, postimage);
  }

  /** Applies all hunks to a text. */
  method ApplyHunks(source: string, patch: Patch, answers: seq<int>) returns (error: int, out: string)
    requires |answers| == |patch.hunks|
    ensures var r := TriedFrom(patch, 0, answers, Progress(LinesOf(source), 0, 0));
            error == r.error && out == if error == 0 then Concat(r.progress.image) else ""
  {
    hide Tried;
    var image := new PatchImage.FromString(source);
    var ctx := new HunksContext();
    var i := 0;
    while i < |patch.hunks|
      invariant i <= |patch.hunks| && image.Valid() && fresh(image) && fresh(ctx)
      invariant TriedFrom(patch, i, answers, ProgressOf(image, ctx))
                == TriedFrom(patch, 0, answers, Progress(LinesOf(source), 0, 0))
    {
      ghost var p := ProgressOf(image, ctx);
      error := ApplyHunk(image, patch, patch.hunks[i], answers[i], ctx);
      OutcomeError(patch, patch.hunks[i], answers[i], p);
      if error < 0 {
        return error, "";
      }
      i := i + 1;
    }
    error := 0;
    out := image.Put();
  }

  lemma OutcomeError(patch: Patch, h: Hunk, answer: int, p: Progress)
    ensures Tried(patch, h, answer, p).error <= 0
  {
  }

  /** Applies a patch to a file. A patch that removes the file has to leave nothing of it. */
  method ApplyPatch(source: string, patch: Patch, removes: bool, answers: seq<int>) returns (error: int,
      contents: string)
    requires |answers| == |patch.hunks|
    ensures var r := TriedFrom(patch, 0, answers, Progress(LinesOf(source), 0, 0));
            && error == (if r.error == 0 && removes && Concat(r.progress.image) != "" then EAPPLYFAIL else r.error)
            && (error == 0 ==> contents == Concat(r.progress.image))
  {
    error, contents := 0, "";
    if |patch.hunks| > 0 {
      error, contents := ApplyHunks(source, patch, answers);
    } else {
      contents := source;
      LinesOfText(source);
    }
    if error != 0 {
      return;
    }
    if removes && |contents| > 0 {
      error := EAPPLYFAIL;
    }
  }
}
