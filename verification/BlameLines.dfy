/** What the blame scoreboard says about each line, independently of how the lines are grouped. */
module BlameLines {
  import opened Wrappers

  type CommitId = nat

  /** A file in a commit. Two origins are the same suspect when commit and path agree. */
  datatype Origin = Origin(commit: CommitId, path: string)

  /** A run of lines of the final file: its first line, how many there are, whom they are blamed on, and where they
      stand in the suspect's file. */
  datatype Group = Group(lno: nat, numLines: nat, suspect: Origin, guilty: bool, sLno: nat)

  /** One line of the final file: the suspect, the line's number in the suspect's file, and whether that is settled. */
  datatype Line = Line(suspect: Origin, sLno: nat, guilty: bool)

  function GroupLines(g: Group): (ls: seq<Line>)
    ensures |ls| == g.numLines && forall k :: 0 <= k < |ls| ==> ls[k] == Line(g.suspect, g.sLno + k, g.guilty)
  {
    seq(g.numLines, k requires 0 <= k < g.numLines => Line(g.suspect, g.sLno + k, g.guilty))
  }

  function Lines(gs: seq<Group>): seq<Line> {
    if gs == [] then [] else GroupLines(gs[0]) + Lines(gs[1..])
  }

  lemma {:induction false} LinesConcat(a: seq<Group>, b: seq<Group>)
    ensures Lines(a + b) == Lines(a) + Lines(b)
  {
    if a == [] {
      assert a + b == b;
    } else {
      assert (a + b)[1..] == a[1..] + b;
      LinesConcat(a[1..], b);
    }
  }

  lemma LinesOne(g: Group)
    ensures Lines([g]) == GroupLines(g)
  {
  }

  lemma LinesThree(a: seq<Group>, b: seq<Group>, c: seq<Group>)
    ensures Lines(a + b + c) == Lines(a) + Lines(b) + Lines(c)
  {
    LinesConcat(a + b, c);
    LinesConcat(a, b);
  }

  /** The groups follow one another without a gap from line `first` on, and none is empty. */
  ghost predicate Contiguous(gs: seq<Group>, first: nat) {
    && (forall i :: 0 <= i < |gs| ==> gs[i].numLines > 0)
    && (gs != [] ==> gs[0].lno == first)
    && (forall i :: 0 < i < |gs| ==> gs[i].lno == gs[i - 1].lno + gs[i - 1].numLines)
  }

  /** The line after the last one. */
  function End(gs: seq<Group>, first: nat): nat {
    if gs == [] then first else gs[|gs| - 1].lno + gs[|gs| - 1].numLines
  }

  /** A group starts at the line that the groups before it end at. */
  lemma {:induction false} GroupStart(gs: seq<Group>, first: nat, i: nat)
    requires Contiguous(gs, first) && i <= |gs|
    ensures End(gs[..i], first) == first + |Lines(gs[..i])|
    ensures i < |gs| ==> gs[i].lno == first + |Lines(gs[..i])|
  {
    hide Lines;
    if i == 0 {
      LinesNone();
      assert gs[..0] == [];
      assert gs != [] ==> gs[0].lno == first;
    } else {
      GroupStart(gs, first, i - 1);
      assert gs[..i] == gs[..i - 1] + [gs[i - 1]];
      LinesConcat(gs[..i - 1], [gs[i - 1]]);
      LinesOne(gs[i - 1]);
      assert i < |gs| ==> gs[i].lno == gs[i - 1].lno + gs[i - 1].numLines;
    }
  }

  lemma {:induction false} ContiguousSorted(gs: seq<Group>, first: nat, i: nat, j: nat)
    requires Contiguous(gs, first) && i < j < |gs|
    ensures gs[i].lno + gs[i].numLines <= gs[j].lno
    decreases j
  {
    if i < j - 1 {
      ContiguousSorted(gs, first, i, j - 1);
    }
  }

  lemma FirstStart(gs: seq<Group>, start: nat)
    requires Contiguous(gs, start) && gs != []
    ensures gs[0].lno == start && gs[0].numLines > 0
  {
  }

  lemma NextStart(gs: seq<Group>, first: nat, i: nat)
    requires Contiguous(gs, first) && i < |gs|
    ensures gs[i].numLines > 0 && (i > 0 ==> gs[i].lno == gs[i - 1].lno + gs[i - 1].numLines)
  {
  }

  lemma ContiguousConcat(a: seq<Group>, b: seq<Group>, first: nat)
    requires Contiguous(a, first) && Contiguous(b, End(a, first))
    ensures Contiguous(a + b, first) && End(a + b, first) == End(b, End(a, first))
  {
    var gs := a + b;
    assert Contiguous(gs, first) by {
      forall k | 0 <= k < |gs|
        ensures gs[k].numLines > 0 && (k > 0 ==> gs[k].lno == gs[k - 1].lno + gs[k - 1].numLines)
      {
        ConcatStart(a, b, first, k);
      }
      if a == [] && b != [] { FirstStart(b, first); }
      if a != [] { FirstStart(a, first); }
    }
  }

  lemma ConcatStart(a: seq<Group>, b: seq<Group>, first: nat, k: nat)
    requires Contiguous(a, first) && Contiguous(b, End(a, first)) && k < |a| + |b|
    ensures var gs := a + b;
            gs[k].numLines > 0 && (k > 0 ==> gs[k].lno == gs[k - 1].lno + gs[k - 1].numLines)
  {
    hide Contiguous;
    if k < |a| {
      NextStart(a, first, k);
    } else {
      NextStart(b, End(a, first), k - |a|);
      if k == |a| { FirstStart(b, End(a, first)); }
    }
  }

  lemma ContiguousParts(gs: seq<Group>, first: nat, i: nat)
    requires Contiguous(gs, first) && i < |gs|
    ensures Contiguous(gs[..i], first) && End(gs[..i], first) == gs[i].lno
    ensures Contiguous(gs[i + 1..], gs[i].lno + gs[i].numLines)
  {
    assert End(gs[..i], first) == gs[i].lno by {
      assert gs[i].lno == if i == 0 then first else gs[i - 1].lno + gs[i - 1].numLines;
    }
    var above := gs[i + 1..];
    forall k | 0 <= k < |above|
      ensures above[k].numLines > 0
              && above[k].lno == if k == 0 then gs[i].lno + gs[i].numLines else above[k - 1].lno + above[k - 1].numLines
    {
      var j := i + 1 + k;
      assert above[k] == gs[j];
      assert gs[j].lno == gs[j - 1].lno + gs[j - 1].numLines;
      if k > 0 {
        assert above[k - 1] == gs[j - 1];
      }
    }
  }

  /** Replacing one group by groups that cover the same lines keeps everything contiguous. */
  lemma ContiguousReplace(gs: seq<Group>, first: nat, i: nat, pieces: seq<Group>)
    requires Contiguous(gs, first) && i < |gs|
    requires pieces != [] && Contiguous(pieces, gs[i].lno) && End(pieces, gs[i].lno) == gs[i].lno + gs[i].numLines
    ensures Contiguous(gs[..i] + pieces + gs[i + 1..], first)
  {
    hide Contiguous, End;
    ContiguousParts(gs, first, i);
    ContiguousConcat(gs[..i], pieces, first);
    ContiguousConcat(gs[..i] + pieces, gs[i + 1..], first);
  }

  // ----- one chunk -----

  /** A chunk of lines that are the same in parent and target: lines `tlno` up to `same` of the target are the lines
      from `plno` on of the parent. */
  datatype Chunk = Chunk(tlno: nat, plno: nat, same: nat, target: Origin, parent: Origin)

  predicate Suspected(l: Line, target: Origin) {
    !l.guilty && l.suspect == target
  }

  /** The blame for one line after a chunk. */
  function ChunkLine(l: Line, c: Chunk): Line {
    if Suspected(l, c.target) && c.tlno <= l.sLno < c.same then Line(c.parent, c.plno + (l.sLno - c.tlno), false) else l
  }

  function ChunkLines(ls: seq<Line>, c: Chunk): (r: seq<Line>)
    ensures |r| == |ls| && forall k :: 0 <= k < |ls| ==> r[k] == ChunkLine(ls[k], c)
  {
    seq(|ls|, k requires 0 <= k < |ls| => ChunkLine(ls[k], c))
  }

  lemma ChunkLinesConcat(a: seq<Line>, b: seq<Line>, c: Chunk)
    ensures ChunkLines(a + b, c) == ChunkLines(a, c) + ChunkLines(b, c)
  {
  }

  lemma ChunkLinesTwice(ls: seq<Line>, c: Chunk)
    requires c.parent != c.target
    ensures ChunkLines(ChunkLines(ls, c), c) == ChunkLines(ls, c)
  {
  }

  /** The part of a group between two lines of the suspect's file. */
  function Cut(g: Group, a: nat, b: nat): Group
    requires g.sLno <= a <= b <= g.sLno + g.numLines
  {
    g.(lno := g.lno + (a - g.sLno), numLines := b - a, sLno := a)
  }

  function Max(a: nat, b: nat): nat {
    if a < b then b else a
  }

  function Min(a: nat, b: nat): nat {
    if a < b then a else b
  }

  /** Whether the loop over the entries splits a group. */
  predicate Overlaps(g: Group, c: Chunk) {
    !g.guilty && g.suspect == c.target && c.same > g.sLno && c.tlno < g.sLno + g.numLines
  }

  /** What a group that overlaps a chunk is split into: before, blamed on the parent, after. */
  function Before(g: Group, c: Chunk): seq<Group>
    requires Overlaps(g, c)
  {
    if g.sLno < c.tlno then [Cut(g, g.sLno, c.tlno)] else []
  }

  function Middle(g: Group, c: Chunk): Group
    requires Overlaps(g, c) && c.tlno < c.same
  {
    var lo, hi := Max(c.tlno, g.sLno), Min(c.same, g.sLno + g.numLines);
    Group(g.lno + (lo - g.sLno), hi - lo, c.parent, false, c.plno + (lo - c.tlno))
  }

  function After(g: Group, c: Chunk): seq<Group>
    requires Overlaps(g, c)
  {
    if c.same < g.sLno + g.numLines then [Cut(g, c.same, g.sLno + g.numLines)] else []
  }

  function Pieces(g: Group, c: Chunk): seq<Group> {
    if Overlaps(g, c) && c.tlno < c.same then Before(g, c) + [Middle(g, c)] + After(g, c) else [g]
  }

  /** The pieces of a group cover its lines, and say of each what the chunk says. */
  lemma PiecesCover(g: Group, c: Chunk)
    requires g.numLines > 0
    ensures Contiguous(Pieces(g, c), g.lno) && Pieces(g, c) != [] && End(Pieces(g, c), g.lno) == g.lno + g.numLines
  {
  }

  lemma PiecesLines(g: Group, c: Chunk)
    requires g.numLines > 0 && (c.tlno <= c.same || !Overlaps(g, c))
    ensures Lines(Pieces(g, c)) == ChunkLines(GroupLines(g), c)
  {
    hide Lines;
    if Overlaps(g, c) && c.tlno < c.same {
      var m := Middle(g, c);
      LinesThree(Before(g, c), [m], After(g, c));
      LinesOne(m);
      if Before(g, c) != [] { LinesOne(Before(g, c)[0]); }
      if After(g, c) != [] { LinesOne(After(g, c)[0]); }
      LinesNone();
    } else {
      LinesOne(g);
    }
  }

  lemma LinesNone()
    ensures Lines([]) == []
  {
  }

  // ----- one step of the loop over the entries -----

  /** Every line that may still be blamed on someone else is dealt with by the chunk, or nothing is. */
  ghost predicate ChunkFits(ls: seq<Line>, c: Chunk) {
    c.tlno <= c.same || forall l :: l in ls && Suspected(l, c.target) ==> l.sLno < c.same
  }

  lemma LinesMember(gs: seq<Group>, i: nat, k: nat)
    requires i < |gs| && k < gs[i].numLines
    ensures Line(gs[i].suspect, gs[i].sLno + k, gs[i].guilty) in Lines(gs)
  {
    hide Lines;
    var l := GroupLines(gs[i])[k];
    assert gs == gs[..i] + [gs[i]] + gs[i + 1..];
    LinesThree(gs[..i], [gs[i]], gs[i + 1..]);
    LinesOne(gs[i]);
    assert l in Lines(gs[..i]) + Lines([gs[i]]);
  }

  /** A chunk that ends before it starts overlaps no group. */
  lemma NoOverlap(gs: seq<Group>, i: nat, c: Chunk)
    requires i < |gs| && gs[i].numLines > 0 && ChunkFits(Lines(gs), c) && Overlaps(gs[i], c)
    ensures c.tlno <= c.same
  {
    LinesMember(gs, i, gs[i].numLines - 1);
  }

  /** The first `i` groups are what the chunk leaves them as. */
  ghost predicate DoneUpTo(gs: seq<Group>, i: nat, c: Chunk)
    requires i <= |gs|
  {
    ChunkLines(Lines(gs[..i]), c) == Lines(gs[..i])
  }

  lemma ChunkStep(gs: seq<Group>, first: nat, i: nat, c: Chunk)
    requires Contiguous(gs, first) && i < |gs| && c.parent != c.target
    requires DoneUpTo(gs, i, c) && ChunkFits(Lines(gs), c)
    ensures var gs' := gs[..i] + Pieces(gs[i], c) + gs[i + 1..];
            && i + 1 <= |gs'|
            && Contiguous(gs', first)
            && ChunkLines(Lines(gs'), c) == ChunkLines(Lines(gs), c)
            && ChunkFits(Lines(gs'), c)
            && DoneUpTo(gs', i + 1, c)
            && |Lines(gs'[..i + 1])| > |Lines(gs[..i])|
  {
    hide Lines, ChunkLines, Pieces, Contiguous, Overlaps;
    var g := gs[i];
    var pieces := Pieces(g, c);
    GroupNotEmpty(gs, first, i);
    if Overlaps(g, c) { NoOverlap(gs, i, c); }
    PiecesCover(g, c);
    ContiguousReplace(gs, first, i, pieces);
    PiecesLines(g, c);
    var gs' := gs[..i] + pieces + gs[i + 1..];
    SameAfterChunk(gs, i, pieces, c);
    ChunkFitsAfter(Lines(gs), Lines(gs'), c);
    FirstPieceDone(gs, i, pieces, c);
    FirstNotEmpty(pieces, g.lno);
    assert gs'[..i + 1] == gs[..i] + [pieces[0]];
    LinesConcat(gs[..i], [pieces[0]]);
    LinesOne(pieces[0]);
  }

  lemma FirstNotEmpty(gs: seq<Group>, first: nat)
    requires Contiguous(gs, first) && gs != []
    ensures gs[0].numLines > 0
  {
  }

  lemma GroupNotEmpty(gs: seq<Group>, first: nat, i: nat)
    requires Contiguous(gs, first) && i < |gs|
    ensures gs[i].numLines > 0
  {
  }

  lemma SameAfterChunk(gs: seq<Group>, i: nat, pieces: seq<Group>, c: Chunk)
    requires i < |gs| && c.parent != c.target && Lines(pieces) == ChunkLines(GroupLines(gs[i]), c)
    ensures ChunkLines(Lines(gs[..i] + pieces + gs[i + 1..]), c) == ChunkLines(Lines(gs), c)
  {
    hide Lines, ChunkLines;
    LinesThree(gs[..i], pieces, gs[i + 1..]);
    LinesThree(gs[..i], [gs[i]], gs[i + 1..]);
    assert gs == gs[..i] + [gs[i]] + gs[i + 1..];
    LinesOne(gs[i]);
    var a, b, z := Lines(gs[..i]), GroupLines(gs[i]), Lines(gs[i + 1..]);
    ChunkLinesConcat(a + b, z, c);
    ChunkLinesConcat(a, b, c);
    ChunkLinesConcat(a + ChunkLines(b, c), z, c);
    ChunkLinesConcat(a, ChunkLines(b, c), c);
    ChunkLinesTwice(b, c);
  }

  lemma ChunkFitsAfter(ls: seq<Line>, ls': seq<Line>, c: Chunk)
    requires ChunkFits(ls, c) && ChunkLines(ls', c) == ChunkLines(ls, c)
    ensures ChunkFits(ls', c)
  {
    if c.tlno > c.same {
      assert ls == ChunkLines(ls, c) && ls' == ChunkLines(ls', c);
    }
  }

  lemma FirstPieceDone(gs: seq<Group>, i: nat, pieces: seq<Group>, c: Chunk)
    requires i < |gs| && c.parent != c.target && pieces != [] && Lines(pieces) == ChunkLines(GroupLines(gs[i]), c)
    requires DoneUpTo(gs, i, c)
    ensures DoneUpTo(gs[..i] + pieces + gs[i + 1..], i + 1, c)
  {
    hide Lines;
    var gs' := gs[..i] + pieces + gs[i + 1..];
    assert gs'[..i + 1] == gs[..i] + [pieces[0]];
    LinesConcat(gs[..i], [pieces[0]]);
    assert pieces == [pieces[0]] + pieces[1..];
    LinesConcat([pieces[0]], pieces[1..]);
    var p := Lines([pieces[0]]);
    assert p == Lines(pieces)[..|p|];
    assert ChunkLines(p, c) == p;
    ChunkLinesConcat(Lines(gs[..i]), p, c);
  }
}
