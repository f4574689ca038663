/** From the edits between two files to the patch that is written for them, and back to the new file. */
module EditScripts {
  import opened Wrappers
  import opened TextLines
  import opened PatchImages
  import opened Apply
  import opened ApplyLaws

  /** Lines that stay, then edits that are written as one hunk. */
  datatype Piece = Piece(gap: seq<string>, edits: seq<Edit>) {
    function Sides(): Section {
      Section(gap, EditSide(edits, true), EditSide(edits, false))
    }
  }

  function Sections(ps: seq<Piece>): (secs: seq<Section>)
    ensures |secs| == |ps| && forall k :: 0 <= k < |ps| ==> secs[k] == ps[k].Sides()
  {
    seq(|ps|, k requires 0 <= k < |ps| => ps[k].Sides())
  }

  /** The old lines, or the new lines, of all pieces. */
  function ScriptSide(ps: seq<Piece>, before: bool): seq<string> {
    if ps == [] then [] else
      var p := ps[|ps| - 1];
      ScriptSide(ps[..|ps| - 1], before) + p.gap + EditSide(p.edits, before)
  }

  /** The patch that is written for the pieces. The header of a hunk says how many lines there are on either side and
      where the new ones start. */
  function PatchOf(ps: seq<Piece>): (patch: Patch)
    ensures |patch.hunks| == |ps|
  {
    if ps == [] then Patch([], []) else
      var n := |ps| - 1;
      var front, s, ls := PatchOf(ps[..n]), ps[n].Sides(), WrittenAll(ps[n].edits);
      var start := NewLines(Sections(ps[..n]), n) + |s.gap| + (if s.post != [] then 1 else 0);
      Patch(front.hunks + [Hunk(|s.pre|, start, |s.post|, |front.lines|, |ls|)], front.lines + ls)
  }

  // ----- the patch is one for the old file -----

  lemma SectionsFront(ps: seq<Piece>, n: nat)
    requires n <= |ps|
    ensures Sections(ps[..n]) == Sections(ps)[..n]
  {
  }

  lemma {:induction false} NewLinesFront(secs: seq<Section>, n: nat, k: nat)
    requires k <= n <= |secs|
    ensures NewLines(secs[..n], k) == NewLines(secs, k)
  {
    if k > 0 {
      NewLinesFront(secs, n, k - 1);
    }
  }

  /** More lines at the end of a patch change nothing for the hunks that are there. */
  lemma MoreLines(patch: Patch, ls: seq<DiffLine>, hs: seq<Hunk>, h: Hunk)
    requires patch.Has(h)
    ensures var more := Patch(hs, patch.lines + ls); more.Has(h) && more.Images(h) == patch.Images(h)
  {
    var more := Patch(hs, patch.lines + ls);
    assert more.FirstLines(h, h.lineCount) == patch.FirstLines(h, h.lineCount);
  }

  lemma LastLines(lines: seq<DiffLine>, hs: seq<Hunk>, es: seq<Edit>, h: Hunk)
    requires h.lineStart == |lines| && h.lineCount == |WrittenAll(es)|
    ensures var patch := Patch(hs, lines + WrittenAll(es));
            patch.Has(h) && patch.Images(h) == (EditSide(es, true), EditSide(es, false))
  {
    hide WrittenAll, Side, EditSide;
    var patch := Patch(hs, lines + WrittenAll(es));
    assert patch.FirstLines(h, h.lineCount) == WrittenAll(es);
    SidesOfWritten(es, true);
    SidesOfWritten(es, false);
  }

  ghost predicate Apart(ps: seq<Piece>) {
    forall k :: 0 < k < |ps| ==> ps[k].gap != []
  }

  lemma {:induction false} PatchDescribes(ps: seq<Piece>, k: nat)
    requires Apart(ps) && k < |ps|
    ensures DescribesHunk(PatchOf(ps), Sections(ps), k)
  {
    hide WrittenAll, EditSide, NewLines, Side;
    var n := |ps| - 1;
    var front := PatchOf(ps[..n]);
    SectionsFront(ps, n);
    NewLinesFront(Sections(ps), n, k);
    if k < n {
      PatchDescribes(ps[..n], k);
      MoreLines(front, WrittenAll(ps[n].edits), PatchOf(ps).hunks, front.hunks[k]);
    } else {
      LastLines(front.lines, PatchOf(ps).hunks, ps[n].edits, PatchOf(ps).hunks[n]);
    }
  }

  // ----- the two files -----

  lemma {:induction false} RestIsOld(ps: seq<Piece>, tail: seq<string>, k: nat)
    requires k <= |ps|
    ensures ScriptSide(ps[..k], true) + Rest(Sections(ps), tail, k) == ScriptSide(ps, true) + tail
    decreases |ps| - k
  {
    hide EditSide;
    if k == |ps| {
      assert ps[..k] == ps;
    } else {
      RestIsOld(ps, tail, k + 1);
      assert ps[..k + 1][..k] == ps[..k];
      var a, s, rest := ScriptSide(ps[..k], true), ps[k].Sides(), Rest(Sections(ps), tail, k + 1);
      assert a + (s.gap + s.pre + rest) == a + s.gap + s.pre + rest;
    }
  }

  lemma {:induction false} ChosenIsNew(ps: seq<Piece>, answers: seq<int>, k: nat)
    requires k <= |ps| == |answers| && forall i :: 0 <= i < |answers| ==> answers[i] == 0
    ensures Chosen(Sections(ps), answers, k) == ScriptSide(ps[..k], false)
  {
    hide EditSide;
    if k > 0 {
      ChosenIsNew(ps, answers, k - 1);
      assert ps[..k][..k - 1] == ps[..k - 1];
      var a, s := ScriptSide(ps[..k - 1], false), ps[k - 1].Sides();
      assert a + s.gap + s.post == a + (s.gap + s.post);
    }
  }

  lemma ScriptDescribes(ps: seq<Piece>, tail: seq<string>, source: string)
    requires Apart(ps) && LinesOf(source) == ScriptSide(ps, true) + tail
    requires TotalLines(Sections(ps), |ps|) < SIZE_RANGE
    ensures Describes(PatchOf(ps), Sections(ps), tail, source)
  {
    hide DescribesHunk, PatchOf, ScriptSide, LinesOf;
    forall k | 0 <= k < |ps| ensures DescribesHunk(PatchOf(ps), Sections(ps), k) {
      PatchDescribes(ps, k);
    }
    RestIsOld(ps, tail, 0);
    NoPieces(ps);
    assert [] + Rest(Sections(ps), tail, 0) == Rest(Sections(ps), tail, 0);
  }

  lemma NoPieces(ps: seq<Piece>)
    ensures ScriptSide(ps[..0], true) == []
  {
  }

  /** Writing the edits between two files as a patch and applying it to the old one makes the new one, byte for byte and
      also where a file does not end in a newline. It fails exactly when some hunk only deletes, without context, and
      stands behind a line other than those it deletes. */
  lemma ScriptMakesTarget(ps: seq<Piece>, tail: seq<string>, source: string, target: string)
    requires Apart(ps) && TotalLines(Sections(ps), |ps|) < SIZE_RANGE
    requires LinesOf(source) == ScriptSide(ps, true) + tail && LinesOf(target) == ScriptSide(ps, false) + tail
    ensures var r := TriedFrom(PatchOf(ps), 0, seq(|ps|, _ => 0), Progress(LinesOf(source), 0, 0));
            && (r.error == 0 <==> forall k :: 0 <= k < |ps| ==> Lands(ps[k].Sides()))
            && (r.error == 0 ==> Concat(r.progress.image) == target)
  {
    hide PatchOf, ScriptSide, LinesOf, Concat, Chosen, TriedFrom, Lands, Describes;
    var secs, answers := Sections(ps), seq(|ps|, _ => 0);
    ScriptDescribes(ps, tail, source);
    AppliesExactly(PatchOf(ps), secs, tail, source, answers);
    ChosenIsNew(ps, answers, |ps|);
    assert ps[..|ps|] == ps;
    LinesOfText(target);
    assert AllLand(secs, answers, 0) <==> forall k :: 0 <= k < |ps| ==> Lands(ps[k].Sides()) by {
      forall k | 0 <= k < |ps| ensures secs[k] == ps[k].Sides() {}
    }
  }

  /** A hunk with context in it can always be applied. */
  lemma {:induction false} ContextLands(p: Piece, i: nat)
    requires i < |p.edits| && !p.edits[i].Remove?
    ensures Lands(p.Sides())
  {
    LinesLeft(p.edits, i);
  }

  lemma {:induction false} LinesLeft(es: seq<Edit>, i: nat)
    requires i < |es| && !es[i].Remove?
    ensures EditSide(es, false) != []
  {
    if i < |es| - 1 {
      LinesLeft(es[..|es| - 1], i);
    }
  }
}
