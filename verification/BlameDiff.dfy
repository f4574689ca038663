/** Diff hunks between a file and its parent, and where an unchanged line of the file stands in the parent. */
module BlameDiff {
  import opened Wrappers
  import opened BlameLines

  /** Lines `startA` to `startA + countA` of the parent became lines `startB` to `startB + countB` of the target. */
  datatype Hunk = Hunk(startA: nat, countA: nat, startB: nat, countB: nat)

  /** The first target line, and the first parent line, after some hunks. */
  function TargetAfter(hs: seq<Hunk>): nat {
    if hs == [] then 0 else hs[|hs| - 1].startB + hs[|hs| - 1].countB
  }

  function ParentAfter(hs: seq<Hunk>): nat {
    if hs == [] then 0 else hs[|hs| - 1].startA + hs[|hs| - 1].countA
  }

  /** The hunks come in order and leave gaps of the same length on both sides. */
  ghost predicate Aligned(hs: seq<Hunk>) {
    forall i :: 0 <= i < |hs| ==>
      && TargetAfter(hs[..i]) <= hs[i].startB && ParentAfter(hs[..i]) <= hs[i].startA
      && hs[i].startB - TargetAfter(hs[..i]) == hs[i].startA - ParentAfter(hs[..i])
  }

  /** A diff of `a` and `b`: outside of the hunks the lines are the same. */
  ghost predicate ValidDiff(a: seq<string>, b: seq<string>, hs: seq<Hunk>) {
    && Aligned(hs)
    && TargetAfter(hs) <= |b| && ParentAfter(hs) <= |a| && a[ParentAfter(hs)..] == b[TargetAfter(hs)..]
    && forall i :: 0 <= i < |hs| ==>
         && hs[i].startB <= |b| && hs[i].startA <= |a|
         && TargetAfter(hs[..i]) <= hs[i].startB && ParentAfter(hs[..i]) <= hs[i].startA
         && a[ParentAfter(hs[..i])..hs[i].startA] == b[TargetAfter(hs[..i])..hs[i].startB]
  }

  /** The parent line that line `s` of the target came from; None for a line inside a hunk. */
  function ParentOf(hs: seq<Hunk>, s: nat): Option<nat> {
    if s >= TargetAfter(hs) then Some(ParentAfter(hs) + (s - TargetAfter(hs)))
    else if hs == [] || s >= hs[|hs| - 1].startB then None
    else ParentOf(hs[..|hs| - 1], s)
  }

  predicate Inside(h: Hunk, s: nat) {
    h.startB <= s < h.startB + h.countB
  }

  /** How much longer the parent's side of the hunks up to line `s` is. */
  function Growth(hs: seq<Hunk>, s: nat): int {
    if hs == [] then 0 else
      var h := hs[|hs| - 1];
      Growth(hs[..|hs| - 1], s) + (if h.startB + h.countB <= s then h.countA - h.countB else 0)
  }

  lemma AlignedFront(hs: seq<Hunk>)
    requires Aligned(hs) && hs != []
    ensures var front, h := hs[..|hs| - 1], hs[|hs| - 1];
            && Aligned(front)
            && TargetAfter(front) <= h.startB && ParentAfter(front) <= h.startA
            && h.startB - TargetAfter(front) == h.startA - ParentAfter(front)
  {
    var front := hs[..|hs| - 1];
    forall i | 0 <= i < |front|
      ensures && TargetAfter(front[..i]) <= front[i].startB && ParentAfter(front[..i]) <= front[i].startA
              && front[i].startB - TargetAfter(front[..i]) == front[i].startA - ParentAfter(front[..i])
    {
      assert front[..i] == hs[..i];
    }
  }

  lemma {:induction false} AllEnded(hs: seq<Hunk>, s: nat)
    requires Aligned(hs) && TargetAfter(hs) <= s
    ensures Growth(hs, s) == ParentAfter(hs) - TargetAfter(hs)
    ensures forall i :: 0 <= i < |hs| ==> !Inside(hs[i], s)
  {
    if hs != [] {
      AlignedFront(hs);
      var front := hs[..|hs| - 1];
      AllEnded(front, s);
      forall i | 0 <= i < |hs| ensures !Inside(hs[i], s) {
        if i < |hs| - 1 { assert hs[i] == front[i]; }
      }
    }
  }

  /** A line has a line of the parent it came from exactly when it lies outside of every hunk, and that is the line that
      many further on as the hunks before it shrank the file. */
  lemma {:induction false} ParentOfExact(hs: seq<Hunk>, s: nat)
    requires Aligned(hs)
    ensures ParentOf(hs, s).Some? <==> forall i :: 0 <= i < |hs| ==> !Inside(hs[i], s)
    ensures ParentOf(hs, s).Some? ==> ParentOf(hs, s).value == s + Growth(hs, s)
  {
    if s >= TargetAfter(hs) {
      AllEnded(hs, s);
    } else if hs != [] {
      AlignedFront(hs);
      var front, h := hs[..|hs| - 1], hs[|hs| - 1];
      if s >= h.startB {
        assert Inside(hs[|hs| - 1], s);
      } else {
        ParentOfExact(front, s);
        assert !Inside(h, s);
        assert forall i :: 0 <= i < |hs| - 1 ==> hs[i] == front[i];
      }
    }
  }

  lemma GapContent(a: seq<string>, b: seq<string>, hs: seq<Hunk>, k: nat, s: nat)
    requires ValidDiff(a, b, hs) && k <= |hs| && TargetAfter(hs[..k]) <= s < |b| && (k < |hs| ==> s < hs[k].startB)
    ensures var p := ParentAfter(hs[..k]) + (s - TargetAfter(hs[..k])); p < |a| && a[p] == b[s]
  {
    hide ParentOf;
    var t, p := TargetAfter(hs[..k]), ParentAfter(hs[..k]);
    if k < |hs| {
      assert a[p..hs[k].startA][s - t] == b[t..hs[k].startB][s - t];
    } else {
      assert hs[..k] == hs;
      assert a[p..][s - t] == b[t..][s - t];
    }
  }

  lemma ParentOfFront(hs: seq<Hunk>, k: nat, s: nat)
    requires k <= |hs|
    ensures ParentOf(hs[..k], s) ==
            if s >= TargetAfter(hs[..k]) then Some(ParentAfter(hs[..k]) + (s - TargetAfter(hs[..k])))
            else if k == 0 || s >= hs[k - 1].startB then None
            else ParentOf(hs[..k - 1], s)
  {
    assert k > 0 ==> hs[..k][..k - 1] == hs[..k - 1];
  }

  /** The line of the parent has the same content. */
  lemma {:induction false} ParentOfContent(a: seq<string>, b: seq<string>, hs: seq<Hunk>, k: nat, s: nat)
    requires ValidDiff(a, b, hs) && k <= |hs| && s < |b| && (k < |hs| ==> s < hs[k].startB)
    ensures ParentOf(hs[..k], s).Some? ==>
              ParentOf(hs[..k], s).value < |a| && a[ParentOf(hs[..k], s).value] == b[s]
    decreases k
  {
    hide ParentOf, ValidDiff, TargetAfter, ParentAfter;
    ParentOfFront(hs, k, s);
    if s >= TargetAfter(hs[..k]) {
      GapContent(a, b, hs, k, s);
    } else if k > 0 && s < hs[k - 1].startB {
      ParentOfContent(a, b, hs, k - 1, s);
    }
  }

  // ----- passing blame through a list of hunks -----

  /** The blame for a line after the chunks in front of the hunks `hs`. */
  function AfterHunks(l: Line, hs: seq<Hunk>, target: Origin, parent: Origin): Line {
    if hs == [] then l else
      var front := hs[..|hs| - 1];
      ChunkLine(AfterHunks(l, front, target, parent),
                Chunk(TargetAfter(front), ParentAfter(front), hs[|hs| - 1].startB, target, parent))
  }

  /** A suspected line outside of every hunk is blamed on the parent, at the line it came from; all others stay. */
  function PassedLine(l: Line, hs: seq<Hunk>, target: Origin, parent: Origin): Line {
    if Suspected(l, target) && ParentOf(hs, l.sLno).Some? then Line(parent, ParentOf(hs, l.sLno).value, false) else l
  }

  function PassedLines(ls: seq<Line>, hs: seq<Hunk>, target: Origin, parent: Origin): (r: seq<Line>)
    ensures |r| == |ls| && forall k :: 0 <= k < |ls| ==> r[k] == PassedLine(ls[k], hs, target, parent)
  {
    seq(|ls|, k requires 0 <= k < |ls| => PassedLine(ls[k], hs, target, parent))
  }

  lemma {:induction false} AfterHunksIs(l: Line, hs: seq<Hunk>, target: Origin, parent: Origin)
    requires Aligned(hs) && parent != target
    ensures AfterHunks(l, hs, target, parent)
            == if l.sLno < TargetAfter(hs) then PassedLine(l, hs, target, parent) else l
  {
    if hs != [] {
      AlignedFront(hs);
      var front, h := hs[..|hs| - 1], hs[|hs| - 1];
      AfterHunksIs(l, front, target, parent);
      assert ParentOf(hs, l.sLno) ==
             if l.sLno >= TargetAfter(hs) then Some(ParentAfter(hs) + (l.sLno - TargetAfter(hs)))
             else if l.sLno >= h.startB then None else ParentOf(front, l.sLno);
      assert l.sLno >= TargetAfter(front) ==>
          ParentOf(front, l.sLno) == Some(ParentAfter(front) + (l.sLno - TargetAfter(front)));
    }
  }

  /** The chunks between the hunks and the one after the last hunk, taken together, are exact. */
  lemma PassedIsExact(l: Line, hs: seq<Hunk>, target: Origin, parent: Origin, end: nat)
    requires Aligned(hs) && parent != target && (Suspected(l, target) ==> l.sLno < end)
    ensures ChunkLine(AfterHunks(l, hs, target, parent), Chunk(TargetAfter(hs), ParentAfter(hs), end, target, parent))
            == PassedLine(l, hs, target, parent)
  {
    AfterHunksIs(l, hs, target, parent);
  }
}
