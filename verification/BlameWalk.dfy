/** Blaming a file: passing blame from commit to commit until every line has found the commit that introduced it. */
module BlameWalk {
  import opened Wrappers
  import opened BlameLines
  import opened BlameDiff
  import opened Scoreboard

  // ----- changes that keep the grouping -----

  /** Blaming everything one suspect has on another, or finding a suspect guilty. */
  datatype Change = Rename(from: Origin, newSuspect: Origin) | Convict(origin: Origin)

  function ChangeLine(l: Line, ch: Change): Line {
    match ch
    case Rename(o, p) => if l.suspect == o then l.(suspect := p) else l
    case Convict(o) => if l.suspect == o then l.(guilty := true) else l
  }

  function ChangeLines(ls: seq<Line>, ch: Change): (r: seq<Line>)
    ensures |r| == |ls| && forall k :: 0 <= k < |ls| ==> r[k] == ChangeLine(ls[k], ch)
  {
    seq(|ls|, k requires 0 <= k < |ls| => ChangeLine(ls[k], ch))
  }

  function ChangeGroup(g: Group, ch: Change): Group {
    match ch
    case Rename(o, p) => if g.suspect == o then g.(suspect := p) else g
    case Convict(o) => if g.suspect == o then g.(guilty := true) else g
  }

  lemma {:induction false} ChangeGroups(gs: seq<Group>, gs': seq<Group>, ch: Change)
    requires |gs'| == |gs| && forall i :: 0 <= i < |gs| ==> gs'[i] == ChangeGroup(gs[i], ch)
    ensures Lines(gs') == ChangeLines(Lines(gs), ch)
  {
    hide ChangeGroup, ChangeLine;
    if gs != [] {
      ChangeGroups(gs[1..], gs'[1..], ch);
      assert GroupLines(gs'[0]) == ChangeLines(GroupLines(gs[0]), ch) by { ChangeOneGroup(gs[0], ch); }
    }
  }

  lemma ChangeOneGroup(g: Group, ch: Change)
    ensures GroupLines(ChangeGroup(g, ch)) == ChangeLines(GroupLines(g), ch)
  {
  }

  lemma ChangeContiguous(gs: seq<Group>, gs': seq<Group>, first: nat, ch: Change)
    requires |gs'| == |gs| && forall i :: 0 <= i < |gs| ==> gs'[i] == ChangeGroup(gs[i], ch)
    requires Contiguous(gs, first)
    ensures Contiguous(gs', first)
  {
  }

  method ChangeEntry(b: Blame, e: Entry, ch: Change, boundary: bool)
    requires b.Linked() && e in b.repr
    modifies e
    ensures b.Linked() && e.Value() == ChangeGroup(old(e.Value()), ch)
  {
    hide Link;
    match ch {
      case Rename(o, p) =>
        if e.suspect == o { e.suspect := p; }
      case Convict(o) =>
        if e.suspect == o {
          e.guilty := true;
          e.isBoundary := boundary;
        }
    }
  }

  /** Applies a change to every entry. */
  method ChangeEntries(b: Blame, ghost first: nat, ch: Change, boundary: bool)
    requires b.Valid(first)
    modifies b.repr
    ensures b.Valid(first) && b.Blamed() == ChangeLines(old(b.Blamed()), ch)
  {
    hide Contiguous, Lines, ChangeGroup, b.Linked;
    ghost var es := b.entries;
    var e := b.ent;
    ghost var i: nat := 0;
    b.AtStart();
    while e != null
      invariant i <= |es| && e == Link(es, i)
      invariant b.Linked()
      invariant forall k :: 0 <= k < i ==> es[k].Value() == ChangeGroup(old(es[k].Value()), ch)
      invariant forall k :: i <= k < |es| ==> es[k].Value() == old(es[k].Value())
      decreases |es| - i
    {
      b.OthersDiffer(i);
      ChangeEntry(b, e, ch, boundary);
      b.AtEntry(i);
      e := e.next;
      i := i + 1;
    }
    ChangeGroups(old(Values(b.entries)), Values(b.entries), ch);
    ChangeContiguous(old(Values(b.entries)), Values(b.entries), first, ch);
  }

  /** The blobs of origin and its parent match, so everything the origin is suspected of is blamed on the parent. */
  method PassWholeBlame(b: Blame, ghost first: nat, origin: Origin, porigin: Origin)
    requires b.Valid(first)
    modifies b.repr
    ensures b.Valid(first) && b.Blamed() == ChangeLines(old(b.Blamed()), Rename(origin, porigin))
  {
    ChangeEntries(b, first, Rename(origin, porigin), false);
  }

  // ----- passing blame to one parent -----

  lemma {:induction false} LineGroup(gs: seq<Group>, l: Line) returns (i: nat, k: nat)
    requires l in Lines(gs)
    ensures i < |gs| && k < gs[i].numLines && l == Line(gs[i].suspect, gs[i].sLno + k, gs[i].guilty)
  {
    if l in GroupLines(gs[0]) {
      i := 0;
      k :| 0 <= k < gs[0].numLines && GroupLines(gs[0])[k] == l;
    } else {
      assert l in Lines(gs[1..]);
      i, k := LineGroup(gs[1..], l);
      i := i + 1;
    }
  }

  ghost predicate AnySuspected(ls: seq<Line>, target: Origin) {
    exists l :: l in ls && Suspected(l, target)
  }

  ghost predicate SuspectedBelow(ls: seq<Line>, target: Origin, end: nat) {
    forall l :: l in ls && Suspected(l, target) ==> l.sLno < end
  }

  /** What the search has found once it has seen the first `i` groups. */
  ghost predicate LastUpTo(gs: seq<Group>, i: nat, target: Origin, found: bool, last: nat)
    requires i <= |gs|
  {
    && (found <==> exists k :: 0 <= k < i && !gs[k].guilty && gs[k].suspect == target)
    && (forall k :: 0 <= k < i && !gs[k].guilty && gs[k].suspect == target ==> gs[k].sLno + gs[k].numLines <= last)
    && (last > 0 ==> found)
  }

  lemma LastStep(gs: seq<Group>, i: nat, target: Origin, found: bool, last: nat)
    requires i < |gs| && LastUpTo(gs, i, target, found, last) && gs[i].numLines > 0
    ensures var end := gs[i].sLno + gs[i].numLines;
            if !gs[i].guilty && gs[i].suspect == target && last < end then LastUpTo(gs, i + 1, target, true, end)
            else LastUpTo(gs, i + 1, target, found, last)
  {
  }

  /** From the groups to the lines: what the search has found. */
  lemma FoundLast(gs: seq<Group>, first: nat, target: Origin, found: bool, last: nat)
    requires Contiguous(gs, first) && LastUpTo(gs, |gs|, target, found, last)
    ensures (found <==> AnySuspected(Lines(gs), target)) && SuspectedBelow(Lines(gs), target, last)
  {
    forall l | l in Lines(gs) && Suspected(l, target) ensures found && l.sLno < last {
      var i, k := LineGroup(gs, l);
      assert !gs[i].guilty && gs[i].suspect == target;
    }
    if found {
      var i :| 0 <= i < |gs| && !gs[i].guilty && gs[i].suspect == target;
      LinesMember(gs, i, 0);
    }
  }

  /** Finds the end of the last line that the target is suspected for. */
  method FindLastInTarget(b: Blame, ghost first: nat, target: Origin) returns (found: bool, last: nat)
    requires b.Valid(first)
    ensures found <==> AnySuspected(b.Blamed(), target)
    ensures SuspectedBelow(b.Blamed(), target, last)
  {
    hide Lines, AnySuspected, SuspectedBelow, b.Linked, Contiguous, Values, LastUpTo;
    found, last := false, 0;
    var e := b.ent;
    ghost var i: nat := 0;
    ghost var gs := Values(b.entries);
    b.AtStart();
    assert LastUpTo(gs, 0, target, false, 0) by { NothingSeen(gs, target); }
    while e != null
      invariant i <= |gs| && e == Link(b.entries, i)
      invariant LastUpTo(gs, i, target, found, last)
      decreases |gs| - i
    {
      GroupNotEmpty(gs, first, i);
      LastStep(gs, i, target, found, last);
      b.AtEntry(i);
      assert e.Value() == gs[i];
      if !e.guilty && e.suspect == target {
        if last < e.sLno + e.numLines {
          found := true;
          last := e.sLno + e.numLines;
        }
      }
      e := e.next;
      i := i + 1;
    }
    FoundLast(gs, first, target, found, last);
  }

  lemma NothingSeen(gs: seq<Group>, target: Origin)
    ensures LastUpTo(gs, 0, target, false, 0)
  {
  }

  function AfterHunksLines(ls: seq<Line>, hs: seq<Hunk>, target: Origin, parent: Origin): (r: seq<Line>)
    ensures |r| == |ls| && forall k :: 0 <= k < |ls| ==> r[k] == AfterHunks(ls[k], hs, target, parent)
  {
    seq(|ls|, k requires 0 <= k < |ls| => AfterHunks(ls[k], hs, target, parent))
  }

  /** One more hunk. */
  lemma HunkStep(ls: seq<Line>, hs: seq<Hunk>, j: nat, target: Origin, parent: Origin)
    requires j < |hs| && Aligned(hs)
    ensures var c := Chunk(TargetAfter(hs[..j]), ParentAfter(hs[..j]), hs[j].startB, target, parent);
            && ChunkFits(AfterHunksLines(ls, hs[..j], target, parent), c)
            && ChunkLines(AfterHunksLines(ls, hs[..j], target, parent), c)
                == AfterHunksLines(ls, hs[..j + 1], target, parent)
  {
    assert hs[..j + 1][..j] == hs[..j];
  }

  lemma NoHunks(ls: seq<Line>, hs: seq<Hunk>, target: Origin, parent: Origin)
    ensures AfterHunksLines(ls, hs[..0], target, parent) == ls
  {
  }

  /** The rest of the file, after the last hunk. */
  lemma RestStep(ls: seq<Line>, hs: seq<Hunk>, target: Origin, parent: Origin, last: nat)
    requires Aligned(hs) && parent != target && SuspectedBelow(ls, target, last)
    ensures var c := Chunk(TargetAfter(hs), ParentAfter(hs), last, target, parent);
            && ChunkFits(AfterHunksLines(ls, hs, target, parent), c)
            && ChunkLines(AfterHunksLines(ls, hs, target, parent), c) == PassedLines(ls, hs, target, parent)
  {
    hide AfterHunks, ChunkLine, PassedLine, Aligned;
    var c := Chunk(TargetAfter(hs), ParentAfter(hs), last, target, parent);
    var after := AfterHunksLines(ls, hs, target, parent);
    forall l | l in after && Suspected(l, target) ensures l.sLno < last {
      var k :| 0 <= k < |ls| && after[k] == l;
      SuspectedIsOld(ls[k], hs, target, parent);
      assert ls[k] in ls;
    }
    forall k | 0 <= k < |ls| ensures ChunkLine(after[k], c) == PassedLine(ls[k], hs, target, parent) {
      assert ls[k] in ls;
      PassedIsExact(ls[k], hs, target, parent, last);
    }
  }

  lemma SuspectedIsOld(l: Line, hs: seq<Hunk>, target: Origin, parent: Origin)
    requires Aligned(hs) && parent != target
    ensures Suspected(AfterHunks(l, hs, target, parent), target) ==> AfterHunks(l, hs, target, parent) == l
  {
    AfterHunksIs(l, hs, target, parent);
  }

  /** Passes to the parent the blame for exactly the suspected lines that lie outside of every hunk, each at the line it
      came from. Returns 1 when nothing is suspected of the target any more, else 0. */
  method PassBlameToParent(b: Blame, ghost first: nat, target: Origin, parent: Origin,
      hunks: seq<Hunk>) returns (r: int)
    requires b.Valid(first) && parent != target && Aligned(hunks)
    modifies b, b.repr
    ensures b.Valid(first) && fresh(b.repr - old(b.repr)) && b.oldest == old(b.oldest) && b.paths == old(b.paths)
    ensures b.Blamed() == PassedLines(old(b.Blamed()), hunks, target, parent)
    ensures r == if AnySuspected(old(b.Blamed()), target) then 0 else 1
  {
    hide AfterHunksLines, PassedLines, ChunkFits, ChunkLines, Aligned, AnySuspected, SuspectedBelow, Lines, Values,
        b.Linked, Contiguous;
    var found, last := FindLastInTarget(b, first, target);
    ghost var ls := b.Blamed();
    if !found {
      NothingPassed(ls, hunks, target, parent);
      return 1;
    }
    var tlno, plno := 0, 0;
    NoHunks(ls, hunks, target, parent);
    for j := 0 to |hunks|
      invariant b.Valid(first) && fresh(b.repr - old(b.repr)) && b.oldest == old(b.oldest) && b.paths == old(b.paths)
      invariant tlno == TargetAfter(hunks[..j]) && plno == ParentAfter(hunks[..j])
      invariant b.Blamed() == AfterHunksLines(ls, hunks[..j], target, parent)
    {
      HunkStep(ls, hunks, j, target, parent);
      b.BlameChunk(first, Chunk(tlno, plno, hunks[j].startB, target, parent));
      plno := hunks[j].startA + hunks[j].countA;
      tlno := hunks[j].startB + hunks[j].countB;
    }
    assert hunks[..|hunks|] == hunks;
    RestStep(ls, hunks, target, parent, last);
    b.BlameChunk(first, Chunk(tlno, plno, last, target, parent));
    r := 0;
  }

  lemma NothingPassed(ls: seq<Line>, hs: seq<Hunk>, target: Origin, parent: Origin)
    requires !AnySuspected(ls, target)
    ensures PassedLines(ls, hs, target, parent) == ls
  {
    forall k | 0 <= k < |ls| ensures PassedLine(ls[k], hs, target, parent) == ls[k] {
      assert ls[k] in ls;
    }
  }

  // ----- passing blame to all parents -----

  /** A file that differs between two trees; where it was renamed, it has two names. */
  datatype Delta = Delta(oldPath: string, newPath: string)

  /** Where a file was found, and the names it is known to have had. */
  datatype Found = Found(origin: Option<Origin>, paths: set<string>)

  /** The history the blame walks through: the parents of a commit; whether none of some paths differs between a parent
      and its child, and which files do; which files there are, with their lines; and the hunks of a diff. */
  datatype Files = Files(
    parents: CommitId -> seq<CommitId>,
    untouched: (CommitId, CommitId, set<string>) -> bool,
    deltas: (CommitId, CommitId) -> seq<Delta>,
    has: Origin -> bool,
    blob: Origin -> seq<string>,
    diff: (seq<string>, seq<string>) -> seq<Hunk>)
  {
    /** The commits have no cycle, and a diff is a diff. */
    ghost predicate Valid(rank: CommitId -> nat) {
      && (forall c, p :: p in parents(c) ==> rank(p) < rank(c))
      && (forall a, b :: ValidDiff(a, b, diff(a, b)))
    }

    /** The parents that are looked at. */
    function Considered(c: CommitId, oldest: Option<CommitId>, firstParent: bool): (ps: seq<CommitId>)
      ensures forall p :: p in ps ==> p in parents(c)
    {
      if Some(c) == oldest then [] else if firstParent && |parents(c)| > 1 then parents(c)[..1] else parents(c)
    }

    /** Follows the renames of all files that have a known name; the last one that is there is the answer. */
    function Followed(p: CommitId, ds: seq<Delta>, paths: set<string>): (f: Found)
      ensures paths <= f.paths && (f.origin.Some? ==> f.origin.value.commit == p)
    {
      if ds == [] then Found(None, paths) else
        var f := Followed(p, ds[..|ds| - 1], paths);
        var d := ds[|ds| - 1];
        if d.newPath !in f.paths then f else
          Found(if has(Origin(p, d.oldPath)) then Some(Origin(p, d.oldPath)) else f.origin, f.paths + {d.oldPath})
    }

    /** None of the files with these names was ever renamed. */
    ghost predicate NotRenamed(paths: set<string>) {
      forall p, c, d :: d in deltas(p, c) && d.newPath in paths ==> d.oldPath in paths
    }

    lemma {:induction false} FollowedNothing(p: CommitId, ds: seq<Delta>, paths: set<string>)
      requires forall d :: d in ds && d.newPath in paths ==> d.oldPath in paths
      ensures Followed(p, ds, paths).paths == paths
      ensures var f := Followed(p, ds, paths); f.origin.Some? ==> f.origin.value.path in paths
    {
      if ds != [] {
        FollowedNothing(p, ds[..|ds| - 1], paths);
      }
    }

    /** Where the file of an origin is in a parent. The answer depends on the names known so far, and adds to them. */
    function FindOrigin(paths: set<string>, p: CommitId, o: Origin): (f: Found)
      ensures paths <= f.paths && (f.origin.Some? ==> f.origin.value.commit == p)
    {
      if untouched(p, o.commit, paths) then
        Found(if has(Origin(p, o.path)) then Some(Origin(p, o.path)) else None, paths)
      else
        Followed(p, deltas(p, o.commit), paths)
    }

    /** The line does not come from the parents as far as the file was found there: it has other content there, and the
        line lies inside a hunk of the diff. */
    predicate SettledBy(l: Line, found: seq<Option<Origin>>) {
      forall i :: 0 <= i < |found| ==> SettledFor(l, found[i])
    }

    /** The line does not come from any of the parents. */
    predicate Settled(l: Line, paths: set<string>, ps: seq<CommitId>) {
      forall i :: 0 <= i < |ps| ==> SettledFor(l, FindOrigin(paths, ps[i], l.suspect).origin)
    }

    predicate SettledFor(l: Line, porigin: Option<Origin>) {
      porigin.Some? ==>
        && blob(porigin.value) != blob(l.suspect)
        && ParentOf(diff(blob(porigin.value), blob(l.suspect)), l.sLno).None?
    }

    /** A line that has its content in its suspect's file still has it. */
    predicate Carries(l: Line, l': Line) {
      l.sLno < |blob(l.suspect)| ==>
          l'.sLno < |blob(l'.suspect)| && blob(l'.suspect)[l'.sLno] == blob(l.suspect)[l.sLno]
    }

    /** What passing the blame of `origin` on may do to a line. */
    predicate PassedOn(origin: Origin, l: Line, l': Line) {
      l' == l || (l.suspect == origin && l'.guilty == l.guilty && l'.suspect.commit in parents(origin.commit)
          && Carries(l, l'))
    }

    predicate AllPassedOn(origin: Origin, ls: seq<Line>, ls': seq<Line>) {
      |ls'| == |ls| && forall k :: 0 <= k < |ls| ==> PassedOn(origin, ls[k], ls'[k])
    }
  }

  /** One parent, by the hunks of its diff. */
  lemma PassedToParent(files: Files, rank: CommitId -> nat, ls: seq<Line>, origin: Origin, porigin: Origin)
    requires files.Valid(rank) && porigin.commit in files.parents(origin.commit)
    ensures var hunks := files.diff(files.blob(porigin), files.blob(origin));
            && porigin != origin && Aligned(hunks)
            && files.AllPassedOn(origin, ls, PassedLines(ls, hunks, origin, porigin))
            && forall k :: 0 <= k < |ls| && Suspected(PassedLines(ls, hunks, origin, porigin)[k], origin) ==>
                 PassedLines(ls, hunks, origin, porigin)[k] == ls[k] && ParentOf(hunks, ls[k].sLno).None?
  {
    var a, b := files.blob(porigin), files.blob(origin);
    var hunks := files.diff(a, b);
    assert ValidDiff(a, b, hunks);
    assert rank(porigin.commit) < rank(origin.commit);
    forall k | 0 <= k < |ls| ensures files.PassedOn(origin, ls[k], PassedLines(ls, hunks, origin, porigin)[k]) {
      var l := ls[k];
      if Suspected(l, origin) && l.sLno < |b| {
        ParentOfContent(a, b, hunks, |hunks|, l.sLno);
        assert hunks[..|hunks|] == hunks;
      }
    }
  }

  /** Blame that was passed on does not come back, so passing it on in steps is passing it on. */
  lemma PassedOnTwice(files: Files, rank: CommitId -> nat, origin: Origin, ls: seq<Line>, ls': seq<Line>,
      ls'': seq<Line>)
    requires files.Valid(rank) && files.AllPassedOn(origin, ls, ls') && files.AllPassedOn(origin, ls', ls'')
    ensures files.AllPassedOn(origin, ls, ls'')
  {
    forall k | 0 <= k < |ls| ensures files.PassedOn(origin, ls[k], ls''[k]) {
      assert files.PassedOn(origin, ls[k], ls'[k]) && files.PassedOn(origin, ls'[k], ls''[k]);
      if ls'[k] != ls[k] {
        assert rank(ls'[k].suspect.commit) < rank(origin.commit);
      }
    }
  }

  lemma PassedWhole(files: Files, ls: seq<Line>, origin: Origin, porigin: Origin)
    requires files.blob(porigin) == files.blob(origin) && porigin.commit in files.parents(origin.commit)
    ensures files.AllPassedOn(origin, ls, ChangeLines(ls, Rename(origin, porigin)))
  {
  }

  /** Whether one of the first `n` gathered origins has the content `blob`. */
  predicate HasSame(files: Files, sg: seq<Option<Origin>>, n: nat, blob: seq<string>)
    requires n <= |sg|
  {
    exists k :: 0 <= k < n && sg[k].Some? && files.blob(sg[k].value) == blob
  }

  /** What has been gathered about the first `i` parents: where the file was found there, except that of parents with
      the same content only the first one is kept. */
  ghost predicate Gathered(files: Files, origin: Origin, found: seq<Option<Origin>>, sg: seq<Option<Origin>>, i: nat)
    requires i <= |found| && i <= |sg|
  {
    forall j :: 0 <= j < i ==> GatheredOne(files, origin, found[j], sg, j)
  }

  ghost predicate GatheredOne(files: Files, origin: Origin, porigin: Option<Origin>, sg: seq<Option<Origin>>, j: nat)
    requires j < |sg|
  {
    && (sg[j].Some? ==> sg[j] == porigin)
    && (porigin.Some? ==>
         files.blob(porigin.value) != files.blob(origin) && HasSame(files, sg, j + 1, files.blob(porigin.value)))
  }

  lemma HasSameKept(files: Files, sg: seq<Option<Origin>>, n: nat, i: nat, found: Option<Origin>, blob: seq<string>)
    requires n <= i < |sg| && HasSame(files, sg, n, blob)
    ensures HasSame(files, sg[i := found], n, blob) && HasSame(files, sg[i := found], i + 1, blob)
  {
    var k :| 0 <= k < n && sg[k].Some? && files.blob(sg[k].value) == blob;
    assert sg[i := found][k] == sg[k];
  }

  lemma GatherStep(files: Files, origin: Origin, found: seq<Option<Origin>>, sg: seq<Option<Origin>>,
      porigin: Option<Origin>, kept: Option<Origin>)
    requires |found| < |sg| && Gathered(files, origin, found, sg, |found|)
    requires if porigin.None? then kept == None
             else
               && files.blob(porigin.value) != files.blob(origin)
               && kept == if HasSame(files, sg, |found|, files.blob(porigin.value)) then None else porigin
    ensures Gathered(files, origin, found + [porigin], sg[|found| := kept], |found| + 1)
  {
    var i := |found|;
    var sg' := sg[i := kept];
    forall j | 0 <= j < i + 1 ensures GatheredOne(files, origin, (found + [porigin])[j], sg', j) {
      if j < i {
        assert GatheredOne(files, origin, found[j], sg, j);
        if found[j].Some? {
          HasSameKept(files, sg, j + 1, i, kept, files.blob(found[j].value));
        }
      } else if porigin.Some? && kept == None {
        HasSameKept(files, sg, i, i, kept, files.blob(porigin.value));
      } else {
        assert sg'[i] == porigin;
      }
    }
  }

  /** The lines that are still suspected come from none of the first `i` gathered parents. */
  ghost predicate SettledUpTo(files: Files, origin: Origin, sg: seq<Option<Origin>>, i: nat, ls: seq<Line>)
    requires i <= |sg|
  {
    forall j, l :: 0 <= j < i && sg[j].Some? && l in ls && Suspected(l, origin) ==>
      ParentOf(files.diff(files.blob(sg[j].value), files.blob(origin)), l.sLno).None?
  }

  lemma SettledStep(files: Files, rank: CommitId -> nat, origin: Origin, sg: seq<Option<Origin>>, i: nat,
      ls: seq<Line>, ls': seq<Line>)
    requires files.Valid(rank) && i < |sg| && SettledUpTo(files, origin, sg, i, ls)
    requires sg[i].Some? && sg[i].value.commit in files.parents(origin.commit)
    requires ls' == PassedLines(ls, files.diff(files.blob(sg[i].value), files.blob(origin)), origin, sg[i].value)
    ensures SettledUpTo(files, origin, sg, i + 1, ls')
  {
    PassedToParent(files, rank, ls, origin, sg[i].value);
    forall j, l | 0 <= j < i + 1 && sg[j].Some? && l in ls' && Suspected(l, origin)
      ensures ParentOf(files.diff(files.blob(sg[j].value), files.blob(origin)), l.sLno).None?
    {
      var k :| 0 <= k < |ls'| && ls'[k] == l;
      assert ls'[k] == ls[k] && ls[k] in ls;
    }
  }

  lemma SettledSkip(files: Files, origin: Origin, sg: seq<Option<Origin>>, i: nat, ls: seq<Line>)
    requires i < |sg| && sg[i].None? && SettledUpTo(files, origin, sg, i, ls)
    ensures SettledUpTo(files, origin, sg, i + 1, ls)
  {
  }

  /** When all parents have been tried, what is still suspected is settled. */
  lemma SettledAtEnd(files: Files, origin: Origin, found: seq<Option<Origin>>, sg: seq<Option<Origin>>, ls: seq<Line>)
    requires |found| == |sg| && Gathered(files, origin, found, sg, |sg|) && SettledUpTo(files, origin, sg, |sg|, ls)
    ensures forall l :: l in ls && Suspected(l, origin) ==> files.SettledBy(l, found)
  {
    forall l, i | l in ls && Suspected(l, origin) && 0 <= i < |found| ensures files.SettledFor(l, found[i]) {
      if found[i].Some? {
        assert GatheredOne(files, origin, found[i], sg, i);
        var k :| 0 <= k < i + 1 && sg[k].Some? && files.blob(sg[k].value) == files.blob(found[i].value);
        assert ParentOf(files.diff(files.blob(sg[k].value), files.blob(origin)), l.sLno).None?;
      }
    }
  }

  lemma NoneSuspected(files: Files, origin: Origin, found: seq<Option<Origin>>, ls: seq<Line>)
    requires !AnySuspected(ls, origin)
    ensures forall l :: l in ls && Suspected(l, origin) ==> files.SettledBy(l, found)
  {
  }

  /** Guilty lines that are settled stay where they are. */
  ghost predicate KeepsSettled(files: Files, origin: Origin, found: seq<Option<Origin>>, ls: seq<Line>,
      ls': seq<Line>)
  {
    && |ls'| == |ls|
    && forall k :: 0 <= k < |ls| ==>
         ls[k].guilty && (ls[k].suspect == origin ==> files.SettledBy(ls[k], found)) ==> ls'[k] == ls[k]
  }

  lemma WholeKeepsSettled(files: Files, origin: Origin, found: seq<Option<Origin>>, ls: seq<Line>, porigin: Origin)
    requires Some(porigin) in found && porigin != origin && files.blob(porigin) == files.blob(origin)
    ensures KeepsSettled(files, origin, found, ls, ChangeLines(ls, Rename(origin, porigin)))
    ensures !AnySuspected(ChangeLines(ls, Rename(origin, porigin)), origin)
  {
    var i :| 0 <= i < |found| && found[i] == Some(porigin);
    forall k | 0 <= k < |ls| && ls[k].guilty && (ls[k].suspect == origin ==> files.SettledBy(ls[k], found))
      ensures ls[k].suspect != origin
    {
      assert ls[k].suspect == origin ==> files.SettledFor(ls[k], found[i]);
    }
  }

  lemma NothingGathered(files: Files, origin: Origin, sg: seq<Option<Origin>>, ls: seq<Line>)
    ensures Gathered(files, origin, [], sg, 0) && SettledUpTo(files, origin, sg, 0, ls)
  {
  }

  /** Where the file was found in the first parents, each time by the names known then. */
  ghost predicate AllFound(files: Files, origin: Origin, ps: seq<CommitId>, found: seq<Option<Origin>>,
      before: set<string>, after: set<string>)
  {
    && |found| <= |ps| && before <= after
    && (forall i :: 0 <= i < |found| && found[i].Some? ==> found[i].value.commit == ps[i])
    && (files.NotRenamed(before) ==> after == before)
    && (files.NotRenamed(before) && origin.path in before ==>
         forall i :: 0 <= i < |found| && found[i].Some? ==> found[i].value.path in before)
    && (before == after ==> forall i :: 0 <= i < |found| ==> found[i] == files.FindOrigin(before, ps[i], origin).origin)
  }

  lemma FoundMore(files: Files, origin: Origin, ps: seq<CommitId>, found: seq<Option<Origin>>, before: set<string>,
      after: set<string>)
    requires |found| < |ps| && AllFound(files, origin, ps, found, before, after)
    ensures var f := files.FindOrigin(after, ps[|found|], origin);
            AllFound(files, origin, ps, found + [f.origin], before, f.paths)
  {
    var f := files.FindOrigin(after, ps[|found|], origin);
    assert before <= after <= f.paths;
    if files.NotRenamed(before) {
      files.FollowedNothing(ps[|found|], files.deltas(ps[|found|], origin.commit), before);
    }
    assert f.paths == before ==> after == before;
  }

  method AddPath(b: Blame, ghost first: nat, path: string)
    requires b.Valid(first)
    modifies b`paths
    ensures b.Valid(first) && b.Blamed() == old(b.Blamed()) && b.paths == old(b.paths) + {path}
  {
    b.paths := b.paths + {path};
  }

  /** Looks for the file in a parent, by all the names it is known to have had. */
  method FindOrigin(b: Blame, ghost first: nat, files: Files, p: CommitId, origin: Origin)
    returns (porigin: Option<Origin>)
    requires b.Valid(first)
    modifies b`paths
    ensures Found(porigin, b.paths) == files.FindOrigin(old(b.paths), p, origin)
    ensures b.Valid(first) && b.Blamed() == old(b.Blamed())
  {
    hide Contiguous, Lines, Distinct, Link;
    if files.untouched(p, origin.commit, b.paths) {
      return if files.has(Origin(p, origin.path)) then Some(Origin(p, origin.path)) else None;
    }
    porigin := None;
    var ds := files.deltas(p, origin.commit);
    for i := 0 to |ds|
      invariant Found(porigin, b.paths) == files.Followed(p, ds[..i], old(b.paths))
      invariant b.Valid(first) && b.Blamed() == old(b.Blamed())
    {
      assert ds[..i + 1][..i] == ds[..i];
      if ds[i].newPath in b.paths {
        AddPath(b, first, ds[i].oldPath);
        if files.has(Origin(p, ds[i].oldPath)) {
          porigin := Some(Origin(p, ds[i].oldPath));
        }
      }
    }
    assert ds[..|ds|] == ds;
  }

  /** Finds the file in each parent; when it is the very same there, the whole blame goes to that parent at once. */
  method GatherOrigins(b: Blame, ghost first: nat, files: Files, ghost rank: CommitId -> nat, origin: Origin,
                       ps: seq<CommitId>, sg: array<Option<Origin>>)
    returns (whole: bool, ghost found: seq<Option<Origin>>)
    requires b.Valid(first) && files.Valid(rank) && (forall p :: p in ps ==> p in files.parents(origin.commit))
    requires sg.Length == |ps| && forall j :: 0 <= j < |ps| ==> sg[j] == None
    modifies b`paths, b.repr, sg
    ensures b.Valid(first) && AllFound(files, origin, ps, found, old(b.paths), b.paths)
    ensures !whole ==> b.Blamed() == old(b.Blamed()) && |found| == |ps| && Gathered(files, origin, found, sg[..], |ps|)
    ensures whole ==>
              && files.AllPassedOn(origin, old(b.Blamed()), b.Blamed())
              && !AnySuspected(b.Blamed(), origin)
              && KeepsSettled(files, origin, found, old(b.Blamed()), b.Blamed())
              && FromFound(found, old(b.Blamed()), b.Blamed())
  {
    hide Gathered, SettledUpTo, AnySuspected, ChangeLines, KeepsSettled, Lines, Values, b.Linked, Contiguous, AllFound,
        FromFound;
    ghost var ls := b.Blamed();
    found := [];
    NothingGathered(files, origin, sg[..], ls);
    NothingFound(files, origin, ps, b.paths);
    for i := 0 to |ps|
      invariant b.Valid(first) && b.Blamed() == ls
      invariant |found| == i && AllFound(files, origin, ps, found, old(b.paths), b.paths)
      invariant Gathered(files, origin, found, sg[..], i) && forall j :: i <= j < |ps| ==> sg[j] == None
    {
      ghost var before := sg[..];
      FoundMore(files, origin, ps, found, old(b.paths), b.paths);
      var porigin := FindOrigin(b, first, files, ps[i], origin);
      var kept := None;
      if porigin.Some? {
        assert rank(ps[i]) < rank(origin.commit) by { assert ps[i] in ps; }
        if files.blob(porigin.value) == files.blob(origin) {
          assert porigin.value.commit in files.parents(origin.commit) by { assert ps[i] in ps; }
          found := found + [porigin];
          PassedWhole(files, ls, origin, porigin.value);
          WholeKeepsSettled(files, origin, found, ls, porigin.value);
          FromFoundWhole(found, ls, origin, porigin.value);
          PassWholeBlame(b, first, origin, porigin.value);
          return true, found;
        }
        if !HasSame(files, sg[..], i, files.blob(porigin.value)) {
          kept := porigin;
        }
      }
      GatherStep(files, origin, found, before, porigin, kept);
      sg[i] := kept;
      assert sg[..] == before[i := kept];
      found := found + [porigin];
    }
    whole := false;
  }

  lemma NothingFound(files: Files, origin: Origin, ps: seq<CommitId>, paths: set<string>)
    ensures AllFound(files, origin, ps, [], paths, paths)
  {
  }

  lemma PassedKeepsSettled(files: Files, origin: Origin, found: seq<Option<Origin>>, ls0: seq<Line>, ls: seq<Line>,
      hs: seq<Hunk>, parent: Origin)
    requires KeepsSettled(files, origin, found, ls0, ls)
    ensures KeepsSettled(files, origin, found, ls0, PassedLines(ls, hs, origin, parent))
  {
  }

  /** Passes blame to one gathered parent after the other, until nothing is suspected any more. */
  method PassToOrigins(b: Blame, ghost first: nat, files: Files, ghost rank: CommitId -> nat, origin: Origin,
                       ghost found: seq<Option<Origin>>, sg: array<Option<Origin>>)
    requires b.Valid(first) && files.Valid(rank)
    requires forall i :: 0 <= i < |found| && found[i].Some? ==> found[i].value.commit in files.parents(origin.commit)
    requires sg.Length == |found| && Gathered(files, origin, found, sg[..], |found|)
    modifies b, b.repr
    ensures b.Valid(first) && fresh(b.repr - old(b.repr)) && b.oldest == old(b.oldest) && b.paths == old(b.paths)
    ensures files.AllPassedOn(origin, old(b.Blamed()), b.Blamed())
    ensures forall l :: l in b.Blamed() && Suspected(l, origin) ==> files.SettledBy(l, found)
    ensures KeepsSettled(files, origin, found, old(b.Blamed()), b.Blamed())
    ensures FromFound(found, old(b.Blamed()), b.Blamed())
  {
    hide Gathered, SettledUpTo, AnySuspected, PassedLines, KeepsSettled, Lines, Values, b.Linked, Contiguous,
        Aligned, ValidDiff, FromFound;
    ghost var ls0, gathered := b.Blamed(), sg[..];
    NothingGathered(files, origin, sg[..], ls0);
    assert KeepsSettled(files, origin, found, ls0, ls0) by { KeepsSame(files, origin, found, ls0); }
    FromFoundSame(found, ls0);
    for i := 0 to sg.Length
      invariant b.Valid(first) && fresh(b.repr - old(b.repr)) && b.oldest == old(b.oldest) && b.paths == old(b.paths)
      invariant files.AllPassedOn(origin, ls0, b.Blamed()) && KeepsSettled(files, origin, found, ls0, b.Blamed())
      invariant sg[..] == gathered && SettledUpTo(files, origin, gathered, i, b.Blamed())
      invariant FromFound(found, ls0, b.Blamed())
    {
      ghost var ls := b.Blamed();
      var porigin := sg[i];
      assert porigin == gathered[i];
      if porigin.Some? {
        GatheredAt(files, origin, found, gathered, i);
        PassedToParent(files, rank, ls, origin, porigin.value);
        var hunks := files.diff(files.blob(porigin.value), files.blob(origin));
        SettledStep(files, rank, origin, gathered, i, ls, PassedLines(ls, hunks, origin, porigin.value));
        PassedOnTwice(files, rank, origin, ls0, ls, PassedLines(ls, hunks, origin, porigin.value));
        PassedKeepsSettled(files, origin, found, ls0, ls, hunks, porigin.value);
        assert Some(porigin.value) in found;
        FromFoundPassed(found, ls0, ls, hunks, origin, porigin.value);
        var ret := PassBlameToParent(b, first, origin, porigin.value, hunks);
        if ret != 0 {
          NothingPassed(ls, hunks, origin, porigin.value);
          NoneSuspected(files, origin, found, ls);
          return;
        }
      } else {
        SettledSkip(files, origin, gathered, i, ls);
      }
    }
    SettledAtEnd(files, origin, found, gathered, b.Blamed());
  }

  lemma KeepsSame(files: Files, origin: Origin, found: seq<Option<Origin>>, ls: seq<Line>)
    ensures KeepsSettled(files, origin, found, ls, ls)
  {
  }

  lemma GatheredAt(files: Files, origin: Origin, found: seq<Option<Origin>>, sg: seq<Option<Origin>>, i: nat)
    requires |found| == |sg| && Gathered(files, origin, found, sg, |found|) && i < |found| && sg[i].Some?
    ensures sg[i] == found[i]
  {
  }

  method SetOldest(b: Blame, ghost first: nat, c: CommitId)
    requires b.Valid(first)
    modifies b`oldest
    ensures b.Valid(first) && b.oldest == Some(c)
  {
    b.oldest := Some(c);
  }

  /** All suspects are files with these names. */
  ghost predicate PathsIn(ls: seq<Line>, paths: set<string>) {
    forall k :: 0 <= k < |ls| ==> ls[k].suspect.path in paths
  }

  /** A line is blamed on whom it was blamed on, or on an origin that was found. */
  ghost predicate FromFound(found: seq<Option<Origin>>, ls: seq<Line>, ls': seq<Line>) {
    |ls'| == |ls| && forall k :: 0 <= k < |ls| ==> ls'[k].suspect == ls[k].suspect || Some(ls'[k].suspect) in found
  }

  lemma FromFoundSame(found: seq<Option<Origin>>, ls: seq<Line>)
    ensures FromFound(found, ls, ls)
  {
  }

  lemma FromFoundWhole(found: seq<Option<Origin>>, ls: seq<Line>, origin: Origin, porigin: Origin)
    requires Some(porigin) in found
    ensures FromFound(found, ls, ChangeLines(ls, Rename(origin, porigin)))
  {
  }

  lemma FromFoundPassed(found: seq<Option<Origin>>, ls0: seq<Line>, ls: seq<Line>, hs: seq<Hunk>, origin: Origin,
      porigin: Origin)
    requires FromFound(found, ls0, ls) && Some(porigin) in found
    ensures FromFound(found, ls0, PassedLines(ls, hs, origin, porigin))
  {
  }

  lemma PathsStayIn(files: Files, origin: Origin, ps: seq<CommitId>, found: seq<Option<Origin>>, before: set<string>,
      after: set<string>, ls: seq<Line>, ls': seq<Line>)
    requires AllFound(files, origin, ps, found, before, after) && FromFound(found, ls, ls')
    requires files.NotRenamed(before) && origin.path in before && PathsIn(ls, before)
    ensures PathsIn(ls', before)
  {
    hide files.NotRenamed;
    forall k | 0 <= k < |ls'| ensures ls'[k].suspect.path in before {
      if ls'[k].suspect != ls[k].suspect {
        var i :| 0 <= i < |found| && found[i] == Some(ls'[k].suspect);
      }
    }
  }

  /** From one commit to the next one that may be blamed: a parent, and with `firstParent` the first one. */
  predicate IsStep(files: Files, firstParent: bool, c: CommitId, p: CommitId) {
    p in files.parents(c) && (firstParent ==> p == files.parents(c)[0])
  }

  /** Every line stays with its commit, or goes one step on from the commit of the origin. */
  ghost predicate StaysOrSteps(files: Files, firstParent: bool, origin: Origin, ls: seq<Line>, ls': seq<Line>) {
    && |ls'| == |ls|
    && forall k :: 0 <= k < |ls| ==>
         || ls'[k].suspect == ls[k].suspect
         || (ls[k].suspect == origin && IsStep(files, firstParent, origin.commit, ls'[k].suspect.commit))
  }

  lemma FoundInParents(files: Files, origin: Origin, ps: seq<CommitId>, found: seq<Option<Origin>>,
      before: set<string>, after: set<string>)
    requires AllFound(files, origin, ps, found, before, after)
    requires forall p :: p in ps ==> p in files.parents(origin.commit)
    ensures forall i :: 0 <= i < |found| && found[i].Some? ==> found[i].value.commit in files.parents(origin.commit)
    ensures before <= after && (files.NotRenamed(before) ==> after == before)
  {
  }

  lemma FoundSteps(files: Files, firstParent: bool, oldest: Option<CommitId>, origin: Origin,
      found: seq<Option<Origin>>, before: set<string>, after: set<string>, ls: seq<Line>, ls': seq<Line>)
    requires AllFound(files, origin, files.Considered(origin.commit, oldest, firstParent), found, before, after)
    requires FromFound(found, ls, ls') && files.AllPassedOn(origin, ls, ls')
    ensures StaysOrSteps(files, firstParent, origin, ls, ls')
  {
    forall k | 0 <= k < |ls| && ls'[k].suspect != ls[k].suspect
      ensures ls[k].suspect == origin && IsStep(files, firstParent, origin.commit, ls'[k].suspect.commit)
    {
      assert files.PassedOn(origin, ls[k], ls'[k]);
      var i :| 0 <= i < |found| && found[i] == Some(ls'[k].suspect);
    }
  }

  /** What one suspect is left with, and which guilty lines stay, when all lookups went by the same names. */
  ghost predicate LeavesSettled(files: Files, origin: Origin, paths: set<string>, ps: seq<CommitId>, ls: seq<Line>,
      ls': seq<Line>)
  {
    && |ls'| == |ls|
    && (forall l :: l in ls' && Suspected(l, origin) ==> files.Settled(l, paths, ps))
    && (forall k :: 0 <= k < |ls| ==>
          ls[k].guilty && (ls[k].suspect == origin ==> files.Settled(ls[k], paths, ps)) ==> ls'[k] == ls[k])
  }

  lemma FoundSettles(files: Files, origin: Origin, ps: seq<CommitId>, found: seq<Option<Origin>>, paths: set<string>,
      ls: seq<Line>, ls': seq<Line>)
    requires AllFound(files, origin, ps, found, paths, paths) && KeepsSettled(files, origin, found, ls, ls')
    requires |found| == |ps| || !AnySuspected(ls', origin)
    requires forall l :: l in ls' && Suspected(l, origin) ==> files.SettledBy(l, found)
    ensures LeavesSettled(files, origin, paths, ps, ls, ls')
  {
    hide files.SettledFor, files.FindOrigin;
    forall l | l in ls' && Suspected(l, origin) ensures files.Settled(l, paths, ps) {
      assert files.SettledBy(l, found);
    }
    forall k | 0 <= k < |ls| && ls[k].guilty && (ls[k].suspect == origin ==> files.Settled(ls[k], paths, ps))
      ensures ls'[k] == ls[k]
    {
      assert ls[k].suspect == origin ==> files.SettledBy(ls[k], found);
    }
  }

  /** Passes the blame of one suspect to the parents of its commit. */
  method PassBlame(b: Blame, ghost first: nat, files: Files, ghost rank: CommitId -> nat, origin: Origin,
      firstParent: bool)
    requires b.Valid(first) && files.Valid(rank)
    modifies b, b.repr
    ensures b.Valid(first) && fresh(b.repr - old(b.repr)) && old(b.paths) <= b.paths
    ensures files.NotRenamed(old(b.paths)) ==> b.paths == old(b.paths)
    ensures files.NotRenamed(old(b.paths)) && origin.path in old(b.paths) && PathsIn(old(b.Blamed()), old(b.paths)) ==>
              PathsIn(b.Blamed(), b.paths)
    ensures files.parents(origin.commit) == [] || old(b.oldest) == Some(origin.commit) ==>
              b.Blamed() == old(b.Blamed()) && b.oldest == Some(origin.commit)
    ensures files.parents(origin.commit) != [] && old(b.oldest) != Some(origin.commit) ==> b.oldest == old(b.oldest)
    ensures files.AllPassedOn(origin, old(b.Blamed()), b.Blamed())
    ensures StaysOrSteps(files, firstParent, origin, old(b.Blamed()), b.Blamed())
    ensures var ps := files.Considered(origin.commit, old(b.oldest), firstParent);
            && b.oldest == (if ps == [] then Some(origin.commit) else old(b.oldest))
            && (b.paths == old(b.paths) ==>
                 LeavesSettled(files, origin, b.paths, ps, old(b.Blamed()), b.Blamed()))
  {
    hide Gathered, AnySuspected, KeepsSettled, Lines, Values, b.Linked, Contiguous, Aligned, ValidDiff, LeavesSettled,
        FromFound, PathsIn, StaysOrSteps, AllFound;
    ghost var ls, paths, oldest := b.Blamed(), b.paths, b.oldest;
    var ps := files.Considered(origin.commit, b.oldest, firstParent);
    if ps == [] {
      SetOldest(b, first, origin.commit);
      KeepsSame(files, origin, [], ls);
      NothingFound(files, origin, ps, b.paths);
      FoundSettles(files, origin, ps, [], b.paths, ls, ls);
      FromFoundSame([], ls);
      FoundSteps(files, firstParent, oldest, origin, [], b.paths, b.paths, ls, ls);
      return;
    }
    var sg := new Option<Origin>[|ps|](_ => None);
    ghost var found;
    var whole;
    whole, found := GatherOrigins(b, first, files, rank, origin, ps, sg);
    FoundInParents(files, origin, ps, found, paths, b.paths);
    if whole {
      NoneSuspected(files, origin, found, b.Blamed());
    } else {
      PassToOrigins(b, first, files, rank, origin, found, sg);
    }
    FoundSteps(files, firstParent, oldest, origin, found, paths, b.paths, ls, b.Blamed());
    if b.paths == paths {
      FoundSettles(files, origin, ps, found, b.paths, ls, b.Blamed());
    }
    if files.NotRenamed(paths) && origin.path in paths && PathsIn(ls, paths) {
      PathsStayIn(files, origin, ps, found, paths, b.paths, ls, b.Blamed());
    }
  }
}
