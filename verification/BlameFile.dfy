/** The whole blame of a file: the outer loop, its end, and the merging of neighbours. */
module BlameFile {
  import opened Wrappers
  import opened BlameLines
  import opened BlameDiff
  import opened Scoreboard
  import opened BlameWalk

  // ----- merging neighbours -----

  /** Two neighbours come from consecutive lines of the same origin. */
  predicate Mergeable(g: Group, h: Group) {
    g.suspect == h.suspect && g.guilty == h.guilty && g.sLno + g.numLines == h.sLno
  }

  ghost predicate NoneMergeable(gs: seq<Group>, n: nat)
    requires n < |gs| || n == 0
  {
    forall i :: 0 <= i < n ==> !Mergeable(gs[i], gs[i + 1])
  }

  function Merged(gs: seq<Group>, i: nat): seq<Group>
    requires i + 1 < |gs|
  {
    gs[..i] + [gs[i].(numLines := gs[i].numLines + gs[i + 1].numLines)] + gs[i + 2..]
  }

  lemma MergeContiguous(gs: seq<Group>, first: nat, i: nat)
    requires Contiguous(gs, first) && i + 1 < |gs|
    ensures Contiguous(Merged(gs, i), first)
  {
    var gs' := Merged(gs, i);
    forall k | 0 <= k < |gs'|
      ensures gs'[k].numLines > 0 && gs'[k].lno == if k == 0 then first else gs'[k - 1].lno + gs'[k - 1].numLines
    {
      if k < i {
        assert gs'[k] == gs[k] && (k > 0 ==> gs'[k - 1] == gs[k - 1]);
      } else if k == i {
        assert k > 0 ==> gs'[k - 1] == gs[k - 1];
      } else {
        assert gs'[k] == gs[k + 1] && (k > i + 1 ==> gs'[k - 1] == gs[k]);
        assert gs[i + 1].lno == gs[i].lno + gs[i].numLines;
      }
    }
  }

  lemma MergeLines(gs: seq<Group>, i: nat)
    requires i + 1 < |gs| && Mergeable(gs[i], gs[i + 1])
    ensures Lines(Merged(gs, i)) == Lines(gs)
  {
    hide Lines;
    var m := gs[i].(numLines := gs[i].numLines + gs[i + 1].numLines);
    var two := [gs[i]] + [gs[i + 1]];
    assert gs == gs[..i] + two + gs[i + 2..];
    LinesThree(gs[..i], two, gs[i + 2..]);
    LinesThree(gs[..i], [m], gs[i + 2..]);
    LinesConcat([gs[i]], [gs[i + 1]]);
    LinesOne(gs[i]);
    LinesOne(gs[i + 1]);
    LinesOne(m);
    assert GroupLines(m) == GroupLines(gs[i]) + GroupLines(gs[i + 1]);
  }

  lemma MergeNone(gs: seq<Group>, i: nat)
    requires i + 1 < |gs| && NoneMergeable(gs, i)
    ensures NoneMergeable(Merged(gs, i), i)
  {
    var gs' := Merged(gs, i);
    forall k | 0 <= k < i ensures !Mergeable(gs'[k], gs'[k + 1]) {
      assert !Mergeable(gs[k], gs[k + 1]);
      assert gs'[k] == gs[k] && (k + 1 < i ==> gs'[k + 1] == gs[k + 1]);
    }
  }

  /** The list after entry `i + 1` was merged into entry `i`. */
  lemma AfterMerge(b: Blame, es: seq<Entry>, gs: seq<Group>, first: nat, i: nat)
    requires b.Linked() && i + 1 < |es| == |gs| && b.entries == es[..i + 1] + es[i + 2..]
    requires forall k :: 0 <= k < |es| && k != i ==> es[k].Value() == gs[k]
    requires es[i].Value() == gs[i].(numLines := gs[i].numLines + gs[i + 1].numLines)
    requires Contiguous(gs, first) && Mergeable(gs[i], gs[i + 1]) && NoneMergeable(gs, i)
    ensures b.Valid(first) && b.Blamed() == Lines(gs)
    ensures i < |b.entries| && b.entries[i] == es[i] && NoneMergeable(Values(b.entries), i)
  {
    hide Contiguous, Mergeable, NoneMergeable, Lines, b.Linked;
    var want := Merged(gs, i);
    forall k | 0 <= k < |want| ensures b.entries[k].Value() == want[k] {
      if k <= i {
        assert b.entries[k] == es[k];
      } else {
        assert b.entries[k] == es[i + 2..][k - i - 1] && want[k] == gs[i + 2..][k - i - 1];
      }
    }
    assert Values(b.entries) == want;
    MergeContiguous(gs, first, i);
    MergeLines(gs, i);
    MergeNone(gs, i);
  }

  method MergeEntries(b: Blame, ghost first: nat, e: Entry, next: Entry, ghost i: nat)
    requires b.Valid(first) && i + 1 < |b.entries| && b.entries[i] == e && b.entries[i + 1] == next
    requires Mergeable(e.Value(), next.Value()) && NoneMergeable(Values(b.entries), i)
    modifies b`entries, b.repr
    ensures b.Valid(first) && b.Blamed() == old(b.Blamed())
    ensures |b.entries| == |old(b.entries)| - 1 && i < |b.entries| && b.entries[i] == e
            && NoneMergeable(Values(b.entries), i)
  {
    ghost var es, gs := b.entries, Values(b.entries);
    hide Contiguous, NoneMergeable, Lines, b.Linked, Merged, Values, Entry.Value;
    b.MergeNext(e, next, i);
    AfterMerge(b, es, gs, first, i);
  }

  /** Merges neighbours that come from consecutive lines of the same origin: the blame of every line stays the same, and
      no two neighbours are left that could be merged. */
  method Coalesce(b: Blame, ghost first: nat)
    requires b.Valid(first)
    modifies b`entries, b.repr
    ensures b.Valid(first) && b.Blamed() == old(b.Blamed()) && b.repr == old(b.repr)
    ensures |b.entries| > 0 ==> NoneMergeable(Values(b.entries), |b.entries| - 1)
  {
    hide Contiguous, NoneMergeable, Lines, b.Linked, Values;
    var ent := b.ent;
    b.AtStart();
    if ent == null {
      return;
    }
    ghost var i: nat := 0;
    NothingMergeable(Values(b.entries));
    b.AtEntry(0);
    b.OthersDiffer(0);
    while ent.next != null
      invariant b.Valid(first) && b.Blamed() == old(b.Blamed()) && b.repr == old(b.repr)
      invariant i < |b.entries| && ent == b.entries[i] && ent in b.repr && ent.next == Link(b.entries, i + 1)
      invariant NoneMergeable(Values(b.entries), i)
      decreases |b.entries| - i
    {
      var next := ent.next;
      if ent.suspect == next.suspect && ent.guilty == next.guilty && ent.sLno + ent.numLines == next.sLno {
        MergeEntries(b, first, ent, next, i);
      } else {
        OneMoreUnmergeable(Values(b.entries), i);
        i := i + 1;
        ent := next;
      }
      b.AtEntry(i);
      b.OthersDiffer(i);
    }
  }

  lemma NothingMergeable(gs: seq<Group>)
    requires gs != []
    ensures NoneMergeable(gs, 0)
  {
  }

  lemma OneMoreUnmergeable(gs: seq<Group>, i: nat)
    requires i + 1 < |gs| && NoneMergeable(gs, i) && !Mergeable(gs[i], gs[i + 1])
    ensures NoneMergeable(gs, i + 1)
  {
  }

  /** Line `n` does not follow the line before it in the same origin. */
  predicate Breaks(ls: seq<Line>, n: nat)
    requires 0 < n < |ls|
  {
    ls[n] != Line(ls[n - 1].suspect, ls[n - 1].sLno + 1, ls[n - 1].guilty)
  }

  /** Wherever a group begins, the lines do not follow each other: what belongs together is in one group. */
  ghost predicate Separated(gs: seq<Group>, first: nat) {
    forall i :: 0 < i < |gs| ==> first < gs[i].lno < first + |Lines(gs)| && Breaks(Lines(gs), gs[i].lno - first)
  }

  lemma GroupsSeparated(gs: seq<Group>, first: nat)
    requires Contiguous(gs, first) && gs != [] && NoneMergeable(gs, |gs| - 1)
    ensures Separated(gs, first)
  {
    hide Lines, Breaks;
    forall i | 0 < i < |gs|
      ensures first < gs[i].lno < first + |Lines(gs)| && Breaks(Lines(gs), gs[i].lno - first)
    {
      GroupStart(gs, first, i);
      assert !Mergeable(gs[i - 1], gs[i]);
      NextStart(gs, first, i);
      NextStart(gs, first, i - 1);
      GroupBreaks(gs, i);
    }
  }

  lemma GroupBreaks(gs: seq<Group>, i: nat)
    requires 0 < i < |gs| && gs[i - 1].numLines > 0 && gs[i].numLines > 0 && !Mergeable(gs[i - 1], gs[i])
    ensures 0 < |Lines(gs[..i])| < |Lines(gs)| && Breaks(Lines(gs), |Lines(gs[..i])|)
  {
    hide Lines;
    var n := |Lines(gs[..i])|;
    assert gs[..i] == gs[..i - 1] + [gs[i - 1]] && gs == gs[..i] + [gs[i]] + gs[i + 1..];
    LinesConcat(gs[..i - 1], [gs[i - 1]]);
    LinesOne(gs[i - 1]);
    LinesThree(gs[..i], [gs[i]], gs[i + 1..]);
    LinesOne(gs[i]);
    assert Lines(gs)[n] == GroupLines(gs[i])[0];
    assert Lines(gs)[n - 1] == GroupLines(gs[i - 1])[gs[i - 1].numLines - 1];
  }

  // ----- the outer loop -----

  /** How far a line may still have to go: each step to a parent, and settling down, makes it less. */
  ghost function Weight(l: Line, rank: CommitId -> nat): nat {
    2 * rank(l.suspect.commit) + (if l.guilty then 0 else 1)
  }

  ghost function Measure(ls: seq<Line>, rank: CommitId -> nat): nat {
    if ls == [] then 0 else Weight(ls[0], rank) + Measure(ls[1..], rank)
  }

  lemma {:induction false} MeasureLess(ls: seq<Line>, ls': seq<Line>, rank: CommitId -> nat)
    requires |ls'| == |ls| && forall k :: 0 <= k < |ls| ==> Weight(ls'[k], rank) <= Weight(ls[k], rank)
    ensures Measure(ls', rank) <= Measure(ls, rank)
    ensures (exists k :: 0 <= k < |ls| && Weight(ls'[k], rank) < Weight(ls[k], rank)) ==>
            Measure(ls', rank) < Measure(ls, rank)
  {
    if ls != [] {
      MeasureLess(ls[1..], ls'[1..], rank);
      if k :| 0 <= k < |ls| && Weight(ls'[k], rank) < Weight(ls[k], rank) {
        if k > 0 {
          assert Weight(ls'[1..][k - 1], rank) < Weight(ls[1..][k - 1], rank);
        }
      }
    }
  }

  /** Dealing with a suspect brings the measure down. */
  lemma RoundIsLess(files: Files, rank: CommitId -> nat, origin: Origin, ls: seq<Line>, ls': seq<Line>)
    requires files.Valid(rank) && files.AllPassedOn(origin, ls, ls') && AnySuspected(ls, origin)
    ensures Measure(ChangeLines(ls', Convict(origin)), rank) < Measure(ls, rank)
  {
    var ls'' := ChangeLines(ls', Convict(origin));
    forall k | 0 <= k < |ls|
      ensures Weight(ls''[k], rank) <= Weight(ls[k], rank)
      ensures Suspected(ls[k], origin) ==> Weight(ls''[k], rank) < Weight(ls[k], rank)
    {
      assert files.PassedOn(origin, ls[k], ls'[k]);
    }
    var l :| l in ls && Suspected(l, origin);
    var k :| 0 <= k < |ls| && ls[k] == l;
    assert Weight(ls''[k], rank) < Weight(ls[k], rank);
    MeasureLess(ls, ls'', rank);
  }

  /** Every line that has its content in its suspect's file at first still has it at last. */
  ghost predicate AllCarry(files: Files, ls: seq<Line>, ls': seq<Line>) {
    |ls'| == |ls| && forall k :: 0 <= k < |ls| ==> files.Carries(ls[k], ls'[k])
  }

  lemma RoundCarries(files: Files, origin: Origin, ls0: seq<Line>, ls: seq<Line>, ls': seq<Line>)
    requires AllCarry(files, ls0, ls) && files.AllPassedOn(origin, ls, ls')
    ensures AllCarry(files, ls0, ChangeLines(ls', Convict(origin)))
  {
    forall k | 0 <= k < |ls0| ensures files.Carries(ls0[k], ChangeLine(ls'[k], Convict(origin))) {
      assert files.PassedOn(origin, ls[k], ls'[k]) && files.Carries(ls0[k], ls[k]);
    }
  }

  /** The oldest commit the blame stops at is not one that was asked for, but at most a root it has come to. */
  predicate NoLimit(files: Files, oldest: Option<CommitId>) {
    oldest.Some? ==> files.parents(oldest.value) == []
  }

  /** Every guilty line comes from none of the parents of its commit. */
  ghost predicate GuiltySettled(files: Files, paths: set<string>, firstParent: bool, ls: seq<Line>) {
    forall k :: 0 <= k < |ls| && ls[k].guilty ==>
        files.Settled(ls[k], paths, files.Considered(ls[k].suspect.commit, None, firstParent))
  }

  lemma RoundSettles(files: Files, paths: set<string>, origin: Origin, firstParent: bool, oldest: Option<CommitId>,
      ls: seq<Line>, ls': seq<Line>)
    requires NoLimit(files, oldest) && GuiltySettled(files, paths, firstParent, ls)
    requires files.AllPassedOn(origin, ls, ls')
             && LeavesSettled(files, origin, paths, files.Considered(origin.commit, oldest, firstParent), ls, ls')
    ensures GuiltySettled(files, paths, firstParent, ChangeLines(ls', Convict(origin)))
  {
    var ps := files.Considered(origin.commit, None, firstParent);
    assert files.Considered(origin.commit, oldest, firstParent) == ps;
    var ls'' := ChangeLines(ls', Convict(origin));
    forall k | 0 <= k < |ls''| && ls''[k].guilty
      ensures files.Settled(ls''[k], paths, files.Considered(ls''[k].suspect.commit, None, firstParent))
    {
      assert files.PassedOn(origin, ls[k], ls'[k]);
      if ls[k].guilty {
        assert ls'[k] == ls[k];
      } else {
        assert ls'[k] in ls' && Suspected(ls'[k], origin);
        SettledWhenGuilty(files, ls'[k], paths, ps);
      }
    }
  }

  lemma SettledWhenGuilty(files: Files, l: Line, paths: set<string>, ps: seq<CommitId>)
    requires files.Settled(l, paths, ps)
    ensures files.Settled(l.(guilty := true), paths, ps)
  {
    forall i | 0 <= i < |ps|
      ensures files.SettledFor(l.(guilty := true), files.FindOrigin(paths, ps[i], l.suspect).origin)
    {
      assert files.SettledFor(l, files.FindOrigin(paths, ps[i], l.suspect).origin);
    }
  }

  /** The commits from one to another, each time on to a parent, or with `firstParent` to the first one. */
  ghost predicate Leads(files: Files, firstParent: bool, cs: seq<CommitId>, from: CommitId, to: CommitId) {
    && cs != [] && cs[0] == from && cs[|cs| - 1] == to
    && forall i :: 0 < i < |cs| ==> IsStep(files, firstParent, cs[i - 1], cs[i])
  }

  ghost predicate Reaches(files: Files, firstParent: bool, from: CommitId, to: CommitId) {
    exists cs :: Leads(files, firstParent, cs, from, to)
  }

  ghost predicate AllReach(files: Files, firstParent: bool, ls: seq<Line>, ls': seq<Line>) {
    |ls'| == |ls| && forall k :: 0 <= k < |ls| ==>
      Reaches(files, firstParent, ls[k].suspect.commit, ls'[k].suspect.commit)
  }

  lemma ReachesItself(files: Files, firstParent: bool, ls: seq<Line>)
    ensures AllReach(files, firstParent, ls, ls)
  {
    forall k | 0 <= k < |ls| ensures Reaches(files, firstParent, ls[k].suspect.commit, ls[k].suspect.commit) {
      var c := ls[k].suspect.commit;
      assert Leads(files, firstParent, [c], c, c);
    }
  }

  lemma ReachesOneMore(files: Files, firstParent: bool, from: CommitId, c: CommitId, p: CommitId)
    requires Reaches(files, firstParent, from, c) && IsStep(files, firstParent, c, p)
    ensures Reaches(files, firstParent, from, p)
  {
    hide IsStep;
    var cs :| Leads(files, firstParent, cs, from, c);
    assert Leads(files, firstParent, cs + [p], from, p);
  }

  lemma RoundReaches(files: Files, firstParent: bool, origin: Origin, ls0: seq<Line>, ls: seq<Line>, ls': seq<Line>)
    requires AllReach(files, firstParent, ls0, ls) && StaysOrSteps(files, firstParent, origin, ls, ls')
    ensures AllReach(files, firstParent, ls0, ChangeLines(ls', Convict(origin)))
  {
    hide Reaches, IsStep;
    forall k | 0 <= k < |ls0| ensures Reaches(files, firstParent, ls0[k].suspect.commit, ls'[k].suspect.commit) {
      if ls'[k].suspect != ls[k].suspect {
        ReachesOneMore(files, firstParent, ls0[k].suspect.commit, origin.commit, ls'[k].suspect.commit);
      }
    }
  }

  ghost predicate AllGuilty(ls: seq<Line>) {
    forall k :: 0 <= k < |ls| ==> ls[k].guilty
  }

  lemma NoInnocent(gs: seq<Group>)
    requires forall i :: 0 <= i < |gs| ==> gs[i].guilty
    ensures AllGuilty(Lines(gs))
  {
    forall k | 0 <= k < |Lines(gs)| ensures Lines(gs)[k].guilty {
      var i, j := LineGroup(gs, Lines(gs)[k]);
    }
  }

  lemma Innocent(gs: seq<Group>, first: nat, i: nat)
    requires Contiguous(gs, first) && i < |gs| && !gs[i].guilty
    ensures AnySuspected(Lines(gs), gs[i].suspect)
  {
    GroupNotEmpty(gs, first, i);
    LinesMember(gs, i, 0);
  }

  /** Finds a suspect to break down. */
  method FindSuspect(b: Blame, ghost first: nat) returns (suspect: Option<Origin>)
    requires b.Valid(first)
    ensures suspect.None? ==> AllGuilty(b.Blamed())
    ensures suspect.Some? ==> AnySuspected(b.Blamed(), suspect.value)
  {
    hide Contiguous, Lines, b.Linked, AllGuilty, AnySuspected;
    suspect := None;
    var ent := b.ent;
    ghost var i: nat := 0;
    ghost var gs := Values(b.entries);
    b.AtStart();
    while suspect.None? && ent != null
      invariant i <= |gs| && ent == Link(b.entries, i)
      invariant suspect.None? ==> forall k :: 0 <= k < i ==> gs[k].guilty
      invariant suspect.Some? ==> AnySuspected(Lines(gs), suspect.value)
      decreases |gs| - i
    {
      b.AtEntry(i);
      assert ent.Value() == gs[i];
      if !ent.guilty {
        Innocent(gs, first, i);
        suspect := Some(ent.suspect);
      }
      ent := ent.next;
      i := i + 1;
    }
    if suspect.None? {
      NoInnocent(gs);
    }
  }

  /** Blames every line of the file: the loop ends on every history without a cycle; then each line has found a guilty
      commit and still has its content there; no two neighbouring groups are left that belong together; and unless the
      blame was limited to start with or the file was renamed, none of the parents that were looked at has the line. */
  method LikeGit(b: Blame, ghost first: nat, files: Files, ghost rank: CommitId -> nat, firstParent: bool)
    requires b.Valid(first) && files.Valid(rank)
    modifies b, b.repr
    ensures b.Valid(first) && AllGuilty(b.Blamed()) && AllCarry(files, old(b.Blamed()), b.Blamed())
    ensures AllReach(files, firstParent, old(b.Blamed()), b.Blamed())
    ensures |b.entries| > 0 ==> NoneMergeable(Values(b.entries), |b.entries| - 1)
    ensures files.NotRenamed(old(b.paths)) && NoLimit(files, old(b.oldest))
            && GuiltySettled(files, old(b.paths), firstParent, old(b.Blamed())) ==>
              b.paths == old(b.paths) && GuiltySettled(files, b.paths, firstParent, b.Blamed())
    ensures files.NotRenamed(old(b.paths)) && PathsIn(old(b.Blamed()), old(b.paths)) ==>
              PathsIn(b.Blamed(), old(b.paths))
  {
    hide Contiguous, Lines, Values, b.Linked, AllGuilty, AnySuspected, ChangeLines, LeavesSettled, GuiltySettled,
        AllCarry, NoneMergeable, PathsIn, AllReach, StaysOrSteps, Weight, Measure, NoLimit;
    ghost var ls0, paths := b.Blamed(), b.paths;
    ghost var unlimited :=
      files.NotRenamed(paths) && NoLimit(files, b.oldest) && GuiltySettled(files, paths, firstParent, ls0);
    ghost var named := files.NotRenamed(paths) && PathsIn(ls0, paths);
    CarriesItself(files, ls0);
    ReachesItself(files, firstParent, ls0);
    while true
      invariant b.Valid(first) && fresh(b.repr - old(b.repr))
      invariant AllCarry(files, ls0, b.Blamed()) && AllReach(files, firstParent, ls0, b.Blamed())
      invariant unlimited ==>
                  b.paths == paths && NoLimit(files, b.oldest)
                  && GuiltySettled(files, paths, firstParent, b.Blamed())
      invariant named ==> b.paths == paths && PathsIn(b.Blamed(), paths)
      decreases Measure(b.Blamed(), rank)
    {
      ghost var ls, oldest := b.Blamed(), b.oldest;
      var suspect := FindSuspect(b, first);
      if suspect.None? {
        break;
      }
      if named { SuspectPath(ls, paths, suspect.value); }
      PassBlame(b, first, files, rank, suspect.value, firstParent);
      ghost var ls' := b.Blamed();
      ConvictPaths(ls', paths, suspect.value);
      RoundIsLess(files, rank, suspect.value, ls, ls');
      RoundCarries(files, suspect.value, ls0, ls, ls');
      RoundReaches(files, firstParent, suspect.value, ls0, ls, ls');
      if unlimited {
        RoundSettles(files, paths, suspect.value, firstParent, oldest, ls, ls');
        LimitStep(files, suspect.value.commit, oldest, firstParent);
      }
      ChangeEntries(b, first, Convict(suspect.value), Some(suspect.value.commit) == b.oldest);
    }
    Coalesce(b, first);
  }

  lemma SuspectPath(ls: seq<Line>, paths: set<string>, origin: Origin)
    requires PathsIn(ls, paths) && AnySuspected(ls, origin)
    ensures origin.path in paths
  {
  }

  lemma ConvictPaths(ls: seq<Line>, paths: set<string>, origin: Origin)
    ensures PathsIn(ls, paths) ==> PathsIn(ChangeLines(ls, Convict(origin)), paths)
  {
  }

  lemma CarriesItself(files: Files, ls: seq<Line>)
    ensures AllCarry(files, ls, ls)
  {
  }

  lemma LimitStep(files: Files, c: CommitId, oldest: Option<CommitId>, firstParent: bool)
    requires NoLimit(files, oldest)
    ensures files.Considered(c, oldest, firstParent) == [] ==> NoLimit(files, Some(c))
  {
  }

  // ----- the blame of a file -----

  /** The line of the newest file with that number was found to be a line with the same content. */
  predicate HasContent(files: Files, newest: Origin, lno: nat, l: Line) {
    lno < |files.blob(newest)| && l.sLno < |files.blob(l.suspect)|
        && files.blob(l.suspect)[l.sLno] == files.blob(newest)[lno]
  }

  /** The file never had another name, and a parent that has it with other content is told apart by its differences. */
  ghost predicate NeverRenamed(files: Files, path: string) {
    && (forall p, c, d :: d in files.deltas(p, c) && d.newPath == path ==> d.oldPath == path)
    && (forall c, p :: p in files.parents(c) && files.has(Origin(p, path)) && !files.untouched(p, c, {path}) ==>
          exists d :: d in files.deltas(p, c) && d.newPath == path)
  }

  /** Whichever parent of the line's commit has the file (with `firstParent`, only the first one is looked at): it has
      other content there, and the line lies inside a hunk of the diff. */
  ghost predicate InNoParent(files: Files, firstParent: bool, path: string, l: Line) {
    && l.suspect.path == path
    && forall i :: (0 <= i < |files.parents(l.suspect.commit)| && (firstParent ==> i == 0)
                    && files.has(Origin(files.parents(l.suspect.commit)[i], path))) ==>
         var theirs, ours := files.blob(Origin(files.parents(l.suspect.commit)[i], path)), files.blob(l.suspect);
         theirs != ours && ParentOf(files.diff(theirs, ours), l.sLno).None?
  }

  lemma {:induction false} FollowsItself(files: Files, p: CommitId, ds: seq<Delta>, path: string)
    requires forall d :: d in ds && d.newPath == path ==> d.oldPath == path
    ensures files.Followed(p, ds, {path})
            == Found(if files.has(Origin(p, path)) && exists d :: d in ds && d.newPath == path
                     then Some(Origin(p, path)) else None, {path})
  {
    if ds != [] {
      var n := |ds| - 1;
      FollowsItself(files, p, ds[..n], path);
      assert ds == ds[..n] + [ds[n]];
      if ds[n].newPath == path {
        assert {path} + {ds[n].oldPath} == {path};
      }
    }
  }

  /** A file that was never renamed is found in every parent that has it. */
  lemma FoundUnderItsName(files: Files, p: CommitId, o: Origin)
    requires NeverRenamed(files, o.path) && p in files.parents(o.commit)
    ensures files.FindOrigin({o.path}, p, o).origin
            == if files.has(Origin(p, o.path)) then Some(Origin(p, o.path)) else None
  {
    hide files.Followed;
    FollowsItself(files, p, files.deltas(p, o.commit), o.path);
  }

  /** A file that was renamed once between a parent and its child is found there under its old name, and both names are
      known from then on. */
  lemma FoundUnderItsOldName(files: Files, p: CommitId, o: Origin, k: nat)
    requires !files.untouched(p, o.commit, {o.path})
    requires var ds := files.deltas(p, o.commit);
             && k < |ds| && ds[k].newPath == o.path
             && forall j :: 0 <= j < |ds| && j != k ==> ds[j].newPath != o.path && ds[j].newPath != ds[k].oldPath
    ensures var old_ := files.deltas(p, o.commit)[k].oldPath;
            files.FindOrigin({o.path}, p, o)
            == Found(if files.has(Origin(p, old_)) then Some(Origin(p, old_)) else None, {o.path, old_})
  {
    hide files.Followed;
    FollowedOnce(files, p, files.deltas(p, o.commit), o.path, k);
  }

  lemma {:induction false} FollowedOnce(files: Files, p: CommitId, ds: seq<Delta>, path: string, k: nat)
    requires k < |ds| && ds[k].newPath == path
    requires forall j :: 0 <= j < |ds| && j != k ==> ds[j].newPath != path && ds[j].newPath != ds[k].oldPath
    ensures var old_ := ds[k].oldPath;
            files.Followed(p, ds, {path})
            == Found(if files.has(Origin(p, old_)) then Some(Origin(p, old_)) else None, {path, old_})
  {
    var n := |ds| - 1;
    if k < n {
      FollowedOnce(files, p, ds[..n], path, k);
    } else {
      FollowsNobody(files, p, ds[..n], path);
      assert {path} + {ds[k].oldPath} == {path, ds[k].oldPath};
    }
  }

  lemma {:induction false} FollowsNobody(files: Files, p: CommitId, ds: seq<Delta>, path: string)
    requires forall d :: d in ds ==> d.newPath != path
    ensures files.Followed(p, ds, {path}) == Found(None, {path})
  {
    if ds != [] {
      FollowsNobody(files, p, ds[..|ds| - 1], path);
    }
  }

  lemma SettledInNoParent(files: Files, firstParent: bool, path: string, l: Line)
    requires NeverRenamed(files, path) && l.suspect.path == path
    requires files.Settled(l, {path}, files.Considered(l.suspect.commit, None, firstParent))
    ensures InNoParent(files, firstParent, path, l)
  {
    hide files.FindOrigin, NeverRenamed, ParentOf;
    var c := l.suspect.commit;
    var ps := files.Considered(c, None, firstParent);
    forall i | 0 <= i < |files.parents(c)| && (firstParent ==> i == 0) && files.has(Origin(files.parents(c)[i], path))
      ensures files.SettledFor(l, Some(Origin(files.parents(c)[i], path)))
    {
      assert ps[i] == files.parents(c)[i];
      FoundUnderItsName(files, ps[i], l.suspect);
      assert files.SettledFor(l, files.FindOrigin({path}, ps[i], l.suspect).origin);
    }
  }

  lemma AllInNoParent(files: Files, firstParent: bool, path: string, ls: seq<Line>)
    requires NeverRenamed(files, path) && GuiltySettled(files, {path}, firstParent, ls)
    requires PathsIn(ls, {path}) && AllGuilty(ls)
    ensures forall k :: 0 <= k < |ls| ==> InNoParent(files, firstParent, path, ls[k])
  {
    hide NeverRenamed, InNoParent;
    forall k | 0 <= k < |ls| ensures InNoParent(files, firstParent, path, ls[k]) {
      SettledInNoParent(files, firstParent, path, ls[k]);
    }
  }

  lemma NamesStay(files: Files, path: string)
    requires NeverRenamed(files, path)
    ensures files.NotRenamed({path})
  {
  }

  lemma CarriedContent(files: Files, newest: Origin, lno: nat, n: nat, ls: seq<Line>)
    requires lno + n <= |files.blob(newest)| && AllCarry(files, GroupLines(Group(lno, n, newest, false, lno)), ls)
    ensures |ls| == n && forall k :: 0 <= k < n ==> HasContent(files, newest, lno + k, ls[k])
  {
    var ls0 := GroupLines(Group(lno, n, newest, false, lno));
    forall k | 0 <= k < n ensures HasContent(files, newest, lno + k, ls[k]) {
      assert files.Carries(ls0[k], ls[k]);
    }
  }

  lemma ReachedByAll(files: Files, firstParent: bool, g: Group, ls: seq<Line>)
    requires AllReach(files, firstParent, GroupLines(g), ls)
    ensures forall k :: 0 <= k < |ls| ==> Reaches(files, firstParent, g.suspect.commit, ls[k].suspect.commit)
  {
    hide Reaches;
  }

  lemma NobodyGuilty(files: Files, paths: set<string>, firstParent: bool, g: Group)
    requires !g.guilty
    ensures GuiltySettled(files, paths, firstParent, GroupLines(g))
    ensures g.suspect.path in paths ==> PathsIn(GroupLines(g), paths)
  {
  }

  /** Blames the lines of a file from `minLine` to `maxLine`, or to the end if that is 0: every one of them is found in
      some commit's file, with its content; as long as the file was never renamed and the blame is not limited, every
      parent of that commit that has the file has other content, and the line lies inside a hunk of the diff. */
  method BlameInternal(newest: Origin, minLine: nat, maxLine: nat, oldest: Option<CommitId>, files: Files,
                       ghost rank: CommitId -> nat, firstParent: bool)
    returns (b: Blame)
    requires files.Valid(rank)
    requires 0 < minLine <= (if maxLine > 0 then maxLine else |files.blob(newest)|) <= |files.blob(newest)|
    ensures b.Valid(minLine - 1) && AllGuilty(b.Blamed())
    ensures minLine - 1 + |b.Blamed()| == if maxLine > 0 then maxLine else |files.blob(newest)|
    ensures forall k :: 0 <= k < |b.Blamed()| ==> HasContent(files, newest, minLine - 1 + k, b.Blamed()[k])
    ensures forall k :: 0 <= k < |b.Blamed()| ==>
              Reaches(files, firstParent, newest.commit, b.Blamed()[k].suspect.commit)
    ensures |b.entries| > 0 && Separated(Values(b.entries), minLine - 1)
    ensures files.NotRenamed({newest.path}) && NoLimit(files, oldest) ==>
              GuiltySettled(files, {newest.path}, firstParent, b.Blamed())
    ensures NeverRenamed(files, newest.path) && (oldest.Some? ==> files.parents(oldest.value) == []) ==>
              forall k :: 0 <= k < |b.Blamed()| ==> InNoParent(files, firstParent, newest.path, b.Blamed()[k])
  {
    hide NoneMergeable, Separated, GuiltySettled, AllGuilty, AllCarry, Values, Lines, Contiguous, GroupLines,
        Blame.Linked, HasContent, ValidDiff, PathsIn, NeverRenamed, InNoParent, AllReach, Reaches;
    var lno := minLine - 1;
    var numLines := |files.blob(newest)| - minLine + 1;
    if maxLine > 0 {
      numLines := maxLine - minLine + 1;
    }
    b := new Blame(newest, lno, numLines, oldest);
    NobodyGuilty(files, b.paths, firstParent, Group(lno, numLines, newest, false, lno));
    if NeverRenamed(files, newest.path) { NamesStay(files, newest.path); }
    LikeGit(b, lno, files, rank, firstParent);
    CarriedContent(files, newest, lno, numLines, b.Blamed());
    ReachedByAll(files, firstParent, Group(lno, numLines, newest, false, lno), b.Blamed());
    if NeverRenamed(files, newest.path) && (oldest.Some? ==> files.parents(oldest.value) == []) {
      AllInNoParent(files, firstParent, newest.path, b.Blamed());
    }
    SomeEntries(b, lno);
    GroupsSeparated(Values(b.entries), lno);
  }

  lemma SomeEntries(b: Blame, first: nat)
    requires b.Valid(first) && b.Blamed() != []
    ensures |b.entries| > 0
  {
  }
}
