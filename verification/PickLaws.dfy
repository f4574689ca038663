/** What a commit that is made anew contains, path by path, and when it cannot be made. */
module PickLaws {
  import opened Wrappers
  import opened Commits
  import opened Selections
  import opened Rewrite
  import opened Rewritten
  import opened Operations
  import OperationLaws
  import CombineEditLaws

  // ----- one commit -----

  /** What the first parent of a commit has at a path. */
  function BaseAt(c: Commit, p: Path): Option<Blob> {
    if c.parents == [] then None else At(c.parents[0].tree, p)
  }

  /** What the commit has there that another one is placed on top of. */
  function HeadAt(head: Option<Commit>, p: Path): Option<Blob> {
    if head.None? then None else At(head.value.tree, p)
  }

  /** Both sides changed the path, and not to the same. */
  predicate Clash(c: Commit, head: Option<Commit>, p: Path) {
    BaseAt(c, p) != HeadAt(head, p) && BaseAt(c, p) != At(c.tree, p) && HeadAt(head, p) != At(c.tree, p)
  }

  predicate NotSupported(ctx: Ctx, c: Commit, head: Option<Commit>, p: Path) {
    Clash(c, head, p) && ctx.unsupported(BaseAt(c, p), HeadAt(head, p), At(c.tree, p))
  }

  /** What is to be at a path when `c` is placed on top of `head`: what only one side changed is taken from there, and
      of what both changed, what the user answers or what merging the contents gives. */
  predicate PickedAt(ctx: Ctx, favor: Favor, c: Commit, head: Option<Commit>, p: Path, blob: Option<Blob>) {
    if BaseAt(c, p) == HeadAt(head, p) then blob == At(c.tree, p)
    else if !Clash(c, head, p) then blob == HeadAt(head, p)
    else
      && !NotSupported(ctx, c, head, p)
      && match favor
         case Theirs => blob == ctx.contentMerge(BaseAt(c, p), HeadAt(head, p), At(c.tree, p))
         case Normal => ctx.user(c, head, p) == Some(blob)
  }

  ghost predicate PickedTree(ctx: Ctx, favor: Favor, c: Commit, head: Option<Commit>, tree: Tree) {
    forall p :: PickedAt(ctx, favor, c, head, p, At(tree, p))
  }

  /** Why `c` cannot be placed on top of `head`. */
  ghost predicate StopsAt(ctx: Ctx, favor: Favor, c: Commit, head: Option<Commit>, why: Stop) {
    match why
    case Unsupported => exists p :: NotSupported(ctx, c, head, p)
    case Canceled =>
      && favor.Normal? && (forall p :: !NotSupported(ctx, c, head, p))
      && exists p :: Clash(c, head, p) && ctx.user(c, head, p).None?
  }

  lemma MergedAt(ctx: Ctx, favor: Favor, c: Commit, head: Option<Commit>, p: Path)
    ensures var a := MergeAt(TreeOf(c.Parent()), TreeOf(head), c.tree, Resolver(ctx, favor, c, head), p);
            && (a.Content? ==> PickedAt(ctx, favor, c, head, p, a.blob))
            && (a == Stopped(Unsupported) <==> NotSupported(ctx, c, head, p))
            && (a == Stopped(Canceled) <==>
                 favor.Normal? && Clash(c, head, p) && !NotSupported(ctx, c, head, p) && ctx.user(c, head, p).None?)
  {
  }

  /** Placing a commit on top of another one gives what is to be at every path, or fails for a reason that there is. */
  lemma TreePicks(ctx: Ctx, favor: Favor, c: Commit, head: Option<Commit>)
    ensures var r := ParentSetTree(ctx, favor, c, head);
            && (r.Ok? ==> PickedTree(ctx, favor, c, head, r.value))
            && forall why :: r == Failed(why) <==> StopsAt(ctx, favor, c, head, why)
  {
    hide Clash, NotSupported, PickedAt, MergeAt, MergePath, Resolver;
    var base, ours, resolve := TreeOf(c.Parent()), TreeOf(head), Resolver(ctx, favor, c, head);
    var r := MergeTrees(base, ours, c.tree, resolve);
    forall p
      ensures r.Ok? ==> PickedAt(ctx, favor, c, head, p, At(r.value, p)) && !NotSupported(ctx, c, head, p)
                        && !(favor.Normal? && Clash(c, head, p) && ctx.user(c, head, p).None?)
      ensures r == Failed(Canceled) ==> !NotSupported(ctx, c, head, p)
    {
      MergedAt(ctx, favor, c, head, p);
    }
    if r.Failed? {
      var p :| MergeAt(base, ours, c.tree, resolve, p) == Stopped(r.why);
      MergedAt(ctx, favor, c, head, p);
    }
  }

  /** The commit made anew: its own metadata, on top of `head` with its other parents, and what is to be at every path.
      */
  ghost predicate Picked(ctx: Ctx, favor: Favor, c: Commit, head: Option<Commit>, image: Commit) {
    && image.meta == c.meta && image.headers == "" && image.newlines == 0
    && image.parents == (if head.Some? then [head.value] else []) + (if c.parents == [] then [] else c.parents[1..])
    && PickedTree(ctx, favor, c, head, image.tree)
  }

  lemma ParentSetPicks(ctx: Ctx, favor: Favor, c: Commit, head: Option<Commit>)
    ensures var r := ParentSet(ctx, favor, c, head);
            && (r.Ok? ==> Picked(ctx, favor, c, head, r.value))
            && forall why :: r == Failed(why) <==> StopsAt(ctx, favor, c, head, why)
  {
    hide PickedTree, StopsAt, ParentSetTree;
    TreePicks(ctx, favor, c, head);
  }

  // ----- one commit after the other -----

  /** What commit `i` of a replay is placed on top of. */
  function Under(head: Option<Commit>, images: seq<Commit>, i: nat): Option<Commit>
    requires i <= |images|
  {
    if i == 0 then head else Some(images[i - 1])
  }

  /** Every image of a replay is its commit placed on top of the image before it. */
  lemma ReplayPicks(ctx: Ctx, favor: Favor, head: Option<Commit>, todo: seq<Commit>, i: nat)
    requires Replay(ctx, favor, head, todo).Ok? && i < |todo|
    ensures var images := Replay(ctx, favor, head, todo).value;
            Picked(ctx, favor, todo[i], Under(head, images, i), images[i])
  {
    hide Replay, Picked, StopsAt;
    ReplayImage(ctx, favor, head, todo, i);
    var images := Replay(ctx, favor, head, todo).value;
    var below := TopOr(head, images[..i]);
    assert below == Under(head, images, i);
    ParentSetPicks(ctx, favor, todo[i], below);
  }

  /** A replay comes to a commit that cannot be placed on top of what there is by then. */
  ghost predicate StopsIn(ctx: Ctx, favor: Favor, head: Option<Commit>, todo: seq<Commit>, why: Stop) {
    exists i :: StopsAfter(ctx, favor, head, todo, why, i)
  }

  ghost predicate StopsAfter(ctx: Ctx, favor: Favor, head: Option<Commit>, todo: seq<Commit>, why: Stop, i: nat) {
    && i < |todo|
    && match Replay(ctx, favor, head, todo[..i])
       case Ok(images) => StopsAt(ctx, favor, todo[i], Under(head, images, i), why)
       case Failed(_) => false
  }

  /** A replay fails exactly when it comes to a commit that cannot be placed, and for that reason. */
  lemma ReplayStops(ctx: Ctx, favor: Favor, head: Option<Commit>, todo: seq<Commit>, why: Stop)
    ensures Replay(ctx, favor, head, todo) == Failed(why) <==> StopsIn(ctx, favor, head, todo, why)
  {
    hide Replay, StopsAfter;
    if Replay(ctx, favor, head, todo) == Failed(why) {
      FailedStops(ctx, favor, head, todo);
    }
    forall i: nat | StopsAfter(ctx, favor, head, todo, why, i) ensures Replay(ctx, favor, head, todo) == Failed(why) {
      StoppedFails(ctx, favor, head, todo, why, i);
    }
  }

  lemma StoppedFails(ctx: Ctx, favor: Favor, head: Option<Commit>, todo: seq<Commit>, why: Stop, i: nat)
    requires StopsAfter(ctx, favor, head, todo, why, i)
    ensures Replay(ctx, favor, head, todo) == Failed(why)
  {
    hide Replay, StopsAt, ParentSet, Picked;
    ReplayStep(ctx, favor, head, todo, i);
    ParentSetPicks(ctx, favor, todo[i], TopOr(head, Replay(ctx, favor, head, todo[..i]).value));
    ReplayFailed(ctx, favor, head, todo, i + 1);
  }

  lemma {:induction false} FailedStops(ctx: Ctx, favor: Favor, head: Option<Commit>, todo: seq<Commit>)
    requires Replay(ctx, favor, head, todo).Failed?
    ensures StopsIn(ctx, favor, head, todo, Replay(ctx, favor, head, todo).why)
  {
    hide StopsAt, Picked, ParentSet;
    var n := |todo| - 1;
    var why := Replay(ctx, favor, head, todo).why;
    if Replay(ctx, favor, head, todo[..n]).Failed? {
      FailedStops(ctx, favor, head, todo[..n]);
      var i: nat :| StopsAfter(ctx, favor, head, todo[..n], why, i);
      assert todo[..n][..i] == todo[..i];
      assert StopsAfter(ctx, favor, head, todo, why, i);
    } else {
      ParentSetPicks(ctx, favor, todo[n], TopOr(head, Replay(ctx, favor, head, todo[..n]).value));
      assert StopsAfter(ctx, favor, head, todo, why, n);
    }
  }

  // ----- the branches of an operation -----

  /** From position `keep` on, every commit of the branch is the listed one placed on top of the one below it. */
  ghost predicate AllPicked(ctx: Ctx, favor: Favor, h: seq<Commit>, labels: seq<Commit>, keep: nat) {
    |h| == |labels| && forall i :: keep <= i < |h| ==> Picked(ctx, favor, labels[i], Top(h[..i]), h[i])
  }

  lemma RewrittenPicks(ctx: Ctx, favor: Favor, rw: Rewriting)
    requires rw.Valid() && AddRemove(ctx, favor, rw).Ok? && !MakesMergeRoot(rw.Base(), rw.Todo())
    ensures AllPicked(ctx, favor, History(AddRemove(ctx, favor, rw).value.commit), rw.Target(), rw.Keep())
  {
    hide *;
    var images := AddRemoveImages(ctx, favor, rw);
    TargetIsKeptThenTodo(rw);
    AddRemoveHistory(ctx, favor, rw, images);
    PicksAbove(ctx, favor, rw.Base(), Chain(rw.dst)[..rw.Keep()], rw.Todo(), images);
  }

  lemma PicksAbove(ctx: Ctx, favor: Favor, base: Option<Commit>, kept: seq<Commit>, todo: seq<Commit>,
      images: seq<Commit>)
    requires Replay(ctx, favor, base, todo) == Ok(images) && |images| == |todo| && History(base) == kept
    ensures AllPicked(ctx, favor, kept + images, kept + todo, |kept|)
  {
    hide Replay, Picked, History;
    forall i | |kept| <= i < |kept + images|
      ensures Picked(ctx, favor, (kept + todo)[i], Top((kept + images)[..i]), (kept + images)[i])
    {
      ReplayPicks(ctx, favor, base, todo, i - |kept|);
      TopOfHistory(base);
      BelowImage(base, kept, images, i - |kept|);
    }
  }

  lemma BelowImage(base: Option<Commit>, kept: seq<Commit>, images: seq<Commit>, k: nat)
    requires k < |images| && Top(kept) == base
    ensures Top((kept + images)[..|kept| + k]) == if k == 0 then base else Some(images[k - 1])
  {
    var h := kept + images;
    if k == 0 {
      assert h[..|kept|] == kept;
    } else {
      assert h[..|kept| + k][|kept| + k - 1] == images[k - 1];
    }
  }

  lemma TopOfHistory(base: Option<Commit>)
    ensures Top(History(base)) == base
  {
  }

  lemma BranchPicks(ctx: Ctx, favor: Favor, rw: Rewriting, c: Commit)
    requires rw.Valid() && AddRemove(ctx, favor, rw).Ok? && AddRemove(ctx, favor, rw).value.commit == Some(c)
    ensures !MakesMergeRoot(rw.Base(), rw.Todo()) ==> AllPicked(ctx, favor, Chain(c), rw.Target(), rw.Keep())
  {
    hide *;
    if !MakesMergeRoot(rw.Base(), rw.Todo()) {
      RewrittenPicks(ctx, favor, rw);
      OperationLaws.HistoryIs(c);
    }
  }

  /** After a move, every commit that was made anew is the listed one placed on top of the one below it. The user
      answers for what is added to another ref, and for nothing else. */
  lemma MovePicks(ctx: Ctx, op: Op, before: Refs, after: Refs, r: Outcome)
    requires op.kind == Move && op.Valid() && MoveSpec(ctx, op, before, after, r) && r.Done?
    ensures op.src.ref.Some? && op.src.ref.value in after
    ensures op.dst.value.ref.Some? && op.dst.value.ref.value in after
    ensures op.SameRef() && !MakesMergeRoot(op.Moving().Base(), op.Moving().Todo()) ==>
              AllPicked(ctx, Theirs, Chain(after[op.dst.value.ref.value]), op.Moving().Target(), op.Moving().Keep())
    ensures !op.SameRef() && !MakesMergeRoot(op.Removing().Base(), op.Removing().Todo()) ==>
              AllPicked(ctx, Theirs, Chain(after[op.src.ref.value]), op.Removing().Target(), op.Removing().Keep())
    ensures !op.SameRef() && !MakesMergeRoot(op.Adding().Base(), op.Adding().Todo()) ==>
              AllPicked(ctx, Normal, Chain(after[op.dst.value.ref.value]), op.Adding().Target(), op.Adding().Keep())
  {
    hide AddRemove, MakesMergeRoot, AllPicked, Chain, Splice, Select, Without, AddLimit, CountBefore, MoveSpec;
    OperationLaws.MovedRefs(ctx, op, before, after, r);
    if op.SameRef() {
      BranchPicks(ctx, Theirs, op.Moving(), after[op.dst.value.ref.value]);
    } else {
      BranchPicks(ctx, Theirs, op.Removing(), after[op.src.ref.value]);
      BranchPicks(ctx, Normal, op.Adding(), after[op.dst.value.ref.value]);
    }
  }

  /** The same for a copy; the user answers unless the commits come from the very ref they are copied to. */
  lemma CopyPicks(ctx: Ctx, op: Op, before: Refs, after: Refs, r: Outcome)
    requires op.kind == Copy && op.Valid() && CopySpec(ctx, op, before, after, r) && r.Done?
    ensures op.dst.value.ref.Some? && op.dst.value.ref.value in after
    ensures var favor := if op.src.ref.Some? && op.src.ref == op.dst.value.ref then Theirs else Normal;
            !MakesMergeRoot(op.Adding().Base(), op.Adding().Todo()) ==>
              AllPicked(ctx, favor, Chain(after[op.dst.value.ref.value]), op.Adding().Target(), op.Adding().Keep())
  {
    hide AddRemove, Chain, AllPicked, MakesMergeRoot;
    BranchPicks(ctx, FileFavor(op.src, op.dst), op.Adding(), after[op.dst.value.ref.value]);
  }

  lemma DeletePicks(ctx: Ctx, op: Op, before: Refs, after: Refs, r: Outcome)
    requires op.kind == Delete && op.Valid() && DeleteSpec(ctx, op, before, after, r) && r.Done?
    ensures op.src.ref.Some? && op.src.ref.value in after
    ensures !MakesMergeRoot(op.Removing().Base(), op.Removing().Todo()) ==>
              AllPicked(ctx, Theirs, Chain(after[op.src.ref.value]), op.Removing().Target(), op.Removing().Keep())
  {
    hide AddRemove, Chain, AllPicked, MakesMergeRoot;
    BranchPicks(ctx, Theirs, op.Removing(), after[op.src.ref.value]);
  }

  // ----- when an operation stops -----

  ghost predicate Stops(ctx: Ctx, favor: Favor, rw: Rewriting, why: Stop)
    requires rw.Valid()
  {
    StopsIn(ctx, favor, rw.Base(), rw.Todo(), why)
  }

  /** There is no answer exactly when the rewrite comes to a commit for which the user gives up; there is an error
      exactly when it comes to one with a conflict of a kind that is not supported; and it is done otherwise. */
  ghost predicate Answers(ctx: Ctx, favor: Favor, rw: Rewriting, r: Outcome)
    requires rw.Valid()
  {
    && (r == Nothing <==> Stops(ctx, favor, rw, Canceled))
    && (r == Error("unsupported conflict scenario") <==> Stops(ctx, favor, rw, Unsupported))
    && (r.Done? <==> !Stops(ctx, favor, rw, Canceled) && !Stops(ctx, favor, rw, Unsupported))
  }

  lemma RewriteAnswers(ctx: Ctx, favor: Favor, rw: Rewriting, r: Outcome)
    requires rw.Valid()
    requires match AddRemove(ctx, favor, rw) case Failed(why) => r == StopOutcome(why) case Ok(_) => r.Done?
    ensures Answers(ctx, favor, rw, r)
  {
    hide Replay, StopsIn;
    ReplayStops(ctx, favor, rw.Base(), rw.Todo(), Canceled);
    ReplayStops(ctx, favor, rw.Base(), rw.Todo(), Unsupported);
  }

  lemma CopyStops(ctx: Ctx, op: Op, before: Refs, after: Refs, r: Outcome)
    requires op.kind == Copy && op.Valid() && CopySpec(ctx, op, before, after, r)
    ensures if op.dst.value.ref.None? then r == Error("destination must be a reference (branch or tag)")
            else Answers(ctx, if op.src.ref == op.dst.value.ref then Theirs else Normal, op.Adding(), r)
  {
    hide AddRemove, Chain, Answers;
    if op.dst.value.ref.Some? {
      RewriteAnswers(ctx, FileFavor(op.src, op.dst), op.Adding(), r);
    }
  }

  /** A move to another ref removes first, and then adds; a move within a ref does both at once. */
  lemma MoveStops(ctx: Ctx, op: Op, before: Refs, after: Refs, r: Outcome)
    requires op.kind == Move && op.Valid() && MoveSpec(ctx, op, before, after, r)
    ensures op.src.ref.None? ==> r == Error("source must be a reference (branch or tag)")
    ensures op.src.ref.Some? && op.dst.value.ref.None? ==> r == Error("destination must be a reference (branch or tag)")
    ensures op.SameRef() ==>
              if op.Moving().Target() == Chain(op.dst.value.commit) then r == Nothing
              else Answers(ctx, Theirs, op.Moving(), r)
    ensures op.src.ref.Some? && op.dst.value.ref.Some? && !op.SameRef() ==>
              if Stops(ctx, Theirs, op.Removing(), Unsupported) then r == Error("unsupported conflict scenario")
              else if op.commits == Elements(Chain(op.src.commit)) then r == Error("can't move last commit")
              else Answers(ctx, Normal, op.Adding(), r)
  {
    hide AddRemove, Chain, Answers, Splice, Select, Without, AddLimit, CountBefore, StopsIn, Elements;
    if op.src.ref.Some? && op.dst.value.ref.Some? {
      if op.SameRef() {
        if op.Moving().Target() != Chain(op.dst.value.commit) {
          RewriteAnswers(ctx, Theirs, op.Moving(), r);
        }
      } else {
        RemovingStops(ctx, op);
        if AddRemove(ctx, Theirs, op.Removing()).Ok? && op.commits != Elements(Chain(op.src.commit)) {
          RewriteAnswers(ctx, Normal, op.Adding(), r);
        }
      }
    }
  }

  lemma RemovingStops(ctx: Ctx, op: Op)
    requires op.Removing().Valid()
    ensures AddRemove(ctx, Theirs, op.Removing()).Failed? <==> Stops(ctx, Theirs, op.Removing(), Unsupported)
    ensures AddRemove(ctx, Theirs, op.Removing()).Failed? ==>
              AddRemove(ctx, Theirs, op.Removing()) == Failed(Unsupported)
  {
    hide Replay, StopsIn;
    var rw := op.Removing();
    ReplayStops(ctx, Theirs, rw.Base(), rw.Todo(), Unsupported);
    ReplayTheirs(ctx, rw.Base(), rw.Todo());
  }

  lemma DeleteStops(ctx: Ctx, op: Op, before: Refs, after: Refs, r: Outcome)
    requires op.kind == Delete && op.Valid() && DeleteSpec(ctx, op, before, after, r)
    ensures if op.src.ref.None? then r == Error("source must be a reference (branch or tag)")
            else if op.commits == Elements(Chain(op.src.commit)) then r == Error("can't delete last commit")
            else Answers(ctx, Theirs, op.Removing(), r)
  {
    hide AddRemove, Chain, Answers, Elements;
    if op.src.ref.Some? && op.commits != Elements(Chain(op.src.commit)) {
      RewriteAnswers(ctx, Theirs, op.Removing(), r);
    }
  }

  // ----- integrating -----

  /** Integrating a commit puts into the other one what is to be at every path, and fails where placing it fails. */
  lemma IntegratePicks(ctx: Ctx, dst: Commit, src: Commit)
    requires src.parents != []
    ensures var r := CommitIntegrate(ctx, dst, src);
            && (r.Ok? ==> PickedTree(ctx, Theirs, src, Some(dst), r.value.tree))
            && forall why :: r == Failed(why) <==> StopsAt(ctx, Theirs, src, Some(dst), why)
  {
    hide PickedTree, StopsAt, ParentSetTree;
    TreePicks(ctx, Theirs, src, Some(dst));
  }

  /** The trees that integrating one commit after the other goes through. */
  ghost predicate AllIntegrated(ctx: Ctx, xs: seq<Commit>, integrate: seq<Commit>) {
    && |xs| == |integrate| + 1
    && forall i :: 0 <= i < |integrate| ==> PickedTree(ctx, Theirs, integrate[i], Some(xs[i]), xs[i + 1].tree)
  }

  ghost predicate AllAttached(ctx: Ctx, x: Commit, attach: seq<Commit>, images: seq<Commit>) {
    && |images| == |attach|
    && forall i :: 0 <= i < |attach| ==>
         Picked(ctx, Theirs, attach[i], Under(Some(x), images, i), images[i])
  }

  /** So does every step of a combination; `xs` is what the lowest commit becomes, step by step. */
  lemma {:induction false} IntegrateAllPicks(ctx: Ctx, dst: Commit, integrate: seq<Commit>) returns (xs: seq<Commit>)
    requires NoRoots(integrate) && IntegrateAll(ctx, dst, integrate).Ok?
    ensures |xs| == |integrate| + 1 && xs[0] == dst && Ok(xs[|integrate|]) == IntegrateAll(ctx, dst, integrate)
    ensures AllIntegrated(ctx, xs, integrate)
  {
    hide PickedTree, StopsAt, CommitIntegrate;
    if integrate == [] {
      xs := [dst];
    } else {
      var n := |integrate| - 1;
      var front := IntegrateAllPicks(ctx, dst, integrate[..n]);
      IntegratePicks(ctx, front[n], integrate[n]);
      xs := front + [IntegrateAll(ctx, dst, integrate).value];
      forall i | 0 <= i < |integrate| ensures PickedTree(ctx, Theirs, integrate[i], Some(xs[i]), xs[i + 1].tree)
      {
        if i < n {
          assert integrate[..n][i] == integrate[i];
        }
      }
    }
  }

  lemma IntegratedPicks(ctx: Ctx, c: Commit, s: set<Commit>) returns (xs: seq<Commit>)
    requires CountBefore(Chain(c), s) < |Chain(c)| && Integrated(ctx, c, s).Ok?
    ensures var integrate := Select(Chain(c)[CountBefore(Chain(c), s) + 1..], s);
            && |xs| == |integrate| + 1
            && xs[0] == Chain(c)[CountBefore(Chain(c), s)] && xs[|integrate|] == Integrated(ctx, c, s).value
            && AllIntegrated(ctx, xs, integrate)
  {
    hide *;
    CombineEditLaws.IntegratedIs(ctx, c, s);
    xs := IntegrateAllPicks(ctx, Chain(c)[CountBefore(Chain(c), s)],
        Select(Chain(c)[CountBefore(Chain(c), s) + 1..], s));
  }

  lemma ReplayLength(ctx: Ctx, head: Option<Commit>, todo: seq<Commit>)
    ensures Replay(ctx, Theirs, head, todo).Ok? ==> |Replay(ctx, Theirs, head, todo).value| == |todo|
  {
  }

  lemma AttachedPicks(ctx: Ctx, x: Commit, attach: seq<Commit>, images: seq<Commit>)
    requires Replay(ctx, Theirs, Some(x), attach) == Ok(images)
    ensures |images| == |attach|
    ensures AllAttached(ctx, x, attach, images)
    ensures TopOr(Some(x), images) == Some(if attach == [] then x else images[|attach| - 1])
  {
    hide Replay, Picked;
    assert |images| == |attach| by { ReplayLength(ctx, Some(x), attach); }
    forall i | 0 <= i < |attach|
      ensures Picked(ctx, Theirs, attach[i], Under(Some(x), images, i), images[i])
    {
      ReplayPicks(ctx, Theirs, Some(x), attach, i);
    }
  }

  /** The selected commits of a chain above the lowest one are integrated into that one, and the others are attached on
      top of what it becomes. */
  ghost predicate CombinedBy(ctx: Ctx, h: seq<Commit>, s: set<Commit>, xs: seq<Commit>, images: seq<Commit>,
      c: Commit)
  {
    && CountBefore(h, s) < |h|
    && var above := h[CountBefore(h, s) + 1..];
    && AllIntegrated(ctx, xs, Select(above, s)) && xs[0] == h[CountBefore(h, s)]
    && AllAttached(ctx, xs[|xs| - 1], Without(above, s), images)
    && c == (if images == [] then xs[|xs| - 1] else images[|images| - 1])
  }

  /** A combination takes what is to be at every path, first of each commit that is integrated, then of each that is
      attached above. */
  lemma CombinePicks(ctx: Ctx, op: Op, before: Refs, after: Refs, r: Outcome)
    returns (xs: seq<Commit>, images: seq<Commit>)
    requires op.kind == Combine && op.Valid() && CombineSpec(ctx, op, before, after, r) && r.Done?
    ensures op.src.ref.Some? && op.src.ref.value in after
    ensures CombinedBy(ctx, Chain(op.src.commit), op.commits, xs, images, after[op.src.ref.value])
  {
    hide *;
    images := CombineEditLaws.CombineParts(ctx, op, before, after, r);
    CombineEditLaws.IntegratedIs(ctx, op.src.commit, op.commits);
    xs := IntegratedPicks(ctx, op.src.commit, op.commits);
    AttachedPicks(ctx, xs[|xs| - 1], Attached(op.src.commit, op.commits), images);
    CombinedParts(ctx, op.src.commit, op.commits, xs, images, after[op.src.ref.value]);
  }

  lemma CombinedParts(ctx: Ctx, top: Commit, s: set<Commit>, xs: seq<Commit>, images: seq<Commit>, c: Commit)
    requires CountBefore(Chain(top), s) < |Chain(top)|
    requires AllIntegrated(ctx, xs, Select(Chain(top)[CountBefore(Chain(top), s) + 1..], s))
    requires xs[0] == Chain(top)[CountBefore(Chain(top), s)]
    requires AllAttached(ctx, xs[|xs| - 1], Attached(top, s), images)
    requires c == (if images == [] then xs[|xs| - 1] else images[|images| - 1])
    ensures CombinedBy(ctx, Chain(top), s, xs, images, c)
  {
    hide Chain, CountBefore, Select, Without, AllIntegrated, AllAttached;
  }
}
