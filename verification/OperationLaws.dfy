/** What every run of an operation keeps, moves and changes. */
module OperationLaws {
  import opened Wrappers
  import opened Commits
  import opened Selections
  import opened Rewrite
  import opened Rewritten
  import opened Operations
  import opened CommitMessage
  import Strings

  /** The refs an operation may replace. */
  function Touched(op: Op): set<RefName> {
    (if op.src.ref.Some? then {op.src.ref.value} else {})
      + (if op.dst.Some? && op.dst.value.ref.Some? then {op.dst.value.ref.value} else {})
  }

  /** Every ref but the ones in `touched` is as it was. */
  ghost predicate Frame(touched: set<RefName>, before: Refs, after: Refs) {
    forall ref :: ref !in touched ==> (ref in after <==> ref in before) && (ref in before ==> after[ref] == before[ref])
  }

  /** A finished operation says where the refs it replaced now are. */
  ghost predicate Reports(res: Res, after: Refs) {
    res.rev.Some? && res.rev.value.ref.Some? ==>
      res.rev.value.ref.value in after && after[res.rev.value.ref.value] == res.rev.value.commit
  }

  /** Errors and cancellations happen before the first ref is replaced; a finished operation leaves every other ref
      alone, and the revisions it reports as changed are what their refs now target. */
  lemma AllOrNothing(ctx: Ctx, op: Op, editor: string -> string, before: Refs, after: Refs, r: Outcome)
    requires op.Valid() && ExecSpec(ctx, op, editor, before, after, r)
    ensures !r.Done? ==> after == before
    ensures Frame(Touched(op), before, after)
    ensures r.Done? && op.kind != Move && op.kind != Copy ==> Reports(r.result.src, after)
    ensures r.Done? && (op.kind == Move || op.kind == Copy) ==> Reports(r.result.dst, after)
    ensures r.Done? && op.kind == Move && !op.SameRef() ==> Reports(r.result.src, after)
  {
    hide MoveSpec, CopySpec, DeleteSpec, CombineSpec, EditSpec, ReadBack, Frame, Reports;
    match op.kind {
      case NoOp => FrameSame(Touched(op), before);
      case Move => MoveFrame(ctx, op, before, after, r);
      case Copy => CopyFrame(ctx, op, before, after, r);
      case Delete => DeleteFrame(ctx, op, before, after, r);
      case Combine => CombineFrame(ctx, op, before, after, r);
      case Edit => EditFrame(ctx, op, ReadBack(op, editor), before, after, r);
    }
  }

  lemma FrameSame(touched: set<RefName>, refs: Refs)
    ensures Frame(touched, refs, refs)
  {
  }

  lemma MoveFrame(ctx: Ctx, op: Op, before: Refs, after: Refs, r: Outcome)
    requires op.kind == Move && op.Valid() && MoveSpec(ctx, op, before, after, r)
    ensures !r.Done? ==> after == before
    ensures Frame(Touched(op), before, after)
    ensures r.Done? ==> Reports(r.result.dst, after) && (!op.SameRef() ==> Reports(r.result.src, after))
  {
    hide AddRemove, Chain, Splice, AddLimit, Elements;
  }

  lemma CopyFrame(ctx: Ctx, op: Op, before: Refs, after: Refs, r: Outcome)
    requires op.kind == Copy && op.Valid() && CopySpec(ctx, op, before, after, r)
    ensures !r.Done? ==> after == before
    ensures Frame(Touched(op), before, after) && (r.Done? ==> Reports(r.result.dst, after))
  {
    hide AddRemove, Chain;
  }

  lemma DeleteFrame(ctx: Ctx, op: Op, before: Refs, after: Refs, r: Outcome)
    requires op.kind == Delete && op.Valid() && DeleteSpec(ctx, op, before, after, r)
    ensures !r.Done? ==> after == before
    ensures Frame(Touched(op), before, after) && (r.Done? ==> Reports(r.result.src, after))
  {
    hide AddRemove, Chain;
  }

  lemma CombineFrame(ctx: Ctx, op: Op, before: Refs, after: Refs, r: Outcome)
    requires op.kind == Combine && op.Valid() && CombineSpec(ctx, op, before, after, r)
    ensures !r.Done? ==> after == before
    ensures Frame(Touched(op), before, after) && (r.Done? ==> Reports(r.result.src, after))
  {
    hide Integrated, Attached, Replay, Chain;
  }

  lemma EditFrame(ctx: Ctx, op: Op, edited: Message, before: Refs, after: Refs, r: Outcome)
    requires op.kind == Edit && op.Valid() && EditSpec(ctx, op, edited, before, after, r)
    ensures !r.Done? ==> after == before
    ensures Frame(Touched(op), before, after) && (r.Done? ==> Reports(r.result.src, after))
  {
    hide AddRemove, Chain, Editing, EditedCommit;
  }

  // ----- what an operation is to make of the branches -----

  /** The moved or copied commits go, in the order of their branch, right above the position, or to the bottom for the
      null position; apart from that nothing changes its place, and what is removed is gone. */
  lemma GoesAbovePosition(op: Op) returns (k: nat)
    requires (op.kind == Move || op.kind == Copy) && op.Valid() && op.commits != {}
    ensures var h, moved := Chain(op.dst.value.commit), Select(Chain(op.src.commit), op.commits);
            && k <= |h| && (if op.position.None? then k == 0 else k > 0 && h[k - 1] == op.position.value)
            && op.Adding().Target() == h[..k] + moved + h[k..]
            && (op.SameRef() && op.Moving().Valid() ==>
                 op.Moving().Target() == Without(h[..k], op.commits) + moved + Without(h[k..], op.commits))
    ensures op.Removing().Valid() ==> op.Removing().Target() == Without(Chain(op.src.commit), op.commits)
  {
    hide Chain, Select, Without, AddLimit, CountBefore, Elements;
    k := op.Adding().At();
    AddingTarget(op.Adding());
    LimitIsAbove(Chain(op.dst.value.commit), op.position);
    if op.Removing().Valid() {
      RemovingTarget(op);
    }
  }

  lemma LimitIsAbove(h: seq<Commit>, position: Option<Commit>)
    requires position.Some? ==> position.value in h
    ensures var k := AddLimit(h, true, position);
            if position.None? then k == 0 else k > 0 && h[k - 1] == position.value
  {
  }

  lemma RemovingTarget(op: Op)
    requires op.Removing().Valid()
    ensures op.Removing().Target() == Without(Chain(op.src.commit), op.commits)
  {
    hide Chain, Elements;
    var h := Chain(op.src.commit);
    AddsNothing();
    assert h[..|h|] == h && h[|h|..] == [];
    assert op.Removing().Adds() == [];
  }

  // ----- when the user is asked -----

  lemma {:induction false} IntegrateTheirs(ctx: Ctx, dst: Commit, integrate: seq<Commit>)
    requires NoRoots(integrate)
    ensures IntegrateAll(ctx, dst, integrate) != Failed(Canceled)
  {
    hide MergeTrees;
    if integrate != [] {
      IntegrateTheirs(ctx, dst, integrate[..|integrate| - 1]);
    }
  }

  /** Why a combination is refused: its ref, its size, a merge commit among the selected ones, or one of them that is
      not on the branch, in this order. */
  lemma CombineRefuses(ctx: Ctx, op: Op, before: Refs, after: Refs, r: Outcome)
    requires op.kind == Combine && op.Valid() && CombineSpec(ctx, op, before, after, r)
    ensures var ref := op.src.ref.Some?;
            var merges := exists c :: c in op.commits && |c.parents| > 1;
            var onBranch := forall c :: c in op.commits ==> c in Chain(op.src.commit);
            && (!ref ==> r == Error("source must be a reference (branch or tag)"))
            && (ref && |op.commits| < 2 ==> r == Error("at least 2 commits are required to combine"))
            && (ref && |op.commits| >= 2 && merges ==> r == Error("can't combine with merge commit"))
            && (ref && |op.commits| >= 2 && !merges && !onBranch ==> r == Error("ran out of commits"))
            && (ref && |op.commits| >= 2 && !merges && onBranch ==>
                 r.Done? || r == Error("unsupported conflict scenario"))
  {
    hide Integrated, Attached, Replay, Chain, CountBefore, AddRemove;
    assert HasMerge(op.commits) <==> exists c :: c in op.commits && |c.parents| > 1;
    assert op.commits <= Elements(Chain(op.src.commit)) <==>
           forall c :: c in op.commits ==> c in Chain(op.src.commit);
    CombineNotCanceled(ctx, op, before, after, r);
  }

  lemma CombineNotCanceled(ctx: Ctx, op: Op, before: Refs, after: Refs, r: Outcome)
    requires op.kind == Combine && op.Valid() && CombineSpec(ctx, op, before, after, r)
    ensures r != Nothing
  {
    hide Select, Without, Chain, Replay, IntegrateAll, CountBefore, HasMerge, Elements;
    var c, s := op.src.commit, op.commits;
    if CountBefore(Chain(c), s) < |Chain(c)| {
      var lo := CountBefore(Chain(c), s);
      NoRootsAbove(c, lo + 1, s);
      IntegrateTheirs(ctx, Chain(c)[lo], Select(Chain(c)[lo + 1..], s));
      if Integrated(ctx, c, s).Ok? {
        ReplayTheirs(ctx, Some(Integrated(ctx, c, s).value), Attached(c, s));
      }
    }
  }

  /** Within one ref nobody is asked, so nothing is canceled: there is no answer only when there was nothing to do. */
  lemma NeverCanceled(ctx: Ctx, op: Op, editor: string -> string, before: Refs, after: Refs, r: Outcome)
    requires op.Valid() && ExecSpec(ctx, op, editor, before, after, r)
    ensures op.kind == Delete || op.kind == Combine ==> r != Nothing
    ensures op.kind == Edit ==>
              (r == Nothing <==> op.src.ref.Some? && ReadBack(op, editor) == OriginalMessage(Lone(op.commits)))
    ensures op.kind == Move && op.SameRef() ==>
              (r == Nothing <==> op.Moving().Target() == Chain(op.dst.value.commit))
  {
    hide AddRemove, CombineSpec, ReadBack, Chain, Select, Splice, OriginalMessage, EditedCommit;
    match op.kind {
      case NoOp | Copy =>
      case Move => if op.SameRef() { AddRemoveTheirs(ctx, op.Moving()); }
      case Delete => AddRemoveTheirs(ctx, op.Removing());
      case Combine => CombineNotCanceled(ctx, op, before, after, r);
      case Edit =>
        var orig, edited := Lone(op.commits), EditedCommit(Lone(op.commits), ReadBack(op, editor));
        EditingValid(op.src.commit, orig, edited);
        AddRemoveTheirs(ctx, Editing(op.src.commit, orig, edited));
    }
  }

  // ----- conservation -----

  /** A move between refs neither loses nor duplicates a commit: over both branches, the lists the new branches stand
      for hold exactly the commits the old branches held, and the moved ones stand together in their source order. */
  lemma MoveConserves(op: Op)
    requires op.kind == Move && op.Valid()
    ensures multiset(op.Removing().Target()) + multiset(op.Adding().Target())
            == multiset(Chain(op.src.commit)) + multiset(Chain(op.dst.value.commit))
    ensures var at := AddedAt(op.Adding());
            op.Adding().Target()[at..at + |op.Adding().Adds()|] == Select(Chain(op.src.commit), op.commits)
  {
    hide AddedAt, Splice, Select, Without, AddLimit, Chain;
    var src, dst := Chain(op.src.commit), Chain(op.dst.value.commit);
    var removing, adding := op.Removing(), op.Adding();
    SpliceConserves(src, removing.Adds(), removing.At(), op.commits);
    SpliceConserves(dst, adding.Adds(), adding.At(), {});
    AddsNothing();
    SelectNothing(dst);
    var moved := multiset(Select(src, op.commits));
    assert multiset(removing.Target()) + moved == multiset(src);
    assert multiset(adding.Target()) == multiset(dst) + moved;
  }

  lemma AddsNothing()
    ensures Select(History(None), {}) == []
  {
  }

  lemma SelectNothing(h: seq<Commit>)
    ensures Select(h, {}) == []
  {
    SelectNone(h, {});
  }

  /** A move within a ref is a permutation of its commits. */
  lemma MoveWithinConserves(op: Op)
    requires op.kind == Move && op.Valid() && op.SameRef()
    ensures multiset(op.Moving().Target()) == multiset(Chain(op.src.commit))
  {
    hide Splice, Select, Without, AddLimit;
    var h, rw := Chain(op.src.commit), op.Moving();
    SpliceConserves(h, rw.Adds(), rw.At(), op.commits);
    var moved := multiset(Select(h, op.commits));
    assert multiset(rw.Target()) + moved == multiset(h) + moved;
    assert multiset(rw.Target()) == multiset(rw.Target()) + moved - moved;
  }

  // ----- the branches afterwards -----

  /** Where the refs are after a move. */
  lemma MovedRefs(ctx: Ctx, op: Op, before: Refs, after: Refs, r: Outcome)
    requires op.kind == Move && op.Valid() && MoveSpec(ctx, op, before, after, r) && r.Done?
    ensures op.src.ref.Some? && op.src.ref.value in after
    ensures op.dst.value.ref.Some? && op.dst.value.ref.value in after
    ensures op.SameRef() ==>
              var moved := AddRemove(ctx, Theirs, op.Moving());
              moved.Ok? && moved.value.commit == Some(after[op.dst.value.ref.value])
    ensures !op.SameRef() ==>
              var removed, added := AddRemove(ctx, Theirs, op.Removing()), AddRemove(ctx, Normal, op.Adding());
              && removed.Ok? && removed.value.commit == Some(after[op.src.ref.value])
              && added.Ok? && added.value.commit == Some(after[op.dst.value.ref.value])
  {
    hide AddRemove, Chain, Elements, Splice, AddLimit, Select;
  }

  lemma RewrittenBranch(ctx: Ctx, favor: Favor, rw: Rewriting, c: Commit)
    requires rw.Valid() && AddRemove(ctx, favor, rw).Ok? && AddRemove(ctx, favor, rw).value.commit == Some(c)
    ensures !MakesMergeRoot(rw.Base(), rw.Todo()) ==>
              Represents(Chain(c), rw.Target()) && Reuses(Chain(c), Chain(rw.dst), rw.Keep())
  {
    hide *;
    if !MakesMergeRoot(rw.Base(), rw.Todo()) {
      AddRemoveChain(ctx, favor, rw);
      HistoryIs(c);
    }
  }

  lemma HistoryIs(c: Commit)
    ensures History(Some(c)) == Chain(c)
  {
  }

  /** After a move, each branch it replaced carries its target list, commit by commit, on top of the untouched
      old ones. */
  lemma MovedBranches(ctx: Ctx, op: Op, before: Refs, after: Refs, r: Outcome)
    requires op.kind == Move && op.Valid() && MoveSpec(ctx, op, before, after, r) && r.Done?
    ensures op.src.ref.Some? && op.src.ref.value in after
    ensures op.dst.value.ref.Some? && op.dst.value.ref.value in after
    ensures op.SameRef() && !MakesMergeRoot(op.Moving().Base(), op.Moving().Todo()) ==>
              && Represents(Chain(after[op.dst.value.ref.value]), op.Moving().Target())
              && Reuses(Chain(after[op.dst.value.ref.value]), Chain(op.dst.value.commit), op.Moving().Keep())
    ensures !op.SameRef() && !MakesMergeRoot(op.Removing().Base(), op.Removing().Todo()) ==>
              && Represents(Chain(after[op.src.ref.value]), op.Removing().Target())
              && Reuses(Chain(after[op.src.ref.value]), Chain(op.src.commit), op.Removing().Keep())
    ensures !op.SameRef() && !MakesMergeRoot(op.Adding().Base(), op.Adding().Todo()) ==>
              && Represents(Chain(after[op.dst.value.ref.value]), op.Adding().Target())
              && Reuses(Chain(after[op.dst.value.ref.value]), Chain(op.dst.value.commit), op.Adding().Keep())
  {
    hide AddRemove, MakesMergeRoot, Represents, Reuses, Chain, Splice, Select, Without, AddedAt, AddLimit, CountBefore,
        MoveSpec;
    MovedRefs(ctx, op, before, after, r);
    if op.SameRef() {
      RewrittenBranch(ctx, Theirs, op.Moving(), after[op.dst.value.ref.value]);
    } else {
      RewrittenBranch(ctx, Theirs, op.Removing(), after[op.src.ref.value]);
      RewrittenBranch(ctx, Normal, op.Adding(), after[op.dst.value.ref.value]);
    }
  }

  /** After a deletion, the branch carries what was not selected, in its old order. */
  lemma DeletedBranch(ctx: Ctx, op: Op, before: Refs, after: Refs, r: Outcome)
    requires op.kind == Delete && op.Valid() && DeleteSpec(ctx, op, before, after, r) && r.Done?
    requires !MakesMergeRoot(op.Removing().Base(), op.Removing().Todo())
    ensures Represents(Chain(after[op.src.ref.value]), Without(Chain(op.src.commit), op.commits))
  {
    hide AddRemove, MakesMergeRoot, Represents, Reuses, Chain, Splice, Select, Without, AddedAt, AddLimit, CountBefore;
    AddRemoveChain(ctx, Theirs, op.Removing());
    RemovedIsNull(ctx, op);
  }

  // ----- what is selected afterwards -----

  /** On the new branch, the commits that stand where the target list has the added ones. */
  ghost predicate SelectsAdded(selection: set<Commit>, rw: Rewriting, c: Commit)
    requires rw.Valid()
  {
    var n := AddedAt(rw);
    && |Chain(c)| == |rw.Target()| && rw.Target()[n..n + |rw.Adds()|] == rw.Adds()
    && selection == Elements(Chain(c)[n..n + |rw.Adds()|])
  }

  lemma AddedSelected(ctx: Ctx, favor: Favor, rw: Rewriting, c: Commit)
    requires rw.Valid() && AddRemove(ctx, favor, rw).Ok? && AddRemove(ctx, favor, rw).value.commit == Some(c)
    ensures !MakesMergeRoot(rw.Base(), rw.Todo()) ==> SelectsAdded(AddRemove(ctx, favor, rw).value.added, rw, c)
  {
    hide AddRemove, MakesMergeRoot, Chain, Splice, Select, Without, AddLimit, CountBefore;
    if !MakesMergeRoot(rw.Base(), rw.Todo()) {
      AddRemoveChain(ctx, favor, rw);
      HistoryIs(c);
    }
  }

  /** After a move, the moved commits are recorded as selected before on the branch they have been on, and what was
      added is selected on the other one. */
  lemma MoveSelects(ctx: Ctx, op: Op, before: Refs, after: Refs, r: Outcome)
    requires op.kind == Move && op.Valid() && MoveSpec(ctx, op, before, after, r) && r.Done?
    ensures r.result.src.selection == {}
    ensures op.SameRef() ==> r.result.src.selectionPrev == {} && r.result.dst.selectionPrev == op.commits
    ensures !op.SameRef() ==> r.result.src.selectionPrev == op.commits && r.result.dst.selectionPrev == {}
    ensures var added :=
              if op.SameRef() then AddRemove(ctx, Theirs, op.Moving()) else AddRemove(ctx, Normal, op.Adding());
            added.Ok? && r.result.dst.selection == added.value.added
  {
    hide AddRemove, Chain, Elements, Splice, AddLimit, Select;
  }

  /** The selected ones are the moved commits, where they stand on the new branch. */
  lemma MovedAreSelected(ctx: Ctx, op: Op, before: Refs, after: Refs, r: Outcome)
    requires op.kind == Move && op.Valid() && MoveSpec(ctx, op, before, after, r) && r.Done?
    ensures op.dst.value.ref.Some? && op.dst.value.ref.value in after
    ensures var rw := if op.SameRef() then op.Moving() else op.Adding();
            !MakesMergeRoot(rw.Base(), rw.Todo()) ==>
              SelectsAdded(r.result.dst.selection, rw, after[op.dst.value.ref.value])
  {
    hide AddRemove, MakesMergeRoot, Chain, Splice, Select, Without, AddLimit, CountBefore, SelectsAdded, Elements,
        MoveSpec;
    MovedRefs(ctx, op, before, after, r);
    MoveSelects(ctx, op, before, after, r);
    var c := after[op.dst.value.ref.value];
    if op.SameRef() {
      AddedSelected(ctx, Theirs, op.Moving(), c);
    } else {
      AddedSelected(ctx, Normal, op.Adding(), c);
    }
  }

  /** After a copy, the copies are selected, and nothing was before. */
  lemma CopySelects(ctx: Ctx, op: Op, before: Refs, after: Refs, r: Outcome)
    requires op.kind == Copy && op.Valid() && CopySpec(ctx, op, before, after, r) && r.Done?
    ensures op.dst.value.ref.Some? && op.dst.value.ref.value in after
    ensures r.result.src == Res(Some(op.src), {}, {}) && r.result.dst.selectionPrev == {}
    ensures !MakesMergeRoot(op.Adding().Base(), op.Adding().Todo()) ==>
              SelectsAdded(r.result.dst.selection, op.Adding(), after[op.dst.value.ref.value])
  {
    hide AddRemove, MakesMergeRoot, Chain, SelectsAdded, Elements;
    AddedSelected(ctx, FileFavor(op.src, op.dst), op.Adding(), after[op.dst.value.ref.value]);
  }

  /** After a deletion nothing is selected, and the deleted commits were. */
  lemma DeleteSelects(ctx: Ctx, op: Op, before: Refs, after: Refs, r: Outcome)
    requires op.kind == Delete && op.Valid() && DeleteSpec(ctx, op, before, after, r) && r.Done?
    ensures r.result.src.selection == {} && r.result.src.selectionPrev == op.commits && r.result.dst == NO_RES
  {
    hide AddRemove, Chain;
  }
}
