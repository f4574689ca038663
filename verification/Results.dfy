/** What an operation answers, as the session records it: which refs changed, and which commits are selected then. */
module Results {
  import opened Wrappers
  import opened Commits
  import opened Selections
  import opened Rewrite
  import opened Rewritten
  import opened Operations
  import opened CombineEditLaws
  import opened CommitMessage
  import opened OperationLaws

  /** The answer is about the ref of `prev`, and its commit is another one now. */
  predicate Changed(res: Res, prev: Rev) {
    res.rev.Some? && res.rev.value.ref.Some? && res.rev.value.commit != prev.commit
  }

  function OnBranch(c: Commit): set<Commit> {
    Elements(Chain(c))
  }

  /** An answer about a ref: where it changed, that is where the ref is, the commits that are selected now are on the
      new branch, and those that were selected before are on the old one. */
  ghost predicate Shows(res: Res, prev: Rev, after: Refs) {
    && res.rev.Some? && res.rev.value.ref == prev.ref
    && (Changed(res, prev) ==>
         && prev.ref.value in after && after[prev.ref.value] == res.rev.value.commit
         && res.selection <= OnBranch(res.rev.value.commit) && res.selectionPrev <= OnBranch(prev.commit))
  }

  predicate RefAgrees(rev: Rev, refs: Refs) {
    rev.ref.Some? ==> rev.ref.value in refs && refs[rev.ref.value] == rev.commit
  }

  /** What the answer says is selected: of a ref as it is now, and of commits that are on it. */
  ghost predicate Selects(res: Res, after: Refs) {
    res.rev.Some? && RefAgrees(res.rev.value, after) && res.selection <= OnBranch(res.rev.value.commit)
  }

  ghost predicate ChangedRef(r: OpResult, op: Op, ref: RefName) {
    || (Changed(r.src, op.src) && op.src.ref == Some(ref))
    || (op.dst.Some? && Changed(r.dst, op.dst.value) && op.dst.value.ref == Some(ref))
  }

  /** The answer of a finished operation accounts for every ref that has another commit now. */
  ghost predicate Accounts(r: OpResult, op: Op, before: Refs, after: Refs) {
    && Shows(r.src, op.src, after)
    && Selects(if r.dst.rev.Some? then r.dst else r.src, after)
    && (r.dst.rev.Some? ==> op.dst.Some? && Shows(r.dst, op.dst.value, after))
    && (forall ref :: ref in before ==> ref in after && (after[ref] != before[ref] ==> ChangedRef(r, op, ref)))
    && !(op.dst.Some? && Changed(r.src, op.src) && Changed(r.dst, op.dst.value) && op.dst.value.ref == op.src.ref)
  }

  lemma OneRef(r: OpResult, op: Op, before: Refs, after: Refs)
    requires op.src.ref.Some? && RefAgrees(op.src, before) && r.dst == NO_RES
    requires r.src.rev.Some? && r.src.rev.value.ref == op.src.ref
             && after == before[op.src.ref.value := r.src.rev.value.commit]
    requires r.src.selection <= OnBranch(r.src.rev.value.commit) && r.src.selectionPrev <= OnBranch(op.src.commit)
    ensures Accounts(r, op, before, after)
  {
    hide OnBranch;
  }

  lemma OneDst(r: OpResult, op: Op, before: Refs, after: Refs)
    requires op.dst.Some? && op.dst.value.ref.Some? && RefAgrees(op.dst.value, before) && r.src.rev == Some(op.src)
    requires var dst := op.dst.value;
             && r.dst.rev.Some? && r.dst.rev.value.ref == dst.ref
                 && after == before[dst.ref.value := r.dst.rev.value.commit]
             && r.dst.selection <= OnBranch(r.dst.rev.value.commit)
             && (Changed(r.dst, dst) ==> r.dst.selectionPrev <= OnBranch(dst.commit))
    ensures Accounts(r, op, before, after)
  {
    hide OnBranch;
  }

  lemma AddedOnBranch(ctx: Ctx, favor: Favor, rw: Rewriting)
    requires rw.Valid() && AddRemove(ctx, favor, rw).Ok? && AddRemove(ctx, favor, rw).value.commit.Some?
    ensures AddRemove(ctx, favor, rw).value.added <= OnBranch(AddRemove(ctx, favor, rw).value.commit.value)
  {
    hide AddRemove;
    AddRemoveResultChain(ctx, favor, rw);
  }

  lemma MoveAccounts(ctx: Ctx, op: Op, before: Refs, after: Refs, r: Outcome)
    requires op.kind == Move && op.Valid() && MoveSpec(ctx, op, before, after, r) && r.Done?
    requires RefAgrees(op.src, before) && RefAgrees(op.dst.value, before)
    ensures Accounts(r.result, op, before, after)
  {
    hide AddRemove, OnBranch;
    assert op.commits <= OnBranch(op.src.commit) by { SelectedOnBranch(op); }
    if op.SameRef() {
      AddedOnBranch(ctx, Theirs, op.Moving());
      OneDst(r.result, op, before, after);
    } else {
      AddedOnBranch(ctx, Normal, op.Adding());
    }
  }

  lemma SelectedOnBranch(op: Op)
    requires op.Valid() && (op.kind == Move || op.kind == Delete || op.kind == Edit)
    ensures op.commits <= OnBranch(op.src.commit)
  {
  }

  lemma CopyAccounts(ctx: Ctx, op: Op, before: Refs, after: Refs, r: Outcome)
    requires op.kind == Copy && op.Valid() && CopySpec(ctx, op, before, after, r) && r.Done?
    requires RefAgrees(op.src, before) && RefAgrees(op.dst.value, before)
    ensures Accounts(r.result, op, before, after)
  {
    hide AddRemove, OnBranch;
    AddedOnBranch(ctx, FileFavor(op.src, op.dst), op.Adding());
    OneDst(r.result, op, before, after);
  }

  lemma DeleteAccounts(ctx: Ctx, op: Op, before: Refs, after: Refs, r: Outcome)
    requires op.kind == Delete && op.Valid() && DeleteSpec(ctx, op, before, after, r) && r.Done?
    requires RefAgrees(op.src, before)
    ensures Accounts(r.result, op, before, after)
  {
    hide AddRemove, OnBranch;
    SelectedOnBranch(op);
    OneRef(r.result, op, before, after);
  }

  lemma CombineAccounts(ctx: Ctx, op: Op, before: Refs, after: Refs, r: Outcome)
    requires op.kind == Combine && op.Valid() && CombineSpec(ctx, op, before, after, r) && r.Done?
    requires RefAgrees(op.src, before)
    ensures Accounts(r.result, op, before, after)
  {
    hide Integrated, Attached, Replay, Chain, CountBefore;
    var images := CombineParts(ctx, op, before, after, r);
    var c := Integrated(ctx, op.src.commit, op.commits).value;
    IntegratedOnBranch(ctx, c, Attached(op.src.commit, op.commits), images);
    OneRef(r.result, op, before, after);
  }

  /** The combined commit is on the branch above it. */
  lemma IntegratedOnBranch(ctx: Ctx, c: Commit, todo: seq<Commit>, images: seq<Commit>)
    requires Replay(ctx, Theirs, Some(c), todo) == Ok(images)
    ensures TopOr(Some(c), images).Some? && c in OnBranch(TopOr(Some(c), images).value)
  {
    hide Replay;
    ReplayHistory(ctx, Theirs, Some(c), todo);
    assert c in Chain(c);
  }

  lemma EditAccounts(ctx: Ctx, op: Op, edited: Message, before: Refs, after: Refs, r: Outcome)
    requires op.kind == Edit && op.Valid() && EditSpec(ctx, op, edited, before, after, r) && r.Done?
    requires RefAgrees(op.src, before)
    ensures Accounts(r.result, op, before, after)
  {
    hide AddRemove, OnBranch, EditedCommit;
    SelectedOnBranch(op);
    var orig := Lone(op.commits);
    var c := EditedCommit(orig, edited);
    EditingValid(op.src.commit, orig, c);
    AddedOnBranch(ctx, Theirs, Editing(op.src.commit, orig, c));
    OneRef(r.result, op, before, after);
  }

  /** Every operation accounts for what it did. */
  lemma OperationAccounts(ctx: Ctx, op: Op, editor: string -> string, before: Refs, after: Refs, r: Outcome)
    requires op.Valid() && ExecSpec(ctx, op, editor, before, after, r) && r.Done?
    requires RefAgrees(op.src, before) && (op.dst.Some? ==> RefAgrees(op.dst.value, before))
    ensures Accounts(r.result, op, before, after)
  {
    hide MoveSpec, CopySpec, DeleteSpec, CombineSpec, EditSpec, ReadBack, Accounts;
    match op.kind {
      case Move => MoveAccounts(ctx, op, before, after, r);
      case Copy => CopyAccounts(ctx, op, before, after, r);
      case Delete => DeleteAccounts(ctx, op, before, after, r);
      case Combine => CombineAccounts(ctx, op, before, after, r);
      case Edit => EditAccounts(ctx, op, ReadBack(op, editor), before, after, r);
    }
  }
}
