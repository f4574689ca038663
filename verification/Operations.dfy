/** The five operations on branches, as methods that replace refs of a repository. */
module Operations {
  import opened Wrappers
  import opened Commits
  import opened Selections
  import opened Rewrite
  import opened Rewritten
  import opened CommitMessage
  import Strings
  import CommitTime

  type RefName = string

  /** A commit, with the branch or tag that targets it if there is one. */
  datatype Rev = Rev(commit: Commit, ref: Option<RefName>)

  datatype OpType = NoOp | Move | Copy | Delete | Combine | Edit

  datatype Op = Op(kind: OpType, src: Rev, commits: set<Commit>, dst: Option<Rev>, position: Option<Commit>) {
    /** What the operations assert, or would dereference a null commit without. */
    predicate Valid() {
      match kind
      case NoOp => true
      case Move =>
        && dst.Some?
        && commits <= Elements(Chain(src.commit))
        && (commits != {} ==> PositionIn(dst.value.commit))
        && (src.ref.Some? && dst.value.ref == src.ref ==> src.commit == dst.value.commit && commits != {})
      case Copy =>
        && dst.Some?
        && commits <= Elements(Chain(src.commit))
        && (commits != {} ==> PositionIn(dst.value.commit))
      case Delete => dst.None? && commits <= Elements(Chain(src.commit))
      case Combine => dst.None?
      case Edit => dst.None? && |commits| == 1 && commits <= Elements(Chain(src.commit))
    }

    predicate PositionIn(c: Commit) {
      position.Some? ==> position.value in Chain(c)
    }

    predicate SameRef() {
      dst.Some? && src.ref.Some? && dst.value.ref == src.ref
    }

    /** The rewrites the operations are made of. */
    function Moving(): Rewriting
      requires dst.Some?
    {
      Rewriting(dst.value.commit, commits, Some(src.commit), position, commits)
    }

    function Adding(): Rewriting
      requires dst.Some?
    {
      Rewriting(dst.value.commit, commits, Some(src.commit), position, {})
    }

    function Removing(): Rewriting {
      Rewriting(src.commit, {}, None, None, commits)
    }
  }

  datatype Res = Res(rev: Option<Rev>, selection: set<Commit>, selectionPrev: set<Commit>)

  datatype OpResult = OpResult(src: Res, dst: Res)

  /** Nothing stands for an empty optional: there was nothing to do, or the user canceled. */
  datatype Outcome = Done(result: OpResult) | Nothing | Error(message: string)

  const UNSUPPORTED := "unsupported conflict scenario"
  const NO_RES := Res(None, {}, {})
  const NO_SOURCE_REF := "source must be a reference (branch or tag)"
  const NO_DESTINATION_REF := "destination must be a reference (branch or tag)"

  class Repo {
    var refs: map<RefName, Commit>

    constructor ()
      ensures refs == map[]
    {
      refs := map[];
    }

    method RefReplace(ref: RefName, commit: Commit) returns (rev: Rev)
      modifies this
      ensures refs == old(refs)[ref := commit] && rev == Rev(commit, Some(ref))
    {
      refs := refs[ref := commit];
      rev := Rev(commit, Some(ref));
    }
  }

  /** Conflicts are left to the user only when commits come from another ref. */
  function FileFavor(src: Rev, dst: Option<Rev>): Favor {
    if dst.None? || (src.ref.Some? && dst.value.ref == src.ref) then Theirs else Normal
  }

  /** What an operation answers when a commit cannot be made. */
  function StopOutcome(why: Stop): Outcome {
    match why case Canceled => Nothing case Unsupported => Error(UNSUPPORTED)
  }

  // ----- move -----

  /** A move is a nop exactly when it would leave the list of commits as it is. */
  method MoveIsNop(op: Op) returns (nop: bool)
    requires op.kind == Move && op.Valid() && op.src.ref.Some? && op.dst.value.ref.Some?
    ensures nop <==> op.SameRef() && op.Moving().Target() == Chain(op.dst.value.commit)
  {
    if op.src.ref != op.dst.value.ref {
      return false;
    }
    var gap := CommitsHasGap(Some(op.src.commit), op.commits);
    if gap {
      MoveNopPoint(op);
      return false;
    }
    nop := InsertionIsNop(Some(op.src.commit), op.position, op.commits);
    MoveNopPoint(op);
  }

  /** The positions at which a move changes nothing: no gap, and at or right below a selected commit. */
  lemma MoveNopPoint(op: Op)
    requires op.kind == Move && op.Valid() && op.SameRef()
    ensures var h := Chain(op.src.commit);
            op.Moving().Target() == h <==>
            && !HasGap(h, op.commits)
            && ((op.position.Some? && op.position.value in op.commits) || op.position
                == Top(h[..CountBefore(h, op.commits)]))
  {
    var h, s, rw := Chain(op.src.commit), op.commits, op.Moving();
    HistoryDistinct(Some(op.src.commit));
    MoveIsIdentity(h, s, rw.At());
    if !HasGap(h, s) {
      NopPositions(h, s, op.position, rw.At());
    }
  }

  lemma NopPositions(h: seq<Commit>, s: set<Commit>, position: Option<Commit>, at: nat)
    requires Distinct(h) && s != {} && s <= Elements(h) && !HasGap(h, s)
    requires at <= |h| && position == Top(h[..at])
    ensures CountBefore(h, s) <= at <= CountBefore(h, s) + |s| <==>
            (position.Some? && position.value in s) || position == Top(h[..CountBefore(h, s)])
  {
    hide Select, Without, CountBefore, HasGap, Distinct, Elements;
    var lo, hi := GaplessIsBlock(h, s);
    BlockSelect(h, s, lo, hi);
    SelectCount(h, s);
    assert hi == lo + |s|;
    TopInjective(h, at, lo);
    if at > 0 {
      assert position == Some(h[at - 1]);
    }
  }

  lemma TopInjective(h: seq<Commit>, a: nat, b: nat)
    requires Distinct(h) && a <= |h| && b <= |h|
    ensures Top(h[..a]) == Top(h[..b]) <==> a == b
  {
    if 0 < a && 0 < b && a != b {
      assert h[a - 1] != h[b - 1];
    }
  }

  type Refs = map<RefName, Commit>

  /** What a move does to the refs and what it answers. */
  ghost predicate MoveSpec(ctx: Ctx, op: Op, before: Refs, after: Refs, r: Outcome)
    requires op.kind == Move && op.Valid()
  {
    if op.src.ref.None? then r == Error(NO_SOURCE_REF) && after == before
    else if op.dst.value.ref.None? then r == Error(NO_DESTINATION_REF) && after == before
    else if op.SameRef() then
      var rewritten := AddRemove(ctx, Theirs, op.Moving());
      if op.Moving().Target() == Chain(op.dst.value.commit) then r == Nothing && after == before
      else if rewritten.Failed? then r == StopOutcome(rewritten.why) && after == before
      else
        && rewritten.value.commit.Some?
        && var rev := Rev(rewritten.value.commit.value, op.dst.value.ref);
        && after == before[rev.ref.value := rev.commit]
        && r == Done(OpResult(Res(Some(op.src), {}, {}), Res(Some(rev), rewritten.value.added, op.commits)))
    else
      var removed, added := AddRemove(ctx, Theirs, op.Removing()), AddRemove(ctx, Normal, op.Adding());
      if removed.Failed? then r == StopOutcome(removed.why) && after == before
      else if op.commits == Elements(Chain(op.src.commit)) then r == Error("can't move last commit") && after == before
      else if added.Failed? then r == StopOutcome(added.why) && after == before
      else
        && removed.value.commit.Some? && added.value.commit.Some?
        && var srcRev := Rev(removed.value.commit.value, op.src.ref);
        && var dstRev := Rev(added.value.commit.value, op.dst.value.ref);
        && after == before[srcRev.ref.value := srcRev.commit][dstRev.ref.value := dstRev.commit]
        && r == Done(OpResult(Res(Some(srcRev), {}, op.commits), Res(Some(dstRev), added.value.added, {})))
  }

  /** Moves commits within a ref, or from one ref to another. */
  method MoveCommits(repo: Repo, ctx: Ctx, op: Op) returns (r: Outcome)
    requires op.kind == Move && op.Valid()
    modifies repo
    ensures MoveSpec(ctx, op, old(repo.refs), repo.refs, r)
  {
    hide AddRemove, Chain;
    if op.src.ref.None? { return Error(NO_SOURCE_REF); }
    if op.dst.value.ref.None? { return Error(NO_DESTINATION_REF); }
    var nop := MoveIsNop(op);
    if nop { return Nothing; }
    if op.src.ref == op.dst.value.ref {
      var rewritten := AddRemoveCommits(ctx, FileFavor(op.src, op.dst), op.Moving());
      if rewritten.Failed? { return StopOutcome(rewritten.why); }
      MovedIsNotNull(ctx, op);
      var dstRev := repo.RefReplace(op.dst.value.ref.value, rewritten.value.commit.value);
      r := Done(OpResult(Res(Some(op.src), {}, {}), Res(Some(dstRev), rewritten.value.added, op.commits)));
    } else {
      var removed := AddRemoveCommits(ctx, FileFavor(op.src, None), op.Removing());
      RemovedIsNull(ctx, op);
      if removed.Failed? { return StopOutcome(removed.why); }
      if removed.value.commit.None? { return Error("can't move last commit"); }
      var added := AddRemoveCommits(ctx, FileFavor(op.src, op.dst), op.Adding());
      if added.Failed? { return StopOutcome(added.why); }
      AddedIsNotNull(ctx, Normal, op);
      var srcRev := repo.RefReplace(op.src.ref.value, removed.value.commit.value);
      var dstRev := repo.RefReplace(op.dst.value.ref.value, added.value.commit.value);
      r := Done(OpResult(Res(Some(srcRev), {}, op.commits), Res(Some(dstRev), added.value.added, {})));
    }
  }

  /** A rewrite within one ref is never canceled. */
  lemma AddRemoveTheirs(ctx: Ctx, rw: Rewriting)
    requires rw.Valid()
    ensures AddRemove(ctx, Theirs, rw) != Failed(Canceled)
  {
    ReplayTheirs(ctx, rw.Base(), rw.Todo());
  }

  lemma MovedIsNotNull(ctx: Ctx, op: Op)
    requires op.kind == Move && op.Valid() && op.SameRef() && AddRemove(ctx, Theirs, op.Moving()).Ok?
    ensures AddRemove(ctx, Theirs, op.Moving()).value.commit.Some?
  {
    hide AddRemove;
    var rw := op.Moving();
    AddRemoveResultChain(ctx, Theirs, rw);
    var c :| c in op.commits;
    SelectElements(Chain(op.src.commit), op.commits);
    assert c in rw.Adds();
    assert c in rw.Target();
  }

  /** A branch vanishes exactly when every commit of it is removed, which the operations refuse. */
  lemma RemovedIsNull(ctx: Ctx, op: Op)
    requires op.Removing().Valid()
    ensures var r := AddRemove(ctx, Theirs, op.Removing());
            op.commits == Elements(Chain(op.src.commit)) <==> r.Ok? && r.value.commit.None?
    ensures op.Removing().Target() == Without(Chain(op.src.commit), op.commits)
  {
    hide AddRemove;
    var rw, h := op.Removing(), Chain(op.src.commit);
    if rw.Target() == [] {
      NothingToReplay(ctx, Theirs, rw);
    }
    if AddRemove(ctx, Theirs, rw).Ok? {
      AddRemoveResultChain(ctx, Theirs, rw);
    }
    assert rw.At() == |h| && h[..|h|] == h && h[|h|..] == [];
    SelectElements(h, op.commits);
    if rw.Target() != [] {
      assert rw.Target()[0] in Without(h, op.commits);
    } else {
      forall c | c in h ensures c in op.commits {
        assert c !in rw.Target();
      }
    }
  }

  lemma NothingToReplay(ctx: Ctx, favor: Favor, rw: Rewriting)
    requires rw.Valid() && rw.Target() == []
    ensures AddRemove(ctx, favor, rw).Ok?
  {
    hide Select, Without, Splice, Chain;
    TargetIsKeptThenTodo(rw);
  }

  lemma AddedIsNotNull(ctx: Ctx, favor: Favor, op: Op)
    requires op.dst.Some? && op.Adding().Valid() && AddRemove(ctx, favor, op.Adding()).Ok?
    ensures AddRemove(ctx, favor, op.Adding()).value.commit.Some?
  {
    hide AddRemove;
    var rw := op.Adding();
    AddRemoveResultChain(ctx, favor, rw);
    var c := op.dst.value.commit;
    assert c in Chain(c);
    AddingTarget(rw);
  }

  /** Adding without removing puts the added commits between the two halves of the chain. */
  lemma AddingTarget(rw: Rewriting)
    requires rw.Valid() && rw.remove == {}
    ensures rw.Target() == Chain(rw.dst)[..rw.At()] + rw.Adds() + Chain(rw.dst)[rw.At()..]
  {
    SelectNone(Chain(rw.dst)[..rw.At()], {});
    SelectNone(Chain(rw.dst)[rw.At()..], {});
  }

  // ----- copy -----

  ghost predicate CopySpec(ctx: Ctx, op: Op, before: Refs, after: Refs, r: Outcome)
    requires op.kind == Copy && op.Valid()
  {
    if op.dst.value.ref.None? then r == Error(NO_DESTINATION_REF) && after == before
    else
      var added := AddRemove(ctx, FileFavor(op.src, op.dst), op.Adding());
      if added.Failed? then r == StopOutcome(added.why) && after == before
      else
        && added.value.commit.Some?
        && var rev := Rev(added.value.commit.value, op.dst.value.ref);
        && after == before[rev.ref.value := rev.commit]
        && r == Done(OpResult(Res(Some(op.src), {}, {}), Res(Some(rev), added.value.added, {})))
  }

  method CopyCommits(repo: Repo, ctx: Ctx, op: Op) returns (r: Outcome)
    requires op.kind == Copy && op.Valid()
    modifies repo
    ensures CopySpec(ctx, op, old(repo.refs), repo.refs, r)
  {
    hide AddRemove, Chain;
    if op.dst.value.ref.None? { return Error(NO_DESTINATION_REF); }
    var added := AddRemoveCommits(ctx, FileFavor(op.src, op.dst), op.Adding());
    if added.Failed? { return StopOutcome(added.why); }
    AddedIsNotNull(ctx, FileFavor(op.src, op.dst), op);
    var dstRev := repo.RefReplace(op.dst.value.ref.value, added.value.commit.value);
    r := Done(OpResult(Res(Some(op.src), {}, {}), Res(Some(dstRev), added.value.added, {})));
  }

  // ----- delete -----

  ghost predicate DeleteSpec(ctx: Ctx, op: Op, before: Refs, after: Refs, r: Outcome)
    requires op.kind == Delete && op.Valid()
  {
    if op.src.ref.None? then r == Error(NO_SOURCE_REF) && after == before
    else if op.commits == Elements(Chain(op.src.commit)) then r == Error("can't delete last commit") && after == before
    else
      var removed := AddRemove(ctx, Theirs, op.Removing());
      if removed.Failed? then r == StopOutcome(removed.why) && after == before
      else
        && removed.value.commit.Some?
        && var rev := Rev(removed.value.commit.value, op.src.ref);
        && after == before[rev.ref.value := rev.commit]
        && r == Done(OpResult(Res(Some(rev), {}, op.commits), NO_RES))
  }

  method DeleteCommits(repo: Repo, ctx: Ctx, op: Op) returns (r: Outcome)
    requires op.kind == Delete && op.Valid()
    modifies repo
    ensures DeleteSpec(ctx, op, old(repo.refs), repo.refs, r)
  {
    hide AddRemove, Chain;
    if op.src.ref.None? { return Error(NO_SOURCE_REF); }
    var removed := AddRemoveCommits(ctx, FileFavor(op.src, None), op.Removing());
    RemovedIsNull(ctx, op);
    if removed.Failed? { return StopOutcome(removed.why); }
    if removed.value.commit.None? { return Error("can't delete last commit"); }
    var srcRev := repo.RefReplace(op.src.ref.value, removed.value.commit.value);
    r := Done(OpResult(Res(Some(srcRev), {}, op.commits), NO_RES));
  }

  // ----- combine -----

  /** Adds the change of `src` and its message to `dst`; `src` must not be a root, since its parent is looked at. */
  function CommitIntegrate(ctx: Ctx, dst: Commit, src: Commit): Result<Commit>
    requires src.parents != []
  {
    match ParentSetTree(ctx, Theirs, src, Some(dst))
    case Failed(why) => Failed(why)
    case Ok(tree) => Ok(WithMessage(dst, dst.meta.message + "\n" + src.meta.message).(tree := tree))
  }

  /** The commit made anew with another message: what is stored is read without the newlines in front of it. */
  function WithMessage(c: Commit, stored: string): Commit {
    var m := AsRead(stored);
    c.(meta := c.meta.(message := m), headers := "", newlines := NewlinesBefore(stored))
  }

  function NewlinesBefore(s: string): nat {
    if s != "" && s[0] == '\n' then 1 + NewlinesBefore(s[1..]) else 0
  }

  /** The text as it is read and the number of newlines in front of it are all of what is stored. */
  lemma {:induction false} NothingLost(stored: string)
    ensures stored == seq(NewlinesBefore(stored), _ => '\n') + AsRead(stored)
  {
    if stored != "" && stored[0] == '\n' {
      NothingLost(stored[1..]);
      assert stored == ['\n'] + stored[1..];
    }
  }

  /** The message as it is stored. */
  function StoredMessage(c: Commit): string {
    seq(c.newlines, _ => '\n') + c.meta.message
  }

  /** A commit that is made with a message stores that message and no other headers, and nothing else of it is new. */
  lemma MessageIsStored(c: Commit, stored: string)
    ensures var x := WithMessage(c, stored);
            && StoredMessage(x) == stored && x.headers == "" && x.tree == c.tree && x.parents == c.parents
            && x.meta.author == c.meta.author && x.meta.committer == c.meta.committer
            && x.meta.encoding == c.meta.encoding
  {
    NothingLost(stored);
  }

  predicate NoRoots(s: seq<Commit>) {
    forall i :: 0 <= i < |s| ==> s[i].parents != []
  }

  function IntegrateAll(ctx: Ctx, dst: Commit, integrate: seq<Commit>): Result<Commit>
    requires NoRoots(integrate)
  {
    if integrate == [] then Ok(dst) else
      match IntegrateAll(ctx, dst, integrate[..|integrate| - 1])
      case Failed(why) => Failed(why)
      case Ok(c) => CommitIntegrate(ctx, c, integrate[|integrate| - 1])
  }

  /** Above the bottom of a chain there is no root. */
  lemma NoRootsAbove(c: Commit, k: nat, s: set<Commit>)
    requires 0 < k <= |Chain(c)|
    ensures NoRoots(Select(Chain(c)[k..], s))
  {
    hide Select, Without, Chain;
    var h := Chain(c);
    var integrate := Select(h[k..], s);
    SelectElements(h[k..], s);
    forall i | 0 <= i < |integrate| ensures integrate[i].parents != [] {
      assert integrate[i] in h[k..];
      var j :| 0 <= j < |h| - k && h[k..][j] == integrate[i];
      HistoryParent(Some(c), k + j);
    }
  }

  /** The commit that the selected ones are combined into. */
  function Integrated(ctx: Ctx, c: Commit, commits: set<Commit>): Result<Commit>
    requires CountBefore(Chain(c), commits) < |Chain(c)|
  {
    var lo := CountBefore(Chain(c), commits);
    NoRootsAbove(c, lo + 1, commits);
    IntegrateAll(ctx, Chain(c)[lo], Select(Chain(c)[lo + 1..], commits))
  }

  /** The commits that are attached on top of the combined one. */
  function Attached(c: Commit, commits: set<Commit>): seq<Commit>
    requires CountBefore(Chain(c), commits) < |Chain(c)|
  {
    Without(Chain(c)[CountBefore(Chain(c), commits) + 1..], commits)
  }

  predicate HasMerge(commits: set<Commit>) {
    exists c | c in commits :: c.IsMerge()
  }

  ghost predicate CombineSpec(ctx: Ctx, op: Op, before: Refs, after: Refs, r: Outcome)
    requires op.kind == Combine && op.Valid()
  {
    var h := Chain(op.src.commit);
    if op.src.ref.None? then r == Error(NO_SOURCE_REF) && after == before
    else if |op.commits| < 2 then r == Error("at least 2 commits are required to combine") && after == before
    else if HasMerge(op.commits) then r == Error("can't combine with merge commit") && after == before
    else if !(op.commits <= Elements(h)) then r == Error("ran out of commits") && after == before
    else
      CountBefore(h, op.commits) < |h|
      && match Integrated(ctx, op.src.commit, op.commits)
         case Failed(why) => r == StopOutcome(why) && after == before
         case Ok(integrated) =>
           match Replay(ctx, Theirs, Some(integrated), Attached(op.src.commit, op.commits))
           case Failed(why) => r == StopOutcome(why) && after == before
           case Ok(images) =>
             var rev := Rev(TopOr(Some(integrated), images).value, op.src.ref);
             && after == before[rev.ref.value := rev.commit]
             && r == Done(OpResult(Res(Some(rev), {integrated}, op.commits), NO_RES))
  }

  /** What the walk of a combination has collected at position `k`: the selected commits that are still to be found. */
  function Missing(h: seq<Commit>, k: nat, commits: set<Commit>): set<Commit>
    requires k <= |h|
  {
    commits - Elements(h[k..])
  }

  lemma MissingStep(c: Commit, k: nat, commits: set<Commit>)
    requires 0 < k <= |Chain(c)|
    ensures var h := Chain(c);
            && Missing(h, k - 1, commits) == Missing(h, k, commits) - {h[k - 1]}
            && (h[k - 1] in Missing(h, k, commits) <==> h[k - 1] in commits)
            && Top(h[..k]) == Some(h[k - 1]) && h[k - 1].Parent() == Top(h[..k - 1])
            && if h[k - 1] in commits then
                 && Select(h[k - 1..], commits) == [h[k - 1]] + Select(h[k..], commits)
                 && Without(h[k - 1..], commits) == Without(h[k..], commits)
               else
                 && Select(h[k - 1..], commits) == Select(h[k..], commits)
                 && Without(h[k - 1..], commits) == [h[k - 1]] + Without(h[k..], commits)
  {
    hide Select, Without, Chain, Elements, Missing, Distinct;
    var h := Chain(c);
    WalkStep(Some(c), k, commits);
    HistoryDistinct(Some(c));
    SelectStep(h, k, |h|, commits);
    ToTheEnd(h, k - 1);
    ToTheEnd(h, k);
    MissingOne(h, k, commits);
  }

  lemma ToTheEnd(h: seq<Commit>, k: nat)
    requires k <= |h|
    ensures h[k..|h|] == h[k..]
  {
  }

  /** In a list without repetitions, one step further down there is one element less to be found. */
  lemma MissingOne(h: seq<Commit>, k: nat, commits: set<Commit>)
    requires Distinct(h) && 0 < k <= |h|
    ensures Missing(h, k - 1, commits) == Missing(h, k, commits) - {h[k - 1]}
    ensures h[k - 1] in Missing(h, k, commits) <==> h[k - 1] in commits
  {
    assert h[k - 1..] == [h[k - 1]] + h[k..];
    assert h[k - 1] !in h[k..];
  }

  lemma MissingNothing(c: Commit, k: nat, commits: set<Commit>)
    requires 0 < k <= |Chain(c)| && Missing(Chain(c), k, commits) != {} && Missing(Chain(c), k - 1, commits) == {}
    ensures commits <= Elements(Chain(c)) && CountBefore(Chain(c), commits) == k - 1
  {
    var h := Chain(c);
    MissingStep(c, k, commits);
    HistoryDistinct(Some(c));
    assert h[k - 1] in commits;
    forall x | x in commits ensures x in h {
      assert x !in Missing(h, k - 1, commits);
      assert x in h[k - 1..];
    }
    forall i | 0 <= i < k - 1 ensures h[i] !in commits {
      assert h[i] !in Missing(h, k - 1, commits);
      assert h[i] !in h[k - 1..];
    }
  }

  /** Finds the lowest selected commit, collecting the selected and the other commits above it. */
  method CollectCombine(c: Commit, commits: set<Commit>)
    returns (found: bool, head: Option<Commit>, integrate: seq<Commit>, attach: seq<Commit>)
    requires commits != {}
    ensures found <==> commits <= Elements(Chain(c))
    ensures found ==>
              var lo := CountBefore(Chain(c), commits);
              && lo < |Chain(c)| && head == Some(Chain(c)[lo])
              && integrate == Select(Chain(c)[lo + 1..], commits) && attach == Attached(c, commits)
  {
    hide Select, Without;
    var rem := commits;
    head, integrate, attach := Some(c), [], [];
    ghost var h := Chain(c);
    ghost var k: nat := |h|;
    CombineStart(c, commits);
    while true
      invariant k <= |h| && head == Top(h[..k])
      invariant rem == Missing(h, k, commits) && rem != {}
      invariant integrate == Select(h[k..], commits) && attach == Without(h[k..], commits)
      decreases k
    {
      if head.None? {
        MissingAtBottom(c, commits);
        return false, head, integrate, attach;
      }
      MissingStep(c, k, commits);
      var erased := head.value in rem;
      rem := rem - {head.value};
      if rem == {} {
        MissingNothing(c, k, commits);
        break;
      }
      if erased { integrate := [head.value] + integrate; }
      else { attach := [head.value] + attach; }
      head := head.value.Parent();
      k := k - 1;
    }
    found := true;
  }

  lemma CombineStart(c: Commit, commits: set<Commit>)
    ensures var h := Chain(c);
            && Some(c) == Top(h[..|h|]) && Missing(h, |h|, commits) == commits
            && Select(h[|h|..], commits) == [] && Without(h[|h|..], commits) == []
  {
    var h := Chain(c);
    assert h[..|h|] == h && h[|h|..] == [];
  }

  lemma MissingAtBottom(c: Commit, commits: set<Commit>)
    ensures Missing(Chain(c), 0, commits) == {} <==> commits <= Elements(Chain(c))
  {
    assert Chain(c)[0..] == Chain(c);
    assert Missing(Chain(c), 0, commits) == commits - Elements(Chain(c));
    forall x | x in commits ensures x in Elements(Chain(c)) <==> x !in Missing(Chain(c), 0, commits) {
    }
  }

  lemma NothingIntegrated(ctx: Ctx, dst: Commit)
    ensures IntegrateAll(ctx, dst, []) == Ok(dst)
  {
  }

  lemma IntegrateStep(ctx: Ctx, dst: Commit, integrate: seq<Commit>, i: nat)
    requires i < |integrate| && NoRoots(integrate)
    ensures var c := IntegrateAll(ctx, dst, integrate[..i]);
            IntegrateAll(ctx, dst, integrate[..i + 1])
            == if c.Ok? then CommitIntegrate(ctx, c.value, integrate[i]) else c
  {
    assert integrate[..i + 1][..i] == integrate[..i];
  }

  /** Once a commit could not be integrated, nothing further is. */
  lemma {:induction false} IntegrateFailed(ctx: Ctx, dst: Commit, integrate: seq<Commit>, i: nat)
    requires i <= |integrate| && NoRoots(integrate) && IntegrateAll(ctx, dst, integrate[..i]).Failed?
    ensures IntegrateAll(ctx, dst, integrate) == IntegrateAll(ctx, dst, integrate[..i])
    decreases |integrate| - i
  {
    hide CommitIntegrate;
    if i < |integrate| {
      IntegrateStep(ctx, dst, integrate, i);
      IntegrateFailed(ctx, dst, integrate, i + 1);
    } else {
      assert integrate[..i] == integrate;
    }
  }

  lemma NothingReplayed(ctx: Ctx, head: Option<Commit>)
    ensures Replay(ctx, Theirs, head, []) == Ok([])
  {
  }

  method CombineCommits(repo: Repo, ctx: Ctx, op: Op) returns (r: Outcome)
    requires op.kind == Combine && op.Valid()
    modifies repo
    ensures CombineSpec(ctx, op, old(repo.refs), repo.refs, r)
  {
    hide Select, Without, Chain, CommitIntegrate, ParentSet, Replay, IntegrateAll, CountBefore, HasMerge;
    if op.src.ref.None? { return Error(NO_SOURCE_REF); }
    if |op.commits| < 2 { return Error("at least 2 commits are required to combine"); }
    if HasMerge(op.commits) { return Error("can't combine with merge commit"); }
    var found, head, integrate, attach := CollectCombine(op.src.commit, op.commits);
    if !found { return Error("ran out of commits"); }
    NoRootsAbove(op.src.commit, CountBefore(Chain(op.src.commit), op.commits) + 1, op.commits);
    var base := head.value;
    var integrated := base;
    NothingIntegrated(ctx, base);
    for i := 0 to |integrate|
      invariant repo.refs == old(repo.refs)
      invariant IntegrateAll(ctx, base, integrate[..i]) == Ok(integrated)
    {
      IntegrateStep(ctx, base, integrate, i);
      var c := CommitIntegrate(ctx, integrated, integrate[i]);
      if c.Failed? {
        IntegrateFailed(ctx, base, integrate, i + 1);
        return StopOutcome(c.why);
      }
      integrated := c.value;
    }
    assert integrate[..|integrate|] == integrate;
    head := Some(integrated);
    ghost var images: seq<Commit> := [];
    NothingReplayed(ctx, head);
    for i := 0 to |attach|
      invariant Replay(ctx, Theirs, Some(integrated), attach[..i]) == Ok(images)
      invariant repo.refs == old(repo.refs)
      invariant head == TopOr(Some(integrated), images) && head.Some?
    {
      ReplayStep(ctx, Theirs, Some(integrated), attach, i);
      var image := ParentSet(ctx, Theirs, attach[i], head);
      if image.Failed? {
        ReplayFailed(ctx, Theirs, Some(integrated), attach, i + 1);
        return StopOutcome(image.why);
      }
      head := Some(image.value);
      images := images + [image.value];
    }
    assert attach[..|attach|] == attach;
    var srcRev := repo.RefReplace(op.src.ref.value, head.value);
    r := Done(OpResult(Res(Some(srcRev), {integrated}, op.commits), NO_RES));
  }

  // ----- edit -----

  /** What the editor's text is made from. */
  function OriginalMessage(c: Commit): Message {
    Message(Some(CommitAuthor(c.meta.author.name, c.meta.author.email)),
            Some(CommitTime.Time(c.meta.author.time, c.meta.author.offset)), c.meta.message)
  }

  function EditorText(c: Commit): string {
    StringFromCommitMessage(OriginalMessage(c).author.value, OriginalMessage(c).time.value, c.meta.message)
  }

  /** The signature of the edited commit: what the text no longer says is taken from the original author. */
  function EditedSignature(author: Signature, m: Message): Signature {
    Signature(if m.author.Some? then m.author.value.name else author.name,
              if m.author.Some? then m.author.value.email else author.email,
              if m.time.Some? then m.time.value.time else author.time,
              if m.time.Some? then m.time.value.offset else author.offset)
  }

  /** Author and committer become the new signature, an empty message keeps the old one, and the headers are dropped. */
  function CommitAmend(c: Commit, author: Signature, message: string): Commit {
    WithMessage(c.(meta := c.meta.(author := author, committer := author)),
        if message != "" then message else c.meta.message)
  }

  function EditedCommit(c: Commit, m: Message): Commit {
    CommitAmend(c, EditedSignature(c.meta.author, m), m.message)
  }

  function Editing(c: Commit, orig: Commit, edited: Commit): Rewriting {
    Rewriting(c, {edited}, Some(edited), Some(orig), {orig})
  }

  /** The element of a singleton. */
  ghost function Lone(commits: set<Commit>): (c: Commit)
    requires |commits| == 1
    ensures commits == {c}
  {
    var c :| c in commits;
    assert |commits - {c}| == 0;
    c
  }

  ghost predicate EditSpec(ctx: Ctx, op: Op, edited: Message, before: Refs, after: Refs, r: Outcome)
    requires op.kind == Edit && op.Valid()
  {
    var orig := Lone(op.commits);
    if op.src.ref.None? then r == Error(NO_SOURCE_REF) && after == before
    else if edited == OriginalMessage(orig) then r == Nothing && after == before
    else
      var c := EditedCommit(orig, edited);
      EditingValid(op.src.commit, orig, c);
      var rewritten := AddRemove(ctx, Theirs, Editing(op.src.commit, orig, c));
      if rewritten.Failed? then r == StopOutcome(rewritten.why) && after == before
      else
        && rewritten.value.commit.Some?
        && var rev := Rev(rewritten.value.commit.value, op.src.ref);
        && after == before[rev.ref.value := rev.commit]
        && r == Done(OpResult(Res(Some(rev), rewritten.value.added, op.commits), NO_RES))
  }

  lemma EditingValid(c: Commit, orig: Commit, edited: Commit)
    requires orig in Chain(c)
    ensures Editing(c, orig, edited).Valid()
  {
    assert edited in Chain(edited);
  }

  lemma EditIsNotNull(ctx: Ctx, c: Commit, orig: Commit, edited: Commit)
    requires Editing(c, orig, edited).Valid() && AddRemove(ctx, Theirs, Editing(c, orig, edited)).Ok?
    ensures AddRemove(ctx, Theirs, Editing(c, orig, edited)).value.commit.Some?
  {
    hide AddRemove;
    var rw := Editing(c, orig, edited);
    AddRemoveResultChain(ctx, Theirs, rw);
    SelectElements(Chain(edited), {edited});
    assert edited in Chain(edited);
    assert edited in rw.Adds();
    assert edited in rw.Target();
  }

  ghost function ReadBack(op: Op, editor: string -> string): Message
    requires |op.commits| == 1
  {
    MessageFromLines(Strings.Split(editor(EditorText(Lone(op.commits)))))
  }

  /** `editor` is what the user does to the text in the editor. */
  method EditCommit(repo: Repo, ctx: Ctx, op: Op, editor: string -> string) returns (r: Outcome)
    requires op.kind == Edit && op.Valid()
    modifies repo
    ensures EditSpec(ctx, op, ReadBack(op, editor), old(repo.refs), repo.refs, r)
  {
    hide AddRemove, MessageFromLines, EditorText;
    var c :| c in op.commits;
    assert c == Lone(op.commits);
    if op.src.ref.None? { return Error(NO_SOURCE_REF); }
    var newMsg := CommitMessageFromString(editor(EditorText(c)));
    if OriginalMessage(c) == newMsg { return Nothing; }
    var newCommit := CommitAmend(c, EditedSignature(c.meta.author, newMsg), newMsg.message);
    EditingValid(op.src.commit, c, newCommit);
    var rewritten := AddRemoveCommits(ctx, FileFavor(op.src, None), Editing(op.src.commit, c, newCommit));
    if rewritten.Failed? { return StopOutcome(rewritten.why); }
    EditIsNotNull(ctx, op.src.commit, c, newCommit);
    var srcRev := repo.RefReplace(op.src.ref.value, rewritten.value.commit.value);
    r := Done(OpResult(Res(Some(srcRev), rewritten.value.added, op.commits), NO_RES));
  }

  // ----- all operations -----

  ghost predicate ExecSpec(ctx: Ctx, op: Op, editor: string -> string, before: Refs, after: Refs, r: Outcome)
    requires op.Valid()
  {
    match op.kind
    case NoOp => r == Nothing && after == before
    case Move => MoveSpec(ctx, op, before, after, r)
    case Copy => CopySpec(ctx, op, before, after, r)
    case Delete => DeleteSpec(ctx, op, before, after, r)
    case Combine => CombineSpec(ctx, op, before, after, r)
    case Edit => EditSpec(ctx, op, ReadBack(op, editor), before, after, r)
  }

  method Exec(repo: Repo, ctx: Ctx, op: Op, editor: string -> string) returns (r: Outcome)
    requires op.Valid()
    modifies repo
    ensures ExecSpec(ctx, op, editor, old(repo.refs), repo.refs, r)
  {
    hide MoveSpec, CopySpec, DeleteSpec, CombineSpec, EditSpec, ReadBack;
    match op.kind {
      case NoOp => r := Nothing;
      case Move => r := MoveCommits(repo, ctx, op);
      case Copy => r := CopyCommits(repo, ctx, op);
      case Delete => r := DeleteCommits(repo, ctx, op);
      case Combine => r := CombineCommits(repo, ctx, op);
      case Edit => r := EditCommit(repo, ctx, op, editor);
    }
  }
}
