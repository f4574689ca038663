/** Commits as values, the first-parent chain, and the three-way merge that replays a commit. */
module Commits {
  import opened Wrappers

  type Path = string
  type Blob = string
  type Tree = map<Path, Blob>

  datatype Signature = Signature(name: string, email: string, time: int, offset: int)

  /** A commit message as it is read: the newlines in front of it are left away. */
  type MessageText = s: string | s == "" || s[0] != '\n'

  function AsRead(stored: string): MessageText {
    if stored != "" && stored[0] == '\n' then AsRead(stored[1..]) else stored
  }

  datatype Meta = Meta(author: Signature, committer: Signature, encoding: string, message: MessageText)

  /** A git id is a hash of the content, so two commits are the same commit exactly when they are equal. `headers` is
      what else the object says, such as a signature, and `newlines` how many of them stand in front of the message. */
  datatype Commit = Commit(meta: Meta, tree: Tree, parents: seq<Commit>, headers: string, newlines: nat) {
    predicate IsMerge() {
      |parents| > 1
    }

    function Parent(): Option<Commit> {
      if parents == [] then None else Some(parents[0])
    }
  }

  /** The first-parent chain that ends in `c`, oldest commit first. */
  function Chain(c: Commit): seq<Commit> {
    if c.parents == [] then [c] else Chain(c.parents[0]) + [c]
  }

  /** The same for a commit that may be null: the null commit has an empty chain. */
  function History(head: Option<Commit>): seq<Commit> {
    if head.Some? then Chain(head.value) else []
  }

  function Elements<T>(s: seq<T>): set<T> {
    set x | x in s
  }

  ghost predicate Distinct<T(!new)>(s: seq<T>) {
    forall i, j :: 0 <= i < j < |s| ==> s[i] != s[j]
  }

  /** The commit on top of a chain. */
  function Top(h: seq<Commit>): Option<Commit> {
    if h == [] then None else Some(h[|h| - 1])
  }

  /** Every prefix of a chain is the chain of its own top: the chain position of a commit is the length of
      its history. */
  lemma {:induction false} HistoryPrefix(head: Option<Commit>, k: nat)
    requires k <= |History(head)|
    ensures History(Top(History(head)[..k])) == History(head)[..k]
    decreases if head.Some? then |Chain(head.value)| else 0
  {
    var h := History(head);
    if k < |h| && head.value.parents != [] {
      HistoryPrefix(Some(head.value.parents[0]), k);
      assert h[..k] == History(Some(head.value.parents[0]))[..k];
    } else if k == |h| {
      assert h[..k] == h;
    }
  }

  /** A chain never repeats a commit. */
  lemma {:induction false} HistoryDistinct(head: Option<Commit>)
    ensures Distinct(History(head))
  {
    var h := History(head);
    forall i, j | 0 <= i < j < |h| ensures h[i] != h[j] {
      HistoryPrefix(head, i + 1);
      HistoryPrefix(head, j + 1);
    }
  }

  /** Walking to the parent drops the top of the chain. */
  lemma HistoryParent(head: Option<Commit>, k: nat)
    requires k < |History(head)|
    ensures History(head)[k].Parent() == Top(History(head)[..k])
  {
    HistoryPrefix(head, k + 1);
    var c := History(head)[k];
    assert Top(History(head)[..k + 1]) == Some(c);
    if c.parents != [] {
      assert History(head)[..k] == History(Some(c.parents[0]));
    }
  }

  // ----- three-way merge -----

  function At(t: Tree, p: Path): Option<Blob> {
    if p in t then Some(t[p]) else None
  }

  /** Why a commit cannot be made: the user cancels, or there is a conflict of a kind that is not supported. */
  datatype Stop = Canceled | Unsupported

  datatype Result<+T> = Ok(value: T) | Failed(why: Stop)

  /** What becomes of one conflicted path: its content (None for "no such file"), or the whole operation stops. */
  datatype Answer = Content(blob: Option<Blob>) | Stopped(why: Stop)

  datatype Favor = Theirs | Normal

  /** What the model does not compute: which conflicts are not supported, how file contents are merged when the `theirs`
      side is favored, and what the user answers for a conflicted path when `commit` is placed on top of `head`, where
      None cancels the operation. Every result below is for all of them. */
  datatype Ctx = Ctx(
    unsupported: (Option<Blob>, Option<Blob>, Option<Blob>) -> bool,
    contentMerge: (Option<Blob>, Option<Blob>, Option<Blob>) -> Option<Blob>,
    user: (Commit, Option<Commit>, Path) -> Option<Option<Blob>>)

  function MergePath(base: Option<Blob>, ours: Option<Blob>, theirs: Option<Blob>, answer: Answer): Answer {
    if ours == base then Content(theirs)
    else if theirs == base || ours == theirs then Content(ours)
    else answer
  }

  function MergeAt(base: Tree, ours: Tree, theirs: Tree, resolve: Path -> Answer, p: Path): Answer {
    MergePath(At(base, p), At(ours, p), At(theirs, p), resolve(p))
  }

  /** The merged tree. All conflicts are looked at before the user is asked, so one that is not supported comes
      first. */
  function MergeTrees(base: Tree, ours: Tree, theirs: Tree, resolve: Path -> Answer): (r: Result<Tree>)
    ensures r.Ok? ==> forall p :: MergeAt(base, ours, theirs, resolve, p) == Content(At(r.value, p))
    ensures r.Failed? ==> exists p :: MergeAt(base, ours, theirs, resolve, p) == Stopped(r.why)
    ensures r == Failed(Canceled) ==> forall p :: MergeAt(base, ours, theirs, resolve, p) != Stopped(Unsupported)
  {
    var paths := base.Keys + ours.Keys + theirs.Keys;
    if exists p | p in paths :: MergeAt(base, ours, theirs, resolve, p) == Stopped(Unsupported) then Failed(Unsupported)
    else if exists p | p in paths :: MergeAt(base, ours, theirs, resolve, p).Stopped? then
      assert forall p | p in paths && MergeAt(base, ours, theirs, resolve, p).Stopped? ::
               MergeAt(base, ours, theirs, resolve, p).why == Canceled;
      Failed(Canceled)
    else
      Ok(map p | p in paths && MergeAt(base, ours, theirs, resolve, p).blob.Some?
             :: MergeAt(base, ours, theirs, resolve, p).blob.value)
  }

  /** Merging a side whose base is what we already have takes the other side, whatever the resolver says. */
  lemma MergeUnchanged(base: Tree, theirs: Tree, resolve: Path -> Answer)
    ensures MergeTrees(base, base, theirs, resolve) == Ok(theirs)
  {
    var r := MergeTrees(base, base, theirs, resolve);
    assert forall p :: MergeAt(base, base, theirs, resolve, p) == Content(At(theirs, p));
    TreeExtensional(r.value, theirs);
  }

  lemma TreeExtensional(a: Tree, b: Tree)
    requires forall p :: At(a, p) == At(b, p)
    ensures a == b
  {
    forall p ensures p in a <==> p in b { assert At(a, p) == At(b, p); }
    forall p | p in a ensures a[p] == b[p] { assert At(a, p) == At(b, p); }
  }

  // ----- replaying one commit -----

  function TreeOf(c: Option<Commit>): Tree {
    if c.Some? then c.value.tree else map[]
  }

  function Resolver(ctx: Ctx, favor: Favor, commit: Commit, head: Option<Commit>): Path -> Answer {
    var base := TreeOf(commit.Parent());
    var ours := TreeOf(head);
    (p: Path) =>
      if ctx.unsupported(At(base, p), At(ours, p), At(commit.tree, p)) then Stopped(Unsupported)
      else if favor.Theirs? then Content(ctx.contentMerge(At(base, p), At(ours, p), At(commit.tree, p)))
      else match ctx.user(commit, head, p)
        case None => Stopped(Canceled)
        case Some(blob) => Content(blob)
  }

  /** The tree of `commit` placed on top of `head`: the change it made to its first parent, applied to `head`. */
  function ParentSetTree(ctx: Ctx, favor: Favor, commit: Commit, head: Option<Commit>): Result<Tree> {
    MergeTrees(TreeOf(commit.Parent()), TreeOf(head), commit.tree, Resolver(ctx, favor, commit, head))
  }

  /** Only the first parent is replaced; with a null `head` it is erased. */
  function NewParents(parents: seq<Commit>, head: Option<Commit>): seq<Commit> {
    (if head.Some? then [head.value] else []) + (if parents == [] then [] else parents[1..])
  }

  /** The commit with its first parent replaced: it is made anew, without the headers. */
  function ParentSet(ctx: Ctx, favor: Favor, commit: Commit, head: Option<Commit>): Result<Commit> {
    match ParentSetTree(ctx, favor, commit, head)
    case Failed(why) => Failed(why)
    case Ok(tree) => Ok(Commit(commit.meta, tree, NewParents(commit.parents, head), "", 0))
  }

  /** The images of `todo` replayed one by one on top of `head`. */
  function Replay(ctx: Ctx, favor: Favor, head: Option<Commit>, todo: seq<Commit>): (r: Result<seq<Commit>>)
    ensures r.Ok? ==> |r.value| == |todo|
  {
    if todo == [] then Ok([]) else
      var n := |todo| - 1;
      match Replay(ctx, favor, head, todo[..n])
      case Failed(why) => Failed(why)
      case Ok(images) =>
        match ParentSet(ctx, favor, todo[n], TopOr(head, images))
        case Failed(why) => Failed(why)
        case Ok(c) => Ok(images + [c])
  }

  function TopOr(head: Option<Commit>, images: seq<Commit>): Option<Commit> {
    if images == [] then head else Top(images)
  }

  /** Replaying is never canceled when the `theirs` side is favored, and fails only at a conflict that is not
      supported. */
  lemma {:induction false} ReplayTheirs(ctx: Ctx, head: Option<Commit>, todo: seq<Commit>)
    ensures Replay(ctx, Theirs, head, todo).Ok? || Replay(ctx, Theirs, head, todo) == Failed(Unsupported)
    ensures (forall a, b, c :: !ctx.unsupported(a, b, c)) ==> Replay(ctx, Theirs, head, todo).Ok?
  {
    if todo != [] {
      ReplayTheirs(ctx, head, todo[..|todo| - 1]);
    }
  }

  /** Image `i` is commit `i` of `todo` set on top of image `i - 1`. */
  lemma {:induction false} ReplayImage(ctx: Ctx, favor: Favor, head: Option<Commit>, todo: seq<Commit>, i: nat)
    requires Replay(ctx, favor, head, todo).Ok? && i < |todo|
    ensures var images := Replay(ctx, favor, head, todo).value;
            && ParentSet(ctx, favor, todo[i], TopOr(head, images[..i])) == Ok(images[i])
            && images[i].meta == todo[i].meta && images[i].headers == "" && images[i].newlines == 0
  {
    var n := |todo| - 1;
    var images := Replay(ctx, favor, head, todo).value;
    var before := Replay(ctx, favor, head, todo[..n]).value;
    if i < n {
      ReplayImage(ctx, favor, head, todo[..n], i);
      assert images[..i] == before[..i];
    } else {
      assert images[..i] == before;
    }
  }

  predicate MakesMergeRoot(head: Option<Commit>, todo: seq<Commit>) {
    head.None? && todo != [] && todo[0].IsMerge()
  }

  /** A replayed commit sits on the chain of the head it was set on top of, unless it is a merge set on top of nothing:
      a merge loses only its first parent, so its second one becomes the first and drags its own chain in. */
  lemma ParentSetHistory(ctx: Ctx, favor: Favor, commit: Commit, head: Option<Commit>)
    requires ParentSet(ctx, favor, commit, head).Ok?
    ensures var c := ParentSet(ctx, favor, commit, head).value;
            !(head.None? && commit.IsMerge()) <==> Chain(c) == History(head) + [c]
  {
    var c := ParentSet(ctx, favor, commit, head).value;
    assert c.parents == NewParents(commit.parents, head);
    if head.Some? {
      assert c.parents[0] == head.value;
    } else if commit.IsMerge() {
      assert c.parents == commit.parents[1..];
      assert |Chain(c.parents[0])| > 0;
      assert |Chain(c)| > 1;
    } else {
      assert c.parents == [];
      assert Chain(c) == [c];
    }
  }

  /** The chain of the replayed head is the old chain below it followed by exactly the images, if and only if no merge
      commit is made the root. */
  lemma {:induction false} ReplayHistory(ctx: Ctx, favor: Favor, head: Option<Commit>, todo: seq<Commit>)
    requires Replay(ctx, favor, head, todo).Ok?
    ensures var images := Replay(ctx, favor, head, todo).value;
            !MakesMergeRoot(head, todo) <==> History(TopOr(head, images)) == History(head) + images
  {
    if todo == [] {
      assert History(head) + [] == History(head);
      return;
    }
    var n := |todo| - 1;
    var before := Replay(ctx, favor, head, todo[..n]).value;
    var images := Replay(ctx, favor, head, todo).value;
    var c := images[n];
    var top := TopOr(head, before);
    ReplayHistory(ctx, favor, head, todo[..n]);
    ParentSetHistory(ctx, favor, todo[n], top);
    assert images == before + [c];
    assert History(head) + images == (History(head) + before) + [c];
    if n == 0 {
      assert before == [] && top == head;
      assert MakesMergeRoot(head, todo) <==> head.None? && todo[n].IsMerge();
    } else {
      assert top.Some?;
      assert todo[..n][0] == todo[0];
      assert MakesMergeRoot(head, todo) <==> MakesMergeRoot(head, todo[..n]);
      assert History(Some(c)) == History(top) + [c];
      if History(Some(c)) == (History(head) + before) + [c] {
        assert History(top) == (History(top) + [c])[..|History(top)|];
        assert History(head) + before == ((History(head) + before) + [c])[..|History(head) + before|];
      }
    }
  }

  /** A commit whose new parent has the tree its old parent had keeps its tree. */
  lemma ParentSetSameBase(ctx: Ctx, favor: Favor, commit: Commit, head: Option<Commit>)
    requires TreeOf(head) == TreeOf(commit.Parent())
    ensures ParentSet(ctx, favor, commit, head)
            == Ok(Commit(commit.meta, commit.tree, NewParents(commit.parents, head), "", 0))
  {
    MergeUnchanged(TreeOf(head), commit.tree, Resolver(ctx, favor, commit, head));
  }

  /** Setting a commit on top of the parent it already has drops the headers and the newlines in front of the message,
      so it gives the very same commit exactly when there are none: a signed commit becomes another one. */
  lemma ParentSetSame(ctx: Ctx, favor: Favor, commit: Commit)
    ensures ParentSet(ctx, favor, commit, commit.Parent()) == Ok(commit.(headers := "", newlines := 0))
    ensures ParentSet(ctx, favor, commit, commit.Parent()) == Ok(commit)
            <==> commit.headers == "" && commit.newlines == 0
  {
    ParentSetSameBase(ctx, favor, commit, commit.Parent());
    if commit.parents != [] {
      assert NewParents(commit.parents, commit.Parent()) == commit.parents;
    }
  }
}
