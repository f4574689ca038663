/** Replaying commits that change different files: the order in which they are replayed does not matter. */
module Independence {
  import opened Wrappers
  import opened Commits
  import opened Selections
  import opened Rewrite
  import opened Operations
  import opened OperationLaws
  import opened CombineEditLaws

  /** Whether a commit changes what its first parent has at a path. */
  predicate Changes(c: Commit, p: Path) {
    At(TreeOf(c.Parent()), p) != At(c.tree, p)
  }

  /** No two of the commits change the same path. */
  ghost predicate Independent(s: seq<Commit>) {
    forall i, j, p :: 0 <= i < j < |s| && Changes(s[i], p) ==> !Changes(s[j], p)
  }

  /** `tree` is `base` with the changes of exactly the commits in `s` laid over it. */
  ghost predicate Overlay(base: Tree, s: seq<Commit>, tree: Tree) {
    && (forall i, p :: 0 <= i < |s| && Changes(s[i], p) ==> At(tree, p) == At(s[i].tree, p))
    && (forall p :: (forall i :: 0 <= i < |s| ==> !Changes(s[i], p)) ==> At(tree, p) == At(base, p))
  }

  /** Every commit of `s` was made on a tree that has, at the paths it changes, what `base` has. */
  ghost predicate MadeOn(base: Tree, s: seq<Commit>) {
    forall i, p :: 0 <= i < |s| && Changes(s[i], p) ==> At(TreeOf(s[i].Parent()), p) == At(base, p)
  }

  /** Replaying independent commits lays their changes over the tree they are replayed on, without a conflict. */
  lemma {:induction false} ReplayOverlays(ctx: Ctx, favor: Favor, head: Option<Commit>, todo: seq<Commit>)
    requires Independent(todo) && MadeOn(TreeOf(head), todo)
    ensures Replay(ctx, favor, head, todo).Ok?
    ensures Overlay(TreeOf(head), todo, TreeOf(TopOr(head, Replay(ctx, favor, head, todo).value)))
  {
    if todo != [] {
      var n := |todo| - 1;
      var front, last := todo[..n], todo[n];
      assert Independent(front) && MadeOn(TreeOf(head), front);
      ReplayOverlays(ctx, favor, head, front);
      var top := TopOr(head, Replay(ctx, favor, head, front).value);
      assert forall p :: Changes(last, p) ==> At(TreeOf(top), p) == At(TreeOf(last.Parent()), p) by {
        forall p | Changes(last, p) ensures At(TreeOf(top), p) == At(TreeOf(last.Parent()), p) {
          assert At(TreeOf(last.Parent()), p) == At(TreeOf(head), p);
          forall i | 0 <= i < n ensures !Changes(front[i], p) { assert front[i] == todo[i]; }
        }
      }
      CleanPick(ctx, favor, last, top);
      var image := ParentSet(ctx, favor, last, top).value;
      OverlayStep(TreeOf(head), todo, TreeOf(top), image.tree);
    }
  }

  /** A commit whose changed paths are as its parent left them is picked without a conflict. */
  lemma CleanPick(ctx: Ctx, favor: Favor, c: Commit, head: Option<Commit>)
    requires forall p :: Changes(c, p) ==> At(TreeOf(head), p) == At(TreeOf(c.Parent()), p)
    ensures ParentSet(ctx, favor, c, head).Ok?
    ensures forall p ::
              At(ParentSet(ctx, favor, c, head).value.tree, p)
              == if Changes(c, p) then At(c.tree, p) else At(TreeOf(head), p)
  {
    var base, ours, resolve := TreeOf(c.Parent()), TreeOf(head), Resolver(ctx, favor, c, head);
    forall p
      ensures MergeAt(base, ours, c.tree, resolve, p) == Content(if Changes(c, p) then At(c.tree, p) else At(ours, p))
    {
    }
    assert MergeTrees(base, ours, c.tree, resolve).Ok?;
  }

  lemma OverlayStep(base: Tree, todo: seq<Commit>, tree: Tree, tree': Tree)
    requires todo != [] && Independent(todo) && Overlay(base, todo[..|todo| - 1], tree)
    requires forall p ::
               At(tree', p) == if Changes(todo[|todo| - 1], p) then At(todo[|todo| - 1].tree, p) else At(tree, p)
    ensures Overlay(base, todo, tree')
  {
    var n := |todo| - 1;
    var front := todo[..n];
    forall i, p | 0 <= i < |todo| && Changes(todo[i], p) ensures At(tree', p) == At(todo[i].tree, p) {
      if i < n {
        assert front[i] == todo[i];
      }
    }
    forall p | forall i :: 0 <= i < |todo| ==> !Changes(todo[i], p) ensures At(tree', p) == At(base, p) {
      forall i | 0 <= i < n ensures !Changes(front[i], p) { assert front[i] == todo[i]; }
    }
  }

  /** An overlay depends only on which commits are laid over the base, not on their order. */
  lemma OverlayUnique(base: Tree, s: seq<Commit>, s': seq<Commit>, tree: Tree, tree': Tree)
    requires forall c :: c in s <==> c in s'
    requires Overlay(base, s, tree) && Overlay(base, s', tree')
    ensures tree == tree'
  {
    forall p ensures At(tree, p) == At(tree', p) {
      if i :| 0 <= i < |s| && Changes(s[i], p) {
        assert s[i] in s';
        var j :| 0 <= j < |s'| && s'[j] == s[i];
        assert Changes(s'[j], p);
      } else {
        forall j | 0 <= j < |s'| ensures !Changes(s'[j], p) {
          assert s'[j] in s;
        }
      }
    }
    TreeExtensional(tree, tree');
  }

  // ----- a stretch of a branch -----

  lemma IndependentPart(s: seq<Commit>, n: nat)
    requires n <= |s| && Independent(s)
    ensures Independent(s[..n])
  {
    forall i, j, p | 0 <= i < j < n && Changes(s[..n][i], p) ensures !Changes(s[..n][j], p) {
      assert s[..n][i] == s[i] && s[..n][j] == s[j];
    }
  }

  /** What an independent commit on top of others changes is as the base has it. */
  lemma UnchangedBelow(base: Tree, s: seq<Commit>, tree: Tree)
    requires s != [] && Independent(s) && Overlay(base, s[..|s| - 1], tree)
    ensures forall p :: Changes(s[|s| - 1], p) ==> At(tree, p) == At(base, p)
  {
    var n := |s| - 1;
    forall p | Changes(s[n], p) ensures At(tree, p) == At(base, p) {
      forall i | 0 <= i < n ensures !Changes(s[..n][i], p) { assert s[..n][i] == s[i]; }
    }
  }

  lemma MadeOnStep(base: Tree, s: seq<Commit>)
    requires s != [] && MadeOn(base, s[..|s| - 1])
    requires forall p :: Changes(s[|s| - 1], p) ==> At(TreeOf(s[|s| - 1].Parent()), p) == At(base, p)
    ensures MadeOn(base, s)
  {
    var n := |s| - 1;
    forall i, p | 0 <= i < |s| && Changes(s[i], p) ensures At(TreeOf(s[i].Parent()), p) == At(base, p) {
      if i < n {
        assert s[..n][i] == s[i];
      }
    }
  }

  lemma SlicePrefix<T>(h: seq<T>, lo: nat, hi: nat)
    requires lo < hi <= |h|
    ensures h[lo..hi][..hi - lo - 1] == h[lo..hi - 1] && h[lo..hi][hi - lo - 1] == h[hi - 1]
  {
  }

  /** Along a stretch of a branch of independent commits, each was made on what the base has at the paths it changes,
      and the top of the stretch is the base overlaid with all of them. */
  lemma {:induction false} StretchOverlays(c: Commit, lo: nat, hi: nat)
    requires lo <= hi <= |Chain(c)| && Independent(Chain(c)[lo..hi])
    ensures MadeOn(TreeOf(Top(Chain(c)[..lo])), Chain(c)[lo..hi])
    ensures Overlay(TreeOf(Top(Chain(c)[..lo])), Chain(c)[lo..hi], TreeOf(Top(Chain(c)[..hi])))
    decreases hi
  {
    hide Chain, Independent, MadeOn, Overlay, Changes;
    var h := Chain(c);
    var base, s := TreeOf(Top(h[..lo])), h[lo..hi];
    if lo == hi {
      assert s == [];
      NothingOverlaid(base);
    } else {
      SlicePrefix(h, lo, hi);
      IndependentPart(s, |s| - 1);
      StretchOverlays(c, lo, hi - 1);
      HistoryParent(Some(c), hi - 1);
      assert s[|s| - 1] == h[hi - 1] && Top(h[..hi]) == Some(h[hi - 1]);
      StretchStep(base, s, h[hi - 1].Parent());
    }
  }

  lemma NothingOverlaid(base: Tree)
    ensures MadeOn(base, []) && Overlay(base, [], base)
  {
  }

  /** One more commit on top of a stretch. */
  lemma StretchStep(base: Tree, s: seq<Commit>, below: Option<Commit>)
    requires s != [] && Independent(s) && s[|s| - 1].Parent() == below
    requires MadeOn(base, s[..|s| - 1]) && Overlay(base, s[..|s| - 1], TreeOf(below))
    ensures MadeOn(base, s) && Overlay(base, s, s[|s| - 1].tree)
  {
    hide Independent, MadeOn, Overlay, Changes;
    UnchangedBelow(base, s, TreeOf(below));
    MadeOnStep(base, s);
    TopStep(s[|s| - 1], TreeOf(below));
    OverlayStep(base, s, TreeOf(below), s[|s| - 1].tree);
  }

  lemma TopStep(c: Commit, tree: Tree)
    requires tree == TreeOf(c.Parent())
    ensures forall p :: At(c.tree, p) == if Changes(c, p) then At(c.tree, p) else At(tree, p)
  {
  }

  // ----- parts of a list -----

  lemma {:induction false} DistinctCount<T(!new)>(s: seq<T>)
    requires Distinct(s)
    ensures forall x :: multiset(s)[x] <= 1
  {
    if s != [] {
      var front, last := s[..|s| - 1], s[|s| - 1];
      DistinctCount(front);
      assert s == front + [last];
      assert last !in front;
      assert multiset(s) == multiset(front) + multiset{last};
    }
  }

  /** A list made of some of the elements of a repetition-free one, in any order, is free of repetitions. */
  lemma PartDistinct<T(!new)>(s: seq<T>, part: seq<T>)
    requires Distinct(s) && multiset(part) <= multiset(s)
    ensures Distinct(part) && forall x :: x in part ==> x in s
  {
    DistinctCount(s);
    forall i, j | 0 <= i < j < |part| ensures part[i] != part[j] {
      var a, b := part[..j], part[j..];
      assert part == a + b;
      assert a[i] == part[i] && b[0] == part[j];
      assert multiset(part) == multiset(a) + multiset(b);
      assert part[i] in multiset(a) && part[j] in multiset(b);
      assert multiset(s)[part[i]] <= 1;
    }
    forall x | x in part ensures x in s {
      assert x in multiset(part);
    }
  }

  lemma IndependentSome(s: seq<Commit>, part: seq<Commit>)
    requires Distinct(s) && Independent(s) && multiset(part) <= multiset(s)
    ensures Independent(part)
  {
    PartDistinct(s, part);
    forall i, j, p | 0 <= i < j < |part| && Changes(part[i], p) ensures !Changes(part[j], p) {
      assert part[i] in s && part[j] in s;
      var a :| 0 <= a < |s| && s[a] == part[i];
      var b :| 0 <= b < |s| && s[b] == part[j];
      assert a != b;
    }
  }

  lemma MadeOnSome(base: Tree, s: seq<Commit>, part: seq<Commit>)
    requires MadeOn(base, s) && forall c :: c in part ==> c in s
    ensures MadeOn(base, part)
  {
    forall i, p | 0 <= i < |part| && Changes(part[i], p) ensures At(TreeOf(part[i].Parent()), p) == At(base, p) {
      assert part[i] in s;
    }
  }

  // ----- rewriting a branch of independent commits -----

  /** Replaying some of the commits of an independent list, in any order, overlays exactly their changes. */
  lemma SomeOverlay(ctx: Ctx, favor: Favor, head: Option<Commit>, range: seq<Commit>, part: seq<Commit>)
    requires Distinct(range) && Independent(range) && MadeOn(TreeOf(head), range) && multiset(part) <= multiset(range)
    ensures Replay(ctx, favor, head, part).Ok?
    ensures Overlay(TreeOf(head), part, TreeOf(TopOr(head, Replay(ctx, favor, head, part).value)))
  {
    hide Independent, MadeOn, Overlay, Replay, Distinct;
    IndependentSome(range, part);
    PartDistinct(range, part);
    MadeOnSome(TreeOf(head), range, part);
    ReplayOverlays(ctx, favor, head, part);
  }

  /** A stretch at the top of a branch of independent commits. */
  lemma TopStretch(c: Commit, lo: nat)
    requires lo <= |Chain(c)| && Independent(Chain(c)[lo..])
    ensures var range := Chain(c)[lo..];
            && Distinct(range) && MadeOn(TreeOf(Top(Chain(c)[..lo])), range)
            && Overlay(TreeOf(Top(Chain(c)[..lo])), range, c.tree)
  {
    hide Chain, Independent, MadeOn, Overlay, Distinct;
    var h := Chain(c);
    assert h[lo..|h|] == h[lo..] && h[..|h|] == h;
    HistoryDistinct(Some(c));
    StretchDistinct(h, lo);
    StretchOverlays(c, lo, |h|);
    TopOfChain(c);
  }

  /** Rewriting a branch with some of its own commits, in any order: the new tree is the base overlaid with
      exactly them. */
  lemma RewriteOverlays(ctx: Ctx, favor: Favor, rw: Rewriting)
    requires rw.Valid() && Independent(Chain(rw.dst)[rw.Keep()..])
    requires multiset(rw.Todo()) <= multiset(Chain(rw.dst)[rw.Keep()..])
    ensures AddRemove(ctx, favor, rw).Ok?
    ensures Overlay(TreeOf(rw.Base()), rw.Todo(), TreeOf(AddRemove(ctx, favor, rw).value.commit))
  {
    hide AddRemove, Chain, Independent, MadeOn, Overlay, Replay, Distinct, Select, Without, Splice, CountBefore;
    TopStretch(rw.dst, rw.Keep());
    SomeOverlay(ctx, favor, rw.Base(), Chain(rw.dst)[rw.Keep()..], rw.Todo());
    ReplayedCommit(ctx, favor, rw);
  }

  lemma ReplayedCommit(ctx: Ctx, favor: Favor, rw: Rewriting)
    requires rw.Valid() && Replay(ctx, favor, rw.Base(), rw.Todo()).Ok?
    ensures AddRemove(ctx, favor, rw).Ok?
    ensures AddRemove(ctx, favor, rw).value.commit
            == TopOr(rw.Base(), Replay(ctx, favor, rw.Base(), rw.Todo()).value)
  {
    hide Replay, Chain, Select, Without, Splice, CountBefore;
  }

  lemma StretchDistinct<T(!new)>(h: seq<T>, n: nat)
    requires n <= |h| && Distinct(h)
    ensures Distinct(h[n..])
  {
  }

  /** What is the same on both sides can be left away. */
  lemma SameAbove<T>(kept: seq<T>, a: seq<T>, b: seq<T>)
    requires multiset(kept + a) == multiset(kept + b)
    ensures multiset(a) == multiset(b)
  {
    var k, x, y := multiset(kept), multiset(a), multiset(b);
    assert k + x == k + y;
    assert x == (k + x) - k && y == (k + y) - k;
  }

  lemma MoveTodo(op: Op)
    requires op.kind == Move && op.Valid() && op.SameRef()
    ensures multiset(op.Moving().Todo()) == multiset(Chain(op.src.commit)[op.Moving().Keep()..])
  {
    hide Chain, Select, Without, Splice, CountBefore, Elements;
    var rw, h := op.Moving(), Chain(op.src.commit);
    var kept := h[..rw.Keep()];
    MoveWithinConserves(op);
    TargetIsKeptThenTodo(rw);
    assert h == kept + h[rw.Keep()..];
    SameAbove(kept, rw.Todo(), h[rw.Keep()..]);
  }

  /** The same commits in another order overlay to the same tree. */
  lemma SameOverlay(base: Tree, s: seq<Commit>, s': seq<Commit>, tree: Tree, tree': Tree)
    requires multiset(s') == multiset(s) && Overlay(base, s, tree) && Overlay(base, s', tree')
    ensures tree' == tree
  {
    hide Overlay;
    forall c ensures c in s' <==> c in s {
      assert c in multiset(s') <==> c in multiset(s);
    }
    OverlayUnique(base, s, s', tree, tree');
  }

  /** Moving commits within a branch does not change what is in the branch: when no two commits of the rewritten part
      change the same path, the final tree is the one it was. */
  lemma MoveKeepsTree(ctx: Ctx, op: Op)
    requires op.kind == Move && op.Valid() && op.SameRef()
    requires Independent(Chain(op.src.commit)[op.Moving().Keep()..])
    ensures AddRemove(ctx, Theirs, op.Moving()).Ok?
    ensures TreeOf(AddRemove(ctx, Theirs, op.Moving()).value.commit) == op.src.commit.tree
  {
    hide Chain, Independent, Overlay, AddRemove, Distinct, MadeOn, Select, Without, Splice, CountBefore, Elements;
    var rw := op.Moving();
    var range := Chain(op.src.commit)[rw.Keep()..];
    MoveTodo(op);
    RewriteOverlays(ctx, Theirs, rw);
    TopStretch(op.src.commit, rw.Keep());
    SameOverlay(TreeOf(rw.Base()), range, rw.Todo(), op.src.commit.tree,
                TreeOf(AddRemove(ctx, Theirs, rw).value.commit));
  }

  /** Deleting commits takes out exactly their changes: when no two commits of the rewritten part change the same path,
      the final tree is the tree below, overlaid with the changes of the commits that were kept and no others. */
  lemma DeleteKeepsOthers(ctx: Ctx, op: Op)
    requires op.kind == Delete && op.Valid()
    requires Independent(Chain(op.src.commit)[op.Removing().Keep()..])
    ensures AddRemove(ctx, Theirs, op.Removing()).Ok?
    ensures var above := Chain(op.src.commit)[op.Removing().Keep()..];
            Overlay(TreeOf(op.Removing().Base()), Without(above, op.commits),
                TreeOf(AddRemove(ctx, Theirs, op.Removing()).value.commit))
  {
    hide Chain, Independent, Overlay, AddRemove, Select, Without;
    var rw, h := op.Removing(), Chain(op.src.commit);
    var range := h[rw.Keep()..];
    assert rw.Todo() == Without(range, op.commits) by {
      assert rw.At() == |h| && h[rw.Keep()..|h|] == range && h[|h|..] == [];
      SelectNone(History(None), {});
      SelectNone<Commit>([], op.commits);
    }
    SelectConserves(range, op.commits);
    assert multiset(rw.Todo()) <= multiset(range);
    RewriteOverlays(ctx, Theirs, rw);
  }
}
