/** What a rewritten branch looks like: its chain, commit by commit, and its trees. */
module Rewritten {
  import opened Wrappers
  import opened Commits
  import opened Selections
  import opened Rewrite

  /** The parents other than the first one. */
  function SideParents(c: Commit): seq<Commit> {
    if c.parents == [] then [] else c.parents[1..]
  }

  /** Commit by commit, `h` carries the metadata and the merged-in side branches of `labels`. */
  ghost predicate Represents(h: seq<Commit>, labels: seq<Commit>) {
    && |h| == |labels|
    && forall i :: 0 <= i < |h| ==> h[i].meta == labels[i].meta && SideParents(h[i]) == SideParents(labels[i])
  }

  /** The oldest `keep` commits are the very same ones. */
  ghost predicate Reuses(h: seq<Commit>, labels: seq<Commit>, keep: nat) {
    keep <= |h| && keep <= |labels| && h[..keep] == labels[..keep]
  }

  lemma {:induction false} ReplayRepresents(ctx: Ctx, favor: Favor, head: Option<Commit>, todo: seq<Commit>)
    requires Replay(ctx, favor, head, todo).Ok? && !MakesMergeRoot(head, todo)
    ensures Represents(Replay(ctx, favor, head, todo).value, todo)
  {
    var images := Replay(ctx, favor, head, todo).value;
    forall i | 0 <= i < |todo| ensures images[i].meta == todo[i].meta
        && SideParents(images[i]) == SideParents(todo[i]) {
      ReplayImage(ctx, favor, head, todo, i);
      var below := TopOr(head, images[..i]);
      assert images[i].parents == NewParents(todo[i].parents, below);
      if below.Some? {
        assert SideParents(images[i]) == images[i].parents[1..];
      } else {
        assert i == 0 && !todo[0].IsMerge();
      }
    }
  }

  /** The images are always the top of the new chain, one on top of the other. */
  lemma {:induction false} ReplayOnTop(ctx: Ctx, favor: Favor, head: Option<Commit>, todo: seq<Commit>)
    requires Replay(ctx, favor, head, todo).Ok?
    ensures var images := Replay(ctx, favor, head, todo).value;
            forall c :: c in images ==> c in History(TopOr(head, images))
  {
    if todo != [] {
      var n := |todo| - 1;
      var before := Replay(ctx, favor, head, todo[..n]).value;
      var c := Replay(ctx, favor, head, todo).value[n];
      ReplayOnTop(ctx, favor, head, todo[..n]);
      if n > 0 {
        assert c.parents[0] == TopOr(head, before).value;
        assert Chain(c) == History(TopOr(head, before)) + [c];
      }
      assert c in Chain(c);
    }
  }

  /** The chain of a rewritten branch is the kept commits and the images on top of them, if and only if no merge commit
      is made the root. */
  lemma AddRemoveHistory(ctx: Ctx, favor: Favor, rw: Rewriting, images: seq<Commit>)
    requires rw.Valid() && Replay(ctx, favor, rw.Base(), rw.Todo()) == Ok(images)
    ensures AddRemove(ctx, favor, rw) == Ok(rw.Result(images))
    ensures History(rw.Result(images).commit) == Chain(rw.dst)[..rw.Keep()] + images <==>
            !MakesMergeRoot(rw.Base(), rw.Todo())
  {
    hide Splice, Select, Without, Replay, Chain;
    TargetIsKeptThenTodo(rw);
    ReplayHistory(ctx, favor, rw.Base(), rw.Todo());
  }

  /** Where the added commits stand on the rewritten branch. */
  function AddedAt(rw: Rewriting): (n: nat)
    requires rw.Valid()
    ensures n + |rw.Adds()| <= |rw.Target()| && rw.Target()[n..n + |rw.Adds()|] == rw.Adds()
  {
    var n := |Without(Chain(rw.dst)[..rw.At()], rw.remove)|;
    SplicedInMiddle(Without(Chain(rw.dst)[..rw.At()], rw.remove), rw.Adds(),
        Without(Chain(rw.dst)[rw.At()..], rw.remove));
    n
  }

  lemma SplicedInMiddle(a: seq<Commit>, b: seq<Commit>, c: seq<Commit>)
    ensures (a + b + c)[|a|..|a| + |b|] == b
  {
  }

  lemma AddedAtIs(rw: Rewriting)
    requires rw.Valid()
    ensures AddedAt(rw) == rw.Keep() + rw.AddedFrom()
  {
    hide Select, Without, Chain;
    var lower, upper := Chain(rw.dst)[..rw.Keep()], Chain(rw.dst)[rw.Keep()..rw.At()];
    assert Chain(rw.dst)[..rw.At()] == lower + upper;
    SelectConcat(lower, upper, rw.remove);
    SelectNone(lower, rw.remove);
  }

  /** The rewritten branch: its first-parent chain carries, oldest first, exactly the target list; the commits below the
      point where the rewrite starts are reused; and `added` is the images of the added commits. */
  lemma AddRemoveChain(ctx: Ctx, favor: Favor, rw: Rewriting)
    requires rw.Valid() && AddRemove(ctx, favor, rw).Ok? && !MakesMergeRoot(rw.Base(), rw.Todo())
    ensures var r := AddRemove(ctx, favor, rw).value;
            var h := History(r.commit);
            && Represents(h, rw.Target())
            && Reuses(h, Chain(rw.dst), rw.Keep())
            && r.added == Elements(h[AddedAt(rw)..AddedAt(rw) + |rw.Adds()|])
  {
    hide *;
    var images := AddRemoveImages(ctx, favor, rw);
    var kept := Chain(rw.dst)[..rw.Keep()];
    TargetIsKeptThenTodo(rw);
    AddedAtIs(rw);
    AddRemoveHistory(ctx, favor, rw, images);
    ReplayRepresents(ctx, favor, rw.Base(), rw.Todo());
    RepresentsAbove(kept, images, rw.Todo());
    SliceAbove(kept, images, rw.AddedFrom(), |rw.Adds()|);
    ReusesAbove(kept, images, Chain(rw.dst));
  }

  lemma AddRemoveImages(ctx: Ctx, favor: Favor, rw: Rewriting) returns (images: seq<Commit>)
    requires rw.Valid() && AddRemove(ctx, favor, rw).Ok?
    ensures Replay(ctx, favor, rw.Base(), rw.Todo()) == Ok(images) && |images| == |rw.Todo()|
    ensures rw.AddedFrom() + |rw.Adds()| <= |images|
    ensures rw.Result(images).added == Elements(images[rw.AddedFrom()..rw.AddedFrom() + |rw.Adds()|])
  {
    hide Replay, Select, Without, Chain;
    images := Replay(ctx, favor, rw.Base(), rw.Todo()).value;
  }

  lemma ReusesAbove(kept: seq<Commit>, images: seq<Commit>, h: seq<Commit>)
    requires kept <= h
    ensures Reuses(kept + images, h, |kept|)
  {
  }

  lemma SliceAbove(kept: seq<Commit>, images: seq<Commit>, a: nat, n: nat)
    requires a + n <= |images|
    ensures (kept + images)[|kept| + a..|kept| + a + n] == images[a..a + n]
  {
  }

  lemma RepresentsAbove(kept: seq<Commit>, images: seq<Commit>, todo: seq<Commit>)
    requires Represents(images, todo)
    ensures Represents(kept + images, kept + todo)
  {
  }

  /** Nothing is left exactly when the target list is empty; and what is added is always on the rewritten branch. */
  lemma AddRemoveResultChain(ctx: Ctx, favor: Favor, rw: Rewriting)
    requires rw.Valid() && AddRemove(ctx, favor, rw).Ok?
    ensures var r := AddRemove(ctx, favor, rw).value;
            && (r.commit.None? <==> rw.Target() == [])
            && r.added <= Elements(History(r.commit))
  {
    hide Replay, Splice, Select, Without;
    TargetIsKeptThenTodo(rw);
    ReplayOnTop(ctx, favor, rw.Base(), rw.Todo());
    var images := Replay(ctx, favor, rw.Base(), rw.Todo()).value;
    assert forall c :: c in images[rw.AddedFrom()..rw.AddedFrom() + |rw.Adds()|] ==> c in images;
  }

  // ----- trees -----

  /** Every commit of `todo` was made on the tree of the one before it, and the first on the tree of `head`. */
  ghost predicate Stacked(head: Option<Commit>, todo: seq<Commit>) {
    forall i :: 0 <= i < |todo| ==> TreeOf(todo[i].Parent()) == TreeOf(TopOr(head, todo[..i]))
  }

  lemma StackedPrefix(head: Option<Commit>, todo: seq<Commit>, n: nat)
    requires Stacked(head, todo) && n <= |todo|
    ensures Stacked(head, todo[..n])
  {
    forall i | 0 <= i < n ensures TreeOf(todo[..n][i].Parent()) == TreeOf(TopOr(head, todo[..n][..i])) {
      assert todo[..n][..i] == todo[..i];
    }
  }

  /** Replaying commits on the trees they were made on needs no merge: every tree stays as it is. */
  lemma {:induction false} ReplayStacked(ctx: Ctx, favor: Favor, head: Option<Commit>, todo: seq<Commit>)
    requires Stacked(head, todo)
    ensures Replay(ctx, favor, head, todo).Ok?
    ensures var images := Replay(ctx, favor, head, todo).value;
            forall i :: 0 <= i < |todo| ==> images[i].tree == todo[i].tree
  {
    hide ParentSet, NewParents, Stacked;
    if todo != [] {
      var n := |todo| - 1;
      StackedPrefix(head, todo, n);
      ReplayStacked(ctx, favor, head, todo[..n]);
      var before := Replay(ctx, favor, head, todo[..n]).value;
      assert TreeOf(TopOr(head, before)) == TreeOf(todo[n].Parent()) by {
        StackedLast(head, todo);
        if n > 0 { assert before[n - 1].tree == todo[..n][n - 1].tree; }
      }
      ParentSetSameBase(ctx, favor, todo[n], TopOr(head, before));
    }
  }

  lemma StackedLast(head: Option<Commit>, todo: seq<Commit>)
    requires Stacked(head, todo) && todo != []
    ensures TreeOf(todo[|todo| - 1].Parent()) == TreeOf(TopOr(head, todo[..|todo| - 1]))
  {
  }

  // ----- the one case where the branch is not the target list -----

  /** Deleting the root below a merge: the merge loses its first parent only, so the side branch that was merged becomes
      the branch, and it is as much longer than the target list as the side branch is long. */
  lemma MergeMadeRoot(ctx: Ctx, merge: Commit)
    requires |merge.parents| == 2 && merge.parents[0].parents == []
    ensures var rw := Rewriting(merge, {}, None, None, {merge.parents[0]});
            && rw.Valid() && rw.Target() == [merge]
            && ((forall x, y, z :: !ctx.unsupported(x, y, z)) ==> AddRemove(ctx, Theirs, rw).Ok?)
            && (AddRemove(ctx, Theirs, rw).Ok? ==>
                 var c := AddRemove(ctx, Theirs, rw).value.commit;
                 && c.Some? && c.value.meta == merge.meta
                 && History(c) == Chain(merge.parents[1]) + [c.value])
  {
    hide Resolver, MergeTrees;
    var rw := RootBelowMerge(merge);
    ReplayTheirs(ctx, None, [merge]);
    assert [merge][..0] == [];
    if ParentSet(ctx, Theirs, merge, None).Ok? {
      var image := ParentSet(ctx, Theirs, merge, None).value;
      assert image.parents == NewParents(merge.parents, None) == [merge.parents[1]];
      assert Replay(ctx, Theirs, None, [merge]).value == [] + [image];
    }
  }

  lemma RootBelowMerge(merge: Commit) returns (rw: Rewriting)
    requires |merge.parents| == 2 && merge.parents[0].parents == []
    ensures rw == Rewriting(merge, {}, None, None, {merge.parents[0]})
    ensures rw.Valid() && rw.Target() == [merge] && rw.Base() == None && rw.Todo() == [merge]
  {
    hide Select, Without;
    var root := merge.parents[0];
    rw := Rewriting(merge, {}, None, None, {root});
    var h := Chain(merge);
    assert Chain(root) == [root];
    assert h == Chain(root) + [merge];
    HistoryDistinct(Some(merge));
    assert h[0] != h[1];
    SelectConcat([root], [merge], {root});
    SelectAll([root], {root});
    SelectNone([merge], {root});
    SelectNone<Commit>([], {root});
    assert rw.Keep() == 0 && rw.At() == 2;
    assert h[0..2] == h && h[2..] == [] && h[..2] == h;
    SelectElements(History(None), {});
    assert rw.Adds() == [] by { SelectNone(History(None), {}); }
  }
}
