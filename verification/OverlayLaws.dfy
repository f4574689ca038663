/** What combining, moving and copying do to trees when the commits change different files. */
module OverlayLaws {
  import opened Wrappers
  import opened Commits
  import opened Selections
  import opened Rewrite
  import opened Operations
  import opened CombineEditLaws
  import opened Independence

  // ----- two lists of commits laid over a tree -----

  /** Laying one list over a tree and another one over the result lays both over it. */
  lemma OverlayTwice(base: Tree, a: seq<Commit>, b: seq<Commit>, tree: Tree, tree': Tree)
    requires Independent(a + b) && Overlay(base, a, tree) && Overlay(tree, b, tree')
    ensures Overlay(base, a + b, tree')
  {
    var s := a + b;
    forall i, p | 0 <= i < |s| && Changes(s[i], p) ensures At(tree', p) == At(s[i].tree, p) {
      if i < |a| {
        forall j | 0 <= j < |b| ensures !Changes(b[j], p) { assert s[|a| + j] == b[j]; }
      }
    }
    forall p | forall i :: 0 <= i < |s| ==> !Changes(s[i], p) ensures At(tree', p) == At(base, p) {
      forall i | 0 <= i < |a| ensures !Changes(a[i], p) { assert s[i] == a[i]; }
      forall j | 0 <= j < |b| ensures !Changes(b[j], p) { assert s[|a| + j] == b[j]; }
    }
  }

  /** What lies over a tree together with a list lies over the tree that already has that list. */
  lemma OverlayRest(base: Tree, a: seq<Commit>, b: seq<Commit>, tree: Tree, tree': Tree)
    requires Independent(a + b) && Overlay(base, a, tree) && Overlay(base, a + b, tree')
    ensures Overlay(tree, b, tree')
  {
    var s := a + b;
    forall j, p | 0 <= j < |b| && Changes(b[j], p) ensures At(tree', p) == At(b[j].tree, p) {
      assert s[|a| + j] == b[j];
    }
    forall p | forall j :: 0 <= j < |b| ==> !Changes(b[j], p) ensures At(tree', p) == At(tree, p) {
      if i :| 0 <= i < |a| && Changes(a[i], p) {
        assert s[i] == a[i];
      } else {
        forall i | 0 <= i < |s| ensures !Changes(s[i], p) {}
      }
    }
  }

  /** A list was made on a tree exactly when it was made on the same tree without changes it does not touch. */
  lemma MadeOnOverlay(base: Tree, a: seq<Commit>, b: seq<Commit>, tree: Tree)
    requires Independent(a + b) && Overlay(base, a, tree)
    ensures MadeOn(base, b) <==> MadeOn(tree, b)
  {
    var s := a + b;
    forall j, p | 0 <= j < |b| && Changes(b[j], p) ensures At(tree, p) == At(base, p) {
      assert s[|a| + j] == b[j];
      forall i | 0 <= i < |a| ensures !Changes(a[i], p) { assert s[i] == a[i]; }
    }
  }

  lemma MadeOnBoth(base: Tree, a: seq<Commit>, b: seq<Commit>)
    requires MadeOn(base, a) && MadeOn(base, b)
    ensures MadeOn(base, a + b)
  {
  }

  lemma IndependentParts(a: seq<Commit>, b: seq<Commit>)
    requires Independent(a + b)
    ensures Independent(a) && Independent(b)
  {
    var s := a + b;
    forall i, j, p | 0 <= i < j < |a| && Changes(a[i], p) ensures !Changes(a[j], p) {
      assert s[i] == a[i] && s[j] == a[j];
    }
    forall i, j, p | 0 <= i < j < |b| && Changes(b[i], p) ensures !Changes(b[j], p) {
      assert s[|a| + i] == b[i] && s[|a| + j] == b[j];
    }
  }

  // ----- combining -----

  /** Integrating independent commits one by one lays their changes over the first one's tree, without a conflict. */
  lemma {:induction false} IntegrateOverlays(ctx: Ctx, dst: Commit, integrate: seq<Commit>)
    requires NoRoots(integrate) && Independent(integrate) && MadeOn(dst.tree, integrate)
    ensures IntegrateAll(ctx, dst, integrate).Ok?
    ensures Overlay(dst.tree, integrate, IntegrateAll(ctx, dst, integrate).value.tree)
  {
    hide Independent, MadeOn, Overlay, Changes, ParentSetTree;
    if integrate == [] {
      NothingOverlaid(dst.tree);
    } else {
      var n := |integrate| - 1;
      var front, last := integrate[..n], integrate[n];
      assert integrate == front + [last];
      IndependentParts(front, [last]);
      MadeOnFront(dst.tree, front, last);
      IntegrateOverlays(ctx, dst, front);
      IntegrateStepOverlay(ctx, dst.tree, IntegrateAll(ctx, dst, front).value, integrate);
    }
  }

  lemma MadeOnFront(base: Tree, front: seq<Commit>, last: Commit)
    requires MadeOn(base, front + [last])
    ensures MadeOn(base, front)
    ensures forall p :: Changes(last, p) ==> At(TreeOf(last.Parent()), p) == At(base, p)
  {
    var s := front + [last];
    assert s[|front|] == last;
    forall i, p | 0 <= i < |front| && Changes(front[i], p) ensures At(TreeOf(front[i].Parent()), p) == At(base, p) {
      assert s[i] == front[i];
    }
  }

  lemma IntegrateStepOverlay(ctx: Ctx, base: Tree, x: Commit, integrate: seq<Commit>)
    requires integrate != [] && Independent(integrate) && MadeOn(base, integrate)
    requires Overlay(base, integrate[..|integrate| - 1], x.tree) && integrate[|integrate| - 1].parents != []
    ensures var r := CommitIntegrate(ctx, x, integrate[|integrate| - 1]);
            r.Ok? && Overlay(base, integrate, r.value.tree)
  {
    hide Independent, MadeOn, Overlay, Changes, ParentSetTree;
    var n := |integrate| - 1;
    var last := integrate[n];
    assert integrate == integrate[..n] + [last];
    MadeOnFront(base, integrate[..n], last);
    UnchangedBelow(base, integrate, x.tree);
    CleanPick(ctx, Theirs, last, Some(x));
    OverlayStep(base, integrate, x.tree, CommitIntegrate(ctx, x, last).value.tree);
  }

  /** Combining commits that are not next to each other moves the upper ones down, past those between them. When no two
      commits above the lowest selected one change the same path, the final tree is the one it was. */
  lemma CombineKeepsTree(ctx: Ctx, op: Op, before: Refs, after: Refs, r: Outcome)
    requires op.kind == Combine && op.Valid() && CombineSpec(ctx, op, before, after, r) && r.Done?
    requires Independent(Chain(op.src.commit)[AboveLowest(op)..])
    ensures op.src.ref.Some? && op.src.ref.value in after && after[op.src.ref.value].tree == op.src.commit.tree
  {
    hide *;
    var c, s := op.src.commit, op.commits;
    var images := CombineParts(ctx, op, before, after, r);
    LowestIs(op);
    CombinedOverlays(ctx, c, s);
    var range, base := Chain(c)[AboveLowest(op)..], Chain(c)[CountBefore(Chain(c), s)].tree;
    TopStretch(c, AboveLowest(op));
    SameOverlay(base, range, CombinedParts(c, s), c.tree, TreeOf(TopOr(Some(Integrated(ctx, c, s).value), images)));
    TreeOfIs(after[op.src.ref.value]);
  }

  lemma LowestIs(op: Op)
    requires CountBefore(Chain(op.src.commit), op.commits) < |Chain(op.src.commit)|
    ensures var h, lo := Chain(op.src.commit), CountBefore(Chain(op.src.commit), op.commits);
            AboveLowest(op) == lo + 1 && TreeOf(Top(h[..lo + 1])) == h[lo].tree
  {
    hide Chain, CountBefore;
  }

  lemma TreeOfIs(c: Commit)
    ensures TreeOf(Some(c)) == c.tree
  {
  }

  /** Such a combination meets no conflict, so it is carried out unless it is refused at the start. */
  lemma CombineOverlaysFinishes(ctx: Ctx, op: Op, before: Refs, after: Refs, r: Outcome)
    requires op.kind == Combine && op.Valid() && CombineSpec(ctx, op, before, after, r)
    requires op.src.ref.Some? && |op.commits| >= 2 && !HasMerge(op.commits)
    requires op.commits <= Elements(Chain(op.src.commit)) && Independent(Chain(op.src.commit)[AboveLowest(op)..])
    ensures r.Done?
  {
    hide Integrated, Attached, Chain, Replay, Independent, Overlay, CountBefore, HasMerge, Elements;
    CombinedOverlays(ctx, op.src.commit, op.commits);
  }

  /** The position above the lowest selected commit. */
  function AboveLowest(op: Op): nat
    ensures AboveLowest(op) <= |Chain(op.src.commit)|
  {
    var n := CountBefore(Chain(op.src.commit), op.commits);
    if n < |Chain(op.src.commit)| then n + 1 else n
  }

  /** The commits that are integrated, then those that are attached. */
  function CombinedParts(c: Commit, commits: set<Commit>): seq<Commit>
    requires CountBefore(Chain(c), commits) < |Chain(c)|
  {
    Select(Chain(c)[CountBefore(Chain(c), commits) + 1..], commits) + Attached(c, commits)
  }

  lemma CombinedOverlays(ctx: Ctx, c: Commit, commits: set<Commit>)
    requires var lo := CountBefore(Chain(c), commits); lo < |Chain(c)| && Independent(Chain(c)[lo + 1..])
    ensures Integrated(ctx, c, commits).Ok?
    ensures var lo, x := CountBefore(Chain(c), commits), Integrated(ctx, c, commits).value;
            var todo := Attached(c, commits);
            && multiset(CombinedParts(c, commits)) == multiset(Chain(c)[lo + 1..])
            && Replay(ctx, Theirs, Some(x), todo).Ok?
            && Overlay(Chain(c)[lo].tree, CombinedParts(c, commits),
                   TreeOf(TopOr(Some(x), Replay(ctx, Theirs, Some(x), todo).value)))
  {
    hide Select, Without, Chain, CountBefore, Replay, IntegrateAll, Independent, Overlay, MadeOn, Distinct;
    var h := Chain(c);
    var lo := CountBefore(h, commits);
    var range, base := h[lo + 1..], h[lo];
    assert Top(h[..lo + 1]) == Some(base);
    TopStretch(c, lo + 1);
    var a, b := Select(range, commits), Without(range, commits);
    SelectConserves(range, commits);
    assert multiset(a + b) == multiset(range);
    IndependentSome(range, a + b);
    IndependentParts(a, b);
    SelectElements(range, commits);
    MadeOnSome(base.tree, range, a);
    MadeOnSome(base.tree, range, b);
    NoRootsAbove(c, lo + 1, commits);
    IntegrateOverlays(ctx, base, a);
    var x := Integrated(ctx, c, commits).value;
    MadeOnOverlay(base.tree, a, b, x.tree);
    ReplayOverlays(ctx, Theirs, Some(x), b);
    OverlayTwice(base.tree, a, b, x.tree, TreeOf(TopOr(Some(x), Replay(ctx, Theirs, Some(x), b).value)));
  }

  // ----- adding commits to a branch -----

  lemma IndependentMiddle(a: seq<Commit>, b: seq<Commit>, adds: seq<Commit>)
    requires Independent(a + b + adds)
    ensures Independent(a + adds + b)
  {
    var s, t := a + b + adds, a + adds + b;
    forall i, j, p | 0 <= i < j < |t| && Changes(t[i], p) ensures !Changes(t[j], p) {
      var m, k := Shift(a, b, adds, i), Shift(a, b, adds, j);
      assert s[m] == t[i] && s[k] == t[j];
    }
  }

  /** Where an element of `a + adds + b` is in `a + b + adds`. */
  function Shift(a: seq<Commit>, b: seq<Commit>, adds: seq<Commit>, i: nat): (k: nat)
    requires i < |a| + |b| + |adds|
    ensures k < |a| + |b| + |adds| && (a + b + adds)[k] == (a + adds + b)[i]
  {
    if i < |a| then i else if i < |a| + |adds| then i + |b| else i - |adds|
  }

  lemma OverlaySame(base: Tree, s: seq<Commit>, t: seq<Commit>, tree: Tree)
    requires Overlay(base, s, tree) && forall c :: c in s <==> c in t
    ensures Overlay(base, t, tree)
  {
    forall i, p | 0 <= i < |t| && Changes(t[i], p) ensures At(tree, p) == At(t[i].tree, p) {
      assert t[i] in s;
      var k :| 0 <= k < |s| && s[k] == t[i];
    }
    forall p | forall i :: 0 <= i < |t| ==> !Changes(t[i], p) ensures At(tree, p) == At(base, p) {
      forall k | 0 <= k < |s| ensures !Changes(s[k], p) { assert s[k] in t; }
    }
  }

  /** Adding commits to a branch, at any position, lays exactly their changes over its tree: they have to be independent
      of each other and of the commits above the position, and the branch has, at the paths they change, what their
      parents have. */
  lemma AddingOverlays(ctx: Ctx, favor: Favor, rw: Rewriting)
    requires rw.Valid() && rw.remove == {}
    requires Independent(Chain(rw.dst)[rw.Keep()..] + rw.Adds()) && MadeOn(rw.dst.tree, rw.Adds())
    ensures AddRemove(ctx, favor, rw).Ok?
    ensures Overlay(rw.dst.tree, rw.Adds(), TreeOf(AddRemove(ctx, favor, rw).value.commit))
  {
    hide AddRemove, Chain, Independent, MadeOn, Overlay, Replay, Distinct, Select, Without, Splice, CountBefore;
    var range, adds, base := Chain(rw.dst)[rw.Keep()..], rw.Adds(), TreeOf(rw.Base());
    IndependentParts(range, adds);
    TopStretch(rw.dst, rw.Keep());
    MadeOnOverlay(base, range, adds, rw.dst.tree);
    MadeOnBoth(base, range, adds);
    var a, b := AddedBetween(rw);
    IndependentMiddle(a, b, adds);
    MadeOnSome(base, range + adds, rw.Todo());
    ReplayOverlays(ctx, favor, rw.Base(), rw.Todo());
    ReplayedCommit(ctx, favor, rw);
    var tree := TreeOf(AddRemove(ctx, favor, rw).value.commit);
    OverlaySame(base, rw.Todo(), range + adds, tree);
    OverlayRest(base, range, adds, rw.dst.tree, tree);
  }

  lemma AddedBetween(rw: Rewriting) returns (a: seq<Commit>, b: seq<Commit>)
    requires rw.Valid() && rw.remove == {}
    ensures Chain(rw.dst)[rw.Keep()..] == a + b && rw.Todo() == a + rw.Adds() + b
    ensures forall c :: c in rw.Todo() <==> c in Chain(rw.dst)[rw.Keep()..] + rw.Adds()
  {
    hide Chain, Select, Without, CountBefore, AddLimit;
    var h := Chain(rw.dst);
    a, b := h[rw.Keep()..rw.At()], h[rw.At()..];
    SelectNone(a, rw.remove);
    SelectNone(b, rw.remove);
    assert h[rw.Keep()..] == a + b;
  }

  /** Moving independent commits to another branch lays exactly their changes over it. */
  lemma MoveOverlays(ctx: Ctx, op: Op, before: Refs, after: Refs, r: Outcome)
    requires op.kind == Move && op.Valid() && !op.SameRef() && MoveSpec(ctx, op, before, after, r) && r.Done?
    requires var rw := op.Adding(); Independent(Chain(rw.dst)[rw.Keep()..] + rw.Adds())
    requires MadeOn(op.dst.value.commit.tree, Select(Chain(op.src.commit), op.commits))
    ensures op.dst.value.ref.Some? && op.dst.value.ref.value in after
    ensures Overlay(op.dst.value.commit.tree, Select(Chain(op.src.commit), op.commits),
                after[op.dst.value.ref.value].tree)
  {
    hide AddRemove, Chain, Independent, MadeOn, Overlay, Select;
    AddingOverlays(ctx, Normal, op.Adding());
  }

  /** Copying them does the same, and neither a user nor a merge of contents is asked for anything. */
  lemma CopyOverlays(ctx: Ctx, op: Op, before: Refs, after: Refs, r: Outcome)
    requires op.kind == Copy && op.Valid() && CopySpec(ctx, op, before, after, r) && op.dst.value.ref.Some?
    requires var rw := op.Adding(); Independent(Chain(rw.dst)[rw.Keep()..] + rw.Adds())
    requires MadeOn(op.dst.value.commit.tree, Select(Chain(op.src.commit), op.commits))
    ensures r.Done? && op.dst.value.ref.value in after
    ensures Overlay(op.dst.value.commit.tree, Select(Chain(op.src.commit), op.commits),
                after[op.dst.value.ref.value].tree)
  {
    hide AddRemove, Chain, Independent, MadeOn, Overlay, Select;
    AddingOverlays(ctx, FileFavor(op.src, op.dst), op.Adding());
  }
}
