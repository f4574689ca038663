/** What combining and editing do to a branch: its commits, its messages and its trees. */
module CombineEditLaws {
  import opened Wrappers
  import opened Commits
  import opened Selections
  import opened Rewrite
  import opened Rewritten
  import opened Operations
  import Strings
  import CommitMessage

  function Messages(s: seq<Commit>): (r: seq<MessageText>)
    ensures |r| == |s|
  {
    if s == [] then [] else Messages(s[..|s| - 1]) + [s[|s| - 1].meta.message]
  }

  lemma {:induction false} MessagesConcat(a: seq<Commit>, b: seq<Commit>)
    ensures Messages(a + b) == Messages(a) + Messages(b)
  {
    if b == [] {
      assert a + b == a;
    } else {
      MessagesConcat(a, b[..|b| - 1]);
      assert (a + b)[..|a + b| - 1] == a + b[..|b| - 1];
    }
  }

  // ----- messages -----

  /** Leaving newlines away before more is appended comes to leaving them away at the end. */
  lemma {:induction false} AsReadConcat(a: string, b: string)
    ensures AsRead(AsRead(a) + b) == AsRead(a + b)
  {
    if a != "" && a[0] == '\n' {
      AsReadConcat(a[1..], b);
      assert (a + b)[1..] == a[1..] + b;
    }
  }

  lemma AppendAsRead(a: string, m: string)
    ensures AsRead(AsRead(a) + "\n" + m) == AsRead(a + "\n" + m)
  {
    hide AsRead;
    AsReadConcat(a, "\n" + m);
    assert AsRead(a) + "\n" + m == AsRead(a) + ("\n" + m) && a + "\n" + m == a + ("\n" + m);
  }

  /** How many empty messages there are at the beginning. */
  function EmptyCount(ms: seq<string>): (n: nat)
    ensures n <= |ms| && (forall i :: 0 <= i < n ==> ms[i] == "") && (n < |ms| ==> ms[n] != "")
  {
    if ms == [] || ms[0] != "" then 0 else 1 + EmptyCount(ms[1..])
  }

  /** Joined messages are read without the empty ones at the beginning. */
  lemma {:induction false} JoinedAsRead(ms: seq<MessageText>)
    ensures AsRead(Strings.Join(ms)) == Strings.Join(ms[EmptyCount(ms)..])
    ensures |ms| > 1 ==> (AsRead(Strings.Join(ms)) == Strings.Join(ms) <==> ms[0] != "")
    ensures |AsRead(Strings.Join(ms))| <= |Strings.Join(ms)|
  {
    if ms != [] && ms[0] == "" {
      JoinedAsRead(ms[1..]);
      assert ms[1..][EmptyCount(ms[1..])..] == ms[EmptyCount(ms)..];
      if |ms| > 1 {
        assert Strings.Join(ms)[1..] == Strings.Join(ms[1..]);
      }
    }
  }

  /** Integrating keeps the place and everything else of the first commit, and appends message after message. */
  lemma {:induction false} IntegratedMeta(ctx: Ctx, dst: Commit, integrate: seq<Commit>)
    requires NoRoots(integrate) && IntegrateAll(ctx, dst, integrate).Ok?
    ensures var c := IntegrateAll(ctx, dst, integrate).value;
            && c.parents == dst.parents
            && c.meta == dst.meta.(message := AsRead(Strings.Join([dst.meta.message] + Messages(integrate))))
            && c.headers == if integrate == [] then dst.headers else ""
  {
    hide ParentSetTree;
    if integrate == [] {
      assert [dst.meta.message] + Messages(integrate) == [dst.meta.message];
    } else {
      var front, last := integrate[..|integrate| - 1], integrate[|integrate| - 1];
      IntegratedMeta(ctx, dst, front);
      CommitMessage.JoinSnoc([dst.meta.message] + Messages(front), last.meta.message);
      AppendAsRead(Strings.Join([dst.meta.message] + Messages(front)), last.meta.message);
      assert [dst.meta.message] + Messages(integrate) == [dst.meta.message] + Messages(front) + [last.meta.message];
    }
  }

  /** The empty message of the oldest commit leaves no line of its own. */
  lemma EmptyMessageDisappears(ctx: Ctx, dst: Commit, a: Commit, b: Commit)
    requires NoRoots([a, b]) && IntegrateAll(ctx, dst, [a, b]).Ok?
    requires dst.meta.message == "" && a.meta.message == "a" && b.meta.message == "b"
    ensures IntegrateAll(ctx, dst, [a, b]).value.meta.message == "a\nb"
    ensures Strings.Join(Messages([dst, a, b])) == "\na\nb"
  {
    hide IntegrateAll;
    IntegratedMeta(ctx, dst, [a, b]);
    assert [a, b][..1] == [a] && [dst, a, b][..2] == [dst, a] && [dst, a][..1] == [dst];
    MessagesOne(dst);
    MessagesOne(a);
    assert [dst.meta.message] + Messages([a, b]) == ["", "a", "b"] == Messages([dst, a, b]);
    assert Strings.Join(["a", "b"]) == "a\nb";
    assert ["", "a", "b"][1..] == ["a", "b"];
    assert "\na\nb"[1..] == "a\nb";
  }

  lemma ChainOnParents(c: Commit)
    ensures Chain(c) == History(c.Parent()) + [c]
  {
  }

  /** The selected commits are the lowest one and those above it. */
  lemma SelectedAbove(h: seq<Commit>, commits: set<Commit>)
    requires CountBefore(h, commits) < |h|
    ensures var lo := CountBefore(h, commits);
            Select(h, commits) == [h[lo]] + Select(h[lo + 1..], commits)
                && Without(h, commits) == h[..lo] + Without(h[lo + 1..], commits)
  {
    hide Select, Without, CountBefore;
    var lo := CountBefore(h, commits);
    var a, b := h[..lo], h[lo..];
    assert h == a + b && b == [h[lo]] + h[lo + 1..];
    SelectConcat(a, b, commits);
    SelectNone(a, commits);
    SelectConcat([h[lo]], h[lo + 1..], commits);
    SelectAll([h[lo]], commits);
  }

  lemma CombineParts(ctx: Ctx, op: Op, before: Refs, after: Refs, r: Outcome) returns (images: seq<Commit>)
    requires op.kind == Combine && op.Valid() && CombineSpec(ctx, op, before, after, r) && r.Done?
    ensures op.commits <= Elements(Chain(op.src.commit))
            && CountBefore(Chain(op.src.commit), op.commits) < |Chain(op.src.commit)|
    ensures Integrated(ctx, op.src.commit, op.commits).Ok?
    ensures var c := Integrated(ctx, op.src.commit, op.commits).value;
            && Replay(ctx, Theirs, Some(c), Attached(op.src.commit, op.commits)) == Ok(images)
            && op.src.ref.Some? && op.src.ref.value in after && Some(after[op.src.ref.value]) == TopOr(Some(c), images)
    ensures r.result.src.selection == {Integrated(ctx, op.src.commit, op.commits).value}
    ensures r.result.src.selectionPrev == op.commits
  {
    hide Integrated, Attached, Replay, Chain, Elements, CountBefore;
    images := Replay(ctx, Theirs, Some(Integrated(ctx, op.src.commit, op.commits).value),
        Attached(op.src.commit, op.commits)).value;
  }

  lemma IntegratedCommit(ctx: Ctx, c: Commit, s: set<Commit>)
    requires CountBefore(Chain(c), s) < |Chain(c)| && Integrated(ctx, c, s).Ok?
    ensures var h, x := Chain(c), Integrated(ctx, c, s).value; var lo := CountBefore(h, s);
            && Chain(x) == h[..lo] + [x]
            && x.meta == h[lo].meta.(message := AsRead(Strings.Join(Messages(Select(h, s)))))
  {
    hide Select, Without, CountBefore, IntegrateAll, Messages;
    var h := Chain(c);
    var lo := CountBefore(h, s);
    var integrate := Select(h[lo + 1..], s);
    NoRootsAbove(c, lo + 1, s);
    IntegratedMeta(ctx, h[lo], integrate);
    SelectedAbove(h, s);
    MessagesConcat([h[lo]], integrate);
    MessagesOne(h[lo]);
    var x := Integrated(ctx, c, s).value;
    ChainOnParents(x);
    HistoryParent(Some(c), lo);
    HistoryPrefix(Some(c), lo);
  }

  lemma MessagesOne(c: Commit)
    ensures Messages([c]) == [c.meta.message]
  {
  }

  lemma AttachedCount(c: Commit, s: set<Commit>)
    requires CountBefore(Chain(c), s) < |Chain(c)| && s <= Elements(Chain(c))
    ensures CountBefore(Chain(c), s) + 1 + |Attached(c, s)| == |Chain(c)| - (|s| - 1)
  {
    hide Select, Without, CountBefore, Chain, Distinct, Elements;
    var h := Chain(c);
    SelectedAbove(h, s);
    HistoryDistinct(Some(c));
    SelectCount(h, s);
    SelectConserves(h, s);
  }

  /** The branch after a combination: the commits below the lowest selected one are reused; the combined commit takes
      its place, with the messages of all selected commits joined oldest first by a newline; above it come the commits
      that were not selected, in order. Of n commits, n - (k - 1) are left. */
  lemma CombinedBranch(ctx: Ctx, op: Op, before: Refs, after: Refs, r: Outcome)
    requires op.kind == Combine && op.Valid() && CombineSpec(ctx, op, before, after, r) && r.Done?
    ensures var h := Chain(op.src.commit);
            var lo := CountBefore(h, op.commits);
            && op.src.ref.Some? && op.src.ref.value in after
            && lo < |h|
            && var h' := Chain(after[op.src.ref.value]);
            && |h'| == |h| - (|op.commits| - 1)
            && lo < |h'|
            && Reuses(h', h, lo)
            && h'[lo].meta == h[lo].meta.(message := AsRead(Strings.Join(Messages(Select(h, op.commits)))))
            && r.result.src.selection == {h'[lo]} && r.result.src.selectionPrev == op.commits
            && Represents(h'[lo + 1..], Attached(op.src.commit, op.commits))
            && h[..lo] + Attached(op.src.commit, op.commits) == Without(h, op.commits)
  {
    hide Integrated, Select, Without, Chain, CountBefore, CombineSpec, Replay, Represents, Messages;
    var c, s := op.src.commit, op.commits;
    var images := CombineParts(ctx, op, before, after, r);
    var h, x := Chain(c), Integrated(ctx, c, s).value;
    var lo := CountBefore(h, s);
    IntegratedCommit(ctx, c, s);
    AttachedCount(c, s);
    SelectedAbove(h, s);
    ReplayHistory(ctx, Theirs, Some(x), Attached(c, s));
    ReplayRepresents(ctx, Theirs, Some(x), Attached(c, s));
    var h' := Chain(after[op.src.ref.value]);
    assert h' == h[..lo] + [x] + images;
    assert h'[..lo] == h[..lo] && h'[lo] == x && h'[lo + 1..] == images;
  }

  lemma CombinedSelection(ctx: Ctx, op: Op, before: Refs, after: Refs, r: Outcome)
    requires op.kind == Combine && op.Valid() && CombineSpec(ctx, op, before, after, r) && r.Done?
    ensures |op.commits| > 1 && op.commits <= Elements(Chain(op.src.commit)) && Distinct(Chain(op.src.commit))
  {
    hide Integrated, Attached, Replay, Chain, Elements, CountBefore, Distinct;
    HistoryDistinct(Some(op.src.commit));
  }

  /** The message of the combined commit is the selected messages joined oldest first by a newline, from the first one
      on that is not empty: all of them if and only if the oldest one is not empty. */
  lemma CombinedMessage(ctx: Ctx, op: Op, before: Refs, after: Refs, r: Outcome)
    requires op.kind == Combine && op.Valid() && CombineSpec(ctx, op, before, after, r) && r.Done?
    ensures var h := Chain(op.src.commit);
            var lo := CountBefore(h, op.commits);
            var ms := Messages(Select(h, op.commits));
            && op.src.ref.Some? && op.src.ref.value in after
            && lo < |h| && |ms| == |op.commits| > 1 && ms[0] == h[lo].meta.message
            && var h' := Chain(after[op.src.ref.value]);
            && lo < |h'|
            && h'[lo].meta.message == Strings.Join(ms[EmptyCount(ms)..])
            && (h'[lo].meta.message == Strings.Join(ms) <==> h[lo].meta.message != "")
  {
    hide *;
    CombinedBranch(ctx, op, before, after, r);
    CombinedSelection(ctx, op, before, after, r);
    var h, s := Chain(op.src.commit), op.commits;
    var ms := Messages(Select(h, s));
    JoinedAsRead(ms);
    SelectedAbove(h, s);
    MessagesConcat([h[CountBefore(h, s)]], Select(h[CountBefore(h, s) + 1..], s));
    MessagesOne(h[CountBefore(h, s)]);
    SelectCount(h, s);
  }

  // ----- trees -----

  lemma IntegrateOne(ctx: Ctx, c: Commit, x: Commit, k: nat)
    requires 0 < k < |Chain(c)| && Chain(c)[k].parents != [] && x.tree == Chain(c)[k - 1].tree
    ensures var r := CommitIntegrate(ctx, x, Chain(c)[k]); r.Ok? && r.value.tree == Chain(c)[k].tree
  {
    hide MergeTrees, Chain;
    HistoryParent(Some(c), k);
    assert Top(Chain(c)[..k]) == Some(Chain(c)[k - 1]);
    ParentSetSameBase(ctx, Theirs, Chain(c)[k], Some(x));
  }

  /** Integrating the commits right above `h[lo]` one by one arrives at the tree of the last of them. */
  lemma {:induction false} IntegrateBlock(ctx: Ctx, c: Commit, lo: nat, hi: nat)
    requires lo < hi <= |Chain(c)| && NoRoots(Chain(c)[lo + 1..hi])
    ensures var x := IntegrateAll(ctx, Chain(c)[lo], Chain(c)[lo + 1..hi]);
            x.Ok? && x.value.tree == Chain(c)[hi - 1].tree
  {
    hide CommitIntegrate, Chain;
    var h := Chain(c);
    var integrate := h[lo + 1..hi];
    if hi > lo + 1 {
      var front, last := integrate[..|integrate| - 1], integrate[|integrate| - 1];
      assert front == h[lo + 1..hi - 1] && last == h[hi - 1];
      IntegrateBlock(ctx, c, lo, hi - 1);
      IntegrateOne(ctx, c, IntegrateAll(ctx, h[lo], front).value, hi - 1);
    }
  }

  lemma StackedAbove(c: Commit, hi: nat, head: Option<Commit>)
    requires 0 < hi <= |Chain(c)| && head.Some? && head.value.tree == Chain(c)[hi - 1].tree
    ensures Stacked(head, Chain(c)[hi..])
  {
    var h := Chain(c);
    var todo := h[hi..];
    forall i | 0 <= i < |todo| ensures TreeOf(todo[i].Parent()) == TreeOf(TopOr(head, todo[..i])) {
      HistoryParent(Some(c), hi + i);
      assert todo[i] == h[hi + i] && todo[i].Parent() == Some(h[hi + i - 1]);
      if i > 0 {
        assert todo[..i][i - 1] == h[hi + i - 1];
      }
    }
  }

  /** When the selected commits are next to each other, combining them loses and changes no content: the combined commit
      has the tree of the newest of them, and every later commit, with the branch itself, keeps its tree. */
  lemma CombinedTrees(ctx: Ctx, op: Op, before: Refs, after: Refs, r: Outcome)
    requires op.kind == Combine && op.Valid() && CombineSpec(ctx, op, before, after, r) && r.Done?
    requires !HasGap(Chain(op.src.commit), op.commits)
    ensures var h := Chain(op.src.commit);
            var lo := CountBefore(h, op.commits);
            && op.src.ref.Some? && op.src.ref.value in after
            && lo + |op.commits| <= |h|
            && var h' := Chain(after[op.src.ref.value]);
            && |h'| == |h| - (|op.commits| - 1)
            && (forall i :: lo <= i < |h'| ==> h'[i].tree == h[i + |op.commits| - 1].tree)
            && after[op.src.ref.value].tree == op.src.commit.tree
  {
    hide Integrated, Select, Without, Chain, CombineSpec, Replay, IntegrateAll, Stacked, CountBefore, HasGap, Attached,
        Messages, Elements, AsRead;
    var c, s := op.src.commit, op.commits;
    var images := CombineParts(ctx, op, before, after, r);
    var h, x := Chain(c), Integrated(ctx, c, s).value;
    var lo, hi := CombinedBlock(ctx, c, s);
    StackedAbove(c, hi, Some(x));
    ReplayStacked(ctx, Theirs, Some(x), h[hi..]);
    ReplayHistory(ctx, Theirs, Some(x), h[hi..]);
    IntegratedCommit(ctx, c, s);
    assert Chain(after[op.src.ref.value]) == h[..lo] + [x] + images;
    TreesShifted(h, lo, |s|, x, images);
    TopOfChain(c);
    TopOfChain(after[op.src.ref.value]);
  }

  /** Combining commits that are next to each other never meets a conflict, so it is carried out unless it is refused at
      the start. */
  lemma CombineFinishes(ctx: Ctx, op: Op, before: Refs, after: Refs, r: Outcome)
    requires op.kind == Combine && op.Valid() && CombineSpec(ctx, op, before, after, r)
    requires op.src.ref.Some? && |op.commits| >= 2 && !HasMerge(op.commits)
    requires op.commits <= Elements(Chain(op.src.commit)) && !HasGap(Chain(op.src.commit), op.commits)
    ensures r.Done?
  {
    hide Integrated, Select, Without, Chain, Replay, IntegrateAll, Stacked, CountBefore, HasGap, Attached, Elements,
        HasMerge;
    var c, s := op.src.commit, op.commits;
    var lo, hi := CombinedBlock(ctx, c, s);
    var x := Integrated(ctx, c, s).value;
    StackedAbove(c, hi, Some(x));
    ReplayStacked(ctx, Theirs, Some(x), Chain(c)[hi..]);
  }

  lemma TreesShifted(h: seq<Commit>, lo: nat, k: nat, x: Commit, images: seq<Commit>)
    requires k > 0 && lo + k <= |h| && |images| == |h| - lo - k && x.tree == h[lo + k - 1].tree
    requires forall i :: 0 <= i < |images| ==> images[i].tree == h[lo + k..][i].tree
    ensures var h' := h[..lo] + [x] + images;
            forall i :: lo <= i < |h'| ==> h'[i].tree == h[i + k - 1].tree
  {
    var h' := h[..lo] + [x] + images;
    forall i | lo <= i < |h'| ensures h'[i].tree == h[i + k - 1].tree {
      if i > lo {
        assert h'[i] == images[i - lo - 1] && h[lo + k..][i - lo - 1] == h[i + k - 1];
      }
    }
  }

  lemma TopOfChain(c: Commit)
    ensures |Chain(c)| > 0 && Chain(c)[|Chain(c)| - 1] == c
  {
  }

  lemma CombinedBlock(ctx: Ctx, c: Commit, s: set<Commit>) returns (lo: nat, hi: nat)
    requires s <= Elements(Chain(c)) && !HasGap(Chain(c), s) && CountBefore(Chain(c), s) < |Chain(c)|
    ensures lo == CountBefore(Chain(c), s) < hi <= |Chain(c)| && hi == lo + |s|
    ensures Integrated(ctx, c, s).Ok? && Integrated(ctx, c, s).value.tree == Chain(c)[hi - 1].tree
    ensures Attached(c, s) == Chain(c)[hi..]
  {
    hide *;
    lo, hi := SelectedBlock(c, s);
    BlockAbove(Chain(c), s, lo, hi);
    NoRootsAbove(c, lo + 1, s);
    IntegrateBlock(ctx, c, lo, hi);
    IntegratedIs(ctx, c, s);
  }

  lemma IntegratedIs(ctx: Ctx, c: Commit, s: set<Commit>)
    requires CountBefore(Chain(c), s) < |Chain(c)|
    ensures var above := Chain(c)[CountBefore(Chain(c), s) + 1..];
            && NoRoots(Select(above, s))
            && Integrated(ctx, c, s) == IntegrateAll(ctx, Chain(c)[CountBefore(Chain(c), s)], Select(above, s))
            && Attached(c, s) == Without(above, s)
  {
    hide Select, Without, IntegrateAll, CountBefore, Chain, NoRoots;
    NoRootsAbove(c, CountBefore(Chain(c), s) + 1, s);
  }

  lemma SelectedBlock(c: Commit, s: set<Commit>) returns (lo: nat, hi: nat)
    requires s <= Elements(Chain(c)) && !HasGap(Chain(c), s) && CountBefore(Chain(c), s) < |Chain(c)|
    ensures lo == CountBefore(Chain(c), s) < hi <= |Chain(c)| && hi == lo + |s|
    ensures IsBlock(Chain(c), s, lo, hi)
  {
    hide Select, Without;
    var h := Chain(c);
    lo, hi := GaplessIsBlock(h, s);
    HistoryDistinct(Some(c));
    SelectCount(h, s);
    BlockSelect(h, s, lo, hi);
    assert h[lo] in s;
  }

  lemma BlockAbove(h: seq<Commit>, s: set<Commit>, lo: nat, hi: nat)
    requires lo < hi && IsBlock(h, s, lo, hi)
    ensures Select(h[lo + 1..], s) == h[lo + 1..hi] && Without(h[lo + 1..], s) == h[hi..]
  {
    hide Select, Without;
    var above := h[lo + 1..];
    BlockSelect(above, s, 0, hi - lo - 1);
    assert above[0..hi - lo - 1] == h[lo + 1..hi];
    assert above[..0] + above[hi - lo - 1..] == h[hi..];
  }

  // ----- edit -----

  lemma EditingParts(c: Commit, orig: Commit, edited: Commit)
    requires Editing(c, orig, edited).Valid() && orig in Chain(c)
    ensures var h, rw := Chain(c), Editing(c, orig, edited);
            var n := CountBefore(h, {orig});
            && n < |h| && h[n] == orig
            && rw.Keep() == n && rw.Base() == Top(h[..n]) && rw.Todo() == [edited] + h[n + 1..]
            && rw.AddedFrom() == 0 && rw.Adds() == [edited]
  {
    hide Select, Without, Chain;
    var h, rw := Chain(c), Editing(c, orig, edited);
    var n := CountBefore(h, {orig});
    assert rw.At() == n + 1 && n < |h| && h[n] == orig;
    WithoutLone(c, n);
    LoneSelect(edited);
    assert [] + [edited] + h[n + 1..] == [edited] + h[n + 1..];
  }

  lemma WithoutLone(c: Commit, n: nat)
    requires n < |Chain(c)|
    ensures Without(Chain(c)[n..n + 1], {Chain(c)[n]}) == []
            && Without(Chain(c)[n + 1..], {Chain(c)[n]}) == Chain(c)[n + 1..]
  {
    hide Select, Without, Chain;
    var h := Chain(c);
    HistoryDistinct(Some(c));
    assert h[n..n + 1] == [h[n]];
    SelectAll([h[n]], {h[n]});
    SelectNone(h[n + 1..], {h[n]});
  }

  lemma LoneSelect(c: Commit)
    ensures Select(Chain(c), {c}) == [c]
  {
    var front := History(c.Parent());
    ChainOnParents(c);
    HistoryDistinct(Some(c));
    assert Chain(c)[..|Chain(c)| - 1] == front;
    forall x | x in front ensures x !in {c} {
      var i :| 0 <= i < |front| && front[i] == x;
      assert Chain(c)[i] == x && Chain(c)[|front|] == c;
    }
    SelectNone(front, {c});
  }

  lemma EditStacked(c: Commit, n: nat, edited: Commit)
    requires n < |Chain(c)| && edited.parents == Chain(c)[n].parents && edited.tree == Chain(c)[n].tree
    ensures Stacked(Top(Chain(c)[..n]), [edited] + Chain(c)[n + 1..])
  {
    var h := Chain(c);
    var head, todo := Top(h[..n]), [edited] + h[n + 1..];
    forall i | 0 <= i < |todo| ensures TreeOf(todo[i].Parent()) == TreeOf(TopOr(head, todo[..i])) {
      HistoryParent(Some(c), n + i);
      if i > 0 {
        assert todo[i] == h[n + i] && h[n + i].Parent() == Some(h[n + i - 1]);
        assert todo[..i][i - 1] == todo[i - 1];
      }
    }
  }

  /** Replaying an edited commit and what is above it: the trees are those of before. */
  lemma EditedReplay(ctx: Ctx, c: Commit, n: nat, edited: Commit)
    requires n < |Chain(c)| && edited.parents == Chain(c)[n].parents && edited.tree == Chain(c)[n].tree
    ensures var h := Chain(c); var head, todo := Top(h[..n]), [edited] + h[n + 1..];
            && Replay(ctx, Theirs, head, todo).Ok?
            && var images := Replay(ctx, Theirs, head, todo).value;
            && History(TopOr(head, images)) == h[..n] + images
            && Represents(h[..n] + images, h[n := edited])
            && forall i :: 0 <= i < |h| ==> (h[..n] + images)[i].tree == h[i].tree
  {
    hide Chain, Replay, Stacked, Represents;
    var h := Chain(c);
    var head, todo := Top(h[..n]), [edited] + h[n + 1..];
    EditStacked(c, n, edited);
    ReplayStacked(ctx, Theirs, head, todo);
    HistoryParent(Some(c), n);
    HistoryPrefix(Some(c), n);
    assert !MakesMergeRoot(head, todo);
    ReplayHistory(ctx, Theirs, head, todo);
    ReplayRepresents(ctx, Theirs, head, todo);
    var images := Replay(ctx, Theirs, head, todo).value;
    RepresentsAbove(h[..n], images, todo);
    assert h[n := edited] == h[..n] + todo;
  }

  lemma EditedBranchOf(ctx: Ctx, c: Commit, orig: Commit, edited: Commit)
    requires Editing(c, orig, edited).Valid() && orig in Chain(c)
    requires edited.parents == orig.parents && edited.tree == orig.tree
    ensures var h := Chain(c); var n := CountBefore(h, {orig});
            && n < |h| && h[n] == orig
            && AddRemove(ctx, Theirs, Editing(c, orig, edited)).Ok?
            && var r := AddRemove(ctx, Theirs, Editing(c, orig, edited)).value;
            && var h' := History(r.commit);
            && |h'| == |h|
            && Reuses(h', h, n)
            && Represents(h', h[n := edited])
            && (forall i :: 0 <= i < |h| ==> h'[i].tree == h[i].tree)
            && r.added == {h'[n]}
  {
    hide Chain, Replay, Represents, CountBefore, History, Select, Without, Reuses;
    EditingParts(c, orig, edited);
    var h, rw := Chain(c), Editing(c, orig, edited);
    var n := CountBefore(h, {orig});
    EditedReplay(ctx, c, n, edited);
    var images := Replay(ctx, Theirs, rw.Base(), rw.Todo()).value;
    assert AddRemove(ctx, Theirs, rw) == Ok(rw.Result(images));
    ImagesAbove(h, n, images);
  }

  lemma ImagesAbove(h: seq<Commit>, n: nat, images: seq<Commit>)
    requires n < |h| && |images| == |h| - n
    ensures var h' := h[..n] + images;
            |h'| == |h| && Reuses(h', h, n) && h'[n] == images[0] && Elements(images[0..1]) == {h'[n]}
  {
    var h' := h[..n] + images;
    assert images[0..1] == [images[0]];
    assert h'[..n] == h[..n];
  }

  lemma EditFacts(ctx: Ctx, op: Op, edited: CommitMessage.Message, before: Refs, after: Refs, r: Outcome)
    requires op.kind == Edit && op.Valid() && EditSpec(ctx, op, edited, before, after, r) && r.Done?
    ensures op.src.ref.Some? && op.src.ref.value in after && Lone(op.commits) in Chain(op.src.commit)
    ensures var rw := Editing(op.src.commit, Lone(op.commits), EditedCommit(Lone(op.commits), edited));
            && rw.Valid() && AddRemove(ctx, Theirs, rw).Ok?
            && AddRemove(ctx, Theirs, rw).value.commit == Some(after[op.src.ref.value])
            && AddRemove(ctx, Theirs, rw).value.added == r.result.src.selection
  {
    hide AddRemove, Chain, EditedCommit;
    var orig := Lone(op.commits);
    assert orig in op.commits;
    EditingValid(op.src.commit, orig, EditedCommit(orig, edited));
  }

  /** An edit changes one commit and nothing else: the branch keeps its length and order, the commits below are the same
      ones, every commit keeps its tree, and only the edited one changes its author, committer and message. */
  lemma EditedBranch(ctx: Ctx, op: Op, edited: CommitMessage.Message, before: Refs, after: Refs, r: Outcome)
    requires op.kind == Edit && op.Valid() && EditSpec(ctx, op, edited, before, after, r) && r.Done?
    ensures var h := Chain(op.src.commit);
            var n := CountBefore(h, op.commits);
            && op.src.ref.Some? && op.src.ref.value in after
            && n < |h| && op.commits == {h[n]}
            && var h' := Chain(after[op.src.ref.value]);
            && |h'| == |h|
            && Reuses(h', h, n)
            && Represents(h', h[n := EditedCommit(h[n], edited)])
            && (forall i :: 0 <= i < |h| ==> h'[i].tree == h[i].tree)
            && r.result.src.selection == {h'[n]}
  {
    hide EditSpec, AddRemove, Chain, CountBefore, Represents, Replay, EditedCommit, Reuses, Editing;
    var c, orig := op.src.commit, Lone(op.commits);
    EditFacts(ctx, op, edited, before, after, r);
    EditedKeeps(orig, edited);
    EditedBranchOf(ctx, c, orig, EditedCommit(orig, edited));
  }

  /** An edit never meets a conflict: unless the text is as it was, it is carried out. */
  lemma EditFinishes(ctx: Ctx, op: Op, edited: CommitMessage.Message, before: Refs, after: Refs, r: Outcome)
    requires op.kind == Edit && op.Valid() && EditSpec(ctx, op, edited, before, after, r)
    requires op.src.ref.Some? && edited != OriginalMessage(Lone(op.commits))
    ensures r.Done?
  {
    hide AddRemove, Chain, CountBefore, Represents, Replay, EditedCommit, Reuses, OriginalMessage;
    var orig := Lone(op.commits);
    EditingValid(op.src.commit, orig, EditedCommit(orig, edited));
    EditedKeeps(orig, edited);
    EditedBranchOf(ctx, op.src.commit, orig, EditedCommit(orig, edited));
  }

  lemma EditedKeeps(orig: Commit, edited: CommitMessage.Message)
    ensures var x := EditedCommit(orig, edited);
            && x.tree == orig.tree && x.parents == orig.parents && x.headers == ""
            && x.meta.encoding == orig.meta.encoding
            && (edited.message == "" ==> x.meta.message == orig.meta.message)
            && (edited.message != "" ==> x.meta.message == AsRead(edited.message))
            && x.meta.committer == x.meta.author == EditedSignature(orig.meta.author, edited)
  {
    ReadAgain(orig.meta.message);
  }

  lemma ReadAgain(m: MessageText)
    ensures AsRead(m) == m
  {
  }

  /** What the editor's text says is what the edited commit says: the parser leaves no newline in front of a message. */
  lemma EditedAsParsed(orig: Commit, text: string)
    ensures var edited := CommitMessage.MessageFromLines(Strings.Split(text));
            edited.message != "" ==> EditedCommit(orig, edited).meta.message == edited.message
  {
    hide CommitMessage.MessageFromLines, Strings.Split;
    Strings.SplitLines(text);
    CommitMessage.ParsedIsPlain(Strings.Split(text));
    var edited := CommitMessage.MessageFromLines(Strings.Split(text));
    PlainAsRead(edited.message);
    EditedKeeps(orig, edited);
  }

  lemma PlainAsRead(m: string)
    requires CommitMessage.PlainText(m)
    ensures AsRead(m) == m
  {
    if m != "" && m[0] == '\n' {
      assert Strings.Split(m)[0] == "";
      assert false;
    }
  }
}
