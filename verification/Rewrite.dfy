/** The loops of the history-rewriting engine that walk a branch from its head, and what each of them computes. */
module Rewrite {
  import opened Wrappers
  import opened Commits
  import opened Selections

  /** The selected commits at or below the point the walk has reached. */
  function Below(chain: seq<Commit>, k: nat, commits: set<Commit>): set<Commit>
    requires k <= |chain|
  {
    set c | c in commits && c in chain[..k]
  }

  /** One step down the chain, from position `k` to position `k - 1`. */
  lemma WalkStep(head: Option<Commit>, k: nat, commits: set<Commit>)
    requires 0 < k <= |History(head)|
    ensures var h := History(head);
            && Top(h[..k]) == Some(h[k - 1])
            && h[k - 1].Parent() == Top(h[..k - 1])
            && Below(h, k - 1, commits) == Below(h, k, commits) - {h[k - 1]}
            && (h[k - 1] in Below(h, k, commits) <==> h[k - 1] in commits)
  {
    var h := History(head);
    HistoryParent(head, k - 1);
    HistoryDistinct(head);
    assert h[..k] == h[..k - 1] + [h[k - 1]];
  }

  lemma SelectStep(chain: seq<Commit>, k: nat, hi: nat, commits: set<Commit>)
    requires 0 < k <= hi <= |chain|
    ensures Select(chain[k - 1..hi], commits) ==
            (if chain[k - 1] in commits then [chain[k - 1]] else []) + Select(chain[k..hi], commits)
    ensures Without(chain[k - 1..hi], commits) ==
            (if chain[k - 1] in commits then [] else [chain[k - 1]]) + Without(chain[k..hi], commits)
  {
    assert chain[k - 1..hi] == [chain[k - 1]] + chain[k..hi];
    SelectConcat([chain[k - 1]], chain[k..hi], commits);
    if chain[k - 1] in commits {
      SelectAll([chain[k - 1]], commits);
    } else {
      SelectNone([chain[k - 1]], commits);
    }
  }

  /** Nothing is selected below a point at which no selected commit remains. */
  lemma NothingBelow(chain: seq<Commit>, k: nat, commits: set<Commit>)
    requires k <= |chain| && Below(chain, k, commits) == {}
    ensures Select(chain, commits) == Select(chain[k..], commits)
  {
    assert chain == chain[..k] + chain[k..];
    SelectConcat(chain[..k], chain[k..], commits);
    forall x | x in chain[..k] ensures x !in commits {
      assert x !in Below(chain, k, commits);
    }
    SelectNone(chain[..k], commits);
  }

  lemma NoneBelow(chain: seq<Commit>, k: nat, commits: set<Commit>)
    requires k <= |chain| && Below(chain, k, commits) == {}
    ensures forall i :: 0 <= i < k ==> chain[i] !in commits
  {
    forall i | 0 <= i < k ensures chain[i] !in commits {
      assert chain[..k][i] == chain[i];
      assert chain[i] !in Below(chain, k, commits);
    }
  }

  function Reversed<T>(s: seq<T>): (r: seq<T>)
    ensures |r| == |s|
  {
    if s == [] then [] else [s[|s| - 1]] + Reversed(s[..|s| - 1])
  }

  lemma ReversedMore<T>(s: seq<T>, x: T)
    ensures Reversed(s + [x]) == [x] + Reversed(s)
  {
    assert (s + [x])[..|s|] == s;
  }

  lemma SortedStart(head: Option<Commit>, commits: set<Commit>)
    requires commits <= Elements(History(head))
    ensures var h := History(head);
            head == Top(h) && Below(h, |h|, commits) == commits && Select(h[|h|..], commits) == []
    ensures Reversed<Commit>([]) == []
  {
    var h := History(head);
    assert h[..|h|] == h;
  }

  lemma SomeBelow(chain: seq<Commit>, k: nat, commits: set<Commit>)
    requires k <= |chain| && Below(chain, k, commits) != {}
    ensures k > 0
  {
  }

  /** Lists `commits` in the order of the chain of `head`. */
  method Sorted(head: Option<Commit>, commits: set<Commit>) returns (sorted: seq<Commit>)
    requires commits <= Elements(History(head))
    ensures sorted == Select(History(head), commits)
  {
    hide Select, Below, Reversed, Elements, Chain;
    var found: seq<Commit> := [];
    var rem := commits;
    var c := head;
    ghost var chain := History(head);
    ghost var k: nat := |chain|;
    assert chain[..k] == chain;
    SortedStart(head, commits);
    while rem != {}
      invariant k <= |chain| && c == Top(chain[..k])
      invariant rem == Below(chain, k, commits)
      invariant Reversed(found) == Select(chain[k..], commits)
      decreases k
    {
      SomeBelow(chain, k, commits);
      WalkStep(head, k, commits);
      SelectStep(chain, k, |chain|, commits);
      assert chain[k..|chain|] == chain[k..] && chain[k - 1..|chain|] == chain[k - 1..];
      ReversedMore(found, chain[k - 1]);
      if c.value in rem {
        rem := rem - {c.value};
        found := found + [c.value];
      }
      c := c.value.Parent();
      k := k - 1;
    }
    NothingBelow(chain, k, commits);
    sorted := Reversed(found);
  }

  /** Finds the selected commit that is lowest in the chain: all others lie above it. */
  method FindEarliestCommit(head: Option<Commit>, commits: set<Commit>) returns (earliest: Commit)
    requires commits != {} && commits <= Elements(History(head))
    ensures var h := History(head); CountBefore(h, commits) < |h| && earliest == h[CountBefore(h, commits)]
  {
    hide Select, Below, Elements, Chain, CountBefore;
    var rem := commits;
    var c := head;
    ghost var chain := History(head);
    ghost var k: nat := |chain|;
    assert chain[..k] == chain;
    SortedStart(head, commits);
    while |rem| > 1
      invariant k <= |chain| && c == Top(chain[..k])
      invariant rem == Below(chain, k, commits) && rem != {}
      decreases k
    {
      SomeBelow(chain, k, commits);
      WalkStep(head, k, commits);
      assert |rem - {c.value}| >= |rem| - 1;
      rem := rem - {c.value};
      c := c.value.Parent();
      k := k - 1;
    }
    earliest :| earliest in rem;
    assert rem == {earliest} by {
      assert |rem - {earliest}| == 0;
    }
    LoneCommitIsLowest(chain, k, commits, earliest);
  }

  lemma LoneCommitIsLowest(chain: seq<Commit>, k: nat, commits: set<Commit>, c: Commit)
    requires k <= |chain| && Below(chain, k, commits) == {c}
    ensures CountBefore(chain, commits) < |chain| && c == chain[CountBefore(chain, commits)]
  {
    assert c in Below(chain, k, commits);
    var i :| 0 <= i < k && chain[..k][i] == c;
    var n := CountBefore(chain, commits);
    assert chain[i] in commits;
    assert chain[..k][n] == chain[n];
    assert chain[n] in Below(chain, k, commits);
  }

  lemma GapFound(chain: seq<Commit>, k: nat, commits: set<Commit>)
    requires 0 < k < |chain| && chain[k] in commits && chain[k - 1] !in commits
    requires Below(chain, k, commits) != {}
    ensures HasGap(chain, commits)
  {
    var x :| x in Below(chain, k, commits);
    var lo :| 0 <= lo < k && chain[..k][lo] == x;
    assert chain[lo] in commits;
  }

  /** Whether some commit that is not selected lies between selected ones. */
  method CommitsHasGap(head: Option<Commit>, commits: set<Commit>) returns (gap: bool)
    requires commits <= Elements(History(head))
    ensures gap <==> HasGap(History(head), commits)
  {
    var h := head;
    var rem := commits;
    var started := false;
    ghost var chain := History(head);
    ghost var k: nat, hi := |chain|, |chain|;
    assert chain[..k] == chain;
    while h.Some? && rem != {}
      invariant k <= hi <= |chain| && h == Top(chain[..k])
      invariant rem == Below(chain, k, commits)
      invariant started <==> k < hi
      invariant forall i :: k <= i < |chain| ==> (chain[i] in commits <==> i < hi)
      decreases k
    {
      WalkStep(head, k, commits);
      var found := h.value in rem;
      if started && !found {
        GapFound(chain, k, commits);
        return true;
      }
      rem := rem - {h.value};
      started := started || found;
      h := h.value.Parent();
      k := k - 1;
      if !started { hi := k; }
    }
    NoneBelow(chain, k, commits);
    BlockHasNoGap(chain, commits, k, hi);
    gap := false;
  }

  /** Whether adding `commits` right after `position` would put them where they already are. */
  method InsertionIsNop(head: Option<Commit>, position: Option<Commit>, commits: set<Commit>) returns (nop: bool)
    requires commits != {} && commits <= Elements(History(head))
    ensures var h := History(head);
            nop <==> (position.Some? && position.value in commits) || position == Top(h[..CountBefore(h, commits)])
  {
    var tail := FindEarliestCommit(head, commits);
    ghost var chain := History(head);
    ghost var n := CountBefore(chain, commits);
    HistoryParent(head, n);
    var positions := (set c | c in commits :: Some(c)) + {tail.Parent()};
    nop := position in positions;
  }

  // ----- adding and removing commits -----

  datatype AddRemoveResult = AddRemoveResult(commit: Option<Commit>, added: set<Commit>)

  datatype CommitAdded = CommitAdded(commit: Commit, added: bool)

  function Tagged(s: seq<Commit>, added: bool): (r: seq<CommitAdded>)
    ensures |r| == |s| && forall i :: 0 <= i < |s| ==> r[i] == CommitAdded(s[i], added)
  {
    seq(|s|, i requires 0 <= i < |s| => CommitAdded(s[i], added))
  }

  function Untagged(s: seq<CommitAdded>): (r: seq<Commit>)
    ensures |r| == |s| && forall i :: 0 <= i < |s| ==> r[i] == s[i].commit
  {
    seq(|s|, i requires 0 <= i < |s| => s[i].commit)
  }

  /** The arguments of a rewrite of the chain of `dst`. */
  datatype Rewriting = Rewriting(
    dst: Commit, add: set<Commit>, addSrc: Option<Commit>, addPosition: Option<Commit>, remove: set<Commit>)
  {
    /** What the walk asserts or dereferences: every commit it looks for is in the chain it looks in. */
    predicate Valid() {
      && add <= Elements(History(addSrc))
      && remove <= Elements(Chain(dst))
      && (add != {} && addPosition.Some? ==> addPosition.value in Chain(dst))
    }

    function Adds(): seq<Commit> {
      Select(History(addSrc), add)
    }

    function At(): (n: nat)
      requires Valid()
      ensures n <= |Chain(dst)|
    {
      AddLimit(Chain(dst), add != {}, addPosition)
    }

    /** How many of the oldest commits of `dst` are reused as they are. */
    function Keep(): (n: nat)
      requires Valid()
      ensures n <= At()
    {
      var removeLimit := CountBefore(Chain(dst), remove);
      if removeLimit < At() then removeLimit else At()
    }

    /** The list the rewritten branch stands for, oldest commit first. */
    function Target(): seq<Commit>
      requires Valid()
    {
      Splice(Chain(dst), Adds(), At(), remove)
    }

    /** What is replayed on top of the commits that are kept. */
    function Todo(): seq<Commit>
      requires Valid()
    {
      Without(Chain(dst)[Keep()..At()], remove) + Adds() + Without(Chain(dst)[At()..], remove)
    }

    function Base(): Option<Commit>
      requires Valid()
    {
      Top(Chain(dst)[..Keep()])
    }

    /** Where the added commits lie within `Todo`. */
    function AddedFrom(): nat
      requires Valid()
    {
      |Without(Chain(dst)[Keep()..At()], remove)|
    }

    function Result(images: seq<Commit>): AddRemoveResult
      requires Valid() && |images| == |Todo()|
    {
      AddRemoveResult(TopOr(Base(), images), Elements(images[AddedFrom()..AddedFrom() + |Adds()|]))
    }
  }

  /** The rewritten branch. */
  function AddRemove(ctx: Ctx, favor: Favor, rw: Rewriting): Result<AddRemoveResult>
    requires rw.Valid()
  {
    match Replay(ctx, favor, rw.Base(), rw.Todo())
    case Failed(why) => Failed(why)
    case Ok(images) => Ok(rw.Result(images))
  }

  lemma TargetIsKeptThenTodo(rw: Rewriting)
    requires rw.Valid()
    ensures rw.Target() == Chain(rw.dst)[..rw.Keep()] + rw.Todo()
    ensures History(rw.Base()) == Chain(rw.dst)[..rw.Keep()]
  {
    SplicePrefix(Chain(rw.dst), rw.Adds(), rw.At(), rw.remove, rw.Keep());
    HistoryPrefix(Some(rw.dst), rw.Keep());
  }

  /** What is collected once the walk has reached position `k`. */
  ghost function Combined(rw: Rewriting, k: nat): seq<CommitAdded>
    requires rw.Valid() && k <= |Chain(rw.dst)|
  {
    var h := Chain(rw.dst);
    if rw.add != {} && k <= rw.At() then
      Tagged(Without(h[k..rw.At()], rw.remove), false) + Tagged(rw.Adds(), true)
          + Tagged(Without(h[rw.At()..], rw.remove), false)
    else Tagged(Without(h[k..], rw.remove), false)
  }

  /** The part of the list above position `k` when the walk is there but has not yet looked for the position. */
  ghost function CombinedBefore(rw: Rewriting, k: nat): seq<CommitAdded>
    requires rw.Valid() && k <= |Chain(rw.dst)|
  {
    if rw.add != {} && k == rw.At() then Tagged(Without(Chain(rw.dst)[k..], rw.remove), false) else Combined(rw, k)
  }

  lemma CombinedAtPosition(rw: Rewriting)
    requires rw.Valid() && rw.add != {}
    ensures Combined(rw, rw.At()) == Tagged(rw.Adds(), true) + CombinedBefore(rw, rw.At())
  {
    var h := Chain(rw.dst);
    assert h[rw.At()..rw.At()] == [];
  }

  lemma TaggedStep(chain: seq<Commit>, k: nat, hi: nat, remove: set<Commit>)
    requires 0 < k <= hi <= |chain|
    ensures Tagged(Without(chain[k - 1..hi], remove), false) ==
            (if chain[k - 1] in remove then [] else [CommitAdded(chain[k - 1], false)])
                + Tagged(Without(chain[k..hi], remove), false)
  {
    SelectStep(chain, k, hi, remove);
  }

  lemma CombinedStep(rw: Rewriting, k: nat)
    requires rw.Valid() && 0 < k <= |Chain(rw.dst)|
    ensures CombinedBefore(rw, k - 1) ==
            (if Chain(rw.dst)[k - 1] in rw.remove then [] else [CommitAdded(Chain(rw.dst)[k - 1], false)])
                + Combined(rw, k)
  {
    var h := Chain(rw.dst);
    if rw.add != {} && k <= rw.At() {
      CombinedStepBelow(rw, k);
    } else {
      TaggedStep(h, k, |h|, rw.remove);
      assert h[k - 1..|h|] == h[k - 1..] && h[k..|h|] == h[k..];
    }
  }

  lemma CombinedStepBelow(rw: Rewriting, k: nat)
    requires rw.Valid() && rw.add != {} && 0 < k <= rw.At()
    ensures Combined(rw, k - 1) ==
            (if Chain(rw.dst)[k - 1] in rw.remove then [] else [CommitAdded(Chain(rw.dst)[k - 1], false)])
                + Combined(rw, k)
  {
    var h := Chain(rw.dst);
    TaggedStep(h, k, rw.At(), rw.remove);
    var x := if h[k - 1] in rw.remove then [] else [CommitAdded(h[k - 1], false)];
    var low, low' := Tagged(Without(h[k - 1..rw.At()], rw.remove), false),
        Tagged(Without(h[k..rw.At()], rw.remove), false);
    var adds, high := Tagged(rw.Adds(), true), Tagged(Without(h[rw.At()..], rw.remove), false);
    Associate(x, low', adds, high);
    assert low == x + low';
  }

  lemma Associate<T>(a: seq<T>, b: seq<T>, c: seq<T>, d: seq<T>)
    ensures a + b + c + d == a + (b + c + d)
  {
  }

  lemma AddPoint(rw: Rewriting, k: nat)
    requires rw.Valid() && rw.add != {} && k <= |Chain(rw.dst)|
    ensures Top(Chain(rw.dst)[..k]) == rw.addPosition <==> k == rw.At()
  {
    HistoryDistinct(Some(rw.dst));
    assert Some(rw.dst).value == rw.dst;
  }

  lemma AddingIffNonempty(rw: Rewriting)
    requires rw.Valid()
    ensures rw.Adds() != [] <==> rw.add != {}
  {
    SelectElements(History(rw.addSrc), rw.add);
    if rw.add != {} {
      var c :| c in rw.add;
      assert c in rw.Adds();
    } else {
      SelectNone(History(rw.addSrc), rw.add);
    }
  }

  /** The walk stops exactly where the kept commits begin. */
  lemma StopPoint(rw: Rewriting, k: nat)
    requires rw.Valid() && rw.Keep() <= k <= |Chain(rw.dst)|
    ensures Below(Chain(rw.dst), k, rw.remove) == {} && k <= rw.At() <==> k == rw.Keep()
  {
    var h := Chain(rw.dst);
    var n := CountBefore(h, rw.remove);
    if k <= n {
      forall x | x in h[..k] ensures x !in rw.remove {
        var i :| 0 <= i < k && h[..k][i] == x;
        assert h[i] !in rw.remove;
      }
    } else {
      assert h[..k][n] in Below(h, k, rw.remove);
    }
  }

  lemma CombinedIsTodo(rw: Rewriting)
    requires rw.Valid()
    ensures Untagged(Combined(rw, rw.Keep())) == rw.Todo()
    ensures forall i :: 0 <= i < |rw.Todo()| ==>
              (Combined(rw, rw.Keep())[i].added <==> rw.AddedFrom() <= i < rw.AddedFrom() + |rw.Adds()|)
  {
    hide *;
    var a, b, c := ThreeParts(rw);
    if rw.add == {} {
      TaggedNone(a);
      assert a + [] + [] == a;
    } else {
      TaggedParts(a, b, c);
    }
  }

  lemma ThreeParts(rw: Rewriting) returns (a: seq<Commit>, b: seq<Commit>, c: seq<Commit>)
    requires rw.Valid()
    ensures rw.Todo() == a + b + c && rw.AddedFrom() == |a| && rw.Adds() == b
    ensures rw.add == {} ==> b == [] && c == [] && Combined(rw, rw.Keep()) == Tagged(a, false)
    ensures rw.add != {} ==>
              Combined(rw, rw.Keep()) == Tagged(a, false) + Tagged(b, true) + Tagged(c, false)
  {
    AddingIffNonempty(rw);
    hide Select, Without, Chain, CountBefore, Tagged, Elements;
    var h := Chain(rw.dst);
    a, b, c := Without(h[rw.Keep()..rw.At()], rw.remove), rw.Adds(), Without(h[rw.At()..], rw.remove);
    if rw.add == {} {
      assert rw.At() == |h|;
      assert h[rw.Keep()..rw.At()] == h[rw.Keep()..] && h[rw.At()..] == [];
      WithoutEmpty(rw.remove);
    }
  }

  lemma TaggedParts(a: seq<Commit>, b: seq<Commit>, c: seq<Commit>)
    ensures var t := Tagged(a, false) + Tagged(b, true) + Tagged(c, false);
            && Untagged(t) == a + b + c
            && forall i :: 0 <= i < |t| ==> (t[i].added <==> |a| <= i < |a| + |b|)
  {
  }

  lemma TaggedNone(a: seq<Commit>)
    ensures Untagged(Tagged(a, false)) == a && forall i :: 0 <= i < |a| ==> !Tagged(a, false)[i].added
  {
  }

  lemma WithoutEmpty(remove: set<Commit>)
    ensures Without<Commit>([], remove) == []
  {
  }

  /** The images of the commits that are flagged as added. */
  ghost function AddedImages(combined: seq<CommitAdded>, images: seq<Commit>): set<Commit>
    requires |images| <= |combined|
  {
    set i | 0 <= i < |images| && combined[i].added :: images[i]
  }

  lemma AddedStep(combined: seq<CommitAdded>, images: seq<Commit>, image: Commit)
    requires |images| < |combined|
    ensures AddedImages(combined, images + [image]) ==
            AddedImages(combined, images) + (if combined[|images|].added then {image} else {})
  {
    var all := images + [image];
    forall x | x in AddedImages(combined, images) ensures x in AddedImages(combined, all) {
      var i :| 0 <= i < |images| && combined[i].added && images[i] == x;
      assert all[i] == x;
    }
    if combined[|images|].added {
      assert all[|images|] == image;
    }
  }

  lemma AddedSlice(combined: seq<CommitAdded>, images: seq<Commit>, lo: nat, hi: nat)
    requires lo <= hi <= |images| == |combined|
    requires forall i :: 0 <= i < |combined| ==> (combined[i].added <==> lo <= i < hi)
    ensures AddedImages(combined, images) == Elements(images[lo..hi])
  {
    forall x | x in images[lo..hi] ensures x in AddedImages(combined, images) {
      var i :| 0 <= i < hi - lo && images[lo..hi][i] == x;
      assert images[lo + i] == x && combined[lo + i].added;
    }
    forall x | x in AddedImages(combined, images) ensures x in images[lo..hi] {
      var i :| 0 <= i < |images| && combined[i].added && images[i] == x;
      assert images[lo..hi][i - lo] == x;
    }
  }

  lemma AddedIsAdds(rw: Rewriting, images: seq<Commit>)
    requires rw.Valid() && |images| == |rw.Todo()| == |Combined(rw, rw.Keep())|
    ensures AddedImages(Combined(rw, rw.Keep()), images) == rw.Result(images).added
  {
    hide Combined, Select, Without, Replay, AddedImages, Elements;
    CombinedIsTodo(rw);
    AddedSlice(Combined(rw, rw.Keep()), images, rw.AddedFrom(), rw.AddedFrom() + |rw.Adds()|);
  }

  lemma ReplayStep(ctx: Ctx, favor: Favor, head: Option<Commit>, todo: seq<Commit>, i: nat)
    requires i < |todo|
    ensures Replay(ctx, favor, head, todo[..i]).Ok? ==>
              var images := Replay(ctx, favor, head, todo[..i]).value;
              match ParentSet(ctx, favor, todo[i], TopOr(head, images))
              case Failed(why) => Replay(ctx, favor, head, todo[..i + 1]) == Failed(why)
              case Ok(c) => Replay(ctx, favor, head, todo[..i + 1]) == Ok(images + [c])
  {
    assert todo[..i + 1][..i] == todo[..i];
  }

  /** Once a commit could not be replayed, nothing further is. */
  lemma {:induction false} ReplayFailed(ctx: Ctx, favor: Favor, head: Option<Commit>, todo: seq<Commit>, i: nat)
    requires i <= |todo| && Replay(ctx, favor, head, todo[..i]).Failed?
    ensures Replay(ctx, favor, head, todo) == Replay(ctx, favor, head, todo[..i])
    decreases |todo| - i
  {
    if i < |todo| {
      assert todo[..i + 1][..i] == todo[..i];
      ReplayFailed(ctx, favor, head, todo, i + 1);
    } else {
      assert todo[..i] == todo;
    }
  }

  lemma CollectStart(rw: Rewriting)
    requires rw.Valid()
    ensures var h := Chain(rw.dst);
            && Some(rw.dst) == Top(h[..|h|])
            && rw.remove == Below(h, |h|, rw.remove)
            && CombinedBefore(rw, |h|) == []
            && (rw.Adds() != [] <==> rw.add != {})
  {
    var h := Chain(rw.dst);
    assert h[..|h|] == h && h[|h|..] == [];
    AddingIffNonempty(rw);
  }

  /** What the loop does when it reaches position `k`, and whether it stops there. */
  lemma Arrive(rw: Rewriting, k: nat)
    requires rw.Valid() && rw.Keep() <= k <= |Chain(rw.dst)|
    ensures Below(Chain(rw.dst), k, rw.remove) == {} && k <= rw.At() <==> k == rw.Keep()
    ensures if rw.add != {} && Top(Chain(rw.dst)[..k]) == rw.addPosition
            then k == rw.At() && Combined(rw, k) == Tagged(rw.Adds(), true) + CombinedBefore(rw, k)
            else (rw.add != {} ==> k != rw.At()) && Combined(rw, k) == CombinedBefore(rw, k)
  {
    StopPoint(rw, k);
    if rw.add != {} {
      AddPoint(rw, k);
      CombinedAtPosition(rw);
    }
  }

  /** Everything the loop needs to know about its step down from position `k`. */
  lemma Descend(rw: Rewriting, k: nat)
    requires rw.Valid() && rw.Keep() < k <= |Chain(rw.dst)|
    ensures var h := Chain(rw.dst); var c := h[k - 1];
            && Top(h[..k]) == Some(c)
            && c.Parent() == Top(h[..k - 1])
            && Below(h, k - 1, rw.remove) == Below(h, k, rw.remove) - {c}
            && if c in Below(h, k, rw.remove) then CombinedBefore(rw, k - 1) == Combined(rw, k)
               else && CombinedBefore(rw, k - 1) == [CommitAdded(c, false)] + Combined(rw, k)
                    && Below(h, k - 1, rw.remove) == Below(h, k, rw.remove)
  {
    WalkStep(Some(rw.dst), k, rw.remove);
    CombinedStep(rw, k);
  }

  /** Walks down from `dst` to the newest commit that can be reused, collecting what must be replayed on top of it. */
  method Collect(rw: Rewriting) returns (combined: seq<CommitAdded>, head: Option<Commit>)
    requires rw.Valid()
    ensures combined == Combined(rw, rw.Keep()) && head == rw.Base()
  {
    hide Combined, CombinedBefore, Below, Chain, Select, Elements;
    var addv := Sorted(rw.addSrc, rw.add);
    var adding := addv != [];
    combined := [];
    var rem := rw.remove;
    head := Some(rw.dst);
    var foundAddPoint := false;
    ghost var k: nat := |Chain(rw.dst)|;
    CollectStart(rw);
    while true
      invariant k <= |Chain(rw.dst)| && rw.Keep() <= k
      invariant adding <==> rw.add != {}
      invariant head == Top(Chain(rw.dst)[..k])
      invariant rem == Below(Chain(rw.dst), k, rw.remove)
      invariant foundAddPoint <==> adding && k < rw.At()
      invariant combined == CombinedBefore(rw, k)
      decreases k
    {
      Arrive(rw, k);
      if adding && head == rw.addPosition {
        combined := Tagged(addv, true) + combined;
        foundAddPoint := true;
      }
      if rem == {} && (!adding || foundAddPoint) {
        break;
      }
      Descend(rw, k);
      if head.value in rem {
        rem := rem - {head.value};
      } else {
        combined := [CommitAdded(head.value, false)] + combined;
      }
      head := head.value.Parent();
      k := k - 1;
    }
  }

  /** One turn of the replay loop: image `i` extends the images before it, or the whole replay fails. */
  lemma ReplayTurn(ctx: Ctx, favor: Favor, rw: Rewriting, combined: seq<CommitAdded>, images: seq<Commit>, i: nat)
    requires rw.Valid() && combined == Combined(rw, rw.Keep()) && i < |combined| && |images| == i
    requires |combined| == |rw.Todo()| && Replay(ctx, favor, rw.Base(), rw.Todo()[..i]) == Ok(images)
    ensures match ParentSet(ctx, favor, combined[i].commit, TopOr(rw.Base(), images))
            case Failed(why) => AddRemove(ctx, favor, rw) == Failed(why)
            case Ok(c) =>
              && Replay(ctx, favor, rw.Base(), rw.Todo()[..i + 1]) == Ok(images + [c])
              && TopOr(rw.Base(), images + [c]) == Some(c)
              && if combined[i].added then AddedImages(combined, images + [c]) == AddedImages(combined, images) + {c}
                 else AddedImages(combined, images + [c]) == AddedImages(combined, images)
  {
    hide Combined, AddedImages, Replay, ParentSet, AddRemove;
    CombinedCommit(rw, i);
    ReplayStep(ctx, favor, rw.Base(), rw.Todo(), i);
    match ParentSet(ctx, favor, combined[i].commit, TopOr(rw.Base(), images)) {
      case Failed(why) => FailedTurn(ctx, favor, rw, i + 1, why);
      case Ok(c) => AddedStep(combined, images, c);
    }
  }

  lemma CombinedCommit(rw: Rewriting, i: nat)
    requires rw.Valid() && i < |Combined(rw, rw.Keep())|
    ensures i < |rw.Todo()| && Combined(rw, rw.Keep())[i].commit == rw.Todo()[i]
  {
    hide Combined;
    CombinedIsTodo(rw);
  }

  lemma FailedTurn(ctx: Ctx, favor: Favor, rw: Rewriting, i: nat, why: Stop)
    requires rw.Valid() && i <= |rw.Todo()| && Replay(ctx, favor, rw.Base(), rw.Todo()[..i]) == Failed(why)
    ensures AddRemove(ctx, favor, rw) == Failed(why)
  {
    hide Replay;
    ReplayFailed(ctx, favor, rw.Base(), rw.Todo(), i);
  }

  lemma ReplayEnd(ctx: Ctx, favor: Favor, rw: Rewriting, images: seq<Commit>)
    requires rw.Valid() && |images| == |rw.Todo()| == |Combined(rw, rw.Keep())|
    requires Replay(ctx, favor, rw.Base(), rw.Todo()[..|images|]) == Ok(images)
    ensures AddRemove(ctx, favor, rw) ==
            Ok(AddRemoveResult(TopOr(rw.Base(), images), AddedImages(Combined(rw, rw.Keep()), images)))
  {
    assert rw.Todo()[..|images|] == rw.Todo();
    AddedIsAdds(rw, images);
  }

  /** Rewrites the branch of `dst`: removes commits from it and adds commits to it. */
  method AddRemoveCommits(ctx: Ctx, favor: Favor, rw: Rewriting) returns (r: Result<AddRemoveResult>)
    requires rw.Valid()
    ensures r == AddRemove(ctx, favor, rw)
  {
    var combined, head := Collect(rw);
    assert |combined| == |rw.Todo()| by { CombinedIsTodo(rw); }
    var added: set<Commit> := {};
    ghost var images: seq<Commit> := [];
    for i := 0 to |combined|
      invariant |images| == i
      invariant Replay(ctx, favor, rw.Base(), rw.Todo()[..i]) == Ok(images)
      invariant head == TopOr(rw.Base(), images)
      invariant added == AddedImages(combined, images)
    {
      ReplayTurn(ctx, favor, rw, combined, images, i);
      var image := ParentSet(ctx, favor, combined[i].commit, head);
      if image.Failed? {
        return Failed(image.why);
      }
      head := Some(image.value);
      images := images + [image.value];
      if combined[i].added {
        added := added + {image.value};
      }
    }
    ReplayEnd(ctx, favor, rw, images);
    r := Ok(AddRemoveResult(head, added));
  }
}
