/** What applying a patch comes to, when the patch is one for the text it is applied to. */
module ApplyLaws {
  import opened Wrappers
  import opened TextLines
  import opened PatchImages
  import opened Apply

  /** What a hunk is about: the lines between the hunk before it and this one, the lines it finds, and those
      it leaves. */
  datatype Section = Section(gap: seq<string>, pre: seq<string>, post: seq<string>)

  /** The first `k` sections, with the accepted hunks applied. */
  function Chosen(secs: seq<Section>, answers: seq<int>, k: nat): seq<string>
    requires k <= |secs| == |answers|
  {
    if k == 0 then [] else
      var s := secs[k - 1];
      Chosen(secs, answers, k - 1) + s.gap + (if answers[k - 1] == 0 then s.post else s.pre)
  }

  /** The old text from section `k` on. */
  function Rest(secs: seq<Section>, tail: seq<string>, k: nat): seq<string>
    requires k <= |secs|
    decreases |secs| - k
  {
    if k == |secs| then tail else secs[k].gap + secs[k].pre + Rest(secs, tail, k + 1)
  }

  /** How many lines of the new text there are in the first `k` sections. */
  function NewLines(secs: seq<Section>, k: nat): nat
    requires k <= |secs|
  {
    if k == 0 then 0 else NewLines(secs, k - 1) + |secs[k - 1].gap| + |secs[k - 1].post|
  }

  function TotalLines(secs: seq<Section>, k: nat): nat
    requires k <= |secs|
  {
    if k == 0 then 0 else TotalLines(secs, k - 1) + |secs[k - 1].gap| + |secs[k - 1].pre| + |secs[k - 1].post|
  }

  function SkippedNew(secs: seq<Section>, answers: seq<int>, k: nat): nat
    requires k <= |secs| == |answers|
  {
    if k == 0 then 0 else SkippedNew(secs, answers, k - 1) + (if answers[k - 1] == 0 then 0 else |secs[k - 1].post|)
  }

  function SkippedOld(secs: seq<Section>, answers: seq<int>, k: nat): nat
    requires k <= |secs| == |answers|
  {
    if k == 0 then 0 else SkippedOld(secs, answers, k - 1) + (if answers[k - 1] == 0 then 0 else |secs[k - 1].pre|)
  }

  /** Hunk `k` is about section `k`: it has its lines, and a header that says how many there are and where they start in
      the new text. A hunk that leaves no lines names the line in front of it, as unified diffs do. */
  predicate DescribesHunk(patch: Patch, secs: seq<Section>, k: nat)
    requires k < |secs| == |patch.hunks|
  {
    var h, s := patch.hunks[k], secs[k];
    && patch.Has(h) && patch.Images(h) == (s.pre, s.post)
    && h.oldLines == |s.pre| && h.newLines == |s.post|
    && (k > 0 ==> s.gap != [])
    && h.newStart == NewLines(secs, k) + |s.gap| + (if s.post != [] then 1 else 0)
  }

  /** The patch is one for the text: the text is the gaps and preimages of its hunks. */
  ghost predicate Describes(patch: Patch, secs: seq<Section>, tail: seq<string>, source: string) {
    && |patch.hunks| == |secs|
    && LinesOf(source) == Rest(secs, tail, 0)
    && TotalLines(secs, |secs|) < SIZE_RANGE
    && forall k :: 0 <= k < |secs| ==> DescribesHunk(patch, secs, k)
  }

  /** Whether a hunk applies. One that only deletes is tried one line too early, unless it is at the very start. */
  predicate Lands(s: Section) {
    s.post != [] || s.gap == [] || forall x :: x in s.pre ==> x == s.gap[|s.gap| - 1]
  }

  lemma {:induction false} ChosenLength(secs: seq<Section>, answers: seq<int>, k: nat)
    requires k <= |secs| == |answers|
    ensures |Chosen(secs, answers, k)|
            == NewLines(secs, k) - SkippedNew(secs, answers, k) + SkippedOld(secs, answers, k)
    ensures |Chosen(secs, answers, k)| <= TotalLines(secs, k)
  {
    if k > 0 {
      ChosenLength(secs, answers, k - 1);
    }
  }

  lemma {:induction false} TotalGrows(secs: seq<Section>, k: nat, n: nat)
    requires k <= n <= |secs|
    ensures TotalLines(secs, k) <= TotalLines(secs, n)
  {
    if k < n {
      TotalGrows(secs, k, n - 1);
    }
  }

  lemma MatchThere(a: seq<string>, pre: seq<string>, post: seq<string>, rest: seq<string>)
    ensures Matches(a + pre + rest, pre, |a|) && Updated(a + pre + rest, pre, post, |a|) == a + post + rest
  {
  }

  /** Looking one line too early finds the deleted lines exactly when they are all the same as the line in front of
      them, and then deleting them there comes to the same. */
  lemma MatchEarly(a: seq<string>, pre: seq<string>, rest: seq<string>)
    requires a != []
    ensures var image, at := a + pre + rest, |a| - 1;
            && (Matches(image, pre, at) <==> forall x :: x in pre ==> x == a[|a| - 1])
            && (Matches(image, pre, at) ==> Updated(image, pre, [], at) == a + rest)
  {
    var image, at, x := a + pre + rest, |a| - 1, a[|a| - 1];
    if Matches(image, pre, at) {
      AllTheSame(image, pre, at, x);
      var u := Updated(image, pre, [], at);
      assert |u| == |a + rest|;
      forall i | 0 <= i < |u| ensures u[i] == (a + rest)[i] {
        if i == at && pre != [] {
          assert image[at + |pre|] == pre[|pre| - 1] && pre[|pre| - 1] in pre;
        }
      }
    } else if forall y :: y in pre ==> y == x {
      forall i | 0 <= i < |pre| ensures image[at..at + |pre|][i] == pre[i] {
        assert pre[i] in pre;
        assert i > 0 ==> pre[i - 1] in pre;
      }
      assert false;
    }
  }

  lemma {:induction false} AllTheSame(image: seq<string>, pre: seq<string>, at: nat, x: string)
    requires Matches(image, pre, at) && image[at..] != [] && image[at] == x && at + 1 + |pre| <= |image|
    requires image[at + 1..at + 1 + |pre|] == pre
    ensures forall y :: y in pre ==> y == x
  {
    forall i | 0 <= i < |pre| ensures pre[i] == x {
      SameAt(image, pre, at, x, i);
    }
  }

  lemma {:induction false} SameAt(image: seq<string>, pre: seq<string>, at: nat, x: string, i: nat)
    requires Matches(image, pre, at) && image[at..] != [] && image[at] == x && at + 1 + |pre| <= |image|
    requires image[at + 1..at + 1 + |pre|] == pre && i < |pre|
    ensures pre[i] == x
  {
    assert image[at..at + |pre|][i] == pre[i];
    if i > 0 {
      SameAt(image, pre, at, x, i - 1);
      assert image[at + 1..at + 1 + |pre|][i - 1] == pre[i - 1];
    }
  }

  /** Where the preimage of an accepted hunk is looked for. */
  lemma LandingAt(patch: Patch, secs: seq<Section>, tail: seq<string>, source: string, answers: seq<int>, k: nat,
      image: seq<string>)
    requires Describes(patch, secs, tail, source) && k < |secs| == |answers|
    requires |image| >= |Chosen(secs, answers, k)| + |secs[k].gap|
    ensures var at := |Chosen(secs, answers, k)| + |secs[k].gap|;
            Landing(patch.hunks[k], Progress(image, SkippedNew(secs, answers, k), SkippedOld(secs, answers, k)))
            == if secs[k].post == [] && secs[k].gap != [] then at - 1 else at
  {
    hide Describes, DescribesHunk, Chosen, NewLines, SkippedNew, SkippedOld;
    HunkHeader(patch, secs, tail, source, k);
    var s, h := secs[k], patch.hunks[k];
    ChosenLength(secs, answers, k);
    TotalGrows(secs, k + 1, |secs|);
    var at := |Chosen(secs, answers, k)| + |s.gap|;
    if h.newStart > 0 {
      var n := h.newStart - SkippedNew(secs, answers, k) + SkippedOld(secs, answers, k) - 1;
      assert 0 <= n < SIZE_RANGE;
      assert n % SIZE_RANGE == n;
    } else {
      assert s.gap == [] && k == 0;
      assert Chosen(secs, answers, 0) == [] by { NothingChosen(secs, answers); }
    }
  }

  lemma NothingChosen(secs: seq<Section>, answers: seq<int>)
    requires |secs| == |answers|
    ensures Chosen(secs, answers, 0) == []
  {
  }

  /** What the header of a hunk says, and that the numbers in it are small enough. */
  lemma HunkHeader(patch: Patch, secs: seq<Section>, tail: seq<string>, source: string, k: nat)
    requires Describes(patch, secs, tail, source) && k < |secs|
    ensures |patch.hunks| == |secs| && TotalLines(secs, |secs|) < SIZE_RANGE && (k > 0 ==> secs[k].gap != [])
    ensures k == 0 ==> NewLines(secs, k) == 0
    ensures patch.hunks[k].newStart == NewLines(secs, k) + |secs[k].gap| + (if secs[k].post != [] then 1 else 0)
  {
    assert DescribesHunk(patch, secs, k);
  }

  /** The image and the counts when the first `k` hunks are dealt with. */
  function Reached(secs: seq<Section>, tail: seq<string>, answers: seq<int>, k: nat): Progress
    requires k <= |secs| == |answers|
  {
    Progress(Chosen(secs, answers, k) + Rest(secs, tail, k), SkippedNew(secs, answers, k), SkippedOld(secs, answers, k))
  }

  /** What an accepted hunk comes to once the hunks before it are dealt with. */
  lemma AcceptedHunk(patch: Patch, secs: seq<Section>, tail: seq<string>, source: string, answers: seq<int>, k: nat)
    requires Describes(patch, secs, tail, source) && k < |secs| == |answers| && answers[k] == 0
    ensures var r := Accepted(patch, patch.hunks[k], Reached(secs, tail, answers, k));
            && (r.error == 0 <==> Lands(secs[k]))
            && (r.error == 0 ==> r.progress == Reached(secs, tail, answers, k + 1))
  {
    hide Accepted, Landing, Describes, DescribesHunk, Chosen, Rest, Reached, Lands;
    HunkImages(patch, secs, tail, source, k);
    var s := secs[k];
    var a, rest := Chosen(secs, answers, k) + s.gap, Rest(secs, tail, k + 1);
    AroundHunk(secs, tail, answers, k);
    LandingAt(patch, secs, tail, source, answers, k, a + s.pre + rest);
    AcceptedAt(patch, patch.hunks[k], Reached(secs, tail, answers, k), s, a, rest);
  }

  lemma AroundHunk(secs: seq<Section>, tail: seq<string>, answers: seq<int>, k: nat)
    requires k < |secs| == |answers| && answers[k] == 0
    ensures var s, before := secs[k], Reached(secs, tail, answers, k);
            var a, rest := Chosen(secs, answers, k) + s.gap, Rest(secs, tail, k + 1);
            && before == Progress(a + s.pre + rest, SkippedNew(secs, answers, k), SkippedOld(secs, answers, k))
            && Reached(secs, tail, answers, k + 1) == before.(image := a + s.post + rest)
  {
    var s := secs[k];
    var c, rest := Chosen(secs, answers, k), Rest(secs, tail, k + 1);
    assert c + (s.gap + s.pre + rest) == c + s.gap + s.pre + rest;
    assert Chosen(secs, answers, k + 1) + rest == c + s.gap + s.post + rest;
  }

  /** A hunk that is tried where its preimage is, or one line above it. */
  lemma AcceptedAt(patch: Patch, h: Hunk, p: Progress, s: Section, a: seq<string>, rest: seq<string>)
    requires patch.Has(h) && patch.Images(h) == (s.pre, s.post) && p.image == a + s.pre + rest
    requires s.gap != [] ==> a != [] && a[|a| - 1] == s.gap[|s.gap| - 1]
    requires Landing(h, p) == if s.post == [] && s.gap != [] then |a| - 1 else |a|
    ensures var r := Accepted(patch, h, p);
            (r.error == 0 <==> Lands(s)) && (r.error == 0 ==> r.progress == p.(image := a + s.post + rest))
  {
    hide Landing, Matches, Updated;
    MatchThere(a, s.pre, s.post, rest);
    if s.post == [] && s.gap != [] {
      MatchEarly(a, s.pre, rest);
      assert a + [] + rest == a + rest;
    }
  }

  lemma HunkImages(patch: Patch, secs: seq<Section>, tail: seq<string>, source: string, k: nat)
    requires Describes(patch, secs, tail, source) && k < |secs|
    ensures |patch.hunks| == |secs| && patch.Has(patch.hunks[k])
            && patch.Images(patch.hunks[k]) == (secs[k].pre, secs[k].post)
  {
    assert DescribesHunk(patch, secs, k);
  }

  /** A hunk that is not there to be accepted leaves the image as it is, and moves on. */
  lemma SkippedHunk(patch: Patch, secs: seq<Section>, tail: seq<string>, source: string, answers: seq<int>, k: nat)
    requires Describes(patch, secs, tail, source) && k < |secs| == |answers| && answers[k] > 0
    ensures Tried(patch, patch.hunks[k], answers[k], Reached(secs, tail, answers, k))
            == Outcome(0, Reached(secs, tail, answers, k + 1))
  {
    hide Describes, DescribesHunk, Accepted, Chosen, Rest;
    HunkDescribed(patch, secs, tail, source, k);
    AroundSkipped(secs, tail, answers, k);
  }

  lemma AroundSkipped(secs: seq<Section>, tail: seq<string>, answers: seq<int>, k: nat)
    requires k < |secs| == |answers| && answers[k] != 0
    ensures Chosen(secs, answers, k) + Rest(secs, tail, k)
            == Chosen(secs, answers, k + 1) + Rest(secs, tail, k + 1)
  {
    var s, c, rest := secs[k], Chosen(secs, answers, k), Rest(secs, tail, k + 1);
    assert c + (s.gap + s.pre + rest) == c + s.gap + s.pre + rest;
  }

  lemma HunkDescribed(patch: Patch, secs: seq<Section>, tail: seq<string>, source: string, k: nat)
    requires Describes(patch, secs, tail, source) && k < |secs|
    ensures |patch.hunks| == |secs| && DescribesHunk(patch, secs, k)
    ensures patch.hunks[k].oldLines == |secs[k].pre| && patch.hunks[k].newLines == |secs[k].post|
  {
  }

  /** Every hunk from `k` on is skipped, or accepted and found. */
  ghost predicate AllLand(secs: seq<Section>, answers: seq<int>, k: nat)
    requires |secs| == |answers|
  {
    forall i :: k <= i < |secs| ==> answers[i] > 0 || (answers[i] == 0 && Lands(secs[i]))
  }

  lemma HunkCount(patch: Patch, secs: seq<Section>, tail: seq<string>, source: string)
    requires Describes(patch, secs, tail, source)
    ensures |patch.hunks| == |secs|
  {
  }

  lemma NoneLeft(secs: seq<Section>, tail: seq<string>, answers: seq<int>)
    requires |secs| == |answers|
    ensures AllLand(secs, answers, |secs|)
            && Reached(secs, tail, answers, |secs|).image == Chosen(secs, answers, |secs|) + tail
  {
  }

  lemma OneMoreLands(secs: seq<Section>, answers: seq<int>, k: nat)
    requires k < |secs| == |answers|
    ensures AllLand(secs, answers, k) <==>
            (answers[k] > 0 || (answers[k] == 0 && Lands(secs[k]))) && AllLand(secs, answers, k + 1)
  {
  }

  lemma {:induction false} TriedFromExact(patch: Patch, secs: seq<Section>, tail: seq<string>, source: string,
      answers: seq<int>, k: nat)
    requires Describes(patch, secs, tail, source) && k <= |secs| == |answers|
    ensures |patch.hunks| == |secs|
    ensures var r := TriedFrom(patch, k, answers, Reached(secs, tail, answers, k));
            && (r.error == 0 <==> AllLand(secs, answers, k))
            && (r.error == 0 ==> r.progress.image == Chosen(secs, answers, |secs|) + tail)
    decreases |secs| - k
  {
    hide Accepted, Lands, Describes, Reached, AllLand, DescribesHunk, Chosen, Rest;
    assert |patch.hunks| == |secs| by { HunkCount(patch, secs, tail, source); }
    if k == |secs| {
      NoneLeft(secs, tail, answers);
    } else {
      OneMoreLands(secs, answers, k);
      var p := Reached(secs, tail, answers, k);
      HunkDescribed(patch, secs, tail, source, k);
      OutcomeError(patch, patch.hunks[k], answers[k], p);
      TriedFromExact(patch, secs, tail, source, answers, k + 1);
      if answers[k] == 0 {
        AcceptedHunk(patch, secs, tail, source, answers, k);
      } else if answers[k] > 0 {
        SkippedHunk(patch, secs, tail, source, answers, k);
      }
    }
  }

  /** Applying a patch with any of its hunks skipped gives the old text with exactly the accepted hunks replaced,
      unless an accepted hunk that only deletes stands behind a line other than the ones it deletes: then nothing
      is applied. */
  lemma AppliesExactly(patch: Patch, secs: seq<Section>, tail: seq<string>, source: string, answers: seq<int>)
    requires Describes(patch, secs, tail, source) && |secs| == |answers|
    ensures var r := TriedFrom(patch, 0, answers, Progress(LinesOf(source), 0, 0));
            && (r.error == 0 <==> AllLand(secs, answers, 0))
            && (r.error == 0 ==> r.progress.image == Chosen(secs, answers, |secs|) + tail)
  {
    assert Chosen(secs, answers, 0) + Rest(secs, tail, 0) == LinesOf(source);
    TriedFromExact(patch, secs, tail, source, answers, 0);
  }

  /** With no hunk skipped, a patch from one text to another makes the other text of the one, byte for byte. */
  lemma MakesNewText(patch: Patch, secs: seq<Section>, tail: seq<string>, source: string, target: string)
    requires Describes(patch, secs, tail, source)
    requires LinesOf(target) == Chosen(secs, seq(|secs|, _ => 0), |secs|) + tail
    requires forall k :: 0 <= k < |secs| ==> Lands(secs[k])
    ensures |patch.hunks| == |secs|
    ensures var r := TriedFrom(patch, 0, seq(|secs|, _ => 0), Progress(LinesOf(source), 0, 0));
            r.error == 0 && Concat(r.progress.image) == target
  {
    HunkCount(patch, secs, tail, source);
    AppliesExactly(patch, secs, tail, source, seq(|secs|, _ => 0));
    LinesOfText(target);
  }

  /** With every hunk skipped, the text stays as it is. */
  lemma SkippingKeepsText(patch: Patch, source: string, answers: seq<int>, p: Progress, k: nat)
    requires k <= |patch.hunks| == |answers| && (forall i :: k <= i < |answers| ==> answers[i] > 0)
    requires p.image == LinesOf(source)
    ensures var r := TriedFrom(patch, k, answers, p); r.error == 0 && Concat(r.progress.image) == source
    decreases |answers| - k
  {
    LinesOfText(source);
    if k < |answers| {
      SkippingKeepsText(patch, source, answers, Tried(patch, patch.hunks[k], answers[k], p).progress, k + 1);
    }
  }

  /** The patch that deletes the second of two different lines, and has no context, describes its text and still does
      not apply to it. */
  lemma DeletionDoesNotApply()
    ensures var patch := Patch([Hunk(1, 1, 0, 0, 1)], [DiffLine(Deletion, "b\n")]);
            && Describes(patch, [Section(["a\n"], ["b\n"], [])], [], "a\nb\n")
            && TriedFrom(patch, 0, [0], Progress(LinesOf("a\nb\n"), 0, 0)).error == EAPPLYFAIL
  {
    var l := DiffLine(Deletion, "b\n");
    var patch, secs := Patch([Hunk(1, 1, 0, 0, 1)], [l]), [Section(["a\n"], ["b\n"], [])];
    TwoLines();
    assert Rest(secs, [], 0) == ["a\n"] + ["b\n"] + [];
    assert patch.Images(patch.hunks[0]) == (["b\n"], []) by {
      var none: seq<DiffLine> := [];
      SideAdd(none, l, true);
      SideAdd(none, l, false);
      assert Side(none + [l], true) == ["b\n"];
      assert Side(none + [l], false) == [];
      assert patch.FirstLines(patch.hunks[0], 1) == none + [l];
    }
    assert DescribesHunk(patch, secs, 0);
    AcceptedHunk(patch, secs, [], "a\nb\n", [0], 0);
    assert Reached(secs, [], [0], 0) == Progress(["a\n", "b\n"], 0, 0);
    assert !Lands(secs[0]) by { assert "b\n" in secs[0].pre && "b\n"[0] != "a\n"[0]; }
  }

  lemma TwoLines()
    ensures LinesOf("a\nb\n") == ["a\n", "b\n"]
  {
    hide LinesOf;
    FirstLine("a\n", "b\n");
    FirstLine("b\n", "");
    NoText();
    assert "a\n" + "b\n" == "a\nb\n" && "b\n" + "" == "b\n";
  }
}
