/** Selecting commits from a chain, removing them and splicing them in: the list-level meaning of a rewrite. */
module Selections {
  import opened Wrappers
  import opened Commits

  /** The elements of `h` that are in `s`, in their order. */
  function Select<T(==)>(h: seq<T>, s: set<T>): seq<T> {
    if h == [] then [] else
      Select(h[..|h| - 1], s) + (if h[|h| - 1] in s then [h[|h| - 1]] else [])
  }

  /** The elements of `h` that are not in `s`, in their order. */
  function Without<T(==)>(h: seq<T>, s: set<T>): seq<T> {
    if h == [] then [] else
      Without(h[..|h| - 1], s) + (if h[|h| - 1] in s then [] else [h[|h| - 1]])
  }

  /** How many elements precede the first one that is in `s`; all of them when there is none. */
  function CountBefore<T(==)>(h: seq<T>, s: set<T>): (n: nat)
    ensures n <= |h|
    ensures forall i :: 0 <= i < n ==> h[i] !in s
    ensures n < |h| ==> h[n] in s
  {
    if h == [] then 0 else
      var n := CountBefore(h[..|h| - 1], s);
      if n < |h| - 1 || h[|h| - 1] in s then n else |h|
  }

  lemma {:induction false} SelectConcat<T>(a: seq<T>, b: seq<T>, s: set<T>)
    ensures Select(a + b, s) == Select(a, s) + Select(b, s)
    ensures Without(a + b, s) == Without(a, s) + Without(b, s)
    decreases |b|
  {
    if b == [] {
      assert a + b == a;
    } else {
      var front, last := b[..|b| - 1], b[|b| - 1];
      SelectConcat(a, front, s);
      assert (a + b)[..|a + b| - 1] == a + front && (a + b)[|a + b| - 1] == last;
    }
  }

  lemma {:induction false} SelectNone<T>(h: seq<T>, s: set<T>)
    requires forall x :: x in h ==> x !in s
    ensures Select(h, s) == [] && Without(h, s) == h
  {
    if h != [] {
      SelectNone(h[..|h| - 1], s);
      assert h[..|h| - 1] + [h[|h| - 1]] == h;
    }
  }

  lemma {:induction false} SelectAll<T>(h: seq<T>, s: set<T>)
    requires forall x :: x in h ==> x in s
    ensures Select(h, s) == h && Without(h, s) == []
  {
    if h != [] {
      SelectAll(h[..|h| - 1], s);
      assert h[..|h| - 1] + [h[|h| - 1]] == h;
    }
  }

  lemma {:induction false} SelectElements<T>(h: seq<T>, s: set<T>)
    ensures forall x :: x in Select(h, s) <==> x in h && x in s
    ensures forall x :: x in Without(h, s) <==> x in h && x !in s
  {
    if h != [] {
      SelectElements(h[..|h| - 1], s);
      assert h == h[..|h| - 1] + [h[|h| - 1]];
    }
  }

  /** Selecting and removing split the elements between them: nothing is lost or duplicated. */
  lemma {:induction false} SelectConserves<T>(h: seq<T>, s: set<T>)
    ensures multiset(Select(h, s)) + multiset(Without(h, s)) == multiset(h)
    ensures |Select(h, s)| + |Without(h, s)| == |h|
  {
    if h != [] {
      var front, last := h[..|h| - 1], h[|h| - 1];
      SelectConserves(front, s);
      assert multiset(h) == multiset(front) + multiset{last} by {
        assert h == front + [last];
      }
      if last in s {
        assert Select(h, s) == Select(front, s) + [last] && Without(h, s) == Without(front, s) + [];
      } else {
        assert Select(h, s) == Select(front, s) + [] && Without(h, s) == Without(front, s) + [last];
      }
    }
  }

  lemma {:induction false} SelectDistinct<T(!new)>(h: seq<T>, s: set<T>)
    requires Distinct(h)
    ensures Distinct(Select(h, s)) && Distinct(Without(h, s))
  {
    if h != [] {
      var front := h[..|h| - 1];
      SelectDistinct(front, s);
      SelectElements(front, s);
    }
  }

  /** Selecting every element of a set that lies in a repetition-free list gives as many elements as the set has. */
  lemma {:induction false} SelectCount<T(!new)>(h: seq<T>, s: set<T>)
    requires Distinct(h) && s <= Elements(h)
    ensures |Select(h, s)| == |s|
  {
    if h == [] {
      assert s == {};
    } else {
      var front, last := h[..|h| - 1], h[|h| - 1];
      var s' := s - {last};
      assert h == front + [last];
      SelectCount(front, s');
      SelectAgree(front, s, s');
    }
  }

  lemma {:induction false} SelectAgree<T>(h: seq<T>, s: set<T>, s': set<T>)
    requires forall x :: x in h ==> (x in s <==> x in s')
    ensures Select(h, s) == Select(h, s') && Without(h, s) == Without(h, s')
  {
    if h != [] {
      SelectAgree(h[..|h| - 1], s, s');
    }
  }

  // ----- splicing -----

  /** `h` with `remove` taken out and `adds` put in where the first `at` elements of `h` end. */
  function Splice<T(==)>(h: seq<T>, adds: seq<T>, at: nat, remove: set<T>): seq<T>
    requires at <= |h|
  {
    Without(h[..at], remove) + adds + Without(h[at..], remove)
  }

  /** Where commits added after `position` go: at the bottom for the null position, else right above the position. */
  function AddLimit<T(==)>(h: seq<T>, adding: bool, position: Option<T>): (n: nat)
    requires adding && position.Some? ==> position.value in h
    ensures n <= |h|
    ensures adding && position.None? ==> n == 0
    ensures adding && position.Some? ==> n > 0 && h[n - 1] == position.value
  {
    if !adding then |h| else
      match position
      case None => 0
      case Some(p) =>
        assert exists i :: 0 <= i < |h| && h[i] == p;
        CountBefore(h, {p}) + 1
  }

  /** Splicing conserves the elements: what was there, less what is removed, plus what is added. */
  lemma SpliceConserves<T>(h: seq<T>, adds: seq<T>, at: nat, remove: set<T>)
    requires at <= |h|
    ensures multiset(Splice(h, adds, at, remove)) == multiset(Without(h, remove)) + multiset(adds)
    ensures multiset(Splice(h, adds, at, remove)) + multiset(Select(h, remove)) == multiset(h) + multiset(adds)
  {
    hide Select, Without;
    assert Without(h, remove) == Without(h[..at], remove) + Without(h[at..], remove) by {
      SelectConcat(h[..at], h[at..], remove);
      assert h == h[..at] + h[at..];
    }
    SelectConserves(h, remove);
  }

  /** The elements below the first removed one and below the splice stay where they are. */
  lemma SplicePrefix<T>(h: seq<T>, adds: seq<T>, at: nat, remove: set<T>, keep: nat)
    requires keep <= at <= |h| && keep <= CountBefore(h, remove)
    ensures Splice(h, adds, at, remove) ==
            h[..keep] + (Without(h[keep..at], remove) + adds + Without(h[at..], remove))
  {
    hide Select, Without;
    var lower, upper := h[..keep], h[keep..at];
    assert Without(h[..at], remove) == lower + Without(upper, remove) by {
      assert h[..at] == lower + upper;
      SelectConcat(lower, upper, remove);
      SelectNone(lower, remove);
    }
  }

  // ----- contiguous selections -----

  /** An element outside of `s` lies between two elements of `s`. */
  ghost predicate HasGap<T(!new)>(h: seq<T>, s: set<T>) {
    exists i, j, k :: 0 <= i < j < k < |h| && h[i] in s && h[j] !in s && h[k] in s
  }

  /** The selected elements are exactly those at positions lo to hi. */
  ghost predicate IsBlock<T(!new)>(h: seq<T>, s: set<T>, lo: nat, hi: nat) {
    lo <= hi <= |h| && forall i :: 0 <= i < |h| ==> (h[i] in s <==> lo <= i < hi)
  }

  lemma SelectThree<T>(a: seq<T>, b: seq<T>, c: seq<T>, s: set<T>)
    requires forall x :: x in a || x in c ==> x !in s
    requires forall x :: x in b ==> x in s
    ensures Select(a + b + c, s) == b && Without(a + b + c, s) == a + c
  {
    var ab := a + b;
    assert Select(ab, s) == b && Without(ab, s) == a by {
      SelectConcat(a, b, s);
      SelectNone(a, s);
      SelectAll(b, s);
    }
    assert Select(c, s) == [] && Without(c, s) == c by {
      SelectNone(c, s);
    }
    SelectConcat(ab, c, s);
  }

  lemma BlockSelect<T(!new)>(h: seq<T>, s: set<T>, lo: nat, hi: nat)
    requires IsBlock(h, s, lo, hi)
    ensures Select(h, s) == h[lo..hi] && Without(h, s) == h[..lo] + h[hi..]
  {
    SelectThree(h[..lo], h[lo..hi], h[hi..], s);
    assert h == h[..lo] + h[lo..hi] + h[hi..];
  }

  /** A selection without a gap is a block that starts at its lowest element. */
  lemma GaplessIsBlock<T(!new)>(h: seq<T>, s: set<T>) returns (lo: nat, hi: nat)
    requires !HasGap(h, s)
    ensures IsBlock(h, s, lo, hi) && lo == CountBefore(h, s)
    ensures Select(h, s) != [] ==> lo < hi
  {
    lo := CountBefore(h, s);
    hi := lo;
    while hi < |h| && h[hi] in s
      invariant lo <= hi <= |h|
      invariant forall i :: lo <= i < hi ==> h[i] in s
    {
      hi := hi + 1;
    }
    forall i | 0 <= i < |h| ensures h[i] in s <==> lo <= i < hi {
      if hi < i && lo < hi && h[i] in s {
        assert HasGap(h, s);
      }
    }
    BlockSelect(h, s, lo, hi);
  }

  lemma BlockHasNoGap<T(!new)>(h: seq<T>, s: set<T>, lo: nat, hi: nat)
    requires IsBlock(h, s, lo, hi)
    ensures !HasGap(h, s)
  {
  }

  /** Moving a selection leaves a repetition-free list as it was if and only if the selection is one block and the place
      it is moved to is inside the block or at one of its two ends. */
  lemma MoveIsIdentity<T(!new)>(h: seq<T>, s: set<T>, at: nat)
    requires Distinct(h) && at <= |h| && s != {} && s <= Elements(h)
    ensures Splice(h, Select(h, s), at, s) == h <==>
            !HasGap(h, s) && CountBefore(h, s) <= at <= CountBefore(h, s) + |s|
  {
    if Splice(h, Select(h, s), at, s) == h {
      var lo := IdentityMoveIsBlock(h, s, at);
      BlockBounds(h, s, lo, lo + |s|);
    } else if !HasGap(h, s) {
      var lo, hi := GaplessIsBlock(h, s);
      BlockSelect(h, s, lo, hi);
      SelectCount(h, s);
      if lo <= at <= hi {
        MoveWithinBlock(h, s, lo, at, hi);
      }
    }
  }

  lemma BlockBounds<T(!new)>(h: seq<T>, s: set<T>, lo: nat, hi: nat)
    requires IsBlock(h, s, lo, hi) && lo < hi
    ensures !HasGap(h, s) && CountBefore(h, s) == lo
  {
    assert h[lo] in s;
  }

  lemma MoveWithinBlock<T(!new)>(h: seq<T>, s: set<T>, lo: nat, at: nat, hi: nat)
    requires IsBlock(h, s, lo, hi) && lo <= at <= hi
    ensures Splice(h, Select(h, s), at, s) == h
  {
    hide Select, Without;
    BlockSelect(h, s, lo, hi);
    assert Without(h[..at], s) == h[..lo] by {
      BlockSelect(h[..at], s, lo, at);
    }
    assert Without(h[at..], s) == h[hi..] by {
      BlockSelect(h[at..], s, 0, hi - at);
    }
    assert h == h[..lo] + h[lo..hi] + h[hi..];
  }

  lemma IdentityMoveIsBlock<T(!new)>(h: seq<T>, s: set<T>, at: nat) returns (lo: nat)
    requires Distinct(h) && at <= |h| && s != {} && s <= Elements(h)
    requires Splice(h, Select(h, s), at, s) == h
    ensures IsBlock(h, s, lo, lo + |s|) && lo <= at <= lo + |s| && |s| > 0
  {
    hide Select, Without, CountBefore;
    SelectCount(h, s);
    var below, moved, above := Without(h[..at], s), Select(h, s), Without(h[at..], s);
    lo := |below|;
    SelectConserves(h[..at], s);
    SelectConserves(h[at..], s);
    assert forall x :: x in below || x in above ==> x !in s by {
      SelectElements(h[..at], s);
      SelectElements(h[at..], s);
    }
    assert forall x :: x in moved ==> x in s by {
      SelectElements(h, s);
    }
    ThreePartsAreBlock(below, moved, above, s);
    assert s != {} ==> |s| > 0;
  }

  lemma ThreePartsAreBlock<T(!new)>(a: seq<T>, b: seq<T>, c: seq<T>, s: set<T>)
    requires forall x :: x in a || x in c ==> x !in s
    requires forall x :: x in b ==> x in s
    ensures IsBlock(a + b + c, s, |a|, |a| + |b|)
  {
    var h := a + b + c;
    forall i | 0 <= i < |h| ensures h[i] in s <==> |a| <= i < |a| + |b| {
      if i < |a| {
        assert h[i] == a[i];
      } else if i < |a| + |b| {
        assert h[i] == b[i - |a|];
      } else {
        assert h[i] == c[i - |a| - |b|];
      }
    }
  }
}
