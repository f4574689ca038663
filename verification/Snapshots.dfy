/** Snapshots of a branch, and how they are cleaned up: the earliest of each state, in the order they were made. */
module Snapshots {
  import opened Commits

  /** What a branch is called, and which commit it targets. */
  datatype RefState = RefState(name: string, head: Commit)

  datatype Snapshot = Snapshot(creationTime: int, refState: RefState)

  /** The order of ref states, by name and commit id. What the ids are is left open. */
  type RefOrder = (RefState, RefState) -> bool

  ghost predicate IsOrder(less: RefOrder) {
    && (forall a :: !less(a, a))
    && (forall a, b :: a != b ==> less(a, b) || less(b, a))
    && (forall a, b, c :: less(a, b) && less(b, c) ==> less(a, c))
  }

  predicate Before(less: RefOrder, s: Snapshot, t: Snapshot) {
    if s.creationTime != t.creationTime then s.creationTime < t.creationTime else less(s.refState, t.refState)
  }

  ghost predicate Sorted(less: RefOrder, ss: seq<Snapshot>) {
    forall i, j :: 0 <= i < j < |ss| ==> Before(less, ss[i], ss[j])
  }

  /** There is no earlier snapshot of the same state. */
  ghost predicate Earliest(s: Snapshot, ss: seq<Snapshot>) {
    s in ss && forall t :: t in ss && t.refState == s.refState ==> s.creationTime <= t.creationTime
  }

  /** `r` is what is left of `ss`: in order, the earliest snapshot of each state. */
  ghost predicate Cleaned(less: RefOrder, ss: seq<Snapshot>, r: seq<Snapshot>) {
    Sorted(less, r) && forall s :: s in r <==> Earliest(s, ss)
  }

  /** Adds a snapshot where it belongs. */
  method InsertSorted(less: RefOrder, ss: seq<Snapshot>, s: Snapshot) returns (r: seq<Snapshot>)
    requires IsOrder(less) && Sorted(less, ss) && s !in ss
    ensures Sorted(less, r) && forall t :: t in r <==> t in ss || t == s
  {
    var i := |ss|;
    while i > 0 && Before(less, s, ss[i - 1])
      invariant 0 <= i <= |ss|
      invariant forall k :: i <= k < |ss| ==> Before(less, s, ss[k])
    {
      i := i - 1;
    }
    r := ss[..i] + [s] + ss[i..];
    InsertedSorted(less, ss, s, i);
    assert forall t :: t in r <==> t in ss || t == s by {
      assert ss == ss[..i] + ss[i..];
    }
  }

  lemma InsertedSorted(less: RefOrder, ss: seq<Snapshot>, s: Snapshot, i: nat)
    requires IsOrder(less) && Sorted(less, ss) && s !in ss && i <= |ss|
    requires forall k :: i <= k < |ss| ==> Before(less, s, ss[k])
    requires i > 0 ==> !Before(less, s, ss[i - 1])
    ensures Sorted(less, ss[..i] + [s] + ss[i..])
  {
    var r := ss[..i] + [s] + ss[i..];
    forall a, b | 0 <= a < b < |r| ensures Before(less, r[a], r[b]) {
      if b == i {
        BeforeAll(less, ss, s, i, a);
      } else if a < i && b < i {
        assert r[a] == ss[a] && r[b] == ss[b];
      } else if a == i {
        assert r[b] == ss[b - 1];
      } else {
        assert r[b] == ss[b - 1] && r[a] == if a < i then ss[a] else ss[a - 1];
      }
    }
  }

  lemma BeforeAll(less: RefOrder, ss: seq<Snapshot>, s: Snapshot, i: nat, a: nat)
    requires IsOrder(less) && Sorted(less, ss) && s !in ss && a < i <= |ss| && !Before(less, s, ss[i - 1])
    ensures Before(less, ss[a], s)
  {
    assert ss[i - 1] in ss;
    assert Before(less, ss[i - 1], s);
    if a < i - 1 {
      assert Before(less, ss[a], ss[i - 1]);
    }
  }

  /** Keeps the earliest snapshot of each state, and puts them in order. */
  method CleanSnapshots(less: RefOrder, snapshots: seq<Snapshot>) returns (r: seq<Snapshot>)
    requires IsOrder(less)
    ensures Cleaned(less, snapshots, r)
  {
    var earliest: map<RefState, Snapshot> := map[];
    for i := 0 to |snapshots|
      invariant EarliestOf(earliest, snapshots[..i])
    {
      var snap := snapshots[i];
      EarliestStep(earliest, snapshots[..i], snap);
      assert snapshots[..i + 1] == snapshots[..i] + [snap];
      if snap.refState !in earliest || snap.creationTime < earliest[snap.refState].creationTime {
        earliest := earliest[snap.refState := snap];
      }
    }
    assert snapshots[..|snapshots|] == snapshots;
    r := [];
    var keys := earliest.Keys;
    while keys != {}
      invariant keys <= earliest.Keys && Sorted(less, r)
      invariant forall s :: s in r <==> s.refState in earliest && s.refState !in keys && earliest[s.refState] == s
    {
      var k :| k in keys;
      EarliestAt(earliest, snapshots, k);
      r := InsertSorted(less, r, earliest[k]);
      keys := keys - {k};
    }
    EarliestAll(earliest, snapshots, r);
  }

  /** The map has the earliest snapshot of each state. */
  ghost predicate EarliestOf(m: map<RefState, Snapshot>, ss: seq<Snapshot>) {
    && (forall k :: k in m ==> m[k].refState == k && Earliest(m[k], ss))
    && (forall s :: s in ss ==> s.refState in m)
  }

  lemma EarliestStep(m: map<RefState, Snapshot>, ss: seq<Snapshot>, s: Snapshot)
    requires EarliestOf(m, ss)
    ensures var earlier := s.refState !in m || s.creationTime < m[s.refState].creationTime;
            EarliestOf(if earlier then m[s.refState := s] else m, ss + [s])
  {
    var m' := if s.refState !in m || s.creationTime < m[s.refState].creationTime then m[s.refState := s] else m;
    forall k | k in m' ensures m'[k].refState == k && Earliest(m'[k], ss + [s]) {
      if k != s.refState {
        assert Earliest(m[k], ss);
      } else if k in m {
        assert Earliest(m[k], ss);
      }
    }
  }

  lemma EarliestAt(m: map<RefState, Snapshot>, ss: seq<Snapshot>, k: RefState)
    requires EarliestOf(m, ss) && k in m
    ensures m[k].refState == k
  {
  }

  lemma EarliestAll(m: map<RefState, Snapshot>, ss: seq<Snapshot>, r: seq<Snapshot>)
    requires EarliestOf(m, ss) && forall s :: s in r <==> s.refState in m && m[s.refState] == s
    ensures forall s :: s in r <==> Earliest(s, ss)
  {
    forall s ensures s in r <==> Earliest(s, ss) {
      if Earliest(s, ss) {
        assert Earliest(m[s.refState], ss);
      }
    }
  }

  // ----- what cleaning means -----

  /** There is one cleaned list. */
  lemma {:induction false} SortedIsUnique(less: RefOrder, r: seq<Snapshot>, r': seq<Snapshot>)
    requires IsOrder(less) && Sorted(less, r) && Sorted(less, r') && forall s :: s in r <==> s in r'
    ensures r == r'
  {
    assert r != [] ==> r[0] in r';
    assert r' != [] ==> r'[0] in r;
    if r != [] {
      var n, n' := |r| - 1, |r'| - 1;
      SameLast(less, r, r');
      forall s ensures s in r[..n] <==> s in r'[..n'] {
        InFront(less, r, s);
        InFront(less, r', s);
      }
      SortedIsUnique(less, r[..n], r'[..n']);
      assert r == r[..n] + [r[n]] && r' == r'[..n'] + [r'[n']];
    }
  }

  lemma SameLast(less: RefOrder, r: seq<Snapshot>, r': seq<Snapshot>)
    requires IsOrder(less) && Sorted(less, r) && Sorted(less, r') && r != [] && r' != [] && forall s :: s in r <==>
             s in r'
    ensures r[|r| - 1] == r'[|r'| - 1]
  {
    var a, b := r[|r| - 1], r'[|r'| - 1];
    assert a in r' && b in r;
    assert a == b || Before(less, a, b);
    assert a == b || Before(less, b, a);
  }

  lemma InFront(less: RefOrder, r: seq<Snapshot>, s: Snapshot)
    requires IsOrder(less) && Sorted(less, r) && r != []
    ensures s in r[..|r| - 1] <==> s in r && s != r[|r| - 1]
  {
    var n := |r| - 1;
    if s in r[..n] {
      var i :| 0 <= i < n && r[i] == s;
      assert Before(less, r[i], r[n]);
    }
  }

  lemma CleanedIsUnique(less: RefOrder, ss: seq<Snapshot>, r: seq<Snapshot>, r': seq<Snapshot>)
    requires IsOrder(less) && Cleaned(less, ss, r) && Cleaned(less, ss, r')
    ensures r == r'
  {
    SortedIsUnique(less, r, r');
  }

  /** The cleaned list is in order of time, and where times are the same in order of the states; what it lists of a
      state is as early as anything that was there. */
  lemma CleanedInTime(less: RefOrder, ss: seq<Snapshot>, r: seq<Snapshot>)
    requires IsOrder(less) && Cleaned(less, ss, r)
    ensures forall i, j :: 0 <= i < j < |r| ==>
              r[i].creationTime < r[j].creationTime
              || (r[i].creationTime == r[j].creationTime && less(r[i].refState, r[j].refState))
    ensures forall i, s :: 0 <= i < |r| && s in ss && s.refState == r[i].refState ==>
              r[i] in ss && r[i].creationTime <= s.creationTime
    ensures forall s :: s in ss ==> exists i :: 0 <= i < |r| && r[i].refState == s.refState
  {
    forall i, j | 0 <= i < j < |r| ensures Before(less, r[i], r[j]) {
    }
    forall i | 0 <= i < |r| ensures Earliest(r[i], ss) {
      assert r[i] in r;
    }
    forall s | s in ss ensures exists i :: 0 <= i < |r| && r[i].refState == s.refState {
      var t := SomeEarliest(s, ss);
      assert t in r;
    }
  }

  /** Of each state there is one snapshot, the earliest, whether the list is cleaned once or again. */
  lemma CleaningIsIdempotent(less: RefOrder, ss: seq<Snapshot>, r: seq<Snapshot>)
    requires IsOrder(less) && Cleaned(less, ss, r)
    ensures Cleaned(less, r, r)
    ensures forall i, j :: 0 <= i < j < |r| ==> r[i].refState != r[j].refState
    ensures forall s :: s in ss ==> exists t :: t in r && t.refState == s.refState && t.creationTime <= s.creationTime
  {
    forall i, j | 0 <= i < j < |r| ensures r[i].refState != r[j].refState {
      assert Earliest(r[i], ss) && Earliest(r[j], ss) && Before(less, r[i], r[j]);
    }
    forall s ensures s in r <==> Earliest(s, r) {
      if s in r {
        forall t | t in r && t.refState == s.refState ensures s.creationTime <= t.creationTime {
          assert Earliest(s, ss) && t in ss;
        }
      }
    }
    forall s | s in ss ensures exists t :: t in r && t.refState == s.refState && t.creationTime <= s.creationTime {
      var t := SomeEarliest(s, ss);
      assert t in r;
    }
  }

  lemma {:induction false} SomeEarliest(s: Snapshot, ss: seq<Snapshot>) returns (t: Snapshot)
    requires s in ss
    ensures Earliest(t, ss) && t.refState == s.refState && t.creationTime <= s.creationTime
  {
    t := s;
    for i := 0 to |ss|
      invariant t in ss && t.refState == s.refState && t.creationTime <= s.creationTime
      invariant forall k :: 0 <= k < i && ss[k].refState == s.refState ==> t.creationTime <= ss[k].creationTime
    {
      if ss[i].refState == s.refState && ss[i].creationTime < t.creationTime {
        t := ss[i];
      }
    }
  }

  /** Cleaning after every push comes to the same as cleaning all that was ever pushed. */
  lemma CleaningAsYouGo(less: RefOrder, ss: seq<Snapshot>, r: seq<Snapshot>, s: Snapshot, r': seq<Snapshot>)
    requires IsOrder(less) && Cleaned(less, ss, r) && Cleaned(less, r + [s], r')
    ensures Cleaned(less, ss + [s], r')
  {
    CleaningIsIdempotent(less, ss, r);
    forall x ensures Earliest(x, r + [s]) <==> Earliest(x, ss + [s]) {
      EarliestAfterCleaning(less, ss, r, s, x);
    }
  }

  lemma EarliestAfterCleaning(less: RefOrder, ss: seq<Snapshot>, r: seq<Snapshot>, s: Snapshot, x: Snapshot)
    requires Cleaned(less, ss, r)
    requires forall y :: y in ss ==> exists t :: t in r && t.refState == y.refState && t.creationTime <= y.creationTime
    ensures Earliest(x, r + [s]) <==> Earliest(x, ss + [s])
  {
    hide Sorted;
    forall y | y in r ensures y in ss { assert Earliest(y, ss); }
    if Earliest(x, r + [s]) {
      forall y | y in ss + [s] && y.refState == x.refState ensures x.creationTime <= y.creationTime {
        if y in ss {
          var t :| t in r && t.refState == y.refState && t.creationTime <= y.creationTime;
          assert t in r + [s];
        } else {
          assert y in r + [s];
        }
      }
    }
    if Earliest(x, ss + [s]) {
      if x in ss {
        assert forall y :: y in ss ==> y in ss + [s];
        assert Earliest(x, ss);
      }
      assert forall y :: y in r + [s] ==> y in ss + [s];
    }
  }
}
