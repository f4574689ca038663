/** What is remembered about a repository's refs: their undo histories and their snapshots. */
module RepoStates {
  import opened Wrappers
  import opened Commits
  import opened Histories
  import opened Operations
  import opened Results
  import opened Snapshots

  const HEADS := "refs/heads/"
  const TAGS := "refs/tags/"

  /** A ref's name without the part that says what it is. */
  function Name(ref: RefName): string {
    if HEADS <= ref then ref[|HEADS|..] else if TAGS <= ref then ref[|TAGS|..] else ref
  }

  predicate IsBranchOrTag(ref: RefName) {
    HEADS <= ref || TAGS <= ref
  }

  /** The ref of the same kind with another name. */
  function Renamed(ref: RefName, name: string): RefName
    requires IsBranchOrTag(ref)
  {
    (if HEADS <= ref then HEADS else TAGS) + name
  }

  lemma RenamedName(ref: RefName, name: string)
    requires IsBranchOrTag(ref)
    ensures Name(Renamed(ref, name)) == name && IsBranchOrTag(Renamed(ref, name))
    ensures Renamed(ref, name) == ref <==> Name(ref) == name
  {
    assert HEADS[5] == 'h' && TAGS[5] == 't';
    assert ref == (if HEADS <= ref then HEADS else TAGS) + Name(ref);
    assert (HEADS + name)[|HEADS|..] == name && (TAGS + name)[|TAGS|..] == name;
    assert !(HEADS <= TAGS + name) by {
      assert (TAGS + name)[5] == 't';
    }
  }

  /** Branches and tags, and no other refs, can be given another name. */
  lemma KindsOfRefs(ref: RefName, name: string, name': string)
    ensures ref == "refs/heads/" + name ==>
              IsBranchOrTag(ref) && Name(ref) == name && Renamed(ref, name') == "refs/heads/" + name'
    ensures ref == "refs/tags/" + name ==>
              IsBranchOrTag(ref) && Name(ref) == name && Renamed(ref, name') == "refs/tags/" + name'
    ensures IsBranchOrTag(ref) ==> ref == "refs/heads/" + Name(ref) || ref == "refs/tags/" + Name(ref)
    ensures !IsBranchOrTag(ref) ==> Name(ref) == ref
  {
    assert HEADS[5] == 'h' && TAGS[5] == 't';
    assert (HEADS + name)[|HEADS|..] == name && (TAGS + name)[|TAGS|..] == name;
    assert !(HEADS <= TAGS + name) by {
      assert (TAGS + name)[5] == 't';
    }
  }

  /** A state a ref was in, the commits that were selected then, and those that were selected before. */
  datatype HistoryRefState = HistoryRefState(refState: RefState, selection: set<Commit>, selectionPrev: set<Commit>)

  type Past = Timeline<HistoryRefState>

  datatype StoredRef = StoredRef(history: Past, snapshots: seq<Snapshot>)

  datatype LoadedRef = LoadedRef(refState: StoredRef, created: bool, snapshotInitialPushed: bool, historyPrev: Past,
                                 snapshotInitial: Snapshot)

  /** The file, once it is read. */
  type Disk = map<RefName, StoredRef>

  type LoadedRefs = map<RefName, LoadedRef>

  function Fresh(ref: RefName, head: Commit): HistoryRefState {
    HistoryRefState(RefState(Name(ref), head), {}, {})
  }

  /** The stored history is used only when it ends where the ref is now. */
  function Loaded(ref: RefName, head: Commit, stored: Option<StoredRef>, now: int): LoadedRef {
    var history :=
      if stored.Some? && stored.value.history.current.refState.head == head then stored.value.history
      else Timeline(Fresh(ref, head), [], []);
    var snapshots := if stored.Some? then stored.value.snapshots else [];
    LoadedRef(StoredRef(history, snapshots), stored.None?, false, history, Snapshot(now, RefState(Name(ref), head)))
  }

  /** Whether a session has something to write about a ref. */
  predicate Writes(l: LoadedRef) {
    l.created || l.refState.history != l.historyPrev
  }

  function WriteSet(loaded: LoadedRefs): set<RefName> {
    set ref | ref in loaded && Writes(loaded[ref])
  }

  /** The file after a session has written what it has to. */
  function Written(disk: Disk, loaded: LoadedRefs): Disk {
    disk + map ref | ref in loaded && Writes(loaded[ref]) :: loaded[ref].refState
  }

  function WithHistory(loaded: LoadedRefs, ref: RefName, h: Past): LoadedRefs
    requires ref in loaded
  {
    loaded[ref := loaded[ref].(refState := loaded[ref].refState.(history := h))]
  }

  /** The snapshot of how the ref was when the session began is among its snapshots, added once. */
  ghost predicate Remembers(less: RefOrder, before: LoadedRef, after: LoadedRef) {
    && after.snapshotInitialPushed && after.snapshotInitial == before.snapshotInitial
    && after.created == before.created && after.historyPrev == before.historyPrev
    && if before.snapshotInitialPushed then after.refState.snapshots == before.refState.snapshots
       else Cleaned(less, before.refState.snapshots + [before.snapshotInitial], after.refState.snapshots)
  }

  /** Nothing but the snapshots of `ref` is different. */
  ghost predicate SnapshotsOnly(less: RefOrder, before: LoadedRefs, after: LoadedRefs, ref: RefName) {
    && ref in before && after.Keys == before.Keys
    && (forall r :: r in before && r != ref ==> after[r] == before[r])
    && after[ref].refState.history == before[ref].refState.history && Remembers(less, before[ref], after[ref])
  }

  class RepoState {
    var loadedRefs: LoadedRefs

    /** Reads the file for the refs of this session. */
    constructor (refs: map<RefName, Commit>, disk: Disk, now: int)
      ensures loadedRefs.Keys == refs.Keys
      ensures forall ref :: ref in refs ==>
                loadedRefs[ref] == Loaded(ref, refs[ref], if ref in disk then Some(disk[ref]) else None, now)
    {
      loadedRefs := map[];
      new;
      var keys := refs.Keys;
      while keys != {}
        invariant keys <= refs.Keys && loadedRefs.Keys == refs.Keys - keys
        invariant forall ref :: ref in loadedRefs ==>
                    loadedRefs[ref] == Loaded(ref, refs[ref], if ref in disk then Some(disk[ref]) else None, now)
      {
        var ref :| ref in keys;
        LoadRef(ref, refs[ref], if ref in disk then Some(disk[ref]) else None, now);
        keys := keys - {ref};
      }
    }

    /** Loads a ref unless it is loaded already. */
    method LoadRef(ref: RefName, head: Commit, stored: Option<StoredRef>, now: int)
      modifies this
      ensures loadedRefs == if ref in old(loadedRefs) then old(loadedRefs) else old(loadedRefs)[ref := Loaded(ref,
              head, stored, now)]
    {
      if ref in loadedRefs {
        return;
      }
      var history;
      var snapshots := [];
      var created := false;
      if stored.Some? {
        history := stored.value.history;
        snapshots := stored.value.snapshots;
      } else {
        history := Timeline(Fresh(ref, head), [], []);
        created := true;
      }
      if history.current.refState.head != head {
        history := Timeline(Fresh(ref, head), [], []);
      }
      loadedRefs := loadedRefs[ref :=
        LoadedRef(StoredRef(history, snapshots), created, false, history, Snapshot(now, RefState(Name(ref), head)))];
    }

    /** Writes what this session has to write into what is in the file by now. */
    method Write(disk: Disk) returns (disk': Disk)
      ensures disk' == Written(disk, loadedRefs)
    {
      hide Written, Writes;
      disk' := disk;
      var keys := loadedRefs.Keys;
      assert loadedRefs - keys == map[];
      WrittenNothing(disk);
      while keys != {}
        invariant keys <= loadedRefs.Keys
        invariant disk' == Written(disk, loadedRefs - keys)
      {
        var ref :| ref in keys;
        var lref := loadedRefs[ref];
        WrittenMore(disk, loadedRefs, keys, ref);
        if lref.created || lref.refState.history != lref.historyPrev {
          disk' := disk'[ref := lref.refState];
        }
        keys := keys - {ref};
      }
      assert loadedRefs - keys == loadedRefs;
    }

    /** Remembers the state the ref was in when the session began, once. */
    method SnapshotInitialPush(ref: RefName, less: RefOrder)
      requires ref in loadedRefs && IsOrder(less)
      modifies this
      ensures SnapshotsOnly(less, old(loadedRefs), loadedRefs, ref)
      ensures old(loadedRefs[ref].snapshotInitialPushed) ==> loadedRefs == old(loadedRefs)
    {
      var lref := loadedRefs[ref];
      if lref.snapshotInitialPushed {
        return;
      }
      var snapshots := CleanSnapshots(less, lref.refState.snapshots + [lref.snapshotInitial]);
      loadedRefs := loadedRefs[ref := lref.(snapshotInitialPushed := true,
          refState := lref.refState.(snapshots := snapshots))];
    }

    method HistoryPush(ref: RefName, x: HistoryRefState)
      requires ref in loadedRefs
      modifies this
      ensures loadedRefs == WithHistory(old(loadedRefs), ref, old(loadedRefs[ref].refState.history).Push(x))
    {
      var h := new History(loadedRefs[ref].refState.history);
      h.Push(x);
      loadedRefs := WithHistory(loadedRefs, ref, h.Value());
    }

    method HistoryPrev(ref: RefName)
      requires ref in loadedRefs && loadedRefs[ref].refState.history.prev != []
      modifies this
      ensures loadedRefs == WithHistory(old(loadedRefs), ref, old(loadedRefs[ref].refState.history).Back())
    {
      var h := new History(loadedRefs[ref].refState.history);
      h.Prev();
      loadedRefs := WithHistory(loadedRefs, ref, h.Value());
    }

    method HistoryNext(ref: RefName)
      requires ref in loadedRefs && loadedRefs[ref].refState.history.next != []
      modifies this
      ensures loadedRefs == WithHistory(old(loadedRefs), ref, old(loadedRefs[ref].refState.history).Forward())
    {
      var h := new History(loadedRefs[ref].refState.history);
      h.Next();
      loadedRefs := WithHistory(loadedRefs, ref, h.Value());
    }

    /** What was remembered about one ref is about another one from now on. */
    method RefReplace(refPrev: RefName, ref: RefName)
      requires refPrev in loadedRefs && ref != refPrev
      modifies this
      ensures loadedRefs == old(loadedRefs)[ref := old(loadedRefs[refPrev])] - {refPrev}
    {
      loadedRefs := loadedRefs[ref := loadedRefs[refPrev]];
      loadedRefs := loadedRefs - {refPrev};
    }
  }

  // ----- what writing does -----

  lemma WrittenNothing(disk: Disk)
    ensures Written(disk, map[]) == disk
  {
  }

  lemma WrittenMore(disk: Disk, loaded: LoadedRefs, keys: set<RefName>, ref: RefName)
    requires ref in keys && ref in loaded
    ensures Writes(loaded[ref]) <==> loaded[ref].created || loaded[ref].refState.history != loaded[ref].historyPrev
    ensures Written(disk, loaded - (keys - {ref})) ==
            if Writes(loaded[ref]) then Written(disk, loaded - keys)[ref := loaded[ref].refState]
            else Written(disk, loaded - keys)
  {
    var a, b := loaded - keys, loaded - (keys - {ref});
    assert b == a[ref := loaded[ref]];
    WrittenOne(disk, a, ref, loaded[ref]);
  }

  lemma WrittenOne(disk: Disk, loaded: LoadedRefs, ref: RefName, l: LoadedRef)
    requires ref !in loaded
    ensures Written(disk, loaded[ref := l])
            == if Writes(l) then Written(disk, loaded)[ref := l.refState] else Written(disk, loaded)
  {
    hide Writes;
  }

  /** Writing changes the entries of the refs in the write set and no others. */
  lemma WritesOnlyItsOwn(disk: Disk, loaded: LoadedRefs, ref: RefName)
    ensures ref in WriteSet(loaded) ==>
            ref in Written(disk, loaded) && Written(disk, loaded)[ref] == loaded[ref].refState
    ensures ref !in WriteSet(loaded) ==>
              (ref in Written(disk, loaded) <==> ref in disk)
                  && (ref in disk ==> Written(disk, loaded)[ref] == disk[ref])
  {
  }

  /** Of two sessions that write about different refs, it does not matter which one writes first, and what both have
      written is there; where they write about the same ref, the later one wins. */
  lemma WritesCommute(disk: Disk, a: LoadedRefs, b: LoadedRefs)
    ensures WriteSet(a) !! WriteSet(b) ==> Written(Written(disk, a), b) == Written(Written(disk, b), a)
    ensures forall ref :: ref in WriteSet(b) ==>
              ref in Written(Written(disk, a), b) && Written(Written(disk, a), b)[ref] == b[ref].refState
    ensures forall ref :: ref in WriteSet(a) - WriteSet(b) ==>
              ref in Written(Written(disk, a), b) && Written(Written(disk, a), b)[ref] == a[ref].refState
  {
    var ab, ba := Written(Written(disk, a), b), Written(Written(disk, b), a);
    forall ref
      ensures ref in WriteSet(b) ==> ref in ab && ab[ref] == b[ref].refState
      ensures ref in WriteSet(a) - WriteSet(b) ==> ref in ab && ab[ref] == a[ref].refState
    {
      WritesOnlyItsOwn(Written(disk, a), b, ref);
      WritesOnlyItsOwn(disk, a, ref);
    }
    if WriteSet(a) !! WriteSet(b) {
      forall ref ensures (ref in ab <==> ref in ba) && (ref in ab ==> ab[ref] == ba[ref]) {
        assert ref !in WriteSet(a) || ref !in WriteSet(b);
        WritesOnlyItsOwn(Written(disk, a), b, ref);
        WritesOnlyItsOwn(disk, a, ref);
        WritesOnlyItsOwn(Written(disk, b), a, ref);
        WritesOnlyItsOwn(disk, b, ref);
      }
    }
  }

  /** A session that changes nothing writes about the refs that are new to it, and about no others. */
  lemma NothingToWrite(ref: RefName, head: Commit, stored: Option<StoredRef>, now: int)
    ensures Writes(Loaded(ref, head, stored, now)) <==> stored.None?
  {
  }

  /** What a session has written about a ref is what the next one starts with: all of it if the ref is still where it
      was left, and otherwise the snapshots, with a history that begins where the ref is now. */
  lemma WrittenIsLoaded(disk: Disk, loaded: LoadedRefs, ref: RefName, head: Commit, now: int)
    requires ref in loaded && Writes(loaded[ref])
    ensures ref in Written(disk, loaded)
    ensures var was, l := loaded[ref].refState, Loaded(ref, head, Some(Written(disk, loaded)[ref]), now);
            && !l.created && l.refState.snapshots == was.snapshots
            && (if was.history.current.refState.head == head then l.refState.history == was.history
                else l.refState.history.Whole() == [HistoryRefState(RefState(Name(ref), head), {}, {})])
  {
    WritesOnlyItsOwn(disk, loaded, ref);
    BeginsAnew(ref, head);
  }

  lemma BeginsAnew(ref: RefName, head: Commit)
    ensures Timeline(Fresh(ref, head), [], []).Whole() == [HistoryRefState(RefState(Name(ref), head), {}, {})]
  {
  }

  /** A ref that nothing is stored of begins with a history of where it is now, and with no snapshots. The first
      snapshot that a session can add, whatever is stored, is of the ref as it is when the session begins. */
  lemma NothingStored(ref: RefName, head: Commit, stored: Option<StoredRef>, now: int)
    ensures var l := Loaded(ref, head, None, now);
            && l.created && l.refState.snapshots == []
            && l.refState.history.Whole() == [HistoryRefState(RefState(Name(ref), head), {}, {})]
    ensures var l := Loaded(ref, head, stored, now);
            && l.snapshotInitial == Snapshot(now, RefState(Name(ref), head)) && !l.snapshotInitialPushed
            && !Writes(l.(created := false))
  {
    BeginsAnew(ref, head);
  }

  // ----- histories that fit the repository -----

  /** All selections of a history are on the branch as it was then. */
  ghost predicate SelectionsFit(states: seq<HistoryRefState>) {
    forall i :: 0 <= i < |states| ==> SelectionFits(states, i)
  }

  ghost predicate SelectionFits(states: seq<HistoryRefState>, i: nat)
    requires i < |states|
  {
    && states[i].selection <= OnBranch(states[i].refState.head)
    && (i > 0 ==> states[i].selectionPrev <= OnBranch(states[i - 1].refState.head))
  }

  /** The history is at the ref's name and commit. */
  ghost predicate Fits(ref: RefName, head: Commit, h: Past) {
    h.current.refState == RefState(Name(ref), head) && SelectionsFit(h.Whole())
  }

  /** Every history that is loaded is where its ref is. */
  ghost predicate Agrees(refs: Refs, loaded: LoadedRefs) {
    forall ref :: ref in loaded ==> ref in refs && Fits(ref, refs[ref], loaded[ref].refState.history)
  }

  /** The file has every history under the name it ends with. */
  ghost predicate DiskFits(disk: Disk) {
    forall ref :: ref in disk ==>
      disk[ref].history.current.refState.name == Name(ref) && SelectionsFit(disk[ref].history.Whole())
  }

  lemma FreshFits(ref: RefName, head: Commit)
    ensures Fits(ref, head, Timeline(Fresh(ref, head), [], []))
  {
    assert Timeline(Fresh(ref, head), [], []).Whole() == [Fresh(ref, head)];
  }

  lemma LoadedFits(ref: RefName, head: Commit, disk: Disk, now: int)
    requires DiskFits(disk)
    ensures Fits(ref, head, Loaded(ref, head, if ref in disk then Some(disk[ref]) else None, now).refState.history)
  {
    hide SelectionsFit;
    FreshFits(ref, head);
  }

  /** What a session that agrees with the repository writes can be read again. */
  lemma WrittenFits(disk: Disk, refs: Refs, loaded: LoadedRefs)
    requires DiskFits(disk) && Agrees(refs, loaded)
    ensures DiskFits(Written(disk, loaded))
  {
    hide SelectionsFit;
    forall ref | ref in Written(disk, loaded)
      ensures Written(disk, loaded)[ref].history.current.refState.name == Name(ref)
      ensures SelectionsFit(Written(disk, loaded)[ref].history.Whole())
    {
      WritesOnlyItsOwn(disk, loaded, ref);
    }
  }

  lemma PushFits(ref: RefName, head: Commit, h: Past, x: HistoryRefState)
    requires SelectionsFit(h.Whole()) && x.refState == RefState(Name(ref), head)
    requires x.selection <= OnBranch(head) && x.selectionPrev <= OnBranch(h.current.refState.head)
    ensures Fits(ref, head, h.Push(x))
  {
    hide OnBranch;
    PushCutsRedo(h, x);
    var states, old_ := h.Push(x).Whole(), h.Whole();
    forall i | 0 <= i < |states| ensures SelectionFits(states, i) {
      if i <= |h.prev| {
        assert SelectionFits(old_, i);
      } else {
        assert states[i - 1] == old_[|h.prev|] == h.current;
      }
    }
  }

  /** Going back, what was selected before the current state fits the state before it. */
  lemma BackFits(h: Past)
    requires SelectionsFit(h.Whole()) && h.prev != []
    ensures SelectionsFit(h.Back().Whole()) && h.current.selectionPrev <= OnBranch(h.Back().current.refState.head)
  {
    hide OnBranch;
    BackKeepsAll(h);
    assert SelectionFits(h.Whole(), |h.prev|);
  }

  lemma ForwardFits(h: Past)
    requires SelectionsFit(h.Whole()) && h.next != []
    ensures SelectionsFit(h.Forward().Whole())
            && h.Forward().current.selection <= OnBranch(h.Forward().current.refState.head)
  {
    hide OnBranch;
    ForwardKeepsAll(h);
    assert h.Whole()[|h.prev| + 1] == h.next[0];
    assert SelectionFits(h.Whole(), |h.prev| + 1);
  }
}
