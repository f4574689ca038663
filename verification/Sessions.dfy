/** A session: operations, undo and redo, renaming and restoring, with the histories that go along. */
module Sessions {
  import opened Wrappers
  import opened Commits
  import opened Histories
  import opened Rewrite
  import opened Operations
  import opened Results
  import opened Snapshots
  import opened RepoStates
  import OperationLaws

  /** What is selected: commits of a revision. */
  datatype Selection = Selection(rev: Option<Rev>, commits: set<Commit>)

  const NOTHING_SELECTED := Selection(None, {})

  /** One of the refs would be a directory on the way to the other. */
  predicate Collides(a: RefName, b: RefName) {
    a + "/" <= b || b + "/" <= a
  }

  /** The test for it looks at the character after the common length. */
  predicate IsAvailable(newRef: RefName, thisRef: RefName) {
    var n := if |thisRef| < |newRef| then |thisRef| else |newRef|;
    var lead := if |thisRef| < |newRef| then newRef else thisRef;
    !(newRef[..n] == thisRef[..n] && |lead| > n && lead[n] == '/')
  }

  lemma AvailableDoesNotCollide(newRef: RefName, thisRef: RefName)
    ensures IsAvailable(newRef, thisRef) <==> !Collides(newRef, thisRef)
  {
    if |thisRef| < |newRef| {
      assert |thisRef + "/"| <= |newRef|;
      assert newRef[..|thisRef| + 1] == newRef[..|thisRef|] + [newRef[|thisRef|]];
    } else if |newRef| < |thisRef| {
      assert |newRef + "/"| <= |thisRef|;
      assert thisRef[..|newRef| + 1] == thisRef[..|newRef|] + [thisRef[|newRef|]];
    }
  }

  /** No ref has the name, and none is in its way. */
  predicate PathAvailable(refs: Refs, newRef: RefName) {
    newRef !in refs && forall r :: r in refs ==> !Collides(newRef, r)
  }

  method ReferencePathAvailable(refs: Refs, newRef: RefName) returns (ok: bool)
    ensures ok == PathAvailable(refs, newRef)
  {
    if newRef in refs {
      return false;
    }
    var keys := refs.Keys;
    while keys != {}
      invariant keys <= refs.Keys && forall r :: r in refs.Keys - keys ==> !Collides(newRef, r)
    {
      var r :| r in keys;
      AvailableDoesNotCollide(newRef, r);
      if !IsAvailable(newRef, r) {
        return false;
      }
      keys := keys - {r};
    }
    return true;
  }

  /** Whether git lets a ref be renamed: the new name is acceptable and free. The ref is copied before it is deleted, so
      it is in the way itself. */
  ghost predicate CanRename(refs: Refs, ref: RefName, name: string, isValidName: string -> bool) {
    IsBranchOrTag(ref) && isValidName(name) && PathAvailable(refs, Renamed(ref, name))
  }

  /** A branch can be renamed exactly when the name is acceptable, no ref has it, no ref is a directory on the way to
      it, and none lies below it; and so can a tag. */
  lemma CanRenameIs(refs: Refs, old_: string, name: string, isValidName: string -> bool)
    ensures CanRename(refs, "refs/heads/" + old_, name, isValidName) <==>
            && isValidName(name) && "refs/heads/" + name !in refs
            && forall r :: r in refs ==> !(r + "/" <= "refs/heads/" + name) && !("refs/heads/" + name + "/" <= r)
    ensures CanRename(refs, "refs/tags/" + old_, name, isValidName) <==>
            && isValidName(name) && "refs/tags/" + name !in refs
            && forall r :: r in refs ==> !(r + "/" <= "refs/tags/" + name) && !("refs/tags/" + name + "/" <= r)
  {
    hide IsBranchOrTag, Renamed;
    KindsOfRefs("refs/heads/" + old_, old_, name);
    KindsOfRefs("refs/tags/" + old_, old_, name);
  }

  /** A branch cannot be moved into a directory of its own name. */
  lemma NotIntoOwnDirectory(refs: Refs, ref: RefName, rest: string, isValidName: string -> bool)
    requires ref in refs && IsBranchOrTag(ref)
    ensures !CanRename(refs, ref, Name(ref) + "/" + rest, isValidName)
  {
    var name := Name(ref) + "/" + rest;
    RenamedName(ref, Name(ref));
    assert Renamed(ref, name) == Renamed(ref, Name(ref)) + "/" + rest;
    assert Collides(Renamed(ref, name), ref);
  }

  ghost predicate CanRestore(refs: Refs, ref: RefName, state: RefState, isValidName: string -> bool) {
    Name(ref) == state.name || CanRename(refs, ref, state.name, isValidName)
  }

  /** The ref after it was given a name. */
  function RefAfter(ref: RefName, name: string): RefName {
    if Name(ref) == name || !IsBranchOrTag(ref) then ref else Renamed(ref, name)
  }

  /** A map with what was at one key at another one. */
  function Rekeyed<V>(m: map<RefName, V>, key: RefName, key': RefName, v: V): map<RefName, V> {
    (m - {key})[key' := v]
  }

  /** The ref has its new name and history and its first snapshot, and what is remembered about all others is as it
      was. */
  ghost predicate OnlyMoved(less: RefOrder, before: LoadedRefs, after: LoadedRefs, ref: RefName, ref': RefName, h: Past)
    requires ref in before
  {
    && ref' in after && after.Keys == before.Keys - {ref} + {ref'}
    && after[ref'].refState.history == h && Remembers(less, before[ref], after[ref'])
    && forall r :: r in before && r != ref && r != ref' ==> after[r] == before[r]
  }

  /** What is selected is of a ref as it is, and of commits that are on it. */
  ghost predicate SelectionAgrees(refs: Refs, s: Selection) {
    if s.rev.Some? then RefAgrees(s.rev.value, refs) && s.commits <= OnBranch(s.rev.value.commit)
    else s.commits == {}
  }

  /** What was selected of the ref is selected of what it has become; what was selected of others stays. */
  function RenamedSelection(s: Selection, refPrev: RefName, rev: Rev): Selection {
    if s.rev.Some? && s.rev.value.ref == Some(refPrev) then Selection(Some(rev), s.commits) else s
  }

  /** A rename keeps the selected commits, and they are of a ref as it is now. */
  lemma RenamedAgrees(refs: Refs, s: Selection, refPrev: RefName, ref: RefName)
    requires SelectionAgrees(refs, s) && refPrev in refs && ref !in refs
    ensures var s' := RenamedSelection(s, refPrev, Rev(refs[refPrev], Some(ref)));
            && SelectionAgrees(Rekeyed(refs, refPrev, ref, refs[refPrev]), s')
            && s'.commits == s.commits && s'.rev.Some? == s.rev.Some?
            && (s.rev.Some? ==> s'.rev.value.commit == s.rev.value.commit)
  {
    hide OnBranch;
  }

  /** What a user can do. */
  datatype UserStep =
    | Operate(op: Op, editor: string -> string)
    | Undo(ref: RefName)
    | Redo(ref: RefName)
    | GiveName(ref: RefName, name: string)
    | RestoreTo(ref: RefName, refState: RefState)

  class Session {
    const repo: Repo
    const state: RepoState
    const isValidName: string -> bool
    const less: RefOrder
    var selection: Selection

    ghost predicate Valid()
      reads this, repo, state
    {
      IsOrder(less) && Agrees(repo.refs, state.loadedRefs) && SelectionAgrees(repo.refs, selection)
    }

    /** Starts with the histories in the file, as far as they still fit. */
    constructor (repo: Repo, disk: Disk, now: int, isValidName: string -> bool, less: RefOrder)
      requires IsOrder(less) && DiskFits(disk)
      ensures Valid() && fresh(state) && this.repo == repo && this.isValidName == isValidName && this.less == less
      ensures state.loadedRefs.Keys == repo.refs.Keys
    {
      this.repo, this.isValidName, this.less, selection := repo, isValidName, less, NOTHING_SELECTED;
      state := new RepoState(repo.refs, disk, now);
      new;
      forall ref | ref in state.loadedRefs ensures Fits(ref, repo.refs[ref], state.loadedRefs[ref].refState.history) {
        LoadedFits(ref, repo.refs[ref], disk, now);
      }
    }

    /** Gives a ref another name, and takes its history along. */
    method GitRefRename(refPrev: RefName, name: string) returns (ok: bool, ref: RefName)
      requires refPrev in repo.refs && refPrev in state.loadedRefs && state.loadedRefs.Keys <= repo.refs.Keys
      modifies this, repo, state
      ensures ok == CanRename(old(repo.refs), refPrev, name, isValidName)
      ensures !ok ==>
                repo.refs == old(repo.refs) && state.loadedRefs == old(state.loadedRefs) && selection == old(selection)
      ensures ok ==>
                && ref == Renamed(refPrev, name)
                && repo.refs == Rekeyed(old(repo.refs), refPrev, ref, old(repo.refs[refPrev]))
                && state.loadedRefs == Rekeyed(old(state.loadedRefs), refPrev, ref, old(state.loadedRefs[refPrev]))
                && selection == RenamedSelection(old(selection), refPrev, Rev(old(repo.refs[refPrev]), Some(ref)))
    {
      hide Name, Collides;
      ok, ref := false, refPrev;
      if !IsBranchOrTag(refPrev) || !isValidName(name) {
        return;
      }
      var available := ReferencePathAvailable(repo.refs, Renamed(refPrev, name));
      if !available {
        return;
      }
      ref := Renamed(refPrev, name);
      var commit := repo.refs[refPrev];
      repo.refs := repo.refs[ref := commit];
      state.RefReplace(refPrev, ref);
      if selection.rev.Some? && selection.rev.value.ref == Some(refPrev) {
        selection := selection.(rev := Some(Rev(commit, Some(ref))));
      }
      repo.refs := repo.refs - {refPrev};
      ok := true;
    }

    /** Puts a ref back to where it was, and gives it the name it had. */
    method RefStateRestore(refPrev: RefName, refState: RefState) returns (ok: bool, ref: RefName)
      requires refPrev in repo.refs && refPrev in state.loadedRefs && state.loadedRefs.Keys <= repo.refs.Keys
      modifies this, repo, state
      ensures ok == CanRestore(old(repo.refs), refPrev, refState, isValidName)
      ensures !ok ==>
                && repo.refs == old(repo.refs)[refPrev := refState.head] && state.loadedRefs == old(state.loadedRefs)
                && selection == old(selection)
      ensures ok ==>
                && ref == RefAfter(refPrev, refState.name) && Name(ref) == refState.name
                && (ref == refPrev || ref !in old(repo.refs))
                && repo.refs == Rekeyed(old(repo.refs), refPrev, ref, refState.head)
                && state.loadedRefs == Rekeyed(old(state.loadedRefs), refPrev, ref, old(state.loadedRefs[refPrev]))
    {
      ok, ref := true, refPrev;
      if repo.refs[ref] != refState.head {
        var rev := repo.RefReplace(ref, refState.head);
      }
      assert repo.refs == old(repo.refs)[refPrev := refState.head];
      if Name(ref) != refState.name {
        ok, ref := GitRefRename(ref, refState.name);
        if ok {
          RenamedName(refPrev, refState.name);
        }
      }
    }

    /** Undoes the last change of a ref, or does it again. It fails exactly when the name the ref had cannot be given to
        it any more; otherwise ref and history agree again, and what gets selected is on the branch. */
    method UndoRedo(ref: RefName, undo: bool) returns (ok: bool)
      requires Valid() && ref in state.loadedRefs
      requires var h := state.loadedRefs[ref].refState.history; if undo then h.prev != [] else h.next != []
      modifies this, repo, state
      ensures var h := old(state.loadedRefs[ref].refState.history);
              var h' := if undo then h.Back() else h.Forward();
              var to := h'.current.refState;
              var ref' := RefAfter(ref, to.name);
              && ok == CanRestore(old(repo.refs), ref, to, isValidName)
              && (!ok ==>
                   && repo.refs == old(repo.refs)[ref := to.head] && state.loadedRefs == old(state.loadedRefs)
                   && selection == old(selection) && (Valid() <==> old(repo.refs[ref]) == to.head))
              && (ok ==>
                   && Valid()
                   && repo.refs == Rekeyed(old(repo.refs), ref, ref', to.head)
                   && OnlyMoved(less, old(state.loadedRefs), state.loadedRefs, ref, ref', h')
                   && selection == Selection(Some(Rev(to.head, Some(ref'))),
                                             if undo then h.current.selectionPrev else h'.current.selection)
                   && selection.commits <= OnBranch(to.head))
    {
      hide Fits, SelectionsFit, OnBranch, RefAfter, IsOrder, CanRestore, Agrees, SnapshotsOnly;
      var h := state.loadedRefs[ref].refState.history;
      var entry := if undo then h.prev[0] else h.next[0];
      HistoryAt(repo.refs, state.loadedRefs, ref);
      ghost var refs0, loaded0 := repo.refs, state.loadedRefs;
      var ref';
      ok, ref' := RefStateRestore(ref, entry.refState);
      if !ok {
        HalfRestored(refs0, loaded0, ref, entry.refState);
        return;
      }
      selection := Selection(Some(Rev(entry.refState.head, Some(ref'))),
          if undo then h.current.selectionPrev else entry.selection);
      MovedFits(h, undo);
      if undo {
        state.HistoryPrev(ref');
      } else {
        state.HistoryNext(ref');
      }
      ghost var loaded1 := state.loadedRefs;
      RestoredAgrees(refs0, loaded0, ref, ref', entry.refState, if undo then h.Back() else h.Forward());
      state.SnapshotInitialPush(ref', less);
      SnapshotsAgree(less, repo.refs, loaded1, state.loadedRefs, ref');
      SnapshotsMoved(less, loaded0, state.loadedRefs, ref, ref', if undo then h.Back() else h.Forward());
    }

    /** Records what an operation did to one ref. */
    method Record(res: Res, prev: Rev, now: int, ghost before: Refs, ghost broken: set<RefName>)
      requires IsOrder(less) && AgreesExcept(repo.refs, state.loadedRefs, before, broken)
      requires Shows(res, prev, repo.refs) && RefAgrees(prev, before)
      requires (prev.ref.Some? ==> prev.ref.value in state.loadedRefs) && BrokenBy(res, prev) <= broken
      modifies state
      ensures AgreesExcept(repo.refs, state.loadedRefs, before, broken - BrokenBy(res, prev))
      ensures Recorded(less, res, prev, old(state.loadedRefs), state.loadedRefs)
    {
      hide Fits, SelectionsFit, OnBranch, IsOrder, AgreesExcept;
      RecordedNothing(less, res, prev, state.loadedRefs);
      assert !Changed(res, prev) ==> broken - BrokenBy(res, prev) == broken;
      if res.rev.value.ref.Some? {
        var ref, commit := res.rev.value.ref.value, res.rev.value.commit;
        state.LoadRef(ref, commit, None, now);
        if commit != prev.commit {
          ghost var loaded0 := state.loadedRefs;
          var x := HistoryRefState(RefState(Name(ref), commit), res.selection, res.selectionPrev);
          RecordFits(repo.refs, loaded0, before, broken, ref, x);
          state.HistoryPush(ref, x);
          ghost var loaded1 := state.loadedRefs;
          state.SnapshotInitialPush(ref, less);
          SnapshotsAgreeExcept(less, repo.refs, before, broken - {ref}, loaded1, state.loadedRefs, ref);
        }
      }
    }

    /** Carries an operation out, records each ref that changed in its history, and selects what the operation says. */
    method GitOpExec(ctx: Ctx, op: Op, editor: string -> string, now: int) returns (r: Outcome)
      requires Valid() && op.Valid() && RefAgrees(op.src, repo.refs)
               && (op.dst.Some? ==> RefAgrees(op.dst.value, repo.refs))
      requires op.src.ref.Some? ==> op.src.ref.value in state.loadedRefs
      requires op.dst.Some? && op.dst.value.ref.Some? ==> op.dst.value.ref.value in state.loadedRefs
      modifies this, repo, state
      ensures Valid() && ExecSpec(ctx, op, editor, old(repo.refs), repo.refs, r)
      ensures !r.Done? ==> repo.refs == old(repo.refs) && state.loadedRefs == old(state.loadedRefs)
      ensures r.Done? ==> RecordedAll(less, r.result, op, old(state.loadedRefs), state.loadedRefs)
      ensures r.Done? ==>
                selection == if r.result.dst.rev.Some? then Selection(r.result.dst.rev, r.result.dst.selection)
                             else Selection(r.result.src.rev, r.result.src.selection)
    {
      hide ExecSpec, Accounts, AgreesExcept, Agrees, IsOrder, Recorded, Shows, BrokenBy, AllBroken, SelectionAgrees;
      ghost var before, loaded0 := repo.refs, state.loadedRefs;
      r := Exec(repo, ctx, op, editor);
      OperationLaws.AllOrNothing(ctx, op, editor, before, repo.refs, r);
      if !r.Done? {
        return;
      }
      OperationAccounts(ctx, op, editor, before, repo.refs, r);
      AfterOperation(before, repo.refs, loaded0, r.result, op);
      Record(r.result.src, op.src, now, before, AllBroken(r.result, op));
      ghost var loaded1 := state.loadedRefs;
      RecordedKeys(less, r.result.src, op.src, loaded0, loaded1);
      if r.result.dst.rev.Some? {
        Record(r.result.dst, op.dst.value, now, before, BrokenBy(r.result.dst, op.dst.value));
        selection := Selection(r.result.dst.rev, r.result.dst.selection);
      } else {
        selection := Selection(r.result.src.rev, r.result.src.selection);
      }
      AgreesAgain(repo.refs, state.loadedRefs, before);
      RecordedBoth(less, r.result, op, before, repo.refs, loaded0, loaded1, state.loadedRefs);
    }

    /** Renames a ref, as the user does by editing its name. */
    method Rename(refPrev: RefName, name: string) returns (ok: bool)
      requires Valid() && refPrev in state.loadedRefs && name != Name(refPrev)
      modifies this, repo, state
      ensures Valid() && ok == CanRename(old(repo.refs), refPrev, name, isValidName)
      ensures !ok ==>
                repo.refs == old(repo.refs) && state.loadedRefs == old(state.loadedRefs) && selection == old(selection)
      ensures ok ==>
                var ref, commit := Renamed(refPrev, name), old(repo.refs[refPrev]);
                && repo.refs == Rekeyed(old(repo.refs), refPrev, ref, commit)
                && OnlyMoved(less, old(state.loadedRefs), state.loadedRefs, refPrev, ref,
                       old(state.loadedRefs[refPrev].refState.history).Push(Fresh(ref, commit)))
                && selection == RenamedSelection(old(selection), refPrev, Rev(commit, Some(ref)))
    {
      hide Fits, SelectionsFit, IsOrder, Agrees, SelectionAgrees, RenamedSelection, OnlyMoved, SnapshotsOnly;
      HistoryAt(repo.refs, state.loadedRefs, refPrev);
      ghost var selection0 := selection;
      ghost var refs0, loaded0 := repo.refs, state.loadedRefs;
      ghost var h := loaded0[refPrev].refState.history;
      var ref;
      ok, ref := GitRefRename(refPrev, name);
      if !ok {
        return;
      }
      RenamedName(refPrev, name);
      RenamedAgrees(refs0, selection0, refPrev, ref);
      PushFresh(ref, repo.refs[ref], h);
      state.HistoryPush(ref, Fresh(ref, repo.refs[ref]));
      ghost var loaded1 := state.loadedRefs;
      RestoredAgrees(refs0, loaded0, refPrev, ref, RefState(name, repo.refs[ref]),
          h.Push(Fresh(ref, repo.refs[ref])));
      state.SnapshotInitialPush(ref, less);
      SnapshotsAgree(less, repo.refs, loaded1, state.loadedRefs, ref);
      SnapshotsMoved(less, loaded0, state.loadedRefs, refPrev, ref, h.Push(Fresh(ref, repo.refs[ref])));
    }

    /** Restores a snapshot, unless the ref is in that state already. */
    method RestoreSnapshot(ref: RefName, refState: RefState) returns (ok: bool)
      requires Valid() && ref in state.loadedRefs
      modifies this, repo, state
      ensures var h := old(state.loadedRefs[ref].refState.history);
              var same := old(repo.refs[ref]) == refState.head && Name(ref) == refState.name;
              var ref' := RefAfter(ref, refState.name);
              && ok == (same || CanRestore(old(repo.refs), ref, refState, isValidName))
              && (!ok ==>
                   && repo.refs == old(repo.refs)[ref := refState.head] && state.loadedRefs == old(state.loadedRefs)
                   && selection == old(selection) && (Valid() <==> old(repo.refs[ref]) == refState.head))
              && (ok ==>
                   && Valid()
                   && repo.refs == Rekeyed(old(repo.refs), ref, ref', refState.head)
                   && if same then state.loadedRefs == old(state.loadedRefs) && selection == old(selection)
                      else
                        && OnlyMoved(less, old(state.loadedRefs), state.loadedRefs, ref, ref',
                               h.Push(Fresh(ref', refState.head)))
                        && selection == NOTHING_SELECTED)
    {
      hide Fits, SelectionsFit, IsOrder;
      HistoryAt(repo.refs, state.loadedRefs, ref);
      ghost var refs0, loaded0 := repo.refs, state.loadedRefs;
      var h := state.loadedRefs[ref].refState.history;
      if refState == h.current.refState {
        return true;
      }
      var ref';
      ok, ref' := RefStateRestore(ref, refState);
      if !ok {
        HalfRestored(refs0, loaded0, ref, refState);
        return;
      }
      PushFresh(ref', refState.head, h);
      state.HistoryPush(ref', Fresh(ref', refState.head));
      ghost var loaded1 := state.loadedRefs;
      RestoredAgrees(refs0, loaded0, ref, ref', refState, h.Push(Fresh(ref', refState.head)));
      state.SnapshotInitialPush(ref', less);
      SnapshotsAgree(less, repo.refs, loaded1, state.loadedRefs, ref');
      SnapshotsMoved(less, loaded0, state.loadedRefs, ref, ref', h.Push(Fresh(ref', refState.head)));
      selection := NOTHING_SELECTED;
    }

    /** Whether the step can be taken: it is about refs that are there, and there is something to undo or redo. */
    predicate Enabled(step: UserStep)
      reads this, repo, state
    {
      match step
      case Operate(op, _) =>
        && op.Valid() && RefAgrees(op.src, repo.refs) && (op.dst.Some? ==> RefAgrees(op.dst.value, repo.refs))
        && (op.src.ref.Some? ==> op.src.ref.value in state.loadedRefs)
        && (op.dst.Some? && op.dst.value.ref.Some? ==> op.dst.value.ref.value in state.loadedRefs)
      case Undo(ref) => ref in state.loadedRefs && |state.loadedRefs[ref].refState.history.prev| > 0
      case Redo(ref) => ref in state.loadedRefs && |state.loadedRefs[ref].refState.history.next| > 0
      case GiveName(ref, name) => ref in state.loadedRefs && name != Name(ref)
      case RestoreTo(ref, _) => ref in state.loadedRefs
    }

    /** Takes any steps the user can take, one after the other, until one fails to restore a state. */
    method RunSteps(ctx: Ctx, steps: seq<UserStep>, now: int) returns (ok: bool)
      requires Valid()
      modifies this, repo, state
      ensures ok ==> Valid()
    {
      hide ExecSpec, Agrees, IsOrder, OnBranch, RefAgrees, RecordedAll;
      ok := true;
      for i := 0 to |steps|
        invariant Valid()
      {
        if Enabled(steps[i]) {
          match steps[i] {
            case Operate(op, editor) => var r := GitOpExec(ctx, op, editor, now);
            case Undo(ref) => ok := UndoRedo(ref, true);
            case Redo(ref) => ok := UndoRedo(ref, false);
            case GiveName(ref, name) => var renamed := Rename(ref, name);
            case RestoreTo(ref, refState) => ok := RestoreSnapshot(ref, refState);
          }
          if !ok {
            return;
          }
        }
      }
    }
  }

  // ----- histories after an operation -----

  /** The histories agree with where the refs are, but those of `broken` with where they were before. */
  ghost predicate AgreesExcept(refs: Refs, loaded: LoadedRefs, before: Refs, broken: set<RefName>) {
    forall ref :: ref in loaded ==>
      ref in refs && ref in before
          && Fits(ref, if ref in broken then before[ref] else refs[ref], loaded[ref].refState.history)
  }

  /** One ref's history has the new state on top if the ref changed; all others are as they were. */
  ghost predicate Recorded(less: RefOrder, res: Res, prev: Rev, before: LoadedRefs, after: LoadedRefs) {
    && after.Keys == before.Keys
    && forall ref :: ref in before ==>
         if Changed(res, prev) && prev.ref == Some(ref) then Pushed(less, ref, before[ref], after[ref], res)
         else after[ref] == before[ref]
  }

  /** The history has what the operation says of the ref on top, and the first snapshot is remembered. */
  ghost predicate Pushed(less: RefOrder, ref: RefName, before: LoadedRef, after: LoadedRef, res: Res)
    requires res.rev.Some?
  {
    && after.refState.history == before.refState.history.Push(
         HistoryRefState(RefState(Name(ref), res.rev.value.commit), res.selection, res.selectionPrev))
    && Remembers(less, before, after)
  }

  /** The history of every ref that changed has the new state on top, and what is remembered about all others is as it
      was. */
  ghost predicate RecordedAll(less: RefOrder, r: OpResult, op: Op, before: LoadedRefs, after: LoadedRefs) {
    && after.Keys == before.Keys
    && forall ref :: ref in before ==>
         if Changed(r.src, op.src) && op.src.ref == Some(ref) then Pushed(less, ref, before[ref], after[ref], r.src)
         else if op.dst.Some? && Changed(r.dst, op.dst.value) && op.dst.value.ref == Some(ref) then
           Pushed(less, ref, before[ref], after[ref], r.dst)
         else after[ref] == before[ref]
  }

  ghost function BrokenBy(res: Res, prev: Rev): set<RefName> {
    if Changed(res, prev) && prev.ref.Some? then {prev.ref.value} else {}
  }

  ghost function AllBroken(r: OpResult, op: Op): set<RefName> {
    BrokenBy(r.src, op.src) + (if op.dst.Some? then BrokenBy(r.dst, op.dst.value) else {})
  }

  lemma AfterOperation(before: Refs, after: Refs, loaded: LoadedRefs, r: OpResult, op: Op)
    requires Agrees(before, loaded) && Accounts(r, op, before, after)
    ensures AgreesExcept(after, loaded, before, AllBroken(r, op))
    ensures Shows(r.src, op.src, after) && (r.dst.rev.Some? ==> op.dst.Some? && Shows(r.dst, op.dst.value, after))
    ensures var res := if r.dst.rev.Some? then r.dst else r.src;
            SelectionAgrees(after, Selection(res.rev, res.selection))
    ensures BrokenBy(r.src, op.src) <= AllBroken(r, op)
    ensures AllBroken(r, op) - BrokenBy(r.src, op.src) == if r.dst.rev.Some? then BrokenBy(r.dst, op.dst.value) else {}
    ensures r.dst.rev.Some? ==> BrokenBy(r.dst, op.dst.value) - BrokenBy(r.dst, op.dst.value) == {}
  {
    hide Fits;
    forall ref | ref in loaded && ref !in AllBroken(r, op) ensures ref in after && after[ref] == before[ref] {
      assert !ChangedRef(r, op, ref);
    }
  }

  lemma AgreesAgain(refs: Refs, loaded: LoadedRefs, before: Refs)
    requires AgreesExcept(refs, loaded, before, {})
    ensures Agrees(refs, loaded)
  {
    hide Fits;
  }

  lemma RecordedNothing(less: RefOrder, res: Res, prev: Rev, loaded: LoadedRefs)
    ensures !Changed(res, prev) || prev.ref.None? ==> Recorded(less, res, prev, loaded, loaded)
  {
  }

  lemma RecordedKeys(less: RefOrder, res: Res, prev: Rev, before: LoadedRefs, after: LoadedRefs)
    requires Recorded(less, res, prev, before, after)
    ensures after.Keys == before.Keys
  {
  }

  lemma RecordedBoth(less: RefOrder, r: OpResult, op: Op, before: Refs, after: Refs, l0: LoadedRefs, l1: LoadedRefs,
      l2: LoadedRefs)
    requires Accounts(r, op, before, after) && Recorded(less, r.src, op.src, l0, l1)
    requires if r.dst.rev.Some? then op.dst.Some? && Recorded(less, r.dst, op.dst.value, l1, l2) else l2 == l1
    ensures RecordedAll(less, r, op, l0, l2)
  {
    hide Shows, Pushed;
  }

  lemma RecordFits(refs: Refs, loaded: LoadedRefs, before: Refs, broken: set<RefName>, ref: RefName, x: HistoryRefState)
    requires AgreesExcept(refs, loaded, before, broken) && ref in loaded && ref in broken
    requires x.refState == RefState(Name(ref), refs[ref]) && x.selection <= OnBranch(refs[ref])
             && x.selectionPrev <= OnBranch(before[ref])
    ensures AgreesExcept(refs, WithHistory(loaded, ref, loaded[ref].refState.history.Push(x)), before, broken - {ref})
  {
    hide SelectionsFit, OnBranch;
    PushFits(ref, refs[ref], loaded[ref].refState.history, x);
  }

  lemma SnapshotsAgreeExcept(less: RefOrder, refs: Refs, before: Refs, broken: set<RefName>, l: LoadedRefs,
      l': LoadedRefs, ref: RefName)
    requires AgreesExcept(refs, l, before, broken) && SnapshotsOnly(less, l, l', ref)
    ensures AgreesExcept(refs, l', before, broken)
  {
    hide Fits, Remembers;
    forall r | r in l' ensures r in refs && r in before
        && Fits(r, if r in broken then before[r] else refs[r], l'[r].refState.history) {
      assert r in l;
    }
  }

  lemma PushFresh(ref: RefName, head: Commit, h: Past)
    requires SelectionsFit(h.Whole())
    ensures h.Push(Fresh(ref, head)).current.refState == RefState(Name(ref), head)
    ensures SelectionsFit(h.Push(Fresh(ref, head)).Whole())
  {
    PushFits(ref, head, h, Fresh(ref, head));
  }

  lemma HistoryAt(refs: Refs, loaded: LoadedRefs, ref: RefName)
    requires Agrees(refs, loaded) && ref in loaded
    ensures loaded.Keys <= refs.Keys
    ensures loaded[ref].refState.history.current.refState == RefState(Name(ref), refs[ref])
    ensures SelectionsFit(loaded[ref].refState.history.Whole())
  {
  }

  lemma MovedFits(h: Past, undo: bool)
    requires SelectionsFit(h.Whole()) && if undo then h.prev != [] else h.next != []
    ensures var h' := if undo then h.Back() else h.Forward();
            && SelectionsFit(h'.Whole())
            && (if undo then h.current.selectionPrev else h'.current.selection) <= OnBranch(h'.current.refState.head)
  {
    hide SelectionsFit, OnBranch;
    if undo { BackFits(h); } else { ForwardFits(h); }
  }

  /** The histories after a ref was restored, with its new one. */
  function RestoredTo(loaded: LoadedRefs, ref: RefName, ref': RefName, h: Past): (loaded': LoadedRefs)
    requires ref in loaded
    ensures ref' in loaded'
  {
    WithHistory(Rekeyed(loaded, ref, ref', loaded[ref]), ref', h)
  }

  /** After a ref was put back and its history was moved along, they agree again. */
  lemma RestoredAgrees(refs: Refs, loaded: LoadedRefs, ref: RefName, ref': RefName, to: RefState, h: Past)
    requires Agrees(refs, loaded) && ref in loaded && (ref' == ref || ref' !in refs) && Name(ref') == to.name
    requires h.current.refState == to && SelectionsFit(h.Whole())
    ensures Agrees(Rekeyed(refs, ref, ref', to.head), RestoredTo(loaded, ref, ref', h))
    ensures RestoredTo(loaded, ref, ref', h)[ref'].refState.history == h
  {
    hide SelectionsFit;
  }

  /** After a restoration that failed, the ref has the commit but not the name: they agree only if it had the commit. */
  lemma HalfRestored(refs: Refs, loaded: LoadedRefs, ref: RefName, to: RefState)
    requires Agrees(refs, loaded) && ref in loaded
    ensures Agrees(refs[ref := to.head], loaded) <==> refs[ref] == to.head
  {
    hide SelectionsFit;
    if refs[ref] == to.head {
      assert refs[ref := to.head] == refs;
    } else {
      assert !Fits(ref, refs[ref := to.head][ref], loaded[ref].refState.history);
    }
  }

  lemma SnapshotsAgree(less: RefOrder, refs: Refs, before: LoadedRefs, after: LoadedRefs, ref: RefName)
    requires Agrees(refs, before) && SnapshotsOnly(less, before, after, ref)
    ensures Agrees(refs, after)
  {
    hide Fits, Remembers;
    forall r | r in after ensures r in refs && Fits(r, refs[r], after[r].refState.history) {
      assert r in before;
    }
  }

  lemma SnapshotsMoved(less: RefOrder, before: LoadedRefs, after: LoadedRefs, ref: RefName, ref': RefName, h: Past)
    requires ref in before && SnapshotsOnly(less, RestoredTo(before, ref, ref', h), after, ref')
    ensures OnlyMoved(less, before, after, ref, ref', h)
  {
  }

  /** Undoing what was just recorded takes the ref, and nothing else, back to where it was. */
  lemma UndoUndoes(refs: Refs, ref: RefName, h: Past, x: HistoryRefState, isValidName: string -> bool)
    requires ref in refs && Fits(ref, refs[ref], h)
    ensures var back := h.Push(x).Back();
            && back == Timeline(h.current, h.prev, [x]) && RefAfter(ref, back.current.refState.name) == ref
            && Rekeyed(refs[ref := x.refState.head], ref, ref, back.current.refState.head) == refs
            && CanRestore(refs[ref := x.refState.head], ref, back.current.refState, isValidName)
  {
    hide SelectionsFit;
    PushCutsRedo(h, x);
  }

  // ----- an undo that is half done -----

  const REF_A := HEADS + "a"
  const REF_B := HEADS + "b"
  const REF_X := HEADS + "x"

  lemma ShortNames()
    ensures Name(REF_A) == "a" && Name(REF_B) == "b" && Name(REF_X) == "x"
    ensures REF_A != REF_B && REF_B != REF_X && REF_X != REF_A
    ensures IsBranchOrTag(REF_A) && IsBranchOrTag(REF_B) && IsBranchOrTag(REF_X)
    ensures Renamed(REF_A, "b") == REF_B && Renamed(REF_X, "a") == REF_A && Renamed(REF_B, "a") == REF_A
    ensures |REF_A| == |REF_B| == |REF_X|
  {
    assert REF_A[|HEADS|..] == "a" && REF_B[|HEADS|..] == "b" && REF_X[|HEADS|..] == "x";
  }

  /** The name of the first branch becomes free, is taken by the second one, and is not to be had any more. */
  lemma NamesInTurn(c: Commit, d: Commit, e: Commit, isValidName: string -> bool)
    requires isValidName("a") && isValidName("b")
    ensures CanRestore(map[REF_A := c, REF_X := e], REF_A, RefState("b", d), isValidName)
    ensures CanRename(map[REF_B := d, REF_X := e], REF_X, "a", isValidName)
    ensures !CanRestore(map[REF_B := d, REF_A := e], REF_B, RefState("a", c), isValidName)
  {
    ShortNames();
    hide Name, Renamed, IsBranchOrTag;
    assert !Collides(REF_B, REF_A) && !Collides(REF_B, REF_X) && !Collides(REF_A, REF_B) && !Collides(REF_A, REF_X);
  }

  lemma RefsInTurn(c: Commit, d: Commit, e: Commit)
    ensures RefAfter(REF_A, "b") == REF_B && REF_X != REF_A && REF_X != REF_B && Name(REF_X) != "a"
    ensures Name(REF_A) == "a" && Renamed(REF_X, "a") == REF_A && REF_B != REF_A
    ensures Rekeyed(map[REF_A := c, REF_X := e], REF_A, REF_B, d) == map[REF_B := d, REF_X := e]
    ensures Rekeyed(map[REF_B := d, REF_X := e], REF_X, REF_A, e) == map[REF_B := d, REF_A := e]
    ensures map[REF_B := d, REF_A := e][REF_B := c] == map[REF_B := c, REF_A := e]
  {
    ShortNames();
    hide Name, Renamed;
  }

  lemma MovedOthers(less: RefOrder, before: LoadedRefs, after: LoadedRefs, ref: RefName, ref': RefName, h: Past,
      other: RefName)
    requires ref in before && OnlyMoved(less, before, after, ref, ref', h)
    ensures ref' in after && after[ref'].refState.history == h
    ensures other in before && other != ref && other != ref' ==> other in after && after[other] == before[other]
  {
  }

  /** The last change of the ref gave it another name, and it was at that commit before. */
  ghost predicate CameFrom(loaded: LoadedRefs, ref: RefName, before: RefState) {
    && ref in loaded
    && loaded[ref].refState.history.prev != []
    && loaded[ref].refState.history.Back().current.refState == before
  }

  lemma CameFromPushed(less: RefOrder, before: LoadedRefs, after: LoadedRefs, ref: RefName, ref': RefName,
      x: HistoryRefState)
    requires ref in before && OnlyMoved(less, before, after, ref, ref', before[ref].refState.history.Push(x))
    ensures CameFrom(after, ref', before[ref].refState.history.current.refState)
  {
  }

  lemma CameFromStill(less: RefOrder, before: LoadedRefs, after: LoadedRefs, ref: RefName, ref': RefName, h: Past,
      other: RefName, state: RefState)
    requires ref in before && OnlyMoved(less, before, after, ref, ref', h) && CameFrom(before, other, state)
    requires other != ref && other != ref'
    ensures CameFrom(after, other, state)
  {
  }

  /** A fresh session, and a snapshot restoration that gives a branch another name and another commit. */
  method RestoreUnderNewName(c: Commit, d: Commit, e: Commit, now: int, isValidName: string -> bool, less: RefOrder)
    returns (session: Session, restored: bool)
    requires c != d && isValidName("a") && isValidName("b") && IsOrder(less)
    ensures restored && fresh(session) && fresh(session.repo) && fresh(session.state) && session.Valid()
    ensures session.isValidName == isValidName && session.repo.refs == map[REF_B := d, REF_X := e]
    ensures REF_X in session.state.loadedRefs && CameFrom(session.state.loadedRefs, REF_B, RefState("a", c))
  {
    hide *;
    NamesInTurn(c, d, e, isValidName);
    RefsInTurn(c, d, e);
    EmptyDisk();
    var repo := new Repo();
    repo.refs := map[REF_A := c, REF_X := e];
    session := new Session(repo, map[], now, isValidName, less);
    ghost var loaded := session.state.loadedRefs;
    ValidHistory(session, REF_A);
    restored := session.RestoreSnapshot(REF_A, RefState("b", d));
    CameFromPushed(less, loaded, session.state.loadedRefs, REF_A, REF_B, Fresh(REF_B, d));
    MovedOthers(less, loaded, session.state.loadedRefs, REF_A, REF_B,
        loaded[REF_A].refState.history.Push(Fresh(REF_B, d)), REF_X);
  }

  /** Another branch takes the name that became free. */
  method TakeOldName(session: Session, ghost c: Commit, ghost d: Commit, ghost e: Commit) returns (renamed: bool)
    requires session.Valid() && session.repo.refs == map[REF_B := d, REF_X := e]
    requires session.isValidName("a") && session.isValidName("b")
    requires REF_X in session.state.loadedRefs && CameFrom(session.state.loadedRefs, REF_B, RefState("a", c))
    modifies session, session.repo, session.state
    ensures renamed && session.Valid() && session.repo.refs == map[REF_B := d, REF_A := e]
    ensures CameFrom(session.state.loadedRefs, REF_B, RefState("a", c))
  {
    hide *;
    NamesInTurn(c, d, e, session.isValidName);
    RefsInTurn(c, d, e);
    ghost var loaded := session.state.loadedRefs;
    renamed := session.Rename(REF_X, "a");
    CameFromStill(session.less, loaded, session.state.loadedRefs, REF_X, REF_A,
        loaded[REF_X].refState.history.Push(Fresh(REF_A, e)), REF_B, RefState("a", c));
  }

  lemma UndoGoesTo(loaded: LoadedRefs, ref: RefName, before: RefState)
    requires CameFrom(loaded, ref, before)
    ensures ref in loaded && loaded[ref].refState.history.prev != []
            && loaded[ref].refState.history.Back().current.refState == before
  {
  }

  /** From a fresh session: restoring a snapshot gives a branch another name and another commit, and a second branch is
      given the name that became free. Undoing the restoration then fails, but the first branch is at its old commit
      under its new name, and its history does not know. */
  method UndoFailsHalfway(c: Commit, d: Commit, e: Commit, now: int, isValidName: string -> bool, less: RefOrder)
    returns (session: Session, restored: bool, renamed: bool, undone: bool)
    requires c != d && isValidName("a") && isValidName("b") && IsOrder(less)
    ensures restored && renamed && !undone
    ensures session.repo.refs == map[REF_B := c, REF_A := e] && !session.Valid()
  {
    hide *;
    session, restored := RestoreUnderNewName(c, d, e, now, isValidName, less);
    renamed := TakeOldName(session, c, d, e);
    NamesInTurn(c, d, e, isValidName);
    RefsInTurn(c, d, e);
    UndoGoesTo(session.state.loadedRefs, REF_B, RefState("a", c));
    undone := session.UndoRedo(REF_B, true);
  }

  lemma EmptyDisk()
    ensures DiskFits(map[])
  {
  }

  lemma ValidHistory(session: Session, ref: RefName)
    requires session.Valid() && ref in session.state.loadedRefs
    ensures ref in session.repo.refs
    ensures session.state.loadedRefs[ref].refState.history.current.refState
            == RefState(Name(ref), session.repo.refs[ref])
  {
  }
}
