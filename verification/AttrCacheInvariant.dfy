/** What every step of every thread keeps, and what follows for every interleaving. */
module AttrCacheInvariant {
  import opened Wrappers
  import opened AttrCache

  /** Between locking and unlocking. */
  predicate Critical(pc: Pc) {
    pc.Lookup? || pc.Take? || pc.UnlockLookup? || pc.Own? || pc.Inc? || pc.Swap? || pc.Disown? || pc.DropOld?
    || pc.UnlockUpsert? || pc.Remove? || pc.UnlockRemove?
  }

  /** Which of its variables a thread has set, by where it is. */
  predicate Shape(t: Thread) {
    match t.pc
    case Idle | LockLookup | Lookup | Take(_) => t.file.None? && t.updated.None? && t.extra.None?
    case UnlockLookup(found) => (found || t.file.None?) && t.updated.None? && t.extra.None?
    case Check | Load | Failed => t.updated.None? && t.extra.None?
    case LockUpsert | Own | Inc | UnlockUpsert | DropFile | DropUpdated => t.updated.Some? && t.extra.None?
    case Swap => t.updated.Some? && t.extra == t.updated
    case Disown | DropOld => t.updated.Some? && t.extra.Some?
    case LockRemove | Remove | DropLast | Hold => t.file.Some? && t.updated.None? && t.extra.None?
    case UnlockRemove => t.file.Some? && t.updated.None? && (t.extra.None? || t.extra == t.file)
    case DisownRemoved | DropRemoved => t.file.Some? && t.updated.None? && t.extra == t.file
  }

  /** Whether the thread knows that there is an entry for its path. */
  predicate HasEntry(pc: Pc) {
    !(pc.Idle? || pc.LockLookup? || pc.Lookup? || pc == UnlockLookup(false))
  }

  /** The file is in memory, and is one for that slot. */
  predicate Alive(s: State, f: FileId, k: Key) {
    f in s.files && s.files[f].key == k
  }

  predicate AliveIfAny(s: State, o: Option<FileId>, k: Key) {
    o.Some? ==> Alive(s, o.value, k)
  }

  predicate ThreadOk(s: State, tid: nat)
    requires tid < |s.threads|
  {
    var t := s.threads[tid];
    && Shape(t)
    && (Critical(t.pc) <==> s.lock == Some(tid))
    && (HasEntry(t.pc) ==> t.key.path in s.entries)
    && AliveIfAny(s, t.file, t.key) && AliveIfAny(s, t.updated, t.key) && AliveIfAny(s, t.extra, t.key)
    && AliveIfAny(s, t.dying, t.key)
    && (t.pc.Take? ==> t.key in s.slots && s.slots[t.key] == t.pc.seen)
  }

  function InSlot(s: State, f: FileId): nat
    requires f in s.files
  {
    if s.files[f].key in s.slots && s.slots[s.files[f].key] == f then 1 else 0
  }

  /** A file's count is the slots that hold it plus the references that threads hold; its owner is set only while it is
      in its slot or on the way; and exactly when the count is zero, exactly one thread is about to free it. */
  predicate FileOk(s: State, f: FileId)
    requires f in s.files
  {
    && s.files[f].refcount == InSlot(s, f) + Total(s.threads, f, References)
    && (s.files[f].owned ==> InSlot(s, f) + Total(s.threads, f, Marks) > 0)
    && Total(s.threads, f, Deaths) == (if s.files[f].refcount == 0 then 1 else 0)
    && s.files[f].key.path in s.entries
  }

  predicate SlotsOk(s: State) {
    forall k :: k in s.slots ==> Alive(s, s.slots[k], k)
  }

  ghost predicate Inv(s: State) {
    && (forall tid :: 0 <= tid < |s.threads| ==> ThreadOk(s, tid))
    && (forall f :: f in s.files ==> FileOk(s, f))
    && SlotsOk(s)
  }

  /** What a step by one thread may do to what another thread relies on. */
  ghost predicate Allowed(s: State, s': State, tid: nat) {
    && tid < |s.threads| == |s'.threads| && s'.threads == s.threads[tid := s'.threads[tid]]
    && s.entries <= s'.entries
    && (s'.lock == s.lock || ((s.lock == None || s.lock == Some(tid)) && (s'.lock == None || s'.lock == Some(tid))))
    && (s'.slots == s.slots || s.lock == Some(tid))
    && forall f :: f in s.files ==> KeptOrFreed(s, s', tid, f)
  }

  ghost predicate KeptOrFreed(s: State, s': State, tid: nat, f: FileId)
    requires tid < |s.threads| && f in s.files
  {
    if f in s'.files then s'.files[f].key == s.files[f].key
    else Total(s.threads, f, References) == 0 && Total(s.threads, f, Deaths) == Part(s.threads[tid], f, Deaths)
  }

  lemma OtherThreadOk(s: State, s': State, tid: nat, j: nat)
    requires Inv(s) && Allowed(s, s', tid) && j < |s.threads| && j != tid
    ensures ThreadOk(s', j)
  {
    hide Shape, Critical, HasEntry, Total, FileOk;
    var t := s.threads[j];
    assert ThreadOk(s, j) && s'.threads[j] == t;
    OthersFile(s, s', tid, j, t.file);
    OthersFile(s, s', tid, j, t.updated);
    OthersFile(s, s', tid, j, t.extra);
    OthersFile(s, s', tid, j, t.dying);
    assert t.pc.Take? ==> Critical(t.pc) by { TakeIsCritical(t.pc); }
  }

  lemma TakeIsCritical(pc: Pc)
    ensures pc.Take? ==> Critical(pc)
  {
  }

  lemma OthersFile(s: State, s': State, tid: nat, j: nat, o: Option<FileId>)
    requires Inv(s) && Allowed(s, s', tid) && j < |s.threads| && j != tid && AliveIfAny(s, o, s.threads[j].key)
    requires var t := s.threads[j]; o == t.file || o == t.updated || o == t.extra || o == t.dying
    ensures AliveIfAny(s', o, s.threads[j].key)
  {
    if o.Some? {
      var f := o.value;
      assert KeptOrFreed(s, s', tid, f);
      if f !in s'.files {
        TotalUpdate(s.threads, j, s.threads[j], f, References);
        TotalTwo(s.threads, tid, j, f, Deaths);
      }
    }
  }

  /** A file that the step does not touch stays as it should be. */
  lemma UntouchedFile(s: State, s': State, tid: nat, f: FileId)
    requires tid < |s.threads| && f in s.files && FileOk(s, f) && s.entries <= s'.entries
    requires |s'.threads| == |s.threads| && s'.threads == s.threads[tid := s'.threads[tid]]
    requires f in s'.files && s'.files[f] == s.files[f] && InSlot(s', f) == InSlot(s, f)
    requires Part(s'.threads[tid], f, References) == Part(s.threads[tid], f, References)
    requires Part(s'.threads[tid], f, Marks) == Part(s.threads[tid], f, Marks)
    requires Part(s'.threads[tid], f, Deaths) == Part(s.threads[tid], f, Deaths)
    ensures FileOk(s', f)
  {
    hide Part, InSlot, Total;
    var t := s'.threads[tid];
    TotalUpdate(s.threads, tid, t, f, References);
    TotalUpdate(s.threads, tid, t, f, Marks);
    TotalUpdate(s.threads, tid, t, f, Deaths);
  }

  lemma Preserved(s: State, s': State, tid: nat)
    requires Inv(s) && Allowed(s, s', tid) && ThreadOk(s', tid) && SlotsOk(s')
    requires forall f :: f in s'.files ==> FileOk(s', f)
    ensures Inv(s')
  {
    forall j | 0 <= j < |s'.threads| ensures ThreadOk(s', j) {
      if j != tid {
        OtherThreadOk(s, s', tid, j);
      }
    }
  }

  /** A step that changes no file and no slot. */
  lemma LocalKept(s: State, s': State, tid: nat, t: Thread)
    requires Inv(s) && tid < |s.threads| && s' == State(s'.lock, s'.entries, s.slots, s.files, s.threads[tid := t])
    requires s.entries <= s'.entries && ThreadOk(s', tid)
    requires s'.lock == s.lock || ((s.lock == None || s.lock == Some(tid)) && (s'.lock == None || s'.lock == Some(tid)))
    requires forall f :: Part(t, f, References) == Part(s.threads[tid], f, References)
    requires forall f :: Part(t, f, Marks) == Part(s.threads[tid], f, Marks)
    requires forall f :: Part(t, f, Deaths) == Part(s.threads[tid], f, Deaths)
    ensures Inv(s')
  {
    hide Part, Total, ThreadOk, FileOk;
    forall f | f in s'.files ensures FileOk(s', f) {
      UntouchedFile(s, s', tid, f);
    }
    Preserved(s, s', tid);
  }

  /** A thread may go on at `pc` with the variables it has. */
  ghost predicate GoesOn(t: Thread, pc: Pc) {
    && Shape(t.(pc := pc)) && !pc.Take? && (HasEntry(pc) ==> HasEntry(t.pc)) && t.dying.None?
    && forall f :: Part(t.(pc := pc), f, Marks) == Part(t, f, Marks)
  }

  /** A thread goes on, and takes the lock or gives it back when it has to. */
  lemma PcKept(s: State, s': State, tid: nat, pc: Pc)
    requires Inv(s) && tid < |s.threads| && GoesOn(s.threads[tid], pc)
    requires s' == s.(lock := s'.lock).With(tid, s.threads[tid].(pc := pc))
    requires if Critical(pc) == Critical(s.threads[tid].pc) then s'.lock == s.lock
             else if Critical(pc) then s.lock == None && s'.lock == Some(tid)
             else s'.lock == None
    ensures Inv(s')
  {
    hide Shape, Critical, HasEntry;
    assert ThreadOk(s, tid);
    var t := s'.threads[tid];
    assert ThreadOk(s', tid);
    LocalKept(s, s', tid, t);
  }

  lemma LockKept(s: State, tid: nat, c: Choice, taken: Pc, failed: Pc)
    requires Inv(s) && tid < |s.threads| && !Critical(s.threads[tid].pc) && Critical(taken) && !Critical(failed)
    requires GoesOn(s.threads[tid], taken) && GoesOn(s.threads[tid], failed)
    ensures var r := LockStep(s, tid, c, taken, failed); r.Stuck? || (r.Next? && Inv(r.state))
  {
    hide Inv, GoesOn, Critical;
    var r := LockStep(s, tid, c, taken, failed);
    if r.Next? {
      PcKept(s, r.state, tid, if c.code < 0 then failed else taken);
    }
  }

  lemma UnlockKept(s: State, tid: nat, pc: Pc)
    requires Inv(s) && tid < |s.threads| && Critical(s.threads[tid].pc) && !Critical(pc) && GoesOn(s.threads[tid], pc)
    ensures Inv(UnlockStep(s, tid, pc).state)
  {
    PcKept(s, UnlockStep(s, tid, pc).state, tid, pc);
  }

  // ----- the steps -----

  lemma OwnKept(s: State, tid: nat, f: FileId, owned: bool, pc: Pc)
    requires Inv(s) && tid < |s.threads| && Critical(pc) == Critical(s.threads[tid].pc)
    requires var t, t' := s.threads[tid], s.threads[tid].(pc := pc);
             && Shape(t') && !pc.Take? && t.dying.None? && HasEntry(t.pc) && f in s.files
             && (forall g :: g != f ==> Part(t', g, Marks) == Part(t, g, Marks))
             && (owned ==> Part(t', f, Marks) > 0)
    ensures var r := OwnStep(s, tid, f, owned, pc); r.Next? && Inv(r.state)
  {
    hide Shape, Critical, HasEntry, Total, Part, FileOk;
    var s' := OwnStep(s, tid, f, owned, pc).state;
    assert ThreadOk(s, tid);
    assert ThreadOk(s', tid);
    OwnParts(s.threads[tid], pc);
    OwnFile(s, tid, f, owned, pc);
    forall g | g in s'.files ensures FileOk(s', g) {
      if g != f {
        UntouchedFile(s, s', tid, g);
      }
    }
    Preserved(s, s', tid);
  }

  lemma OwnFile(s: State, tid: nat, f: FileId, owned: bool, pc: Pc)
    requires tid < |s.threads| && f in s.files && FileOk(s, f)
    requires owned ==> Part(s.threads[tid].(pc := pc), f, Marks) > 0
    ensures FileOk(OwnStep(s, tid, f, owned, pc).state, f)
  {
    hide Total, Part;
    var s' := OwnStep(s, tid, f, owned, pc).state;
    var t' := s'.threads[tid];
    OwnParts(s.threads[tid], pc);
    assert InSlot(s', f) == InSlot(s, f);
    TotalUpdate(s.threads, tid, t', f, References);
    TotalUpdate(s.threads, tid, t', f, Deaths);
    TotalUpdate(s'.threads, tid, t', f, Marks);
  }

  lemma OwnParts(t: Thread, pc: Pc)
    ensures forall g :: Part(t.(pc := pc), g, References) == Part(t, g, References)
    ensures forall g :: Part(t.(pc := pc), g, Deaths) == Part(t, g, Deaths)
  {
  }

  lemma IncKept(s: State, tid: nat, f: FileId, t': Thread)
    requires Inv(s) && tid < |s.threads| && f in s.files && ThreadOk(s.With(tid, t'), tid)
    requires s.files[f].refcount > 0 && t'.dying == s.threads[tid].dying
    requires forall g :: Part(t', g, References) == Part(s.threads[tid], g, References) + (if g == f then 1 else 0)
    requires forall g :: Part(t', g, Marks) == Part(s.threads[tid], g, Marks)
    ensures var r := IncStep(s, tid, f, t'); r.Next? && Inv(r.state)
  {
    hide Shape, Critical, HasEntry, Total, FileOk;
    var s' := IncStep(s, tid, f, t').state;
    IncFile(s, tid, f, t');
    forall g | g in s'.files ensures FileOk(s', g) {
      if g != f {
        UntouchedFile(s, s', tid, g);
      }
    }
    Preserved(s, s', tid);
  }

  lemma IncFile(s: State, tid: nat, f: FileId, t': Thread)
    requires tid < |s.threads| && f in s.files && FileOk(s, f) && s.files[f].refcount > 0
    requires t'.dying == s.threads[tid].dying
    requires Part(t', f, References) == Part(s.threads[tid], f, References) + 1
    requires Part(t', f, Marks) == Part(s.threads[tid], f, Marks)
    ensures FileOk(IncStep(s, tid, f, t').state, f)
  {
    hide Total;
    assert InSlot(IncStep(s, tid, f, t').state, f) == InSlot(s, f);
    TotalUpdate(s.threads, tid, t', f, References);
    TotalUpdate(s.threads, tid, t', f, Marks);
    TotalUpdate(s.threads, tid, t', f, Deaths);
  }

  lemma DecKept(s: State, tid: nat, f: FileId, t': Thread)
    requires Inv(s) && tid < |s.threads| && f in s.files && ThreadOk(s.With(tid, t'), tid) && s.files[f].key == t'.key
    requires t'.dying.None? && s.threads[tid].dying.None?
    requires forall g :: Part(t', g, References) == Part(s.threads[tid], g, References) - (if g == f then 1 else 0)
    requires forall g :: Part(t', g, Marks) == Part(s.threads[tid], g, Marks)
    ensures var r := DecStep(s, tid, f, t'); r.Next? && Inv(r.state)
  {
    hide Critical, HasEntry, Total, FileOk;
    var s' := DecStep(s, tid, f, t').state;
    DecFile(s, tid, f, t');
    forall g | g in s'.files ensures FileOk(s', g) {
      if g != f {
        UntouchedFile(s, s', tid, g);
      }
    }
    Preserved(s, s', tid);
  }

  lemma DecFile(s: State, tid: nat, f: FileId, t': Thread)
    requires tid < |s.threads| && f in s.files && FileOk(s, f) && t'.dying.None? && s.threads[tid].dying.None?
    requires Part(t', f, References) == Part(s.threads[tid], f, References) - 1
    requires Part(t', f, Marks) == Part(s.threads[tid], f, Marks)
    ensures FileOk(DecStep(s, tid, f, t').state, f)
  {
    hide Total;
    var s' := DecStep(s, tid, f, t').state;
    var t'' := s'.threads[tid];
    assert InSlot(s', f) == InSlot(s, f);
    TotalUpdate(s.threads, tid, t'', f, References);
    TotalUpdate(s.threads, tid, t'', f, Marks);
    TotalUpdate(s.threads, tid, t'', f, Deaths);
  }

  /** Only a file that is in no slot and that no thread refers to is freed, and none that has to be is kept. */
  lemma FreeKept(s: State, tid: nat)
    requires Inv(s) && tid < |s.threads| && s.threads[tid].dying.Some?
    ensures var f := s.threads[tid].dying.value;
            var r := FreeStep(s, tid, f);
            && r.Next? && Inv(r.state) && r.state.files == s.files - {f}
            && InSlot(s, f) == 0 && Total(s.threads, f, References) == 0
  {
    hide Critical, HasEntry, Total, FileOk;
    var t := s.threads[tid];
    var f := t.dying.value;
    assert ThreadOk(s, tid);
    DyingFile(s, tid, f);
    var s' := FreeStep(s, tid, f).state;
    forall g | g in s'.files ensures FileOk(s', g) {
      UntouchedFile(s, s', tid, g);
    }
    assert ThreadOk(s', tid);
    Preserved(s, s', tid);
  }

  /** A file that a thread is about to free is referred to by nothing, and its owner is not set. */
  lemma DyingFile(s: State, tid: nat, f: FileId)
    requires tid < |s.threads| && s.threads[tid].dying == Some(f) && f in s.files && FileOk(s, f)
    ensures s.files[f].refcount == 0 && !s.files[f].owned && InSlot(s, f) == 0
    ensures Total(s.threads, f, References) == 0 && Part(s.threads[tid], f, References) == 0
    ensures Total(s.threads, f, Deaths) == 1 == Part(s.threads[tid], f, Deaths)
  {
    hide Total;
    var t := s.threads[tid];
    TotalUpdate(s.threads, tid, t, f, Deaths);
    TotalUpdate(s.threads, tid, t, f, References);
    MarksAtMost(s.threads, f);
  }

  lemma LookupKept(s: State, tid: nat, c: Choice)
    requires Inv(s) && tid < |s.threads| && s.threads[tid].pc.Lookup? && s.threads[tid].dying.None?
    ensures var r := LookupStep(s, tid, c); r.Next? && Inv(r.state)
  {
    var s' := LookupStep(s, tid, c).state;
    assert ThreadOk(s, tid);
    assert ThreadOk(s', tid);
    LocalKept(s, s', tid, s'.threads[tid]);
  }

  lemma TakeKept(s: State, tid: nat)
    requires Inv(s) && tid < |s.threads| && s.threads[tid].pc.Take? && s.threads[tid].dying.None?
    ensures var t := s.threads[tid];
            var r := IncStep(s, tid, t.pc.seen, t.(file := Some(t.pc.seen), pc := UnlockLookup(true)));
            r.Next? && Inv(r.state)
  {
    var t := s.threads[tid];
    assert ThreadOk(s, tid);
    assert Alive(s, t.pc.seen, t.key);
    assert FileOk(s, t.pc.seen);
    IncKept(s, tid, t.pc.seen, t.(file := Some(t.pc.seen), pc := UnlockLookup(true)));
  }

  /** No thread refers to memory that is not a file. */
  lemma NobodyHas(s: State, f: FileId, w: Kind)
    requires Inv(s) && f !in s.files
    ensures Total(s.threads, f, w) == 0
  {
    forall i | 0 <= i < |s.threads| ensures Part(s.threads[i], f, w) == 0 {
      assert ThreadOk(s, i);
    }
    TotalNone(s.threads, f, w);
  }

  lemma LoadKept(s: State, tid: nat, c: Choice)
    requires Inv(s) && tid < |s.threads| && s.threads[tid].pc.Load? && s.threads[tid].dying.None?
    ensures var r := LoadStep(s, tid, c); r.Stuck? || (r.Next? && Inv(r.state))
  {
    hide Total, FileOk;
    assert ThreadOk(s, tid);
    var r := LoadStep(s, tid, c);
    if r.Next? && c.code < 0 {
      PcKept(s, r.state, tid, Failed);
    } else if r.Next? {
      var s' := r.state;
      LoadFile(s, tid, c.id, s'.threads[tid]);
      forall g | g in s'.files ensures FileOk(s', g) {
        if g != c.id {
          UntouchedFile(s, s', tid, g);
        }
      }
      assert ThreadOk(s', tid);
      Preserved(s, s', tid);
    }
  }

  /** A file that has just been read has one reference, the thread's. */
  lemma LoadFile(s: State, tid: nat, f: FileId, t': Thread)
    requires Inv(s) && tid < |s.threads| && f !in s.files && t'.key.path in s.entries
    requires t'.updated == Some(f) && t'.file != Some(f) && t'.extra != Some(f) && t'.dying.None?
    ensures FileOk(s.(files := s.files[f := File(t'.key, 1, false)]).With(tid, t'), f)
  {
    hide Total, ThreadOk;
    NobodyHas(s, f, References);
    NobodyHas(s, f, Deaths);
    TotalUpdate(s.threads, tid, t', f, References);
    TotalUpdate(s.threads, tid, t', f, Deaths);
    assert t'.key in s.slots ==> Alive(s, s.slots[t'.key], t'.key);
  }

  /** A file whose slot, or whose references, the step changes, but not its record. */
  lemma MovedFile(s: State, s': State, tid: nat, f: FileId)
    requires tid < |s.threads| && f in s.files && FileOk(s, f) && s.entries <= s'.entries
    requires |s'.threads| == |s.threads| && s'.threads == s.threads[tid := s'.threads[tid]]
    requires f in s'.files && s'.files[f] == s.files[f]
    requires InSlot(s', f) + Part(s'.threads[tid], f, References) == InSlot(s, f) + Part(s.threads[tid], f, References)
    requires InSlot(s', f) + Part(s'.threads[tid], f, Marks) > 0
             || (InSlot(s', f) == InSlot(s, f) && Part(s'.threads[tid], f, Marks) == Part(s.threads[tid], f, Marks))
    requires Part(s'.threads[tid], f, Deaths) == Part(s.threads[tid], f, Deaths)
    ensures FileOk(s', f)
  {
    hide Part, InSlot, Total;
    var t := s'.threads[tid];
    TotalUpdate(s.threads, tid, t, f, References);
    TotalUpdate(s.threads, tid, t, f, Marks);
    TotalUpdate(s.threads, tid, t, f, Deaths);
    TotalUpdate(s'.threads, tid, t, f, Marks);
  }

  /** Where swapping and removing go on. */
  lemma CriticalSteps()
    ensures Critical(Swap) && Critical(Disown) && Critical(UnlockUpsert) && Critical(Remove) && Critical(UnlockRemove)
    ensures HasEntry(Swap) && HasEntry(Remove)
  {
  }

  lemma SwapKept(s: State, tid: nat)
    requires Inv(s) && tid < |s.threads| && s.threads[tid].pc.Swap? && s.threads[tid].dying.None?
    ensures s.threads[tid].updated.Some?
    ensures var r := SwapStep(s, tid, s.threads[tid].updated.value); r.Next? && Inv(r.state)
  {
    hide Total, FileOk, Critical, HasEntry;
    var t := s.threads[tid];
    assert ThreadOk(s, tid);
    CriticalSteps();
    var f := t.updated.value;
    var s' := SwapStep(s, tid, f).state;
    forall g | g in s'.files ensures FileOk(s', g) {
      assert FileOk(s, g);
      MovedFile(s, s', tid, g);
    }
    assert ThreadOk(s', tid);
    Preserved(s, s', tid);
  }

  lemma RemoveKept(s: State, tid: nat)
    requires Inv(s) && tid < |s.threads| && s.threads[tid].pc.Remove? && s.threads[tid].dying.None?
    ensures s.threads[tid].file.Some?
    ensures var r := RemoveStep(s, tid, s.threads[tid].file.value); r.Next? && Inv(r.state)
  {
    hide Total, FileOk, Critical, HasEntry;
    var t := s.threads[tid];
    assert ThreadOk(s, tid);
    CriticalSteps();
    var f := t.file.value;
    var s' := RemoveStep(s, tid, f).state;
    forall g | g in s'.files ensures FileOk(s', g) {
      assert FileOk(s, g);
      MovedFile(s, s', tid, g);
    }
    assert ThreadOk(s', tid);
    Preserved(s, s', tid);
  }

  /** No step of any thread uses memory that was freed or an entry that is missing, and every step keeps
      the invariant. */
  lemma StepKept(s: State, tid: nat, c: Choice)
    requires Inv(s)
    ensures var r := Step(s, tid, c); r.Stuck? || (r.Next? && Inv(r.state))
  {
    hide Inv, Total, LockStep, UnlockStep, OwnStep, IncStep, DecStep, FreeStep, LookupStep, CheckStep, LoadStep,
        SwapStep, RemoveStep;
    if tid < |s.threads| {
      var t := s.threads[tid];
      if t.dying.Some? {
        FreeKept(s, tid);
      } else {
        match t.pc
        case Lookup => LookupKept(s, tid, c);
        case Take(_) => TakeKept(s, tid);
        case Load => LoadKept(s, tid, c);
        case Swap => SwapKept(s, tid);
        case Remove => RemoveKept(s, tid);
        case LockLookup | LockUpsert | LockRemove => LockStepsKept(s, tid, c);
        case UnlockLookup(_) | UnlockUpsert | UnlockRemove => UnlockStepsKept(s, tid, c);
        case Own | Disown | DisownRemoved => OwnStepsKept(s, tid, c);
        case DropOld | DropUpdated | DropRemoved | DropLast | Hold => DropStepsKept(s, tid, c);
        case Inc => UpsertInc(s, tid, c);
        case DropFile => DropFileKept(s, tid, c);
        case Idle | Check | Failed => OtherStepKept(s, tid, c);
      }
    }
  }

  lemma LockStepsKept(s: State, tid: nat, c: Choice)
    requires Inv(s) && tid < |s.threads| && s.threads[tid].dying.None?
    requires var pc := s.threads[tid].pc; pc.LockLookup? || pc.LockUpsert? || pc.LockRemove?
    ensures var r := Step(s, tid, c); r.Stuck? || (r.Next? && Inv(r.state))
  {
    hide Total, FileOk, SlotsOk, LockStep;
    var t := s.threads[tid];
    assert ThreadOk(s, tid);
    match t.pc
    case LockLookup => LockKept(s, tid, c, Lookup, Idle);
    case LockUpsert => LockKept(s, tid, c, Own, DropUpdated);
    case LockRemove => LockKept(s, tid, c, Remove, DropLast);
  }

  lemma UnlockStepsKept(s: State, tid: nat, c: Choice)
    requires Inv(s) && tid < |s.threads| && s.threads[tid].dying.None?
    requires var pc := s.threads[tid].pc; pc.UnlockLookup? || pc.UnlockUpsert? || pc.UnlockRemove?
    ensures var r := Step(s, tid, c); r.Next? && Inv(r.state)
  {
    hide Total, FileOk, SlotsOk;
    var t := s.threads[tid];
    assert ThreadOk(s, tid);
    match t.pc
    case UnlockLookup(found) => UnlockKept(s, tid, if found then Check else Idle);
    case UnlockUpsert => UnlockKept(s, tid, DropFile);
    case UnlockRemove => UnlockKept(s, tid, if t.extra.Some? then DisownRemoved else DropLast);
  }

  lemma OwnStepsKept(s: State, tid: nat, c: Choice)
    requires Inv(s) && tid < |s.threads| && s.threads[tid].dying.None?
    requires var pc := s.threads[tid].pc; pc.Own? || pc.Disown? || pc.DisownRemoved?
    ensures var r := Step(s, tid, c); r.Next? && Inv(r.state)
  {
    hide Total, FileOk, SlotsOk;
    var t := s.threads[tid];
    assert ThreadOk(s, tid);
    match t.pc
    case Own => OwnKept(s, tid, t.updated.value, true, Inc);
    case Disown => OwnKept(s, tid, t.extra.value, false, DropOld);
    case DisownRemoved => OwnKept(s, tid, t.extra.value, false, DropRemoved);
  }

  lemma DropKept(s: State, tid: nat, o: Option<FileId>, t': Thread)
    requires Inv(s) && tid < |s.threads| && o.Some? && s.threads[tid].dying.None?
    requires var t, pc := s.threads[tid], s.threads[tid].pc;
             || ((pc.DropOld? || pc.DropRemoved?) && o == t.extra && t' == t.(extra := None, pc := t'.pc))
             || (pc.DropUpdated? && o == t.updated && t' == t.(updated := None, pc := t'.pc))
             || ((pc.DropLast? || pc.Hold?) && o == t.file && t' == t.(file := None, pc := t'.pc))
    requires Shape(t') && Critical(t'.pc) == Critical(s.threads[tid].pc) && !t'.pc.Take?
    requires forall g :: Part(t', g, Marks) == 0
    ensures var r := DecStep(s, tid, o.value, t'); r.Next? && Inv(r.state)
  {
    hide Total, FileOk, SlotsOk, Critical;
    assert ThreadOk(s, tid);
    assert ThreadOk(s.With(tid, t'), tid);
    DecKept(s, tid, o.value, t');
  }

  lemma DropStepsKept(s: State, tid: nat, c: Choice)
    requires Inv(s) && tid < |s.threads| && s.threads[tid].dying.None?
    requires var pc := s.threads[tid].pc; pc.DropOld? || pc.DropUpdated? || pc.DropRemoved? || pc.DropLast? || pc.Hold?
    ensures var r := Step(s, tid, c); r.Next? && Inv(r.state)
  {
    hide Total, FileOk, SlotsOk;
    var t := s.threads[tid];
    assert ThreadOk(s, tid);
    match t.pc
    case DropOld => DropKept(s, tid, t.extra, t.(extra := None, pc := UnlockUpsert));
    case DropUpdated => DropKept(s, tid, t.updated, t.(updated := None, pc := Failed));
    case DropRemoved => DropKept(s, tid, t.extra, t.(extra := None, pc := DropLast));
    case DropLast => DropKept(s, tid, t.file, t.(file := None, pc := Idle));
    case Hold =>
      if c.code <= 0 {
        DropKept(s, tid, t.file, t.(file := None, pc := Idle));
      }
  }

  lemma OtherStepKept(s: State, tid: nat, c: Choice)
    requires Inv(s) && tid < |s.threads| && s.threads[tid].dying.None?
    requires var pc := s.threads[tid].pc; pc.Idle? || pc.Check? || pc.Failed?
    ensures var r := Step(s, tid, c); r.Next? && Inv(r.state)
  {
    hide Total, FileOk, SlotsOk;
    var t := s.threads[tid];
    assert ThreadOk(s, tid);
    match t.pc
    case Idle =>
      var t' := t.(pc := LockLookup, key := c.key);
      assert ThreadOk(s.With(tid, t'), tid);
      LocalKept(s, s.With(tid, t'), tid, t');
    case Check => PcKept(s, Step(s, tid, c).state, tid, Step(s, tid, c).state.threads[tid].pc);
    case Failed => PcKept(s, Step(s, tid, c).state, tid, Step(s, tid, c).state.threads[tid].pc);
  }

  lemma UpsertInc(s: State, tid: nat, c: Choice)
    requires Inv(s) && tid < |s.threads| && s.threads[tid].pc.Inc? && s.threads[tid].dying.None?
    ensures Step(s, tid, c).Next? && Inv(Step(s, tid, c).state)
  {
    var t := s.threads[tid];
    assert ThreadOk(s, tid);
    assert FileOk(s, t.updated.value);
    TotalUpdate(s.threads, tid, t, t.updated.value, References);
    IncKept(s, tid, t.updated.value, t.(extra := t.updated, pc := Swap));
  }

  lemma DropFileKept(s: State, tid: nat, c: Choice)
    requires Inv(s) && tid < |s.threads| && s.threads[tid].pc.DropFile? && s.threads[tid].dying.None?
    ensures Step(s, tid, c).Next? && Inv(Step(s, tid, c).state)
  {
    var t := s.threads[tid];
    assert ThreadOk(s, tid);
    var t' := t.(file := t.updated, updated := None, pc := Hold);
    assert ThreadOk(s.With(tid, t'), tid);
    if t.file.None? {
      LocalKept(s, s.With(tid, t'), tid, t');
    } else {
      DecKept(s, tid, t.file.value, t');
    }
  }

  // ----- what this means -----

  lemma StartsRight(n: nat)
    ensures Inv(Init(n))
  {
  }

  /** No interleaving of any number of threads uses a file after it was freed, and the invariant holds all the way. */
  lemma {:induction false} RunKept(n: nat, steps: seq<(nat, Choice)>)
    ensures var r := Run(Init(n), steps); r.Next? && Inv(r.state)
  {
    if steps == [] {
      StartsRight(n);
    } else {
      RunKept(n, steps[..|steps| - 1]);
      var (tid, c) := steps[|steps| - 1];
      StepKept(Run(Init(n), steps[..|steps| - 1]).state, tid, c);
    }
  }

  /** The count of a file is the number of slots that hold it plus the number of references that threads hold. */
  lemma CountIsExact(n: nat, steps: seq<(nat, Choice)>, f: FileId)
    ensures Run(Init(n), steps).Next?
    ensures var s := Run(Init(n), steps).state;
            f in s.files ==>
              s.files[f].refcount == |set k | k in s.slots && s.slots[k] == f| + Total(s.threads, f, References)
  {
    RunKept(n, steps);
    var s := Run(Init(n), steps).state;
    if f in s.files {
      assert FileOk(s, f);
      var holding := set k | k in s.slots && s.slots[k] == f;
      assert forall k :: k in holding ==> Alive(s, f, k);
      assert holding == if InSlot(s, f) == 1 then {s.files[f].key} else {};
    }
  }

  lemma OnlyFreeing(s: State, tid: nat, c: Choice, f: FileId)
    requires Step(s, tid, c).Next? && f in s.files && f !in Step(s, tid, c).state.files
    ensures tid < |s.threads| && s.threads[tid].dying == Some(f)
  {
    if s.threads[tid].dying.None? {
      FilesStay(s, tid, c);
    }
  }

  /** A thread that is not about to free a file frees none. */
  lemma FilesStay(s: State, tid: nat, c: Choice)
    requires Step(s, tid, c).Next? && s.threads[tid].dying.None?
    ensures s.files.Keys <= Step(s, tid, c).state.files.Keys
  {
  }

  /** A file that a step frees is in no slot, and no thread refers to it. */
  lemma FreedIsUnused(s: State, tid: nat, c: Choice, f: FileId)
    requires Inv(s) && Step(s, tid, c).Next? && f in s.files && f !in Step(s, tid, c).state.files
    ensures forall k :: k in s.slots ==> s.slots[k] != f
    ensures forall j :: 0 <= j < |s.threads| ==>
              s.threads[j].file != Some(f) && s.threads[j].updated != Some(f) && s.threads[j].extra != Some(f)
  {
    OnlyFreeing(s, tid, c, f);
    hide Step, FreeStep, FileOk, Shape, Critical, HasEntry, Total;
    FreeKept(s, tid);
    forall k | k in s.slots ensures s.slots[k] != f {
      assert Alive(s, s.slots[k], k);
    }
    forall j | 0 <= j < |s.threads| ensures Part(s.threads[j], f, References) == 0 {
      TotalUpdate(s.threads, j, s.threads[j], f, References);
    }
  }

  /** A slot changes only when a thread puts a file there that it has just read, or when a thread takes out the very
      file that it found there: whatever another thread has put there in the meantime stays. */
  lemma SlotChanges(s: State, tid: nat, c: Choice, k: Key)
    requires Inv(s) && Step(s, tid, c).Next? && tid < |s.threads|
    ensures var s', t := Step(s, tid, c).state, s.threads[tid];
            || (if k in s.slots then k in s'.slots && s'.slots[k] == s.slots[k] else k !in s'.slots)
            || (t.pc.Swap? && k == t.key && k in s'.slots && t.updated == Some(s'.slots[k]))
            || (t.pc.Remove? && k == t.key && k in s.slots && t.file == Some(s.slots[k]) && k !in s'.slots)
  {
    hide Step, FileOk, Total, Critical, HasEntry;
    OnlySwapAndRemove(s, tid, c);
    assert ThreadOk(s, tid);
  }

  lemma OnlySwapAndRemove(s: State, tid: nat, c: Choice)
    requires Step(s, tid, c).Next? && tid < |s.threads|
    ensures var r, t := Step(s, tid, c), s.threads[tid];
            if t.dying.None? && t.pc.Swap? && t.updated.Some? then r == SwapStep(s, tid, t.updated.value)
            else if t.dying.None? && t.pc.Remove? && t.file.Some? then r == RemoveStep(s, tid, t.file.value)
            else r.state.slots == s.slots
  {
    hide SwapStep, RemoveStep;
  }

  /** Once the threads are done, every file that is still in memory is in its slot, and has no other reference. */
  lemma NothingLeaks(s: State, f: FileId)
    requires Inv(s) && f in s.files
    requires forall j :: 0 <= j < |s.threads| ==> s.threads[j].pc.Idle? && s.threads[j].dying.None?
    ensures s.files[f].refcount == 1 && s.files[f].key in s.slots && s.slots[s.files[f].key] == f
  {
    assert FileOk(s, f);
    forall j | 0 <= j < |s.threads| ensures Part(s.threads[j], f, References) == 0
        && Part(s.threads[j], f, Deaths) == 0 {
      assert ThreadOk(s, j);
    }
    TotalNone(s.threads, f, References);
    TotalNone(s.threads, f, Deaths);
  }

  /** The thread that holds the lock is never stuck, so the lock is given back. */
  lemma HolderGoesOn(s: State, tid: nat, c: Choice)
    requires Inv(s) && tid < |s.threads| && s.lock == Some(tid)
    ensures Step(s, tid, c).Next?
  {
    hide Total, FileOk, SlotsOk;
    assert ThreadOk(s, tid);
    StepKept(s, tid, c);
  }
}
