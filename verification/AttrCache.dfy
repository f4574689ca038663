/** The attribute cache: reference-counted files shared by threads, one atomic step of one thread at a time. */
module AttrCache {
  import opened Wrappers

  type Path = string
  type FileId = nat

  /** A slot of the cache: a path, and the kind of source the file was read from. */
  datatype Key = Key(path: Path, source: nat)

  /** A file in memory. `owned` says whether its owner is set. */
  datatype File = File(key: Key, refcount: int, owned: bool)

  /** Where a thread is. Each step is one access to what the threads share. */
  datatype Pc =
    | Idle
    | LockLookup | Lookup | Take(seen: FileId) | UnlockLookup(found: bool)
    | Check | Load
    | LockUpsert | Own | Inc | Swap | Disown | DropOld | UnlockUpsert
    | DropFile | DropUpdated | Failed
    | LockRemove | Remove | UnlockRemove | DisownRemoved | DropRemoved | DropLast
    | Hold

  /** A thread's variables. `extra` is a reference it holds for the slot: one it is about to put there, or one it took
      from there. `dying` is a file whose count it has just brought down to zero. */
  datatype Thread = Thread(pc: Pc, key: Key, file: Option<FileId>, updated: Option<FileId>, extra: Option<FileId>,
                           dying: Option<FileId>)

  datatype State = State(lock: Option<nat>, entries: set<Path>, slots: map<Key, FileId>, files: map<FileId, File>,
                         threads: seq<Thread>)
  {
    function With(tid: nat, t: Thread): State
      requires tid < |threads|
    {
      this.(threads := threads[tid := t])
    }
  }

  /** What a thread cannot decide: whether an operation fails, which memory an allocation returns, what is asked for. */
  datatype Choice = Choice(code: int, id: FileId, key: Key)

  /** Fault is a use of memory that is not a file any more, or of an entry that is not there. */
  datatype Result = Next(state: State) | Stuck | Fault

  // ----- the steps -----

  /** Takes the lock, if it is free, and goes on at `taken`; `failed` is where to go on when locking fails. */
  function LockStep(s: State, tid: nat, c: Choice, taken: Pc, failed: Pc): Result
    requires tid < |s.threads|
  {
    var t := s.threads[tid];
    if c.code < 0 then Next(s.With(tid, t.(pc := failed)))
    else if s.lock.Some? then Stuck
    else Next(s.(lock := Some(tid)).With(tid, t.(pc := taken)))
  }

  function UnlockStep(s: State, tid: nat, pc: Pc): Result
    requires tid < |s.threads|
  {
    Next(s.(lock := None).With(tid, s.threads[tid].(pc := pc)))
  }

  function OwnStep(s: State, tid: nat, f: FileId, owned: bool, pc: Pc): Result
    requires tid < |s.threads|
  {
    if f !in s.files then Fault
    else Next(s.(files := s.files[f := s.files[f].(owned := owned)]).With(tid, s.threads[tid].(pc := pc)))
  }

  /** Counts up; `t` is the thread once it has the reference. */
  function IncStep(s: State, tid: nat, f: FileId, t: Thread): Result
    requires tid < |s.threads|
  {
    if f !in s.files then Fault
    else Next(s.(files := s.files[f := s.files[f].(refcount := s.files[f].refcount + 1)]).With(tid, t))
  }

  /** Counts down; `t` is the thread once it has given the reference up. */
  function DecStep(s: State, tid: nat, f: FileId, t: Thread): Result
    requires tid < |s.threads|
  {
    if f !in s.files then Fault else
      var n := s.files[f].refcount - 1;
      Next(s.(files := s.files[f := s.files[f].(refcount := n)]).With(tid, if n <= 0 then t.(dying := Some(f)) else t))
  }

  /** After counting down to zero: frees the file unless it has an owner. */
  function FreeStep(s: State, tid: nat, f: FileId): Result
    requires tid < |s.threads|
  {
    if f !in s.files then Fault else
      var s' := if s.files[f].owned then s else s.(files := s.files - {f});
      Next(s'.With(tid, s.threads[tid].(dying := None)))
  }

  /** Whoever asked for the file uses it. */
  function UseStep(s: State, f: FileId): Result {
    if f !in s.files then Fault else Next(s)
  }

  function LookupStep(s: State, tid: nat, c: Choice): Result
    requires tid < |s.threads|
  {
    var t := s.threads[tid];
    if t.key.path !in s.entries then
      if c.code < 0 then Next(s.With(tid, t.(pc := UnlockLookup(false))))
      else Next(s.(entries := s.entries + {t.key.path}).With(tid, t.(pc := UnlockLookup(true))))
    else if t.key in s.slots then Next(s.With(tid, t.(pc := Take(s.slots[t.key]))))
    else Next(s.With(tid, t.(pc := UnlockLookup(true))))
  }

  /** Whether the file is out of date: an error, no, or yes. */
  function CheckStep(s: State, tid: nat, c: Choice): Result
    requires tid < |s.threads|
  {
    var t := s.threads[tid];
    if t.file.None? then Next(s.With(tid, t.(pc := Load)))
    else if t.file.value !in s.files then Fault
    else Next(s.With(tid, t.(pc := if c.code < 0 then Failed else if c.code > 0 then Load else Hold)))
  }

  /** Reads the file into memory that is not in use. */
  function LoadStep(s: State, tid: nat, c: Choice): Result
    requires tid < |s.threads|
  {
    var t := s.threads[tid];
    if t.key.path !in s.entries then Fault
    else if c.code < 0 then Next(s.With(tid, t.(pc := Failed)))
    else if c.id in s.files then Stuck
    else Next(s.(files := s.files[c.id := File(t.key, 1, false)]).With(tid,
        t.(pc := LockUpsert, updated := Some(c.id))))
  }

  /** Puts the new file into its slot, and takes out what is there. */
  function SwapStep(s: State, tid: nat, f: FileId): Result
    requires tid < |s.threads|
  {
    var t := s.threads[tid];
    if f !in s.files || s.files[f].key.path !in s.entries then Fault else
      var k := s.files[f].key;
      var old_ := if k in s.slots then Some(s.slots[k]) else None;
      Next(s.(slots := s.slots[k := f]).With(tid, t.(extra := old_, pc := if old_.Some? then Disown else UnlockUpsert)))
  }

  /** Empties the slot, if the file is still what is in there. */
  function RemoveStep(s: State, tid: nat, f: FileId): Result
    requires tid < |s.threads|
  {
    var t := s.threads[tid];
    if f !in s.files then Fault else
      var k := s.files[f].key;
      if k.path in s.entries && k in s.slots && s.slots[k] == f then
        Next(s.(slots := s.slots - {k}).With(tid, t.(extra := Some(f), pc := UnlockRemove)))
      else Next(s.With(tid, t.(pc := UnlockRemove)))
  }

  /** One step of one thread. A thread that has no file where one is needed uses a null pointer. */
  function Step(s: State, tid: nat, c: Choice): Result {
    if tid >= |s.threads| then Stuck else
      var t := s.threads[tid];
      if t.dying.Some? then FreeStep(s, tid, t.dying.value)
      else match t.pc
        case Idle => Next(s.With(tid, t.(pc := LockLookup, key := c.key)))
        case LockLookup => LockStep(s, tid, c, Lookup, Idle)
        case Lookup => LookupStep(s, tid, c)
        case Take(f) => IncStep(s, tid, f, t.(file := Some(f), pc := UnlockLookup(true)))
        case UnlockLookup(found) => UnlockStep(s, tid, if found then Check else Idle)
        case Check => CheckStep(s, tid, c)
        case Load => LoadStep(s, tid, c)
        case LockUpsert => LockStep(s, tid, c, Own, DropUpdated)
        case Own => if t.updated.None? then Fault else OwnStep(s, tid, t.updated.value, true, Inc)
        case Inc => if t.updated.None? then Fault else IncStep(s, tid, t.updated.value,
            t.(extra := t.updated, pc := Swap))
        case Swap => if t.updated.None? then Fault else SwapStep(s, tid, t.updated.value)
        case Disown => if t.extra.None? then Fault else OwnStep(s, tid, t.extra.value, false, DropOld)
        case DropOld => if t.extra.None? then Fault else DecStep(s, tid, t.extra.value,
            t.(extra := None, pc := UnlockUpsert))
        case UnlockUpsert => UnlockStep(s, tid, DropFile)
        case DropFile =>
          var t' := t.(file := t.updated, updated := None, pc := Hold);
          if t.file.None? then Next(s.With(tid, t')) else DecStep(s, tid, t.file.value, t')
        case DropUpdated =>
          if t.updated.None? then Fault else DecStep(s, tid, t.updated.value, t.(updated := None, pc := Failed))
        case Failed => Next(s.With(tid, t.(pc := if t.file.Some? then LockRemove else Idle)))
        case LockRemove => LockStep(s, tid, c, Remove, DropLast)
        case Remove => if t.file.None? then Fault else RemoveStep(s, tid, t.file.value)
        case UnlockRemove => UnlockStep(s, tid, if t.extra.Some? then DisownRemoved else DropLast)
        case DisownRemoved => if t.extra.None? then Fault else OwnStep(s, tid, t.extra.value, false, DropRemoved)
        case DropRemoved => if t.extra.None? then Fault else DecStep(s, tid, t.extra.value,
            t.(extra := None, pc := DropLast))
        case DropLast => if t.file.None? then Fault else DecStep(s, tid, t.file.value, t.(file := None, pc := Idle))
        case Hold =>
          if t.file.None? then Fault
          else if c.code > 0 then UseStep(s, t.file.value)
          else DecStep(s, tid, t.file.value, t.(file := None, pc := Idle))
  }

  function Init(n: nat): State {
    State(None, {}, map[], map[], seq(n, _ => Thread(Idle, Key("", 0), None, None, None, None)))
  }

  /** Any interleaving: who takes the next step, with which outcome of what it cannot decide. */
  function Run(s: State, steps: seq<(nat, Choice)>): Result {
    if steps == [] then Next(s) else
      match Run(s, steps[..|steps| - 1])
      case Next(s') =>
        var (tid, c) := steps[|steps| - 1];
        if Step(s', tid, c).Stuck? then Next(s') else Step(s', tid, c)
      case r => r
  }

  // ----- counting -----

  datatype Kind = References | Marks | Deaths

  function One(o: Option<FileId>, f: FileId): nat {
    if o == Some(f) then 1 else 0
  }

  /** What a thread has to do with a file: references it holds, whether it is between setting the file's owner and the
      slot (or the other way round), whether it is about to free it. */
  function Part(t: Thread, f: FileId, w: Kind): nat {
    match w
    case References => One(t.file, f) + One(t.updated, f) + One(t.extra, f)
    case Marks =>
      if t.pc.Inc? then One(t.updated, f)
      else if t.pc.Swap? || t.pc.Disown? || t.pc.UnlockRemove? || t.pc.DisownRemoved? then One(t.extra, f)
      else 0
    case Deaths => One(t.dying, f)
  }

  function Total(ts: seq<Thread>, f: FileId, w: Kind): nat {
    if ts == [] then 0 else Part(ts[0], f, w) + Total(ts[1..], f, w)
  }

  lemma {:induction false} TotalUpdate(ts: seq<Thread>, i: nat, t: Thread, f: FileId, w: Kind)
    requires i < |ts|
    ensures Total(ts[i := t], f, w) == Total(ts, f, w) - Part(ts[i], f, w) + Part(t, f, w)
    ensures Part(ts[i], f, w) <= Total(ts, f, w)
  {
    hide Part;
    var ts' := ts[i := t];
    if i == 0 {
      assert ts'[1..] == ts[1..];
    } else {
      TotalUpdate(ts[1..], i - 1, t, f, w);
      assert ts'[1..] == ts[1..][i - 1 := t];
    }
  }

  lemma {:induction false} TotalTwo(ts: seq<Thread>, i: nat, j: nat, f: FileId, w: Kind)
    requires i < |ts| && j < |ts| && i != j
    ensures Part(ts[i], f, w) + Part(ts[j], f, w) <= Total(ts, f, w)
  {
    var t := Thread(Idle, Key("", 0), None, None, None, None);
    TotalUpdate(ts, i, t, f, w);
    TotalUpdate(ts[i := t], j, t, f, w);
  }

  lemma {:induction false} MarksAtMost(ts: seq<Thread>, f: FileId)
    ensures Total(ts, f, Marks) <= Total(ts, f, References)
  {
    if ts != [] {
      MarksAtMost(ts[1..], f);
    }
  }

  lemma {:induction false} TotalNone(ts: seq<Thread>, f: FileId, w: Kind)
    requires forall i :: 0 <= i < |ts| ==> Part(ts[i], f, w) == 0
    ensures Total(ts, f, w) == 0
  {
    if ts != [] {
      assert forall i :: 0 <= i < |ts| - 1 ==> Part(ts[1..][i], f, w) == Part(ts[i + 1], f, w);
      TotalNone(ts[1..], f, w);
    }
  }
}
