/** What a thread gets when it asks the attribute cache for a file, told by what it did and saw in that call. */
module AttrCacheCalls {
  import opened Wrappers
  import opened AttrCache
  import opened AttrCacheInvariant

  /** What has happened to a thread in its current or last call: what it asked for, if it asked at all; the file it saw
      in that slot; the files it found up to date, and those it found out of date or could not check; the files it read
      into memory; whether anything failed, and whether locking did; whether it came to hold a file; whether a file it
      had read was in the slot; and whether the slot was once without the file it had seen there, after it found that
      file unfit. */
  datatype Log = Log(asked: Option<Key>, seen: Option<FileId>, current: set<FileId>, unfit: set<FileId>,
                     loaded: set<FileId>, failed: bool, lockFailed: bool, held: bool, stored: bool, gone: bool)

  function Called(asked: Option<Key>): Log {
    Log(asked, None, {}, {}, {}, false, false, false, false, false)
  }

  function Elements(o: Option<FileId>): set<FileId> {
    if o.Some? then {o.value} else {}
  }

  predicate Locking(pc: Pc) {
    pc.LockLookup? || pc.LockUpsert? || pc.LockRemove?
  }

  /** Where something can fail: locking, making an entry, checking a file, reading a file. */
  predicate MayFail(s: State, t: Thread) {
    Locking(t.pc) || (t.pc.Lookup? && t.key.path !in s.entries) || (t.pc.Check? && t.file.Some?) || t.pc.Load?
  }

  /** What a step of the thread from `s` to `s'` adds to the log. */
  function Recorded(log: Log, t: Thread, s: State, c: Choice, s': State, t': Thread): Log {
    if t.dying.Some? then log
    else if t.pc.Idle? then Called(Some(c.key))
    else
      var inSlot := if t.key in s'.slots then Some(s'.slots[t.key]) else None;
      var seen := if t.pc.Lookup? && t.key in s.slots then Some(s.slots[t.key]) else log.seen;
      var checked := if t.pc.Check? then Elements(t.file) else {};
      var unfit := log.unfit + (if c.code != 0 then checked else {});
      var loaded := log.loaded + (s'.files.Keys - s.files.Keys);
      Log(log.asked, seen,
          log.current + (if c.code == 0 then checked else {}),
          unfit,
          loaded,
          log.failed || (MayFail(s, t) && c.code < 0),
          log.lockFailed || (Locking(t.pc) && c.code < 0),
          log.held || t'.pc.Hold?,
          log.stored || Elements(inSlot) * loaded != {},
          log.gone || (seen.Some? && seen.value in unfit && inSlot != seen))
  }

  /** The log of a thread after a run. */
  function LogOf(n: nat, steps: seq<(nat, Choice)>, tid: nat): Log {
    if steps == [] then Called(None) else
      var front := steps[..|steps| - 1];
      var (j, c) := steps[|steps| - 1];
      var log := LogOf(n, front, tid);
      match Run(Init(n), front)
      case Next(s) =>
        (match Step(s, j, c)
         case Next(s') =>
           if j == tid && tid < |s.threads| && tid < |s'.threads|
           then Recorded(log, s.threads[tid], s, c, s', s'.threads[tid]) else log
         case _ => log)
      case _ => log
  }

  // ----- what is known at each point of a call -----

  predicate SeenOnly(log: Log, seen: Option<FileId>) {
    && log.seen == seen && log.current == {} && log.unfit == {} && log.loaded == {}
    && !log.failed && !log.lockFailed && !log.held && !log.stored && !log.gone
  }

  /** The file that was seen, if any, is unfit, and the thread still has it. */
  predicate Unfit(t: Thread, log: Log) {
    log.seen == t.file && log.current == {} && log.unfit == Elements(t.file) && !log.held
  }

  /** The thread has read a file. */
  predicate Read(t: Thread, log: Log) {
    && Unfit(t, log) && !log.failed
    && t.updated.Some? && log.loaded == {t.updated.value} && t.updated != t.file
  }

  /** What is known of a thread that holds a file. */
  predicate RightFile(t: Thread, log: Log) {
    && t.file.Some? && t.file.value !in log.unfit
    && (if log.loaded == {} then log.seen == t.file && t.file.value in log.current
        else log.loaded == {t.file.value} && log.stored)
  }

  predicate Known(t: Thread, log: Log) {
    (!t.pc.Idle? ==> log.asked == Some(t.key)) &&
    match t.pc
    case Idle =>
      && (log.asked.Some? ==> log.held == !log.failed)
      && (log.seen.Some? && !log.held ==> log.seen.value !in log.current && (log.gone || log.lockFailed))
    case LockLookup | Lookup => SeenOnly(log, None)
    case Take(f) => SeenOnly(log, Some(f))
    case UnlockLookup(found) => SeenOnly(log.(failed := false), t.file) && log.failed == !found
    case Check => SeenOnly(log, t.file)
    case Load => Unfit(t, log) && log.loaded == {} && !log.failed
    case LockUpsert | Own | Inc | Swap => Read(t, log)
    case Disown | DropOld | UnlockUpsert | DropFile => Read(t, log) && log.stored
    case DropUpdated | Failed | LockRemove | Remove => Unfit(t, log) && log.failed
    case UnlockRemove | DisownRemoved | DropRemoved => Unfit(t, log) && log.failed && log.gone
    case DropLast => Unfit(t, log) && log.failed && (log.gone || log.lockFailed)
    case Hold => RightFile(t, log) && log.held && !log.failed
  }

  /** The files of a step that brings none into memory. */
  lemma NoNewFile(s: State, tid: nat, c: Choice)
    requires tid < |s.threads| && Step(s, tid, c).Next? && !s.threads[tid].pc.Load?
    ensures Step(s, tid, c).state.files.Keys <= s.files.Keys
  {
  }

  predicate Alone(s: State, tid: nat, r: Result)
    requires tid < |s.threads|
  {
    r.Next? ==> |r.state.threads| == |s.threads| && r.state.threads == s.threads[tid := r.state.threads[tid]]
  }

  lemma LockAlone(s: State, tid: nat, c: Choice, taken: Pc, failed: Pc)
    requires tid < |s.threads|
    ensures Alone(s, tid, LockStep(s, tid, c, taken, failed)) && Alone(s, tid, UnlockStep(s, tid, taken))
  {
  }

  lemma CountAlone(s: State, tid: nat, f: FileId, owned: bool, t: Thread)
    requires tid < |s.threads|
    ensures Alone(s, tid, OwnStep(s, tid, f, owned, t.pc)) && Alone(s, tid, FreeStep(s, tid, f))
    ensures Alone(s, tid, IncStep(s, tid, f, t)) && Alone(s, tid, DecStep(s, tid, f, t))
  {
  }

  lemma SlotAlone(s: State, tid: nat, c: Choice, f: FileId)
    requires tid < |s.threads|
    ensures Alone(s, tid, LookupStep(s, tid, c)) && Alone(s, tid, CheckStep(s, tid, c))
    ensures Alone(s, tid, LoadStep(s, tid, c))
    ensures Alone(s, tid, SwapStep(s, tid, f)) && Alone(s, tid, RemoveStep(s, tid, f))
  {
  }

  lemma StepAlone(s: State, tid: nat, c: Choice)
    requires tid < |s.threads|
    ensures Alone(s, tid, Step(s, tid, c))
  {
    hide LockStep, UnlockStep, OwnStep, IncStep, DecStep, FreeStep, LookupStep, CheckStep, LoadStep, SwapStep,
        RemoveStep;
    forall taken, failed ensures Alone(s, tid, LockStep(s, tid, c, taken, failed)) {
      LockAlone(s, tid, c, taken, failed);
    }
    forall pc ensures Alone(s, tid, UnlockStep(s, tid, pc)) {
      LockAlone(s, tid, c, pc, pc);
    }
    forall f, owned, pc ensures Alone(s, tid, OwnStep(s, tid, f, owned, pc)) {
      CountAlone(s, tid, f, owned, s.threads[tid].(pc := pc));
    }
    forall f, t ensures Alone(s, tid, IncStep(s, tid, f, t)) {
      CountAlone(s, tid, f, true, t);
    }
    forall f, t ensures Alone(s, tid, DecStep(s, tid, f, t)) {
      CountAlone(s, tid, f, true, t);
    }
    forall f ensures Alone(s, tid, FreeStep(s, tid, f)) {
      CountAlone(s, tid, f, true, s.threads[tid]);
    }
    SlotAlone(s, tid, c, 0);
    forall f ensures Alone(s, tid, SwapStep(s, tid, f)) {
      SlotAlone(s, tid, c, f);
    }
    forall f ensures Alone(s, tid, RemoveStep(s, tid, f)) {
      SlotAlone(s, tid, c, f);
    }
  }

  /** A step of a thread is one of that thread alone. */
  lemma OneThread(s: State, tid: nat, c: Choice, j: nat)
    requires Step(s, tid, c).Next? && j < |s.threads|
    ensures var s' := Step(s, tid, c).state; |s'.threads| == |s.threads| && (j != tid ==> s'.threads[j] == s.threads[j])
  {
    StepAlone(s, tid, c);
    hide Step;
  }

  predicate HasFile(s: State, k: Key, f: FileId) {
    k in s.slots && s.slots[k] == f
  }

  /** Steps at which nothing is seen, checked or read. */
  predicate Quiet(pc: Pc) {
    !(pc.Idle? || Locking(pc) || pc.Lookup? || pc.Check? || pc.Load? || pc.Remove?)
  }

  /** What a quiet step adds to the log: at most that the thread came to hold a file, that the one it read is in the
      slot, and that the slot is without the one it saw. */
  lemma RecordedQuiet(log: Log, s: State, tid: nat, c: Choice)
    requires tid < |s.threads| && Step(s, tid, c).Next?
    requires s.threads[tid].dying.None? && Quiet(s.threads[tid].pc)
    ensures var s' := Step(s, tid, c).state; var t' := s'.threads[tid];
            var log' := Recorded(log, s.threads[tid], s, c, s', t');
            && log' == log.(held := log.held || t'.pc.Hold?, stored := log'.stored, gone := log'.gone)
            && (log.stored ==> log'.stored) && (log'.stored && !log.stored ==> log.loaded != {})
            && (log.gone ==> log'.gone) && (log'.gone && !log.gone ==> log.seen.Some? && log.seen.value in log.unfit)
            && forall f :: f in log.loaded && HasFile(s', s.threads[tid].key, f) ==> log'.stored
  {
    hide Step;
    NoNewFile(s, tid, c);
    OneThread(s, tid, c, tid);
    var s' := Step(s, tid, c).state;
    assert s'.files.Keys - s.files.Keys == {};
    var k := s.threads[tid].key;
    var log' := Recorded(log, s.threads[tid], s, c, s', s'.threads[tid]);
    forall f | f in log.loaded && HasFile(s', k, f) ensures log'.stored {
      assert f in Elements(Some(s'.slots[k])) * log.loaded;
    }
  }

  /** Where a quiet step leads, and which variables it changes. */
  lemma QuietStep(s: State, tid: nat, c: Choice)
    requires tid < |s.threads| && Step(s, tid, c).Next? && s.threads[tid].dying.None? && Quiet(s.threads[tid].pc)
    ensures var t := s.threads[tid];
            var t' := Step(s, tid, c).state.threads[tid];
            match t.pc
            case Take(f) => t' == t.(file := Some(f), pc := UnlockLookup(true))
            case UnlockLookup(found) => t' == t.(pc := if found then Check else Idle)
            case Own => t' == t.(pc := Inc)
            case Inc => t' == t.(extra := t.updated, pc := Swap)
            case Swap =>
              && t' == t.(extra := t'.extra, pc := t'.pc) && (t'.pc == Disown || t'.pc == UnlockUpsert)
              && t.updated.Some? && t.updated.value in s.files
              && HasFile(Step(s, tid, c).state, s.files[t.updated.value].key, t.updated.value)
            case Disown => t' == t.(pc := DropOld)
            case DropOld => t' == t.(extra := None, pc := UnlockUpsert, dying := t'.dying)
            case UnlockUpsert => t' == t.(pc := DropFile)
            case DropFile => t' == t.(file := t.updated, updated := None, pc := Hold, dying := t'.dying)
            case DropUpdated => t' == t.(updated := None, pc := Failed, dying := t'.dying)
            case Failed => t' == t.(pc := if t.file.Some? then LockRemove else Idle)
            case UnlockRemove => t' == t.(pc := if t.extra.Some? then DisownRemoved else DropLast)
            case DisownRemoved => t' == t.(pc := DropRemoved)
            case DropRemoved => t' == t.(extra := None, pc := DropLast, dying := t'.dying)
            case DropLast => t' == t.(file := None, pc := Idle, dying := t'.dying)
            case Hold => t' == if c.code > 0 then t else t.(file := None, pc := Idle, dying := t'.dying)
            case _ => true
  {
  }

  lemma QuietKnown(log: Log, s: State, tid: nat, c: Choice)
    requires Inv(s) && tid < |s.threads| && Known(s.threads[tid], log) && Step(s, tid, c).Next?
    requires s.threads[tid].dying.None? && Quiet(s.threads[tid].pc)
    ensures var s' := Step(s, tid, c).state;
            Known(s'.threads[tid], Recorded(log, s.threads[tid], s, c, s', s'.threads[tid]))
  {
    hide FileOk, SlotsOk, Critical, HasEntry, Recorded, Step;
    RecordedQuiet(log, s, tid, c);
    QuietStep(s, tid, c);
    assert ThreadOk(s, tid);
  }

  /** What locking adds to the log, and what a new call starts with. */
  lemma RecordedLock(log: Log, s: State, tid: nat, c: Choice)
    requires tid < |s.threads| && Step(s, tid, c).Next?
    requires s.threads[tid].dying.None? && (s.threads[tid].pc.Idle? || Locking(s.threads[tid].pc))
    ensures var s' := Step(s, tid, c).state; var t, t' := s.threads[tid], s'.threads[tid];
            var log' := Recorded(log, s.threads[tid], s, c, s', t');
            if t.pc.Idle? then log' == Called(Some(c.key)) && t' == t.(pc := LockLookup, key := c.key)
            else
              && log' == log.(failed := log.failed || c.code < 0, lockFailed := log.lockFailed || c.code < 0,
                     stored := log'.stored, gone := log'.gone)
              && (log.stored ==> log'.stored) && (log'.stored && !log.stored ==> log.loaded != {})
              && (log.gone ==> log'.gone)
              && (log'.gone && !log.gone ==> log.seen.Some? && log.seen.value in log.unfit)
              && t' == t.(pc := if t.pc.LockLookup? then if c.code < 0 then Idle else Lookup
                                else if t.pc.LockUpsert? then if c.code < 0 then DropUpdated else Own
                                else if c.code < 0 then DropLast else Remove)
  {
    var s' := Step(s, tid, c).state;
    assert s'.files.Keys - s.files.Keys == {};
  }

  lemma LockKnown(log: Log, s: State, tid: nat, c: Choice)
    requires Inv(s) && tid < |s.threads| && Known(s.threads[tid], log) && Step(s, tid, c).Next?
    requires s.threads[tid].dying.None? && (s.threads[tid].pc.Idle? || Locking(s.threads[tid].pc))
    ensures var s' := Step(s, tid, c).state;
            Known(s'.threads[tid], Recorded(log, s.threads[tid], s, c, s', s'.threads[tid]))
  {
    hide FileOk, SlotsOk, Critical, HasEntry, Step, Recorded;
    assert ThreadOk(s, tid);
    RecordedLock(log, s, tid, c);
  }

  lemma LookupKnown(log: Log, s: State, tid: nat, c: Choice)
    requires Inv(s) && tid < |s.threads| && Known(s.threads[tid], log) && Step(s, tid, c).Next?
    requires s.threads[tid].dying.None? && s.threads[tid].pc.Lookup?
    ensures var s' := Step(s, tid, c).state;
            Known(s'.threads[tid], Recorded(log, s.threads[tid], s, c, s', s'.threads[tid]))
  {
    hide Critical, HasEntry, Total;
    var t := s.threads[tid];
    assert ThreadOk(s, tid);
    assert Step(s, tid, c).state.files == s.files;
    if t.key in s.slots {
      assert Alive(s, s.slots[t.key], t.key);
      assert FileOk(s, s.slots[t.key]);
    }
  }

  lemma CheckKnown(log: Log, s: State, tid: nat, c: Choice)
    requires Inv(s) && tid < |s.threads| && Known(s.threads[tid], log) && Step(s, tid, c).Next?
    requires s.threads[tid].dying.None? && s.threads[tid].pc.Check?
    ensures var s' := Step(s, tid, c).state;
            Known(s'.threads[tid], Recorded(log, s.threads[tid], s, c, s', s'.threads[tid]))
  {
    hide FileOk, SlotsOk, Critical, HasEntry;
    assert ThreadOk(s, tid);
    assert Step(s, tid, c).state.files == s.files;
  }

  lemma LoadKnown(log: Log, s: State, tid: nat, c: Choice)
    requires Inv(s) && tid < |s.threads| && Known(s.threads[tid], log) && Step(s, tid, c).Next?
    requires s.threads[tid].dying.None? && s.threads[tid].pc.Load?
    ensures var s' := Step(s, tid, c).state;
            Known(s'.threads[tid], Recorded(log, s.threads[tid], s, c, s', s'.threads[tid]))
  {
    hide FileOk, SlotsOk, Critical, HasEntry;
    assert ThreadOk(s, tid);
    var s' := Step(s, tid, c).state;
    assert s'.files.Keys - s.files.Keys == if c.code < 0 then {} else {c.id};
  }

  lemma RemoveKnown(log: Log, s: State, tid: nat, c: Choice)
    requires Inv(s) && tid < |s.threads| && Known(s.threads[tid], log) && Step(s, tid, c).Next?
    requires s.threads[tid].dying.None? && s.threads[tid].pc.Remove?
    ensures var s' := Step(s, tid, c).state;
            Known(s'.threads[tid], Recorded(log, s.threads[tid], s, c, s', s'.threads[tid]))
  {
    hide FileOk, SlotsOk, Critical;
    var t := s.threads[tid];
    assert ThreadOk(s, tid);
    var s' := Step(s, tid, c).state;
    assert s'.files == s.files && t.key.path in s.entries;
    assert !HasFile(s', t.key, t.file.value);
  }

  lemma StepKnown(log: Log, s: State, tid: nat, c: Choice)
    requires Inv(s) && tid < |s.threads| && Known(s.threads[tid], log) && Step(s, tid, c).Next?
    ensures tid < |Step(s, tid, c).state.threads|
    ensures var s' := Step(s, tid, c).state;
            Known(s'.threads[tid], Recorded(log, s.threads[tid], s, c, s', s'.threads[tid]))
  {
    OneThread(s, tid, c, tid);
    var t := s.threads[tid];
    if t.dying.Some? {
      FreeKnown(log, s, tid, c);
    } else {
      hide *;
      QuietPoints(t.pc);
      match t.pc
      case Idle | LockLookup | LockUpsert | LockRemove => LockKnown(log, s, tid, c);
      case Lookup => LookupKnown(log, s, tid, c);
      case Check => CheckKnown(log, s, tid, c);
      case Load => LoadKnown(log, s, tid, c);
      case Remove => RemoveKnown(log, s, tid, c);
      case _ => QuietKnown(log, s, tid, c);
    }
  }

  lemma QuietPoints(pc: Pc)
    ensures Quiet(pc) || pc.Idle? || Locking(pc) || pc.Lookup? || pc.Check? || pc.Load? || pc.Remove?
    ensures pc.LockLookup? || pc.LockUpsert? || pc.LockRemove? <==> Locking(pc)
  {
  }

  lemma FreeKnown(log: Log, s: State, tid: nat, c: Choice)
    requires tid < |s.threads| && Known(s.threads[tid], log) && Step(s, tid, c).Next? && s.threads[tid].dying.Some?
    ensures var s' := Step(s, tid, c).state;
            Known(s'.threads[tid], Recorded(log, s.threads[tid], s, c, s', s'.threads[tid]))
  {
  }

  /** After every run, every thread is where its log says. */
  lemma {:induction false} RunKnown(n: nat, steps: seq<(nat, Choice)>, tid: nat)
    requires tid < n
    ensures var r := Run(Init(n), steps);
            r.Next? && Inv(r.state) && |r.state.threads| == n && Known(r.state.threads[tid], LogOf(n, steps, tid))
  {
    hide Inv, Known, Recorded, Step;
    RunKept(n, steps);
    if steps == [] {
      assert Known(Init(n).threads[tid], Called(None)) by { IdleKnown(Init(n).threads[tid]); }
    } else {
      var front := steps[..|steps| - 1];
      var (j, c) := steps[|steps| - 1];
      RunKnown(n, front, tid);
      var s := Run(Init(n), front).state;
      if Step(s, j, c).Next? {
        OneThread(s, j, c, tid);
        if j == tid {
          StepKnown(LogOf(n, front, tid), s, tid, c);
        }
      }
    }
  }

  lemma IdleKnown(t: Thread)
    requires t.pc.Idle?
    ensures Known(t, Called(None))
  {
  }

  // ----- what this means -----

  /** After every run, a thread that holds a file holds one for the slot it asked for: the one it read in this call if
      it read one, which has then been in the slot, and otherwise the one it saw in the slot and found up to date. A
      file that it found out of date, or could not check, is not the one it holds. */
  lemma HeldIsRight(n: nat, steps: seq<(nat, Choice)>, tid: nat)
    requires tid < n
    ensures var r := Run(Init(n), steps); r.Next? && |r.state.threads| == n
    ensures var s := Run(Init(n), steps).state; var t, log := s.threads[tid], LogOf(n, steps, tid);
            t.pc.Hold? ==>
              && t.file.Some? && t.file.value in s.files && log.asked == Some(s.files[t.file.value].key)
              && t.file.value !in log.unfit
              && (if log.loaded == {} then log.seen == t.file && t.file.value in log.current
                  else log.loaded == {t.file.value} && log.stored)
  {
    hide FileOk, SlotsOk, Run, LogOf;
    RunKnown(n, steps, tid);
    assert ThreadOk(Run(Init(n), steps).state, tid);
  }

  /** After every run, a thread that has come out of a call has held a file exactly when nothing failed. If it held none
      although it saw one, it did not find that one up to date, and the slot has been without that file since it found
      that out, unless locking failed. */
  lemma HeldUnlessFailed(n: nat, steps: seq<(nat, Choice)>, tid: nat)
    requires tid < n
    ensures var r := Run(Init(n), steps); r.Next? && |r.state.threads| == n
    ensures var t, log := Run(Init(n), steps).state.threads[tid], LogOf(n, steps, tid);
            t.pc.Idle? && log.asked.Some? ==>
              && (log.held <==> !log.failed)
              && (log.seen.Some? && !log.held ==> log.seen.value !in log.current && (log.gone || log.lockFailed))
  {
    hide Inv, Run, LogOf;
    RunKnown(n, steps, tid);
  }

  // ----- every call ends -----

  /** How many steps a thread may still have to take from there, if it frees nothing on the way. */
  function StepsLeft(pc: Pc): nat {
    match pc
    case LockLookup => 22 case Lookup => 21 case Take(_) => 20 case UnlockLookup(_) => 19 case Check => 18
    case Load => 17 case LockUpsert => 16 case Own => 15 case Inc => 14 case Swap => 13 case Disown => 12
    case DropOld => 11 case UnlockUpsert => 10 case DropFile => 9 case Hold => 1
    case DropUpdated => 8 case Failed => 7 case LockRemove => 6 case Remove => 5 case UnlockRemove => 4
    case DisownRemoved => 3 case DropRemoved => 2 case DropLast => 1
    case Idle => 0
  }

  /** Counting down may bring along one more step each time, to free the file. */
  function Left(t: Thread): nat {
    2 * StepsLeft(t.pc) + (if t.dying.Some? then 1 else 0)
  }

  /** Every step of a thread brings it closer to the end of its call, but for the one that begins a call and those by
      which it uses the file it holds; so a call takes 44 steps at most, and the file is let go when it has been used.
      */
  lemma StepsForward(s: State, tid: nat, c: Choice)
    requires Step(s, tid, c).Next? && tid < |s.threads|
    ensures tid < |Step(s, tid, c).state.threads|
    ensures GoesForward(s.threads[tid], Step(s, tid, c).state.threads[tid], c)
  {
    OneThread(s, tid, c, tid);
    var t := s.threads[tid];
    if t.dying.Some? {
      FreeForward(s, tid, c);
    } else {
      hide *;
      QuietPoints(t.pc);
      if Quiet(t.pc) {
        QuietForward(s, tid, c);
      } else {
        LoudForward(s, tid, c);
      }
    }
  }

  predicate GoesForward(t: Thread, t': Thread, c: Choice) {
    && Left(t') <= 44
    && if t.dying.None? && t.pc.Idle? then t' == t.(pc := LockLookup, key := c.key)
       else if t.dying.None? && t.pc.Hold? && c.code > 0 then t' == t
       else Left(t') < Left(t)
  }

  lemma FreeForward(s: State, tid: nat, c: Choice)
    requires tid < |s.threads| && Step(s, tid, c).Next? && s.threads[tid].dying.Some?
    ensures GoesForward(s.threads[tid], Step(s, tid, c).state.threads[tid], c)
  {
  }

  lemma QuietForward(s: State, tid: nat, c: Choice)
    requires tid < |s.threads| && Step(s, tid, c).Next? && s.threads[tid].dying.None? && Quiet(s.threads[tid].pc)
    ensures GoesForward(s.threads[tid], Step(s, tid, c).state.threads[tid], c)
  {
    QuietStep(s, tid, c);
    hide Step;
  }

  lemma LoudForward(s: State, tid: nat, c: Choice)
    requires tid < |s.threads| && Step(s, tid, c).Next? && s.threads[tid].dying.None? && !Quiet(s.threads[tid].pc)
    ensures GoesForward(s.threads[tid], Step(s, tid, c).state.threads[tid], c)
  {
  }

  /** A thread waits only for the lock while another thread has it, or for memory to be free. */
  lemma WaitsOnly(s: State, tid: nat, c: Choice)
    requires Inv(s) && tid < |s.threads|
    ensures Step(s, tid, c).Stuck? <==>
            && s.threads[tid].dying.None? && c.code >= 0
            && ((Locking(s.threads[tid].pc) && s.lock.Some? && s.lock.value != tid)
                || (s.threads[tid].pc.Load? && c.id in s.files))
  {
    hide FileOk, SlotsOk;
    assert ThreadOk(s, tid);
  }
}
