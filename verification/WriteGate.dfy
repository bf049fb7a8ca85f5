/** The SQLite write gate: one asyncio lock per event loop and database, one file lock per database
    file, and a context-local marker per task that makes the gate reentrant.  Tasks of any number of
    loops and processes are interleaved step by step. */
module WriteGate {
  import opened Ordering

  /** Where a task stands in acquiring or releasing a lease; sections name the database key. */
  datatype Phase =
    | Running
    | WaitingLoop(unit: int)
    | WaitingFile(unit: int)
    | FreeingFile(key: string)
    | FreeingLoop(key: string)

  datatype Mark = Mark(key: string, ident: int)

  /** An asyncio task.  `ident` is `id(task)`: unique among live tasks only.  `marks` is its context's copy
      of the held-key markers, inherited from the task that spawned it. */
  datatype Task = Task(ident: int, loop: int, marks: set<Mark>, phase: Phase)

  /** A session or an explicit write section, used by one task on one database. */
  datatype Unit = Unit(task: int, key: string, dirty: bool)

  datatype LockKey = LockKey(loop: int, key: string)

  datatype State = State(tasks: map<int, Task>, units: map<int, Unit>, leased: set<int>,
                         loopLocks: map<LockKey, int>, files: set<string>, fileLocks: map<string, int>)

  datatype Step =
    | Start(task: int, ident: int, loop: int)
    | Spawn(parent: int, task: int, ident: int)
    | End(task: int)
    | Open(unit: int, task: int, key: string)
    | Discard(unit: int)
    | Request(unit: int)
    | TakeLoop(task: int)
    | TakeFile(task: int)
    | FailFile(task: int)
    | Write(unit: int)
    | Finish(unit: int, commit: bool)
    | FreeFile(task: int)
    | FreeLoop(task: int)

  predicate RunningUnit(st: State, u: int) {
    u in st.units && st.units[u].task in st.tasks && st.tasks[st.units[u].task].phase == Running
  }

  /** `sqlite_write_key_is_held` */
  predicate Marked(st: State, t: int, key: string)
    requires t in st.tasks
  {
    Mark(key, st.tasks[t].ident) in st.tasks[t].marks
  }

  predicate Granted(st: State, u: int)
    requires RunningUnit(st, u)
  {
    u in st.leased || Marked(st, st.units[u].task, st.units[u].key)
  }

  function LockOf(st: State, t: int, key: string): LockKey
    requires t in st.tasks
  {
    LockKey(st.tasks[t].loop, key)
  }

  predicate PhaseKnown(st: State, t: int) {
    && t in st.tasks
    && (st.tasks[t].phase.WaitingLoop? || st.tasks[t].phase.WaitingFile? ==> st.tasks[t].phase.unit in st.units)
  }

  predicate Enabled(st: State, step: Step) {
    match step
    case Start(t, _, _) => t !in st.tasks
    case Spawn(parent, t, _) => parent in st.tasks && st.tasks[parent].phase == Running && t !in st.tasks
    case End(t) => t in st.tasks && st.tasks[t].phase == Running && forall u | u in st.units :: st.units[u].task != t
    case Open(u, t, _) => u !in st.units && u !in st.leased && t in st.tasks && st.tasks[t].phase == Running
    case Discard(u) => RunningUnit(st, u) && u !in st.leased && !st.units[u].dirty
    case Request(u) => RunningUnit(st, u)
    case TakeLoop(t) =>
      PhaseKnown(st, t) && st.tasks[t].phase.WaitingLoop?
      && LockOf(st, t, st.units[st.tasks[t].phase.unit].key) !in st.loopLocks
    case TakeFile(t) =>
      PhaseKnown(st, t) && st.tasks[t].phase.WaitingFile?
      && (st.units[st.tasks[t].phase.unit].key in st.files ==> st.units[st.tasks[t].phase.unit].key !in st.fileLocks)
    case FailFile(t) => PhaseKnown(st, t) && st.tasks[t].phase.WaitingFile?
    case Write(u) => RunningUnit(st, u) && Granted(st, u)
    case Finish(u, _) => RunningUnit(st, u)
    case FreeFile(t) => t in st.tasks && st.tasks[t].phase.FreeingFile?
    case FreeLoop(t) => t in st.tasks && st.tasks[t].phase.FreeingLoop?
  }

  function InPhase(st: State, t: int, phase: Phase): State
    requires t in st.tasks
  {
    st.(tasks := st.tasks[t := st.tasks[t].(phase := phase)])
  }

  function Do(st: State, step: Step): State
    requires Enabled(st, step)
  {
    match step
    case Start(t, ident, loop) => st.(tasks := st.tasks[t := Task(ident, loop, {}, Running)])
    case Spawn(parent, t, ident) =>
      st.(tasks := st.tasks[t := Task(ident, st.tasks[parent].loop, st.tasks[parent].marks, Running)])
    case End(t) => st.(tasks := st.tasks - {t})
    case Open(u, t, key) => st.(units := st.units[u := Unit(t, key, false)])
    case Discard(u) => st.(units := st.units - {u})
    case Request(u) => if Granted(st, u) then st else InPhase(st, st.units[u].task, WaitingLoop(u))
    case TakeLoop(t) =>
      var u := st.tasks[t].phase.unit;
      InPhase(st, t, WaitingFile(u)).(loopLocks := st.loopLocks[LockOf(st, t, st.units[u].key) := t])
    case TakeFile(t) =>
      var u := st.tasks[t].phase.unit;
      var key := st.units[u].key;
      st.(tasks := st.tasks[t := st.tasks[t].(phase := Running, marks := st.tasks[t].marks + {Mark(key, st.tasks[t].ident)})],
          leased := st.leased + {u},
          fileLocks := if key in st.files then st.fileLocks[key := t] else st.fileLocks)
    case FailFile(t) =>
      var u := st.tasks[t].phase.unit;
      InPhase(st, t, Running).(loopLocks := st.loopLocks - {LockOf(st, t, st.units[u].key)})
    case Write(u) => st.(units := st.units[u := st.units[u].(dirty := true)])
    case Finish(u, _) =>
      var done := st.(units := st.units[u := st.units[u].(dirty := false)]);
      if u in st.leased then InPhase(done, st.units[u].task, FreeingFile(st.units[u].key)).(leased := st.leased - {u}) else done
    case FreeFile(t) =>
      var key := st.tasks[t].phase.key;
      InPhase(st, t, FreeingLoop(key)).(fileLocks := if key in st.files then st.fileLocks - {key} else st.fileLocks)
    case FreeLoop(t) =>
      var key := st.tasks[t].phase.key;
      st.(tasks := st.tasks[t := st.tasks[t].(phase := Running, marks := st.tasks[t].marks - {Mark(key, st.tasks[t].ident)})],
          loopLocks := st.loopLocks - {LockOf(st, t, key)})
  }

  // ----- the invariant -----

  /** The task owns a lease on the key. */
  ghost predicate Holds(st: State, t: int, key: string) {
    exists u | u in st.leased :: u in st.units && st.units[u].task == t && st.units[u].key == key
  }

  ghost predicate Freeing(st: State, t: int, key: string)
    requires t in st.tasks
  {
    st.tasks[t].phase == FreeingFile(key) || st.tasks[t].phase == FreeingLoop(key)
  }

  ghost predicate WaitsForFile(st: State, t: int, key: string)
    requires t in st.tasks
  {
    var phase := st.tasks[t].phase;
    phase.WaitingFile? && phase.unit in st.units && st.units[phase.unit].key == key
  }

  /** The task is between taking and giving back the loop lock. */
  ghost predicate InSection(st: State, t: int, key: string)
    requires t in st.tasks
  {
    WaitsForFile(st, t, key) || Holds(st, t, key) || Freeing(st, t, key)
  }

  ghost predicate UnitsInv(st: State) {
    && (forall u | u in st.units :: st.units[u].task in st.tasks)
    && (forall u | u in st.leased :: u in st.units)
    && (forall t | t in st.tasks && (st.tasks[t].phase.WaitingLoop? || st.tasks[t].phase.WaitingFile?) ::
          st.tasks[t].phase.unit in st.units && st.units[st.tasks[t].phase.unit].task == t
          && !Marked(st, t, st.units[st.tasks[t].phase.unit].key))
    && (forall u, v | u in st.leased && v in st.leased && st.units[u].task == st.units[v].task && st.units[u].key == st.units[v].key :: u == v)
  }

  ghost predicate LoopInv(st: State) {
    && (forall k | k in st.loopLocks :: st.loopLocks[k] in st.tasks && st.tasks[st.loopLocks[k]].loop == k.loop
                                        && InSection(st, st.loopLocks[k], k.key))
    && (forall t, key | t in st.tasks && InSection(st, t, key) :: LockOf(st, t, key) in st.loopLocks && st.loopLocks[LockOf(st, t, key)] == t)
  }

  ghost predicate HoldsFile(st: State, t: int, key: string)
    requires t in st.tasks
  {
    Holds(st, t, key) || st.tasks[t].phase == FreeingFile(key)
  }

  ghost predicate FileInv(st: State) {
    && (forall key | key in st.fileLocks :: key in st.files && st.fileLocks[key] in st.tasks && HoldsFile(st, st.fileLocks[key], key))
    && (forall t, key | t in st.tasks && key in st.files && HoldsFile(st, t, key) :: key in st.fileLocks && st.fileLocks[key] == t)
  }

  /** A task's own marker is set exactly while it owns a lease or is giving one back; the two never overlap. */
  ghost predicate MarkInv(st: State) {
    && (forall t, key | t in st.tasks :: Marked(st, t, key) <==> Owns(st, t, key))
    && (forall t, key | t in st.tasks && Freeing(st, t, key) :: !Holds(st, t, key))
  }

  ghost predicate Owns(st: State, t: int, key: string)
    requires t in st.tasks
  {
    Holds(st, t, key) || Freeing(st, t, key)
  }

  ghost predicate Inv(st: State) { UnitsInv(st) && LoopInv(st) && FileInv(st) && MarkInv(st) }

  /** Uncommitted writes exist under the gate only. */
  ghost predicate GateInv(st: State) {
    forall u | u in st.units && st.units[u].dirty :: Holds(st, st.units[u].task, st.units[u].key)
  }

  // ----- the invariant, step by step -----

  /** Steps that leave the leases alone leave every `Holds` alone. */
  lemma SameHolds(st: State, after: State)
    requires after.leased == st.leased
    requires forall u | u in st.leased :: u in st.units && u in after.units
               && after.units[u].task == st.units[u].task && after.units[u].key == st.units[u].key
    ensures forall t, key :: Holds(after, t, key) <==> Holds(st, t, key)
  {
    forall t, key ensures Holds(after, t, key) <==> Holds(st, t, key) {
      if Holds(st, t, key) { var u :| u in st.leased && st.units[u].task == t && st.units[u].key == key; }
      if Holds(after, t, key) { var u :| u in after.leased && after.units[u].task == t && after.units[u].key == key; }
    }
  }

  lemma OneMoreLease(st: State, after: State, u: int)
    requires u in st.units && after.units == st.units && after.leased == st.leased + {u}
    ensures forall t, key :: Holds(after, t, key) <==> Holds(st, t, key) || (t == st.units[u].task && key == st.units[u].key)
  {
    forall t, key ensures Holds(after, t, key) <==> Holds(st, t, key) || (t == st.units[u].task && key == st.units[u].key) {
      if Holds(st, t, key) {
        var v :| v in st.leased && v in st.units && st.units[v].task == t && st.units[v].key == key;
        assert v in after.leased;
      }
      if t == st.units[u].task && key == st.units[u].key { assert u in after.leased; }
    }
  }

  lemma OneLeaseLess(st: State, after: State, u: int)
    requires UnitsInv(st) && u in st.leased && after.leased == st.leased - {u}
    requires after.units == st.units[u := st.units[u].(dirty := false)]
    ensures Holds(st, st.units[u].task, st.units[u].key)
    ensures forall t, key :: Holds(after, t, key) <==> Holds(st, t, key) && (t != st.units[u].task || key != st.units[u].key)
  {
    forall t, key ensures Holds(after, t, key) <==> Holds(st, t, key) && (t != st.units[u].task || key != st.units[u].key) {
      if Holds(st, t, key) && (t != st.units[u].task || key != st.units[u].key) {
        var v :| v in st.leased && v in st.units && st.units[v].task == t && st.units[v].key == key;
        assert v in after.leased && after.units[v] == st.units[v];
      }
    }
  }

  lemma NoUnitsNoHolds(st: State, t: int)
    requires UnitsInv(st) && forall u | u in st.units :: st.units[u].task != t
    ensures forall key :: !Holds(st, t, key)
  {
  }

  ghost predicate SameTasks(st: State, after: State) {
    && after.tasks.Keys == st.tasks.Keys && after.files == st.files
    && forall t | t in st.tasks :: after.tasks[t].loop == st.tasks[t].loop && after.tasks[t].ident == st.tasks[t].ident
  }

  /** The phase is about no key but `mine`. */
  ghost predicate Concerns(st: State, phase: Phase, mine: string) {
    match phase
    case Running => true
    case WaitingLoop(_) => true
    case WaitingFile(u) => u in st.units && st.units[u].key == mine
    case FreeingFile(key) => key == mine
    case FreeingLoop(key) => key == mine
  }

  /** Only what task `t` has to do with key `mine` may have changed. */
  ghost predicate OnlyHere(st: State, after: State, t: int, mine: string) {
    && SameTasks(st, after) && t in st.tasks
    && forall x, key | x in st.tasks && (x != t || key != mine) ::
         && (InSection(after, x, key) <==> InSection(st, x, key))
         && (HoldsFile(after, x, key) <==> HoldsFile(st, x, key))
         && (Owns(after, x, key) <==> Owns(st, x, key))
         && (Freeing(after, x, key) ==> !Holds(after, x, key))
  }

  lemma StepIsLocal(st: State, after: State, t: int, mine: string)
    requires UnitsInv(st) && MarkInv(st) && SameTasks(st, after) && t in st.tasks
    requires forall u | u in st.units :: u in after.units && after.units[u].key == st.units[u].key
    requires forall x | x in st.tasks && x != t :: after.tasks[x].phase == st.tasks[x].phase
    requires Concerns(st, st.tasks[t].phase, mine) && Concerns(st, after.tasks[t].phase, mine)
    requires forall x, key | x != t || key != mine :: Holds(after, x, key) <==> Holds(st, x, key)
    ensures OnlyHere(st, after, t, mine)
  {
    hide Holds;
    forall x, key | x in st.tasks && (x != t || key != mine)
      ensures WaitsForFile(after, x, key) <==> WaitsForFile(st, x, key)
      ensures Freeing(after, x, key) <==> Freeing(st, x, key)
    {}
  }

  /** The loop lock moves with the section. */
  lemma LoopMoves(st: State, after: State, t: int, mine: string)
    requires LoopInv(st) && OnlyHere(st, after, t, mine)
    requires if InSection(after, t, mine) == InSection(st, t, mine) then after.loopLocks == st.loopLocks
             else if InSection(after, t, mine) then
               LockOf(st, t, mine) !in st.loopLocks && after.loopLocks == st.loopLocks[LockOf(st, t, mine) := t]
             else after.loopLocks == st.loopLocks - {LockOf(st, t, mine)}
    ensures LoopInv(after)
  {
    hide InSection, Owns, Freeing, HoldsFile, Holds;
    forall x, key | x in after.tasks && InSection(after, x, key)
      ensures LockOf(after, x, key) in after.loopLocks && after.loopLocks[LockOf(after, x, key)] == x
    {
      assert (x == t && key == mine) || InSection(st, x, key);
      assert LockOf(after, x, key) == LockOf(st, x, key);
    }
    forall k | k in after.loopLocks
      ensures after.loopLocks[k] in after.tasks && after.tasks[after.loopLocks[k]].loop == k.loop && InSection(after, after.loopLocks[k], k.key)
    {
      if k != LockOf(st, t, mine) { assert k in st.loopLocks; }
    }
  }

  /** The file lock moves with the part of the section that needs it. */
  lemma FileMoves(st: State, after: State, t: int, mine: string)
    requires FileInv(st) && OnlyHere(st, after, t, mine)
    requires if mine !in st.files || HoldsFile(after, t, mine) == HoldsFile(st, t, mine) then after.fileLocks == st.fileLocks
             else if HoldsFile(after, t, mine) then mine !in st.fileLocks && after.fileLocks == st.fileLocks[mine := t]
             else after.fileLocks == st.fileLocks - {mine}
    ensures FileInv(after)
  {
    hide InSection, Owns, Freeing, HoldsFile, Holds;
  }

  lemma MarkMoves(st: State, after: State, t: int, mine: string)
    requires MarkInv(st) && OnlyHere(st, after, t, mine)
    requires forall x | x in st.tasks && x != t :: after.tasks[x].marks == st.tasks[x].marks
    requires forall m: Mark | m.key != mine || m.ident != st.tasks[t].ident :: m in after.tasks[t].marks <==> m in st.tasks[t].marks
    requires Marked(after, t, mine) <==> Owns(after, t, mine)
    requires Freeing(after, t, mine) ==> !Holds(after, t, mine)
    ensures MarkInv(after)
  {
    hide InSection, Owns, Freeing, HoldsFile, Holds;
    forall x, key | x in after.tasks ensures Marked(after, x, key) <==> Owns(after, x, key) {
      if x != t || key != mine { assert Marked(after, x, key) <==> Marked(st, x, key); }
    }
  }

  /** The three at once. */
  lemma Moves(st: State, after: State, t: int, mine: string)
    requires Inv(st) && OnlyHere(st, after, t, mine)
    requires if InSection(after, t, mine) == InSection(st, t, mine) then after.loopLocks == st.loopLocks
             else if InSection(after, t, mine) then
               LockOf(st, t, mine) !in st.loopLocks && after.loopLocks == st.loopLocks[LockOf(st, t, mine) := t]
             else after.loopLocks == st.loopLocks - {LockOf(st, t, mine)}
    requires if mine !in st.files || HoldsFile(after, t, mine) == HoldsFile(st, t, mine) then after.fileLocks == st.fileLocks
             else if HoldsFile(after, t, mine) then mine !in st.fileLocks && after.fileLocks == st.fileLocks[mine := t]
             else after.fileLocks == st.fileLocks - {mine}
    requires forall x | x in st.tasks && x != t :: after.tasks[x].marks == st.tasks[x].marks
    requires forall m: Mark | m.key != mine || m.ident != st.tasks[t].ident :: m in after.tasks[t].marks <==> m in st.tasks[t].marks
    requires Marked(after, t, mine) <==> Owns(after, t, mine)
    requires Freeing(after, t, mine) ==> !Holds(after, t, mine)
    ensures LoopInv(after) && FileInv(after) && MarkInv(after)
  {
    hide InSection, Owns, Freeing, HoldsFile, Holds, LoopInv, FileInv, MarkInv, OnlyHere;
    LoopMoves(st, after, t, mine);
    FileMoves(st, after, t, mine);
    MarkMoves(st, after, t, mine);
  }

  lemma RequestInv(st: State, u: int)
    requires Inv(st) && Enabled(st, Request(u))
    ensures Inv(Do(st, Request(u)))
  {
    if !Granted(st, u) {
      var after, t, mine := Do(st, Request(u)), st.units[u].task, st.units[u].key;
      SameHolds(st, after);
      StepIsLocal(st, after, t, mine);
      Moves(st, after, t, mine);
    }
  }

  lemma TakeLoopInv(st: State, t: int)
    requires Inv(st) && Enabled(st, TakeLoop(t))
    ensures Inv(Do(st, TakeLoop(t)))
  {
    var after, mine := Do(st, TakeLoop(t)), st.units[st.tasks[t].phase.unit].key;
    SameHolds(st, after);
    StepIsLocal(st, after, t, mine);
    assert !InSection(st, t, mine) && InSection(after, t, mine);
    Moves(st, after, t, mine);
  }

  lemma FailFileInv(st: State, t: int)
    requires Inv(st) && Enabled(st, FailFile(t))
    ensures Inv(Do(st, FailFile(t)))
  {
    var after, mine := Do(st, FailFile(t)), st.units[st.tasks[t].phase.unit].key;
    SameHolds(st, after);
    StepIsLocal(st, after, t, mine);
    assert InSection(st, t, mine) && !InSection(after, t, mine);
    Moves(st, after, t, mine);
  }

  lemma TakeFileInv(st: State, t: int)
    requires Inv(st) && Enabled(st, TakeFile(t))
    ensures Inv(Do(st, TakeFile(t)))
  {
    var after, u := Do(st, TakeFile(t)), st.tasks[t].phase.unit;
    var mine := st.units[u].key;
    OneMoreLease(st, after, u);
    StepIsLocal(st, after, t, mine);
    assert !Holds(st, t, mine) && Holds(after, t, mine) && !Freeing(after, t, mine);
    Moves(st, after, t, mine);
    assert UnitsInv(after) by {
      forall v | v in st.leased ensures st.units[v].task != t || st.units[v].key != mine {}
    }
  }

  lemma FinishInv(st: State, u: int, commit: bool)
    requires Inv(st) && Enabled(st, Finish(u, commit))
    ensures Inv(Do(st, Finish(u, commit)))
  {
    var after, t, mine := Do(st, Finish(u, commit)), st.units[u].task, st.units[u].key;
    if u !in st.leased { SameHolds(st, after); } else { OneLeaseLess(st, after, u); }
    StepIsLocal(st, after, t, mine);
    FinishHere(st, u, commit);
    FinishUnits(st, u, commit);
    hide Holds, InSection, HoldsFile, Owns, Freeing, Marked, LoopInv, FileInv, MarkInv, UnitsInv, OnlyHere;
    Moves(st, after, t, mine);
  }

  lemma FinishHere(st: State, u: int, commit: bool)
    requires Inv(st) && Enabled(st, Finish(u, commit))
    ensures var after, t, mine := Do(st, Finish(u, commit)), st.units[u].task, st.units[u].key;
            && InSection(after, t, mine) == InSection(st, t, mine) && HoldsFile(after, t, mine) == HoldsFile(st, t, mine)
            && Marked(after, t, mine) == Owns(after, t, mine)
            && (Freeing(after, t, mine) ==> !Holds(after, t, mine))
  {
    var after, t, mine := Do(st, Finish(u, commit)), st.units[u].task, st.units[u].key;
    if u !in st.leased { SameHolds(st, after); } else { OneLeaseLess(st, after, u); }
    hide Holds;
    assert Marked(after, t, mine) == Marked(st, t, mine) == Owns(st, t, mine);
  }

  lemma FinishUnits(st: State, u: int, commit: bool)
    requires Inv(st) && Enabled(st, Finish(u, commit))
    ensures UnitsInv(Do(st, Finish(u, commit)))
  {
  }

  lemma FreeFileInv(st: State, t: int)
    requires Inv(st) && Enabled(st, FreeFile(t))
    ensures Inv(Do(st, FreeFile(t)))
  {
    var after, mine := Do(st, FreeFile(t)), st.tasks[t].phase.key;
    SameHolds(st, after);
    StepIsLocal(st, after, t, mine);
    FreeFileHere(st, t);
    FreeFileUnits(st, t);
    hide Holds, InSection, HoldsFile, Owns, Freeing, Marked, LoopInv, FileInv, MarkInv, UnitsInv, OnlyHere;
    Moves(st, after, t, mine);
  }

  lemma FreeFileHere(st: State, t: int)
    requires Inv(st) && Enabled(st, FreeFile(t))
    ensures var after, mine := Do(st, FreeFile(t)), st.tasks[t].phase.key;
            && InSection(after, t, mine) && InSection(st, t, mine) && !HoldsFile(after, t, mine) && HoldsFile(st, t, mine)
            && Marked(after, t, mine) && Owns(after, t, mine) && !Holds(after, t, mine)
  {
    SameHolds(st, Do(st, FreeFile(t)));
    hide Holds;
    var after, mine := Do(st, FreeFile(t)), st.tasks[t].phase.key;
    assert Freeing(st, t, mine) && !Holds(st, t, mine);
    assert Marked(after, t, mine) == Marked(st, t, mine) == Owns(st, t, mine);
  }

  lemma FreeFileUnits(st: State, t: int)
    requires Inv(st) && Enabled(st, FreeFile(t))
    ensures UnitsInv(Do(st, FreeFile(t)))
  {
  }

  lemma FreeLoopInv(st: State, t: int)
    requires Inv(st) && Enabled(st, FreeLoop(t))
    ensures Inv(Do(st, FreeLoop(t)))
  {
    var after, mine := Do(st, FreeLoop(t)), st.tasks[t].phase.key;
    SameHolds(st, after);
    StepIsLocal(st, after, t, mine);
    assert Freeing(st, t, mine) && !Holds(st, t, mine) && InSection(st, t, mine) && !InSection(after, t, mine);
    Moves(st, after, t, mine);
  }

  // ----- steps that change the tasks or the units -----

  lemma Unchanged(st: State, after: State)
    requires Inv(st) && UnitsInv(after)
    requires forall t, key :: Holds(after, t, key) <==> Holds(st, t, key)
    requires after.loopLocks == st.loopLocks && after.fileLocks == st.fileLocks && after.files == st.files
    requires forall t | t in after.tasks && t in st.tasks :: after.tasks[t] == st.tasks[t]
    requires forall t | t in after.tasks && t !in st.tasks :: after.tasks[t].phase == Running
               && forall key :: !Holds(st, t, key) && !Marked(after, t, key)
    requires forall t | t in st.tasks && t !in after.tasks :: st.tasks[t].phase == Running && forall key :: !Holds(st, t, key)
    requires forall u | u in st.units && u in after.units :: after.units[u].key == st.units[u].key
    ensures Inv(after)
  {
    forall t, key | t in st.tasks && t in after.tasks ensures WaitsForFile(after, t, key) <==> WaitsForFile(st, t, key) {}
    hide Holds;
    forall t, key | t in st.tasks && t in after.tasks
      ensures InSection(after, t, key) <==> InSection(st, t, key)
      ensures HoldsFile(after, t, key) <==> HoldsFile(st, t, key)
      ensures Owns(after, t, key) <==> Owns(st, t, key)
      ensures Freeing(after, t, key) <==> Freeing(st, t, key)
      ensures Marked(after, t, key) <==> Marked(st, t, key)
    {}
    forall t, key | t in after.tasks && t !in st.tasks
      ensures !InSection(after, t, key) && !HoldsFile(after, t, key) && !Owns(after, t, key) && !Freeing(after, t, key) {}
    forall t, key | t in st.tasks && t !in after.tasks ensures !InSection(st, t, key) && !HoldsFile(st, t, key) {}
    hide InSection, HoldsFile, Owns, Freeing, Marked, UnitsInv;
    UnchangedLocks(st, after);
  }

  lemma UnchangedLocks(st: State, after: State)
    requires LoopInv(st) && FileInv(st) && MarkInv(st)
    requires after.loopLocks == st.loopLocks && after.fileLocks == st.fileLocks && after.files == st.files
    requires forall t | t in after.tasks && t in st.tasks :: after.tasks[t] == st.tasks[t]
    requires forall t, key | t in st.tasks && t in after.tasks ::
               && (InSection(after, t, key) <==> InSection(st, t, key)) && (HoldsFile(after, t, key) <==> HoldsFile(st, t, key))
               && (Owns(after, t, key) <==> Owns(st, t, key)) && (Freeing(after, t, key) <==> Freeing(st, t, key))
               && (Marked(after, t, key) <==> Marked(st, t, key)) && (Holds(after, t, key) <==> Holds(st, t, key))
    requires forall t, key | t in after.tasks && t !in st.tasks ::
               !InSection(after, t, key) && !HoldsFile(after, t, key) && !Owns(after, t, key) && !Freeing(after, t, key) && !Marked(after, t, key)
    requires forall t, key | t in st.tasks && t !in after.tasks :: !InSection(st, t, key) && !HoldsFile(st, t, key)
    ensures LoopInv(after) && FileInv(after) && MarkInv(after)
  {
    hide InSection, HoldsFile, Owns, Freeing, Marked, Holds;
  }

  lemma NewTaskInv(st: State, t: int, task: Task)
    requires Inv(st) && t !in st.tasks && task.phase == Running && forall key: string :: Mark(key, task.ident) !in task.marks
    ensures Inv(st.(tasks := st.tasks[t := task]))
  {
    var after := st.(tasks := st.tasks[t := task]);
    SameHolds(st, after);
    NoUnitsNoHolds(st, t);
    Unchanged(st, after);
  }

  lemma EndInv(st: State, t: int)
    requires Inv(st) && Enabled(st, End(t))
    ensures Inv(Do(st, End(t)))
  {
    SameHolds(st, Do(st, End(t)));
    NoUnitsNoHolds(st, t);
    Unchanged(st, Do(st, End(t)));
  }

  /** Opening, writing and discarding a unit. */
  lemma UnitStepInv(st: State, step: Step)
    requires Inv(st) && Enabled(st, step) && (step.Open? || step.Write? || step.Discard?)
    ensures Inv(Do(st, step))
  {
    var after := Do(st, step);
    SameHolds(st, after);
    assert UnitsInv(after) by {
      forall t | t in st.tasks && (st.tasks[t].phase.WaitingLoop? || st.tasks[t].phase.WaitingFile?)
        ensures st.tasks[t].phase.unit in after.units {}
    }
    Unchanged(st, after);
  }

  /** Spawning keeps the invariant exactly when the new task's ident has no stale marker in the context it
      inherits: `id(task)` is unique among live tasks only. */
  lemma SpawnKeepsInvIff(st: State, parent: int, t: int, ident: int)
    requires Inv(st) && Enabled(st, Spawn(parent, t, ident))
    ensures Inv(Do(st, Spawn(parent, t, ident))) <==> forall m | m in st.tasks[parent].marks :: m.ident != ident
  {
    var after := Do(st, Spawn(parent, t, ident));
    if forall m | m in st.tasks[parent].marks :: m.ident != ident {
      NewTaskInv(st, t, after.tasks[t]);
    } else {
      var m :| m in st.tasks[parent].marks && m.ident == ident;
      SameHolds(st, after);
      NoUnitsNoHolds(st, t);
      assert Mark(m.key, ident) == m;
      assert Marked(after, t, m.key) && !Owns(after, t, m.key);
    }
  }

  // ----- uncommitted writes -----

  /** A step that ends a unit's transaction keeps all remaining uncommitted writes under the gate exactly
      when it does not give up the lease under which another unit of the task still has some. */
  lemma FinishKeepsGateIff(st: State, u: int, commit: bool)
    requires Inv(st) && GateInv(st) && Enabled(st, Finish(u, commit))
    ensures GateInv(Do(st, Finish(u, commit))) <==>
              (u in st.leased ==> forall v | v in st.units && v != u && st.units[v].dirty ::
                                    st.units[v].task != st.units[u].task || st.units[v].key != st.units[u].key)
  {
    var after := Do(st, Finish(u, commit));
    if u in st.leased {
      OneLeaseLess(st, after, u);
      hide Holds;
      forall v | v in st.units && v != u ensures after.units[v] == st.units[v] {}
    } else {
      SameHolds(st, after);
      hide Holds;
    }
  }

  /** A write happens under the gate. */
  lemma WritesAreGated(st: State, u: int)
    requires Inv(st) && Enabled(st, Write(u))
    ensures Holds(st, st.units[u].task, st.units[u].key)
  {
  }

  // ----- runs -----

  /** The two things the gate relies on: no new task inherits a stale marker of its own ident, and the
      owner of a lease finishes last among the units of its task that have uncommitted writes. */
  ghost predicate WellNested(st: State, step: Step) {
    match step
    case Spawn(parent, _, ident) => parent in st.tasks ==> forall m | m in st.tasks[parent].marks :: m.ident != ident
    case Finish(u, _) =>
      u in st.leased && u in st.units ==>
        forall v | v in st.units && v != u && st.units[v].dirty ::
          st.units[v].task != st.units[u].task || st.units[v].key != st.units[u].key
    case _ => true
  }

  lemma StepInv(st: State, step: Step)
    requires Inv(st) && Enabled(st, step) && WellNested(st, step)
    ensures Inv(Do(st, step))
  {
    hide Inv, Enabled, WellNested, Do;
    match step
    case Start(t, ident, loop) => StartInv(st, t, ident, loop);
    case Spawn(parent, t, ident) => SpawnInv(st, parent, t, ident);
    case End(t) => EndInv(st, t);
    case Open(_, _, _) => UnitStepInv(st, step);
    case Discard(_) => UnitStepInv(st, step);
    case Request(u) => RequestInv(st, u);
    case TakeLoop(t) => TakeLoopInv(st, t);
    case TakeFile(t) => TakeFileInv(st, t);
    case FailFile(t) => FailFileInv(st, t);
    case Write(_) => UnitStepInv(st, step);
    case Finish(u, commit) => FinishInv(st, u, commit);
    case FreeFile(t) => FreeFileInv(st, t);
    case FreeLoop(t) => FreeLoopInv(st, t);
  }

  lemma StartInv(st: State, t: int, ident: int, loop: int)
    requires Inv(st) && Enabled(st, Start(t, ident, loop))
    ensures Inv(Do(st, Start(t, ident, loop)))
  {
    NewTaskInv(st, t, Task(ident, loop, {}, Running));
  }

  lemma SpawnInv(st: State, parent: int, t: int, ident: int)
    requires Inv(st) && Enabled(st, Spawn(parent, t, ident)) && WellNested(st, Spawn(parent, t, ident))
    ensures Inv(Do(st, Spawn(parent, t, ident)))
  {
    SpawnKeepsInvIff(st, parent, t, ident);
  }

  lemma StepGate(st: State, step: Step)
    requires Inv(st) && GateInv(st) && Enabled(st, step) && WellNested(st, step)
    ensures GateInv(Do(st, step))
  {
    var after := Do(st, step);
    if step.Finish? {
      FinishKeepsGateIff(st, step.unit, step.commit);
    } else if step.TakeFile? {
      OneMoreLease(st, after, st.tasks[step.task].phase.unit);
    } else {
      SameHolds(st, after);
      if step.Write? { WritesAreGated(st, step.unit); }
    }
  }

  ghost function Run(st: State, steps: seq<Step>): State
    decreases |steps|
  {
    if steps == [] then st
    else
      var before, step := Run(st, steps[..|steps| - 1]), steps[|steps| - 1];
      if Enabled(before, step) && WellNested(before, step) then Do(before, step) else before
  }

  lemma {:induction false} RunInv(st: State, steps: seq<Step>)
    requires Inv(st) && GateInv(st)
    ensures Inv(Run(st, steps)) && GateInv(Run(st, steps))
    decreases |steps|
  {
    if steps != [] {
      var before, step := Run(st, steps[..|steps| - 1]), steps[|steps| - 1];
      RunInv(st, steps[..|steps| - 1]);
      if Enabled(before, step) && WellNested(before, step) {
        StepInv(before, step);
        StepGate(before, step);
      }
    }
  }

  /** No tasks yet; `files` are the databases that have a lock file. */
  function Initial(files: set<string>): State { State(map[], map[], {}, map[], files, map[]) }

  /** Mutual exclusion over every run: one lease per database file across all loops and processes, and one
      per event loop for a database without a file. */
  lemma GateIsExclusive(files: set<string>, steps: seq<Step>, u: int, v: int)
    requires var st := Run(Initial(files), steps);
             && u in st.leased && v in st.leased && u in st.units && v in st.units && st.units[u].key == st.units[v].key
             && (st.units[u].key in files
                 || (st.units[u].task in st.tasks && st.units[v].task in st.tasks
                     && st.tasks[st.units[u].task].loop == st.tasks[st.units[v].task].loop))
    ensures u == v
  {
    var st := Run(Initial(files), steps);
    RunInv(Initial(files), steps);
    SameFiles(Initial(files), steps);
    OneLease(st, u, v);
  }

  lemma {:induction false} SameFiles(st: State, steps: seq<Step>)
    ensures Run(st, steps).files == st.files
    decreases |steps|
  {
    hide Do, Enabled, WellNested;
    if steps != [] {
      var before, step := Run(st, steps[..|steps| - 1]), steps[|steps| - 1];
      SameFiles(st, steps[..|steps| - 1]);
      if Enabled(before, step) { StepKeepsFiles(before, step); }
    }
  }

  lemma StepKeepsFiles(st: State, step: Step)
    requires Enabled(st, step)
    ensures Do(st, step).files == st.files
  {
  }

  lemma OneLease(st: State, u: int, v: int)
    requires Inv(st) && u in st.leased && v in st.leased && st.units[u].key == st.units[v].key
    requires st.units[u].key in st.files || st.tasks[st.units[u].task].loop == st.tasks[st.units[v].task].loop
    ensures u == v
  {
    var key, t, s := st.units[u].key, st.units[u].task, st.units[v].task;
    assert Holds(st, t, key) && Holds(st, s, key);
    if key in st.files {
      assert HoldsFile(st, t, key) && HoldsFile(st, s, key);
    } else {
      assert InSection(st, t, key) && InSection(st, s, key);
      assert LockOf(st, t, key) == LockOf(st, s, key);
    }
  }

  /** Reentrancy over every run: while a task owns a lease its own units on that database are admitted at
      once, it never waits for the gate, and its marker is set. */
  lemma HolderNeverWaits(files: set<string>, steps: seq<Step>, t: int, key: string)
    requires t in Run(Initial(files), steps).tasks
    ensures var st := Run(Initial(files), steps);
            && (Marked(st, t, key) <==> Owns(st, t, key))
            && (Holds(st, t, key) ==>
                  && (forall u | RunningUnit(st, u) && st.units[u].task == t && st.units[u].key == key :: Granted(st, u))
                  && (st.tasks[t].phase.WaitingLoop? || st.tasks[t].phase.WaitingFile? ==>
                        st.tasks[t].phase.unit in st.units && st.units[st.tasks[t].phase.unit].key != key))
  {
    RunInv(Initial(files), steps);
  }

  /** Uncommitted writes to a database file belong to one task at a time, and that task owns the gate: so
      every commit of written data happens under the gate. */
  lemma CommitsAreGated(files: set<string>, steps: seq<Step>, u: int)
    requires var st := Run(Initial(files), steps); u in st.units && st.units[u].dirty
    ensures var st := Run(Initial(files), steps);
            && Holds(st, st.units[u].task, st.units[u].key)
            && (st.units[u].key in files ==>
                  forall v | v in st.units && st.units[v].dirty && st.units[v].key == st.units[u].key :: st.units[v].task == st.units[u].task)
  {
    var st := Run(Initial(files), steps);
    RunInv(Initial(files), steps);
    SameFiles(Initial(files), steps);
    forall v | v in st.units && st.units[v].dirty && st.units[v].key == st.units[u].key && st.units[u].key in files
      ensures st.units[v].task == st.units[u].task
    {
      assert HoldsFile(st, st.units[v].task, st.units[v].key) && HoldsFile(st, st.units[u].task, st.units[u].key);
    }
  }

  /** Releasing never fails: the locks to be given back are held, by the task that gives them back. */
  lemma ReleasesSucceed(files: set<string>, steps: seq<Step>, t: int)
    requires t in Run(Initial(files), steps).tasks
    ensures var st := Run(Initial(files), steps);
            && (st.tasks[t].phase.FreeingFile? && st.tasks[t].phase.key in files ==>
                  st.tasks[t].phase.key in st.fileLocks && st.fileLocks[st.tasks[t].phase.key] == t)
            && (st.tasks[t].phase.FreeingLoop? ==>
                  var lock := LockOf(st, t, st.tasks[t].phase.key); lock in st.loopLocks && st.loopLocks[lock] == t)
  {
    var st := Run(Initial(files), steps);
    RunInv(Initial(files), steps);
    SameFiles(Initial(files), steps);
    if st.tasks[t].phase.FreeingFile? { assert HoldsFile(st, t, st.tasks[t].phase.key); }
    if st.tasks[t].phase.FreeingLoop? { assert InSection(st, t, st.tasks[t].phase.key); }
  }

  /** How many leases of a task on a key were granted, less how many were given back. */
  ghost function Balance(st: State, steps: seq<Step>, t: int, key: string): int
    decreases |steps|
  {
    if steps == [] then 0
    else
      var before, step := Run(st, steps[..|steps| - 1]), steps[|steps| - 1];
      var granted := Enabled(before, step) && step == TakeFile(t) && before.units[before.tasks[t].phase.unit].key == key;
      var freed := Enabled(before, step) && step == FreeLoop(t) && before.tasks[t].phase.key == key;
      Balance(st, steps[..|steps| - 1], t, key) + (if granted then 1 else 0) - (if freed then 1 else 0)
  }

  /** Every lease is given back exactly once: at any moment a task has one more grant than releases while
      it owns a lease, and as many of each otherwise. */
  lemma {:induction false} LeasesAreReleasedOnce(files: set<string>, steps: seq<Step>, t: int, key: string)
    ensures Balance(Initial(files), steps, t, key) ==
            if t in Run(Initial(files), steps).tasks && Owns(Run(Initial(files), steps), t, key) then 1 else 0
    decreases |steps|
  {
    var st := Initial(files);
    if steps != [] {
      var before, step := Run(st, steps[..|steps| - 1]), steps[|steps| - 1];
      LeasesAreReleasedOnce(files, steps[..|steps| - 1], t, key);
      RunInv(st, steps[..|steps| - 1]);
      if Enabled(before, step) && WellNested(before, step) {
        StepInv(before, step);
        OwnsStep(before, step, t, key);
      }
      hide Inv, Do, Enabled, Owns, Holds, Freeing;
    }
  }

  lemma OwnsStep(st: State, step: Step, t: int, key: string)
    requires Inv(st) && Enabled(st, step) && WellNested(st, step) && Inv(Do(st, step))
    ensures var after := Do(st, step);
            var granted := step == TakeFile(t) && st.units[st.tasks[t].phase.unit].key == key;
            var freed := step == FreeLoop(t) && st.tasks[t].phase.key == key;
            (if t in after.tasks && Owns(after, t, key) then 1 else 0) ==
            (if t in st.tasks && Owns(st, t, key) then 1 else 0) + (if granted then 1 else 0) - (if freed then 1 else 0)
  {
    assert t in st.tasks ==> (Marked(st, t, key) <==> Owns(st, t, key));
    var after := Do(st, step);
    assert t in after.tasks ==> (Marked(after, t, key) <==> Owns(after, t, key));
    if step == End(t) { NoUnitsNoHolds(st, t); }
    hide Owns, Holds, Freeing;
    MarkStep(st, step, t, key);
  }

  lemma MarkStep(st: State, step: Step, t: int, key: string)
    requires Inv(st) && Enabled(st, step) && WellNested(st, step)
    ensures var after := Do(st, step);
            var granted := step == TakeFile(t) && st.units[st.tasks[t].phase.unit].key == key;
            var freed := step == FreeLoop(t) && st.tasks[t].phase.key == key;
            (if t in after.tasks && Marked(after, t, key) then 1 else 0) ==
            (if t in st.tasks && Marked(st, t, key) then 1 else 0) + (if granted then 1 else 0) - (if freed then 1 else 0)
  {
    if step == End(t) {
      NoUnitsNoHolds(st, t);
      assert !Owns(st, t, key);
    }
    if step == FreeLoop(t) { assert Freeing(st, t, st.tasks[t].phase.key); }
  }

  // ----- the stale marker -----

  /** Task 1 takes the gate, spawns task 2 while it holds it, gives it back and ends. */
  function HolderSpawnsAndEnds(key: string): seq<Step> {
    [Start(1, 10, 0)] + [Open(5, 1, key)] + [Request(5)] + [TakeLoop(1)] + [TakeFile(1)] + [Spawn(1, 2, 20)]
    + [Finish(5, true)] + [FreeFile(1)] + [FreeLoop(1)] + [Discard(5)] + [End(1)]
  }

  ghost predicate Leads(st: State, step: Step, next: State) { Enabled(st, step) && WellNested(st, step) && Do(st, step) == next }

  lemma RunMore(st: State, steps: seq<Step>, step: Step, reached: State, next: State)
    requires Run(st, steps) == reached && Leads(reached, step, next)
    ensures Run(st, steps + [step]) == next
  {
    assert (steps + [step])[..|steps|] == steps;
  }

  /** A state of the example: one or two tasks, at most one unit, and which locks task 1 holds. */
  function Scene(key: string, tasks: map<int, Task>, units: map<int, Unit>, leased: set<int>, inLoop: bool, inFile: bool): State {
    State(tasks, units, leased, if inLoop then map[LockKey(0, key) := 1] else map[], {key}, if inFile then map[key := 1] else map[])
  }

  function Holder(key: string, phase: Phase, marked: bool): Task { Task(10, 0, if marked then {Mark(key, 10)} else {}, phase) }

  function Heir(key: string): Task { Task(20, 0, {Mark(key, 10)}, Running) }

  function SceneAt(key: string, i: nat): State {
    match i
    case 0 => Scene(key, map[], map[], {}, false, false)
    case 1 => Scene(key, map[1 := Holder(key, Running, false)], map[], {}, false, false)
    case 2 => Scene(key, map[1 := Holder(key, Running, false)], map[5 := Unit(1, key, false)], {}, false, false)
    case 3 => Scene(key, map[1 := Holder(key, WaitingLoop(5), false)], map[5 := Unit(1, key, false)], {}, false, false)
    case 4 => Scene(key, map[1 := Holder(key, WaitingFile(5), false)], map[5 := Unit(1, key, false)], {}, true, false)
    case 5 => Scene(key, map[1 := Holder(key, Running, true)], map[5 := Unit(1, key, false)], {5}, true, true)
    case 6 => Scene(key, map[1 := Holder(key, Running, true), 2 := Heir(key)], map[5 := Unit(1, key, false)], {5}, true, true)
    case 7 => Scene(key, map[1 := Holder(key, FreeingFile(key), true), 2 := Heir(key)], map[5 := Unit(1, key, false)], {}, true, true)
    case 8 => Scene(key, map[1 := Holder(key, FreeingLoop(key), true), 2 := Heir(key)], map[5 := Unit(1, key, false)], {}, true, false)
    case 9 => Scene(key, map[1 := Holder(key, Running, false), 2 := Heir(key)], map[5 := Unit(1, key, false)], {}, false, false)
    case 10 => Scene(key, map[1 := Holder(key, Running, false), 2 := Heir(key)], map[], {}, false, false)
    case _ => Scene(key, map[2 := Heir(key)], map[], {}, false, false)
  }

  lemma Started(key: string)
    ensures Leads(SceneAt(key, 0), Start(1, 10, 0), SceneAt(key, 1))
  {
  }

  lemma Opened(key: string)
    ensures Leads(SceneAt(key, 1), Open(5, 1, key), SceneAt(key, 2))
  {
  }

  lemma Requested(key: string)
    ensures Leads(SceneAt(key, 2), Request(5), SceneAt(key, 3))
  {
  }

  lemma LoopTaken(key: string)
    ensures Leads(SceneAt(key, 3), TakeLoop(1), SceneAt(key, 4))
  {
  }

  lemma FileTaken(key: string)
    ensures Leads(SceneAt(key, 4), TakeFile(1), SceneAt(key, 5))
  {
    assert {} + {Mark(key, 10)} == {Mark(key, 10)};
  }

  lemma Spawned(key: string)
    ensures Leads(SceneAt(key, 5), Spawn(1, 2, 20), SceneAt(key, 6))
  {
  }

  lemma Finished(key: string)
    ensures Leads(SceneAt(key, 6), Finish(5, true), SceneAt(key, 7))
  {
  }

  lemma FileFreed(key: string)
    ensures Leads(SceneAt(key, 7), FreeFile(1), SceneAt(key, 8))
  {
  }

  lemma LoopFreed(key: string)
    ensures Leads(SceneAt(key, 8), FreeLoop(1), SceneAt(key, 9))
  {
    assert {Mark(key, 10)} - {Mark(key, 10)} == {};
  }

  lemma Discarded(key: string)
    ensures Leads(SceneAt(key, 9), Discard(5), SceneAt(key, 10))
  {
  }

  lemma Ended(key: string)
    ensures Leads(SceneAt(key, 10), End(1), SceneAt(key, 11))
  {
  }

  lemma HolderRuns(key: string)
    ensures Run(Initial({key}), HolderSpawnsAndEnds(key)) == SceneAt(key, 11)
  {
    var st := Initial({key});
    assert [] + [Start(1, 10, 0)] == [Start(1, 10, 0)] && SceneAt(key, 0) == st == Run(st, []);
    hide Run, Leads, SceneAt;
    var steps: seq<Step> := [];
    Started(key);
    RunMore(st, steps, Start(1, 10, 0), SceneAt(key, 0), SceneAt(key, 1));
    steps := steps + [Start(1, 10, 0)];
    Opened(key);
    RunMore(st, steps, Open(5, 1, key), SceneAt(key, 1), SceneAt(key, 2));
    steps := steps + [Open(5, 1, key)];
    Requested(key);
    RunMore(st, steps, Request(5), SceneAt(key, 2), SceneAt(key, 3));
    steps := steps + [Request(5)];
    LoopTaken(key);
    RunMore(st, steps, TakeLoop(1), SceneAt(key, 3), SceneAt(key, 4));
    steps := steps + [TakeLoop(1)];
    FileTaken(key);
    RunMore(st, steps, TakeFile(1), SceneAt(key, 4), SceneAt(key, 5));
    steps := steps + [TakeFile(1)];
    Spawned(key);
    RunMore(st, steps, Spawn(1, 2, 20), SceneAt(key, 5), SceneAt(key, 6));
    steps := steps + [Spawn(1, 2, 20)];
    Finished(key);
    RunMore(st, steps, Finish(5, true), SceneAt(key, 6), SceneAt(key, 7));
    steps := steps + [Finish(5, true)];
    FileFreed(key);
    RunMore(st, steps, FreeFile(1), SceneAt(key, 7), SceneAt(key, 8));
    steps := steps + [FreeFile(1)];
    LoopFreed(key);
    RunMore(st, steps, FreeLoop(1), SceneAt(key, 8), SceneAt(key, 9));
    steps := steps + [FreeLoop(1)];
    Discarded(key);
    RunMore(st, steps, Discard(5), SceneAt(key, 9), SceneAt(key, 10));
    steps := steps + [Discard(5)];
    Ended(key);
    RunMore(st, steps, End(1), SceneAt(key, 10), SceneAt(key, 11));
    steps := steps + [End(1)];
  }

  /** One task opens two units on one database; the first owns the lease, the second has written under it. */
  function NestedWrites(key: string): seq<Step> {
    [Start(1, 10, 0)] + [Open(5, 1, key)] + [Open(6, 1, key)] + [Request(5)] + [TakeLoop(1)] + [TakeFile(1)] + [Write(6)]
  }

  function NestedAt(key: string, i: nat): State {
    match i
    case 0 => Scene(key, map[1 := Holder(key, Running, false)], map[5 := Unit(1, key, false)], {}, false, false)
    case 1 => Scene(key, map[1 := Holder(key, Running, false)], map[5 := Unit(1, key, false), 6 := Unit(1, key, false)], {}, false, false)
    case 2 => Scene(key, map[1 := Holder(key, WaitingLoop(5), false)], map[5 := Unit(1, key, false), 6 := Unit(1, key, false)], {}, false, false)
    case 3 => Scene(key, map[1 := Holder(key, WaitingFile(5), false)], map[5 := Unit(1, key, false), 6 := Unit(1, key, false)], {}, true, false)
    case 4 => Scene(key, map[1 := Holder(key, Running, true)], map[5 := Unit(1, key, false), 6 := Unit(1, key, false)], {5}, true, true)
    case _ => Scene(key, map[1 := Holder(key, Running, true)], map[5 := Unit(1, key, false), 6 := Unit(1, key, true)], {5}, true, true)
  }

  lemma SecondOpened(key: string)
    ensures Leads(NestedAt(key, 0), Open(6, 1, key), NestedAt(key, 1))
  {
  }

  lemma OwnerRequested(key: string)
    ensures Leads(NestedAt(key, 1), Request(5), NestedAt(key, 2))
  {
  }

  lemma OwnerTookLoop(key: string)
    ensures Leads(NestedAt(key, 2), TakeLoop(1), NestedAt(key, 3))
  {
  }

  lemma OwnerTookFile(key: string)
    ensures Leads(NestedAt(key, 3), TakeFile(1), NestedAt(key, 4))
  {
    assert {} + {Mark(key, 10)} == {Mark(key, 10)};
  }

  lemma NestedWrote(key: string)
    ensures Leads(NestedAt(key, 4), Write(6), NestedAt(key, 5))
  {
  }

  lemma NestedRuns(key: string)
    ensures Run(Initial({key}), NestedWrites(key)) == NestedAt(key, 5)
  {
    var st := Initial({key});
    assert [] + [Start(1, 10, 0)] == [Start(1, 10, 0)] && SceneAt(key, 0) == st == Run(st, []) && SceneAt(key, 2) == NestedAt(key, 0);
    hide Run, Leads, SceneAt, NestedAt;
    var steps: seq<Step> := [];
    Started(key);
    RunMore(st, steps, Start(1, 10, 0), SceneAt(key, 0), SceneAt(key, 1));
    steps := steps + [Start(1, 10, 0)];
    Opened(key);
    RunMore(st, steps, Open(5, 1, key), SceneAt(key, 1), NestedAt(key, 0));
    steps := steps + [Open(5, 1, key)];
    SecondOpened(key);
    RunMore(st, steps, Open(6, 1, key), NestedAt(key, 0), NestedAt(key, 1));
    steps := steps + [Open(6, 1, key)];
    OwnerRequested(key);
    RunMore(st, steps, Request(5), NestedAt(key, 1), NestedAt(key, 2));
    steps := steps + [Request(5)];
    OwnerTookLoop(key);
    RunMore(st, steps, TakeLoop(1), NestedAt(key, 2), NestedAt(key, 3));
    steps := steps + [TakeLoop(1)];
    OwnerTookFile(key);
    RunMore(st, steps, TakeFile(1), NestedAt(key, 3), NestedAt(key, 4));
    steps := steps + [TakeFile(1)];
    NestedWrote(key);
    RunMore(st, steps, Write(6), NestedAt(key, 4), NestedAt(key, 5));
    steps := steps + [Write(6)];
  }

  /** When the owner of the lease finishes first, the nested unit's uncommitted writes are left outside the
      gate. */
  lemma OwnerFinishingFirstUncoversWrites(key: string)
    ensures var st := Run(Initial({key}), NestedWrites(key));
            && Inv(st) && GateInv(st)
            && Enabled(st, Finish(5, true))
            && !GateInv(Do(st, Finish(5, true)))
  {
    NestedRuns(key);
    RunInv(Initial({key}), NestedWrites(key));
    var st := NestedAt(key, 5);
    hide Run, Inv, GateInv;
    FinishKeepsGateIff(st, 5, true);
    assert st.units[6].dirty;
  }

  /** A task whose creator held the gate keeps the creator's marker after the creator is gone.  When
      `id(task)` is handed out again to a task it spawns, that task writes without the gate. */
  lemma StaleMarkerBypassesTheGate(key: string)
    ensures var st := Run(Initial({key}), HolderSpawnsAndEnds(key));
            && Enabled(st, Spawn(2, 3, 10))
            && Enabled(Do(st, Spawn(2, 3, 10)), Open(7, 3, key))
            && var ready := Do(Do(st, Spawn(2, 3, 10)), Open(7, 3, key));
            && Enabled(ready, Write(7))
            && !GateInv(Do(ready, Write(7))) && forall t, k :: !Holds(Do(ready, Write(7)), t, k)
  {
    HolderRuns(key);
    var st := SceneAt(key, 11);
    hide Run;
    var ready := Do(Do(st, Spawn(2, 3, 10)), Open(7, 3, key));
    assert Marked(ready, 3, key);
    assert Do(ready, Write(7)).units[7].dirty;
  }
}
