/** That the write gate is granted: a writer with nobody in its way is admitted, a gate that somebody waits for is
    free or in the hands of a task that can give it back, and giving it back admits a waiter. */
module WriteProgress {
  import opened Ordering
  import opened WriteGate

  lemma RunStep(st: State, steps: seq<Step>, step: Step)
    ensures Run(st, steps + [step]) ==
            if Enabled(Run(st, steps), step) && WellNested(Run(st, steps), step) then Do(Run(st, steps), step) else Run(st, steps)
  {
    assert (steps + [step])[..|steps|] == steps;
  }

  /** The last steps of a run, one by one. */
  ghost function After(st: State, steps: seq<Step>): State
    decreases |steps|
  {
    if steps == [] then st
    else After(if Enabled(st, steps[0]) && WellNested(st, steps[0]) then Do(st, steps[0]) else st, steps[1..])
  }

  lemma {:induction false} RunAfter(st: State, first: seq<Step>, rest: seq<Step>)
    ensures Run(st, first + rest) == After(Run(st, first), rest)
    decreases |rest|
  {
    if rest == [] {
      assert first + rest == first;
    } else {
      RunStep(st, first, rest[0]);
      RunAfter(st, first + [rest[0]], rest[1..]);
      assert first + rest == first + [rest[0]] + rest[1..];
    }
  }

  lemma Next(st: State, step: Step, rest: seq<Step>)
    requires Enabled(st, step) && WellNested(st, step)
    ensures After(st, [step] + rest) == After(Do(st, step), rest)
  {
    assert ([step] + rest)[1..] == rest;
  }

  lemma Skipped(st: State, step: Step, rest: seq<Step>)
    requires !Enabled(st, step)
    ensures After(st, [step] + rest) == After(st, rest)
  {
    assert ([step] + rest)[1..] == rest;
  }

  /** A task of the same loop, or for a database with a lock file any task, is between taking and giving back the
      gate. */
  ghost predicate SomebodyInside(st: State, u: int)
    requires RunningUnit(st, u)
  {
    var me, key := st.units[u].task, st.units[u].key;
    exists t | t in st.tasks && t != me :: InSection(st, t, key) && (key in st.files || st.tasks[t].loop == st.tasks[me].loop)
  }

  function AskAndTake(u: int, t: int): seq<Step> { [Request(u)] + ([TakeLoop(t)] + ([TakeFile(t)] + [])) }

  lemma ThreeSteps(u: int, t: int)
    ensures AskAndTake(u, t) == [Request(u), TakeLoop(t), TakeFile(t)]
  {
  }

  /** A running task whose unit asks for a gate nobody is in gets it: it may write after asking and taking the locks of
      its database, whether that has a lock file or not. */
  lemma FreeGateAdmits(files: set<string>, steps: seq<Step>, u: int)
    requires var st := Run(Initial(files), steps); RunningUnit(st, u) && !SomebodyInside(st, u)
    ensures var t := Run(Initial(files), steps).units[u].task;
            Enabled(Run(Initial(files), steps + [Request(u), TakeLoop(t), TakeFile(t)]), Write(u))
  {
    hide Run, Inv, GateInv, Enabled, WellNested, SomebodyInside, AskAndTake, GiveBackAndTake, GiveBackFileAndTake;
    var st := Run(Initial(files), steps);
    var t := st.units[u].task;
    RunInv(Initial(files), steps);
    RunAfter(Initial(files), steps, AskAndTake(u, t));
    ThreeSteps(u, t);
    if Granted(st, u) { GrantedAtOnce(st, u); } else { FreeLocks(st, u); Admitted(st, u); }
  }

  lemma GrantedAtOnce(st: State, u: int)
    requires RunningUnit(st, u) && Granted(st, u)
    ensures Enabled(After(st, AskAndTake(u, st.units[u].task)), Write(u))
  {
    var t := st.units[u].task;
    Next(st, Request(u), [TakeLoop(t)] + ([TakeFile(t)] + []));
    Skipped(st, TakeLoop(t), [TakeFile(t)] + []);
    Skipped(st, TakeFile(t), []);
  }

  lemma FreeLocks(st: State, u: int)
    requires Inv(st) && RunningUnit(st, u) && !SomebodyInside(st, u) && !Granted(st, u)
    ensures LockOf(st, st.units[u].task, st.units[u].key) !in st.loopLocks
    ensures st.units[u].key in st.files ==> st.units[u].key !in st.fileLocks
  {
    var t, key := st.units[u].task, st.units[u].key;
    assert !Owns(st, t, key) && !InSection(st, t, key);
    assert forall h | h in st.tasks && st.tasks[h].loop == st.tasks[t].loop :: !InSection(st, h, key);
    assert key in st.files ==> forall h | h in st.tasks && HoldsFile(st, h, key) :: InSection(st, h, key);
    hide InSection, HoldsFile;
  }

  lemma Admitted(st: State, u: int)
    requires RunningUnit(st, u) && !Granted(st, u)
    requires LockOf(st, st.units[u].task, st.units[u].key) !in st.loopLocks
    requires st.units[u].key in st.files ==> st.units[u].key !in st.fileLocks
    ensures Enabled(After(st, AskAndTake(u, st.units[u].task)), Write(u))
  {
    var t := st.units[u].task;
    Next(st, Request(u), [TakeLoop(t)] + ([TakeFile(t)] + []));
    WaiterIsAdmitted(Do(st, Request(u)), t);
  }

  /** The unit a task waits with; both locks of its database are free. */
  predicate FindsBothFree(st: State, t: int) {
    && PhaseKnown(st, t) && st.tasks[t].phase.WaitingLoop? && st.units[st.tasks[t].phase.unit].task == t
    && LockOf(st, t, st.units[st.tasks[t].phase.unit].key) !in st.loopLocks
    && (st.units[st.tasks[t].phase.unit].key in st.files ==> st.units[st.tasks[t].phase.unit].key !in st.fileLocks)
  }

  lemma WaiterIsAdmitted(st: State, t: int)
    requires FindsBothFree(st, t)
    ensures Enabled(After(st, [TakeLoop(t)] + ([TakeFile(t)] + [])), Write(st.tasks[t].phase.unit))
  {
    Next(st, TakeLoop(t), [TakeFile(t)] + []);
    FileWaiterIsAdmitted(Do(st, TakeLoop(t)), t);
  }

  lemma FileWaiterIsAdmitted(st: State, t: int)
    requires PhaseKnown(st, t) && st.tasks[t].phase.WaitingFile? && st.units[st.tasks[t].phase.unit].task == t
    requires st.units[st.tasks[t].phase.unit].key in st.files ==> st.units[st.tasks[t].phase.unit].key !in st.fileLocks
    ensures Enabled(After(st, [TakeFile(t)] + []), Write(st.tasks[t].phase.unit))
  {
    Next(st, TakeFile(t), []);
    assert st.tasks[t].phase.unit in Do(st, TakeFile(t)).leased;
  }

  // ----- nobody waits for nothing -----

  /** The task waits for the gate of this database. */
  predicate WaitsFor(st: State, t: int, key: string) {
    PhaseKnown(st, t) && (st.tasks[t].phase.WaitingLoop? || st.tasks[t].phase.WaitingFile?)
    && st.units[st.tasks[t].phase.unit].key == key
  }

  predicate CanTake(st: State, t: int, key: string) {
    WaitsFor(st, t, key) && (Enabled(st, TakeLoop(t)) || Enabled(st, TakeFile(t)))
  }

  /** The task waits for another database, or is giving it back. */
  ghost predicate BusyElsewhere(st: State, t: int, key: string) {
    t in st.tasks && exists other | other != key ::
      WaitsFor(st, t, other) || st.tasks[t].phase == FreeingFile(other) || st.tasks[t].phase == FreeingLoop(other)
  }

  /** The task can give the gate back: it is doing so, or it runs and may finish the unit that owns the lease, or it is
      busy with another database first. */
  ghost predicate CanGiveBack(st: State, t: int, key: string) {
    && t in st.tasks
    && (|| (st.tasks[t].phase == FreeingFile(key) && Enabled(st, FreeFile(t)))
        || (st.tasks[t].phase == FreeingLoop(key) && Enabled(st, FreeLoop(t)))
        || (exists u | u in st.leased && u in st.units && st.units[u].task == t && st.units[u].key == key ::
              Enabled(st, Finish(u, true)) || BusyElsewhere(st, t, key)))
  }

  /** In every reachable state in which a task waits for a database, a waiter of that database can take a lock right now,
      or a task owns the gate, or is giving it back, and can do so unless it is busy with another database first. */
  lemma WaitingHasAReason(files: set<string>, steps: seq<Step>, t: int, key: string)
    requires WaitsFor(Run(Initial(files), steps), t, key)
    ensures exists h :: CanTake(Run(Initial(files), steps), h, key) || CanGiveBack(Run(Initial(files), steps), h, key)
  {
    hide Run, Inv, GateInv, CanTake, CanGiveBack;
    RunInv(Initial(files), steps);
    var h := Reason(Run(Initial(files), steps), t, key);
  }

  lemma Reason(st: State, t: int, key: string) returns (h: int)
    requires Inv(st) && WaitsFor(st, t, key)
    ensures CanTake(st, h, key) || CanGiveBack(st, h, key)
  {
    if st.tasks[t].phase.WaitingFile? {
      assert WaitsForFile(st, t, key);
      h := FileReason(st, t, key);
    } else if CanTake(st, t, key) {
      h := t;
    } else {
      h := st.loopLocks[LockOf(st, t, key)];
      assert InSection(st, h, key);
      if WaitsForFile(st, h, key) { h := FileReason(st, h, key); } else { OwnerGivesBack(st, h, key); }
    }
  }

  lemma FileReason(st: State, t: int, key: string) returns (h: int)
    requires Inv(st) && t in st.tasks && WaitsForFile(st, t, key)
    ensures CanTake(st, h, key) || CanGiveBack(st, h, key)
  {
    assert WaitsFor(st, t, key);
    if key in st.files && key in st.fileLocks {
      h := st.fileLocks[key];
      assert HoldsFile(st, h, key);
      OwnerGivesBack(st, h, key);
    } else {
      h := t;
      assert Enabled(st, TakeFile(t));
      assert CanTake(st, t, key);
    }
  }

  lemma OwnerGivesBack(st: State, h: int, key: string)
    requires Inv(st) && h in st.tasks && Owns(st, h, key)
    ensures CanGiveBack(st, h, key)
  {
    if Holds(st, h, key) {
      var u :| u in st.leased && u in st.units && st.units[u].task == h && st.units[u].key == key;
      assert Marked(st, h, key);
      assert !WaitsFor(st, h, key) && !Freeing(st, h, key);
      if st.tasks[h].phase.Running? {
        assert RunningUnit(st, u);
      } else {
        var phase := st.tasks[h].phase;
        var other := if phase.FreeingFile? || phase.FreeingLoop? then phase.key else st.units[phase.unit].key;
        assert other != key;
      }
    }
  }

  // ----- giving the gate back -----

  lemma FileIsFree(st: State, v: int, commit: bool, rest: seq<Step>) returns (free: State)
    requires RunningUnit(st, v) && v in st.leased && WellNested(st, Finish(v, commit))
    ensures var h, key := st.units[v].task, st.units[v].key;
            && After(st, [Finish(v, commit)] + ([FreeFile(h)] + rest)) == After(free, rest)
            && free.tasks == st.tasks[h := st.tasks[h].(phase := FreeingLoop(key))] && free.files == st.files
            && free.units == st.units[v := st.units[v].(dirty := false)] && free.loopLocks == st.loopLocks
            && free.fileLocks == if key in st.files then st.fileLocks - {key} else st.fileLocks
  {
    var h := st.units[v].task;
    Next(st, Finish(v, commit), [FreeFile(h)] + rest);
    Next(Do(st, Finish(v, commit)), FreeFile(h), rest);
    free := Do(Do(st, Finish(v, commit)), FreeFile(h));
  }

  lemma LoopIsFree(st: State, h: int, key: string, rest: seq<Step>) returns (free: State)
    requires h in st.tasks && st.tasks[h].phase == FreeingLoop(key)
    ensures && After(st, [FreeLoop(h)] + rest) == After(free, rest)
            && free.units == st.units && free.files == st.files && free.fileLocks == st.fileLocks
            && free.loopLocks == st.loopLocks - {LockOf(st, h, key)}
            && free.tasks.Keys == st.tasks.Keys && forall x | x in st.tasks && x != h :: free.tasks[x] == st.tasks[x]
  {
    free := Do(st, FreeLoop(h));
    Next(st, FreeLoop(h), rest);
  }

  function GiveBackAndTake(v: int, commit: bool, h: int, t: int): seq<Step> {
    [Finish(v, commit)] + ([FreeFile(h)] + ([FreeLoop(h)] + ([TakeLoop(t)] + ([TakeFile(t)] + []))))
  }

  lemma FiveSteps(v: int, commit: bool, h: int, t: int)
    ensures GiveBackAndTake(v, commit, h, t) == [Finish(v, commit), FreeFile(h), FreeLoop(h), TakeLoop(t), TakeFile(t)]
  {
  }

  /** When a running owner finishes and gives back both locks, a waiter of its loop is admitted. */
  lemma GivingBackAdmits(files: set<string>, steps: seq<Step>, v: int, commit: bool, t: int)
    requires var st := Run(Initial(files), steps);
             && RunningUnit(st, v) && v in st.leased && WellNested(st, Finish(v, commit))
             && WaitsFor(st, t, st.units[v].key) && st.tasks[t].phase.WaitingLoop?
             && st.tasks[t].loop == st.tasks[st.units[v].task].loop
    ensures var st := Run(Initial(files), steps);
            var h := st.units[v].task;
            Enabled(Run(Initial(files), steps + [Finish(v, commit), FreeFile(h), FreeLoop(h), TakeLoop(t), TakeFile(t)]),
                    Write(st.tasks[t].phase.unit))
  {
    hide Run, Inv, GateInv, Enabled, WellNested, SomebodyInside, AskAndTake, GiveBackAndTake, GiveBackFileAndTake;
    var st := Run(Initial(files), steps);
    var h := st.units[v].task;
    RunInv(Initial(files), steps);
    RunAfter(Initial(files), steps, GiveBackAndTake(v, commit, h, t));
    FiveSteps(v, commit, h, t);
    GivenBackAdmits(st, v, commit, t);
  }

  lemma GivenBackAdmits(st: State, v: int, commit: bool, t: int)
    requires Inv(st) && RunningUnit(st, v) && v in st.leased && WellNested(st, Finish(v, commit))
    requires WaitsFor(st, t, st.units[v].key) && st.tasks[t].phase.WaitingLoop? && st.tasks[t].loop == st.tasks[st.units[v].task].loop
    ensures Enabled(After(st, GiveBackAndTake(v, commit, st.units[v].task, t)), Write(st.tasks[t].phase.unit))
  {
    hide After, WellNested, Inv, Do, FindsBothFree;
    var h, key := st.units[v].task, st.units[v].key;
    var rest := [TakeLoop(t)] + ([TakeFile(t)] + []);
    WaiterOwnsUnit(st, t);
    var one := FileIsFree(st, v, commit, [FreeLoop(h)] + rest);
    var free := LoopIsFree(one, h, key, rest);
    assert t != h && one.tasks[t] == st.tasks[t];
    StillWaits(st, free, v, t);
    WaiterIsAdmitted(free, t);
  }

  lemma StillWaits(st: State, free: State, v: int, t: int)
    requires RunningUnit(st, v) && WaitsFor(st, t, st.units[v].key) && st.tasks[t].phase.WaitingLoop?
    requires st.units[st.tasks[t].phase.unit].task == t && st.tasks[t].loop == st.tasks[st.units[v].task].loop
    requires t in free.tasks && free.tasks[t] == st.tasks[t] && free.files == st.files
    requires free.units == st.units[v := st.units[v].(dirty := false)]
    requires free.loopLocks == st.loopLocks - {LockOf(st, st.units[v].task, st.units[v].key)}
    requires free.fileLocks == if st.units[v].key in st.files then st.fileLocks - {st.units[v].key} else st.fileLocks
    ensures FindsBothFree(free, t)
  {
  }

  lemma WaiterOwnsUnit(st: State, t: int)
    requires Inv(st) && PhaseKnown(st, t) && (st.tasks[t].phase.WaitingLoop? || st.tasks[t].phase.WaitingFile?)
    ensures st.units[st.tasks[t].phase.unit].task == t
  {
  }

  function GiveBackFileAndTake(v: int, commit: bool, h: int, t: int): seq<Step> {
    [Finish(v, commit)] + ([FreeFile(h)] + ([TakeFile(t)] + []))
  }

  lemma FileSteps(v: int, commit: bool, h: int, t: int)
    ensures GiveBackFileAndTake(v, commit, h, t) == [Finish(v, commit), FreeFile(h), TakeFile(t)]
  {
  }

  /** As soon as it gave back the lock file, a waiter of another loop is admitted. */
  lemma GivingBackAdmitsOtherLoops(files: set<string>, steps: seq<Step>, v: int, commit: bool, t: int)
    requires var st := Run(Initial(files), steps);
             && RunningUnit(st, v) && v in st.leased && WellNested(st, Finish(v, commit))
             && WaitsFor(st, t, st.units[v].key) && st.tasks[t].phase.WaitingFile?
    ensures var st := Run(Initial(files), steps);
            var h := st.units[v].task;
            Enabled(Run(Initial(files), steps + [Finish(v, commit), FreeFile(h), TakeFile(t)]), Write(st.tasks[t].phase.unit))
  {
    hide Run, Inv, GateInv, Enabled, WellNested, SomebodyInside, AskAndTake, GiveBackAndTake, GiveBackFileAndTake;
    var st := Run(Initial(files), steps);
    var h := st.units[v].task;
    RunInv(Initial(files), steps);
    RunAfter(Initial(files), steps, GiveBackFileAndTake(v, commit, h, t));
    FileSteps(v, commit, h, t);
    GivenBackAdmitsFile(st, v, commit, t);
  }

  lemma GivenBackAdmitsFile(st: State, v: int, commit: bool, t: int)
    requires Inv(st) && RunningUnit(st, v) && v in st.leased && WellNested(st, Finish(v, commit))
    requires WaitsFor(st, t, st.units[v].key) && st.tasks[t].phase.WaitingFile?
    ensures Enabled(After(st, GiveBackFileAndTake(v, commit, st.units[v].task, t)), Write(st.tasks[t].phase.unit))
  {
    hide After, WellNested, Inv, Do;
    WaiterOwnsUnit(st, t);
    var free := FileIsFree(st, v, commit, [TakeFile(t)] + []);
    FileWaiterIsAdmitted(free, t);
  }

  /** A task that fails to get the lock file gives the loop lock back: the next waiter of its loop can take it. */
  lemma FailingFreesTheLoop(files: set<string>, steps: seq<Step>, t: int, next: int, key: string)
    requires var st := Run(Initial(files), steps);
             && WaitsFor(st, t, key) && st.tasks[t].phase.WaitingFile? && WaitsFor(st, next, key) && st.tasks[next].phase.WaitingLoop?
             && st.tasks[next].loop == st.tasks[t].loop
    ensures var after := Run(Initial(files), steps + [FailFile(t)]);
            t in after.tasks && after.tasks[t].phase == Running && Enabled(after, TakeLoop(next))
  {
    hide Run, Inv, GateInv, Enabled, Do;
    RunInv(Initial(files), steps);
    RunStep(Initial(files), steps, FailFile(t));
    LoopIsLeft(Run(Initial(files), steps), t, next, key);
  }

  lemma LoopIsLeft(st: State, t: int, next: int, key: string)
    requires WaitsFor(st, t, key) && st.tasks[t].phase.WaitingFile? && WaitsFor(st, next, key) && st.tasks[next].phase.WaitingLoop?
    requires st.tasks[next].loop == st.tasks[t].loop
    ensures Enabled(st, FailFile(t)) && WellNested(st, FailFile(t))
    ensures var after := Do(st, FailFile(t)); t in after.tasks && after.tasks[t].phase == Running && Enabled(after, TakeLoop(next))
  {
  }

  // ----- two databases -----

  /** Two tasks of one loop, each waiting with a unit for the database whose gate the other one owns. */
  ghost predicate Crossed(st: State, u: int, v: int) {
    && u in st.units && v in st.units && st.units[u].task != st.units[v].task
    && st.units[u].task in st.tasks && st.units[v].task in st.tasks
    && st.tasks[st.units[u].task].loop == st.tasks[st.units[v].task].loop
    && st.tasks[st.units[u].task].phase == WaitingLoop(u) && st.tasks[st.units[v].task].phase == WaitingLoop(v)
    && Holds(st, st.units[u].task, st.units[v].key) && Holds(st, st.units[v].task, st.units[u].key)
  }

  lemma CrossedStep(st: State, u: int, v: int, step: Step)
    requires Inv(st) && Crossed(st, u, v) && Enabled(st, step) && WellNested(st, step)
    ensures Crossed(Do(st, step), u, v) && Do(st, step).units[u].task == st.units[u].task && Do(st, step).units[v].task == st.units[v].task
  {
    var a, b := st.units[u].task, st.units[v].task;
    CrossedLocks(st, u, v);
    StillHolds(st, a, st.units[v].key, step);
    StillHolds(st, b, st.units[u].key, step);
    hide Inv, Holds;
  }

  lemma CrossedLocks(st: State, u: int, v: int)
    requires Inv(st) && Crossed(st, u, v)
    ensures !Enabled(st, TakeLoop(st.units[u].task)) && !Enabled(st, TakeLoop(st.units[v].task))
  {
    var a, b := st.units[u].task, st.units[v].task;
    assert InSection(st, a, st.units[v].key) && InSection(st, b, st.units[u].key);
    assert LockOf(st, a, st.units[u].key) == LockOf(st, b, st.units[u].key);
    assert LockOf(st, b, st.units[v].key) == LockOf(st, a, st.units[v].key);
  }

  /** A lease of a task that waits stays where it is. */
  lemma StillHolds(st: State, t: int, key: string, step: Step)
    requires Enabled(st, step) && t in st.tasks && st.tasks[t].phase.WaitingLoop? && Holds(st, t, key)
    ensures Holds(Do(st, step), t, key)
  {
    var w :| w in st.leased && w in st.units && st.units[w].task == t && st.units[w].key == key;
    assert w in Do(st, step).leased && w in Do(st, step).units;
  }

  /** Locks are taken in the order asked for, and no order is prescribed between databases: two tasks of one loop that
      own the gate of one database each and then ask for the other's wait for ever, whatever anybody else does. */
  lemma {:induction false} CrossedOwnersWaitForEver(files: set<string>, steps: seq<Step>, u: int, v: int, more: seq<Step>)
    requires var st := Run(Initial(files), steps);
             && RunningUnit(st, u) && RunningUnit(st, v) && st.units[u].task != st.units[v].task
             && st.tasks[st.units[u].task].loop == st.tasks[st.units[v].task].loop
             && Holds(st, st.units[u].task, st.units[v].key) && Holds(st, st.units[v].task, st.units[u].key)
    ensures Crossed(Run(Initial(files), steps + [Request(u)] + [Request(v)] + more), u, v)
    decreases |more|
  {
    hide Run, Inv, GateInv, Enabled, WellNested, Crossed, Do;
    RunInv(Initial(files), steps + [Request(u)] + [Request(v)] + more);
    if more == [] {
      RunInv(Initial(files), steps);
      RunStep(Initial(files), steps, Request(u));
      RunStep(Initial(files), steps + [Request(u)], Request(v));
      assert steps + [Request(u)] + [Request(v)] + more == steps + [Request(u)] + [Request(v)];
      BothAsk(Run(Initial(files), steps), u, v);
    } else {
      var front, step := more[..|more| - 1], more[|more| - 1];
      CrossedOwnersWaitForEver(files, steps, u, v, front);
      var before := steps + [Request(u)] + [Request(v)] + front;
      assert steps + [Request(u)] + [Request(v)] + more == before + [step];
      RunInv(Initial(files), before);
      RunStep(Initial(files), before, step);
      if Enabled(Run(Initial(files), before), step) && WellNested(Run(Initial(files), before), step) {
        CrossedStep(Run(Initial(files), before), u, v, step);
      }
    }
  }

  lemma BothAsk(st: State, u: int, v: int)
    requires Inv(st) && RunningUnit(st, u) && RunningUnit(st, v) && st.units[u].task != st.units[v].task
    requires st.tasks[st.units[u].task].loop == st.tasks[st.units[v].task].loop
    requires Holds(st, st.units[u].task, st.units[v].key) && Holds(st, st.units[v].task, st.units[u].key)
    ensures Enabled(st, Request(u)) && WellNested(st, Request(u))
    ensures var asked := Do(st, Request(u));
            Enabled(asked, Request(v)) && WellNested(asked, Request(v)) && Crossed(Do(asked, Request(v)), u, v)
  {
    var a, b := st.units[u].task, st.units[v].task;
    NotTheOwner(st, a, b, st.units[u].key);
    NotTheOwner(st, b, a, st.units[v].key);
    var asked := Do(st, Request(u));
    SameHolds(st, asked);
    SameHolds(asked, Do(asked, Request(v)));
    hide Inv, Holds;
  }

  lemma NotTheOwner(st: State, a: int, b: int, key: string)
    requires Inv(st) && a in st.tasks && b in st.tasks && a != b && st.tasks[a].loop == st.tasks[b].loop && Holds(st, b, key)
    ensures !Marked(st, a, key) && !Holds(st, a, key)
  {
    assert InSection(st, b, key);
    assert LockOf(st, a, key) == LockOf(st, b, key);
    assert Owns(st, a, key) ==> InSection(st, a, key);
  }

  /** Two tasks each open a unit on a database of their own, take its gate, and open a unit on the other's. */
  function CrossingSteps(a: string, b: string): seq<Step> {
    [Start(1, 10, 0), Start(2, 20, 0), Open(5, 1, a), Open(6, 2, b), Request(5), TakeLoop(1), TakeFile(1),
     Request(6), TakeLoop(2), TakeFile(2), Open(7, 1, b), Open(8, 2, a)]
  }

  function First(a: string, phase: Phase, marked: bool): Task { Task(10, 0, if marked then {Mark(a, 10)} else {}, phase) }

  function Second(b: string, phase: Phase, marked: bool): Task { Task(20, 0, if marked then {Mark(b, 20)} else {}, phase) }

  /** The two tasks with their own units, the leases, and how many of the two loop locks are taken. */
  function Meeting(a: string, b: string, first: Task, second: Task, leased: set<int>, locks: nat): State {
    State(map[1 := first, 2 := second], map[5 := Unit(1, a, false), 6 := Unit(2, b, false)], leased,
          if locks == 0 then map[] else if locks == 1 then map[LockKey(0, a) := 1] else map[LockKey(0, a) := 1, LockKey(0, b) := 2],
          {}, map[])
  }

  function CrossingAt(a: string, b: string, i: nat): State {
    var one, two := First(a, Running, false), Second(b, Running, false);
    var met := Meeting(a, b, First(a, Running, true), Second(b, Running, true), {5, 6}, 2);
    match i
    case 0 => Initial({})
    case 1 => Initial({}).(tasks := map[1 := one])
    case 2 => Initial({}).(tasks := map[1 := one, 2 := two])
    case 3 => Initial({}).(tasks := map[1 := one, 2 := two], units := map[5 := Unit(1, a, false)])
    case 4 => Meeting(a, b, one, two, {}, 0)
    case 5 => Meeting(a, b, First(a, WaitingLoop(5), false), two, {}, 0)
    case 6 => Meeting(a, b, First(a, WaitingFile(5), false), two, {}, 1)
    case 7 => Meeting(a, b, First(a, Running, true), two, {5}, 1)
    case 8 => Meeting(a, b, First(a, Running, true), Second(b, WaitingLoop(6), false), {5}, 1)
    case 9 => Meeting(a, b, First(a, Running, true), Second(b, WaitingFile(6), false), {5}, 2)
    case 10 => met
    case 11 => met.(units := met.units[7 := Unit(1, b, false)])
    case _ => met.(units := met.units[7 := Unit(1, b, false)][8 := Unit(2, a, false)])
  }

  lemma FirstStarts(a: string, b: string)
    requires a != b
    ensures Leads(CrossingAt(a, b, 0), Start(1, 10, 0), CrossingAt(a, b, 1))
  {
  }

  lemma SecondStarts(a: string, b: string)
    requires a != b
    ensures Leads(CrossingAt(a, b, 1), Start(2, 20, 0), CrossingAt(a, b, 2))
  {
  }

  lemma FirstOpens(a: string, b: string)
    requires a != b
    ensures Leads(CrossingAt(a, b, 2), Open(5, 1, a), CrossingAt(a, b, 3))
  {
  }

  lemma SecondOpens(a: string, b: string)
    requires a != b
    ensures Leads(CrossingAt(a, b, 3), Open(6, 2, b), CrossingAt(a, b, 4))
  {
  }

  lemma FirstAsks(a: string, b: string)
    requires a != b
    ensures Leads(CrossingAt(a, b, 4), Request(5), CrossingAt(a, b, 5))
  {
  }

  lemma FirstTakesLoop(a: string, b: string)
    requires a != b
    ensures Leads(CrossingAt(a, b, 5), TakeLoop(1), CrossingAt(a, b, 6))
  {
  }

  lemma FirstTakesGate(a: string, b: string)
    requires a != b
    ensures Leads(CrossingAt(a, b, 6), TakeFile(1), CrossingAt(a, b, 7))
  {
    assert {} + {Mark(a, 10)} == {Mark(a, 10)} && {} + {5} == {5};
  }

  lemma SecondAsks(a: string, b: string)
    requires a != b
    ensures Leads(CrossingAt(a, b, 7), Request(6), CrossingAt(a, b, 8))
  {
  }

  lemma SecondTakesLoop(a: string, b: string)
    requires a != b
    ensures Leads(CrossingAt(a, b, 8), TakeLoop(2), CrossingAt(a, b, 9))
  {
  }

  lemma SecondTakesGate(a: string, b: string)
    requires a != b
    ensures Leads(CrossingAt(a, b, 9), TakeFile(2), CrossingAt(a, b, 10))
  {
    assert {} + {Mark(b, 20)} == {Mark(b, 20)} && {5} + {6} == {5, 6};
  }

  lemma FirstOpensOther(a: string, b: string)
    requires a != b
    ensures Leads(CrossingAt(a, b, 10), Open(7, 1, b), CrossingAt(a, b, 11))
  {
  }

  lemma SecondOpensOther(a: string, b: string)
    requires a != b
    ensures Leads(CrossingAt(a, b, 11), Open(8, 2, a), CrossingAt(a, b, 12))
  {
  }

  lemma {:induction false} Crossing(a: string, b: string, n: nat)
    requires a != b && n <= 12
    ensures Run(Initial({}), CrossingSteps(a, b)[..n]) == CrossingAt(a, b, n)
    decreases n
  {
    if n == 0 {
      assert CrossingSteps(a, b)[..0] == [];
    } else {
      Crossing(a, b, n - 1);
      CrossingStep(a, b, n - 1);
      assert CrossingSteps(a, b)[..n] == CrossingSteps(a, b)[..n - 1] + [CrossingSteps(a, b)[n - 1]];
      hide CrossingAt, CrossingSteps, Run, Leads;
      RunMore(Initial({}), CrossingSteps(a, b)[..n - 1], CrossingSteps(a, b)[n - 1], CrossingAt(a, b, n - 1), CrossingAt(a, b, n));
    }
  }

  lemma CrossingStep(a: string, b: string, i: nat)
    requires a != b && i < 12
    ensures Leads(CrossingAt(a, b, i), CrossingSteps(a, b)[i], CrossingAt(a, b, i + 1))
  {
    hide Leads, CrossingAt;
    match i
    case 0 => FirstStarts(a, b);
    case 1 => SecondStarts(a, b);
    case 2 => FirstOpens(a, b);
    case 3 => SecondOpens(a, b);
    case 4 => FirstAsks(a, b);
    case 5 => FirstTakesLoop(a, b);
    case 6 => FirstTakesGate(a, b);
    case 7 => SecondAsks(a, b);
    case 8 => SecondTakesLoop(a, b);
    case 9 => SecondTakesGate(a, b);
    case 10 => FirstOpensOther(a, b);
    case _ => SecondOpensOther(a, b);
  }

  lemma BothOwnOne(a: string, b: string)
    ensures var st := CrossingAt(a, b, 12);
            && RunningUnit(st, 7) && RunningUnit(st, 8) && st.units[7] == Unit(1, b, false) && st.units[8] == Unit(2, a, false)
            && st.tasks[1].loop == st.tasks[2].loop && Holds(st, 1, a) && Holds(st, 2, b)
  {
    var st := CrossingAt(a, b, 12);
    assert 5 in st.leased && st.units[5] == Unit(1, a, false);
    assert 6 in st.leased && st.units[6] == Unit(2, b, false);
  }

  /** So it happens: a run from the start after which the two tasks wait for each other for ever. */
  lemma TwoDatabasesDeadlock(a: string, b: string, more: seq<Step>)
    requires a != b
    ensures Crossed(Run(Initial({}), CrossingSteps(a, b) + [Request(7)] + [Request(8)] + more), 7, 8)
  {
    assert CrossingSteps(a, b)[..12] == CrossingSteps(a, b);
    hide Run, CrossingSteps, Crossed, CrossingAt;
    Crossing(a, b, 12);
    BothOwnOne(a, b);
    CrossedOwnersWaitForEver({}, CrossingSteps(a, b), 7, 8, more);
  }
}
