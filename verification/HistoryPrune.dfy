/** Pruning old runtime history in bounded batches. */
module HistoryPrune {
  import opened Ordering

  datatype Event = Event(createdAt: int, run: Option<int>)

  /** Tasks with their last run, task events, task runs with their finishing time, and runlog events with
      their creation time. */
  datatype History = History(tasks: map<int, Option<int>>, events: map<int, Event>, runs: map<int, Option<int>>, logs: map<int, int>)

  /** `RuntimeHistoryPruneResult` */
  datatype Counts = Counts(events: int, runs: int, logs: int)

  /** An absent cutoff leaves its table alone. */
  datatype Cutoffs = Cutoffs(events: Option<int>, runs: Option<int>, logs: Option<int>)

  function OldEvents(events: map<int, Event>, before: Option<int>): set<int> {
    set id | id in events && before.Some? && events[id].createdAt < before.value
  }

  predicate Referenced(h: History, run: int) {
    || (exists id | id in h.tasks :: h.tasks[id] == Some(run))
    || (exists id | id in h.events :: h.events[id].run == Some(run))
  }

  function OldRuns(h: History, c: Cutoffs): set<int> {
    set id | id in h.runs && c.runs.Some? && h.runs[id].Some? && h.runs[id].value < c.runs.value && !Referenced(h, id)
  }

  function OldLogs(logs: map<int, int>, before: Option<int>): set<int> {
    set id | id in logs && before.Some? && logs[id] < before.value
  }

  function EventKey(events: map<int, Event>): int -> seq<int> {
    (id: int) => if id in events then [events[id].createdAt, id] else [0, id]
  }

  function RunKey(runs: map<int, Option<int>>): int -> seq<int> {
    (id: int) => if id in runs && runs[id].Some? then [runs[id].value, id] else [0, id]
  }

  function LogKey(logs: map<int, int>): int -> seq<int> {
    (id: int) => if id in logs then [logs[id], id] else [0, id]
  }

  lemma KeysInjective(h: History, s: set<int>)
    ensures Injective(s, EventKey(h.events)) && Injective(s, RunKey(h.runs)) && Injective(s, LogKey(h.logs))
  {
    forall x, y | x in s && y in s && EventKey(h.events)(x) == EventKey(h.events)(y) ensures x == y {
      assert EventKey(h.events)(x)[1] == EventKey(h.events)(y)[1];
    }
    forall x, y | x in s && y in s && RunKey(h.runs)(x) == RunKey(h.runs)(y) ensures x == y {
      assert RunKey(h.runs)(x)[1] == RunKey(h.runs)(y)[1];
    }
    forall x, y | x in s && y in s && LogKey(h.logs)(x) == LogKey(h.logs)(y) ensures x == y {
      assert LogKey(h.logs)(x)[1] == LogKey(h.logs)(y)[1];
    }
  }

  // ----- one round -----

  ghost function EventBatch(h: History, c: Cutoffs, n: nat): set<int> {
    KeysInjective(h, OldEvents(h.events, c.events));
    Leading(OldEvents(h.events, c.events), EventKey(h.events), n)
  }

  ghost function RunBatch(h: History, c: Cutoffs, n: nat): set<int> {
    KeysInjective(h, OldRuns(h, c));
    Leading(OldRuns(h, c), RunKey(h.runs), n)
  }

  ghost function LogBatch(h: History, c: Cutoffs, n: nat): set<int> {
    KeysInjective(h, OldLogs(h.logs, c.logs));
    Leading(OldLogs(h.logs, c.logs), LogKey(h.logs), n)
  }

  /** Runs are chosen after the event batch is gone, so an event that was just deleted protects none. */
  ghost function AfterRound(h: History, c: Cutoffs, n: nat): History {
    var h1 := h.(events := h.events - EventBatch(h, c, n));
    h1.(runs := h1.runs - RunBatch(h1, c, n), logs := h1.logs - LogBatch(h1, c, n))
  }

  /** All old events gone, then all old unreferenced finished runs. */
  function Pruned(h: History, c: Cutoffs): History {
    var h1 := h.(events := h.events - OldEvents(h.events, c.events));
    h1.(runs := h1.runs - OldRuns(h1, c), logs := h1.logs - OldLogs(h1.logs, c.logs))
  }

  ghost function Rounds(h: History, c: Cutoffs, n: nat, k: nat): History {
    if k == 0 then h else AfterRound(Rounds(h, c, n, k - 1), c, n)
  }

  function Size(h: History): nat { |h.events| + |h.runs| + |h.logs| }

  lemma OldOnesExist(h: History, c: Cutoffs)
    ensures OldEvents(h.events, c.events) <= h.events.Keys && OldRuns(h, c) <= h.runs.Keys && OldLogs(h.logs, c.logs) <= h.logs.Keys
  {
  }

  // ----- rounds converge -----

  lemma FewerEventsFewerReferences(h: History, events: map<int, Event>, c: Cutoffs)
    requires events.Keys <= h.events.Keys && forall id | id in events :: events[id] == h.events[id]
    ensures OldRuns(h, c) <= OldRuns(h.(events := events), c)
  {
    forall run | Referenced(h.(events := events), run) ensures Referenced(h, run) {
      if id :| id in h.tasks && h.tasks[id] == Some(run) {
      } else {
        var id :| id in events && events[id].run == Some(run);
        assert h.events[id].run == Some(run);
      }
    }
  }

  /** A round never deletes what the goal keeps, and does not move the goal. */
  lemma RoundKeepsGoal(h: History, c: Cutoffs, n: nat)
    ensures Pruned(AfterRound(h, c, n), c) == Pruned(h, c)
  {
    var h1 := h.(events := h.events - EventBatch(h, c, n));
    var h2 := AfterRound(h, c, n);
    var goal := h.events - OldEvents(h.events, c.events);
    GoalEvents(h.events, EventBatch(h, c, n), c.events);
    GoalLogs(h.logs, LogBatch(h1, c, n), c.logs);
    FewerEventsFewerReferences(h1, goal, c);
    GoalRuns(h1, h1.(events := goal), RunBatch(h1, c, n), c);
    SameRuns(h2.(events := goal), h1.(events := goal, runs := h2.runs), c);
    SameRuns(h.(events := goal), h1.(events := goal), c);
  }

  lemma SameRuns(a: History, b: History, c: Cutoffs)
    requires a.tasks == b.tasks && a.events == b.events && a.runs == b.runs
    ensures OldRuns(a, c) == OldRuns(b, c)
  {
    forall run ensures Referenced(a, run) <==> Referenced(b, run) {}
  }

  lemma GoalEvents(events: map<int, Event>, batch: set<int>, before: Option<int>)
    requires batch <= OldEvents(events, before)
    ensures (events - batch) - OldEvents(events - batch, before) == events - OldEvents(events, before)
  {
  }

  lemma GoalLogs(logs: map<int, int>, batch: set<int>, before: Option<int>)
    requires batch <= OldLogs(logs, before)
    ensures (logs - batch) - OldLogs(logs - batch, before) == logs - OldLogs(logs, before)
  {
  }

  lemma GoalRuns(h: History, goal: History, batch: set<int>, c: Cutoffs)
    requires goal.runs == h.runs && batch <= OldRuns(goal, c)
    ensures (h.runs - batch) - OldRuns(goal.(runs := h.runs - batch), c) == h.runs - OldRuns(goal, c)
  {
    var less := goal.(runs := h.runs - batch);
    forall id | id in less.runs ensures id in OldRuns(less, c) <==> id in OldRuns(goal, c) {
      assert Referenced(less, id) <==> Referenced(goal, id);
    }
  }

  lemma RemovalShrinks<V>(m: map<int, V>, s: set<int>)
    requires s <= m.Keys
    ensures |m - s| == |m| - |s| && (s == {} ==> m - s == m)
  {
    assert (m - s).Keys == m.Keys - s;
  }

  /** A round either makes progress or has nothing left to do. */
  lemma RoundProgress(h: History, c: Cutoffs, n: nat)
    requires n >= 1
    ensures Size(AfterRound(h, c, n)) < Size(h) || AfterRound(h, c, n) == h == Pruned(h, c)
  {
    var h1 := h.(events := h.events - EventBatch(h, c, n));
    EmptyBatch(OldEvents(h.events, c.events), EventKey(h.events), n, EventBatch(h, c, n));
    EmptyBatch(OldRuns(h1, c), RunKey(h1.runs), n, RunBatch(h1, c, n));
    EmptyBatch(OldLogs(h1.logs, c.logs), LogKey(h1.logs), n, LogBatch(h1, c, n));
    hide IsFirst;
    OldOnesExist(h, c);
    OldOnesExist(h1, c);
    hide OldEvents, OldRuns, OldLogs, EventBatch, RunBatch, LogBatch, Size;
    Shrinks(h, EventBatch(h, c, n), RunBatch(h1, c, n), LogBatch(h1, c, n));
  }

  function Less(h: History, events: set<int>, runs: set<int>, logs: set<int>): History {
    History(h.tasks, h.events - events, h.runs - runs, h.logs - logs)
  }

  lemma IsLess(h: History, after: History, events: set<int>, runs: set<int>, logs: set<int>)
    requires after.tasks == h.tasks && after.events == h.events - events && after.runs == h.runs - runs && after.logs == h.logs - logs
    ensures after == Less(h, events, runs, logs)
  {
  }

  lemma Shrinks(h: History, events: set<int>, runs: set<int>, logs: set<int>)
    requires events <= h.events.Keys && runs <= h.runs.Keys && logs <= h.logs.Keys
    ensures Size(Less(h, events, runs, logs)) + |events| + |runs| + |logs| == Size(h)
    ensures events == {} && runs == {} && logs == {} ==> Less(h, events, runs, logs) == h
    ensures events != {} || runs != {} || logs != {} ==> Size(Less(h, events, runs, logs)) < Size(h)
  {
    RemovalShrinks(h.events, events);
    RemovalShrinks(h.runs, runs);
    RemovalShrinks(h.logs, logs);
  }

  /** What the three selections of one round are, one after the other. */
  lemma RoundFacts(h: History, c: Cutoffs, n: nat)
    ensures var h1 := h.(events := h.events - EventBatch(h, c, n));
            && Injective(OldEvents(h.events, c.events), EventKey(h.events))
            && Injective(OldRuns(h1, c), RunKey(h.runs)) && Injective(OldLogs(h.logs, c.logs), LogKey(h.logs))
            && EventBatch(h, c, n) == Leading(OldEvents(h.events, c.events), EventKey(h.events), n)
            && RunBatch(h1, c, n) == Leading(OldRuns(h1, c), RunKey(h.runs), n)
            && LogBatch(h1, c, n) == Leading(OldLogs(h.logs, c.logs), LogKey(h.logs), n)
            && |EventBatch(h, c, n)| == Min(n, |OldEvents(h.events, c.events)|)
            && |LogBatch(h1, c, n)| == Min(n, |OldLogs(h.logs, c.logs)|)
            && Size(AfterRound(h, c, n)) + |EventBatch(h, c, n)| + |RunBatch(h1, c, n)| + |LogBatch(h1, c, n)| == Size(h)
  {
    var h1 := h.(events := h.events - EventBatch(h, c, n));
    KeysInjective(h, OldEvents(h.events, c.events));
    KeysInjective(h1, OldRuns(h1, c));
    KeysInjective(h1, OldLogs(h.logs, c.logs));
    OldOnesExist(h, c);
    OldOnesExist(h1, c);
    hide OldEvents, OldRuns, OldLogs, Size, EventKey, RunKey, LogKey, Injective;
    Shrinks(h, EventBatch(h, c, n), RunBatch(h1, c, n), LogBatch(h1, c, n));
  }

  lemma RoundCounts(h: History, c: Cutoffs, n: nat)
    ensures var h1 := h.(events := h.events - EventBatch(h, c, n));
            && AfterRound(h, c, n) == Less(h, EventBatch(h, c, n), RunBatch(h1, c, n), LogBatch(h1, c, n))
            && |EventBatch(h, c, n)| == |h.events| - |AfterRound(h, c, n).events|
            && |RunBatch(h1, c, n)| == |h.runs| - |AfterRound(h, c, n).runs|
            && |LogBatch(h1, c, n)| == |h.logs| - |AfterRound(h, c, n).logs|
  {
    var h1 := h.(events := h.events - EventBatch(h, c, n));
    OldOnesExist(h, c);
    OldOnesExist(h1, c);
    hide OldEvents, OldRuns, OldLogs;
    RemovalShrinks(h.events, EventBatch(h, c, n));
    RemovalShrinks(h.runs, RunBatch(h1, c, n));
    RemovalShrinks(h.logs, LogBatch(h1, c, n));
  }

  lemma EmptyBatch(s: set<int>, key: int -> seq<int>, n: nat, sel: set<int>)
    requires n >= 1 && IsFirst(s, key, n, sel)
    ensures sel <= s && (sel == {} <==> s == {})
    ensures |sel| == 0 <==> sel == {}
  {
  }

  /** Whatever the batch size, as many rounds as there are rows reach the same state, and stay there. */
  lemma {:induction false} RoundsConverge(h: History, c: Cutoffs, n: nat, k: nat)
    requires n >= 1 && k >= Size(h)
    ensures Rounds(h, c, n, k) == Pruned(h, c)
  {
    RoundsShrink(h, c, n, k);
  }

  lemma {:induction false} RoundsShrink(h: History, c: Cutoffs, n: nat, k: nat)
    requires n >= 1
    ensures Pruned(Rounds(h, c, n, k), c) == Pruned(h, c)
    ensures Rounds(h, c, n, k) == Pruned(h, c) || Size(Rounds(h, c, n, k)) + k <= Size(h)
    ensures k >= Size(h) ==> Rounds(h, c, n, k) == Pruned(h, c)
    decreases k
  {
    hide Size, Pruned, AfterRound;
    if k > 0 {
      var before := Rounds(h, c, n, k - 1);
      RoundsShrink(h, c, n, k - 1);
      RoundKeepsGoal(before, c, n);
      RoundProgress(before, c, n);
      GoalIsFixed(h, c, n);
    }
    SizeZero(Rounds(h, c, n, k), c);
  }

  lemma SizeZero(h: History, c: Cutoffs)
    ensures Size(h) == 0 ==> Pruned(h, c) == h
  {
    if Size(h) == 0 {
      assert h.events == map[] && h.runs == map[] && h.logs == map[];
    }
  }

  /** The goal is a fixed point. */
  lemma GoalIsFixed(h: History, c: Cutoffs, n: nat)
    requires n >= 1
    ensures AfterRound(Pruned(h, c), c, n) == Pruned(h, c)
  {
    var goal := Pruned(h, c);
    var middle := h.(events := h.events - OldEvents(h.events, c.events));
    assert OldEvents(goal.events, c.events) == {} && OldLogs(goal.logs, c.logs) == {};
    assert OldRuns(goal, c) == {} by {
      forall id | id in goal.runs ensures Referenced(goal, id) <==> Referenced(middle, id) {}
    }
    EmptyBatch({}, EventKey(goal.events), n, EventBatch(goal, c, n));
    assert goal.events - {} == goal.events && goal.runs - {} == goal.runs && goal.logs - {} == goal.logs;
    assert EventBatch(goal, c, n) == {};
    var same := goal.(events := goal.events - {});
    assert same == goal;
    EmptyBatch({}, RunKey(goal.runs), n, RunBatch(goal, c, n));
    EmptyBatch({}, LogKey(goal.logs), n, LogBatch(goal, c, n));
  }

  // ----- what is deleted, in columns -----

  /** Some task's last run, or some event of these, is this run. */
  predicate StillNeeded(tasks: map<int, Option<int>>, events: map<int, Event>, run: int) {
    (exists id :: id in tasks && tasks[id] == Some(run)) || (exists id :: id in events && events[id].run == Some(run))
  }

  /** The final state: the events and log entries that are not older than their cutoff, and the runs that are
      unfinished, or not older than theirs, or still needed by a task or by an event that is kept. */
  lemma PrunedMeans(h: History, c: Cutoffs)
    ensures var after := Pruned(h, c);
            && after.tasks == h.tasks
            && after.events == (map id | id in h.events && (c.events.None? || h.events[id].createdAt >= c.events.value) :: h.events[id])
            && after.logs == (map id | id in h.logs && (c.logs.None? || h.logs[id] >= c.logs.value) :: h.logs[id])
            && after.runs == (map id | id in h.runs && (c.runs.None? || h.runs[id].None? || h.runs[id].value >= c.runs.value
                                                        || StillNeeded(h.tasks, after.events, id)) :: h.runs[id])
  {
    var h1 := h.(events := h.events - OldEvents(h.events, c.events));
    forall run ensures Referenced(h1, run) <==> StillNeeded(h.tasks, h1.events, run) {}
  }

  /** The rows a batch deletes of one table are older than the cutoff, and no row older than the cutoff that it leaves
      comes before one that it deletes; it leaves such a row only when the batch is full. */
  ghost predicate DeletesOldest(times: map<int, int>, gone: set<int>, before: Option<int>, batchSize: nat) {
    && gone <= times.Keys && |gone| <= batchSize
    && (forall id | id in gone :: before.Some? && times[id] < before.value)
    && (forall id, left | id in gone && left in times && left !in gone && before.Some? && times[left] < before.value ::
          times[id] < times[left] || (times[id] == times[left] && id < left))
    && (forall left | left in times && left !in gone && before.Some? && times[left] < before.value :: |gone| == batchSize)
  }

  function CreatedAt(events: map<int, Event>): map<int, int> { map id | id in events :: events[id].createdAt }

  /** The finished runs nobody needs, with their finishing times. */
  function FinishedAt(h: History): map<int, int> {
    map id | id in h.runs && h.runs[id].Some? && !StillNeeded(h.tasks, h.events, id) :: h.runs[id].value
  }

  lemma LexPair(a: int, b: int, x: int, y: int)
    ensures LexLess([a, b], [x, y]) <==> a < x || (a == x && b < y)
  {
    LexPrefix([a], [x], [b], [y]);
    assert [a, b] == [a] + [b] && [x, y] == [x] + [y];
  }

  lemma LeadingDeletesOldest(times: map<int, int>, all: set<int>, key: int -> seq<int>, gone: set<int>, before: Option<int>, n: nat)
    requires all == set id | id in times && before.Some? && times[id] < before.value
    requires forall id | id in all :: key(id) == [times[id], id]
    requires IsFirst(all, key, n, gone)
    ensures DeletesOldest(times, gone, before, n)
  {
    forall id, left | id in gone && left in times && left !in gone && before.Some? && times[left] < before.value
      ensures times[id] < times[left] || (times[id] == times[left] && id < left)
    {
      assert left in all - gone;
      assert LexLess(key(id), key(left));
      LexPair(times[id], id, times[left], left);
    }
    forall left | left in times && left !in gone && before.Some? && times[left] < before.value ensures |gone| == n {
      assert left in all;
      SubsetSize(gone, all - {left});
    }
  }

  /** What a round does, in columns; the runs are chosen after the events are gone. */
  ghost predicate DeletedOldest(h: History, after: History, c: Cutoffs, n: nat) {
    && after.tasks == h.tasks
    && Only(h.events, after.events) && DeletesOldest(CreatedAt(h.events), h.events.Keys - after.events.Keys, c.events, n)
    && Only(h.logs, after.logs) && DeletesOldest(h.logs, h.logs.Keys - after.logs.Keys, c.logs, n)
    && Only(h.runs, after.runs) && DeletesOldest(FinishedAt(h.(events := after.events)), h.runs.Keys - after.runs.Keys, c.runs, n)
  }

  /** Some rows are gone, the others are as they were. */
  predicate Only<V(==)>(before: map<int, V>, after: map<int, V>) {
    forall id | id in after :: id in before && after[id] == before[id]
  }

  lemma RoundDeletesOldest(h: History, c: Cutoffs, n: nat)
    ensures DeletedOldest(h, AfterRound(h, c, n), c, n)
  {
    var h1 := h.(events := h.events - EventBatch(h, c, n));
    EventsDeleted(h, c, n);
    LogsDeleted(h1, c, n);
    RunsDeleted(h1, c, n);
    hide DeletesOldest, EventBatch, RunBatch, LogBatch, CreatedAt, FinishedAt;
  }

  lemma EventsDeleted(h: History, c: Cutoffs, n: nat)
    ensures var after := h.events - EventBatch(h, c, n);
            Only(h.events, after) && DeletesOldest(CreatedAt(h.events), h.events.Keys - after.Keys, c.events, n)
  {
    OldOnesExist(h, c);
    Gone(h.events, EventBatch(h, c, n));
    LeadingDeletesOldest(CreatedAt(h.events), OldEvents(h.events, c.events), EventKey(h.events), EventBatch(h, c, n), c.events, n);
  }

  lemma LogsDeleted(h: History, c: Cutoffs, n: nat)
    ensures var after := h.logs - LogBatch(h, c, n);
            Only(h.logs, after) && DeletesOldest(h.logs, h.logs.Keys - after.Keys, c.logs, n)
  {
    OldOnesExist(h, c);
    Gone(h.logs, LogBatch(h, c, n));
    LeadingDeletesOldest(h.logs, OldLogs(h.logs, c.logs), LogKey(h.logs), LogBatch(h, c, n), c.logs, n);
  }

  lemma RunsDeleted(h: History, c: Cutoffs, n: nat)
    ensures var after := h.runs - RunBatch(h, c, n);
            Only(h.runs, after) && DeletesOldest(FinishedAt(h), h.runs.Keys - after.Keys, c.runs, n)
  {
    OldOnesExist(h, c);
    Gone(h.runs, RunBatch(h, c, n));
    OldRunsMeans(h, c);
    LeadingDeletesOldest(FinishedAt(h), OldRuns(h, c), RunKey(h.runs), RunBatch(h, c, n), c.runs, n);
  }

  lemma Gone<V>(m: map<int, V>, batch: set<int>)
    requires batch <= m.Keys
    ensures m.Keys - (m - batch).Keys == batch
  {
  }

  lemma OldRunsMeans(h: History, c: Cutoffs)
    ensures OldRuns(h, c) == set id | id in FinishedAt(h) && c.runs.Some? && FinishedAt(h)[id] < c.runs.value
  {
    forall run ensures Referenced(h, run) <==> StillNeeded(h.tasks, h.events, run) {}
  }

  // ----- references -----

  ghost predicate NoDangling(h: History) {
    && (forall id | id in h.tasks && h.tasks[id].Some? :: h.tasks[id].value in h.runs)
    && (forall id | id in h.events && h.events[id].run.Some? :: h.events[id].run.value in h.runs)
  }

  /** No round, and so no number of rounds, leaves a task or an event pointing at a deleted run. */
  lemma {:induction false} RoundsLeaveNoDangling(h: History, c: Cutoffs, n: nat, k: nat)
    requires NoDangling(h)
    ensures NoDangling(Rounds(h, c, n, k))
    decreases k
  {
    if k > 0 {
      RoundsLeaveNoDangling(h, c, n, k - 1);
      RoundLeavesNoDangling(Rounds(h, c, n, k - 1), c, n);
    }
  }

  lemma RoundLeavesNoDangling(h: History, c: Cutoffs, n: nat)
    requires NoDangling(h)
    ensures NoDangling(AfterRound(h, c, n))
  {
    var h1 := h.(events := h.events - EventBatch(h, c, n));
    var runs := RunBatch(h1, c, n);
    forall run | run in runs ensures !Referenced(h1, run) { assert run in OldRuns(h1, c); }
    forall id | id in h1.tasks && h1.tasks[id].Some? ensures h1.tasks[id].value !in runs {
      assert h1.tasks[id] == Some(h1.tasks[id].value);
      assert Referenced(h1, h1.tasks[id].value);
    }
    forall id | id in h1.events && h1.events[id].run.Some? ensures h1.events[id].run.value !in runs {
      assert h1.events[id].run == Some(h1.events[id].run.value);
      assert Referenced(h1, h1.events[id].run.value);
    }
  }

  // ----- the tables, pruned in place -----

  class RuntimeHistory {
    var tasks: map<int, Option<int>>
    var events: map<int, Event>
    var runs: map<int, Option<int>>
    var logs: map<int, int>

    function Abs(): History
      reads this
    {
      History(tasks, events, runs, logs)
    }

    /** `_prune_runtime_history_sync` */
    method PruneOnce(c: Cutoffs, batchSize: nat) returns (eventCount: nat, runCount: nat, logCount: nat)
      modifies `events, `runs, `logs
      ensures Abs() == AfterRound(old(Abs()), c, batchSize)
      ensures eventCount == Min(batchSize, |OldEvents(old(events), c.events)|)
      ensures logCount == Min(batchSize, |OldLogs(old(logs), c.logs)|)
      ensures Size(Abs()) + eventCount + runCount + logCount == old(Size(Abs()))
      ensures eventCount == |old(events)| - |events| && runCount == |old(runs)| - |runs| && logCount == |old(logs)| - |logs|
      ensures DeletedOldest(old(Abs()), Abs(), c, batchSize)
    {
      hide DeletedOldest, AfterRound, OldEvents, OldRuns, OldLogs, Injective, EventKey, RunKey, LogKey, Size, IsFirst, EventBatch, RunBatch, LogBatch;
      ghost var h := Abs();
      ghost var h1 := h.(events := h.events - EventBatch(h, c, batchSize));
      RoundDeletesOldest(h, c, batchSize);
      RoundFacts(h, c, batchSize);
      RoundCounts(h, c, batchSize);
      var eventIds := SelectFirst(OldEvents(events, c.events), EventKey(events), batchSize);
      assert eventIds == EventBatch(h, c, batchSize);
      events := events - eventIds;
      assert Abs() == h1;
      var runIds := SelectFirst(OldRuns(Abs(), c), RunKey(runs), batchSize);
      assert runIds == RunBatch(h1, c, batchSize);
      runs := runs - runIds;
      var logIds := SelectFirst(OldLogs(logs, c.logs), LogKey(logs), batchSize);
      assert logIds == LogBatch(h1, c, batchSize);
      logs := logs - logIds;
      IsLess(h, Abs(), eventIds, runIds, logIds);
      eventCount, runCount, logCount := |eventIds|, |runIds|, |logIds|;
    }

    /** `prune_runtime_history`: a batch size below one is an error. */
    method Prune(c: Cutoffs, batchSize: int) returns (counts: Option<Counts>)
      modifies `events, `runs, `logs
      ensures counts.None? <==> batchSize < 1
      ensures counts.None? ==> Abs() == old(Abs())
      ensures counts.Some? ==> Abs() == AfterRound(old(Abs()), c, batchSize) && DeletedOldest(old(Abs()), Abs(), c, batchSize)
      ensures counts.Some? ==> counts.value == Counts(|old(events)| - |events|, |old(runs)| - |runs|, |old(logs)| - |logs|)
    {
      hide DeletedOldest, AfterRound, OldEvents, OldLogs;
      if batchSize < 1 { return None; }
      var e, r, l := PruneOnce(c, batchSize);
      counts := Some(Counts(e, r, l));
    }

    /** A caller that repeats the bounded prune with fixed cutoffs until a round deletes nothing. */
    method PruneAll(c: Cutoffs, batchSize: nat)
      requires batchSize >= 1
      modifies `events, `runs, `logs
      ensures Abs() == Pruned(old(Abs()), c)
      ensures events == map id | id in old(events) && (c.events.None? || old(events)[id].createdAt >= c.events.value) :: old(events)[id]
      ensures logs == map id | id in old(logs) && (c.logs.None? || old(logs)[id] >= c.logs.value) :: old(logs)[id]
      ensures runs == map id | id in old(runs) && (c.runs.None? || old(runs)[id].None? || old(runs)[id].value >= c.runs.value
                                                   || StillNeeded(tasks, events, id)) :: old(runs)[id]
      ensures NoDangling(old(Abs())) ==> NoDangling(Abs())
    {
      hide DeletedOldest;
      PrunedMeans(Abs(), c);
      hide Pruned, NoDangling, OldEvents, OldLogs, AfterRound, Size, StillNeeded;
      while true
        invariant Pruned(Abs(), c) == Pruned(old(Abs()), c)
        invariant NoDangling(old(Abs())) ==> NoDangling(Abs())
        decreases Size(Abs())
      {
        ghost var before := Abs();
        RoundKeepsGoal(before, c, batchSize);
        RoundProgress(before, c, batchSize);
        if NoDangling(before) { RoundLeavesNoDangling(before, c, batchSize); }
        var e, r, l := PruneOnce(c, batchSize);
        if e + r + l == 0 { return; }
      }
    }
  }
}
