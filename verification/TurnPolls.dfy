/** `try_mark_running` as the statements it executes: two SELECTs and an UPDATE that checks the row alone.
    Other sessions may write between the SELECTs and the UPDATE. */
module TurnPolls {
  import opened Ordering
  import opened TurnQueue

  datatype Poll = Poll(id: int, profile: string, session: string, token: int)

  /** The table, the polls whose SELECTs let them through, and every owner token ever drawn. */
  datatype System = System(queue: Queue, polls: set<Poll>, used: set<int>)

  datatype Step =
    | Statement(op: Op)
    | Look(poll: Poll)
    | Mark(poll: Poll, now: int)

  /** What the two SELECTs, on one state, ask for. */
  predicate LetsThrough(q: Queue, poll: Poll) {
    !SomethingRuns(q, poll.profile, poll.session) && IsNext(q, poll.id, poll.profile, poll.session)
  }

  /** The WHERE clause of the UPDATE. */
  predicate Guard(q: Queue, poll: Poll) { Owns(q, poll.id, poll.token) && !q.rows[poll.id].running }

  function Marked(q: Queue, id: int, now: int): Queue
    requires id in q.rows
  {
    q.(rows := q.rows[id := StartedItem(q.rows[id], now)], started := q.started + [StartedItem(q.rows[id], now)])
  }

  /** A poll is for a row its owner enqueued, an UPDATE for a poll that was let through; owner tokens are
      never drawn twice. */
  predicate Enabled(sys: System, step: Step) {
    match step
    case Statement(op) => !op.TryStart? && Allowed(sys.queue, op) && (op.Enqueue? ==> op.token !in sys.used)
    case Look(poll) => poll.token in sys.used
    case Mark(poll, _) => poll in sys.polls
  }

  function Do(sys: System, step: Step): System {
    match step
    case Statement(op) =>
      sys.(queue := Apply(sys.queue, op), used := if op.Enqueue? then sys.used + {op.token} else sys.used)
    case Look(poll) => if LetsThrough(sys.queue, poll) then sys.(polls := sys.polls + {poll}) else sys
    case Mark(poll, now) => if Guard(sys.queue, poll) then sys.(queue := Marked(sys.queue, poll.id, now)) else sys
  }

  /** A poll that was let through stays entitled for as long as its row waits: no other row can pass it. */
  ghost predicate Inv(sys: System) {
    && TurnQueue.Inv(sys.queue)
    && (forall id | id in sys.queue.rows :: sys.queue.rows[id].token in sys.used)
    && (forall poll | poll in sys.polls :: poll.token in sys.used && (Guard(sys.queue, poll) ==> LetsThrough(sys.queue, poll)))
  }

  /** The UPDATE, however late, does exactly what SELECTs and UPDATE in one step would do. */
  lemma LateMarkIsTryStart(sys: System, poll: Poll, now: int)
    requires Inv(sys) && poll in sys.polls
    ensures Do(sys, Mark(poll, now)).queue == Apply(sys.queue, TryStart(poll.id, poll.profile, poll.session, poll.token, now))
  {
  }

  /** And a look with an UPDATE right behind it is the whole poll: nobody who may start is turned away. */
  lemma LookAndMarkIsTryStart(sys: System, poll: Poll, now: int)
    requires Inv(sys) && poll.token in sys.used
    ensures Enabled(sys, Look(poll))
    ensures var seen := Do(sys, Look(poll));
            (if Enabled(seen, Mark(poll, now)) then Do(seen, Mark(poll, now)) else seen).queue ==
            Apply(sys.queue, TryStart(poll.id, poll.profile, poll.session, poll.token, now))
  {
    var seen := Do(sys, Look(poll));
    StepKeepsInv(sys, Look(poll));
    if poll in seen.polls { LateMarkIsTryStart(seen, poll, now); }
  }

  lemma EntitlementsLast(sys: System, op: Op, poll: Poll)
    requires Inv(sys) && Allowed(sys.queue, op) && (op.Enqueue? ==> op.token !in sys.used) && poll in sys.polls
    requires Guard(Apply(sys.queue, op), poll)
    ensures LetsThrough(Apply(sys.queue, op), poll)
  {
    var q, after := sys.queue, Apply(sys.queue, op);
    if op.TryStart? && Matches(q, op) {
      assert op.id != poll.id;
      assert IsNext(q, op.id, op.profile, op.session) && IsNext(q, poll.id, poll.profile, poll.session);
      assert !(op.profile == poll.profile && op.session == poll.session);
      assert forall id | id in q.rows && Within(q.rows[id], poll.profile, poll.session) :: id != op.id;
    } else {
      assert Guard(q, poll);
    }
  }

  lemma StatementKeepsInv(sys: System, op: Op)
    requires Inv(sys) && Allowed(sys.queue, op) && (op.Enqueue? ==> op.token !in sys.used)
    ensures Inv(sys.(queue := Apply(sys.queue, op), used := if op.Enqueue? then sys.used + {op.token} else sys.used))
  {
    OpKeepsInv(sys.queue, op);
    forall poll | poll in sys.polls && Guard(Apply(sys.queue, op), poll) ensures LetsThrough(Apply(sys.queue, op), poll) {
      EntitlementsLast(sys, op, poll);
    }
  }

  lemma StepKeepsInv(sys: System, step: Step)
    requires Inv(sys) && Enabled(sys, step)
    ensures Inv(Do(sys, step))
  {
    match step
    case Statement(op) => StatementKeepsInv(sys, op);
    case Look(_) =>
    case Mark(poll, now) =>
      LateMarkIsTryStart(sys, poll, now);
      StatementKeepsInv(sys, TryStart(poll.id, poll.profile, poll.session, poll.token, now));
  }

  const Start := System(Empty, {}, {})

  ghost function Run(sys: System, steps: seq<Step>): System
    decreases |steps|
  {
    if steps == [] then sys
    else
      var before := Run(sys, steps[..|steps| - 1]);
      if Enabled(before, steps[|steps| - 1]) then Do(before, steps[|steps| - 1]) else before
  }

  /** Refinement: the queue of every interleaving of SELECTs, UPDATEs and other statements is the queue of a run
      in which every poll is one step, so nothing has to keep writers out between SELECTs and UPDATE. */
  lemma {:induction false} InterleavingsAreRuns(steps: seq<Step>) returns (ops: seq<Op>)
    ensures Inv(Run(Start, steps))
    ensures TurnQueue.Run(Empty, ops) == Run(Start, steps).queue
    decreases |steps|
  {
    if steps == [] { return []; }
    var before, step := Run(Start, steps[..|steps| - 1]), steps[|steps| - 1];
    ops := InterleavingsAreRuns(steps[..|steps| - 1]);
    if Enabled(before, step) && !step.Look? {
      var op := if step.Statement? then step.op
                else TryStart(step.poll.id, step.poll.profile, step.poll.session, step.poll.token, step.now);
      if step.Mark? { LateMarkIsTryStart(before, step.poll, step.now); }
      assert (ops + [op])[..|ops|] == ops;
      ops := ops + [op];
    }
    if Enabled(before, step) { StepKeepsInv(before, step); }
  }

  /** Hence admission is exclusive and in arrival order in every interleaving. */
  lemma InterleavedAdmission(steps: seq<Step>)
    ensures var q := Run(Start, steps).queue;
            && OneRuns(q.rows)
            && forall i, j | 0 <= i < j < |q.started| && SameSession(q.started[i], q.started[j]) ::
                 q.started[i].arrival < q.started[j].arrival
  {
    var ops := InterleavingsAreRuns(steps);
    AdmissionIsFifoAndExclusive(ops);
  }

  // ----- SELECTs on two states -----

  /** The UPDATE alone, whatever its SELECTs saw, keeps the queue right if and only if at that moment nothing of the
      session runs and the row is next. */
  lemma MarkKeepsInvIff(q: Queue, poll: Poll, now: int)
    requires TurnQueue.Inv(q) && Guard(q, poll) && Within(q.rows[poll.id], poll.profile, poll.session)
    ensures TurnQueue.Inv(Marked(q, poll.id, now)) <==> LetsThrough(q, poll)
  {
    var after := Marked(q, poll.id, now);
    if LetsThrough(q, poll) {
      StartKeepsOrder(q, poll.id, poll.profile, poll.session, now);
    } else if SomethingRuns(q, poll.profile, poll.session) {
      var other :| other in q.rows && Within(q.rows[other], poll.profile, poll.session) && q.rows[other].running;
      assert after.rows[other].running && after.rows[poll.id].running && SameSession(after.rows[other], after.rows[poll.id]);
    } else {
      var other :| other in q.rows && Within(q.rows[other], poll.profile, poll.session) && !q.rows[other].running && other < poll.id;
      assert SameSession(after.rows[poll.id], after.rows[other]) && after.rows[poll.id].running;
    }
  }

  /** When the two SELECTs see different states, the first before and the second after another row is started, both
      let the later row through and two turns of one session run. */
  lemma TwoSnapshotsAdmitTwo(p: string, s: string)
    ensures var q := TurnQueue.Run(Empty, [Enqueue(1, p, s, 7, 0), Enqueue(2, p, s, 8, 0)]);
            var started := Apply(q, TryStart(1, p, s, 7, 0));
            && !SomethingRuns(q, p, s)
            && IsNext(started, 2, p, s) && Guard(started, Poll(2, p, s, 8))
            && !OneRuns(Marked(started, 2, 0).rows)
  {
    var ops := [Enqueue(1, p, s, 7, 0), Enqueue(2, p, s, 8, 0)];
    assert ops[..1][..0] == [];
    var one, two := Item(1, p, s, 7, false, 0, 0), Item(2, p, s, 8, false, 0, 1);
    assert TurnQueue.Run(Empty, ops[..1]) == Queue(map[1 := one], 1, []);
    var q := TurnQueue.Run(Empty, ops);
    assert q == Queue(map[1 := one, 2 := two], 2, []);
    var rows := Marked(Apply(q, TryStart(1, p, s, 7, 0)), 2, 0).rows;
    assert SameSession(rows[1], rows[2]) && rows[1].running && rows[2].running;
  }
}
