/** The per-session turn queue: durable markers that admit one turn at a time, in arrival order. */
module TurnQueue {
  import opened Ordering

  /** `arrival` is the position of the row in insertion order, over the whole life of the table. */
  datatype Item = Item(id: int, profile: string, session: string, token: int, running: bool, updatedAt: int, arrival: nat)

  /** The table, the number of inserts so far, and the rows in the order in which they were started. */
  datatype Queue = Queue(rows: map<int, Item>, arrivals: nat, started: seq<Item>)

  datatype Op =
    | Enqueue(id: int, profile: string, session: string, token: int, now: int)
    | TryStart(id: int, profile: string, session: string, token: int, now: int)
    | Touch(id: int, token: int, now: int)
    | Release(id: int, token: int)
    | ReleaseStale(profile: string, session: string, olderThan: int)

  predicate Within(r: Item, profile: string, session: string) { r.profile == profile && r.session == session }

  predicate SameSession(a: Item, b: Item) { Within(a, b.profile, b.session) }

  predicate TokenTaken(q: Queue, token: int) { exists id | id in q.rows :: q.rows[id].token == token }

  predicate SomethingRuns(q: Queue, profile: string, session: string) {
    exists id | id in q.rows :: Within(q.rows[id], profile, session) && q.rows[id].running
  }

  /** `id` is the first queued row of the session. */
  predicate IsNext(q: Queue, id: int, profile: string, session: string) {
    && id in q.rows && Within(q.rows[id], profile, session) && !q.rows[id].running
    && forall other | other in q.rows && Within(q.rows[other], profile, session) && !q.rows[other].running :: id <= other
  }

  predicate Owns(q: Queue, id: int, token: int) { id in q.rows && q.rows[id].token == token }

  predicate Matches(q: Queue, op: Op) {
    match op
    case Enqueue(_, _, _, token, _) => !TokenTaken(q, token)
    case TryStart(id, p, s, token, _) => !SomethingRuns(q, p, s) && IsNext(q, id, p, s) && Owns(q, id, token)
    case Touch(id, token, _) => Owns(q, id, token)
    case Release(id, token) => Owns(q, id, token)
    case ReleaseStale(_, _, _) => true
  }

  function StartedItem(r: Item, now: int): Item { r.(running := true, updatedAt := now) }

  function Apply(q: Queue, op: Op): Queue {
    if !Matches(q, op) then q
    else
      match op
      case Enqueue(id, p, s, token, now) =>
        q.(rows := q.rows[id := Item(id, p, s, token, false, now, q.arrivals)], arrivals := q.arrivals + 1)
      case TryStart(id, _, _, _, now) =>
        q.(rows := q.rows[id := StartedItem(q.rows[id], now)], started := q.started + [StartedItem(q.rows[id], now)])
      case Touch(id, _, now) => q.(rows := q.rows[id := q.rows[id].(updatedAt := now)])
      case Release(id, _) => q.(rows := q.rows - {id})
      case ReleaseStale(p, s, olderThan) =>
        q.(rows := map id | id in q.rows && !(Within(q.rows[id], p, s) && q.rows[id].updatedAt <= olderThan) :: q.rows[id])
  }

  /** The database hands out an id above every id present in the table. */
  predicate Allowed(q: Queue, op: Op) {
    op.Enqueue? ==> forall id | id in q.rows :: id < op.id
  }

  // ----- the invariant -----

  ghost predicate RowsInv(rows: map<int, Item>, arrivals: nat) {
    && (forall id | id in rows :: rows[id].id == id && rows[id].arrival < arrivals)
    && (forall a, b | a in rows && b in rows && a < b :: rows[a].arrival < rows[b].arrival)
    && (forall a, b | a in rows && b in rows && rows[a].token == rows[b].token :: a == b)
  }

  /** At most one running row per session, and it comes before every queued row of the session. */
  ghost predicate OneRuns(rows: map<int, Item>) {
    forall a, b | a in rows && b in rows && SameSession(rows[a], rows[b]) && rows[a].running && a != b ::
      !rows[b].running && a < b
  }

  /** Within a session rows were started in arrival order, and everything queued arrived later. */
  ghost predicate StartedInOrder(rows: map<int, Item>, started: seq<Item>, arrivals: nat) {
    && (forall i, j | 0 <= i < j < |started| && SameSession(started[i], started[j]) :: started[i].arrival < started[j].arrival)
    && (forall i | 0 <= i < |started| :: started[i].arrival < arrivals)
    && (forall i, id | 0 <= i < |started| && id in rows && SameSession(started[i], rows[id]) && !rows[id].running ::
          started[i].arrival < rows[id].arrival)
  }

  ghost predicate Inv(q: Queue) {
    && RowsInv(q.rows, q.arrivals) && OneRuns(q.rows) && StartedInOrder(q.rows, q.started, q.arrivals)
  }

  /** Deleting rows, and touching them, keeps everything. */
  ghost predicate Fewer(rows: map<int, Item>, all: map<int, Item>) {
    forall id | id in rows :: id in all && rows[id] == all[id].(updatedAt := rows[id].updatedAt)
  }

  lemma FewerRowsKeepInv(q: Queue, rows: map<int, Item>)
    requires Inv(q) && Fewer(rows, q.rows)
    ensures Inv(q.(rows := rows))
  {
  }

  lemma EnqueueKeepsInv(q: Queue, r: Item)
    requires Inv(q) && !r.running && r.arrival == q.arrivals && !TokenTaken(q, r.token) && forall id | id in q.rows :: id < r.id
    ensures Inv(q.(rows := q.rows[r.id := r], arrivals := q.arrivals + 1))
  {
  }

  lemma OpKeepsInv(q: Queue, op: Op)
    requires Inv(q) && Allowed(q, op)
    ensures Inv(Apply(q, op))
  {
    var after := Apply(q, op);
    if Matches(q, op) {
      match op
      case Enqueue(id, p, s, token, now) => EnqueueKeepsInv(q, after.rows[id]);
      case TryStart(id, p, s, token, now) => StartKeepsOrder(q, id, p, s, now);
      case Touch(_, _, _) => FewerRowsKeepInv(q, after.rows);
      case Release(_, _) => FewerRowsKeepInv(q, after.rows);
      case ReleaseStale(_, _, _) => FewerRowsKeepInv(q, after.rows);
    }
  }

  lemma StartKeepsOrder(q: Queue, id: int, p: string, s: string, now: int)
    requires Inv(q) && !SomethingRuns(q, p, s) && IsNext(q, id, p, s)
    ensures var rows, started := q.rows[id := StartedItem(q.rows[id], now)], q.started + [StartedItem(q.rows[id], now)];
            Inv(q.(rows := rows, started := started))
  {
    var row := q.rows[id];
    var rows := q.rows[id := StartedItem(row, now)];
    forall other | other in q.rows && other != id && SameSession(q.rows[other], row)
      ensures !q.rows[other].running && id < other
    {
      assert Within(q.rows[other], p, s);
    }
  }

  ghost function Run(q: Queue, ops: seq<Op>): Queue
    decreases |ops|
  {
    if ops == [] then q
    else
      var before := Run(q, ops[..|ops| - 1]);
      if Allowed(before, ops[|ops| - 1]) then Apply(before, ops[|ops| - 1]) else before
  }

  lemma {:induction false} RunKeepsInv(q: Queue, ops: seq<Op>)
    requires Inv(q)
    ensures Inv(Run(q, ops))
    decreases |ops|
  {
    if ops != [] {
      RunKeepsInv(q, ops[..|ops| - 1]);
      var before := Run(q, ops[..|ops| - 1]);
      if Allowed(before, ops[|ops| - 1]) { OpKeepsInv(before, ops[|ops| - 1]); }
    }
  }

  const Empty := Queue(map[], 0, [])

  /** Every reachable queue: one running turn per session, ahead of all queued ones; turns start in the
      order in which they arrived. */
  lemma AdmissionIsFifoAndExclusive(ops: seq<Op>)
    ensures var q := Run(Empty, ops);
            && OneRuns(q.rows)
            && forall i, j | 0 <= i < j < |q.started| && SameSession(q.started[i], q.started[j]) ::
                 q.started[i].arrival < q.started[j].arrival
  {
    RunKeepsInv(Empty, ops);
  }

  // ----- ids -----

  /** Within every session the started ids strictly increase, and lie below the ids still queued. */
  ghost predicate StartedIncrease(q: Queue) {
    && (forall i, j | 0 <= i < j < |q.started| && SameSession(q.started[i], q.started[j]) :: q.started[i].id < q.started[j].id)
    && (forall i, id | 0 <= i < |q.started| && id in q.rows && SameSession(q.started[i], q.rows[id]) && !q.rows[id].running ::
          q.started[i].id < id)
  }

  /** The new id is above every started id of its own session, or nothing is inserted. */
  ghost predicate AboveStarted(q: Queue, op: Op) {
    op.Enqueue? && Matches(q, op) ==>
      forall i | 0 <= i < |q.started| && Within(q.started[i], op.profile, op.session) :: q.started[i].id < op.id
  }

  /** An operation keeps the started ids increasing if and only if it does not queue a row at or below a
      started id of its session. */
  lemma KeepsIncreaseIff(q: Queue, op: Op)
    requires Inv(q) && StartedIncrease(q) && Allowed(q, op)
    ensures StartedIncrease(Apply(q, op)) <==> AboveStarted(q, op)
  {
    var after := Apply(q, op);
    if Matches(q, op) {
      match op
      case Enqueue(id, p, s, token, now) => EnqueueKeepsIncreaseIff(q, op);
      case TryStart(id, p, s, token, now) => StartKeepsIncrease(q, id, p, s, now);
      case Touch(_, _, _) => FewerRowsKeepIncrease(q, after.rows);
      case Release(_, _) => FewerRowsKeepIncrease(q, after.rows);
      case ReleaseStale(_, _, _) => FewerRowsKeepIncrease(q, after.rows);
    }
  }

  lemma EnqueueKeepsIncreaseIff(q: Queue, op: Op)
    requires StartedIncrease(q) && Allowed(q, op) && op.Enqueue? && Matches(q, op)
    ensures StartedIncrease(Apply(q, op)) <==> AboveStarted(q, op)
  {
    var after := Apply(q, op);
    assert after.rows[op.id] == Item(op.id, op.profile, op.session, op.token, false, op.now, q.arrivals);
    forall i | 0 <= i < |q.started| ensures SameSession(q.started[i], after.rows[op.id]) <==> Within(q.started[i], op.profile, op.session) {}
    forall id | id in q.rows ensures after.rows[id] == q.rows[id] {}
  }

  lemma FewerRowsKeepIncrease(q: Queue, rows: map<int, Item>)
    requires StartedIncrease(q) && Fewer(rows, q.rows)
    ensures StartedIncrease(q.(rows := rows))
  {
  }

  lemma StartKeepsIncrease(q: Queue, id: int, p: string, s: string, now: int)
    requires Inv(q) && StartedIncrease(q) && IsNext(q, id, p, s)
    ensures StartedIncrease(q.(rows := q.rows[id := StartedItem(q.rows[id], now)], started := q.started + [StartedItem(q.rows[id], now)]))
  {
    var row := q.rows[id];
    forall other | other in q.rows && SameSession(row, q.rows[other]) && !q.rows[other].running && other != id ensures id < other {
      assert Within(q.rows[other], p, s);
    }
  }

  /** After every operation of the run the started ids increase. */
  ghost predicate IncreaseThroughout(q: Queue, ops: seq<Op>)
    decreases |ops|
  {
    StartedIncrease(Run(q, ops)) && (ops == [] || IncreaseThroughout(q, ops[..|ops| - 1]))
  }

  /** Every row the run queues has an id above the started ids of its session. */
  ghost predicate AlwaysAbove(q: Queue, ops: seq<Op>)
    decreases |ops|
  {
    ops == [] || (AlwaysAbove(q, ops[..|ops| - 1]) &&
                  (Allowed(Run(q, ops[..|ops| - 1]), ops[|ops| - 1]) ==> AboveStarted(Run(q, ops[..|ops| - 1]), ops[|ops| - 1])))
  }

  /** Over whole runs: the started ids of every session increase throughout if and only if no row is queued
      at or below a started id of its session.  Ids that are never handed out twice meet this; so does
      reusing the id of a row that never started, or of another session's row. */
  lemma {:induction false} StartedIdsIncreaseIff(q: Queue, ops: seq<Op>)
    requires Inv(q) && StartedIncrease(q)
    ensures IncreaseThroughout(q, ops) <==> AlwaysAbove(q, ops)
    decreases |ops|
  {
    if ops != [] {
      var before, op := Run(q, ops[..|ops| - 1]), ops[|ops| - 1];
      RunKeepsInv(q, ops[..|ops| - 1]);
      StartedIdsIncreaseIff(q, ops[..|ops| - 1]);
      IncreaseAtEnd(q, ops[..|ops| - 1]);
      if StartedIncrease(before) && Allowed(before, op) { KeepsIncreaseIff(before, op); }
    }
  }

  lemma IncreaseAtEnd(q: Queue, ops: seq<Op>)
    ensures IncreaseThroughout(q, ops) ==> StartedIncrease(Run(q, ops))
  {
  }

  /** With ids that are merely above those present, as SQLite rowids are, an id can start twice. */
  lemma StartedIdsCanRepeat(p: string, s: string)
    ensures exists ops :: var q := Run(Empty, ops);
              |q.started| == 2 && SameSession(q.started[0], q.started[1]) && q.started[0].id == q.started[1].id
  {
    var ops := [Enqueue(1, p, s, 7, 0), TryStart(1, p, s, 7, 0), Release(1, 7), Enqueue(1, p, s, 8, 0), TryStart(1, p, s, 8, 0)];
    var first, second := Item(1, p, s, 7, true, 0, 0), Item(1, p, s, 8, true, 0, 1);
    assert ops[..4][..3] == ops[..3] && ops[..3][..2] == ops[..2] && ops[..2][..1] == ops[..1] && ops[..1][..0] == [];
    assert Run(Empty, ops[..1]) == Queue(map[1 := first.(running := false)], 1, []);
    assert Run(Empty, ops[..2]) == Queue(map[1 := first], 1, [first]);
    assert Run(Empty, ops[..3]) == Queue(map[], 1, [first]);
    assert Run(Empty, ops[..4]) == Queue(map[1 := second.(running := false)], 2, [first]);
    assert Run(Empty, ops) == Queue(map[1 := second], 2, [first, second]);
  }

  // ----- fencing -----

  ghost predicate Enqueues(ops: seq<Op>, token: int) { exists i :: 0 <= i < |ops| && ops[i].Enqueue? && ops[i].token == token }

  /** An owner whose row was evicted can neither touch nor release anything again, even when its row id
      was handed to a successor. */
  lemma {:induction false} EvictedOwnersAreFenced(q: Queue, ops: seq<Op>, token: int, id: int, now: int)
    requires !TokenTaken(q, token) && !Enqueues(ops, token)
    ensures !TokenTaken(Run(q, ops), token)
    ensures Apply(Run(q, ops), Touch(id, token, now)) == Run(q, ops) == Apply(Run(q, ops), Release(id, token))
    decreases |ops|
  {
    if ops != [] {
      var before, op := Run(q, ops[..|ops| - 1]), ops[|ops| - 1];
      assert !Enqueues(ops[..|ops| - 1], token) by {
        forall i | 0 <= i < |ops| - 1 ensures !(ops[i].Enqueue? && ops[i].token == token) {}
      }
      EvictedOwnersAreFenced(q, ops[..|ops| - 1], token, id, now);
      assert !(op.Enqueue? && op.token == token);
      if Allowed(before, op) { StaysGone(before, op, token); }
    }
  }

  lemma StaysGone(q: Queue, op: Op, token: int)
    requires !TokenTaken(q, token) && !(op.Enqueue? && op.token == token)
    ensures !TokenTaken(Apply(q, op), token)
  {
    var after := Apply(q, op);
    forall id | id in after.rows ensures after.rows[id].token != token {
      if id in q.rows { assert q.rows[id].token != token; }
    }
  }

  /** `ChatSessionTurnQueueRepository`, updating its table in place. */
  class TurnQueueRepository {
    var rows: map<int, Item>
    var arrivals: nat
    ghost var started: seq<Item>

    ghost function Abs(): Queue
      reads this
    {
      Queue(rows, arrivals, started)
    }

    ghost predicate Valid()
      reads this
    {
      Inv(Abs())
    }

    constructor ()
      ensures Valid() && Abs() == Empty
    {
      rows, arrivals, started := map[], 0, [];
    }

    /** The unique constraint on the owner token turns a duplicate into an IntegrityError. */
    method EnqueueTurn(id: int, profile: string, session: string, token: int, now: int) returns (row: Option<Item>)
      requires Valid() && forall other | other in rows :: other < id
      modifies this
      ensures Valid() && Abs() == Apply(old(Abs()), Enqueue(id, profile, session, token, now))
      ensures row.None? <==> exists other :: other in old(rows) && old(rows)[other].token == token
      ensures row.None? ==> rows == old(rows)
      ensures row.Some? ==> rows == old(rows)[id := row.value]
                            && row.value == Item(id, profile, session, token, false, now, old(arrivals))
    {
      OpKeepsInv(Abs(), Enqueue(id, profile, session, token, now));
      if exists other | other in rows :: rows[other].token == token { return None; }
      rows := rows[id := Item(id, profile, session, token, false, now, arrivals)];
      arrivals := arrivals + 1;
      row := Some(rows[id]);
    }

    method TryMarkRunning(id: int, profile: string, session: string, token: int, now: int) returns (ok: bool)
      requires Valid()
      modifies this
      ensures Valid() && Abs() == Apply(old(Abs()), TryStart(id, profile, session, token, now))
      ensures ok <==> && id in old(rows) && old(rows)[id].token == token && old(rows)[id].profile == profile && old(rows)[id].session == session
                      && !old(rows)[id].running
                      && forall other | other in old(rows) && old(rows)[other].profile == profile && old(rows)[other].session == session ::
                           !old(rows)[other].running && id <= other
      ensures rows == if ok then old(rows)[id := old(rows)[id].(running := true, updatedAt := now)] else old(rows)
    {
      hide Inv, Matches, IsNext, SomethingRuns;
      ghost var q := Abs();
      OpKeepsInv(q, TryStart(id, profile, session, token, now));
      StartColumns(q, id, profile, session, token, now);
      NextQueued(q, id, profile, session);
      if exists other | other in rows :: Within(rows[other], profile, session) && rows[other].running { return false; }
      var queued := set other | other in rows && Within(rows[other], profile, session) && !rows[other].running;
      assert IsNext(q, id, profile, session) ==> id in queued;
      if queued == {} { return false; }
      IncreasingIsInjective(queued);
      var next := FindLeast(queued, Increasing);
      LeastIsNext(q, queued, next, id, profile, session);
      if next != id { return false; }
      ok := rows[id].token == token;
      if ok {
        rows := rows[id := StartedItem(rows[id], now)];
        started := started + [rows[id]];
      }
    }

    method TouchTurn(id: int, token: int, now: int) returns (ok: bool)
      requires Valid()
      modifies this
      ensures Valid() && Abs() == Apply(old(Abs()), Touch(id, token, now))
      ensures ok <==> id in old(rows) && old(rows)[id].token == token
      ensures rows == if ok then old(rows)[id := old(rows)[id].(updatedAt := now)] else old(rows)
    {
      OpKeepsInv(Abs(), Touch(id, token, now));
      ok := id in rows && rows[id].token == token;
      if ok { rows := rows[id := rows[id].(updatedAt := now)]; }
    }

    method ReleaseTurn(id: int, token: int)
      requires Valid()
      modifies this
      ensures Valid() && Abs() == Apply(old(Abs()), Release(id, token))
      ensures rows == if id in old(rows) && old(rows)[id].token == token then old(rows) - {id} else old(rows)
    {
      OpKeepsInv(Abs(), Release(id, token));
      if id in rows && rows[id].token == token { rows := rows - {id}; }
    }

    method ReleaseStaleTurns(profile: string, session: string, olderThan: int) returns (count: nat)
      requires Valid()
      modifies this
      ensures Valid() && Abs() == Apply(old(Abs()), ReleaseStale(profile, session, olderThan))
      ensures count == |old(rows)| - |rows|
      ensures rows == map id | id in old(rows) && !(old(rows)[id].profile == profile && old(rows)[id].session == session
                                                    && old(rows)[id].updatedAt <= olderThan) :: old(rows)[id]
    {
      hide Inv;
      OpKeepsInv(Abs(), ReleaseStale(profile, session, olderThan));
      var stale := set id | id in rows && Within(rows[id], profile, session) && rows[id].updatedAt <= olderThan;
      count := |stale|;
      RemovedCount(rows, stale);
      rows := map id | id in rows && id !in stale :: rows[id];
      assert Abs() == Apply(old(Abs()), ReleaseStale(profile, session, olderThan));
    }
  }

  /** The poll in columns. */
  lemma StartColumns(q: Queue, id: int, p: string, s: string, token: int, now: int)
    ensures var op := TryStart(id, p, s, token, now);
            && (Matches(q, op) <==> !SomethingRuns(q, p, s) && IsNext(q, id, p, s) && Owns(q, id, token))
            && (Matches(q, op) <==>
                  && id in q.rows && q.rows[id].token == token && q.rows[id].profile == p && q.rows[id].session == s && !q.rows[id].running
                  && forall other | other in q.rows && q.rows[other].profile == p && q.rows[other].session == s ::
                       !q.rows[other].running && id <= other)
  {
  }

  lemma NextQueued(q: Queue, id: int, p: string, s: string)
    ensures SomethingRuns(q, p, s) <==> exists other | other in q.rows :: Within(q.rows[other], p, s) && q.rows[other].running
    ensures IsNext(q, id, p, s) ==> id in q.rows && Within(q.rows[id], p, s) && !q.rows[id].running
  {
  }

  lemma LeastIsNext(q: Queue, queued: set<int>, next: int, id: int, p: string, s: string)
    requires queued == set other | other in q.rows && Within(q.rows[other], p, s) && !q.rows[other].running
    requires IsLeast(queued, Increasing, next)
    ensures IsNext(q, id, p, s) <==> id == next
  {
    forall other | other in q.rows && Within(q.rows[other], p, s) && !q.rows[other].running ensures next <= other {
      assert other in queued;
      if other != next { assert LexLess(Increasing(next), Increasing(other)); }
    }
    assert next in queued;
    if IsNext(q, id, p, s) { assert id in queued; }
  }

  lemma RemovedCount(rows: map<int, Item>, stale: set<int>)
    requires stale <= rows.Keys
    ensures |map id | id in rows && id !in stale :: rows[id]| == |rows| - |stale|
  {
    var rest := map id | id in rows && id !in stale :: rows[id];
    assert rest.Keys == rows.Keys - stale;
  }
}
