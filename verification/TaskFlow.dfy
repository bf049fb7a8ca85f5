/** The task repository as an object over its table, the runs of its statements, and what they
    guarantee: one active task per executor, and claim tokens that fence out stale workers. */
module TaskFlow {
  import opened Ordering
  import opened TaskRows
  import opened TaskScheduler

  /** The table, and every claim token ever handed out. */
  datatype Board = Board(tasks: map<int, Task>, used: set<int>)

  datatype Op =
    | Create(row: Task)
    | Delete(profile: string, id: int)
    | Update(profile: string, id: int, edit: Edit, now: int)
    | Claim(now: int, lease: int, token: int, worker: string, scope: Option<string>, ref: Option<string>)
    | ClaimSelected(id: int, charge: Charge, source: Status, now: int, lease: int, token: int, worker: string)
    | Start(id: int, token: int, at: int)
    | Refresh(id: int, token: int, lease: int)
    | Expire(id: int, token: int, now: int, readyAt: Option<int>, status: Status, error: Option<string>)
    | Finalize(id: int, token: int, status: Status, finishedAt: int, readyAt: Option<int>, run: Option<int>,
               error: Option<string>, blockedCode: Option<string>)
    | Release(id: int, token: int, readyAt: Option<int>, status: Status, error: Option<string>)
    | Clear(id: int, token: int, run: Option<int>)
    | Attach(id: int, token: int, run: Option<int>)

  ghost predicate Inv(b: Board) {
    TaskRows.Inv(b.tasks) && Indexed(b.tasks) && forall id | id in b.tasks && b.tasks[id].token.Some? :: b.tasks[id].token.value in b.used
  }

  ghost function Chosen(tasks: map<int, Task>, now: int, scope: Option<string>, ref: Option<string>): (choice: Option<int>)
    requires Keyed(tasks)
    ensures choice.None? <==> Runnable(tasks, now, scope, ref) == {}
    ensures choice.Some? ==> IsChoice(tasks, Runnable(tasks, now, scope, ref), choice.value)
  {
    var ids := Runnable(tasks, now, scope, ref);
    if ids == {} then None
    else
      assert exists id :: IsChoice(tasks, ids, id) by { var id := ChoiceExists(tasks, ids); }
      var id :| IsChoice(tasks, ids, id);
      Some(id)
  }

  predicate HasExpired(t: Task, now: int) { t.leaseUntil.Some? && t.leaseUntil.value <= now }

  /** Does the statement take effect: does its WHERE clause match a row, and do the indexes admit what it
      writes?  `Claim` is SELECT and UPDATE in one step, `ClaimSelected` the UPDATE alone, with the
      candidate, executor and status that some SELECT returned at any earlier time. */
  ghost predicate Matches(b: Board, op: Op)
    requires Keyed(b.tasks)
  {
    match op
    case Create(row) => row.id !in b.tasks && !Rejected(b.tasks, row)
    case Delete(profile, id) => id in b.tasks && b.tasks[id].profile == profile
    case Update(profile, id, edit, now) =>
      id in b.tasks && b.tasks[id].profile == profile && !Rejected(b.tasks, EditedRow(b.tasks[id], edit, now))
    case Claim(now, lease, token, worker, scope, ref) =>
      var choice := Chosen(b.tasks, now, scope, ref);
      choice.Some? && var t := b.tasks[choice.value]; !Rejected(b.tasks, ClaimedRow(t, ClaimCharge(t), t.status, token, worker, lease))
    case ClaimSelected(id, charge, source, now, lease, token, worker) =>
      && id in b.tasks && UpdateGuard(b.tasks[id], charge, now)
      && !Rejected(b.tasks, ClaimedRow(b.tasks[id], charge, source, token, worker, lease))
    case Start(id, token, _) => Holds(b.tasks, id, token) && b.tasks[id].status == Claimed
    case Refresh(id, token, _) => HoldsActive(b.tasks, id, token)
    case Expire(id, token, now, _, _, _) => HoldsActive(b.tasks, id, token) && HasExpired(b.tasks[id], now)
    case Finalize(id, token, _, _, _, _, _, _) => HoldsActive(b.tasks, id, token)
    case Release(id, token, _, _, _) => HoldsActive(b.tasks, id, token)
    case Clear(id, token, _) => Holds(b.tasks, id, token)
    case Attach(id, token, _) => Holds(b.tasks, id, token)
  }

  ghost function Apply(b: Board, op: Op): Board
    requires Keyed(b.tasks)
  {
    if !Matches(b, op) then b
    else
      match op
      case Create(row) => b.(tasks := b.tasks[row.id := row])
      case Delete(_, id) => b.(tasks := b.tasks - {id})
      case Update(_, id, edit, now) => Put(b, EditedRow(b.tasks[id], edit, now))
      case Claim(now, lease, token, worker, scope, ref) =>
        var t := b.tasks[Chosen(b.tasks, now, scope, ref).value];
        Put(b, ClaimedRow(t, ClaimCharge(t), t.status, token, worker, lease)).(used := b.used + {token})
      case ClaimSelected(id, charge, source, now, lease, token, worker) =>
        Put(b, ClaimedRow(b.tasks[id], charge, source, token, worker, lease)).(used := b.used + {token})
      case Start(id, _, at) => Put(b, StartedRow(b.tasks[id], at))
      case Refresh(id, _, lease) => Put(b, b.tasks[id].(leaseUntil := Some(lease)))
      case Expire(id, _, _, readyAt, status, error) => Put(b, ReleasedRow(b.tasks[id], status, readyAt, error))
      case Finalize(id, _, status, finishedAt, readyAt, run, error, code) =>
        Put(b, FinalizedRow(b.tasks[id], status, finishedAt, readyAt, run, error, code))
      case Release(id, _, readyAt, status, error) => Put(b, ReleasedRow(b.tasks[id], status, readyAt, error))
      case Clear(id, _, run) => Put(b, ClearedRow(b.tasks[id], run))
      case Attach(id, _, run) => Put(b, b.tasks[id].(lastRun := run))
  }

  function Put(b: Board, row: Task): Board { b.(tasks := b.tasks[row.id := row]) }

  /** What callers owe: fresh tokens and row ids, claims for an employee, closing statuses that are not
      active, and no clear of an active task. */
  ghost predicate Allowed(b: Board, op: Op) {
    match op
    case Create(row) => row == Unclaimed(row) && !IsActive(row.status)
    case Update(_, id, edit, _) =>
      edit.status.None? || !IsActive(edit.status.value) || (id in b.tasks && IsActive(b.tasks[id].status))
    case Claim(_, _, token, _, _, _) => token !in b.used
    case ClaimSelected(_, charge, _, _, _, token, _) => token !in b.used && charge.kind == Employee && charge.ref != ""
    case Expire(_, _, _, _, status, _) => !IsActive(status)
    case Finalize(_, _, status, _, _, _, _, _) => !IsActive(status)
    case Release(_, _, _, status, _) => !IsActive(status)
    case Clear(id, token, _) => !HoldsActive(b.tasks, id, token)
    case _ => true
  }

  /** Claiming through the SELECT is claiming the choice for its executor. */
  lemma ClaimIsSelectedClaim(b: Board, now: int, lease: int, token: int, worker: string, scope: Option<string>, ref: Option<string>, id: int)
    requires Keyed(b.tasks) && IsChoice(b.tasks, Runnable(b.tasks, now, scope, ref), id)
    ensures id in b.tasks && UpdateGuard(b.tasks[id], ClaimCharge(b.tasks[id]), now)
    ensures var selected := ClaimSelected(id, ClaimCharge(b.tasks[id]), b.tasks[id].status, now, lease, token, worker);
            && Apply(b, Claim(now, lease, token, worker, scope, ref)) == Apply(b, selected)
            && (Matches(b, Claim(now, lease, token, worker, scope, ref)) <==> Matches(b, selected))
  {
    var ids := Runnable(b.tasks, now, scope, ref);
    ChoiceIsOptimal(b.tasks, ids, id);
    ChosenIs(b.tasks, now, scope, ref, id);
  }

  /** A runnable choice is claimed if and only if its owner has no other active task. */
  lemma ChoiceIsClaimedIff(b: Board, now: int, lease: int, token: int, worker: string, scope: Option<string>, ref: Option<string>, id: int)
    requires Inv(b) && IsChoice(b.tasks, Runnable(b.tasks, now, scope, ref), id)
    ensures id in b.tasks && UpdateGuard(b.tasks[id], ClaimCharge(b.tasks[id]), now)
    ensures ClaimCharge(b.tasks[id]).kind == Employee && ClaimCharge(b.tasks[id]).ref != ""
    ensures Matches(b, Claim(now, lease, token, worker, scope, ref)) <==> !OwnerTaken(b.tasks, id)
    ensures Apply(b, Claim(now, lease, token, worker, scope, ref)) ==
            Apply(b, ClaimSelected(id, ClaimCharge(b.tasks[id]), b.tasks[id].status, now, lease, token, worker))
    ensures Matches(b, ClaimSelected(id, ClaimCharge(b.tasks[id]), b.tasks[id].status, now, lease, token, worker)) <==> !OwnerTaken(b.tasks, id)
  {
    ClaimIsSelectedClaim(b, now, lease, token, worker, scope, ref, id);
    ChoiceIsOptimal(b.tasks, Runnable(b.tasks, now, scope, ref), id);
    ClaimRejectedIff(b.tasks, id, b.tasks[id].status, token, worker, lease, now);
  }

  lemma ChosenIs(tasks: map<int, Task>, now: int, scope: Option<string>, ref: Option<string>, id: int)
    requires Keyed(tasks) && IsChoice(tasks, Runnable(tasks, now, scope, ref), id)
    ensures Chosen(tasks, now, scope, ref) == Some(id)
  {
    var ids := Runnable(tasks, now, scope, ref);
    ChoiceIsOptimal(tasks, ids, id);
    LeastUnique(Heads(tasks, ids), GlobalKey(tasks), id, Chosen(tasks, now, scope, ref).value);
  }

  /** A claim, however old its SELECT, keeps the invariant, because the indexes refuse the busy executor. */
  lemma SelectedClaimKeepsInv(b: Board, op: Op)
    requires Inv(b) && Allowed(b, op) && op.ClaimSelected? && Matches(b, op)
    ensures Inv(Apply(b, op))
  {
    var t := b.tasks[op.id];
    var row := ClaimedRow(t, op.charge, op.source, op.token, op.worker, op.lease);
    assert row == ClaimedRow(t, ClaimCharge(t), op.source, op.token, op.worker, op.lease);
    ClaimRejectedIff(b.tasks, op.id, op.source, op.token, op.worker, op.lease, op.now);
    ClaimKeepsInv(b.tasks, op.id, op.source, op.token, op.worker, op.lease, op.now);
    RejectedIff(b.tasks, row);
  }

  /** Closing and touching statements write rows the indexes never refuse, so the database cannot turn them
      down: the indexes hold after every statement, whatever its callers owe. */
  lemma OpKeepsIndexed(b: Board, op: Op)
    requires Inv(b)
    ensures Indexed(Apply(b, op).tasks)
  {
    if Matches(b, op) {
      match op
      case Create(row) => RejectedIff(b.tasks, row);
      case Delete(_, _) =>
      case Update(_, id, edit, now) => RejectedIff(b.tasks, EditedRow(b.tasks[id], edit, now));
      case Claim(now, lease, token, worker, scope, ref) =>
        var t := b.tasks[Chosen(b.tasks, now, scope, ref).value];
        RejectedIff(b.tasks, ClaimedRow(t, ClaimCharge(t), t.status, token, worker, lease));
      case ClaimSelected(id, charge, source, now, lease, token, worker) =>
        RejectedIff(b.tasks, ClaimedRow(b.tasks[id], charge, source, token, worker, lease));
      case Start(id, _, at) => RewriteIsAccepted(b.tasks, StartedRow(b.tasks[id], at));
      case Refresh(id, _, lease) => RewriteIsAccepted(b.tasks, b.tasks[id].(leaseUntil := Some(lease)));
      case Expire(id, _, _, readyAt, status, error) =>
        RewriteIsAccepted(b.tasks, ReleasedRow(b.tasks[id], status, readyAt, error));
      case Finalize(id, _, status, finishedAt, readyAt, run, error, code) =>
        RewriteIsAccepted(b.tasks, FinalizedRow(b.tasks[id], status, finishedAt, readyAt, run, error, code));
      case Release(id, _, readyAt, status, error) =>
        RewriteIsAccepted(b.tasks, ReleasedRow(b.tasks[id], status, readyAt, error));
      case Clear(id, _, run) => RewriteIsAccepted(b.tasks, ClearedRow(b.tasks[id], run));
      case Attach(id, _, run) => RewriteIsAccepted(b.tasks, b.tasks[id].(lastRun := run));
    }
  }

  lemma OpKeepsInv(b: Board, op: Op)
    requires Inv(b) && Allowed(b, op)
    ensures Inv(Apply(b, op))
  {
    OpKeepsIndexed(b, op);
    if Matches(b, op) {
      match op
      case Create(row) => UnclaimedRowKeepsInvIff(b.tasks, row.id, row);
      case Delete(_, _) =>
      case Update(_, id, edit, now) => UpdateKeepsInvIff(b.tasks, id, edit, now);
      case Claim(now, lease, token, worker, scope, ref) =>
        var id := Chosen(b.tasks, now, scope, ref).value;
        ClaimIsSelectedClaim(b, now, lease, token, worker, scope, ref, id);
        SelectedClaimKeepsInv(b, ClaimSelected(id, ClaimCharge(b.tasks[id]), b.tasks[id].status, now, lease, token, worker));
      case ClaimSelected(_, _, _, _, _, _, _) => SelectedClaimKeepsInv(b, op);
      case Start(id, _, at) => SameClaimKeepsInv(b.tasks, id, StartedRow(b.tasks[id], at));
      case Refresh(id, _, lease) => SameClaimKeepsInv(b.tasks, id, b.tasks[id].(leaseUntil := Some(lease)));
      case Expire(id, _, _, readyAt, status, error) =>
        UnclaimedRowKeepsInvIff(b.tasks, id, ReleasedRow(b.tasks[id], status, readyAt, error));
      case Finalize(id, _, status, finishedAt, readyAt, run, error, code) =>
        UnclaimedRowKeepsInvIff(b.tasks, id, FinalizedRow(b.tasks[id], status, finishedAt, readyAt, run, error, code));
      case Release(id, _, readyAt, status, error) =>
        UnclaimedRowKeepsInvIff(b.tasks, id, ReleasedRow(b.tasks[id], status, readyAt, error));
      case Clear(id, token, run) => ClearAfterFailedFinalizeIsIdle(b.tasks, id, token);
      case Attach(id, _, run) => SameClaimKeepsInv(b.tasks, id, b.tasks[id].(lastRun := run));
    }
  }

  // ----- runs -----

  ghost function Run(b: Board, ops: seq<Op>): Board
    decreases |ops|
  {
    if ops == [] then b
    else
      var before := Run(b, ops[..|ops| - 1]);
      if Keyed(before.tasks) && Allowed(before, ops[|ops| - 1]) then Apply(before, ops[|ops| - 1]) else before
  }

  lemma {:induction false} RunKeepsInv(b: Board, ops: seq<Op>)
    requires Inv(b)
    ensures Inv(Run(b, ops))
    decreases |ops|
  {
    if ops != [] {
      var before := Run(b, ops[..|ops| - 1]);
      RunKeepsInv(b, ops[..|ops| - 1]);
      if Allowed(before, ops[|ops| - 1]) { OpKeepsInv(before, ops[|ops| - 1]); }
    }
  }

  /** In every reachable state, two claimed or running tasks never share profile and executor, whatever
      was claimed, edited, finalized, released or swept in between, and however old the SELECT behind a claim. */
  lemma NoExecutorWorksTwice(ops: seq<Op>, a: int, c: int)
    requires var tasks := Run(Board(map[], {}), ops).tasks;
             && a in tasks && c in tasks && IsActive(tasks[a].status) && IsActive(tasks[c].status)
             && ActiveCharge(tasks[a]) == ActiveCharge(tasks[c])
    ensures a == c
  {
    RunKeepsInv(Board(map[], {}), ops);
  }

  /** Editing the owner or the reviewer of a task that is being worked on moves no charge. */
  lemma EditsMoveNoCharge(tasks: map<int, Task>, id: int, edit: Edit, now: int)
    requires TaskRows.Inv(tasks) && id in tasks && IsActive(tasks[id].status)
    requires edit.status.None? || IsActive(edit.status.value)
    ensures ActiveCharge(EditedRow(tasks[id], edit, now)) == ActiveCharge(tasks[id])
    ensures forall c :: IsBusy(tasks[id := EditedRow(tasks[id], edit, now)], c) <==> IsBusy(tasks, c)
  {
    var after := tasks[id := EditedRow(tasks[id], edit, now)];
    assert IsActive(after[id].status);
    forall c ensures IsBusy(after, c) <==> IsBusy(tasks, c) {
      if IsBusy(tasks, c) {
        var other :| other in tasks && IsActive(tasks[other].status) && ActiveCharge(tasks[other]) == c;
        assert IsActive(after[other].status) && ActiveCharge(after[other]) == c;
      }
    }
  }

  // ----- fencing -----

  ghost predicate Alive(b: Board, token: int) { exists id :: Holds(b.tasks, id, token) }

  function TokenOf(op: Op): Option<int> {
    match op
    case Create(_) => None
    case Delete(_, _) => None
    case Update(_, _, _, _) => None
    case Claim(_, _, _, _, _, _) => None
    case ClaimSelected(_, _, _, _, _, _, _) => None
    case Start(_, token, _) => Some(token)
    case Refresh(_, token, _) => Some(token)
    case Expire(_, token, _, _, _, _) => Some(token)
    case Finalize(_, token, _, _, _, _, _, _) => Some(token)
    case Release(_, token, _, _, _) => Some(token)
    case Clear(_, token, _) => Some(token)
    case Attach(_, token, _) => Some(token)
  }

  predicate Closes(op: Op) { op.Expire? || op.Finalize? || op.Release? }

  /** A used token that no row holds never comes back, and every call with it changes nothing. */
  lemma {:induction false} DeadTokensStayDead(b: Board, ops: seq<Op>, token: int)
    requires Inv(b) && token in b.used && !Alive(b, token)
    ensures token in Run(b, ops).used && !Alive(Run(b, ops), token)
    ensures Keyed(Run(b, ops).tasks)
    ensures forall op: Op | TokenOf(op) == Some(token) :: Apply(Run(b, ops), op) == Run(b, ops) && !Matches(Run(b, ops), op)
    decreases |ops|
  {
    RunKeepsInv(b, ops);
    if ops != [] {
      var before, op := Run(b, ops[..|ops| - 1]), ops[|ops| - 1];
      DeadTokensStayDead(b, ops[..|ops| - 1], token);
      RunKeepsInv(b, ops[..|ops| - 1]);
      if Allowed(before, op) { StaysDead(before, op, token); }
    }
    StaleCallsMatchNothing(Run(b, ops), token);
  }

  lemma StaleCallsMatchNothing(b: Board, token: int)
    requires Keyed(b.tasks) && !Alive(b, token)
    ensures forall op: Op | TokenOf(op) == Some(token) :: Apply(b, op) == b && !Matches(b, op)
  {
    forall op: Op | TokenOf(op) == Some(token) ensures !Matches(b, op) {
      forall id ensures !Holds(b.tasks, id, token) {}
    }
  }

  lemma StaysDead(b: Board, op: Op, token: int)
    requires Inv(b) && Allowed(b, op) && token in b.used && !Alive(b, token)
    ensures token in Apply(b, op).used && !Alive(Apply(b, op), token)
  {
    var after := Apply(b, op);
    if Matches(b, op) {
      forall id ensures !Holds(after.tasks, id, token) {
        assert !Holds(b.tasks, id, token);
        if op.Claim? {
          ChoiceIsOptimal(b.tasks, Runnable(b.tasks, op.now, op.scope, op.ref), Chosen(b.tasks, op.now, op.scope, op.ref).value);
        }
      }
    }
  }

  lemma CloseKillsToken(b: Board, op: Op)
    requires Inv(b) && Allowed(b, op) && Closes(op) && Matches(b, op)
    ensures TokenOf(op).value in Apply(b, op).used && !Alive(Apply(b, op), TokenOf(op).value)
  {
    var after, token := Apply(b, op), TokenOf(op).value;
    assert Holds(b.tasks, op.id, token);
    forall id ensures !Holds(after.tasks, id, token) {}
  }

  /** How often a claim was closed by finalize, release or the expiry sweep. */
  ghost function Closings(b: Board, ops: seq<Op>, token: int): nat
    decreases |ops|
  {
    if ops == [] then 0
    else
      var before, op := Run(b, ops[..|ops| - 1]), ops[|ops| - 1];
      Closings(b, ops[..|ops| - 1], token) +
      (if Keyed(before.tasks) && Allowed(before, op) && Closes(op) && TokenOf(op) == Some(token) && Matches(before, op) then 1 else 0)
  }

  /** Every claim is closed at most once in the whole life of the table. */
  lemma {:induction false} ClosedAtMostOnce(b: Board, ops: seq<Op>, token: int)
    requires Inv(b)
    ensures Closings(b, ops, token) <= 1
    ensures Closings(b, ops, token) == 1 ==> token in Run(b, ops).used && !Alive(Run(b, ops), token)
    decreases |ops|
  {
    if ops != [] {
      var before, op := Run(b, ops[..|ops| - 1]), ops[|ops| - 1];
      ClosedAtMostOnce(b, ops[..|ops| - 1], token);
      RunKeepsInv(b, ops[..|ops| - 1]);
      if Allowed(before, op) {
        if token in before.used && !Alive(before, token) {
          StaleCallsMatchNothing(before, token);
          StaysDead(before, op, token);
        } else if Closes(op) && TokenOf(op) == Some(token) && Matches(before, op) {
          CloseKillsToken(before, op);
        }
      }
    }
  }

  /** A heartbeat past the sweep's clock makes the sweep's release of that claim fail, whatever anybody else
      does in between, as long as the claim's own later heartbeats lie past the clock too. */
  lemma {:induction false} HeartbeatDefeatsSweep(b: Board, ops: seq<Op>, id: int, token: int, now: int)
    requires Inv(b) && HoldsActive(b.tasks, id, token) && !HasExpired(b.tasks[id], now)
    requires forall i | 0 <= i < |ops| :: ops[i].Refresh? && ops[i].token == token ==> ops[i].lease > now
    ensures Keyed(Run(b, ops).tasks) && token in Run(b, ops).used
    ensures forall readyAt, status, error :: !Matches(Run(b, ops), Expire(id, token, now, readyAt, status, error))
    decreases |ops|
  {
    LeaseStaysAhead(b, ops, id, token, now);
    RunKeepsInv(b, ops);
  }

  lemma {:induction false} LeaseStaysAhead(b: Board, ops: seq<Op>, id: int, token: int, now: int)
    requires Inv(b) && HoldsActive(b.tasks, id, token) && !HasExpired(b.tasks[id], now)
    requires forall i | 0 <= i < |ops| :: ops[i].Refresh? && ops[i].token == token ==> ops[i].lease > now
    ensures token in Run(b, ops).used
    ensures HoldsActive(Run(b, ops).tasks, id, token) ==> !HasExpired(Run(b, ops).tasks[id], now)
    decreases |ops|
  {
    if ops != [] {
      var before, op := Run(b, ops[..|ops| - 1]), ops[|ops| - 1];
      LeaseStaysAhead(b, ops[..|ops| - 1], id, token, now);
      RunKeepsInv(b, ops[..|ops| - 1]);
      if Allowed(before, op) {
        assert op.Refresh? && op.token == token ==> op.lease > now;
        LeaseStep(before, op, id, token, now);
      }
    }
  }

  lemma LeaseStep(b: Board, op: Op, id: int, token: int, now: int)
    requires Inv(b) && Allowed(b, op) && token in b.used && (op.Refresh? && op.token == token ==> op.lease > now)
    requires HoldsActive(b.tasks, id, token) ==> !HasExpired(b.tasks[id], now)
    ensures token in Apply(b, op).used
    ensures HoldsActive(Apply(b, op).tasks, id, token) ==> !HasExpired(Apply(b, op).tasks[id], now)
  {
    if Matches(b, op) && op.Claim? {
      ChoiceIsOptimal(b.tasks, Runnable(b.tasks, op.now, op.scope, op.ref), Chosen(b.tasks, op.now, op.scope, op.ref).value);
    }
  }

  // ----- leases, from the calls that set them -----

  predicate SetsLease(op: Op) { op.Claim? || op.ClaimSelected? || op.Refresh? }

  /** The claim or heartbeat took effect on this row. */
  ghost predicate LeasedRow(b: Board, op: Op, id: int)
    requires Keyed(b.tasks) && SetsLease(op)
  {
    Matches(b, op) && (if op.Claim? then Chosen(b.tasks, op.now, op.scope, op.ref) == Some(id) else op.id == id)
  }

  lemma LeaseIsSet(b: Board, op: Op, id: int)
    requires Inv(b) && Allowed(b, op) && SetsLease(op) && LeasedRow(b, op, id)
    ensures Inv(Apply(b, op)) && HoldsActive(Apply(b, op).tasks, id, op.token) && Apply(b, op).tasks[id].leaseUntil == Some(op.lease)
  {
    OpKeepsInv(b, op);
    if op.Claim? { ChoiceIsOptimal(b.tasks, Runnable(b.tasks, op.now, op.scope, op.ref), id); }
  }

  /** Right after a successful claim or heartbeat the sweep can release the claim exactly from the end of the lease
      that was asked for on. */
  lemma SweptFromLeaseOn(b: Board, op: Op, id: int, now: int, readyAt: Option<int>, status: Status, error: Option<string>)
    requires Inv(b) && Allowed(b, op) && SetsLease(op) && LeasedRow(b, op, id)
    ensures Keyed(Apply(b, op).tasks) && (Matches(Apply(b, op), Expire(id, op.token, now, readyAt, status, error)) <==> op.lease <= now)
  {
    LeaseIsSet(b, op, id);
  }

  /** And no sweep before that end releases it, whatever run follows, while its own heartbeats ask for no less. */
  lemma LeaseIsKept(b: Board, op: Op, id: int, ops: seq<Op>, now: int)
    requires Inv(b) && Allowed(b, op) && SetsLease(op) && LeasedRow(b, op, id) && now < op.lease
    requires forall i | 0 <= i < |ops| :: ops[i].Refresh? && ops[i].token == op.token ==> ops[i].lease > now
    ensures Keyed(Run(Apply(b, op), ops).tasks)
    ensures forall readyAt, status, error :: !Matches(Run(Apply(b, op), ops), Expire(id, op.token, now, readyAt, status, error))
  {
    LeaseIsSet(b, op, id);
    HeartbeatDefeatsSweep(Apply(b, op), ops, id, op.token, now);
  }
}
