/** `TaskFlowRepository` as an object that updates its table in place, each method tied to the
    statement it executes, and the runtime's sweep over expired claims. */
module TaskRepository {
  import opened Ordering
  import opened TaskRows
  import opened TaskScheduler
  import opened TaskFlow
  import opened TaskEligibility

  ghost function ExpiredIds(tasks: map<int, Task>, now: int, scope: Option<string>, ref: Option<string>): set<int> {
    set id | id in tasks && IsExpired(tasks[id], now, scope, ref)
  }

  predicate IsExpired(t: Task, now: int, scope: Option<string>, ref: Option<string>) {
    && ActiveCharge(t).kind == Employee && IsActive(t.status) && t.token.Some? && HasExpired(t, now)
    && (scope.None? || t.profile == scope.value) && (ref.None? || ActiveCharge(t).ref == ref.value)
  }

  /** `_claim_release_status`: an expired review goes back to review, everything else to todo. */
  function ReleaseStatus(t: Task): Status { if t.claimSource == Some(Review) then Review else Todo }

  function SweptRow(t: Task, now: int): Task {
    ReleasedRow(t, ReleaseStatus(t), if ReleaseStatus(t) == Review then None else Some(now), Some("task_lease_expired"))
  }

  /** A claim of the scope whose lease has run out, in columns. */
  predicate LeaseRanOut(t: Task, now: int, scope: Option<string>, ref: Option<string>) {
    && (t.status == Claimed || t.status == Running) && t.leaseUntil.Some? && t.leaseUntil.value <= now
    && (scope.None? || scope.value == t.profile) && (ref.None? || t.claimRef == Some(ref.value))
  }

  /** What the sweep leaves: a review goes back to review, other work to todo, ready at once; the claim is gone and
      everything else stays. */
  predicate IsBackInLine(t: Task, u: Task, now: int) {
    u == t.(status := if t.claimSource == Some(Review) then Review else Todo,
            readyAt := if t.claimSource == Some(Review) then None else Some(now),
            lastError := Some("task_lease_expired"), startedAt := None, blockedCode := None, finishedAt := None,
            token := None, claimKind := None, claimRef := None, claimSource := None, claimedBy := None, leaseUntil := None)
  }

  function Swept(tasks: map<int, Task>, ids: set<int>, now: int): map<int, Task> {
    map id | id in tasks :: if id in ids then SweptRow(tasks[id], now) else tasks[id]
  }

  /** Sweeping an expired claim frees the row; the task is claimable again, charged to the same executor, if
      and only if the claim recorded review work as such, or owner and reviewer are the same employee.  A
      claim whose SELECT and UPDATE saw the same row always does. */
  lemma SweepUndoesClaimIff(t: Task, source: Status, token: int, worker: string, lease: int, now: int, later: int)
    requires IsCandidate(t, now)
    ensures var swept := SweptRow(ClaimedRow(t, ClaimCharge(t), source, token, worker, lease), later);
            && swept == Unclaimed(swept)
            && (IsCandidate(swept, later) && ClaimCharge(swept) == ClaimCharge(t) <==>
                (source == Review <==> t.status == Review) || ClaimCharge(t.(status := Todo)) == ClaimCharge(t.(status := Review)))
  {
  }

  // ----- when the SELECT ran before the write gate was taken -----

  /** The claiming UPDATE with a candidate an earlier SELECT returned for some executor: whatever happened since,
      its own guard keeps one active task per executor if and only if the executor is idle when it runs, and
      the indexes refuse it exactly when the executor is busy or the owner's other task is active. */
  lemma LateClaimKeepsInvIff(tasks: map<int, Task>, id: int, charge: Charge, source: Status, now: int, token: int, worker: string, lease: int)
    requires TaskRows.Inv(tasks) && id in tasks && (forall other | other in tasks :: tasks[other].token != Some(token))
    requires charge.kind == Employee && charge.ref != "" && charge.profile == tasks[id].profile
    requires UpdateGuard(tasks[id], charge, now)
    ensures var row := ClaimedRow(tasks[id], charge, source, token, worker, lease);
            && (TaskRows.Inv(tasks[id := row]) <==> !IsBusy(tasks, charge))
            && (Rejected(tasks, row) <==> IsBusy(tasks, charge) || OwnerTaken(tasks, id))
  {
    assert charge == ClaimCharge(tasks[id]);
    ClaimKeepsInv(tasks, id, source, token, worker, lease, now);
    ClaimRejectedIff(tasks, id, source, token, worker, lease, now);
  }

  /** Of two claims for one executor whose SELECTs both ran before either UPDATE, the second never takes
      effect: for the same task its guard fails, for another task the guard holds and the index refuses. */
  lemma LateClaimsExclude(b: Board, first: Op, second: Op)
    requires TaskFlow.Inv(b) && first.ClaimSelected? && second.ClaimSelected? && first.charge == second.charge
    requires Allowed(b, first) && Matches(b, first) && Matches(b, second)
    requires b.tasks[first.id].profile == b.tasks[second.id].profile
    ensures !Matches(Apply(b, first), second)
    ensures UpdateGuard(Apply(b, first).tasks[second.id], second.charge, second.now) <==> first.id != second.id
  {
    var after := Apply(b, first);
    if first.id != second.id {
      assert ClaimClash(after.tasks[first.id], ClaimedRow(after.tasks[second.id], second.charge, second.source, second.token, second.worker, second.lease));
    }
  }

  lemma SelectedClaimHolds(b: Board, op: Op)
    requires TaskFlow.Inv(b) && op.ClaimSelected?
    ensures if Matches(b, op) then HoldsActive(Apply(b, op).tasks, op.id, op.token) && Apply(b, op).tasks[op.id].id == op.id
            else Apply(b, op) == b
  {
  }

  class TaskTable {
    var tasks: map<int, Task>
    ghost var used: set<int>

    ghost function Abs(): Board
      reads this
    {
      Board(tasks, used)
    }

    ghost predicate Valid()
      reads this
    {
      TaskFlow.Inv(Abs())
    }

    constructor ()
      ensures Valid() && Abs() == Board(map[], {})
    {
      tasks := map[];
      used := {};
    }

    /** `create_task` writes no claim fields; a taken id and a taken owner are IntegrityErrors. */
    method CreateTask(row: Task) returns (ok: bool)
      requires Valid() && row == Unclaimed(row)
      modifies this
      ensures Abs() == Apply(old(Abs()), Create(row))
      ensures tasks == if ok then old(tasks)[row.id := row] else old(tasks)
      ensures ok <==> row.id !in old(tasks) && !Duplicates(old(tasks), row)
      ensures !IsActive(row.status) ==> !Rejected(old(tasks), row)
      ensures Valid() <==> !ok || !IsActive(row.status)
    {
      ok := row.id !in tasks && !Rejected(tasks, row);
      RejectedMeans(tasks, row);
      if ok {
        RejectedIff(tasks, row);
        UnclaimedRowKeepsInvIff(tasks, row.id, row);
        tasks := tasks[row.id := row];
      }
    }

    method DeleteTask(profile: string, id: int) returns (ok: bool)
      requires Valid()
      modifies this
      ensures Valid() && Abs() == Apply(old(Abs()), Delete(profile, id))
      ensures ok <==> id in old(tasks) && old(tasks)[id].profile == profile
      ensures tasks == if ok then old(tasks) - {id} else old(tasks)
    {
      ok := id in tasks && tasks[id].profile == profile;
      if ok { tasks := tasks - {id}; }
    }

    /** The UPDATE re-checks what the SELECT saw; the row it would have to re-check is the one chosen, so
        the first of the three attempts always matches.  The choice is claimed unless the unique index on the
        owner refuses it, an IntegrityError. */
    method ClaimNextRunnableTask(now: int, lease: int, token: int, worker: string, scope: Option<string>, ref: Option<string>)
        returns (claimed: Option<Task>, conflict: bool)
      requires Valid() && token !in used
      modifies this
      ensures Valid() && Abs() == Apply(old(Abs()), Claim(now, lease, token, worker, scope, ref))
      ensures claimed.None? && !conflict <==> Runnable(old(tasks), now, scope, ref) == {}
      ensures claimed.None? && !conflict ==>
                forall id | id in tasks && tasks[id].status == Todo && tasks[id].ownerKind == "employee" && tasks[id].ownerRef != ""
                            && (tasks[id].readyAt.None? || tasks[id].readyAt.value <= now)
                            && (scope.None? || scope.value == tasks[id].profile) && (ref.None? || ref.value == tasks[id].ownerRef) ::
                  AtWork(tasks, tasks[id].profile, tasks[id].ownerRef)
      ensures claimed.Some? ==>
                var id := claimed.value.id;
                && id in old(tasks) && IsDue(old(tasks), id, now)
                && tasks == old(tasks)[id := claimed.value] && used == old(used) + {token}
                && claimed.value == old(tasks)[id].(
                     status := Claimed, token := Some(token), claimKind := Some("employee"),
                     claimRef := Some(if old(tasks)[id].status == Review then ReviewerRef(old(tasks)[id]) else old(tasks)[id].ownerRef),
                     claimSource := Some(old(tasks)[id].status), claimedBy := Some(worker), leaseUntil := Some(lease), readyAt := None,
                     blockedCode := None, lastRun := None, lastError := None, startedAt := None, finishedAt := None)
      ensures claimed.Some? ==> HoldsActive(tasks, claimed.value.id, token) && tasks[claimed.value.id] == claimed.value
                                && IsChoice(old(tasks), Runnable(old(tasks), now, scope, ref), claimed.value.id)
                                && !OwnerTaken(old(tasks), claimed.value.id)
      ensures conflict ==> tasks == old(tasks) && claimed.None?
                           && exists id :: IsChoice(tasks, Runnable(tasks, now, scope, ref), id) && OwnerAtWorkElsewhere(tasks, id)
    {
      for attempt := 0 to 3
        invariant Valid() && tasks == old(tasks) && used == old(used)
        invariant attempt > 0 ==> Runnable(tasks, now, scope, ref) == {}
      {
        hide IsChoice, Runnable, UpdateGuard, OwnerTaken, TaskFlow.Inv, Apply, Matches, ClaimCharge;
        var choice := SelectNext(tasks, now, scope, ref);
        if choice.None? {
          NothingRunnableMeans(tasks, now, scope, ref);
          return None, false;
        }
        var id := choice.value;
        ChoiceIsClaimedIff(Abs(), now, lease, token, worker, scope, ref, id);
        ChoiceIsDue(tasks, now, scope, ref, id);
        OwnerTakenMeans(tasks, id);
        ClaimedColumns(tasks, id, now, token, worker, lease);
        ghost var op := ClaimSelected(id, ClaimCharge(tasks[id]), tasks[id].status, now, lease, token, worker);
        SelectedClaimHolds(Abs(), op);
        var ok;
        ok, conflict := ClaimSelectedTask(id, ClaimCharge(tasks[id]), tasks[id].status, now, lease, token, worker);
        if ok { return Some(tasks[id]), false; }
        if conflict { return None, true; }
      }
      NothingRunnableMeans(tasks, now, scope, ref);
      return None, false;
    }

    /** The claiming UPDATE alone, with candidate, executor and status from any earlier SELECT. */
    method ClaimSelectedTask(id: int, charge: Charge, source: Status, now: int, lease: int, token: int, worker: string) returns (ok: bool, conflict: bool)
      requires Valid() && token !in used && charge.kind == Employee && charge.ref != ""
      modifies this
      ensures Valid() && Abs() == Apply(old(Abs()), ClaimSelected(id, charge, source, now, lease, token, worker))
      ensures ok <==> Matches(old(Abs()), ClaimSelected(id, charge, source, now, lease, token, worker))
      ensures ok || conflict <==> id in old(tasks) && UpdateGuard(old(tasks)[id], charge, now)
      ensures conflict ==> Duplicates(tasks, ClaimedRow(tasks[id], charge, source, token, worker, lease))
      ensures ok ==> !Duplicates(old(tasks), ClaimedRow(old(tasks)[id], charge, source, token, worker, lease))
      ensures !(ok && conflict)
      ensures tasks == if ok then old(tasks)[id := ClaimedRow(old(tasks)[id], charge, source, token, worker, lease)] else old(tasks)
    {
      ghost var op := ClaimSelected(id, charge, source, now, lease, token, worker);
      OpKeepsInv(Abs(), op);
      if id !in tasks || !UpdateGuard(tasks[id], charge, now) { return false, false; }
      var row := ClaimedRow(tasks[id], charge, source, token, worker, lease);
      conflict := Rejected(tasks, row);
      RejectedMeans(tasks, row);
      ok := !conflict;
      if ok {
        tasks := tasks[id := row];
        used := used + {token};
      }
    }

    method MarkTaskStarted(id: int, token: int, at: int) returns (ok: bool)
      requires Valid()
      modifies this
      ensures Valid() && Abs() == Apply(old(Abs()), Start(id, token, at))
      ensures ok <==> id in old(tasks) && old(tasks)[id].token == Some(token) && old(tasks)[id].status == Claimed
      ensures tasks == if !ok then old(tasks) else
                old(tasks)[id := old(tasks)[id].(status := Running, startedAt := Some(at), attempt := old(tasks)[id].attempt + 1)]
    {
      OpKeepsInv(Abs(), Start(id, token, at));
      ok := Holds(tasks, id, token) && tasks[id].status == Claimed;
      if ok { tasks := tasks[id := StartedRow(tasks[id], at)]; }
    }

    method RefreshTaskClaim(id: int, token: int, lease: int) returns (ok: bool)
      requires Valid()
      modifies this
      ensures Valid() && Abs() == Apply(old(Abs()), Refresh(id, token, lease))
      ensures ok <==> id in old(tasks) && old(tasks)[id].token == Some(token)
                      && (old(tasks)[id].status == Claimed || old(tasks)[id].status == Running)
      ensures tasks == if !ok then old(tasks) else old(tasks)[id := old(tasks)[id].(leaseUntil := Some(lease))]
    {
      OpKeepsInv(Abs(), Refresh(id, token, lease));
      ok := HoldsActive(tasks, id, token);
      if ok { tasks := tasks[id := tasks[id].(leaseUntil := Some(lease))]; }
    }

    method ReleaseExpiredTaskClaim(id: int, token: int, now: int, readyAt: Option<int>, status: Status, error: Option<string>)
        returns (ok: bool)
      requires Valid()
      modifies this
      ensures Abs() == Apply(old(Abs()), Expire(id, token, now, readyAt, status, error))
      ensures ok <==> id in old(tasks) && old(tasks)[id].token == Some(token)
                      && (old(tasks)[id].status == Claimed || old(tasks)[id].status == Running)
                      && old(tasks)[id].leaseUntil.Some? && old(tasks)[id].leaseUntil.value <= now
      ensures tasks == if !ok then old(tasks) else old(tasks)[id := old(tasks)[id].(
                status := status, readyAt := readyAt, lastError := error, startedAt := None, blockedCode := None, finishedAt := None,
                token := None, claimKind := None, claimRef := None, claimSource := None, claimedBy := None, leaseUntil := None)]
      ensures Valid() <==> !ok || !IsActive(status)
    {
      ok := HoldsActive(tasks, id, token) && HasExpired(tasks[id], now);
      if ok {
        RewriteIsAccepted(tasks, ReleasedRow(tasks[id], status, readyAt, error));
        UnclaimedRowKeepsInvIff(tasks, id, ReleasedRow(tasks[id], status, readyAt, error));
        tasks := tasks[id := ReleasedRow(tasks[id], status, readyAt, error)];
      }
    }

    method FinalizeTaskClaim(id: int, token: int, status: Status, finishedAt: int, readyAt: Option<int>, run: Option<int>,
                             error: Option<string>, blockedCode: Option<string>) returns (ok: bool)
      requires Valid()
      modifies this
      ensures Abs() == Apply(old(Abs()), Finalize(id, token, status, finishedAt, readyAt, run, error, blockedCode))
      ensures ok <==> id in old(tasks) && old(tasks)[id].token == Some(token)
                      && (old(tasks)[id].status == Claimed || old(tasks)[id].status == Running)
      ensures tasks == if !ok then old(tasks) else old(tasks)[id := old(tasks)[id].(
                status := status, finishedAt := Some(finishedAt), readyAt := readyAt, lastError := error, blockedCode := blockedCode,
                lastRun := if run.Some? then run else old(tasks)[id].lastRun,
                token := None, claimKind := None, claimRef := None, claimSource := None, claimedBy := None, leaseUntil := None)]
      ensures Valid() <==> !ok || !IsActive(status)
    {
      ok := HoldsActive(tasks, id, token);
      if ok {
        var row := FinalizedRow(tasks[id], status, finishedAt, readyAt, run, error, blockedCode);
        RewriteIsAccepted(tasks, row);
        UnclaimedRowKeepsInvIff(tasks, id, row);
        tasks := tasks[id := row];
      }
    }

    method ReleaseTaskClaim(id: int, token: int, readyAt: Option<int>, status: Status, error: Option<string>) returns (ok: bool)
      requires Valid()
      modifies this
      ensures Abs() == Apply(old(Abs()), Release(id, token, readyAt, status, error))
      ensures ok <==> id in old(tasks) && old(tasks)[id].token == Some(token)
                      && (old(tasks)[id].status == Claimed || old(tasks)[id].status == Running)
      ensures tasks == if !ok then old(tasks) else old(tasks)[id := old(tasks)[id].(
                status := status, readyAt := readyAt, lastError := error, startedAt := None, blockedCode := None, finishedAt := None,
                token := None, claimKind := None, claimRef := None, claimSource := None, claimedBy := None, leaseUntil := None)]
      ensures Valid() <==> !ok || !IsActive(status)
    {
      ok := HoldsActive(tasks, id, token);
      if ok {
        RewriteIsAccepted(tasks, ReleasedRow(tasks[id], status, readyAt, error));
        UnclaimedRowKeepsInvIff(tasks, id, ReleasedRow(tasks[id], status, readyAt, error));
        tasks := tasks[id := ReleasedRow(tasks[id], status, readyAt, error)];
      }
    }

    /** Matches on the token alone: safe exactly when the token's row is not active. */
    method ClearTaskClaim(id: int, token: int, run: Option<int>) returns (ok: bool)
      requires Valid()
      modifies this
      ensures Abs() == Apply(old(Abs()), Clear(id, token, run))
      ensures ok <==> id in old(tasks) && old(tasks)[id].token == Some(token)
      ensures tasks == if !ok then old(tasks) else old(tasks)[id := old(tasks)[id].(
                lastRun := if run.Some? then run else old(tasks)[id].lastRun,
                token := None, claimKind := None, claimRef := None, claimSource := None, claimedBy := None, leaseUntil := None)]
      ensures Valid() <==> !HoldsActive(old(tasks), id, token)
    {
      ok := Holds(tasks, id, token);
      if ok {
        RewriteIsAccepted(tasks, ClearedRow(tasks[id], run));
        UnclaimedRowKeepsInvIff(tasks, id, ClearedRow(tasks[id], run));
        tasks := tasks[id := ClearedRow(tasks[id], run)];
      }
    }

    /** A new owner can be refused by the index while the task is active: an IntegrityError. */
    method UpdateTask(profile: string, id: int, edit: Edit, now: int) returns (row: Option<Task>, conflict: bool)
      requires Valid()
      modifies this
      ensures Abs() == Apply(old(Abs()), Update(profile, id, edit, now))
      ensures row.Some? <==> && id in old(tasks) && old(tasks)[id].profile == profile
                             && !Duplicates(old(tasks), EditedRow(old(tasks)[id], edit, now))
      ensures row.Some? ==> id in old(tasks) && tasks == old(tasks)[id := row.value] && EditColumns(old(tasks)[id], edit, now, row.value)
      ensures row.None? ==> tasks == old(tasks)
      ensures conflict <==> row.None? && id in old(tasks) && old(tasks)[id].profile == profile
      ensures conflict ==> IsActive(Or(edit.status, tasks[id].status)) && (edit.status.Some? || edit.ownerKind.Some? || edit.ownerRef.Some?)
      ensures Valid() <==> row.None? || edit.status.None? || !IsActive(edit.status.value) || IsActive(old(tasks)[id].status)
    {
      if id !in tasks || tasks[id].profile != profile { return None, false; }
      UpdateKeepsInvIff(tasks, id, edit, now);
      EditedColumns(tasks[id], edit, now);
      conflict := Rejected(tasks, EditedRow(tasks[id], edit, now));
      RejectedMeans(tasks, EditedRow(tasks[id], edit, now));
      if conflict { return None, true; }
      RejectedIff(tasks, EditedRow(tasks[id], edit, now));
      tasks := tasks[id := EditedRow(tasks[id], edit, now)];
      row := Some(tasks[id]);
    }

    // ----- the sweep -----

    /** `ORDER BY lease_until LIMIT n`; rows with equal leases may come in any order. */
    method ListExpiredClaimedTasks(now: int, scope: Option<string>, ref: Option<string>, limit: nat) returns (ids: seq<int>)
      ensures IsEarliest(tasks, ids, ExpiredIds(tasks, now, scope, ref))
      ensures |ids| == Min(limit, |ExpiredIds(tasks, now, scope, ref)|)
    {
      var expired := set id | id in tasks && IsExpired(tasks[id], now, scope, ref);
      var rest := expired;
      ids := [];
      while |ids| < limit && rest != {}
        invariant rest <= expired && |ids| + |rest| == |expired| && |ids| <= limit
        invariant rest == expired - Elements(ids) && IsEarliest(tasks, ids, expired)
        decreases |rest|
      {
        LeaseKeyInjective(tasks, rest);
        var next := FindLeast(rest, LeaseKey(tasks));
        NextEarliest(tasks, ids, expired, rest, next);
        ids := ids + [next];
        rest := rest - {next};
      }
    }

    /** Releases the expired claims it listed, all of them and nothing else. */
    method SweepExpiredClaims(now: int, limit: int, scope: Option<string>, ref: Option<string>) returns (released: nat, ghost ids: set<int>)
      requires Valid()
      modifies this
      ensures Valid() && used == old(used) && tasks == Swept(old(tasks), ids, now)
      ensures ids <= ExpiredIds(old(tasks), now, scope, ref)
      ensures released == |ids| == Min(Max(1, limit), |ExpiredIds(old(tasks), now, scope, ref)|)
      ensures ExpiredIds(tasks, now, scope, ref) == ExpiredIds(old(tasks), now, scope, ref) - ids
      ensures forall id | id in ids :: id in old(tasks) && LeaseRanOut(old(tasks)[id], now, scope, ref)
      ensures forall id | id in ids :: id in tasks && IsBackInLine(old(tasks)[id], tasks[id], now)
      ensures tasks.Keys == old(tasks).Keys && forall id | id in tasks && id !in ids :: tasks[id] == old(tasks)[id]
      ensures released < Max(1, limit) ==> forall id | id in tasks :: !LeaseRanOut(tasks[id], now, scope, ref)
    {
      hide TaskFlow.Inv, LeaseRanOut, IsBackInLine, IsExpired, SweptRow, ExpiredIds, Swept;
      ghost var before := tasks;
      RowsInv(Abs());
      var rows := ListExpiredClaimedTasks(now, scope, ref, Max(1, limit));
      released := 0;
      SweptStep(before, rows, now);
      for i := 0 to |rows|
        invariant Valid() && used == old(used) && released == i
        invariant tasks == Swept(before, Elements(rows[..i]), now)
      {
        ListedIsExpired(before, rows, i, now, scope, ref);
        StillUnswept(before, rows, i, now);
        SweepOne(rows[i], now, scope, ref);
        released := released + 1;
      }
      assert rows[..|rows|] == rows;
      ids := Elements(rows);
      ElementsSize(rows);
      SweptIds(before, ids, now, scope, ref);
      SweptColumns(before, ids, now, scope, ref);
      RowsInv(Abs());
      if released < Max(1, limit) { NoneRanOut(tasks, before, ids, now, scope, ref); }
    }

    /** The release of one listed claim. */
    method SweepOne(id: int, now: int, scope: Option<string>, ref: Option<string>)
      requires Valid() && id in tasks && IsExpired(tasks[id], now, scope, ref)
      modifies this
      ensures Valid() && used == old(used) && tasks == old(tasks)[id := SweptRow(old(tasks)[id], now)]
    {
      var row := tasks[id];
      var status := ReleaseStatus(row);
      var ok := ReleaseExpiredTaskClaim(id, row.token.value, now, if status == Review then None else Some(now), status,
                                        Some("task_lease_expired"));
    }
  }

  lemma RowsInv(b: Board)
    requires TaskFlow.Inv(b)
    ensures TaskRows.Inv(b.tasks)
  {
  }

  lemma ListedIsExpired(tasks: map<int, Task>, rows: seq<int>, i: nat, now: int, scope: Option<string>, ref: Option<string>)
    requires IsEarliest(tasks, rows, ExpiredIds(tasks, now, scope, ref)) && i < |rows|
    ensures AllDistinct(rows) && rows[i] in tasks && IsExpired(tasks[rows[i]], now, scope, ref)
  {
    assert rows[i] in Elements(rows);
  }

  function Elements(ids: seq<int>): set<int> { set id | id in ids }

  ghost predicate AllDistinct(ids: seq<int>) { forall i, j | 0 <= i < j < |ids| :: ids[i] != ids[j] }

  function LeaseOf(t: Task): int { Or(t.leaseUntil, 0) }

  /** Distinct ids of the set, every one with a lease no later than any id left out. */
  ghost predicate IsEarliest(tasks: map<int, Task>, ids: seq<int>, all: set<int>)
    requires all <= tasks.Keys
  {
    && AllDistinct(ids) && Elements(ids) <= all
    && forall x, y | x in Elements(ids) && y in all - Elements(ids) :: LeaseOf(tasks[x]) <= LeaseOf(tasks[y])
  }

  lemma NextEarliest(tasks: map<int, Task>, ids: seq<int>, all: set<int>, rest: set<int>, next: int)
    requires all <= tasks.Keys && IsEarliest(tasks, ids, all) && rest == all - Elements(ids)
    requires (forall id | id in rest :: tasks[id].leaseUntil.Some?) && IsLeast(rest, LeaseKey(tasks), next)
    ensures IsEarliest(tasks, ids + [next], all) && rest - {next} == all - Elements(ids + [next])
  {
    EarliestLease(tasks, rest, next);
    assert Elements(ids + [next]) == Elements(ids) + {next};
    assert forall i | 0 <= i < |ids| :: ids[i] in Elements(ids);
  }

  lemma {:induction false} ElementsSize(ids: seq<int>)
    requires AllDistinct(ids)
    ensures |Elements(ids)| == |ids|
  {
    if ids != [] {
      var prefix, last := ids[..|ids| - 1], ids[|ids| - 1];
      ElementsSize(prefix);
      assert ids == prefix + [last];
      assert Elements(ids) == Elements(prefix) + {last};
    }
  }

  lemma SweptStep(tasks: map<int, Task>, rows: seq<int>, now: int)
    ensures Swept(tasks, Elements(rows[..0]), now) == tasks
  {
  }

  lemma StillUnswept(tasks: map<int, Task>, rows: seq<int>, i: nat, now: int)
    requires i < |rows| && AllDistinct(rows) && rows[i] in tasks
    ensures rows[i] in Swept(tasks, Elements(rows[..i]), now)
    ensures Swept(tasks, Elements(rows[..i]), now)[rows[i]] == tasks[rows[i]]
    ensures Swept(tasks, Elements(rows[..i + 1]), now) ==
            Swept(tasks, Elements(rows[..i]), now)[rows[i] := SweptRow(tasks[rows[i]], now)]
  {
    assert rows[..i + 1] == rows[..i] + [rows[i]];
    assert Elements(rows[..i + 1]) == Elements(rows[..i]) + {rows[i]};
  }

  lemma SweptColumns(before: map<int, Task>, ids: set<int>, now: int, scope: Option<string>, ref: Option<string>)
    requires TaskRows.Inv(before) && ids <= ExpiredIds(before, now, scope, ref)
    ensures Swept(before, ids, now).Keys == before.Keys && ids <= before.Keys
    ensures forall id | id in before && id !in ids :: Swept(before, ids, now)[id] == before[id]
    ensures forall id | id in ids :: LeaseRanOut(before[id], now, scope, ref) && IsBackInLine(before[id], Swept(before, ids, now)[id], now)
  {
    forall id | id in ids ensures LeaseRanOut(before[id], now, scope, ref) { ExpiredMeans(before, id, now, scope, ref); }
  }

  lemma ExpiredMeans(tasks: map<int, Task>, id: int, now: int, scope: Option<string>, ref: Option<string>)
    requires TaskRows.Inv(tasks) && id in tasks
    ensures id in ExpiredIds(tasks, now, scope, ref) <==> LeaseRanOut(tasks[id], now, scope, ref)
  {
    assert ClaimMatchesStatus(tasks[id]);
    assert "employee" != "";
  }

  lemma NoneRanOut(after: map<int, Task>, before: map<int, Task>, ids: set<int>, now: int, scope: Option<string>, ref: Option<string>)
    requires TaskRows.Inv(after) && ids <= ExpiredIds(before, now, scope, ref) && |ids| == |ExpiredIds(before, now, scope, ref)|
    requires ExpiredIds(after, now, scope, ref) == ExpiredIds(before, now, scope, ref) - ids
    ensures forall id | id in after :: !LeaseRanOut(after[id], now, scope, ref)
  {
    SameSizeSubset(ids, ExpiredIds(before, now, scope, ref));
    forall id | id in after ensures !LeaseRanOut(after[id], now, scope, ref) { ExpiredMeans(after, id, now, scope, ref); }
  }

  lemma SweptIds(tasks: map<int, Task>, ids: set<int>, now: int, scope: Option<string>, ref: Option<string>)
    ensures ExpiredIds(Swept(tasks, ids, now), now, scope, ref) == ExpiredIds(tasks, now, scope, ref) - ids
  {
    var after := Swept(tasks, ids, now);
    forall id ensures id in ExpiredIds(after, now, scope, ref) <==> id in ExpiredIds(tasks, now, scope, ref) - ids {
      if id in tasks { assert after[id] == if id in ids then SweptRow(tasks[id], now) else tasks[id]; }
    }
  }

  function LeaseKey(tasks: map<int, Task>): int -> seq<int> {
    (id: int) => if id in tasks && tasks[id].leaseUntil.Some? then [tasks[id].leaseUntil.value, tasks[id].createdAt, id] else []
  }

  lemma LeaseKeyInjective(tasks: map<int, Task>, ids: set<int>)
    requires forall id | id in ids :: id in tasks && tasks[id].leaseUntil.Some?
    ensures Injective(ids, LeaseKey(tasks))
  {
    forall x, y | x in ids && y in ids && LeaseKey(tasks)(x) == LeaseKey(tasks)(y) ensures x == y {
      assert LeaseKey(tasks)(x)[2] == LeaseKey(tasks)(y)[2];
    }
  }

  lemma EarliestLease(tasks: map<int, Task>, ids: set<int>, least: int)
    requires forall id | id in ids :: id in tasks && tasks[id].leaseUntil.Some?
    requires IsLeast(ids, LeaseKey(tasks), least)
    ensures forall id | id in ids :: tasks[least].leaseUntil.value <= tasks[id].leaseUntil.value
  {
    forall id | id in ids && id != least ensures tasks[least].leaseUntil.value <= tasks[id].leaseUntil.value {
      assert LexLess(LeaseKey(tasks)(least), LeaseKey(tasks)(id));
    }
  }
}
