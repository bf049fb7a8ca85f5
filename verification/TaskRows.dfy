/** Task rows, the conditional UPDATEs that claim, start, refresh and close them, and the runs these
    statements make up.  Every statement is atomic, and the database refuses a row that breaks one of the
    unique indexes on active employee tasks. */
module TaskRows {
  import opened Ordering

  datatype Status = Plan | Todo | Blocked | Review | Claimed | Running | Completed | Failed | Cancelled | Other(name: string)

  datatype Task = Task(
    id: int, profile: string, flow: Option<string>, status: Status, priority: int,
    dueAt: Option<int>, readyAt: Option<int>, createdAt: int,
    ownerKind: string, ownerRef: string, reviewerKind: Option<string>, reviewerRef: Option<string>,
    blockedCode: Option<string>,
    token: Option<int>, claimKind: Option<string>, claimRef: Option<string>, claimSource: Option<Status>,
    claimedBy: Option<string>, leaseUntil: Option<int>,
    attempt: int, lastRun: Option<int>, lastError: Option<string>, startedAt: Option<int>, finishedAt: Option<int>)

  const Employee := "employee"

  /** Whom a task is charged to. */
  datatype Charge = Charge(profile: string, kind: string, ref: string)

  /** `coalesce(nullif(x, ''), y)` */
  function Coalesce(x: Option<string>, y: string): string {
    match x case None => y case Some(v) => if v == "" then y else v
  }

  predicate IsActive(s: Status) { s == Claimed || s == Running }

  predicate IsTerminal(s: Status) { s == Completed || s == Failed || s == Cancelled }

  /** Who will do a task once it is claimed: review work goes to the reviewer and falls back to the owner. */
  function ClaimCharge(t: Task): Charge {
    if t.status == Review then Charge(t.profile, Coalesce(t.reviewerKind, t.ownerKind), Coalesce(t.reviewerRef, t.ownerRef))
    else Charge(t.profile, t.ownerKind, t.ownerRef)
  }

  /** Who is doing a claimed or running task. */
  function ActiveCharge(t: Task): Charge {
    Charge(t.profile, Coalesce(t.claimKind, t.ownerKind), Coalesce(t.claimRef, t.ownerRef))
  }

  // ----- eligibility -----

  predicate ReadyTodo(t: Task, now: int) {
    t.status == Todo && (t.readyAt.None? || t.readyAt.value <= now)
  }

  predicate ReadyBlocked(t: Task, now: int) {
    && t.status == Blocked
    && ((t.readyAt.Some? && t.readyAt.value <= now) || t.blockedCode == Some("review_changes_requested"))
    && t.blockedCode != Some("dependency_wait")
  }

  predicate IsCandidate(t: Task, now: int) {
    || (t.ownerKind == Employee && t.ownerRef != "" && (ReadyTodo(t, now) || ReadyBlocked(t, now)))
    || (t.status == Review && ClaimCharge(t).kind == Employee && ClaimCharge(t).ref != "")
  }

  predicate IsBusy(tasks: map<int, Task>, c: Charge) {
    exists id | id in tasks :: IsActive(tasks[id].status) && ActiveCharge(tasks[id]) == c
  }

  predicate InScope(t: Task, profile: Option<string>, ref: Option<string>) {
    (profile.None? || t.profile == profile.value) && (ref.None? || ClaimCharge(t).ref == ref.value)
  }

  function Runnable(tasks: map<int, Task>, now: int, profile: Option<string>, ref: Option<string>): set<int> {
    set id | id in tasks && InScope(tasks[id], profile, ref) && IsCandidate(tasks[id], now)
             && !IsBusy(tasks, ClaimCharge(tasks[id]))
  }

  // ----- the statements -----

  predicate Holds(tasks: map<int, Task>, id: int, token: int) { id in tasks && tasks[id].token == Some(token) }

  predicate HoldsActive(tasks: map<int, Task>, id: int, token: int) { Holds(tasks, id, token) && IsActive(tasks[id].status) }

  /** The WHERE clause of the claiming UPDATE: for an executor it holds exactly of the candidates that would
      be charged to that executor. */
  function UpdateGuard(row: Task, charge: Charge, now: int): (matched: bool)
    ensures charge.kind == Employee && charge.ref != "" ==>
              (matched <==> IsCandidate(row, now) && ClaimCharge(row).kind == charge.kind && ClaimCharge(row).ref == charge.ref)
  {
    || (row.ownerKind == charge.kind && row.ownerRef == charge.ref && ReadyTodo(row, now))
    || (row.ownerKind == charge.kind && row.ownerRef == charge.ref && ReadyBlocked(row, now))
    || (row.status == Review && Coalesce(row.reviewerKind, row.ownerKind) == charge.kind
        && Coalesce(row.reviewerRef, row.ownerRef) == charge.ref)
  }

  function Unclaimed(t: Task): Task {
    t.(token := None, claimKind := None, claimRef := None, claimSource := None, claimedBy := None, leaseUntil := None)
  }

  /** `source` is the status the SELECT saw, which tells the sweep where to put the task back. */
  function ClaimedRow(t: Task, c: Charge, source: Status, token: int, worker: string, lease: int): Task {
    t.(status := Claimed, token := Some(token), claimKind := Some(c.kind), claimRef := Some(c.ref),
       claimSource := Some(source), claimedBy := Some(worker), leaseUntil := Some(lease),
       readyAt := None, blockedCode := None, lastRun := None, lastError := None, startedAt := None, finishedAt := None)
  }

  function StartedRow(t: Task, at: int): Task {
    t.(status := Running, startedAt := Some(at), attempt := t.attempt + 1)
  }

  function ReleasedRow(t: Task, status: Status, readyAt: Option<int>, error: Option<string>): Task {
    Unclaimed(t).(status := status, readyAt := readyAt, startedAt := None, blockedCode := None,
                  lastError := error, finishedAt := None)
  }

  function FinalizedRow(t: Task, status: Status, finishedAt: int, readyAt: Option<int>, run: Option<int>,
                        error: Option<string>, blockedCode: Option<string>): Task {
    Unclaimed(t).(status := status, finishedAt := Some(finishedAt), readyAt := readyAt,
                  lastRun := if run.Some? then run else t.lastRun, lastError := error, blockedCode := blockedCode)
  }

  function ClearedRow(t: Task, run: Option<int>): Task {
    Unclaimed(t).(lastRun := if run.Some? then run else t.lastRun)
  }

  /** The arguments of `update_task`; an absent optional of an optional is the unset marker. */
  datatype Edit = Edit(status: Option<Status>, priority: Option<int>, dueAt: Option<int>, readyAt: Option<Option<int>>,
                       ownerKind: Option<string>, ownerRef: Option<string>,
                       reviewerKind: Option<Option<string>>, reviewerRef: Option<Option<string>>,
                       blockedCode: Option<Option<string>>)

  function Or<T>(x: Option<T>, y: T): T { match x case None => y case Some(v) => v }

  function EditedFields(t: Task, e: Edit): Task {
    t.(status := Or(e.status, t.status), priority := Or(e.priority, t.priority),
       dueAt := if e.dueAt.Some? then e.dueAt else t.dueAt, readyAt := Or(e.readyAt, t.readyAt),
       ownerKind := Or(e.ownerKind, t.ownerKind), ownerRef := Or(e.ownerRef, t.ownerRef),
       reviewerKind := Or(e.reviewerKind, t.reviewerKind), reviewerRef := Or(e.reviewerRef, t.reviewerRef),
       blockedCode := if e.blockedCode.Some? || e.status.Some? then Or(e.blockedCode, None) else t.blockedCode)
  }

  function EditedRow(t: Task, e: Edit, now: int): Task {
    var u := EditedFields(t, e);
    match e.status
    case None => u
    case Some(s) =>
      var v := if IsActive(s) then u else Unclaimed(u);
      var readyAt := if s == Todo then (if v.readyAt.None? then Some(now) else v.readyAt)
                     else if e.readyAt.None? then None else v.readyAt;
      v.(readyAt := readyAt,
         finishedAt := if !IsTerminal(s) then None else if v.finishedAt.None? then Some(now) else v.finishedAt)
  }

  // ----- the unique indexes on active employee tasks -----

  predicate OwnerClash(t: Task, u: Task) {
    IsActive(t.status) && IsActive(u.status) && t.profile == u.profile
    && t.ownerKind == Employee && u.ownerKind == Employee && t.ownerRef == u.ownerRef
  }

  predicate ClaimClash(t: Task, u: Task) {
    IsActive(t.status) && IsActive(u.status) && t.profile == u.profile
    && t.claimKind == Some(Employee) && u.claimKind == Some(Employee) && t.claimRef.Some? && t.claimRef == u.claimRef
  }

  /** Writing the row is an IntegrityError. */
  predicate Rejected(tasks: map<int, Task>, row: Task) {
    exists other | other in tasks :: other != row.id && (OwnerClash(tasks[other], row) || ClaimClash(tasks[other], row))
  }

  ghost predicate Indexed(tasks: map<int, Task>) {
    forall a, b | a in tasks && b in tasks && a != b :: !OwnerClash(tasks[a], tasks[b]) && !ClaimClash(tasks[a], tasks[b])
  }

  /** The employee who owns the task owns another task that somebody works on. */
  predicate OwnerTaken(tasks: map<int, Task>, id: int)
    requires id in tasks
  {
    && tasks[id].ownerKind == Employee
    && exists other | other in tasks ::
         && other != id && IsActive(tasks[other].status) && tasks[other].profile == tasks[id].profile
         && tasks[other].ownerKind == Employee && tasks[other].ownerRef == tasks[id].ownerRef
  }

  lemma RejectedIff(tasks: map<int, Task>, row: Task)
    requires Indexed(tasks)
    ensures Indexed(tasks[row.id := row]) <==> !Rejected(tasks, row)
  {
    var after := tasks[row.id := row];
    if Rejected(tasks, row) {
      var other :| other in tasks && other != row.id && (OwnerClash(tasks[other], row) || ClaimClash(tasks[other], row));
      assert after[other] == tasks[other] && after[row.id] == row;
    }
  }

  /** A row that becomes neither active nor somebody else's is never refused. */
  lemma RewriteIsAccepted(tasks: map<int, Task>, row: Task)
    requires Indexed(tasks) && row.id in tasks && (IsActive(row.status) ==> IsActive(tasks[row.id].status))
    requires row.profile == tasks[row.id].profile && row.ownerKind == tasks[row.id].ownerKind && row.ownerRef == tasks[row.id].ownerRef
    requires row.claimKind.None? || (row.claimKind == tasks[row.id].claimKind && row.claimRef == tasks[row.id].claimRef)
    ensures !Rejected(tasks, row) && Indexed(tasks[row.id := row])
  {
    RejectedIff(tasks, row);
  }

  // ----- the invariant -----

  predicate Keyed(tasks: map<int, Task>) { forall id | id in tasks :: tasks[id].id == id }

  /** A row carries a claim exactly while it is claimed or running, and then names its executor itself, so
      that editing the owner or the reviewer moves no charge. */
  ghost predicate ClaimMatchesStatus(t: Task) {
    if IsActive(t.status) then
      t.token.Some? && t.claimKind == Some(Employee) && t.claimRef.Some? && t.claimRef.value != "" && t.leaseUntil.Some?
    else t == Unclaimed(t)
  }

  ghost predicate TokensUnique(tasks: map<int, Task>) {
    forall a, b | a in tasks && b in tasks && tasks[a].token.Some? && tasks[a].token == tasks[b].token :: a == b
  }

  /** At most one claimed or running task per profile and executor. */
  ghost predicate OnePerExecutor(tasks: map<int, Task>) {
    forall a, b | a in tasks && b in tasks && IsActive(tasks[a].status) && IsActive(tasks[b].status)
                  && ActiveCharge(tasks[a]) == ActiveCharge(tasks[b]) :: a == b
  }

  ghost predicate Inv(tasks: map<int, Task>) {
    && Keyed(tasks)
    && (forall id | id in tasks :: ClaimMatchesStatus(tasks[id]))
    && TokensUnique(tasks)
    && OnePerExecutor(tasks)
  }

  /** Replacing a row by one without claim fields keeps the invariant exactly when the new row is not
      active: the whole condition under which finalize, release and clear may be called. */
  lemma UnclaimedRowKeepsInvIff(tasks: map<int, Task>, id: int, u: Task)
    requires Inv(tasks) && u.id == id && u == Unclaimed(u)
    ensures Inv(tasks[id := u]) <==> !IsActive(u.status)
  {
    var after := tasks[id := u];
    assert after[id] == u;
    if !IsActive(u.status) {
      assert TokensUnique(after) by {
        forall a, b | a in after && b in after && after[a].token.Some? && after[a].token == after[b].token ensures a == b {
          assert a != id && b != id;
        }
      }
    }
  }

  /** A row may be rewritten in place as long as it keeps its claim and its activity. */
  lemma SameClaimKeepsInv(tasks: map<int, Task>, id: int, u: Task)
    requires Inv(tasks) && id in tasks && u.id == id && u.profile == tasks[id].profile
    requires u.token == tasks[id].token && u.claimKind == tasks[id].claimKind && u.claimRef == tasks[id].claimRef
    requires u.leaseUntil == tasks[id].leaseUntil || (IsActive(u.status) && u.leaseUntil.Some?)
    requires u.claimSource == tasks[id].claimSource && u.claimedBy == tasks[id].claimedBy
    requires IsActive(u.status) <==> IsActive(tasks[id].status)
    ensures Inv(tasks[id := u])
  {
  }

  /** `update_task` keeps the invariant exactly when it does not make an unclaimed row active. */
  lemma UpdateKeepsInvIff(tasks: map<int, Task>, id: int, e: Edit, now: int)
    requires Inv(tasks) && id in tasks
    ensures Inv(tasks[id := EditedRow(tasks[id], e, now)])
            <==> (e.status.None? || !IsActive(e.status.value) || IsActive(tasks[id].status))
  {
    var t := tasks[id];
    var u := EditedRow(t, e, now);
    if e.status.Some? && !IsActive(e.status.value) {
      UnclaimedRowKeepsInvIff(tasks, id, u);
    } else if e.status.None? || IsActive(t.status) {
      SameClaimKeepsInv(tasks, id, u);
    } else {
      UnclaimedRowKeepsInvIff(tasks, id, u);
    }
  }

  /** Clearing the claim of an active task orphans it: it stays active, holds no token, and no call with
      any token can move it again. */
  lemma ClearingAnActiveTaskOrphansIt(tasks: map<int, Task>, id: int, token: int, run: Option<int>)
    requires Inv(tasks) && HoldsActive(tasks, id, token)
    ensures var after := tasks[id := ClearedRow(tasks[id], run)];
            !Inv(after) && IsActive(after[id].status) && forall other: int :: !Holds(after, id, other)
  {
    UnclaimedRowKeepsInvIff(tasks, id, ClearedRow(tasks[id], run));
  }

  /** After a failed finalize the runtime clears the claim; under the invariant there is nothing left to
      clear, because holding the token and being active are the same thing. */
  lemma ClearAfterFailedFinalizeIsIdle(tasks: map<int, Task>, id: int, token: int)
    requires Inv(tasks)
    ensures Holds(tasks, id, token) <==> HoldsActive(tasks, id, token)
  {
  }

  lemma ClaimKeepsInv(tasks: map<int, Task>, id: int, source: Status, token: int, worker: string, lease: int, now: int)
    requires Inv(tasks) && id in tasks && IsCandidate(tasks[id], now)
    requires forall other | other in tasks :: tasks[other].token != Some(token)
    ensures Inv(tasks[id := ClaimedRow(tasks[id], ClaimCharge(tasks[id]), source, token, worker, lease)])
            <==> !IsBusy(tasks, ClaimCharge(tasks[id]))
  {
    var c := ClaimCharge(tasks[id]);
    var u := ClaimedRow(tasks[id], c, source, token, worker, lease);
    var after := tasks[id := u];
    assert Employee != "";
    assert c.kind != "" && c.ref != "";
    assert ActiveCharge(u) == c;
    if IsBusy(tasks, c) {
      var other :| other in tasks && IsActive(tasks[other].status) && ActiveCharge(tasks[other]) == c;
      assert after[other] == tasks[other] && after[id] == u;
    } else {
      forall other | other in tasks && IsActive(tasks[other].status) ensures ActiveCharge(tasks[other]) != c {}
    }
  }

  /** For a candidate the indexes refuse the claim exactly when its executor is busy or its owner's other task
      is being worked on, by the owner or by a reviewer. */
  lemma ClaimRejectedIff(tasks: map<int, Task>, id: int, source: Status, token: int, worker: string, lease: int, now: int)
    requires Inv(tasks) && id in tasks && IsCandidate(tasks[id], now)
    ensures Rejected(tasks, ClaimedRow(tasks[id], ClaimCharge(tasks[id]), source, token, worker, lease))
            <==> IsBusy(tasks, ClaimCharge(tasks[id])) || OwnerTaken(tasks, id)
  {
    var c := ClaimCharge(tasks[id]);
    var u := ClaimedRow(tasks[id], c, source, token, worker, lease);
    assert Employee != "";
    if IsBusy(tasks, c) {
      var other :| other in tasks && IsActive(tasks[other].status) && ActiveCharge(tasks[other]) == c;
      assert ClaimMatchesStatus(tasks[other]) && ClaimClash(tasks[other], u);
    }
    if OwnerTaken(tasks, id) {
      var other :| other in tasks && other != id && IsActive(tasks[other].status) && tasks[other].profile == tasks[id].profile
                   && tasks[other].ownerKind == Employee && tasks[other].ownerRef == tasks[id].ownerRef;
      assert OwnerClash(tasks[other], u);
    }
    if Rejected(tasks, u) {
      var other :| other in tasks && other != id && (OwnerClash(tasks[other], u) || ClaimClash(tasks[other], u));
      assert ClaimMatchesStatus(tasks[other]);
    }
  }
}
