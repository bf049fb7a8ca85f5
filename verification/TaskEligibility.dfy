/** What the eligibility query admits, in the columns of the rows: who may work on a task and from when on. */
module TaskEligibility {
  import opened Ordering
  import opened TaskRows
  import opened TaskScheduler

  /** An AI employee of the profile is at work on a task. */
  predicate AtWork(tasks: map<int, Task>, profile: string, ref: string) {
    exists id | id in tasks :: (tasks[id].status == Claimed || tasks[id].status == Running) && tasks[id].profile == profile
                               && tasks[id].claimKind == Some("employee") && tasks[id].claimRef == Some(ref)
  }

  lemma BusyMeansAtWork(tasks: map<int, Task>, profile: string, ref: string)
    requires Inv(tasks)
    ensures IsBusy(tasks, Charge(profile, "employee", ref)) <==> AtWork(tasks, profile, ref)
  {
    assert "employee" != "";
    if IsBusy(tasks, Charge(profile, "employee", ref)) {
      var id :| id in tasks && IsActive(tasks[id].status) && ActiveCharge(tasks[id]) == Charge(profile, "employee", ref);
      assert ClaimMatchesStatus(tasks[id]);
    }
    if AtWork(tasks, profile, ref) {
      var id :| id in tasks && (tasks[id].status == Claimed || tasks[id].status == Running) && tasks[id].profile == profile
                && tasks[id].claimKind == Some("employee") && tasks[id].claimRef == Some(ref);
      assert ClaimMatchesStatus(tasks[id]);
      assert ActiveCharge(tasks[id]) == Charge(profile, "employee", ref);
    }
  }

  /** A todo task is runnable exactly when a named employee owns it, it is due, and the owner is idle. */
  lemma TodoIsRunnableIff(tasks: map<int, Task>, now: int, scope: Option<string>, ref: Option<string>, id: int)
    requires Inv(tasks) && id in tasks && tasks[id].status == Todo
    ensures var t := tasks[id];
            id in Runnable(tasks, now, scope, ref) <==>
              && (scope.None? || scope.value == t.profile) && (ref.None? || ref.value == t.ownerRef)
              && t.ownerKind == "employee" && t.ownerRef != ""
              && (t.readyAt.None? || t.readyAt.value <= now)
              && !AtWork(tasks, t.profile, t.ownerRef)
  {
    BusyMeansAtWork(tasks, tasks[id].profile, tasks[id].ownerRef);
  }

  /** A blocked task is runnable exactly when a named employee owns it, its time has come or a review asked for
      changes, it waits for no dependency, and the owner is idle. */
  lemma BlockedIsRunnableIff(tasks: map<int, Task>, now: int, scope: Option<string>, ref: Option<string>, id: int)
    requires Inv(tasks) && id in tasks && tasks[id].status == Blocked
    ensures var t := tasks[id];
            id in Runnable(tasks, now, scope, ref) <==>
              && (scope.None? || scope.value == t.profile) && (ref.None? || ref.value == t.ownerRef)
              && t.ownerKind == "employee" && t.ownerRef != ""
              && ((t.readyAt.Some? && t.readyAt.value <= now) || t.blockedCode == Some("review_changes_requested"))
              && t.blockedCode != Some("dependency_wait")
              && !AtWork(tasks, t.profile, t.ownerRef)
  {
    BusyMeansAtWork(tasks, tasks[id].profile, tasks[id].ownerRef);
  }

  /** Who reviews a task: the reviewer's columns, and the owner's where these are NULL or empty. */
  function ReviewerKind(t: Task): string {
    if t.reviewerKind.Some? && t.reviewerKind.value != "" then t.reviewerKind.value else t.ownerKind
  }

  function ReviewerRef(t: Task): string {
    if t.reviewerRef.Some? && t.reviewerRef.value != "" then t.reviewerRef.value else t.ownerRef
  }

  /** A task in review is runnable, at any time, exactly when its reviewer is a named idle employee. */
  lemma ReviewIsRunnableIff(tasks: map<int, Task>, now: int, scope: Option<string>, ref: Option<string>, id: int)
    requires Inv(tasks) && id in tasks && tasks[id].status == Review
    ensures var t := tasks[id];
            id in Runnable(tasks, now, scope, ref) <==>
              && (scope.None? || scope.value == t.profile) && (ref.None? || ref.value == ReviewerRef(t))
              && ReviewerKind(t) == "employee" && ReviewerRef(t) != "" && !AtWork(tasks, t.profile, ReviewerRef(t))
  {
    BusyMeansAtWork(tasks, tasks[id].profile, ReviewerRef(tasks[id]));
  }

  lemma OnlyOpenTasksAreRunnable(tasks: map<int, Task>, now: int, scope: Option<string>, ref: Option<string>, id: int)
    requires id in Runnable(tasks, now, scope, ref)
    ensures id in tasks && (tasks[id].status == Todo || tasks[id].status == Blocked || tasks[id].status == Review)
  {
  }

  /** The task is due and its executor idle. */
  ghost predicate IsDue(tasks: map<int, Task>, id: int, now: int)
    requires id in tasks
  {
    var t := tasks[id];
    match t.status
    case Todo =>
      && t.ownerKind == "employee" && t.ownerRef != "" && (t.readyAt.None? || t.readyAt.value <= now)
      && !AtWork(tasks, t.profile, t.ownerRef)
    case Blocked =>
      && t.ownerKind == "employee" && t.ownerRef != "" && t.blockedCode != Some("dependency_wait")
      && ((t.readyAt.Some? && t.readyAt.value <= now) || t.blockedCode == Some("review_changes_requested"))
      && !AtWork(tasks, t.profile, t.ownerRef)
    case Review => ReviewerKind(t) == "employee" && ReviewerRef(t) != "" && !AtWork(tasks, t.profile, ReviewerRef(t))
    case _ => false
  }

  /** The query admits exactly the tasks of its scope that are due for an idle employee. */
  lemma RunnableIffDue(tasks: map<int, Task>, now: int, scope: Option<string>, ref: Option<string>, id: int)
    requires Inv(tasks) && id in tasks
    ensures id in Runnable(tasks, now, scope, ref) <==>
              && IsDue(tasks, id, now) && (scope.None? || scope.value == tasks[id].profile)
              && (ref.None? || ref.value == if tasks[id].status == Review then ReviewerRef(tasks[id]) else tasks[id].ownerRef)
  {
    match tasks[id].status
    case Todo => TodoIsRunnableIff(tasks, now, scope, ref, id);
    case Blocked => BlockedIsRunnableIff(tasks, now, scope, ref, id);
    case Review => ReviewIsRunnableIff(tasks, now, scope, ref, id);
    case _ =>
  }

  /** When nothing is runnable, every due todo task of the scope that an employee owns has its owner at work. */
  lemma NothingRunnableMeans(tasks: map<int, Task>, now: int, scope: Option<string>, ref: Option<string>)
    requires Inv(tasks) && Runnable(tasks, now, scope, ref) == {}
    ensures forall id | id in tasks && tasks[id].status == Todo && tasks[id].ownerKind == "employee" && tasks[id].ownerRef != ""
                        && (tasks[id].readyAt.None? || tasks[id].readyAt.value <= now)
                        && (scope.None? || scope.value == tasks[id].profile) && (ref.None? || ref.value == tasks[id].ownerRef) ::
              AtWork(tasks, tasks[id].profile, tasks[id].ownerRef)
  {
    forall id | id in tasks && tasks[id].status == Todo && tasks[id].ownerKind == "employee" && tasks[id].ownerRef != ""
                && (tasks[id].readyAt.None? || tasks[id].readyAt.value <= now)
                && (scope.None? || scope.value == tasks[id].profile) && (ref.None? || ref.value == tasks[id].ownerRef)
      ensures AtWork(tasks, tasks[id].profile, tasks[id].ownerRef)
    {
      TodoIsRunnableIff(tasks, now, scope, ref, id);
    }
  }

  /** Waiting never makes a task less runnable. */
  lemma RunnableStaysRunnable(tasks: map<int, Task>, now: int, later: int, scope: Option<string>, ref: Option<string>)
    requires now <= later
    ensures Runnable(tasks, now, scope, ref) <= Runnable(tasks, later, scope, ref)
  {
    forall id | id in Runnable(tasks, now, scope, ref) ensures id in Runnable(tasks, later, scope, ref) {
      assert IsCandidate(tasks[id], later);
    }
  }

  // ----- the order, in columns -----

  /** The older of two tasks: ready earlier, never-scheduled ones last, then created earlier, then by id. */
  lemma AgeMeaning(a: Task, b: Task)
    ensures LexLess(Age(a), Age(b)) <==>
              || (a.readyAt.Some? && (b.readyAt.None? || a.readyAt.value < b.readyAt.value))
              || (a.readyAt == b.readyAt && (a.createdAt < b.createdAt || (a.createdAt == b.createdAt && a.id < b.id)))
  {
    var x, y := NullsLast(a.readyAt), NullsLast(b.readyAt);
    LexPrefix(x, y, [a.createdAt, a.id], [b.createdAt, b.id]);
    LexPrefix([a.createdAt], [b.createdAt], [a.id], [b.id]);
    assert [a.createdAt, a.id] == [a.createdAt] + [a.id] && [b.createdAt, b.id] == [b.createdAt] + [b.id];
    LexPrefix([x[0]], [y[0]], [x[1]], [y[1]]);
    assert x == [x[0]] + [x[1]] && y == [y[0]] + [y[1]];
  }

  /** The load of a task's flow is the number of claimed and running employee tasks of its profile in that
      flow; all tasks without a flow count as one flow. */
  lemma LoadMeaning(tasks: map<int, Task>, id: int)
    requires Inv(tasks) && id in tasks && (forall other | other in tasks :: tasks[other].flow != Some("__taskflow_no_flow__"))
    ensures Load(tasks, id) == |set other | other in tasks && (tasks[other].status == Claimed || tasks[other].status == Running)
                                            && tasks[other].profile == tasks[id].profile && tasks[other].flow == tasks[id].flow|
  {
    assert "employee" != "";
    forall other | other in tasks ensures FlowBucket(tasks[other]) == FlowBucket(tasks[id]) <==> tasks[other].flow == tasks[id].flow {}
    forall other | other in tasks && IsActive(tasks[other].status) ensures ActiveCharge(tasks[other]).kind == Employee {
      assert ClaimMatchesStatus(tasks[other]);
    }
    assert (set other | other in tasks && (tasks[other].status == Claimed || tasks[other].status == Running)
                        && tasks[other].profile == tasks[id].profile && tasks[other].flow == tasks[id].flow) ==
           (set other | other in tasks && IsActive(tasks[other].status) && ActiveCharge(tasks[other]).kind == Employee
                        && tasks[other].profile == tasks[id].profile && FlowBucket(tasks[other]) == FlowBucket(tasks[id]));
  }

  /** The executor of an open task. */
  function ExecutorRef(t: Task): string { if t.status == Review then ReviewerRef(t) else t.ownerRef }

  /** Against every other runnable task the choice has the higher priority, or the same and the earlier due date;
      or they tie, and then, if they are for one employee, the choice is the older of the two. */
  lemma ChoiceComesFirst(tasks: map<int, Task>, now: int, scope: Option<string>, ref: Option<string>, choice: int, other: int)
    requires Inv(tasks) && IsChoice(tasks, Runnable(tasks, now, scope, ref), choice)
    requires other in Runnable(tasks, now, scope, ref) && other != choice
    ensures choice in tasks
    ensures var a, b := tasks[choice], tasks[other];
            || a.priority > b.priority
            || (a.priority == b.priority && a.dueAt.Some? && (b.dueAt.None? || a.dueAt.value < b.dueAt.value))
            || (&& a.priority == b.priority && a.dueAt == b.dueAt
                && (a.profile == b.profile && ExecutorRef(a) == ExecutorRef(b) ==>
                      || (a.readyAt.Some? && (b.readyAt.None? || a.readyAt.value < b.readyAt.value))
                      || (a.readyAt == b.readyAt && (a.createdAt < b.createdAt || (a.createdAt == b.createdAt && a.id < b.id)))))
  {
    var ids := Runnable(tasks, now, scope, ref);
    ChoiceIsOptimal(tasks, ids, choice);
    var a, b := tasks[choice], tasks[other];
    RunnableKinds(tasks, now, scope, ref, choice);
    RunnableKinds(tasks, now, scope, ref, other);
    RankMeaning(a, b);
    RankMeaning(b, a);
    AgeMeaning(a, b);
    hide LexLess, Rank, Age, Runnable;
    if a.profile == b.profile && ExecutorRef(a) == ExecutorRef(b) {
      assert choice in Heads(tasks, ids);
      assert other in SameExecutor(tasks, ids, choice);
      assert LexLess(OwnerKey(tasks)(choice), OwnerKey(tasks)(other));
      RankOrder(tasks, choice, other);
    }
  }

  lemma RunnableKinds(tasks: map<int, Task>, now: int, scope: Option<string>, ref: Option<string>, id: int)
    requires id in Runnable(tasks, now, scope, ref)
    ensures id in tasks && ClaimCharge(tasks[id]) == Charge(tasks[id].profile, "employee", ExecutorRef(tasks[id]))
  {
  }

  /** Among runnable tasks of other employees that tie with it and are the oldest of their employee, the choice lies in
      a flow with the least load, and among those it is the oldest. */
  lemma ChoiceBalancesFlows(tasks: map<int, Task>, now: int, scope: Option<string>, ref: Option<string>, choice: int, other: int)
    requires Inv(tasks) && IsChoice(tasks, Runnable(tasks, now, scope, ref), choice) && other in Runnable(tasks, now, scope, ref)
    requires choice in tasks && other != choice && tasks[other].priority == tasks[choice].priority && tasks[other].dueAt == tasks[choice].dueAt
    requires forall id | id in Runnable(tasks, now, scope, ref) && id != other && tasks[id].profile == tasks[other].profile
                         && ExecutorRef(tasks[id]) == ExecutorRef(tasks[other]) ::
               LexLess(OwnerKey(tasks)(other), OwnerKey(tasks)(id))
    ensures Load(tasks, choice) <= Load(tasks, other)
    ensures Load(tasks, choice) == Load(tasks, other) ==> LexLess(Age(tasks[choice]), Age(tasks[other]))
  {
    var ids := Runnable(tasks, now, scope, ref);
    ChoiceIsOptimal(tasks, ids, choice);
    forall id | id in ids ensures ClaimCharge(tasks[id]) == Charge(tasks[id].profile, "employee", ExecutorRef(tasks[id])) {
      RunnableKinds(tasks, now, scope, ref, id);
    }
    hide LexLess, Age, Runnable, Load, OwnerKey;
    forall id | id in SameExecutor(tasks, ids, other) && id != other
      ensures LexLess(OwnerKey(tasks)(other), OwnerKey(tasks)(id))
    {
      assert ClaimCharge(tasks[id]) == ClaimCharge(tasks[other]);
      assert id in ids;
    }
    assert IsHead(tasks, ids, other);
    assert other in Heads(tasks, ids);
  }

  lemma ChoiceIsDue(tasks: map<int, Task>, now: int, scope: Option<string>, ref: Option<string>, id: int)
    requires Inv(tasks) && IsChoice(tasks, Runnable(tasks, now, scope, ref), id)
    ensures id in tasks && IsDue(tasks, id, now) && (scope.None? || scope.value == tasks[id].profile)
    ensures ref.None? || ref.value == ExecutorRef(tasks[id])
  {
    ChoiceIsOptimal(tasks, Runnable(tasks, now, scope, ref), id);
    RunnableIffDue(tasks, now, scope, ref, id);
  }

  lemma ClaimedColumns(tasks: map<int, Task>, id: int, now: int, token: int, worker: string, lease: int)
    requires id in tasks && IsDue(tasks, id, now)
    ensures ClaimedRow(tasks[id], ClaimCharge(tasks[id]), tasks[id].status, token, worker, lease) ==
            tasks[id].(status := Claimed, token := Some(token), claimKind := Some("employee"), claimRef := Some(ExecutorRef(tasks[id])),
                       claimSource := Some(tasks[id].status), claimedBy := Some(worker), leaseUntil := Some(lease), readyAt := None,
                       blockedCode := None, lastRun := None, lastError := None, startedAt := None, finishedAt := None)
  {
  }

  // ----- the unique indexes and the edit, in columns -----

  /** Another claimed or running task of the profile has the same employee as owner, or as claim owner: an
      IntegrityError. */
  predicate Duplicates(tasks: map<int, Task>, row: Task) {
    && (row.status == Claimed || row.status == Running)
    && exists other | other in tasks :: && other != row.id && (tasks[other].status == Claimed || tasks[other].status == Running)
         && tasks[other].profile == row.profile
         && (|| (row.ownerKind == "employee" && tasks[other].ownerKind == "employee" && tasks[other].ownerRef == row.ownerRef)
             || (row.claimKind == Some("employee") && tasks[other].claimKind == Some("employee") && row.claimRef.Some?
                 && tasks[other].claimRef == row.claimRef))
  }

  lemma RejectedMeans(tasks: map<int, Task>, row: Task)
    ensures Rejected(tasks, row) <==> Duplicates(tasks, row)
  {
    forall other | other in tasks
      ensures OwnerClash(tasks[other], row) || ClaimClash(tasks[other], row) <==>
                && (row.status == Claimed || row.status == Running) && (tasks[other].status == Claimed || tasks[other].status == Running)
                && tasks[other].profile == row.profile
                && (|| (row.ownerKind == "employee" && tasks[other].ownerKind == "employee" && tasks[other].ownerRef == row.ownerRef)
                    || (row.claimKind == Some("employee") && tasks[other].claimKind == Some("employee") && row.claimRef.Some?
                        && tasks[other].claimRef == row.claimRef))
    {}
  }

  /** The employee who owns the task owns another one of the profile that is claimed or running. */
  predicate OwnerAtWorkElsewhere(tasks: map<int, Task>, id: int) {
    && id in tasks && tasks[id].ownerKind == "employee"
    && exists other | other in tasks :: && other != id && (tasks[other].status == Claimed || tasks[other].status == Running)
         && tasks[other].profile == tasks[id].profile && tasks[other].ownerKind == "employee" && tasks[other].ownerRef == tasks[id].ownerRef
  }

  lemma OwnerTakenMeans(tasks: map<int, Task>, id: int)
    requires id in tasks
    ensures OwnerTaken(tasks, id) <==> OwnerAtWorkElsewhere(tasks, id)
  {
  }

  /** No two claimed or running tasks of a profile have the same employee as owner, or as claim owner. */
  lemma IndexedMeans(tasks: map<int, Task>, a: int, b: int)
    requires Indexed(tasks) && a in tasks && b in tasks && a != b && tasks[a].profile == tasks[b].profile
    requires (tasks[a].status == Claimed || tasks[a].status == Running) && (tasks[b].status == Claimed || tasks[b].status == Running)
    ensures !(tasks[a].ownerKind == "employee" && tasks[b].ownerKind == "employee" && tasks[a].ownerRef == tasks[b].ownerRef)
    ensures !(tasks[a].claimKind == Some("employee") && tasks[b].claimKind == Some("employee") && tasks[a].claimRef.Some?
              && tasks[a].claimRef == tasks[b].claimRef)
  {
  }

  /** What `update_task` leaves in every column: what is not given stays, a status takes the blocking reason with it, a
      status other than claimed and running drops the claim, and the times follow the status. */
  ghost predicate EditColumns(t: Task, e: Edit, now: int, u: Task) {
    EditValues(t, e, u) && EditClaim(t, e, u) && EditTimes(t, e, now, u)
  }

  ghost predicate EditValues(t: Task, e: Edit, u: Task) {
    && u.id == t.id && u.profile == t.profile && u.flow == t.flow && u.createdAt == t.createdAt && u.attempt == t.attempt
    && u.lastRun == t.lastRun && u.lastError == t.lastError && u.startedAt == t.startedAt
    && u.status == (match e.status case None => t.status case Some(s) => s)
    && u.priority == (match e.priority case None => t.priority case Some(n) => n)
    && u.dueAt == (match e.dueAt case None => t.dueAt case Some(d) => Some(d))
    && u.ownerKind == (match e.ownerKind case None => t.ownerKind case Some(k) => k)
    && u.ownerRef == (match e.ownerRef case None => t.ownerRef case Some(r) => r)
    && u.reviewerKind == (match e.reviewerKind case None => t.reviewerKind case Some(k) => k)
    && u.reviewerRef == (match e.reviewerRef case None => t.reviewerRef case Some(r) => r)
    && u.blockedCode == (match e.blockedCode case Some(c) => c case None => if e.status.Some? then None else t.blockedCode)
  }

  ghost predicate EditClaim(t: Task, e: Edit, u: Task) {
    if e.status.None? || e.status == Some(Claimed) || e.status == Some(Running)
    then u.token == t.token && u.claimKind == t.claimKind && u.claimRef == t.claimRef && u.claimSource == t.claimSource
         && u.claimedBy == t.claimedBy && u.leaseUntil == t.leaseUntil
    else u.token.None? && u.claimKind.None? && u.claimRef.None? && u.claimSource.None? && u.claimedBy.None? && u.leaseUntil.None?
  }

  ghost predicate EditTimes(t: Task, e: Edit, now: int, u: Task) {
    && u.readyAt == (match (e.readyAt, e.status)
                     case (Some(r), Some(s)) => if s == Todo && r.None? then Some(now) else r
                     case (Some(r), None) => r
                     case (None, None) => t.readyAt
                     case (None, Some(s)) => if s != Todo then None else if t.readyAt.Some? then t.readyAt else Some(now))
    && u.finishedAt == (match e.status
                        case None => t.finishedAt
                        case Some(s) => if s != Completed && s != Failed && s != Cancelled then None
                                        else if t.finishedAt.Some? then t.finishedAt else Some(now))
  }

  lemma EditedColumns(t: Task, e: Edit, now: int)
    ensures EditColumns(t, e, now, EditedRow(t, e, now))
  {
    EditedValues(t, e, now);
    EditedClaim(t, e, now);
    EditedTimes(t, e, now);
    hide EditedRow, EditValues, EditClaim, EditTimes;
  }

  lemma EditedValues(t: Task, e: Edit, now: int)
    ensures EditValues(t, e, EditedRow(t, e, now))
  {
  }

  lemma EditedClaim(t: Task, e: Edit, now: int)
    ensures EditClaim(t, e, EditedRow(t, e, now))
  {
  }

  lemma EditedTimes(t: Task, e: Edit, now: int)
    ensures EditTimes(t, e, now, EditedRow(t, e, now))
  {
  }

  /** Editing a second time with the same values, at another time, changes nothing if and only if the edit does not
      make the task a todo without a ready time: that is stamped anew. */
  lemma EditTwiceIff(t: Task, e: Edit, now: int, later: int)
    requires now != later
    ensures EditedRow(EditedRow(t, e, now), e, later) == EditedRow(t, e, now) <==> !(e.status == Some(Todo) && e.readyAt == Some(None))
  {
    hide EditedRow;
    EditedColumns(t, e, now);
    EditedColumns(EditedRow(t, e, now), e, later);
  }
}
