/** What a choice that the unique index on the owner refuses does to the other runnable tasks: the query is
    deterministic, so the next claim makes the same choice again. */
module TaskConflicts {
  import opened Ordering
  import opened TaskRows
  import opened TaskScheduler
  import opened TaskFlow

  /** While the runnable tasks stay the same, one refused choice stops every claim, whichever worker asks. */
  lemma {:induction false} RefusedChoiceStopsClaims(b: Board, ids: set<int>, id: int, ops: seq<Op>)
    requires TaskFlow.Inv(b) && ids <= b.tasks.Keys && IsChoice(b.tasks, ids, id) && id in ids && OwnerTaken(b.tasks, id)
    requires forall i | 0 <= i < |ops| :: ops[i].Claim? && Runnable(b.tasks, ops[i].now, ops[i].scope, ops[i].ref) == ids
    ensures Run(b, ops) == b
    decreases |ops|
  {
    if ops != [] {
      var op := ops[|ops| - 1];
      RefusedChoiceStopsClaims(b, ids, id, ops[..|ops| - 1]);
      ChoiceIsClaimedIff(b, op.now, op.lease, op.token, op.worker, op.scope, op.ref, id);
    }
  }

  // ----- an input -----

  const Ann := Sample(1, "f", "ann")
  const AnnAtWork := ClaimedRow(Ann, Charge("p", Employee, "ann"), Todo, 9, "w", 100)
  const AnnReviewed := Sample(2, "f", "ann").(status := Review, reviewerKind := Some(Employee), reviewerRef := Some("bob"), priority := 60)
  const Cid := Sample(3, "f", "cid")

  /** Ann works on one task, another of hers waits for the idle reviewer Bob, and Cid's ranks lower. */
  function ReviewOfABusyOwner(): Board { Board(map[1 := AnnAtWork, 2 := AnnReviewed, 3 := Cid], {9}) }

  /** A run from the empty table after which no claim takes effect at any time, though Cid is idle and the
      UPDATE would accept Cid's task. */
  lemma RefusedReviewStopsOthers(ops: seq<Op>, now: int)
    requires forall i | 0 <= i < |ops| :: ops[i].Claim? && ops[i].scope.None? && ops[i].ref.None?
    ensures var b := ReviewOfABusyOwner();
            && Run(Empty(), [Create(Ann), ClaimSelected(1, Charge("p", Employee, "ann"), Todo, 0, 100, 9, "w"),
                            Create(AnnReviewed), Create(Cid)]) == b
            && Run(b, ops) == b
            && 3 in Runnable(b.tasks, now, None, None)
            && Matches(b, ClaimSelected(3, ClaimCharge(Cid), Todo, now, now + 100, 10, "w"))
  {
    var b := ReviewOfABusyOwner();
    Names();
    var start := [Create(Ann), ClaimSelected(1, Charge("p", Employee, "ann"), Todo, 0, 100, 9, "w"), Create(AnnReviewed), Create(Cid)];
    ReachesReview(start);
    RunKeepsInv(Empty(), start);
    Waiting(now);
    CidIsAccepted(now);
    forall i | 0 <= i < |ops| ensures Runnable(b.tasks, ops[i].now, ops[i].scope, ops[i].ref) == {2, 3} { Waiting(ops[i].now); }
    ReviewIsChosen();
    RefusedChoiceStopsClaims(b, {2, 3}, 2, ops);
  }

  lemma Names()
    ensures "ann" != "bob" && "ann" != "cid" && "bob" != "cid" && "ann" != "" && "bob" != "" && "cid" != "" && Employee != ""
  {
    assert "ann"[0] != "bob"[0] && "ann"[0] != "cid"[0] && "bob"[0] != "cid"[0];
  }

  function Empty(): Board { Board(map[], {}) }

  function AnnStarted(): Board { Board(map[1 := AnnAtWork], {9}) }

  lemma AnnStarts()
    ensures Run(Empty(), [Create(Ann), ClaimSelected(1, Charge("p", Employee, "ann"), Todo, 0, 100, 9, "w")]) == AnnStarted()
  {
    Names();
    var start := [Create(Ann), ClaimSelected(1, Charge("p", Employee, "ann"), Todo, 0, 100, 9, "w")];
    assert start[..1][..0] == [];
    var one := Board(map[1 := Ann], {});
    assert Run(Empty(), start[..1]) == one;
    assert !Rejected(one.tasks, AnnAtWork);
  }

  lemma ReachesReview(start: seq<Op>)
    requires start == [Create(Ann), ClaimSelected(1, Charge("p", Employee, "ann"), Todo, 0, 100, 9, "w"), Create(AnnReviewed), Create(Cid)]
    ensures Run(Empty(), start) == ReviewOfABusyOwner()
  {
    AnnStarts();
    var three := Board(AnnStarted().tasks[2 := AnnReviewed], {9});
    assert start[..3][..2] == [start[0], start[1]];
    CreateWaiting(AnnStarted(), AnnReviewed);
    assert Run(Empty(), start[..3]) == three;
    CreateWaiting(three, Cid);
  }

  lemma CreateWaiting(b: Board, row: Task)
    requires Keyed(b.tasks) && row.id !in b.tasks && row == Unclaimed(row) && !IsActive(row.status)
    ensures Allowed(b, Create(row)) && Apply(b, Create(row)) == b.(tasks := b.tasks[row.id := row])
  {
  }

  lemma Waiting(now: int)
    ensures Runnable(ReviewOfABusyOwner().tasks, now, None, None) == {2, 3}
  {
    Names();
    var tasks := ReviewOfABusyOwner().tasks;
    assert ClaimCharge(tasks[2]) == Charge("p", Employee, "bob") && ClaimCharge(tasks[3]) == Charge("p", Employee, "cid");
    assert ActiveCharge(tasks[1]).ref == "ann";
    assert !IsBusy(tasks, ClaimCharge(tasks[2])) && !IsBusy(tasks, ClaimCharge(tasks[3]));
    assert IsCandidate(tasks[2], now) && IsCandidate(tasks[3], now) && !IsCandidate(tasks[1], now);
    hide IsBusy, IsCandidate, ClaimCharge, ActiveCharge;
  }

  lemma CidIsAccepted(now: int)
    ensures Matches(ReviewOfABusyOwner(), ClaimSelected(3, ClaimCharge(Cid), Todo, now, now + 100, 10, "w"))
  {
    Names();
  }

  lemma ReviewIsChosen()
    ensures var tasks := ReviewOfABusyOwner().tasks; IsChoice(tasks, {2, 3}, 2) && OwnerTaken(tasks, 2)
  {
    var tasks := ReviewOfABusyOwner().tasks;
    assert tasks[1].ownerRef == tasks[2].ownerRef;
    ReviewIsAHead();
    ReviewRanksFirst();
    hide Heads, GlobalKey, OwnerTaken;
  }

  lemma ReviewIsAHead()
    ensures Heads(ReviewOfABusyOwner().tasks, {2, 3}) == {2, 3}
  {
    hide OwnerKey, GlobalKey;
    Names();
    var tasks := ReviewOfABusyOwner().tasks;
    assert ClaimCharge(tasks[2]).ref == "bob" && ClaimCharge(tasks[3]).ref == "cid";
    assert SameExecutor(tasks, {2, 3}, 2) == {2} && SameExecutor(tasks, {2, 3}, 3) == {3};
  }

  lemma ReviewRanksFirst()
    ensures var key := GlobalKey(ReviewOfABusyOwner().tasks); LexLess(key(2), key(3))
  {
    hide Load;
    var tasks := ReviewOfABusyOwner().tasks;
    RankMeaning(tasks[2], tasks[3]);
    RankOrder(tasks, 2, 3);
  }
}
