/** The two-stage choice of the next task: the best runnable task of every idle executor, then a global
    order that spreads equally ranked work over the flows with the least active load. */
module TaskScheduler {
  import opened Ordering
  import opened TaskRows

  const NoFlow := "__taskflow_no_flow__"

  function FlowBucket(t: Task): string { match t.flow case None => NoFlow case Some(f) => f }

  /** Claimed and running AI tasks of one profile and flow. */
  function FlowLoad(tasks: map<int, Task>, profile: string, bucket: string): int {
    |set id | id in tasks && IsActive(tasks[id].status) && ActiveCharge(tasks[id]).kind == Employee
              && tasks[id].profile == profile && FlowBucket(tasks[id]) == bucket|
  }

  function Load(tasks: map<int, Task>, id: int): int
    requires id in tasks
  {
    FlowLoad(tasks, tasks[id].profile, FlowBucket(tasks[id]))
  }

  /** Priority first, then due date: what the scheduler promises to respect globally. */
  function Rank(t: Task): (key: seq<int>)
    ensures |key| == 3
  {
    [-t.priority] + NullsLast(t.dueAt)
  }

  function Age(t: Task): seq<int> { NullsLast(t.readyAt) + [t.createdAt, t.id] }

  /** `_task_claim_base_ordering` */
  function OwnerKey(tasks: map<int, Task>): int -> seq<int> {
    (id: int) => if id in tasks then Rank(tasks[id]) + Age(tasks[id]) else []
  }

  function GlobalKey(tasks: map<int, Task>): int -> seq<int> {
    (id: int) => if id in tasks then Rank(tasks[id]) + ([Load(tasks, id)] + Age(tasks[id])) else []
  }

  function SameExecutor(tasks: map<int, Task>, ids: set<int>, id: int): set<int>
    requires id in tasks && ids <= tasks.Keys
  {
    set other | other in ids && ClaimCharge(tasks[other]) == ClaimCharge(tasks[id])
  }

  /** The rows with `owner_rank == 1`. */
  ghost predicate IsHead(tasks: map<int, Task>, ids: set<int>, id: int)
    requires ids <= tasks.Keys
  {
    id in ids && IsLeast(SameExecutor(tasks, ids, id), OwnerKey(tasks), id)
  }

  ghost function Heads(tasks: map<int, Task>, ids: set<int>): set<int>
    requires ids <= tasks.Keys
  {
    set id | id in ids && IsHead(tasks, ids, id)
  }

  /** The answer of the eligibility query. */
  ghost predicate IsChoice(tasks: map<int, Task>, ids: set<int>, id: int)
    requires ids <= tasks.Keys
  {
    IsLeast(Heads(tasks, ids), GlobalKey(tasks), id)
  }

  // ----- the keys are injective, so both stages have one answer -----

  lemma LexSame(p: seq<int>, a: seq<int>, b: seq<int>)
    ensures LexLess(p + a, p + b) <==> LexLess(a, b)
  {
    LexPrefix(p, p, a, b);
    LexIrreflexive(p);
  }

  lemma KeysInjective(tasks: map<int, Task>, ids: set<int>)
    requires Keyed(tasks) && ids <= tasks.Keys
    ensures Injective(ids, OwnerKey(tasks)) && Injective(ids, GlobalKey(tasks))
  {
    forall x, y | x in ids && y in ids && OwnerKey(tasks)(x) == OwnerKey(tasks)(y) ensures x == y {
      assert OwnerKey(tasks)(x)[6] == OwnerKey(tasks)(y)[6];
    }
    forall x, y | x in ids && y in ids && GlobalKey(tasks)(x) == GlobalKey(tasks)(y) ensures x == y {
      assert GlobalKey(tasks)(x)[7] == GlobalKey(tasks)(y)[7];
    }
  }

  lemma HeadOf(tasks: map<int, Task>, ids: set<int>, id: int) returns (head: int)
    requires Keyed(tasks) && ids <= tasks.Keys && id in ids
    ensures IsHead(tasks, ids, head) && ClaimCharge(tasks[head]) == ClaimCharge(tasks[id])
    ensures head == id || LexLess(OwnerKey(tasks)(head), OwnerKey(tasks)(id))
  {
    var peers := SameExecutor(tasks, ids, id);
    KeysInjective(tasks, peers);
    assert id in peers;
    head := LeastExists(peers, OwnerKey(tasks));
    assert SameExecutor(tasks, ids, head) == peers;
  }

  /** A choice exists exactly when something is runnable, and it is unique. */
  lemma ChoiceExists(tasks: map<int, Task>, ids: set<int>) returns (id: int)
    requires Keyed(tasks) && ids <= tasks.Keys && ids != {}
    ensures IsChoice(tasks, ids, id) && id in ids
  {
    var head := HeadOf(tasks, ids, Any(ids));
    assert head in Heads(tasks, ids);
    KeysInjective(tasks, Heads(tasks, ids));
    id := LeastExists(Heads(tasks, ids), GlobalKey(tasks));
  }

  lemma RankOrder(tasks: map<int, Task>, a: int, b: int)
    requires a in tasks && b in tasks
    ensures LexLess(OwnerKey(tasks)(a), OwnerKey(tasks)(b)) <==>
              LexLess(Rank(tasks[a]), Rank(tasks[b])) || (Rank(tasks[a]) == Rank(tasks[b]) && LexLess(Age(tasks[a]), Age(tasks[b])))
    ensures LexLess(GlobalKey(tasks)(a), GlobalKey(tasks)(b)) <==>
              LexLess(Rank(tasks[a]), Rank(tasks[b])) ||
              (Rank(tasks[a]) == Rank(tasks[b]) &&
               (Load(tasks, a) < Load(tasks, b) || (Load(tasks, a) == Load(tasks, b) && LexLess(Age(tasks[a]), Age(tasks[b])))))
  {
    LexPrefix(Rank(tasks[a]), Rank(tasks[b]), Age(tasks[a]), Age(tasks[b]));
    LexPrefix(Rank(tasks[a]), Rank(tasks[b]), [Load(tasks, a)] + Age(tasks[a]), [Load(tasks, b)] + Age(tasks[b]));
    LexPrefix([Load(tasks, a)], [Load(tasks, b)], Age(tasks[a]), Age(tasks[b]));
  }

  lemma RankTransitive(tasks: map<int, Task>, a: int, b: int, c: int)
    requires a in tasks && b in tasks && c in tasks
    requires !LexLess(Rank(tasks[b]), Rank(tasks[a])) && !LexLess(Rank(tasks[c]), Rank(tasks[b]))
    ensures !LexLess(Rank(tasks[c]), Rank(tasks[a]))
  {
    var x, y, z := Rank(tasks[a]), Rank(tasks[b]), Rank(tasks[c]);
    LexTotal(x, y);
    LexTotal(y, z);
    if LexLess(z, x) {
      if x == y || y == z { } else { LexTransitive(z, x, y); }
    }
  }

  /** Optimality: no runnable task at all outranks the chosen one by priority and due date; among the
      heads of the same rank it has the least flow load, and among those it is the oldest. */
  lemma ChoiceIsOptimal(tasks: map<int, Task>, ids: set<int>, choice: int)
    requires Keyed(tasks) && ids <= tasks.Keys && IsChoice(tasks, ids, choice)
    ensures choice in ids
    ensures forall id | id in ids :: !LexLess(Rank(tasks[id]), Rank(tasks[choice]))
    ensures forall id | id in Heads(tasks, ids) && Rank(tasks[id]) == Rank(tasks[choice]) ::
              Load(tasks, choice) <= Load(tasks, id)
    ensures forall id | id in Heads(tasks, ids) && id != choice && Rank(tasks[id]) == Rank(tasks[choice])
                        && Load(tasks, id) == Load(tasks, choice) :: LexLess(Age(tasks[choice]), Age(tasks[id]))
  {
    LexIrreflexive(Rank(tasks[choice]));
    forall id | id in ids ensures !LexLess(Rank(tasks[id]), Rank(tasks[choice])) {
      var head := HeadOf(tasks, ids, id);
      assert !LexLess(Rank(tasks[id]), Rank(tasks[head])) by { OrderedRanks(tasks, head, id); }
      assert !LexLess(Rank(tasks[head]), Rank(tasks[choice])) by {
        assert head in Heads(tasks, ids);
        OrderedRanks(tasks, choice, head);
      }
      RankTransitive(tasks, choice, head, id);
    }
    forall id | id in Heads(tasks, ids) && id != choice && Rank(tasks[id]) == Rank(tasks[choice])
      ensures Load(tasks, choice) <= Load(tasks, id)
      ensures Load(tasks, id) == Load(tasks, choice) ==> LexLess(Age(tasks[choice]), Age(tasks[id]))
    {
      RankOrder(tasks, choice, id);
    }
  }

  lemma OrderedRanks(tasks: map<int, Task>, a: int, b: int)
    requires a in tasks && b in tasks
    requires a == b || LexLess(OwnerKey(tasks)(a), OwnerKey(tasks)(b)) || LexLess(GlobalKey(tasks)(a), GlobalKey(tasks)(b))
    ensures !LexLess(Rank(tasks[b]), Rank(tasks[a]))
  {
    RankOrder(tasks, a, b);
    LexIrreflexive(Rank(tasks[a]));
    if LexLess(Rank(tasks[a]), Rank(tasks[b])) && LexLess(Rank(tasks[b]), Rank(tasks[a])) {
      LexTransitive(Rank(tasks[a]), Rank(tasks[b]), Rank(tasks[a]));
    }
  }

  /** What the ranks say in the columns' own terms. */
  lemma RankMeaning(a: Task, b: Task)
    ensures LexLess(Rank(a), Rank(b)) <==>
              a.priority > b.priority ||
              (a.priority == b.priority && a.dueAt.Some? && (b.dueAt.None? || a.dueAt.value < b.dueAt.value))
  {
    LexPrefix([-a.priority], [-b.priority], NullsLast(a.dueAt), NullsLast(b.dueAt));
    var x, y := NullsLast(a.dueAt), NullsLast(b.dueAt);
    assert LexLess(x, y) <==> x[0] < y[0] || (x[0] == y[0] && x[1] < y[1]) by {
      LexPrefix([x[0]], [y[0]], [x[1]], [y[1]]);
      assert x == [x[0]] + [x[1]] && y == [y[0]] + [y[1]];
    }
  }

  // ----- the query, stage by stage -----

  /** `row_number() OVER (PARTITION BY .. ORDER BY ..) == 1`, one partition at a time. */
  method FindHeads(tasks: map<int, Task>, ids: set<int>) returns (heads: set<int>)
    requires Keyed(tasks) && ids <= tasks.Keys
    ensures heads == Heads(tasks, ids)
  {
    hide OwnerKey, IsLeast, IsHead;
    heads := {};
    var rest := ids;
    while rest != {}
      invariant rest <= ids && WholePartitions(tasks, ids, rest)
      invariant heads == set id | id in ids - rest && IsHead(tasks, ids, id)
      decreases |rest|
    {
      assert exists id :: id in rest by { var id := Any(rest); }
      var id :| id in rest;
      var peers := SameExecutor(tasks, ids, id);
      assert id in peers;
      KeysInjective(tasks, peers);
      var head := FindLeast(peers, OwnerKey(tasks));
      PartitionHead(tasks, ids, rest, id, head);
      heads := heads + {head};
      rest := rest - peers;
    }
  }

  ghost predicate WholePartitions(tasks: map<int, Task>, ids: set<int>, rest: set<int>)
    requires rest <= ids <= tasks.Keys
  {
    forall id | id in rest :: SameExecutor(tasks, ids, id) <= rest
  }

  lemma PartitionHead(tasks: map<int, Task>, ids: set<int>, rest: set<int>, id: int, head: int)
    requires rest <= ids <= tasks.Keys && WholePartitions(tasks, ids, rest)
    requires id in rest && IsLeast(SameExecutor(tasks, ids, id), OwnerKey(tasks), head)
    ensures forall other | other in SameExecutor(tasks, ids, id) :: IsHead(tasks, ids, other) <==> other == head
    ensures head in SameExecutor(tasks, ids, id) && SameExecutor(tasks, ids, id) <= rest
    ensures WholePartitions(tasks, ids, rest - SameExecutor(tasks, ids, id))
  {
    var peers := SameExecutor(tasks, ids, id);
    hide OwnerKey;
    forall other | other in peers ensures IsHead(tasks, ids, other) <==> other == head {
      assert SameExecutor(tasks, ids, other) == peers;
      if IsHead(tasks, ids, other) { LeastUnique(peers, OwnerKey(tasks), other, head); }
    }
  }

  /** The whole eligibility query with its `LIMIT 1`. */
  method SelectNext(tasks: map<int, Task>, now: int, profile: Option<string>, ref: Option<string>) returns (choice: Option<int>)
    requires Keyed(tasks)
    ensures choice.None? <==> Runnable(tasks, now, profile, ref) == {}
    ensures choice.Some? ==> IsChoice(tasks, Runnable(tasks, now, profile, ref), choice.value)
  {
    var ids := Runnable(tasks, now, profile, ref);
    if ids == {} { return None; }
    var heads := FindHeads(tasks, ids);
    ghost var any := ChoiceExists(tasks, ids);
    KeysInjective(tasks, heads);
    var id := FindLeast(heads, GlobalKey(tasks));
    choice := Some(id);
  }

  // ----- the flow load balances heads only -----

  /** Runnable tasks that rank as high as the choice. */
  ghost function Peers(tasks: map<int, Task>, ids: set<int>, choice: int): set<int>
    requires ids <= tasks.Keys && choice in tasks
  {
    set id | id in ids && Rank(tasks[id]) == Rank(tasks[choice])
  }

  /** The choice has the least flow load among ALL runnable tasks that rank as high, heads of their executor
      or not, if and only if none of them lies in a flow with less load than every equally ranked head. */
  lemma LoadIsLeastIff(tasks: map<int, Task>, ids: set<int>, choice: int)
    requires Keyed(tasks) && ids <= tasks.Keys && IsChoice(tasks, ids, choice)
    ensures (forall id | id in Peers(tasks, ids, choice) :: Load(tasks, choice) <= Load(tasks, id)) <==>
            (forall id | id in Peers(tasks, ids, choice) ::
               exists head :: head in Heads(tasks, ids) && head in Peers(tasks, ids, choice) && Load(tasks, head) <= Load(tasks, id))
  {
    ChoiceIsOptimal(tasks, ids, choice);
    assert choice in Heads(tasks, ids) && choice in Peers(tasks, ids, choice);
    hide Heads, IsChoice, Load, OwnerKey, GlobalKey;
  }

  /** In particular it is the least as soon as no executor's head is passed by a less loaded task of the same
      executor and rank; and the head of such a task always ranks as high as the choice. */
  lemma HeadsOfPeersArePeers(tasks: map<int, Task>, ids: set<int>, choice: int, id: int) returns (head: int)
    requires Keyed(tasks) && ids <= tasks.Keys && IsChoice(tasks, ids, choice) && id in Peers(tasks, ids, choice)
    ensures head in Heads(tasks, ids) && head in Peers(tasks, ids, choice) && ClaimCharge(tasks[head]) == ClaimCharge(tasks[id])
  {
    head := HeadOf(tasks, ids, id);
    ChoiceIsOptimal(tasks, ids, choice);
    OrderedRanks(tasks, head, id);
    LexTotal(Rank(tasks[head]), Rank(tasks[choice]));
  }

  function Sample(id: int, flow: string, owner: string): Task {
    Task(id, "p", Some(flow), Todo, 50, None, None, id, Employee, owner, None, None, None,
         None, None, None, None, None, None, 0, None, None, None, None)
  }

  function BusyAnn(): map<int, Task> {
    map[1 := ClaimedRow(Sample(1, "busy", "ann"), Charge("p", Employee, "ann"), Todo, 9, "w", 100),
        2 := Sample(2, "busy", "bob"), 3 := Sample(3, "idle", "bob")]
  }

  /** The shortlist is taken before the load is looked at: with one executor's older task in a busy flow
      and its newer, equally ranked task in an idle flow, the busy flow wins. */
  lemma LoadIsNotBalancedWithinAnExecutor()
    ensures var tasks := BusyAnn();
            && Inv(tasks)
            && Runnable(tasks, 0, None, None) == {2, 3}
            && Rank(tasks[3]) == Rank(tasks[2]) && Load(tasks, 3) < Load(tasks, 2)
            && IsChoice(tasks, {2, 3}, 2)
  {
    BusyAnnInv();
    BusyAnnRunnable();
    BusyAnnLoads();
    var tasks := BusyAnn();
    assert tasks.Keys == {1, 2, 3} && ClaimCharge(tasks[2]) == ClaimCharge(tasks[3]) && Rank(tasks[3]) == Rank(tasks[2]);
    hide Inv, Runnable;
    OlderOfOneExecutor(tasks, 2, 3);
  }

  lemma OlderOfOneExecutor(tasks: map<int, Task>, a: int, b: int)
    requires a in tasks && b in tasks && a != b && ClaimCharge(tasks[a]) == ClaimCharge(tasks[b])
    requires Rank(tasks[a]) == Rank(tasks[b]) && tasks[a].readyAt == tasks[b].readyAt && tasks[a].createdAt < tasks[b].createdAt
    ensures IsChoice(tasks, {a, b}, a)
  {
    var ids := {a, b};
    assert SameExecutor(tasks, ids, a) == ids && SameExecutor(tasks, ids, b) == ids;
    OlderFirst(tasks, a, b);
    hide OwnerKey, GlobalKey, Rank;
    assert IsLeast(ids, OwnerKey(tasks), a);
    assert !IsHead(tasks, ids, b) by {
      if IsHead(tasks, ids, b) { LeastUnique(ids, OwnerKey(tasks), a, b); }
    }
    assert Heads(tasks, ids) == {a};
  }

  lemma BusyAnnInv()
    ensures Inv(BusyAnn())
  {
    var tasks := BusyAnn();
    assert forall id | id in tasks :: id == 1 || (!IsActive(tasks[id].status) && tasks[id].token.None?);
    assert ClaimMatchesStatus(tasks[1]) && ClaimMatchesStatus(tasks[2]) && ClaimMatchesStatus(tasks[3]);
    hide ActiveCharge, ClaimMatchesStatus;
  }

  lemma BusyAnnRunnable()
    ensures Runnable(BusyAnn(), 0, None, None) == {2, 3}
  {
    var tasks := BusyAnn();
    assert "ann" != "bob" by { assert "ann"[0] != "bob"[0]; }
    assert ActiveCharge(tasks[1]).ref == "ann";
    assert ClaimCharge(tasks[2]) == ClaimCharge(tasks[3]) == Charge("p", Employee, "bob");
    assert !IsBusy(tasks, Charge("p", Employee, "bob"));
    assert "bob" != "";
    hide IsBusy, ActiveCharge, ClaimCharge;
    assert IsCandidate(tasks[2], 0) && IsCandidate(tasks[3], 0) && !IsCandidate(tasks[1], 0);
  }

  lemma BusyAnnLoads()
    ensures Load(BusyAnn(), 2) == 1 && Load(BusyAnn(), 3) == 0
  {
    var tasks := BusyAnn();
    assert "busy" != "idle" by { assert "busy"[0] != "idle"[0]; }
    assert (set id | id in tasks && IsActive(tasks[id].status) && ActiveCharge(tasks[id]).kind == Employee
                     && tasks[id].profile == "p" && FlowBucket(tasks[id]) == "busy") == {1};
    assert (set id | id in tasks && IsActive(tasks[id].status) && ActiveCharge(tasks[id]).kind == Employee
                     && tasks[id].profile == "p" && FlowBucket(tasks[id]) == "idle") == {};
  }

  lemma OlderFirst(tasks: map<int, Task>, a: int, b: int)
    requires a in tasks && b in tasks && Rank(tasks[a]) == Rank(tasks[b])
    requires tasks[a].readyAt == tasks[b].readyAt && tasks[a].createdAt < tasks[b].createdAt
    ensures LexLess(OwnerKey(tasks)(a), OwnerKey(tasks)(b))
  {
    LexSame(NullsLast(tasks[a].readyAt), [tasks[a].createdAt, tasks[a].id], [tasks[b].createdAt, tasks[b].id]);
    RankOrder(tasks, a, b);
  }
}
