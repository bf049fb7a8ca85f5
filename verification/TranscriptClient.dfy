/** What a caller of the store sees from one transaction to the next, in the columns of the turns: a created
    turn is read back with its own texts after all earlier ones, a prune removes exactly the oldest turns up
    to its bound, and a read lists exactly what is left. */
module TranscriptClient {
  import opened Ordering
  import opened TranscriptLog
  import opened TranscriptMachine
  import opened TranscriptTheorems
  import opened TranscriptFiles
  import opened TranscriptStore
  import opened DualMirror
  import opened PruneRounds

  // ----- a created turn -----

  /** A turn above every id of its profile and session is shown, and hides nothing. */
  lemma NewTurnShows(st: State, k: Key, content: Content)
    requires Inv(st) && k.id >= 1
    requires forall g | g in Source(st) && g.TurnFact? && g.key.profile == k.profile && g.key.session == k.session :: g.key.id < k.id
    ensures Visible(Source(st) + {TurnFact(k, content)}) == Visible(Source(st)) + {TurnFact(k, content)}
  {
    var f, source := TurnFact(k, content), Source(st);
    SourcePrunesAreIds(st);
    forall b | PruneFact(k.profile, k.session, b) in source ensures b < k.id {
      var g :| g in Of(source, k.profile, k.session) && g.key.id == b;
    }
    assert !Hidden(source, k);
    SamePrunesSameHidden(source, source + {f});
  }

  lemma SourcePrunesAreIds(st: State)
    requires Inv(st)
    ensures forall p, s, b | PruneFact(p, s, b) in Source(st) :: b in Ids(Source(st), p, s)
  {
    forall p, s, b | PruneFact(p, s, b) in Source(st) ensures b in Ids(Source(st), p, s) {
      assert PruneFact(p, s, b) in Committed(st);
    }
  }

  lemma RunMore(st: State, steps: seq<Step>, step: Step)
    ensures Run(st, steps + [step]) ==
            if Enabled(Run(st, steps), step) then Do(Run(st, steps), step) else Run(st, steps)
  {
    assert (steps + [step])[..|steps|] == steps;
  }

  lemma {:induction false} RunSplits(st: State, first: seq<Step>, rest: seq<Step>)
    ensures Run(st, first + rest) == Run(Run(st, first), rest)
    decreases |rest|
  {
    hide Enabled, Do;
    if rest == [] {
      assert first + rest == first;
    } else {
      RunSplits(st, first, rest[..|rest| - 1]);
      RunMore(st, first + rest[..|rest| - 1], rest[|rest| - 1]);
      RunMore(Run(st, first), rest[..|rest| - 1], rest[|rest| - 1]);
      assert first + rest == first + rest[..|rest| - 1] + [rest[|rest| - 1]];
      assert rest == rest[..|rest| - 1] + [rest[|rest| - 1]];
    }
  }

  /** The create of either mode. */
  ghost function CreateStep(st: State, id: int, p: string, s: string, content: Content, oid: int): Step {
    if st.backend.Jsonl? then CreateJsonl(p, s, content, oid) else CreateDual(id, p, s, content, oid)
  }

  /** `id` is above every turn committed so far: what the table hands out when ids are never reused. */
  ghost predicate AboveAll(st: State, id: int) {
    id >= 1 && forall f | f in Source(st) && f.TurnFact? :: f.key.id < id
  }

  /** Begin, create, commit, and any callbacks and crashes: the committed view gains exactly one turn, with the
      given texts, above every earlier id of its profile and session. */
  lemma CreatedTurnIsCommitted(st: State, rowId: int, p: string, s: string, content: Content, oid: int, delivery: seq<Step>) returns (id: int)
    requires Inv(st) && st.txn.None? && oid !in st.outbox && IsDelivery(delivery) && (st.backend.Dual? ==> AboveAll(st, rowId))
    ensures var after := Run(st, [Begin, CreateStep(st, rowId, p, s, content, oid), Commit] + delivery);
            && Inv(after) && after.txn.None?
            && CommittedView(after) == CommittedView(st) + {TurnFact(Key(p, s, id), content)}
            && (after.backend.Dual? ==> after.table == st.table + {TurnFact(Key(p, s, id), content)})
    ensures id >= 1 && forall f | f in Source(st) && f.TurnFact? && f.key.profile == p && f.key.session == s :: f.key.id < id
  {
    var create := CreateStep(st, rowId, p, s, content, oid);
    var open := Do(st, Begin);
    hide Run, Inv, Enabled, Do, Visible, Allocated, Committed, Source, IsDelivery, AboveAll;
    OpenedWith(st, rowId, p, s, content, oid);
    id := Created(open, rowId, p, s, content, oid);
    var after := DoCommit(Do(open, create));
    ThreeSteps(st, create);
    RunSplits(st, [Begin, create, Commit], delivery);
    DeliveryKeepsView(after, delivery);
    NewTurnShows(st, Key(p, s, id), content);
    ViewOfTable(st);
    ViewOfTable(Run(after, delivery));
  }

  lemma OpenedWith(st: State, rowId: int, p: string, s: string, content: Content, oid: int)
    requires Inv(st) && st.txn.None? && oid !in st.outbox && (st.backend.Dual? ==> AboveAll(st, rowId))
    ensures Enabled(st, Begin)
    ensures var open := Do(st, Begin);
            && Inv(open) && Enabled(open, CreateStep(st, rowId, p, s, content, oid)) && open.txn.value.added == []
            && open.backend == st.backend && Source(open) == Source(st)
  {
    BeginInv(st);
    var open := Do(st, Begin);
    assert Committed(open) == Committed(st);
    assert AddedFacts(open.txn.value) == {} && AddedOids([]) == {};
    assert Source(open) + {} == Source(open);
  }

  lemma IsOpen(open: State, rowId: int, p: string, s: string, content: Content, oid: int)
    requires Enabled(open, CreateStep(open, rowId, p, s, content, oid))
    ensures open.txn.Some?
  {
  }

  /** What the create enqueues, from the state before it. */
  lemma Created(open: State, rowId: int, p: string, s: string, content: Content, oid: int) returns (id: int)
    requires Inv(open) && Enabled(open, CreateStep(open, rowId, p, s, content, oid)) && open.txn.Some? && open.txn.value.added == []
    ensures var after := Do(open, CreateStep(open, rowId, p, s, content, oid));
            && Inv(after) && after.txn.Some? && after.backend == open.backend
            && Inv(DoCommit(after)) && Source(DoCommit(after)) == Source(open) + {TurnFact(Key(p, s, id), content)}
    ensures id == if open.backend.Jsonl? then Allocated(open, p, s) else rowId
    ensures id >= 1 && forall f | f in Source(open) && f.TurnFact? && f.key.profile == p && f.key.session == s :: f.key.id < id
  {
    hide Inv, Source, Committed, AddedFacts, Enabled, DoCommit, Allocated, CreateStep, Do;
    var create := CreateStep(open, rowId, p, s, content, oid);
    IsOpen(open, rowId, p, s, content, oid);
    id := if open.backend.Jsonl? then Allocated(open, p, s) else rowId;
    StepInv(open, create);
    AddedNothing(open);
    CreatedId(open, rowId, p, s, content, oid);
    CreatedFacts(open, rowId, p, s, content, oid);
    CommitSource(Do(open, create));
    CommitInv(Do(open, create));
    assert Source(open) + {} == Source(open);
  }

  lemma AddedNothing(open: State)
    requires open.txn.Some? && open.txn.value.added == []
    ensures AddedFacts(open.txn.value) == {}
  {
  }

  lemma CreatedId(open: State, rowId: int, p: string, s: string, content: Content, oid: int)
    requires Inv(open) && Enabled(open, CreateStep(open, rowId, p, s, content, oid))
    ensures var id := if open.backend.Jsonl? then Allocated(open, p, s) else rowId;
            id >= 1 && forall f | f in Source(open) && f.TurnFact? && f.key.profile == p && f.key.session == s :: f.key.id < id
  {
    if open.backend.Jsonl? { AllocatedIsFresh(open, p, s); }
  }

  lemma CreatedFacts(open: State, rowId: int, p: string, s: string, content: Content, oid: int)
    requires open.txn.Some? && Enabled(open, CreateStep(open, rowId, p, s, content, oid))
    ensures var after, id := Do(open, CreateStep(open, rowId, p, s, content, oid)), if open.backend.Jsonl? then Allocated(open, p, s) else rowId;
            && after.txn.Some? && after.backend == open.backend && Source(after) == Source(open)
            && AddedFacts(after.txn.value) == AddedFacts(open.txn.value) + {TurnFact(Key(p, s, id), content)}
  {
    var id := if open.backend.Jsonl? then Allocated(open, p, s) else rowId;
    var f, t := TurnFact(Key(p, s, id), content), open.txn.value;
    hide Allocated, Source, AddedFacts, Committed;
    assert OnlySaid({f}) == {f};
    if open.backend.Jsonl? {
      EnqueuedFacts(open, f, oid, t.counters[s := id + 1], t.table);
    } else {
      EnqueuedFacts(open, f, oid, Ensure(t.counters, s, id + 1), t.table + {f});
    }
  }

  lemma ThreeSteps(st: State, create: Step)
    requires Enabled(st, Begin) && Enabled(Do(st, Begin), create) && Do(Do(st, Begin), create).txn.Some?
    ensures Run(st, [Begin, create, Commit]) == DoCommit(Do(Do(st, Begin), create))
  {
    hide Enabled, Do;
    RunMore(st, [], Begin);
    RunMore(st, [Begin], create);
    RunMore(st, [Begin, create], Commit);
    assert [] + [Begin] == [Begin] && [Begin] + [create] == [Begin, create] && [Begin, create] + [Commit] == [Begin, create, Commit];
    CommitEnabled(Do(Do(st, Begin), create));
  }

  lemma CommitEnabled(st: State)
    requires st.txn.Some?
    ensures Enabled(st, Commit) && Do(st, Commit) == DoCommit(st)
  {
  }

  // ----- a prune -----

  /** The ids of one profile and session in the view below an id. */
  ghost function Older(view: set<Fact>, p: string, s: string, id: int): set<int> {
    set g | g in view && g.TurnFact? && g.key.profile == p && g.key.session == s && g.key.id < id :: g.key.id
  }

  /** The first n ids are those with fewer than n ids below them. */
  lemma FirstByRank(ids: set<int>, n: nat, x: int)
    requires x in ids
    ensures x in FirstIds(ids, n) <==> |set y | y in ids && y < x| < n
  {
    var sel, below := FirstIds(ids, n), set y | y in ids && y < x;
    FirstIdsAreBelow(ids, n, sel);
    if x in sel {
      assert below <= sel - {x};
      SubsetSize(below, sel - {x});
    } else {
      assert sel <= below;
      SubsetSize(sel, below);
      SubsetSize(sel, ids - {x});
    }
  }

  /** Is the turn among the oldest turns up to the bound, as many as the limit allows? */
  lemma SelectedByRank(view: set<Fact>, p: string, s: string, maxId: int, limit: Option<int>, id: int)
    requires id in Ids(view, p, s)
    ensures id in Selected(Ids(view, p, s), maxId, limit) <==>
              id <= maxId && (limit.Some? ==> |Older(view, p, s, id)| < Max(1, limit.value))
  {
    var eligible := UpTo(Ids(view, p, s), maxId);
    if id <= maxId {
      var below := set y | y in eligible && y < id;
      FirstByRank(eligible, Quota(eligible, limit), id);
      forall y ensures y in below <==> y in Older(view, p, s, id) {
        if y in Older(view, p, s, id) {
          var g :| g in view && g.TurnFact? && g.key.profile == p && g.key.session == s && g.key.id < id && g.key.id == y;
          assert g in Of(view, p, s);
        }
        if y in below {
          var g :| g in Of(view, p, s) && g.key.id == y;
        }
      }
      assert below == Older(view, p, s, id);
      assert below <= eligible - {id};
      SubsetSize(below, eligible - {id});
    }
  }

  /** Is the turn one of the oldest turns of the profile and session up to the bound, max(1, limit) of them at
      most? */
  ghost predicate IsOldest(view: set<Fact>, p: string, s: string, maxId: int, limit: Option<int>, f: Fact)
  {
    && f.TurnFact? && f.key.profile == p && f.key.session == s && f.key.id <= maxId
    && (limit.Some? ==> |Older(view, p, s, f.key.id)| < Max(1, limit.value))
  }

  lemma OldestMeans(view: set<Fact>, p: string, s: string, maxId: int, limit: Option<int>, f: Fact)
    ensures IsOldest(view, p, s, maxId, limit, f) <==>
              && f.TurnFact? && f.key.profile == p && f.key.session == s && f.key.id <= maxId
              && (limit.Some? ==> |Older(view, p, s, f.key.id)| < Max(1, limit.value))
  {
  }

  lemma LeftByRank(view: set<Fact>, p: string, s: string, maxId: int, limit: Option<int>, f: Fact)
    requires s != "" && forall g | g in view :: g.TurnFact?
    ensures f in RoundLeaves(view, p, s, maxId, limit) <==> f in view && !IsOldest(view, p, s, maxId, limit, f)
  {
    hide Selected, Older;
    if f in view && f.key.profile == p && f.key.session == s {
      assert f in Of(view, p, s);
      SelectedByRank(view, p, s, maxId, limit, f.key.id);
    }
  }

  /** A bounded prune in its own transaction, in either mode, removes exactly the oldest turns of the profile and
      session up to the bound, max(1, limit) of them at most, and touches no other turn. */
  lemma PruneRemovesTheOldest(st: State, p: string, s: string, maxId: int, limit: Option<int>, delivery: seq<Step>, f: Fact)
    requires Inv(st) && st.txn.None? && IsDelivery(delivery) && s != ""
    ensures f in CommittedView(PruneRound(st, p, s, maxId, limit, delivery)) <==>
              && f in CommittedView(st)
              && !(f.TurnFact? && f.key.profile == p && f.key.session == s && f.key.id <= maxId
                   && (limit.Some? ==> |Older(CommittedView(st), p, s, f.key.id)| < Max(1, limit.value)))
  {
    hide PruneRound, CommittedView, RoundLeaves;
    PruneRoundView(st, p, s, maxId, limit, delivery);
    ViewTurns(st);
    LeftByRank(CommittedView(st), p, s, maxId, limit, f);
  }

  lemma ViewTurns(st: State)
    ensures forall f | f in CommittedView(st) :: f.TurnFact?
  {
  }

  lemma OpenedEmpty(st: State, oid: int)
    requires Inv(st) && st.txn.None? && oid !in st.outbox
    ensures Enabled(st, Begin)
    ensures var open := Do(st, Begin);
            Inv(open) && FreeOid(open, oid) && open.txn.value.added == [] && open.backend == st.backend && Source(open) == Source(st)
  {
    BeginInv(st);
    assert Committed(Do(st, Begin)) == Committed(st);
    assert AddedOids([]) == {};
  }

  lemma SameSourceSameView(a: State, b: State)
    requires Source(a) == Source(b)
    ensures CommittedView(a) == CommittedView(b)
  {
  }

  /** What a prune in its own transaction commits, and how many turns it counts. */
  lemma PrunedInTransaction(st: State, p: string, s: string, maxId: int, limit: Option<int>, oid: int)
    requires Inv(st) && st.txn.None? && oid !in st.outbox && s != ""
    ensures Enabled(st, Begin) && Do(st, Begin).txn.Some?
    ensures var open := Do(st, Begin);
            var after := PruneIn(open, p, s, maxId, limit, oid);
            && Inv(after) && after.txn.Some?
            && CommittedView(DoCommit(after)) == RoundLeaves(CommittedView(st), p, s, maxId, limit)
            && PrunedCount(open, p, s, maxId, limit) == |CommittedView(st)| - |RoundLeaves(CommittedView(st), p, s, maxId, limit)|
  {
    hide Inv, Enabled, Selected, Without, FreeOid, PruneIn, Visible, Source, DoCommit, Boundary;
    OpenedEmpty(st, oid);
    assert Enabled(st, Begin);
    var open := Do(st, Begin);
    var selected := Selected(Ids(CommittedView(st), p, s), maxId, limit);
    PruneInFirst(open, p, s, maxId, limit, oid);
    var after := PruneIn(open, p, s, maxId, limit, oid);
    PrunedTransaction(open, after, p, s, selected, oid);
    BoundedView(Source(st), p, s, maxId, limit);
    CountIsSelected(open, p, s, maxId, limit);
    ViewIsConsistent(st);
    SelectedAreIds(CommittedView(st), p, s, maxId, limit);
    WithoutSize(CommittedView(st), p, s, selected);
  }

  /** The number the store returns. */
  ghost function PrunedCount(open: State, p: string, s: string, maxId: int, limit: Option<int>): nat
    requires open.txn.Some?
  {
    if open.backend.Jsonl? then |Pruned(open, p, s, maxId, limit, false)| else |Deleted(open.txn.value.table, p, s, maxId, limit)|
  }

  lemma CountIsSelected(open: State, p: string, s: string, maxId: int, limit: Option<int>)
    requires Inv(open) && open.txn.Some? && open.txn.value.added == []
    ensures PrunedCount(open, p, s, maxId, limit) == |Selected(Ids(CommittedView(open), p, s), maxId, limit)|
  {
    VisibleIdsArePositive(Source(open));
    SmallIdsNotSelected(CommittedView(open), p, s, maxId, limit);
    ShownIsCommitted(open, p, s);
    if open.backend.Dual? { OpenTable(open); }
  }

  lemma OpenTable(open: State)
    requires Inv(open) && open.txn.Some? && open.txn.value.added == [] && open.backend.Dual?
    ensures open.txn.value.table == CommittedView(open)
  {
    AddedNothing(open);
    assert Source(open) + {} == Source(open);
  }

  lemma ViewIsConsistent(st: State)
    requires Inv(st)
    ensures Consistent(CommittedView(st))
  {
  }

  lemma SelectedAreIds(view: set<Fact>, p: string, s: string, maxId: int, limit: Option<int>)
    ensures Selected(Ids(view, p, s), maxId, limit) <= Ids(view, p, s)
  {
    PruneCount(Ids(view, p, s), maxId, limit);
  }

  lemma {:induction false} WithoutSize(view: set<Fact>, p: string, s: string, ids: set<int>)
    requires Consistent(view) && ids <= Ids(view, p, s)
    ensures |Without(view, p, s, ids)| == |view| - |ids|
    decreases |ids|
  {
    if ids == {} {
      assert Without(view, p, s, ids) == view;
    } else {
      var id :| id in ids;
      var f :| f in Of(view, p, s) && f.key.id == id;
      var rest := ids - {id};
      WithoutSize(view, p, s, rest);
      forall g ensures g in Without(view, p, s, ids) <==> g in Without(view, p, s, rest) - {f} {
        if g in Of(view, p, s) && g.key.id == id { assert g.key == f.key; }
      }
      assert Without(view, p, s, ids) == Without(view, p, s, rest) - {f};
      assert f in Without(view, p, s, rest);
    }
  }

  lemma PruneEnabled(open: State, p: string, s: string, maxId: int, limit: Option<int>, oid: int)
    requires Inv(open) && open.backend.Dual? && FreeOid(open, oid) && open.txn.value.added == [] && s != ""
    ensures PruneAgrees(open, p, s, maxId, limit, false)
  {
    FirstOperationIsQuiet(open, p, s, maxId);
    QuietPruneAgrees(open, p, s, maxId, limit, false);
  }

  // ----- a caller -----

  /** What everybody will read once everything committed is delivered. */
  ghost function Transcript(store: JsonlStore): set<Fact>
    reads store
    requires store.Valid()
  {
    CommittedView(store.Abs())
  }

  /** The turns of one profile and session between two exclusive bounds. */
  ghost function TurnsBetween(view: set<Fact>, p: string, s: string, lo: int, hi: Option<int>): set<Fact> {
    set f | f in view && f.TurnFact? && f.key.profile == p && f.key.session == s
            && f.key.id > lo && (hi.None? || f.key.id < hi.value)
  }

  lemma NoTransaction(store: JsonlStore)
    requires store.Valid() && !store.inTransaction
    ensures store.Abs().txn.None? && store.Abs().outbox.Keys == store.db.outbox.Keys && store.Abs().backend == store.backend
  {
  }

  lemma CreateEnabled(open: State, rowId: int, p: string, s: string, content: Content, oid: int)
    requires Enabled(open, CreateStep(open, rowId, p, s, content, oid))
    ensures open.txn.Some? && FreeOid(open, oid)
    ensures Do(open, CreateStep(open, rowId, p, s, content, oid)) ==
            if open.backend.Jsonl? then DoCreateJsonl(open, p, s, content, oid) else DoCreateDual(open, rowId, p, s, content, oid)
    ensures open.backend.Dual? ==> CreateStep(open, rowId, p, s, content, oid) == CreateDual(rowId, p, s, content, oid)
  {
  }

  lemma OneDelivery(created: State, delivered: bool, f: Fact)
    requires created.txn.Some? && |created.txn.value.added| == 1 && created.txn.value.added[0].fact == f && f.TurnFact?
    ensures CommittedAndRun(created, [delivered]).disk == created.disk + if delivered then {f} else {}
  {
    var added := Added(created.txn.value.added);
    assert added == [f];
    forall g ensures g in Succeeded(added, [delivered]) <==> delivered && g == f {
      if delivered && g == f { assert added[0] == f; }
    }
  }

  lemma OneMoreOid(open: State, rowId: int, p: string, s: string, content: Content, oid: int)
    requires Enabled(open, CreateStep(open, rowId, p, s, content, oid)) && open.txn.value.added == [] && open.txn.value.removed == {}
    ensures var created := Do(open, CreateStep(open, rowId, p, s, content, oid));
            created.txn.Some? && DoCommit(created).outbox.Keys == open.outbox.Keys + {oid}
  {
    hide Allocated;
    var created := Do(open, CreateStep(open, rowId, p, s, content, oid));
    var added := created.txn.value.added;
    assert |added| == 1 && added[0].oid == oid && AddedRows(added[..0]) == map[];
    assert AddedRows(added).Keys == {oid};
  }

  lemma DeliverySource(st: State, succeeds: seq<bool>)
    requires st.txn.Some? && |succeeds| == |st.txn.value.added|
    ensures Source(CommittedAndRun(st, succeeds)) == Source(DoCommit(st))
  {
    assert Committed(CommittedAndRun(st, succeeds)) == Committed(DoCommit(st));
  }

  /** One turn in a transaction of its own; `delivered` says whether its callback succeeds. */
  method TakeTurn(store: JsonlStore, rowId: int, p: string, s: string, content: Content, now: int, oid: int, delivered: bool)
      returns (row: Row)
    requires store.Valid() && !store.inTransaction && oid !in store.db.outbox
    requires store.backend.Dual? ==> AboveAll(store.Abs(), rowId)
    modifies store
    ensures store.Valid() && !store.inTransaction && (old(store.NothingStale()) ==> store.NothingStale())
    ensures Transcript(store) == old(Transcript(store)) + {TurnFact(row.key, row.content)}
    ensures row.key.profile == p && row.key.session == s && row.content == content && row.key.id >= 1
    ensures forall f | f in old(Source(store.Abs())) && f.TurnFact? && f.key.profile == p && f.key.session == s :: f.key.id < row.key.id
    ensures Source(store.Abs()) == old(Source(store.Abs())) + {TurnFact(row.key, row.content)}
    ensures store.backend.Dual? ==> row.key.id == rowId
    ensures Disk(store.files) == old(Disk(store.files)) + if delivered then {TurnFact(row.key, row.content)} else {}
    ensures store.db.outbox.Keys == old(store.db.outbox.Keys) + {oid}
  {
    hide Inv, Visible, Enabled, Source, Committed, AddedFacts, Allocated, Disk, RowFacts, OutboxFacts, AboveAll, DoCommit, FreeOid, Succeeded;
    ghost var st := store.Abs();
    NoTransaction(store);
    OpenedWith(st, rowId, p, s, content, oid);
    store.Begin();
    ghost var open := store.Abs();
    ghost var id := Created(open, rowId, p, s, content, oid);
    CreateEnabled(open, rowId, p, s, content, oid);
    if store.backend.Jsonl? {
      row := store.CreateTurn(p, s, content, now, oid);
    } else {
      row := store.CreateTurnDual(rowId, p, s, content, now, oid);
    }
    ghost var created := store.Abs();
    store.Commit([delivered]);
    DeliverySource(created, [delivered]);
    NewTurnShows(st, row.key, content);
    OneMoreOid(open, rowId, p, s, content, oid);
    OneDelivery(created, delivered, TurnFact(row.key, row.content));
    NoTransaction(store);
  }

  /** A bounded prune in a transaction of its own. */
  method PruneTurns(store: JsonlStore, p: string, s: string, maxId: int, limit: Option<int>, now: int, oid: int, delivered: bool)
      returns (count: int)
    requires store.Valid() && !store.inTransaction && store.NothingStale() && oid !in store.db.outbox && s != ""
    modifies store
    ensures store.Valid() && !store.inTransaction && store.NothingStale()
    ensures forall f :: f in Transcript(store) <==>
              && f in old(Transcript(store))
              && !(f.TurnFact? && f.key.profile == p && f.key.session == s && f.key.id <= maxId
                   && (limit.Some? ==> |Older(old(Transcript(store)), p, s, f.key.id)| < Max(1, limit.value)))
    ensures count == |old(Transcript(store))| - |Transcript(store)|
  {
    hide Inv, Visible, Enabled, Source, Committed, Disk, RowFacts, OutboxFacts, DoCommit, FreeOid, Succeeded;
    hide DoPrune, DoPruneDual, Selected, Pruned, Deleted, CommittedView, RoundLeaves, IsOldest;
    ghost var st := store.Abs();
    NoTransaction(store);
    OpenedEmpty(st, oid);
    store.Begin();
    ghost var open := store.Abs();
    PrunedInTransaction(st, p, s, maxId, limit, oid);
    if store.backend.Jsonl? {
      count := store.DeleteUpTo(p, s, maxId, limit, now, oid);
    } else {
      PruneEnabled(open, p, s, maxId, limit, oid);
      count := store.DeleteUpToDual(p, s, maxId, limit, now, oid);
    }
    ghost var pruned := store.Abs();
    var succeeds := seq(|store.tx.added|, _ => delivered);
    store.Commit(succeeds);
    DeliverySource(pruned, succeeds);
    SameSourceSameView(store.Abs(), DoCommit(pruned));
    ViewTurns(st);
    forall f ensures f in Transcript(store) <==>
                       && f in CommittedView(st)
                       && !(f.TurnFact? && f.key.profile == p && f.key.session == s && f.key.id <= maxId
                            && (limit.Some? ==> |Older(CommittedView(st), p, s, f.key.id)| < Max(1, limit.value)))
    {
      LeftByRank(CommittedView(st), p, s, maxId, limit, f);
      OldestMeans(CommittedView(st), p, s, maxId, limit, f);
    }
  }

  // ----- reads -----

  lemma ListedTurns(list: seq<Row>, view: set<Fact>, p: string, s: string, lo: int, hi: Option<int>)
    requires IsListing(list, Window(view, p, s, lo, hi))
    ensures (set row | row in list :: TurnFact(row.key, row.content)) == TurnsBetween(view, p, s, lo, hi)
  {
    var turns := set row | row in list :: TurnFact(row.key, row.content);
    forall f ensures f in turns <==> f in TurnsBetween(view, p, s, lo, hi) {
      if f in TurnsBetween(view, p, s, lo, hi) {
        assert f in Window(view, p, s, lo, hi);
        var row :| row in list && FactOf(row) == f;
      }
      if f in turns {
        var row :| row in list && TurnFact(row.key, row.content) == f;
        assert FactOf(row) in Window(view, p, s, lo, hi);
      }
    }
  }

  /** `list_range` in a transaction of its own: every turn between the bounds, once, in id order. */
  method ReadTurns(store: JsonlStore, p: string, s: string, lo: int, hi: Option<int>, now: int) returns (list: seq<Row>)
    requires store.Valid() && !store.inTransaction && store.NothingStale()
    modifies store
    ensures store.Valid() && !store.inTransaction && store.NothingStale() && Transcript(store) == old(Transcript(store))
    ensures forall i, j | 0 <= i < j < |list| :: list[i].key.id < list[j].key.id
    ensures (set row | row in list :: TurnFact(row.key, row.content)) ==
            set f | f in Transcript(store) && f.TurnFact? && f.key.profile == p && f.key.session == s
                    && f.key.id > lo && (hi.None? || f.key.id < hi.value)
    ensures forall oid | oid in store.Abs().outbox :: SessionOf(store.Abs().outbox[oid]) != s
  {
    hide Inv, Visible, Enabled, Source, Disk, RowFacts, OutboxFacts, Refreshed, Succeeded, Window;
    ghost var st := store.Abs();
    NoTransaction(store);
    OpenedForRead(st);
    store.Begin();
    ghost var open := store.Abs();
    list := store.ListRange(p, s, lo, hi, now);
    ListedTurns(list, CommittedView(st), p, s, lo, hi);
    Listed(list, Window(CommittedView(st), p, s, lo, hi));
    RefreshedSource(open, p, s, false);
    ReadOnly(store);
    ghost var read := store.Abs();
    store.Commit([]);
    DeliverySource(read, []);
    NothingCommitted(read);
    SameSourceSameView(store.Abs(), st);
    DrainedOutbox(open, p, s);
  }

  /** A refreshing read leaves no outbox row of its session. */
  lemma DrainedOutbox(open: State, p: string, s: string)
    requires open.txn.Some? && open.txn.value.added == []
    ensures var read := Refreshed(open, p, s, false);
            && read.txn.Some? && read.txn.value.added == []
            && forall oid | oid in CommittedAndRun(read, []).outbox :: SessionOf(CommittedAndRun(read, []).outbox[oid]) != s
  {
    var read := Refreshed(open, p, s, false);
    assert AddedRows([]) == map[];
  }

  lemma OpenedForRead(st: State)
    requires Inv(st) && st.txn.None?
    ensures Enabled(st, Begin)
    ensures var open := Do(st, Begin);
            && Inv(open) && open.txn.Some? && open.txn.value.added == [] && open.backend == st.backend && Source(open) == Source(st)
  {
    BeginInv(st);
    assert Committed(Do(st, Begin)) == Committed(st);
  }

  lemma Listed(list: seq<Row>, window: set<Fact>)
    requires IsListing(list, window)
    ensures forall i, j | 0 <= i < j < |list| :: list[i].key.id < list[j].key.id
  {
  }

  lemma ReadOnly(store: JsonlStore)
    requires store.Valid() && store.inTransaction && store.tx.added == []
    ensures store.Abs().txn.Some? && store.Abs().txn.value.added == []
  {
  }

  lemma NothingCommitted(st: State)
    requires st.txn.Some? && st.txn.value.added == []
    ensures Source(DoCommit(st)) == Source(st)
  {
    CommitSource(st);
    AddedNothing(st);
    assert Source(st) + {} == Source(st);
  }

  /** `list_recent` in a transaction of its own: the newest turns above the bound, as many as the limit allows,
      oldest of them first. */
  method ReadRecentTurns(store: JsonlStore, p: string, s: string, limit: int, lo: int, now: int) returns (list: seq<Row>)
    requires store.Valid() && !store.inTransaction && store.NothingStale()
    modifies store
    ensures store.Valid() && !store.inTransaction && store.NothingStale() && Transcript(store) == old(Transcript(store))
    ensures forall i, j | 0 <= i < j < |list| :: list[i].key.id < list[j].key.id
    ensures forall row | row in list :: TurnFact(row.key, row.content) in TurnsBetween(Transcript(store), p, s, lo, None)
    ensures |list| == Min(Max(0, limit), |TurnsBetween(Transcript(store), p, s, lo, None)|)
    ensures forall f, row | f in TurnsBetween(Transcript(store), p, s, lo, None) && row in list :: f.key.id < row.key.id
              || exists other :: other in list && TurnFact(other.key, other.content) == f
  {
    hide Inv, Visible, Enabled, Source, Disk, RowFacts, OutboxFacts, Refreshed, Succeeded, Window, IsRecent;
    ghost var st := store.Abs();
    NoTransaction(store);
    OpenedForRead(st);
    store.Begin();
    ghost var open := store.Abs();
    list := store.ListRecent(p, s, limit, lo, now);
    RecentTurns(list, CommittedView(st), p, s, lo, limit);
    ghost var read := store.Abs();
    store.Commit([]);
    DeliverySource(read, []);
    NothingCommitted(read);
    SameSourceSameView(store.Abs(), st);
  }

  lemma RecentTurns(list: seq<Row>, view: set<Fact>, p: string, s: string, lo: int, limit: int)
    requires IsRecent(list, Window(view, p, s, lo, None), limit)
    ensures forall i, j | 0 <= i < j < |list| :: list[i].key.id < list[j].key.id
    ensures forall row | row in list :: TurnFact(row.key, row.content) in TurnsBetween(view, p, s, lo, None)
    ensures |list| == Min(Max(0, limit), |TurnsBetween(view, p, s, lo, None)|)
    ensures forall f, row | f in TurnsBetween(view, p, s, lo, None) && row in list :: f.key.id < row.key.id
              || exists other :: other in list && TurnFact(other.key, other.content) == f
  {
    var window := Window(view, p, s, lo, None);
    assert window == TurnsBetween(view, p, s, lo, None);
    DistinctRows(list);
    SubsetSize(RowsFacts(list), window);
    if RowsFacts(list) != window {
      var f :| f in window && f !in RowsFacts(list);
      SubsetSize(RowsFacts(list), window - {f});
    }
  }

  lemma {:induction false} DistinctRows(list: seq<Row>)
    requires forall i, j | 0 <= i < j < |list| :: list[i].key.id < list[j].key.id
    ensures |RowsFacts(list)| == |list|
  {
    if list != [] {
      var prefix, last := list[..|list| - 1], list[|list| - 1];
      DistinctRows(prefix);
      assert list == prefix + [last];
      assert RowsFacts(list) == RowsFacts(prefix) + {FactOf(last)};
      forall row | row in prefix ensures row.key.id < last.key.id {}
    }
  }

  /** `count` in a transaction of its own. */
  method CountTurns(store: JsonlStore, p: string, s: string, now: int) returns (n: int)
    requires store.Valid() && !store.inTransaction && store.NothingStale()
    modifies store
    ensures store.Valid() && !store.inTransaction && store.NothingStale() && Transcript(store) == old(Transcript(store))
    ensures n == |set f | f in Transcript(store) && f.TurnFact? && f.key.profile == p && f.key.session == s|
  {
    hide Inv, Visible, Enabled, Source, Disk, RowFacts, OutboxFacts, Refreshed, Succeeded, Window, Ids;
    ghost var st := store.Abs();
    NoTransaction(store);
    OpenedForRead(st);
    store.Begin();
    n := store.Count(p, s, now);
    ViewIsConsistent(st);
    IdsCount(CommittedView(st), p, s);
    ghost var read := store.Abs();
    store.Commit([]);
    DeliverySource(read, []);
    NothingCommitted(read);
    SameSourceSameView(store.Abs(), st);
  }

  lemma IdsCount(view: set<Fact>, p: string, s: string)
    requires Consistent(view)
    ensures |Ids(view, p, s)| == |set f | f in view && f.TurnFact? && f.key.profile == p && f.key.session == s|
  {
    var turns := set f | f in view && f.TurnFact? && f.key.profile == p && f.key.session == s;
    WithoutSize(view, p, s, Ids(view, p, s));
    assert turns == Of(view, p, s);
    assert Without(view, p, s, Ids(view, p, s)) == view - turns;
  }

  // ----- a conversation -----

  ghost function TurnsOf(rows: seq<Row>): set<Fact> { set row | row in rows :: TurnFact(row.key, row.content) }

  /** Rows of one profile and session in id order, all of them newer than what the view has. */
  ghost predicate NewestRows(rows: seq<Row>, view: set<Fact>, p: string, s: string) {
    && (forall i | 0 <= i < |rows| :: rows[i].key.profile == p && rows[i].key.session == s && rows[i].key.id >= 1)
    && (forall i, j | 0 <= i < j < |rows| :: rows[i].key.id < rows[j].key.id)
    && (forall f, i | f in TurnsBetween(view, p, s, 0, None) && 0 <= i < |rows| :: f.key.id < rows[i].key.id)
  }

  lemma OneMoreNewest(rows: seq<Row>, row: Row, view: set<Fact>, source: set<Fact>, p: string, s: string)
    requires NewestRows(rows, view, p, s) && view <= source && TurnsOf(rows) <= source
    requires row.key.profile == p && row.key.session == s && row.key.id >= 1
    requires forall f | f in source && f.TurnFact? && f.key.profile == p && f.key.session == s :: f.key.id < row.key.id
    ensures NewestRows(rows + [row], view, p, s)
    ensures TurnsOf(rows + [row]) == TurnsOf(rows) + {TurnFact(row.key, row.content)}
  {
    forall i | 0 <= i < |rows| ensures rows[i].key.id < row.key.id {
      assert TurnFact(rows[i].key, rows[i].content) in TurnsOf(rows);
    }
  }

  lemma IncreasingIsListing(list: seq<Row>, window: set<Fact>)
    requires (forall i, j | 0 <= i < j < |list| :: list[i].key.id < list[j].key.id) && TurnsOf(list) == window
    ensures IsListing(list, window)
  {
    forall row | row in list ensures FactOf(row) in window { assert TurnFact(row.key, row.content) in TurnsOf(list); }
    forall f | f in window ensures exists row :: row in list && FactOf(row) == f {
      var row :| row in list && TurnFact(row.key, row.content) == f;
    }
  }

  /** The listing of what was there, followed by the newer rows, is in id order and has the turns of both. */
  lemma JoinedRows(before: seq<Row>, rows: seq<Row>, view: set<Fact>, p: string, s: string)
    requires forall i, j | 0 <= i < j < |before| :: before[i].key.id < before[j].key.id
    requires TurnsOf(before) == TurnsBetween(view, p, s, 0, None) && NewestRows(rows, view, p, s)
    ensures forall i, j | 0 <= i < j < |before + rows| :: (before + rows)[i].key.id < (before + rows)[j].key.id
    ensures TurnsOf(before + rows) == TurnsOf(before) + TurnsOf(rows) == TurnsBetween(view + TurnsOf(rows), p, s, 0, None)
  {
    forall i, j | 0 <= i < |before| && 0 <= j < |rows| ensures before[i].key.id < rows[j].key.id {
      assert before[i] in before;
      assert TurnFact(before[i].key, before[i].content) in TurnsOf(before);
    }
    forall f | f in TurnsOf(rows) ensures f in TurnsBetween(TurnsOf(rows), p, s, 0, None) {
      var row :| row in rows && TurnFact(row.key, row.content) == f;
    }
    UnionOfRows(before, rows);
  }

  lemma UnionOfRows(a: seq<Row>, b: seq<Row>)
    ensures TurnsOf(a + b) == TurnsOf(a) + TurnsOf(b)
  {
    forall f ensures f in TurnsOf(a + b) <==> f in TurnsOf(a) + TurnsOf(b) {
      if f in TurnsOf(a + b) {
        var row :| row in a + b && TurnFact(row.key, row.content) == f;
      }
      if f in TurnsOf(a) {
        var row :| row in a && TurnFact(row.key, row.content) == f;
        assert row in a + b;
      }
      if f in TurnsOf(b) {
        var row :| row in b && TurnFact(row.key, row.content) == f;
        assert row in a + b;
      }
    }
  }

  /** Reading before and after: the later list is the earlier one followed by the newer rows. */
  lemma ReadAfterTaking(before: seq<Row>, rows: seq<Row>, list: seq<Row>, view: set<Fact>, p: string, s: string)
    requires forall i, j | 0 <= i < j < |before| :: before[i].key.id < before[j].key.id
    requires TurnsOf(before) == TurnsBetween(view, p, s, 0, None) && NewestRows(rows, view, p, s)
    requires forall i, j | 0 <= i < j < |list| :: list[i].key.id < list[j].key.id
    requires TurnsOf(list) == TurnsBetween(view + TurnsOf(rows), p, s, 0, None)
    ensures |list| == |before| + |rows|
    ensures forall i | 0 <= i < |list| :: list[i].key == (before + rows)[i].key && list[i].content == (before + rows)[i].content
  {
    hide TurnsOf, TurnsBetween, NewestRows, IsListing;
    JoinedRows(before, rows, view, p, s);
    IncreasingIsListing(before + rows, TurnsOf(list));
    IncreasingIsListing(list, TurnsOf(list));
    ListingsAgree(list, before + rows, TurnsOf(list));
    forall i | 0 <= i < |list| ensures list[i].key == (before + rows)[i].key && list[i].content == (before + rows)[i].content {
      assert FactOf(list[i]) == FactOf((before + rows)[i]);
    }
  }

  /** Turns taken one after another, each in its own transaction and each with a callback that may fail. */
  method TakeTurns(store: JsonlStore, p: string, s: string, contents: seq<Content>, rowIds: seq<int>, oids: seq<int>, delivered: seq<bool>, now: int)
      returns (taken: seq<Row>)
    requires store.Valid() && !store.inTransaction && store.NothingStale()
    requires |contents| == |rowIds| == |oids| == |delivered|
    requires forall i | 0 <= i < |oids| :: oids[i] !in store.db.outbox
    requires forall i, j | 0 <= i < j < |oids| :: oids[i] != oids[j]
    requires store.backend.Dual? ==> forall i | 0 <= i < |rowIds| :: AboveAll(store.Abs(), rowIds[i])
    requires forall i, j | 0 <= i < j < |rowIds| :: rowIds[i] < rowIds[j]
    modifies store
    ensures store.Valid() && !store.inTransaction && store.NothingStale()
    ensures |taken| == |contents| && forall i | 0 <= i < |taken| :: taken[i].content == contents[i]
    ensures NewestRows(taken, old(Transcript(store)), p, s)
    ensures Transcript(store) == old(Transcript(store)) + TurnsOf(taken)
  {
    hide Inv, Visible, Source, Disk, RowFacts, OutboxFacts, NewestRows, Committed, CommittedView, AboveAll, Transcript;
    hide StateOf, WellFormed, BooksAgree, TurnsOf;
    ghost var view, source := Transcript(store), Source(store.Abs());
    ViewInSource(store);
    taken := [];
    NoRows(view, p, s);
    for n := 0 to |contents|
      invariant store.Valid() && !store.inTransaction && store.NothingStale() && |taken| == n
      invariant store.db.outbox.Keys == old(store.db.outbox.Keys) + (set i | 0 <= i < n :: oids[i])
      invariant Transcript(store) == view + TurnsOf(taken) && Source(store.Abs()) == source + TurnsOf(taken)
      invariant forall i | 0 <= i < n :: taken[i].content == contents[i]
      invariant NewestRows(taken, view, p, s)
      invariant store.backend.Dual? ==> forall i | n <= i < |rowIds| :: AboveAll(store.Abs(), rowIds[i])
    {
      ghost var before := store.Abs();
      var row := TakeTurn(store, rowIds[n], p, s, contents[n], now, oids[n], delivered[n]);
      OneMoreNewest(taken, row, view, source + TurnsOf(taken), p, s);
      if store.backend.Dual? { StillAbove(before, store.Abs(), TurnFact(row.key, row.content), rowIds, n); }
      taken := taken + [row];
    }
  }

  lemma StillAbove(before: State, after: State, f: Fact, rowIds: seq<int>, n: nat)
    requires n < |rowIds| && (forall i, j | 0 <= i < j < |rowIds| :: rowIds[i] < rowIds[j])
    requires forall i | n <= i < |rowIds| :: AboveAll(before, rowIds[i])
    requires Source(after) == Source(before) + {f} && f.TurnFact? && f.key.id == rowIds[n]
    ensures forall i | n < i < |rowIds| :: AboveAll(after, rowIds[i])
  {
    hide Source;
    forall i | n < i < |rowIds| ensures AboveAll(after, rowIds[i]) { assert AboveAll(before, rowIds[i]); }
  }

  lemma NoRows(view: set<Fact>, p: string, s: string)
    ensures NewestRows([], view, p, s) && TurnsOf([]) == {}
  {
  }

  lemma ViewInSource(store: JsonlStore)
    requires store.Valid()
    ensures Transcript(store) <= Source(store.Abs())
  {
  }

  /** With `before` the list a read returns now: after taking turns, a read returns `before` followed by the new
      turns in the order taken, each with its own texts. */
  method Converse(store: JsonlStore, p: string, s: string, contents: seq<Content>, rowIds: seq<int>, oids: seq<int>, delivered: seq<bool>, now: int,
                  ghost before: seq<Row>) returns (list: seq<Row>)
    requires store.Valid() && !store.inTransaction && store.NothingStale()
    requires |contents| == |rowIds| == |oids| == |delivered|
    requires forall i | 0 <= i < |oids| :: oids[i] !in store.db.outbox
    requires forall i, j | 0 <= i < j < |oids| :: oids[i] != oids[j]
    requires store.backend.Dual? ==> forall i | 0 <= i < |rowIds| :: AboveAll(store.Abs(), rowIds[i])
    requires forall i, j | 0 <= i < j < |rowIds| :: rowIds[i] < rowIds[j]
    requires forall i, j | 0 <= i < j < |before| :: before[i].key.id < before[j].key.id
    requires TurnsOf(before) == TurnsBetween(Transcript(store), p, s, 0, None)
    modifies store
    ensures store.Valid()
    ensures |list| == |before| + |contents|
    ensures forall i | 0 <= i < |before| :: list[i].key == before[i].key && list[i].content == before[i].content
    ensures forall i | 0 <= i < |contents| :: list[|before| + i].content == contents[i]
  {
    hide Inv, Visible, Source, Disk, RowFacts, OutboxFacts, NewestRows, Committed, CommittedView, AboveAll, Transcript;
    hide StateOf, WellFormed, BooksAgree;
    ghost var view := Transcript(store);
    ghost var taken := TakeTurns(store, p, s, contents, rowIds, oids, delivered, now);
    list := ReadTurns(store, p, s, 0, None, now);
    ReadAfterTaking(before, taken, list, view, p, s);
  }
}
