/** Bounded prunes repeated, each in a transaction of its own. */
module PruneRounds {
  import opened Ordering
  import opened TranscriptLog
  import opened TranscriptMachine
  import opened TranscriptTheorems
  import opened DualMirror

  /** The view of everything committed. */
  ghost function CommittedView(st: State): set<Fact> { Visible(Source(st)) }

  /** The view without the turns of one profile and session up to a bound: what the unbounded prune leaves. */
  ghost function PrunedView(view: set<Fact>, p: string, s: string, maxId: int): set<Fact> {
    Without(view, p, s, UpTo(Ids(view, p, s), maxId))
  }

  /** The bounded prune of either store. */
  ghost function PruneIn(open: State, p: string, s: string, maxId: int, limit: Option<int>, oid: int): State
    requires open.txn.Some?
  {
    if open.backend.Jsonl? then DoPrune(open, p, s, maxId, limit, false, oid) else DoPruneDual(open, p, s, maxId, limit, false, oid)
  }

  /** One bounded prune in a transaction of its own, and whatever callbacks and crashes follow it. */
  ghost function PruneRound(st: State, p: string, s: string, maxId: int, limit: Option<int>, delivery: seq<Step>): State
    requires st.txn.None?
  {
    var open := Do(st, Begin);
    var pruned := PruneIn(open, p, s, maxId, limit, NewOid(open));
    if pruned.txn.Some? then Run(DoCommit(pruned), delivery) else pruned
  }

  ghost function NewOid(st: State): int { MaxId(st.outbox.Keys) + 1 }

  ghost predicate IsDelivery(delivery: seq<Step>) {
    forall i | 0 <= i < |delivery| :: delivery[i].Callback? || delivery[i].Crash?
  }

  lemma {:induction false} DeliveryKeepsView(st: State, delivery: seq<Step>)
    requires Inv(st) && st.txn.None? && IsDelivery(delivery)
    ensures Inv(Run(st, delivery)) && Run(st, delivery).txn.None? && Run(st, delivery).backend == st.backend
    ensures Source(Run(st, delivery)) == Source(st)
    decreases |delivery|
  {
    hide Inv, Do, Enabled, Source;
    RunInv(st, delivery);
    if delivery != [] {
      var before, step := Run(st, delivery[..|delivery| - 1]), delivery[|delivery| - 1];
      DeliveryKeepsView(st, delivery[..|delivery| - 1]);
      if Enabled(before, step) { DeliveryStep(before, step); }
    }
  }

  lemma DeliveryStep(st: State, step: Step)
    requires st.txn.None? && Enabled(st, step) && (step.Callback? || step.Crash?)
    ensures Do(st, step).txn.None? && Do(st, step).backend == st.backend && Source(Do(st, step)) == Source(st)
  {
    assert Committed(Do(st, step)) == Committed(st);
  }

  /** What the boundary of the selected ids makes the files say. */
  ghost function Boundary(p: string, s: string, selected: set<int>): set<Fact> {
    if selected == {} || s == "" then {} else {PruneFact(p, s, MaxId(selected))}
  }

  lemma PruneInFirst(open: State, p: string, s: string, maxId: int, limit: Option<int>, oid: int)
    requires Inv(open) && FreeOid(open, oid) && open.txn.value.added == [] && (s != "" || open.backend.Jsonl?)
    ensures var after, selected := PruneIn(open, p, s, maxId, limit, oid), Selected(Ids(CommittedView(open), p, s), maxId, limit);
            && Inv(after) && after.txn.Some? && after.history == open.history && after.legacy == open.legacy && after.backend == open.backend
            && after.txn.value.added == if selected == {} then [] else [Entry(oid, PruneFact(p, s, MaxId(selected)))]
  {
    assert open.txn.Some?;
    hide Inv, FreeOid, DoPrune, DoPruneDual, Visible, Source, Selected, MaxId, Ids, Deleted, MirrorSelected;
    if open.backend.Dual? {
      PruneFirst(open, p, s, maxId, limit, oid);
      FirstPruneIff(open, p, s, maxId, limit, oid);
    } else {
      JsonlPruneFirst(open, p, s, maxId, limit, oid);
    }
  }

  lemma JsonlPruneFirst(open: State, p: string, s: string, maxId: int, limit: Option<int>, oid: int)
    requires Inv(open) && FreeOid(open, oid) && open.backend.Jsonl? && open.txn.value.added == []
    ensures var after, selected := DoPrune(open, p, s, maxId, limit, false, oid), Selected(Ids(CommittedView(open), p, s), maxId, limit);
            && Inv(after) && after.txn.Some? && after.history == open.history && after.legacy == open.legacy && after.backend == open.backend
            && after.txn.value.added == if selected == {} then [] else [Entry(oid, PruneFact(p, s, MaxId(selected)))]
  {
    VisibleIdsArePositive(Source(open));
    assert open.txn.Some?;
    hide Inv, Refreshed, Selected, Shown, Visible, Source, FreeOid, MaxId, Ids, DoPrune;
    JsonlPruneStep(open, p, s, maxId, limit, oid);
    PruneJsonlInv(open, p, s, maxId, limit, false, oid);
    RefreshedSource(open, p, s, false);
    RefreshedKeeps(open, p, s);
    ShownIsCommitted(open, p, s);
    SmallIdsNotSelected(CommittedView(open), p, s, maxId, limit);
  }

  lemma JsonlPruneStep(st: State, p: string, s: string, maxId: int, limit: Option<int>, oid: int)
    requires st.txn.Some?
    ensures Refreshed(st, p, s, false).txn.Some?
    ensures var st1, selected := Refreshed(st, p, s, false), Selected(Shown(st, p, s, false), maxId, limit);
            DoPrune(st, p, s, maxId, limit, false, oid) ==
            if maxId < 1 then st else if selected == {} then st1
            else Enqueued(st1, PruneFact(p, s, MaxId(selected)), oid, st1.txn.value.counters, st1.txn.value.table)
  {
    RefreshedSource(st, p, s, false);
    hide Refreshed, Selected, Shown;
  }

  lemma VisibleIdsArePositive(source: set<Fact>)
    ensures forall f | f in Visible(source) && f.TurnFact? :: f.key.id > 0
  {
  }

  lemma ShownIsCommitted(open: State, p: string, s: string)
    requires Inv(open) && open.txn.Some? && open.txn.value.added == []
    ensures Shown(open, p, s, false) == Ids(CommittedView(open), p, s)
  {
    RefreshedIsExact(open, p, s);
  }

  lemma SmallIdsNotSelected(view: set<Fact>, p: string, s: string, maxId: int, limit: Option<int>)
    requires forall f | f in view && f.TurnFact? :: f.key.id > 0
    ensures maxId < 1 ==> Selected(Ids(view, p, s), maxId, limit) == {}
  {
    PruneCount(Ids(view, p, s), maxId, limit);
  }

  lemma PrunedTransaction(open: State, after: State, p: string, s: string, selected: set<int>, oid: int)
    requires open.txn.Some? && open.txn.value.added == [] && after.txn.Some?
    requires after.history == open.history && after.legacy == open.legacy
    requires after.txn.value.added == if selected == {} then [] else [Entry(oid, PruneFact(p, s, MaxId(selected)))]
    ensures Source(DoCommit(after)) == Source(open) + Boundary(p, s, selected)
  {
    CommitSource(after);
    assert Committed(after) == Committed(open);
    if selected != {} {
      var f := PruneFact(p, s, MaxId(selected));
      AddedAppend([], Entry(oid, f));
      assert [] + [Entry(oid, f)] == [Entry(oid, f)] && Added([]) == [];
      assert AddedFacts(after.txn.value) == OnlySaid({f}) == Boundary(p, s, selected);
    }
  }

  lemma Opened(st: State)
    requires Inv(st) && st.txn.None?
    ensures var open := Do(st, Begin);
            && Inv(open) && FreeOid(open, NewOid(open)) && open.txn.value.added == [] && open.backend == st.backend
            && Source(open) == Source(st)
  {
    var open := Do(st, Begin);
    BeginInv(st);
    assert Committed(open) == Committed(st);
    assert NewOid(open) !in open.outbox.Keys && AddedOids([]) == {};
  }

  /** What one round leaves of the view: all of it without a session id, else all but the selected ids. */
  ghost function RoundLeaves(view: set<Fact>, p: string, s: string, maxId: int, limit: Option<int>): set<Fact> {
    if s == "" then view else Without(view, p, s, Selected(Ids(view, p, s), maxId, limit))
  }

  /** What one round does to the view, in either mode.  (In dual mode the empty session id is excluded: there
      table and mirror part, by `PruneFirst`.) */
  lemma PruneRoundView(st: State, p: string, s: string, maxId: int, limit: Option<int>, delivery: seq<Step>)
    requires Inv(st) && st.txn.None? && IsDelivery(delivery) && (s != "" || st.backend.Jsonl?)
    ensures var after, view := PruneRound(st, p, s, maxId, limit, delivery), CommittedView(st);
            && Inv(after) && after.txn.None? && after.backend == st.backend
            && CommittedView(after) == RoundLeaves(view, p, s, maxId, limit)
  {
    hide Inv, Selected, Without, FreeOid, PruneIn, NewOid, Visible, Source, IsDelivery;
    Opened(st);
    var open := Do(st, Begin);
    var selected := Selected(Ids(CommittedView(st), p, s), maxId, limit);
    PruneInFirst(open, p, s, maxId, limit, NewOid(open));
    var after := PruneIn(open, p, s, maxId, limit, NewOid(open));
    PrunedTransaction(open, after, p, s, selected, NewOid(open));
    CommitInv(after);
    BoundedView(Source(st), p, s, maxId, limit);
    DeliveryKeepsView(DoCommit(after), delivery);
  }

  /** A boundary for the selected ids leaves the view without exactly these ids. */
  lemma BoundedView(source: set<Fact>, p: string, s: string, maxId: int, limit: Option<int>)
    ensures var selected := Selected(Ids(Visible(source), p, s), maxId, limit);
            Visible(source + Boundary(p, s, selected)) == RoundLeaves(Visible(source), p, s, maxId, limit)
  {
    var selected := Selected(Ids(Visible(source), p, s), maxId, limit);
    if selected == {} || s == "" {
      assert source + {} == source && Without(Visible(source), p, s, {}) == Visible(source);
    } else {
      TombstoneEqualsDeletion(source, p, s, maxId, limit);
    }
  }

  ghost function PruneRun(st: State, p: string, s: string, maxId: int, limit: Option<int>, deliveries: seq<seq<Step>>): State
    requires st.txn.None?
    decreases |deliveries|
  {
    if deliveries == [] then st
    else
      var next := PruneRound(st, p, s, maxId, limit, deliveries[0]);
      if next.txn.None? then PruneRun(next, p, s, maxId, limit, deliveries[1..]) else next
  }

  /** In either mode, as many rounds as there are eligible turns end in the view of the unbounded prune,
      whatever the limit, and whichever callbacks fail or crashes happen after each commit; without a session
      id no number of rounds changes the view. */
  lemma {:induction false} PruneRunConverges(st: State, p: string, s: string, maxId: int, limit: Option<int>,
                                             deliveries: seq<seq<Step>>)
    requires Inv(st) && st.txn.None? && (s != "" || st.backend.Jsonl?) && forall i | 0 <= i < |deliveries| :: IsDelivery(deliveries[i])
    requires s != "" ==> |deliveries| >= |UpTo(Ids(CommittedView(st), p, s), maxId)|
    ensures var after := PruneRun(st, p, s, maxId, limit, deliveries);
            && CommittedView(after) == (if s == "" then CommittedView(st) else PrunedView(CommittedView(st), p, s, maxId))
            && (st.backend.Dual? ==> after.table == PrunedView(st.table, p, s, maxId))
    decreases |deliveries|
  {
    hide Inv, PruneRound, CommittedView, Selected, PrunedView, Ids, UpTo, IsDelivery;
    ViewOfTable(st);
    if deliveries == [] {
      NothingEligible(CommittedView(st), p, s, maxId);
    } else {
      var next := PruneRound(st, p, s, maxId, limit, deliveries[0]);
      PruneRoundView(st, p, s, maxId, limit, deliveries[0]);
      SmallerView(CommittedView(st), p, s, maxId, limit);
      assert CommittedView(next) == RoundLeaves(CommittedView(st), p, s, maxId, limit);
      PruneRunConverges(next, p, s, maxId, limit, deliveries[1..]);
      ViewOfTable(next);
    }
  }

  lemma ViewOfTable(st: State)
    requires Inv(st)
    ensures st.backend.Dual? ==> st.table == CommittedView(st)
  {
  }

  lemma NothingEligible(view: set<Fact>, p: string, s: string, maxId: int)
    ensures |UpTo(Ids(view, p, s), maxId)| == 0 ==> PrunedView(view, p, s, maxId) == view
  {
    if |UpTo(Ids(view, p, s), maxId)| == 0 { assert UpTo(Ids(view, p, s), maxId) == {}; }
  }

  lemma SmallerView(view: set<Fact>, p: string, s: string, maxId: int, limit: Option<int>)
    ensures var selected := Selected(Ids(view, p, s), maxId, limit);
            var next := Without(view, p, s, selected);
            && PrunedView(next, p, s, maxId) == PrunedView(view, p, s, maxId)
            && (UpTo(Ids(view, p, s), maxId) == {} || |UpTo(Ids(next, p, s), maxId)| < |UpTo(Ids(view, p, s), maxId)|)
            && (UpTo(Ids(view, p, s), maxId) == {} ==> UpTo(Ids(next, p, s), maxId) == {})
  {
    var ids := Ids(view, p, s);
    var selected := Selected(ids, maxId, limit);
    var next := Without(view, p, s, selected);
    PruneCount(ids, maxId, limit);
    forall i ensures i in Ids(next, p, s) <==> i in ids - selected {
      if i in ids - selected {
        var f :| f in Of(view, p, s) && f.key.id == i;
        assert f in Of(next, p, s);
      }
      if i in Ids(next, p, s) {
        var f :| f in Of(next, p, s) && f.key.id == i;
        assert f in Of(view, p, s);
      }
    }
    assert UpTo(Ids(next, p, s), maxId) == UpTo(ids, maxId) - selected;
    if selected != {} { SmallerWithout(UpTo(ids, maxId), selected); }
    forall f ensures f in PrunedView(next, p, s, maxId) <==> f in PrunedView(view, p, s, maxId) {
      if f in Of(view, p, s) { assert f.key.id in ids; }
    }
  }

  /** Under the empty session id a prune of the JSONL store changes nothing a reader sees, however many
      rows it counts. */
  lemma EmptySessionPruneIsLost(st: State, p: string, maxId: int, limit: Option<int>, stale: bool, oid: int)
    requires st.txn.Some? && FreeOid(st, oid)
    ensures var after := DoPrune(st, p, "", maxId, limit, stale, oid);
            after.txn.Some? && CommittedView(DoCommit(after)) == CommittedView(DoCommit(st))
  {
    var after := DoPrune(st, p, "", maxId, limit, stale, oid);
    RefreshedSource(st, p, "", stale);
    hide Visible, Selected, Refreshed, Shown;
    CommitSource(st);
    if maxId >= 1 {
      var st1 := Refreshed(st, p, "", stale);
      var selected := Selected(Shown(st, p, "", stale), maxId, limit);
      if selected != {} {
        EnqueuedFacts(st1, PruneFact(p, "", MaxId(selected)), oid, st1.txn.value.counters, st1.txn.value.table);
        assert OnlySaid({PruneFact(p, "", MaxId(selected))}) == {};
      }
      assert Source(after) + AddedFacts(after.txn.value) == Source(st) + AddedFacts(st.txn.value);
      CommitSource(after);
    }
  }
}
