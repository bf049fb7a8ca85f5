/** What the transcript protocol guarantees over whole runs. */
module TranscriptTheorems {
  import opened Ordering
  import opened TranscriptLog
  import opened TranscriptMachine

  // ----- exactly-once, from at-least-once delivery -----

  /** At every moment of every run the files show committed mutations and legacy rows only. */
  lemma ReadersSeeOnlyCommittedTurns(backend: Backend, table: set<Fact>, steps: seq<Step>)
    requires LegacyTable(table)
    ensures var st := Run(Start(backend, table), steps);
            Visible(st.disk) <= Committed(st) + table
  {
    StartInv(backend, table);
    RunInv(Start(backend, table), steps);
    LegacyIsConstant(Start(backend, table), steps);
  }

  lemma {:induction false} LegacyIsConstant(st: State, steps: seq<Step>)
    ensures Run(st, steps).legacy == st.legacy && Run(st, steps).backend == st.backend
    decreases |steps|
  {
    if steps != [] {
      var before := Run(st, steps[..|steps| - 1]);
      LegacyIsConstant(st, steps[..|steps| - 1]);
      if Enabled(before, steps[|steps| - 1]) { StepKeepsLegacy(before, steps[|steps| - 1]); }
    }
  }

  lemma StepKeepsLegacy(st: State, step: Step)
    requires Enabled(st, step)
    ensures Do(st, step).legacy == st.legacy && Do(st, step).backend == st.backend
  {
    hide Visible, Selected, Ids, MaxId, Ensure, Of, Without, Deleted, Added, AddedRows, NeverReused, PruneAgrees, OnlySaid;
    hide DoPrune, DoBackfill, Allocated;
    match step
    case PruneJsonl(p, s, m, l, stale, oid) => PruneKeepsLegacy(st, p, s, m, l, stale, oid);
    case PruneDual(p, s, m, l, stale, oid) =>
      var table := Without(st.txn.value.table, p, s, Deleted(st.txn.value.table, p, s, m, l));
      PruneKeepsLegacy(WithTable(st, table), p, s, m, Some(|Deleted(st.txn.value.table, p, s, m, l)|), stale, oid);
    case BackfillRows(p, s) => BackfillKeepsLegacy(st, p, s);
    case _ =>
  }

  lemma BackfillKeepsLegacy(st: State, p: string, s: string)
    requires st.txn.Some?
    ensures DoBackfill(st, p, s).legacy == st.legacy && DoBackfill(st, p, s).backend == st.backend && DoBackfill(st, p, s).txn.Some?
  {
  }

  lemma PruneKeepsLegacy(st: State, p: string, s: string, maxId: int, limit: Option<int>, stale: bool, oid: int)
    requires st.txn.Some?
    ensures DoPrune(st, p, s, maxId, limit, stale, oid).legacy == st.legacy && DoPrune(st, p, s, maxId, limit, stale, oid).backend == st.backend
  {
    hide Visible, Selected, MaxId, DoBackfill, Shown;
    BackfillKeepsLegacy(st, p, s);
  }

  /** Once the outbox is empty and the legacy rows are backfilled, the files show exactly the view of
      all committed mutations, whatever was applied twice, late, or out of order.  In dual mode that
      view is the table. */
  lemma DrainedStoreIsExact(backend: Backend, table: set<Fact>, steps: seq<Step>)
    requires LegacyTable(table)
    ensures var st := Run(Start(backend, table), steps);
            st.outbox == map[] && st.table <= st.disk ==>
              Visible(st.disk) == Visible(Committed(st) + table) && (backend.Dual? ==> Visible(st.disk) == st.table)
  {
    var st := Run(Start(backend, table), steps);
    StartInv(backend, table);
    RunInv(Start(backend, table), steps);
    LegacyIsConstant(Start(backend, table), steps);
    if st.outbox == map[] && st.table <= st.disk {
      assert Committed(st) <= st.disk;
      forall f: Fact | f.PruneFact? ensures f in st.disk <==> f in Source(st) {}
      SamePrunesSameHidden(st.disk, Source(st));
      assert backend.Jsonl? ==> st.disk == Source(st);
    }
  }

  /** The file is caught up with the session: the read drains it, or nothing undelivered is missing. */
  ghost predicate CaughtUp(st: State, s: string, stale: bool)
    requires st.txn.Some?
  {
    (!stale && st.txn.value.added == []) || Undelivered(st.outbox, s) <= st.disk
  }

  /** The reads of the store: they backfill, drain unless rows are pending, and then see committed turns only,
      in every reachable state; and exactly the committed view of their profile and session when the file is
      caught up, be it by their own drain or before. */
  lemma ReadsAreExact(backend: Backend, table: set<Fact>, steps: seq<Step>, p: string, s: string, stale: bool)
    requires LegacyTable(table) && Run(Start(backend, table), steps).txn.Some?
    ensures var st := Run(Start(backend, table), steps);
            && Of(Visible(Refreshed(st, p, s, stale).disk), p, s) <= Committed(st) + table
            && (CaughtUp(st, s, stale) ==>
                  Of(Visible(Refreshed(st, p, s, stale).disk), p, s) ==
                  if backend.Dual? then Of(st.table, p, s) else Of(Visible(Committed(st) + table), p, s))
  {
    var st := Run(Start(backend, table), steps);
    StartInv(backend, table);
    RunInv(Start(backend, table), steps);
    LegacyIsConstant(Start(backend, table), steps);
    RefreshedInv(st, p, s, stale);
    OnlySource(Refreshed(st, p, s, stale), p, s);
    if CaughtUp(st, s, stale) {
      CaughtUpDelivers(st, p, s, stale);
      DeliveredIsExact(Refreshed(st, p, s, stale).disk, st, p, s);
      assert backend.Jsonl? ==> Source(st) == Committed(st) + table;
      if backend.Dual? { DualView(st); }
    }
  }

  lemma OnlySource(st: State, p: string, s: string)
    requires Inv(st)
    ensures Of(Visible(st.disk), p, s) <= Source(st)
  {
  }

  lemma DualView(st: State)
    requires Inv(st) && st.backend.Dual?
    ensures st.table == Visible(Source(st))
  {
  }

  lemma CaughtUpDelivers(st: State, p: string, s: string, stale: bool)
    requires Inv(st) && st.txn.Some? && CaughtUp(st, s, stale)
    ensures Delivered(Refreshed(st, p, s, stale).disk, st, p, s)
  {
    var st1, disk := DoBackfill(st, p, s), Refreshed(st, p, s, stale).disk;
    assert disk <= Source(st) by { RefreshedInv(st, p, s, stale); }
    BackfillReaches(st, p, s);
    assert Committed(st1) == Committed(st);
    if !stale && st.txn.value.added == [] {
      DrainReaches(st1, s);
    } else {
      forall f | f in Committed(st) && SessionOf(f) == s ensures f in disk {
        if f in st.outbox.Values {
          var oid := SomeKey(st.outbox, f);
          assert oid in OutboxOf(st.outbox, s);
        }
      }
    }
  }

  // ----- ids -----

  /** Counter-backed runs: committed ids of a session strictly increase in commit order, through
      rollbacks that reuse a number. */
  lemma CommittedIdsIncrease(table: set<Fact>, steps: seq<Step>)
    requires LegacyTable(table)
    ensures var h := Run(Start(Jsonl, table), steps).history;
            forall i, j | 0 <= i < j < |h| && h[i].TurnFact? && h[j].TurnFact? && h[i].key.session == h[j].key.session ::
              h[i].key.id < h[j].key.id
    ensures var h := Run(Start(Jsonl, table), steps).history;
            forall i, f | 0 <= i < |h| && h[i].TurnFact? && f in Of(table, h[i].key.profile, h[i].key.session) ::
              f.key.id < h[i].key.id
  {
    JsonlRunsAreOrdered(table, steps);
    var st := Run(Start(Jsonl, table), steps);
    forall i, j | 0 <= i < j < |st.history| && st.history[i].TurnFact? && st.history[j].TurnFact?
                  && st.history[i].key.session == st.history[j].key.session
      ensures st.history[i].key.id < st.history[j].key.id
    {
      assert SessionOf(st.history[i]) == SessionOf(st.history[j]);
    }
  }

  /** No turn is born hidden: only a prune committed after it can hide it. */
  lemma OnlyLaterPrunesHide(table: set<Fact>, steps: seq<Step>, i: nat, j: nat)
    requires LegacyTable(table)
    requires var h := Run(Start(Jsonl, table), steps).history;
             && i < |h| && j < |h| && h[i].TurnFact? && h[j].PruneFact?
             && h[j].profile == h[i].key.profile && h[j].session == h[i].key.session && h[i].key.id <= h[j].boundary
    ensures i < j
    ensures Run(Start(Jsonl, table), steps).history[i].key.id >= 1
  {
    JsonlRunsAreOrdered(table, steps);
    EarlierPrunesAreBelow(Run(Start(Jsonl, table), steps).history, Run(Start(Jsonl, table), steps).counters, table, i, j);
  }

  lemma JsonlRunsAreOrdered(table: set<Fact>, steps: seq<Step>)
    requires LegacyTable(table)
    ensures var st := Run(Start(Jsonl, table), steps); Ordered(st.history, st.counters, table)
  {
    StartInv(Jsonl, table);
    RunInv(Start(Jsonl, table), steps);
    LegacyIsConstant(Start(Jsonl, table), steps);
  }

  lemma EarlierPrunesAreBelow(h: seq<Fact>, counters: map<string, int>, legacy: set<Fact>, i: nat, j: nat)
    requires Ordered(h, counters, legacy)
    requires i < |h| && j < |h| && h[i].TurnFact? && h[j].PruneFact?
    requires SessionOf(h[j]) == SessionOf(h[i]) && h[i].key.id <= h[j].boundary
    ensures i < j && h[i].key.id >= 1
  {
    assert i != j;
  }

  // ----- bounded prunes -----

  /** One bounded prune removes the smallest min(max(1, limit), n) eligible ids, and that many. */
  lemma PruneCount(ids: set<int>, maxId: int, limit: Option<int>)
    ensures var sel := Selected(ids, maxId, limit); var eligible := UpTo(ids, maxId);
            && sel <= eligible
            && |sel| == (if limit.None? then |eligible| else Min(Max(1, limit.value), |eligible|))
            && (forall x, y | x in sel && y in eligible && y !in sel :: x < y)
            && (sel == {} <==> eligible == {})
  {
    FirstIdsAreBelow(UpTo(ids, maxId), Quota(UpTo(ids, maxId), limit), Selected(ids, maxId, limit));
  }

  /** Writing a boundary record and deleting the selected rows leave the same ids. */
  lemma TombstoneEqualsDeletion(facts: set<Fact>, p: string, s: string, maxId: int, limit: Option<int>)
    requires Selected(Ids(Visible(facts), p, s), maxId, limit) != {}
    ensures var sel := Selected(Ids(Visible(facts), p, s), maxId, limit);
            Visible(facts + {PruneFact(p, s, MaxId(sel))}) == Without(Visible(facts), p, s, sel)
  {
    var eligible := UpTo(Ids(Visible(facts), p, s), maxId);
    TableAfterPrune(facts, Visible(facts), p, s, maxId, Quota(eligible, limit), Selected(Ids(Visible(facts), p, s), maxId, limit));
  }

  /** Repeating a bounded prune until it removes nothing. */
  ghost function PruneRounds(ids: set<int>, maxId: int, limit: Option<int>): set<int>
    decreases |ids|
  {
    var sel := Selected(ids, maxId, limit);
    PruneCount(ids, maxId, limit);
    if sel == {} then ids
    else
      SmallerWithout(ids, sel);
      PruneRounds(ids - sel, maxId, limit)
  }

  lemma SmallerWithout(ids: set<int>, sel: set<int>)
    requires sel <= ids && sel != {}
    ensures |ids - sel| < |ids|
  {
    assert ids == sel + (ids - sel);
  }

  /** However the batches are sized, the rounds end where the unbounded prune ends. */
  lemma {:induction false} PruneRoundsConverge(ids: set<int>, maxId: int, limit: Option<int>)
    ensures PruneRounds(ids, maxId, limit) == ids - UpTo(ids, maxId)
    ensures ids - UpTo(ids, maxId) == ids - Selected(ids, maxId, None)
    decreases |ids|
  {
    var sel := Selected(ids, maxId, limit);
    PruneCount(ids, maxId, limit);
    PruneCount(ids, maxId, None);
    SubsetSize(Selected(ids, maxId, None), UpTo(ids, maxId));
    if sel == {} {
      assert UpTo(ids, maxId) == {};
    } else {
      SmallerWithout(ids, sel);
      PruneRoundsConverge(ids - sel, maxId, limit);
    }
  }
}
