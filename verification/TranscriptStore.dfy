/** The JSONL transcript store, the dual-write store and the session they run in, as one object that
    updates its fields in place.  Every operation is tied to a step of the machine. */
module TranscriptStore {
  import opened Ordering
  import opened TranscriptLog
  import opened TranscriptMachine
  import opened TranscriptFiles

  class JsonlStore {
    const backend: Backend
    var db: Database
    var inTransaction: bool
    var tx: Changes
    // after-commit callbacks, `_pending_outbox_ids`, and the files
    var callbacks: seq<Record>
    var pending: set<int>
    var files: map<string, seq<Record>>
    // history variables
    ghost var history: seq<Fact>
    ghost const legacy: set<Fact>

    ghost predicate Shape()
      reads `db, `tx, `files
    {
      WellFormed(db, tx, files)
    }

    ghost function Abs(): State
      reads this
      requires Shape()
    {
      StateOf(backend, legacy, history, db, if inTransaction then Some(tx) else None, files)
    }

    /** The state with the transaction's own table changes left out: what peer reads and files see. */
    ghost function Base(): State
      reads this
      requires Shape()
    {
      StateOf(backend, legacy, history, db, Some(tx.(table := db.table)), files)
    }

    ghost predicate Bookkept()
      reads `callbacks, `tx, `pending, `inTransaction
    {
      BooksAgree(callbacks, tx.added, pending, inTransaction)
    }

    ghost predicate Valid()
      reads this
    {
      Shape() && Bookkept() && Inv(Abs())
    }

    /** The store instance holds no ids of an earlier, rolled-back transaction. */
    ghost predicate NothingStale()
      reads `tx, `pending
    {
      pending <= QueuedOids(tx.added)
    }

    ghost predicate CanRefresh()
      reads `db, `tx, `files
    {
      Refreshable(db, tx, files)
    }

    lemma ValidCanRefresh()
      requires Valid() && inTransaction
      ensures CanRefresh()
    {
      forall f | f in OutboxFacts(db.outbox).Values && f.TurnFact? ensures f in Source(Abs()) {
        assert f in Abs().outbox.Values;
      }
      forall oid | oid in tx.removed ensures oid in db.outbox && OnlySaid({MutationFact(db.outbox[oid])}) <= Disk(files) {
        assert oid in Abs().outbox && Abs().outbox[oid] == MutationFact(db.outbox[oid]);
      }
      TurnsConsistent(Sayable(db, files), Source(Abs()));
    }

    /** What the open transaction did to the table is all that tells the two states apart. */
    lemma AbsFromBase()
      requires Shape() && inTransaction
      ensures Base().txn.Some? && Abs() == WithTable(Base(), RowFacts(tx.table))
    {
    }

    // ----- reading and writing files -----

    method TurnExists(log: seq<Record>, row: Row) returns (found: bool)
      ensures found <==> row.key in View(log)
    {
      var rows := ReadTranscriptRows(log);
      found := false;
      for i := 0 to |rows|
        invariant found <==> exists j :: 0 <= j < i && rows[j].key == row.key
      {
        if rows[i].key == row.key { found := true; }
      }
      if row.key in View(log) {
        assert View(log)[row.key] == First(log, row.key);
        FirstIsAFact(log, row.key);
        assert View(log)[row.key] in rows;
      }
      if found {
        var j :| 0 <= j < |rows| && rows[j].key == row.key;
        assert rows[j] in rows;
      }
    }

    method AppendReservedTurn(row: Row)
      requires Shape() && Consistent(Disk(files) + {FactOf(row)})
      modifies this`files
      ensures Shape() && Disk(files) == old(Disk(files)) + {FactOf(row)}
    {
      var s := row.key.session;
      var file := FileOf(files, s);
      var found := TurnExists(file, row);
      assert Facts(file) <= Disk(files);
      AppendTurnFacts(file, row);
      var after := AppendTurn(file, row);
      DiskAfter(files, s, after, FactOf(row));
      if !found {
        files := files[s := file + [Turn(row)]];
      } else {
        assert Facts(file) == Facts(file) + {FactOf(row)};
        assert FactOf(row) in Disk(files);
      }
    }

    method AppendPrune(prune: Record)
      requires Shape() && prune.Prune? && prune.session != ""
      modifies this`files
      ensures Shape() && Disk(files) == old(Disk(files)) + {MutationFact(prune)}
    {
      var s := prune.session;
      var file := FileOf(files, s) + [prune];
      FactsAppend(FileOf(files, s), prune);
      DiskAfter(files, s, file, MutationFact(prune));
      files := files[s := file];
    }

    /** `_apply_mutation_sync`: an unreadable mutation, or a prune without a session id, is dropped. */
    method ApplyMutation(mutation: Record)
      requires Shape() && (Applicable(mutation) ==> Consistent(Disk(files) + OnlySaid({MutationFact(mutation)})))
      modifies this`files
      ensures Shape()
      ensures Applicable(mutation) ==> Disk(files) == old(Disk(files)) + OnlySaid({MutationFact(mutation)})
      ensures !Applicable(mutation) ==> files == old(files)
    {
      match mutation
      case Turn(row) =>
        assert OnlySaid({FactOf(row)}) == {FactOf(row)};
        AppendReservedTurn(row);
      case Prune(_, s, _) =>
        assert OnlySaid({MutationFact(mutation)}) == if s != "" then {MutationFact(mutation)} else {};
        if s != "" {
          AppendPrune(mutation);
        }
      case Unreadable =>
    }

    // ----- operations of the open transaction -----

    /** `enqueue_session_jsonl_mutation`, the pending id and the after-commit callback. */
    method EnqueueMutation(oid: int, mutation: Record)
      requires Shape() && Bookkept() && inTransaction && Applicable(mutation)
      modifies this`tx, this`pending, this`callbacks
      ensures Shape() && Bookkept()
      ensures tx == old(tx).(added := old(tx.added) + [Queued(oid, mutation)])
      ensures Abs() == Enqueued(old(Abs()), MutationFact(mutation), oid, tx.counters, RowFacts(tx.table))
      ensures Base() == Enqueued(old(Base()), MutationFact(mutation), oid, tx.counters, RowFacts(db.table))
      ensures old(NothingStale()) ==> NothingStale()
    {
      tx := tx.(added := tx.added + [Queued(oid, mutation)]);
      pending := pending + {oid};
      callbacks := callbacks + [mutation];
      QueuedMore(old(tx.added), Queued(oid, mutation));
      assert Entries(tx.added) == Entries(old(tx.added)) + [Entry(oid, MutationFact(mutation))];
    }

    /** `allocate_session_jsonl_id` */
    method AllocateId(s: string, nextIdAtLeast: int) returns (value: int)
      modifies this`tx
      ensures value == Max(Next(old(tx.counters), s), Max(1, nextIdAtLeast))
      ensures tx == old(tx).(counters := old(tx.counters)[s := value + 1])
    {
      var minimum := Max(1, nextIdAtLeast);
      if s !in tx.counters {
        value := minimum;
      } else {
        value := Max(tx.counters[s], minimum);
      }
      tx := tx.(counters := tx.counters[s := value + 1]);
    }

    /** `ensure_session_jsonl_next_id` */
    method EnsureNextId(s: string, nextIdAtLeast: int)
      modifies this`tx
      ensures tx == old(tx).(counters := Ensure(old(tx.counters), s, nextIdAtLeast))
    {
      var nextId := Max(1, nextIdAtLeast);
      if s !in tx.counters {
        tx := tx.(counters := tx.counters[s := nextId]);
      } else if tx.counters[s] < nextId {
        tx := tx.(counters := tx.counters[s := nextId]);
      } else {
        assert tx.counters == tx.counters[s := tx.counters[s]];
      }
    }

    /** The largest id among rows, 0 for none. */
    method MaxRowId(rows: seq<Row>) returns (m: int)
      requires forall i | 0 <= i < |rows| :: rows[i].key.id >= 1
      ensures m == MaxId(set row | row in rows :: row.key.id)
    {
      m := 0;
      ghost var seen: set<int> := {};
      for i := 0 to |rows|
        invariant seen == set j | 0 <= j < i :: rows[j].key.id
        invariant (forall id | id in seen :: id <= m) && (if seen == {} then m == 0 else m in seen)
      {
        seen := seen + {rows[i].key.id};
        if rows[i].key.id > m { m := rows[i].key.id; }
      }
      assert seen == set row | row in rows :: row.key.id;
    }

    // ----- refreshing the files -----

    method AppendRows(rows: seq<Row>, now: int)
      requires Shape() && Consistent(Disk(files) + RowsFacts(rows))
      modifies this`files
      ensures Shape() && Disk(files) == old(Disk(files)) + RowsFacts(rows)
    {
      for i := 0 to |rows|
        invariant Shape() && Disk(files) == old(Disk(files)) + RowsFacts(rows[..i])
      {
        RowsFactsStep(rows, i);
        AppendReservedTurn(rows[i].(createdAt := now));
      }
      assert rows[..|rows|] == rows;
    }

    method ApplyRows(oids: seq<int>)
      requires Shape() && (forall i | 0 <= i < |oids| :: oids[i] in db.outbox)
      requires Consistent(Disk(files) + OidFacts(db.outbox, oids))
      modifies this`files
      ensures Shape() && Disk(files) == old(Disk(files)) + OidFacts(db.outbox, oids)
    {
      for i := 0 to |oids|
        invariant Shape() && Disk(files) == old(Disk(files)) + OidFacts(db.outbox, oids[..i])
      {
        var oid := oids[i];
        assert oid in db.outbox;
        OidFactsStep(db.outbox, oids, i, oid);
        ApplyMutation(db.outbox[oid]);
      }
      assert oids[..|oids|] == oids;
    }

    /** `_backfill_database_turns` */
    method BackfillDatabaseTurns(p: string, s: string, now: int)
      requires CanRefresh()
      modifies this`files, this`tx
      ensures CanRefresh() && Base() == DoBackfill(old(Base()), p, s)
      ensures tx == old(tx).(counters := tx.counters)
    {
      ghost var turns := Of(RowFacts(db.table), p, s);
      hide MaxId, Routed, Keyed, AllApplicable, AllQueuedApplicable, Entries, IsListing, Window, RowsFacts, Ids, Consistent;
      hide RowFacts, OutboxFacts, AlreadyOnDisk, PositiveTurns, Of, Disk;
      var rows := TableRange(db.table, p, s, 0, None);
      WholeWindow(RowFacts(db.table), p, s);
      ListingFacts(rows, turns);
      RowsOfTurns(rows, RowFacts(db.table), p, s);
      if rows == [] { return; }
      SubsetConsistent(Disk(files) + turns, Sayable(db, files));
      MoreOnDisk(tx.removed, db.outbox, Disk(files), turns);
      AppendRows(rows, now);
      assert Sayable(db, files) == old(Sayable(db, files));
      var top := MaxRowId(rows);
      EnsureNextId(s, top + 1);
    }

    /** `drain_session_jsonl_outbox`: one batch of committed rows, deleted in the open transaction. */
    method DrainBatch(s: string, limit: int) returns (applied: seq<int>)
      requires CanRefresh()
      modifies this`files, this`tx
      ensures CanRefresh()
      ensures IsPrefixOf(applied, OpenRows(db.outbox, old(tx.removed), s))
      ensures |applied| == Min(Max(0, limit), |OpenRows(db.outbox, old(tx.removed), s)|)
      ensures tx == old(tx).(removed := old(tx.removed) + OidSet(applied))
      ensures Disk(files) == old(Disk(files)) + OidFacts(db.outbox, applied)
    {
      var open := OpenRows(db.outbox, tx.removed, s);
      applied := FirstRowIds(open, Max(0, limit));
      hide Entries, Consistent, OutboxFacts, RowFacts, PositiveTurns;
      hide AlreadyOnDisk, OidFacts, Disk, IsPrefixOf;
      OidFactsFromOutbox(db.outbox, applied, open);
      SubsetConsistent(Disk(files) + OidFacts(db.outbox, applied), Sayable(db, files));
      DrainedOnDisk(tx.removed, db.outbox, Disk(files), applied);
      ApplyRows(applied);
      assert Sayable(db, files) == old(Sayable(db, files));
      tx := tx.(removed := tx.removed + OidSet(applied));
    }

    /** `while True: drained = ..; if drained <= 0: return` */
    method DrainLoop(s: string) returns (ghost drained: seq<int>)
      requires CanRefresh()
      modifies this`files, this`tx
      ensures CanRefresh() && tx == old(tx).(removed := old(tx.removed) + OidSet(drained))
      ensures Disk(files) == old(Disk(files)) + OidFacts(db.outbox, drained)
      ensures OidSet(drained) <= OpenRows(db.outbox, old(tx.removed), s)
      ensures OpenRows(db.outbox, tx.removed, s) == {}
    {
      ghost var disk, gone := Disk(files), tx.removed;
      drained := [];
      NothingDrained(db.outbox, gone);
      hide OidFacts, OpenRows, OutboxFacts, Disk, AlreadyOnDisk, Entries, RowFacts, IsPrefixOf, OidSet;
      hide Routed, Consistent, Keyed, AllApplicable, AllQueuedApplicable, PositiveTurns;
      while true
        invariant CanRefresh() && tx == old(tx).(removed := gone + OidSet(drained))
        invariant Disk(files) == disk + OidFacts(db.outbox, drained)
        invariant OidSet(drained) <= OpenRows(db.outbox, gone, s)
        decreases |OpenRows(db.outbox, tx.removed, s)|
      {
        var applied := DrainBatch(s, 100);
        DrainedMore(db.outbox, gone, s, drained, applied);
        if |applied| == 0 { return; }
        drained := drained + applied;
      }
    }

    /** `_drain_outbox`: batches until nothing is left, unless the store has pending rows. */
    method DrainOutbox(s: string)
      requires CanRefresh() && Bookkept()
      modifies this`files, this`tx
      ensures CanRefresh() && Bookkept() && NothingStale() == old(NothingStale())
      ensures Base() == DoDrainSession(old(Base()), s, !old(NothingStale()))
      ensures tx == old(tx).(removed := tx.removed)
    {
      if pending != {} {
        assert Entries(tx.added) == [] ==> QueuedOids(tx.added) == {};
        return;
      }
      PendingCovers(tx.added, pending);
      assert Entries(tx.added) == [];
      hide OidFacts, OpenRows, OutboxFacts, Disk, Entries, RowFacts, OidSet;
      hide OutboxOf, Undelivered, Routed, Consistent, Keyed, AllApplicable, PositiveTurns, AlreadyOnDisk;
      ghost var drained := DrainLoop(s);
      DrainedAll(db.outbox, old(tx.removed), s, drained, old(Disk(files)));
    }

    // ----- reading -----

    /** `_read_session_turns_sync` and the filter of `list_range`. */
    method ReadRange(p: string, s: string, lo: int, hi: Option<int>) returns (list: seq<Row>)
      requires Shape() && Consistent(Disk(files))
      ensures IsListing(list, Window(Visible(Disk(files)), p, s, lo, hi))
    {
      var file := FileOf(files, s);
      FileShowsItsSession(files, s);
      assert Window(VisibleFacts(file), p, s, lo, hi) == Window(Visible(Disk(files)), p, s, lo, hi);
      list := FileRange(file, p, s, lo, hi);
    }

    /** What every read and every prune of the JSONL store does before it looks at the file. */
    method Refresh(p: string, s: string, now: int)
      requires CanRefresh() && Bookkept()
      modifies this`files, this`tx
      ensures CanRefresh() && Bookkept() && NothingStale() == old(NothingStale())
      ensures Base() == Refreshed(old(Base()), p, s, !old(NothingStale()))
      ensures tx == old(tx).(counters := tx.counters, removed := tx.removed)
    {
      BackfillDatabaseTurns(p, s, now);
      DrainOutbox(s);
    }

    lemma BaseDisk()
      requires Shape()
      ensures Base().disk == Disk(files) && Base().txn.Some?
    {
    }

    lemma ConsistentDisk()
      requires CanRefresh()
      ensures Consistent(Disk(files))
    {
      SubsetConsistent(Disk(files), Sayable(db, files));
    }

    /** The JSONL `delete_up_to`. */
    method PruneMirror(p: string, s: string, maxId: int, limit: Option<int>, now: int, oid: int) returns (count: int)
      requires CanRefresh() && Bookkept() && inTransaction
      modifies this`files, this`tx, this`pending, this`callbacks
      ensures Shape() && Bookkept() && (old(NothingStale()) ==> NothingStale())
      ensures Base() == DoPrune(old(Base()), p, s, maxId, limit, !old(NothingStale()), oid)
      ensures tx.table == old(tx.table)
      ensures count == |Pruned(old(Base()), p, s, maxId, limit, !old(NothingStale()))|
    {
      hide Refreshed, Selected, Visible, Ids, MaxId, Disk, BooksAgree, QueuedOids, WellFormed;
      hide Consistent, PositiveTurns, AlreadyOnDisk, RowFacts, OutboxFacts, Entries;
      if maxId < 1 { return 0; }
      Refresh(p, s, now);
      ConsistentDisk();
      var selected := SelectForPrune(p, s, maxId, limit);
      BaseDisk();
      if selected == [] { return 0; }
      EnqueueMutation(oid, Prune(p, s, selected[|selected| - 1].key.id));
      count := |selected|;
    }

    /** The candidates of `delete_up_to` and their first `max(1, limit)`. */
    method SelectForPrune(p: string, s: string, maxId: int, limit: Option<int>) returns (selected: seq<Row>)
      requires Shape() && Consistent(Disk(files))
      ensures var ids := Selected(Ids(Visible(Disk(files)), p, s), maxId, limit);
              && |selected| == |ids| && (selected == [] <==> ids == {})
              && (selected != [] ==> selected[|selected| - 1].key.id == MaxId(ids))
    {
      hide Selected, Visible, UpTo, Ids, MaxId, Disk, IsListing, Window, ListedIds;
      var candidates := ReadRange(p, s, 0, Some(maxId + 1));
      PositiveView(Disk(files));
      CandidateIds(candidates, Visible(Disk(files)), p, s, maxId);
      var quota := match limit case None => |candidates| case Some(n) => Max(1, n);
      selected := candidates[..Min(quota, |candidates|)];
      SelectedRows(candidates, Ids(Visible(Disk(files)), p, s), maxId, limit, selected);
    }

    // ----- the operations callers see -----

    lemma ValidFacts()
      requires Valid()
      ensures Consistent(Disk(files)) && Consistent(Abs().disk)
    {
      SubsetConsistent(Disk(files), Source(Abs()));
    }

    /** `_next_turn_id_floor_sync` */
    method NextTurnIdFloor(s: string) returns (floor: int)
      requires Shape() && Consistent(Disk(files))
      ensures floor == MaxId(SessionIds(Visible(Disk(files)), s)) + 1
    {
      var rows := ReadTranscriptRows(FileOf(files, s));
      RowsAreVisible(rows, FileOf(files, s));
      FileShowsItsSession(files, s);
      RowIdsOfSession(rows, Visible(Disk(files)), s);
      if rows == [] { return 1; }
      var top := MaxRowId(rows);
      floor := top + 1;
    }

    /** The JSONL `create_turn`: the id is above the counter, the table and the visible rows. */
    method CreateTurn(p: string, s: string, content: Content, now: int, oid: int) returns (row: Row)
      requires Valid() && inTransaction && backend.Jsonl? && FreeOid(Abs(), oid)
      modifies this`tx, this`pending, this`callbacks
      ensures Valid() && (old(NothingStale()) ==> NothingStale())
      ensures row == Row(Key(p, s, Allocated(old(Abs()), p, s)), content, now)
      ensures tx.added == old(tx.added) + [Queued(oid, Turn(row))]
      ensures Abs() == DoCreateJsonl(old(Abs()), p, s, content, oid)
    {
      hide Inv, Visible, SessionIds, MaxId, Ids, Disk, RowFacts;
      ValidFacts();
      RowIdsAreFactIds(tx.table, p, s);
      var databaseTop := LargestOf(RowIdsOf(tx.table, p, s));
      var floor := NextTurnIdFloor(s);
      var id := AllocateId(s, Max(databaseTop + 1, floor));
      row := Row(Key(p, s, id), content, now);
      EnqueueMutation(oid, Turn(row));
      CreateJsonlInv(old(Abs()), p, s, content, oid);
    }

    /** The dual-mode `create_turn`: the table row first, then the mirror with its id. */
    method CreateTurnDual(id: int, p: string, s: string, content: Content, now: int, oid: int) returns (row: Row)
      requires Valid() && inTransaction && Enabled(Abs(), TranscriptMachine.CreateDual(id, p, s, content, oid))
      modifies this`tx, this`pending, this`callbacks
      ensures Valid() && (old(NothingStale()) ==> NothingStale())
      ensures row == Row(Key(p, s, id), content, now)
      ensures tx.table == old(tx.table)[id := row] && tx.added == old(tx.added) + [Queued(oid, Turn(row))]
      ensures Abs() == DoCreateDual(old(Abs()), id, p, s, content, oid)
    {
      hide Inv, Disk, BooksAgree, QueuedOids, Ensure, OutboxFacts, Consistent;
      ghost var st := Abs();
      NewRowId(st, tx.table, id);
      CreateDualInv(st, id, p, s, content, oid);
      row := Row(Key(p, s, id), content, now);
      InsertedRow(db, tx, files, id, row);
      hide Enabled, WellFormed, RowFacts, Entries;
      tx := tx.(table := tx.table[id := row]);
      EnsureNextId(s, id + 1);
      EnqueueMutation(oid, Turn(row));
    }

    /** The JSONL `delete_up_to`. */
    method DeleteUpTo(p: string, s: string, maxId: int, limit: Option<int>, now: int, oid: int) returns (count: int)
      requires Valid() && inTransaction && backend.Jsonl? && FreeOid(Abs(), oid)
      modifies this`files, this`tx, this`pending, this`callbacks
      ensures Valid() && (old(NothingStale()) ==> NothingStale())
      ensures Abs() == DoPrune(old(Abs()), p, s, maxId, limit, !old(NothingStale()), oid)
      ensures count == |Pruned(old(Abs()), p, s, maxId, limit, !old(NothingStale()))|
    {
      hide Inv, FreeOid, DoPrune, Pruned, Disk, RowFacts, WithTable, WellFormed, BooksAgree, QueuedOids;
      ghost var stale := !NothingStale();
      PruneJsonlInv(Abs(), p, s, maxId, limit, stale, oid);
      ValidCanRefresh();
      AbsFromBase();
      PruneIgnoresTransactionTable(Base(), p, s, maxId, limit, stale, oid, RowFacts(tx.table));
      PrunedIgnoresTransactionTable(Base(), p, s, maxId, limit, stale, RowFacts(tx.table));
      count := PruneMirror(p, s, maxId, limit, now, oid);
      AbsFromBase();
    }

    /** The table's `delete_up_to`, inside the open transaction. */
    method DeleteRows(p: string, s: string, maxId: int, limit: Option<int>) returns (count: int)
      requires Shape()
      modifies this`tx
      ensures Shape() && Base() == old(Base()) && tx == old(tx).(table := tx.table)
      ensures RowFacts(tx.table) == Without(old(RowFacts(tx.table)), p, s, Deleted(old(RowFacts(tx.table)), p, s, maxId, limit))
      ensures count == |Deleted(old(RowFacts(tx.table)), p, s, maxId, limit)|
    {
      ghost var facts := RowFacts(tx.table);
      if maxId < 1 {
        assert Without(facts, p, s, {}) == facts;
        return 0;
      }
      RowIdsAreFactIds(tx.table, p, s);
      var eligible := UpTo(RowIdsOf(tx.table, p, s), maxId);
      var ids := FirstRowIds(eligible, Quota(eligible, limit));
      FirstRowIdsAreFirst(ids, eligible, Quota(eligible, limit));
      SelectedCount(ids, eligible, Quota(eligible, limit));
      RowsWithout(tx.table, p, s, ids, Deleted(facts, p, s, maxId, limit));
      tx := tx.(table := map id | id in tx.table && id !in ids :: tx.table[id]);
      count := |ids|;
    }

    /** The dual-mode `delete_up_to`: the table deletes, the mirror prunes as many rows.  The invariant, and
        with it the equality of table and mirror, holds afterwards exactly when the two agree on the rows. */
    method DeleteUpToDual(p: string, s: string, maxId: int, limit: Option<int>, now: int, oid: int) returns (count: int)
      requires Valid() && inTransaction && backend.Dual? && FreeOid(Abs(), oid)
      modifies this`files, this`tx, this`pending, this`callbacks
      ensures Shape() && Abs() == DoPruneDual(old(Abs()), p, s, maxId, limit, !old(NothingStale()), oid)
      ensures count == |Deleted(old(RowFacts(tx.table)), p, s, maxId, limit)|
      ensures Valid() <==> PruneAgrees(old(Abs()), p, s, maxId, limit, !old(NothingStale()))
      ensures old(NothingStale()) ==> NothingStale()
    {
      hide Inv, FreeOid, Deleted, DoPrune, DoPruneDual, PruneAgrees, RowFacts, Disk, Without, WithTable;
      hide WellFormed, BooksAgree, QueuedOids, Consistent, PositiveTurns, AlreadyOnDisk;
      ghost var st, base, stale := Abs(), Base(), !NothingStale();
      PruneDualAgreesIff(st, p, s, maxId, limit, stale, oid);
      ValidCanRefresh();
      AbsFromBase();
      DualPruneSplits(base, st, p, s, maxId, limit, stale, oid);
      count := DeleteRows(p, s, maxId, limit);
      MirrorDeletion(p, s, maxId, count, now, oid, base);
    }

    /** `if deleted: await self.mirror.delete_up_to(.., limit=deleted)` */
    method MirrorDeletion(p: string, s: string, maxId: int, count: nat, now: int, oid: int, ghost base: State)
      requires CanRefresh() && Bookkept() && inTransaction && Base() == base && base.txn.Some?
      modifies this`files, this`tx, this`pending, this`callbacks
      ensures Shape() && Bookkept() && (old(NothingStale()) ==> NothingStale())
      ensures var pruned := if count == 0 then base else DoPrune(base, p, s, maxId, Some(count), !old(NothingStale()), oid);
              pruned.txn.Some? && Abs() == WithTable(pruned, old(RowFacts(tx.table)))
    {
      hide DoPrune, RowFacts, Disk, WithTable, WellFormed, BooksAgree, QueuedOids, Pruned, Consistent, PositiveTurns, AlreadyOnDisk;
      if count != 0 {
        var mirrored := PruneMirror(p, s, maxId, Some(count), now, oid);
      }
      AbsFromBase();
    }

    /** The JSONL `list_range`: what the refreshed file shows, in id order.  At the start of a transaction of a
        store without stale pending ids that is exactly the committed view, in dual mode exactly the table;
        otherwise it is part of what was committed. */
    method ListRange(p: string, s: string, lo: int, hi: Option<int>, now: int) returns (list: seq<Row>)
      requires Valid() && inTransaction
      modifies this`files, this`tx
      ensures Valid() && NothingStale() == old(NothingStale()) && tx.added == old(tx.added)
      ensures Abs() == Refreshed(old(Abs()), p, s, !old(NothingStale())) && tx.table == old(tx.table)
      ensures IsListing(list, Window(Visible(Abs().disk), p, s, lo, hi)) && RowsFacts(list) <= Source(old(Abs()))
      ensures old(tx.added) == [] && old(NothingStale()) ==>
                && IsListing(list, Window(Visible(Source(old(Abs()))), p, s, lo, hi))
                && (backend.Dual? ==> IsListing(list, Window(RowFacts(db.table), p, s, lo, hi)))
    {
      hide Inv, Disk, RowFacts, WithTable, BooksAgree, QueuedOids, OutboxFacts, Consistent, PositiveTurns, AlreadyOnDisk, Visible, Window;
      ghost var st, stale := Abs(), !NothingStale();
      assert tx.added == [] ==> st.txn.value.added == [];
      ValidCanRefresh();
      RefreshedInv(st, p, s, stale);
      ExactWindow(st, p, s, lo, hi);
      AbsFromBase();
      PruneIgnoresTransactionTable(Base(), p, s, 0, None, stale, 0, RowFacts(tx.table));
      WindowWithin(Refreshed(st, p, s, stale), p, s, lo, hi);
      hide Refreshed, Entries, IsListing, WellFormed, RowsFacts;
      Refresh(p, s, now);
      AbsFromBase();
      BaseDisk();
      ConsistentDisk();
      list := ReadRange(p, s, lo, hi);
      ListingFacts(list, Window(Visible(Disk(files)), p, s, lo, hi));
    }

    /** The JSONL `count` */
    method Count(p: string, s: string, now: int) returns (n: int)
      requires Valid() && inTransaction
      modifies this`files, this`tx
      ensures Valid() && NothingStale() == old(NothingStale()) && tx.added == old(tx.added) && Source(Abs()) == old(Source(Abs()))
      ensures n == |Shown(old(Abs()), p, s, !old(NothingStale()))|
      ensures old(tx.added) == [] && old(NothingStale()) ==> n == |Ids(Visible(Source(old(Abs()))), p, s)|
    {
      hide Inv, Visible, Refreshed, RowFacts, Disk, WellFormed, BooksAgree, QueuedOids, Ids;
      RefreshedSource(Abs(), p, s, !NothingStale());
      hide Source;
      var list := ListRange(p, s, 0, None, now);
      PositiveView(Abs().disk);
      ListingCount(list, Visible(Abs().disk), p, s);
      if old(tx.added) == [] && old(NothingStale()) {
        PositiveView(Source(old(Abs())));
        ListingCount(list, Visible(Source(old(Abs()))), p, s);
      }
      n := |list|;
    }

    /** The JSONL `list_recent` */
    method ListRecent(p: string, s: string, limit: int, lo: int, now: int) returns (list: seq<Row>)
      requires Valid() && inTransaction
      modifies this`files, this`tx
      ensures Valid() && NothingStale() == old(NothingStale()) && tx.added == old(tx.added) && Source(Abs()) == old(Source(Abs()))
      ensures IsRecent(list, Window(Visible(Refreshed(old(Abs()), p, s, !old(NothingStale())).disk), p, s, lo, None), limit)
      ensures old(tx.added) == [] && old(NothingStale()) ==>
                && IsRecent(list, Window(Visible(Source(old(Abs()))), p, s, lo, None), limit)
                && (backend.Dual? ==> IsRecent(list, Window(RowFacts(db.table), p, s, lo, None), limit))
    {
      hide Inv, Visible, Window, Disk, WellFormed, BooksAgree, QueuedOids, RowFacts, Refreshed, IsRecent, IsListing;
      NoneRecent(Visible(Refreshed(Abs(), p, s, !NothingStale()).disk), p, s, lo, limit);
      NoneRecent(Visible(Source(Abs())), p, s, lo, limit);
      NoneRecent(RowFacts(db.table), p, s, lo, limit);
      if limit < 1 { return []; }
      RefreshedSource(Abs(), p, s, !NothingStale());
      hide Source;
      var all := ListRange(p, s, lo, None, now);
      list := all[Max(0, |all| - limit)..];
      SuffixIsRecent(all, limit);
    }

    // ----- transactions -----

    constructor (backend: Backend, rows: map<int, Row>)
      requires Keyed(rows) && LegacyTable(RowFacts(rows))
      ensures Valid() && NothingStale() && !inTransaction
      ensures Abs() == Start(backend, RowFacts(rows))
    {
      this.backend := backend;
      db := Database(rows, map[], map[]);
      inTransaction := false;
      tx := Changes(map[], map[], [], {});
      callbacks, pending, files := [], {}, map[];
      history := [];
      legacy := RowFacts(rows);
      new;
      assert OutboxFacts(map[]) == map[] && Disk(map[]) == {};
      StartInv(backend, RowFacts(rows));
    }

    method Begin()
      requires Valid() && !inTransaction
      modifies this`inTransaction, this`tx
      ensures Valid() && inTransaction && (old(NothingStale()) ==> NothingStale())
      ensures Abs() == Do(old(Abs()), TranscriptMachine.Begin)
    {
      BeginInv(Abs());
      inTransaction := true;
      tx := Changes(db.table, db.counters, [], {});
      assert Entries([]) == [];
    }

    /** `_run_after_commit_callbacks`: a callback that fails is logged, the next one runs all the same. */
    method RunCallbacks(run: seq<Queued>, succeeds: seq<bool>, ghost source: set<Fact>)
      requires Shape() && |run| == |succeeds| && AllQueuedApplicable(run)
      requires Consistent(source) && Disk(files) <= source && QueuedFacts(run) <= source
      modifies this`files, this`pending
      ensures Shape() && Disk(files) == old(Disk(files)) + Succeeded(Added(Entries(run)), succeeds)
      ensures pending == old(pending) - QueuedOids(run)
    {
      ghost var facts := Added(Entries(run));
      hide WellFormed, Disk, Succeeded, QueuedFacts, Added, Entries;
      QueuedFactsEach(run);
      NothingSucceeded(facts, succeeds);
      for i := 0 to |run|
        invariant Shape() && Disk(files) <= source
        invariant Disk(files) == old(Disk(files)) + Succeeded(facts[..i], succeeds[..i])
        invariant pending == old(pending) - QueuedOids(run[..i])
      {
        SucceededMore(facts, succeeds, i);
        SubsetConsistent(Disk(files) + OnlySaid({facts[i]}), source);
        if succeeds[i] { ApplyMutation(run[i].mutation); }
        assert run[..i + 1] == run[..i] + [run[i]];
        QueuedMore(run[..i], run[i]);
        pending := pending - {run[i].oid};
      }
      assert facts[..|run|] == facts && succeeds[..|run|] == succeeds && run[..|run|] == run;
    }

    /** The commit and then the after-commit callbacks; `succeeds` says which of them do not fail. */
    method Commit(succeeds: seq<bool>)
      requires Valid() && inTransaction && |succeeds| == |tx.added|
      modifies this
      ensures Valid() && !inTransaction && (old(NothingStale()) ==> NothingStale())
      ensures Abs() == CommittedAndRun(old(Abs()), succeeds)
    {
      hide Inv, DoCommit, RowFacts, OutboxFacts, Disk, Committed, Succeeded, CommitDatabase, QueuedFacts, Consistent;
      ghost var st := Abs();
      var queued := tx.added;
      CommittedDatabase(backend, legacy, history, db, tx, files);
      CommitRefines(st, succeeds);
      CommittedFacts(st, queued);
      hide Added, Entries;
      db := CommitDatabase(db, tx);
      history := history + Added(st.txn.value.added);
      tx := Changes(map[], map[], [], {});
      inTransaction, callbacks := false, [];
      RunCallbacks(queued, succeeds, Source(DoCommit(st)));
    }

    /** A rollback forgets the transaction and its callbacks, but not the store's pending ids. */
    method Rollback()
      requires Valid() && inTransaction
      modifies this`inTransaction, this`tx, this`callbacks
      ensures Valid() && !inTransaction
      ensures Abs() == Do(old(Abs()), TranscriptMachine.Rollback)
    {
      DropTxnInv(Abs(), Abs().callbacks);
      inTransaction := false;
      tx, callbacks := Changes(map[], map[], [], {}), [];
    }

    /** The process dies and the store is built again: nothing but the database and the files is left. */
    method Crash()
      requires Valid()
      modifies this`inTransaction, this`tx, this`callbacks, this`pending
      ensures Valid() && NothingStale() && !inTransaction
      ensures Abs() == Do(old(Abs()), TranscriptMachine.Crash)
    {
      DropTxnInv(Abs(), multiset{});
      inTransaction := false;
      tx, callbacks, pending := Changes(map[], map[], [], {}), [], {};
    }
  }
}