/** When the mirror of dual mode agrees with the table, and where it stops to. */
module DualMirror {
  import opened Ordering
  import opened TranscriptLog
  import opened TranscriptMachine
  import opened TranscriptTheorems

  /** A guard that is easy to check: the transaction created no turn of the profile and session up to the
      bound and has no prune of it pending, and no prune of it is undelivered while the store has pending
      rows. */
  ghost predicate QuietFor(st: State, p: string, s: string, maxId: int, stale: bool)
    requires st.txn.Some?
  {
    && (forall f | f in Of(AddedFacts(st.txn.value), p, s) :: f.key.id > maxId)
    && (forall b :: PruneFact(p, s, b) !in AddedFacts(st.txn.value))
    && (stale || st.txn.value.added != [] ==> forall b | PruneFact(p, s, b) in st.outbox.Values :: PruneFact(p, s, b) in st.disk)
  }

  /** The first operation of a transaction meets the guard. */
  lemma FirstOperationIsQuiet(st: State, p: string, s: string, maxId: int)
    requires st.txn.Some? && st.txn.value.added == []
    ensures QuietFor(st, p, s, maxId, false)
  {
    assert AddedFacts(st.txn.value) == {};
  }

  lemma QuietPruneAgrees(st: State, p: string, s: string, maxId: int, limit: Option<int>, stale: bool)
    requires Inv(st) && st.backend.Dual? && st.txn.Some?
    requires QuietFor(st, p, s, maxId, stale)
    ensures RowsAgree(st, p, s, maxId, limit, stale)
    ensures s != "" ==> PruneAgrees(st, p, s, maxId, limit, stale)
  {
    DeletedRowsAreOld(st, p, s, maxId, limit);
    ShownIsKept(st, p, s, stale);
  }

  lemma DeletedRowsAreOld(st: State, p: string, s: string, maxId: int, limit: Option<int>)
    requires Inv(st) && st.backend.Dual? && st.txn.Some?
    requires forall f | f in Of(AddedFacts(st.txn.value), p, s) :: f.key.id > maxId
    ensures Deleted(st.txn.value.table, p, s, maxId, limit) <= Ids(st.table, p, s)
  {
    var t := st.txn.value;
    forall i | i in Deleted(t.table, p, s, maxId, limit) ensures i in Ids(st.table, p, s) {
      assert i in UpTo(Ids(t.table, p, s), maxId);
      var f :| f in Of(t.table, p, s) && f.key.id == i;
      assert f in Source(st) by { assert f !in Of(AddedFacts(t), p, s); }
      FewerPrunesHideLess(Source(st), Source(st) + AddedFacts(t), f.key);
      assert f in Of(st.table, p, s);
    }
  }

  lemma ShownIsKept(st: State, p: string, s: string, stale: bool)
    requires Inv(st) && st.backend.Dual? && st.txn.Some?
    requires forall b :: PruneFact(p, s, b) !in AddedFacts(st.txn.value)
    requires stale || st.txn.value.added != [] ==> forall b | PruneFact(p, s, b) in st.outbox.Values :: PruneFact(p, s, b) in st.disk
    ensures Shown(st, p, s, stale) <= Ids(st.txn.value.table, p, s)
  {
    var st1, t := Refreshed(st, p, s, stale), st.txn.value;
    RefreshedInv(st, p, s, stale);
    PrunesReachDisk(st, p, s, stale);
    hide Refreshed;
    forall i | i in Shown(st, p, s, stale) ensures i in Ids(t.table, p, s) {
      var f :| f in Of(Visible(st1.disk), p, s) && f.key.id == i;
      assert f in Source(st1) && Source(st1) == Source(st);
      HiddenOnDisk(st1.disk, Source(st) + AddedFacts(t), f.key);
      assert f in Of(t.table, p, s);
    }
  }

  lemma HiddenOnDisk(disk: set<Fact>, all: set<Fact>, k: Key)
    requires forall b | PruneFact(k.profile, k.session, b) in all :: PruneFact(k.profile, k.session, b) in disk
    ensures Hidden(all, k) ==> Hidden(disk, k)
  {
    if Hidden(all, k) && k.id > 0 {
      var b :| PruneFact(k.profile, k.session, b) in all && k.id <= b;
      assert PruneFact(k.profile, k.session, b) in disk;
    }
  }

  lemma PrunesReachDisk(st: State, p: string, s: string, stale: bool)
    requires Inv(st) && st.txn.Some?
    requires stale || st.txn.value.added != [] ==> forall b | PruneFact(p, s, b) in st.outbox.Values :: PruneFact(p, s, b) in st.disk
    ensures forall b | PruneFact(p, s, b) in Source(st) :: PruneFact(p, s, b) in Refreshed(st, p, s, stale).disk
  {
    var st1 := DoBackfill(st, p, s);
    forall b | PruneFact(p, s, b) in Source(st) ensures PruneFact(p, s, b) in Refreshed(st, p, s, stale).disk {
      assert PruneFact(p, s, b) in Committed(st);
      if !stale && st.txn.value.added == [] {
        assert Committed(st1) == Committed(st);
        DrainReaches(st1, s);
        assert SessionOf(PruneFact(p, s, b)) == s;
      }
    }
  }

  /** A dual-mode create, with ANY id that is free in the table, keeps table and mirror equal exactly
      when the id is above every prune boundary of its profile and session. */
  lemma DualCreateAgreesIff(st: State, id: int, p: string, s: string, content: Content, oid: int)
    requires Inv(st) && st.backend.Dual? && FreeOid(st, oid)
    requires id >= 1 && forall f | f in st.txn.value.table :: f.key.id != id
    ensures var after := DoCommit(DoCreateDual(st, id, p, s, content, oid));
            after.table == Visible(Source(after)) <==>
            forall b | PruneFact(p, s, b) in Source(st) + AddedFacts(st.txn.value) :: b < id
  {
    var t := st.txn.value;
    var f := TurnFact(Key(p, s, id), content);
    var created := DoCreateDual(st, id, p, s, content, oid);
    var after := DoCommit(created);
    var all := Source(st) + AddedFacts(t);
    assert t.table == Visible(all);
    EnqueuedFacts(st, f, oid, Ensure(t.counters, s, id + 1), t.table + {f});
    CommitSource(created);
    assert OnlySaid({f}) == {f};
    assert Source(after) == all + {f} && after.table == t.table + {f};
    hide Inv, Source, AddedFacts, Visible, DoCreateDual, DoCommit, FreeOid;
    ViewWithTurn(all, t.table, f);
  }

  lemma ViewWithTurn(all: set<Fact>, table: set<Fact>, f: Fact)
    requires table == Visible(all) && f.TurnFact? && f.key.id >= 1
    ensures table + {f} == Visible(all + {f}) <==> forall b | PruneFact(f.key.profile, f.key.session, b) in all :: b < f.key.id
  {
    SamePrunesSameHidden(all, all + {f});
    if !Hidden(all, f.key) {
      forall b | PruneFact(f.key.profile, f.key.session, b) in all ensures b < f.key.id {}
      assert table + {f} == Visible(all + {f});
    } else {
      assert f !in Visible(all + {f});
    }
  }

  /** SQLite without AUTOINCREMENT hands out the largest rowid plus one. */
  ghost function SqliteRowid(table: set<Fact>): int { MaxId(RowIds(table)) + 1 }

  ghost function RowIds(table: set<Fact>): set<int> { set f | f in table && f.TurnFact? :: f.key.id }

  /** Create a turn, prune it, begin again. */
  ghost function CreateAndPrune(p: string, s: string, c: Content): seq<Step> {
    [Begin, CreateDual(1, p, s, c, 1), Commit, Begin, PruneDual(p, s, 1, None, false, 2), Commit, Begin]
  }

  /** Prune the newest turn, create another: the reused rowid is born under the boundary, and the
      mirror never shows the new turn. */
  lemma ReusedRowidIsBornHidden(p: string, s: string, c: Content, d: Content)
    requires s != ""
    ensures var st := Run(Start(Dual, {}), CreateAndPrune(p, s, c));
            && st.txn.Some? && SqliteRowid(st.table) == 1
            && var after := DoCommit(DoCreateDual(st, SqliteRowid(st.table), p, s, d, 3));
            TurnFact(Key(p, s, 1), d) in after.table && TurnFact(Key(p, s, 1), d) !in Visible(Source(after))
  {
    var st := Run(Start(Dual, {}), CreateAndPrune(p, s, c));
    PrunedAndBegun(p, s, c);
    var prune := PruneFact(p, s, 1);
    assert RowIds(st.table) == {};
    var created := DoCreateDual(st, 1, p, s, d, 3);
    CommitSource(created);
    assert prune in Source(DoCommit(created)) by { assert prune in created.history && prune in Committed(created); }
  }

  lemma RunMore(st: State, steps: seq<Step>, step: Step)
    requires Enabled(Run(st, steps), step)
    ensures Run(st, steps + [step]) == Do(Run(st, steps), step)
  {
    assert (steps + [step])[..|steps|] == steps;
  }

  /** The state after creating turn 1 in a transaction of its own. */
  ghost function Created(p: string, s: string, c: Content): State {
    var turn := TurnFact(Key(p, s, 1), c);
    State(Dual, {}, {turn}, map[s := 2], map[1 := turn], {}, [turn], multiset{turn}, None)
  }

  lemma CreatedRuns(p: string, s: string, c: Content)
    ensures Run(Start(Dual, {}), [Begin] + [CreateDual(1, p, s, c, 1)] + [Commit]) == Created(p, s, c) && Inv(Created(p, s, c))
  {
    var turn := TurnFact(Key(p, s, 1), c);
    var create := CreateDual(1, p, s, c, 1);
    var begun := Start(Dual, {}).(txn := Some(Txn(map[], {}, [], {})));
    var created := begun.(txn := Some(Txn(map[s := 2], {turn}, [Entry(1, turn)], {})));
    BegunRuns();
    CreateStep(p, s, c);
    CommitStep(p, s, c);
    StartInv(Dual, {});
    RunInv(Start(Dual, {}), [Begin] + [create] + [Commit]);
    hide Run, Enabled, Do, Inv;
    RunMore(Start(Dual, {}), [Begin], create);
    RunMore(Start(Dual, {}), [Begin] + [create], Commit);
  }

  lemma BegunRuns()
    ensures Run(Start(Dual, {}), [Begin]) == Start(Dual, {}).(txn := Some(Txn(map[], {}, [], {})))
  {
    assert [Begin][..0] == [];
  }

  lemma CreateStep(p: string, s: string, c: Content)
    ensures var begun := Start(Dual, {}).(txn := Some(Txn(map[], {}, [], {})));
            var turn := TurnFact(Key(p, s, 1), c);
            && Enabled(begun, CreateDual(1, p, s, c, 1))
            && Do(begun, CreateDual(1, p, s, c, 1)) == begun.(txn := Some(Txn(map[s := 2], {turn}, [Entry(1, turn)], {})))
  {
    var begun := Start(Dual, {}).(txn := Some(Txn(map[], {}, [], {})));
    assert AddedOids([]) == {} && AddedFacts(begun.txn.value) == {} && Source(begun) == {};
    assert [] + [Entry(1, TurnFact(Key(p, s, 1), c))] == [Entry(1, TurnFact(Key(p, s, 1), c))];
    assert Ensure(map[], s, 2) == map[s := 2];
    assert NeverReused(begun, 1);
    assert FreeOid(begun, 1);
    assert Enabled(begun, CreateDual(1, p, s, c, 1));
    assert {} + {TurnFact(Key(p, s, 1), c)} == {TurnFact(Key(p, s, 1), c)};
  }

  lemma CommitStep(p: string, s: string, c: Content)
    ensures var turn := TurnFact(Key(p, s, 1), c);
            var created := Start(Dual, {}).(txn := Some(Txn(map[s := 2], {turn}, [Entry(1, turn)], {})));
            Enabled(created, Commit) && Do(created, Commit) == Created(p, s, c)
  {
    var turn := TurnFact(Key(p, s, 1), c);
    var added := [Entry(1, turn)];
    assert added[..0] == [] && Added(added) == [turn];
    assert AddedRows(added) == map[1 := turn];
    assert multiset([turn]) == multiset{turn};
  }

  lemma PrunedAndBegun(p: string, s: string, c: Content)
    requires s != ""
    ensures var st := Run(Start(Dual, {}), CreateAndPrune(p, s, c));
            && st.txn.Some? && st.table == {} && PruneFact(p, s, 1) in st.history
            && st.txn.value.table == {} && st.txn.value.added == []
  {
    hide Run, Inv, Created, Enabled, Do;
    var first := [Begin] + [CreateDual(1, p, s, c, 1)] + [Commit];
    var prune := PruneDual(p, s, 1, None, false, 2);
    CreatedRuns(p, s, c);
    PruneOfCreated(p, s, c);
    CommitOfPruned(Do(Do(Created(p, s, c), Begin), prune), PruneFact(p, s, 1), 2);
    RunMore(Start(Dual, {}), first, Begin);
    RunMore(Start(Dual, {}), first + [Begin], prune);
    RunMore(Start(Dual, {}), first + [Begin] + [prune], Commit);
    RunMore(Start(Dual, {}), first + [Begin] + [prune] + [Commit], Begin);
    assert first + [Begin] + [prune] + [Commit] + [Begin] == CreateAndPrune(p, s, c);
  }

  lemma CommitOfPruned(pruned: State, f: Fact, oid: int)
    requires pruned.txn.Some? && pruned.txn.value.table == {} && pruned.txn.value.added == [Entry(oid, f)]
    ensures Enabled(pruned, Commit) && Enabled(Do(pruned, Commit), Begin)
    ensures var st := Do(Do(pruned, Commit), Begin);
            st.txn.Some? && st.table == {} && f in st.history && st.txn.value.table == {} && st.txn.value.added == []
  {
    assert Added([Entry(oid, f)]) == [f];
  }

  lemma PruneOfCreated(p: string, s: string, c: Content)
    requires s != ""
    ensures Enabled(Created(p, s, c), Begin)
    ensures var open := Do(Created(p, s, c), Begin);
            var prune := PruneDual(p, s, 1, None, false, 2);
            && Enabled(open, prune)
            && Do(open, prune).txn.Some?
            && Do(open, prune).txn.value.table == {} && Do(open, prune).txn.value.added == [Entry(2, PruneFact(p, s, 1))]
  {
    var turn := TurnFact(Key(p, s, 1), c);
    var open := Do(Created(p, s, c), Begin);
    OpenCreated(p, s, c);
    hide Created;
    PruneOfOneTurn(open, p, s, turn);
  }

  lemma OpenCreated(p: string, s: string, c: Content)
    ensures Enabled(Created(p, s, c), Begin)
    ensures var open := Do(Created(p, s, c), Begin);
            && Inv(open) && FreeOid(open, 2) && open.backend.Dual? && open.txn.Some? && open.txn.value.added == []
            && open.table == {TurnFact(Key(p, s, 1), c)}
  {
    CreatedRuns(p, s, c);
    hide Inv;
    BeginInv(Created(p, s, c));
    assert AddedOids([]) == {};
  }

  lemma PruneOfOneTurn(open: State, p: string, s: string, turn: Fact)
    requires Inv(open) && FreeOid(open, 2) && open.backend.Dual? && open.txn.Some? && open.txn.value.added == []
    requires open.table == {turn} && turn.TurnFact? && turn.key == Key(p, s, 1) && s != ""
    ensures var prune := PruneDual(p, s, 1, None, false, 2);
            && Enabled(open, prune)
            && Do(open, prune).txn.Some?
            && Do(open, prune).txn.value.table == {} && Do(open, prune).txn.value.added == [Entry(2, PruneFact(p, s, 1))]
  {
    hide Inv, Selected, Ids, Of, FreeOid, DoPruneDual, PruneAgrees, QuietFor;
    TurnIds(p, s, turn);
    OneIsSelected();
    FirstOperationIsQuiet(open, p, s, 1);
    QuietPruneAgrees(open, p, s, 1, None, false);
    PruneFirst(open, p, s, 1, None, 2);
    TableRest(open, p, s, turn);
  }

  lemma TurnIds(p: string, s: string, turn: Fact)
    requires turn.TurnFact? && turn.key == Key(p, s, 1)
    ensures Of({turn}, p, s) == {turn} && Ids({turn}, p, s) == {1}
  {
    assert turn in Of({turn}, p, s);
  }

  /** A prune that is the first operation of its transaction deletes the selected rows and enqueues their
      boundary. */
  lemma PruneFirst(open: State, p: string, s: string, maxId: int, limit: Option<int>, oid: int)
    requires Inv(open) && open.backend.Dual? && FreeOid(open, oid) && open.txn.value.added == []
    ensures open.txn.value.table == open.table == Visible(Source(open))
    ensures var after, selected := DoPruneDual(open, p, s, maxId, limit, false, oid), Selected(Ids(open.table, p, s), maxId, limit);
            && after.txn.Some? && after.history == open.history && after.legacy == open.legacy && after.backend.Dual?
            && after.txn.value.added == if selected == {} then [] else [Entry(oid, PruneFact(p, s, MaxId(selected)))]
  {
    assert open.txn.Some?;
    hide Inv, Selected, MirrorSelected, Visible, Refreshed, DoPruneDual, Deleted, FreeOid, Source, Ids;
    TableIsView(open);
    FirstPruneIff(open, p, s, maxId, limit, oid);
    VisibleRowsSelected(open.table, p, s, maxId, limit);
    if Deleted(open.table, p, s, maxId, limit) != {} {
      PruneOfSome(open, p, s, maxId, limit, oid);
    } else {
      NothingToDelete(open, p, s, maxId, limit, oid);
    }
  }

  lemma PruneOfSome(open: State, p: string, s: string, maxId: int, limit: Option<int>, oid: int)
    requires open.txn.Some? && Deleted(open.txn.value.table, p, s, maxId, limit) != {}
    requires MirrorSelected(open, p, s, maxId, limit, false) == Deleted(open.txn.value.table, p, s, maxId, limit)
    ensures var after := DoPruneDual(open, p, s, maxId, limit, false, oid);
            && after.txn.Some? && after.history == open.history && after.legacy == open.legacy && after.backend == open.backend
            && after.txn.value.added ==
               open.txn.value.added + [Entry(oid, PruneFact(p, s, MaxId(Deleted(open.txn.value.table, p, s, maxId, limit))))]
  {
    hide MirrorSelected, Refreshed, DoPruneDual, Deleted, Without, MaxId;
    DualPruneStep(open, p, s, maxId, limit, false, oid);
    RefreshedSource(open, p, s, false);
    RefreshedKeeps(open, p, s);
  }

  /** Table and mirror stay equal unless rows are deleted and the boundary is dropped for want of a session id. */
  lemma FirstPruneIff(open: State, p: string, s: string, maxId: int, limit: Option<int>, oid: int)
    requires Inv(open) && open.backend.Dual? && FreeOid(open, oid) && open.txn.value.added == []
    ensures var deleted := Deleted(open.txn.value.table, p, s, maxId, limit);
            && (Inv(DoPruneDual(open, p, s, maxId, limit, false, oid)) <==> s != "" || deleted == {})
            && (deleted != {} ==> MirrorSelected(open, p, s, maxId, limit, false) == deleted)
  {
    assert open.txn.Some?;
    hide Inv, FreeOid, DoPruneDual, Deleted, RowsAgree, QuietFor, MirrorSelected;
    FirstOperationIsQuiet(open, p, s, maxId);
    QuietPruneAgrees(open, p, s, maxId, limit, false);
    PruneDualAgreesIff(open, p, s, maxId, limit, false, oid);
  }

  lemma TableIsView(open: State)
    requires Inv(open) && open.backend.Dual? && open.txn.Some? && open.txn.value.added == []
    ensures open.txn.value.table == open.table == Visible(Source(open))
    ensures forall f | f in open.table :: f.TurnFact? && f.key.id > 0
  {
    assert AddedFacts(open.txn.value) == {} && Source(open) + {} == Source(open);
  }

  lemma VisibleRowsSelected(table: set<Fact>, p: string, s: string, maxId: int, limit: Option<int>)
    requires forall f | f in table :: f.TurnFact? && f.key.id > 0
    ensures Deleted(table, p, s, maxId, limit) == Selected(Ids(table, p, s), maxId, limit)
  {
    PruneCount(Ids(table, p, s), maxId, limit);
  }

  lemma RefreshedKeeps(st: State, p: string, s: string)
    requires st.txn.Some?
    ensures var st1 := Refreshed(st, p, s, false); st1.history == st.history && st1.legacy == st.legacy && st1.backend == st.backend
  {
  }

  lemma NothingToDelete(st: State, p: string, s: string, maxId: int, limit: Option<int>, oid: int)
    requires st.txn.Some? && Deleted(st.txn.value.table, p, s, maxId, limit) == {}
    ensures DoPruneDual(st, p, s, maxId, limit, false, oid) == st
  {
    assert Without(st.txn.value.table, p, s, {}) == st.txn.value.table;
  }

  lemma OneIsSelected()
    ensures Selected({1}, 1, None) == {1} && MaxId({1}) == 1
  {
    assert UpTo({1}, 1) == {1};
    PruneCount({1}, 1, None);
    SubsetSize(Selected({1}, 1, None), {1});
  }

  lemma TableRest(open: State, p: string, s: string, turn: Fact)
    requires open.txn.Some? && open.txn.value.table == {turn} && turn.TurnFact? && turn.key == Key(p, s, 1)
    requires Selected(Ids({turn}, p, s), 1, None) == {1}
    ensures DoPruneDual(open, p, s, 1, None, false, 2).txn.Some? && DoPruneDual(open, p, s, 1, None, false, 2).txn.value.table == {}
  {
    assert Without({turn}, p, s, {1}) == {};
    DualPruneStep(open, p, s, 1, None, false, 2);
    RefreshedSource(open, p, s, false);
    hide Refreshed, Without, Selected, MirrorSelected, DoPruneDual;
  }

  /** A create and a prune of the created turn in ONE dual-mode transaction: the table has already lost the
      row, the mirror cannot see it yet and writes no boundary, so the turn stays in the mirror. */
  lemma CreateAndPruneInOneTransactionDiverge(p: string, s: string, c: Content)
    ensures var empty := Run(Start(Dual, {}), [Begin]);
            var after := DoCommit(DoPruneDual(DoCreateDual(empty, 1, p, s, c, 1), p, s, 1, None, false, 2));
            && after.table == {}
            && TurnFact(Key(p, s, 1), c) in Visible(Source(after))
  {
    var turn := TurnFact(Key(p, s, 1), c);
    var steps := [Begin];
    assert steps[..|steps| - 1] == [];
    var empty := Do(Start(Dual, {}), Begin);
    assert Run(Start(Dual, {}), steps) == empty;
    var created := DoCreateDual(empty, 1, p, s, c, 1);
    assert created.txn.value.table == {turn};
    assert Of({turn}, p, s) == {turn} && turn in Of({turn}, p, s) && Ids({turn}, p, s) == {1};
    OneIsSelected();
    assert Deleted({turn}, p, s, 1, None) == {1};
    TableRest(created, p, s, turn);
    assert Of({}, p, s) == {} && Visible({}) == {} && Ids({}, p, s) == {};
    PruneCount({}, 1, Some(1));
    var pruned := DoPruneDual(created, p, s, 1, None, false, 2);
    assert pruned == created.(txn := Some(created.txn.value.(table := {})));
    CommitSource(pruned);
    assert pruned.txn.value.added == [Entry(1, turn)] && Added([Entry(1, turn)]) == [turn];
    assert turn in AddedFacts(pruned.txn.value);
    assert Committed(pruned) == {} && AddedFacts(pruned.txn.value) == {turn};
    assert Source(DoCommit(pruned)) == {turn};
    assert !Hidden({turn}, turn.key);
  }
}
