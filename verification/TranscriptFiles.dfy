/** Listings of the transcript, the files as sets of facts, and the rows of the tables the store
    uses: everything the store's methods compute on, as values. */
module TranscriptFiles {
  import opened Ordering
  import opened TranscriptLog
  import opened TranscriptMachine

  // ----- listings -----

  ghost predicate InWindow(f: Fact, lo: int, hi: Option<int>)
    requires f.TurnFact?
  {
    f.key.id > lo && (hi.None? || f.key.id < hi.value)
  }

  ghost function Window(facts: set<Fact>, p: string, s: string, lo: int, hi: Option<int>): set<Fact> {
    set f | f in Of(facts, p, s) && InWindow(f, lo, hi)
  }

  /** `list` is the window of one profile and session in ascending id order. */
  ghost predicate IsListing(list: seq<Row>, window: set<Fact>) {
    && (forall i, j | 0 <= i < j < |list| :: list[i].key.id < list[j].key.id)
    && (forall row | row in list :: FactOf(row) in window)
    && (forall f | f in window :: exists row :: row in list && FactOf(row) == f)
  }

  /** Two listings of the same window agree row by row in everything a caller can see. */
  lemma {:induction false} ListingsAgree(a: seq<Row>, b: seq<Row>, window: set<Fact>)
    requires IsListing(a, window) && IsListing(b, window)
    ensures |a| == |b| && forall i | 0 <= i < |a| :: FactOf(a[i]) == FactOf(b[i])
    decreases |a|
  {
    assert a == [] || a[0] in a;
    assert b == [] || b[0] in b;
    if a != [] && b != [] {
      FirstIsSmallest(a, b, window);
      FirstIsSmallest(b, a, window);
      ListingTail(a, window);
      ListingTail(b, window);
      assert FactOf(a[0]) == FactOf(b[0]) by {
        var row :| row in b && FactOf(row) == FactOf(a[0]);
        assert row == b[0];
      }
      ListingsAgree(a[1..], b[1..], window - {FactOf(a[0])});
    }
  }

  lemma FirstIsSmallest(a: seq<Row>, b: seq<Row>, window: set<Fact>)
    requires IsListing(a, window) && IsListing(b, window) && a != [] && b != []
    ensures a[0].key.id <= b[0].key.id
  {
    assert b[0] in b;
    var row :| row in a && FactOf(row) == FactOf(b[0]);
  }

  lemma ListingTail(a: seq<Row>, window: set<Fact>)
    requires IsListing(a, window) && a != []
    ensures IsListing(a[1..], window - {FactOf(a[0])})
  {
    forall row | row in a[1..] ensures FactOf(row) in window - {FactOf(a[0])} {
      assert row in a && row.key.id > a[0].key.id;
    }
    forall f | f in window - {FactOf(a[0])} ensures exists row :: row in a[1..] && FactOf(row) == f {
      var row :| row in a && FactOf(row) == f;
      assert row in a[1..];
    }
  }

  // ----- the files -----

  function FileOf(files: map<string, seq<Record>>, s: string): seq<Record> { if s in files then files[s] else [] }

  function Disk(files: map<string, seq<Record>>): set<Fact> {
    set s, f | s in files && f in Facts(files[s]) :: f
  }

  /** Every record lies in the file of its own session. */
  ghost predicate Routed(files: map<string, seq<Record>>) {
    forall s, f | s in files && f in Facts(files[s]) :: SessionOf(f) == s
  }

  lemma FileShowsItsSession(files: map<string, seq<Record>>, s: string)
    requires Routed(files) && Consistent(Disk(files))
    ensures forall f :: f in VisibleFacts(FileOf(files, s)) <==> f in Visible(Disk(files)) && f.key.session == s
  {
    var file := FileOf(files, s);
    assert Facts(file) <= Disk(files);
    ViewIsVisible(file);
    forall f | f in Disk(files) && SessionOf(f) == s ensures f in Facts(file) {
      var t :| t in files && f in Facts(files[t]);
    }
    forall f | f in Facts(file) ensures SessionOf(f) == s && f in Disk(files) { assert s in files; }
    forall f ensures f in Visible(Facts(file)) <==> f in Visible(Disk(files)) && f.key.session == s {
      if f.TurnFact? && f.key.session == s { SameSessionHidden(Facts(file), Disk(files), f.key); }
    }
  }

  lemma DiskAfter(files: map<string, seq<Record>>, s: string, file: seq<Record>, f: Fact)
    requires Routed(files) && SessionOf(f) == s
    requires Facts(file) == Facts(FileOf(files, s)) + {f}
    ensures Disk(files[s := file]) == Disk(files) + {f} && Routed(files[s := file])
  {
    var after := files[s := file];
    forall g ensures g in Disk(after) <==> g in Disk(files) + {f} {
      if g in Disk(files) {
        var t :| t in files && g in Facts(files[t]);
        assert g in Facts(after[t]);
      }
      if g == f { assert f in Facts(after[s]); }
    }
  }

  function MutationFact(r: Record): Fact
    requires Applicable(r)
  {
    match r case Turn(row) => FactOf(row) case Prune(p, s, b) => PruneFact(p, s, b)
  }

  /** A mutation that parses. */
  predicate Applicable(r: Record) { !r.Unreadable? }

  ghost function RowFacts(rows: map<int, Row>): set<Fact> { set id | id in rows :: FactOf(rows[id]) }

  predicate Keyed(rows: map<int, Row>) { forall id | id in rows :: rows[id].key.id == id }

  function RowIdsOf(rows: map<int, Row>, p: string, s: string): set<int> {
    set id | id in rows && rows[id].key.profile == p && rows[id].key.session == s
  }

  lemma RowIdsAreFactIds(rows: map<int, Row>, p: string, s: string)
    requires Keyed(rows)
    ensures RowIdsOf(rows, p, s) == Ids(RowFacts(rows), p, s)
  {
    forall id ensures id in RowIdsOf(rows, p, s) <==> id in Ids(RowFacts(rows), p, s) {
      if id in RowIdsOf(rows, p, s) { assert FactOf(rows[id]) in Of(RowFacts(rows), p, s); }
    }
  }

  lemma FirstRowIdsAreFirst(sel: seq<int>, ids: set<int>, n: nat)
    requires IsPrefixOf(sel, ids) && |sel| == Min(n, |ids|)
    ensures forall id :: id in sel <==> id in FirstIds(ids, n)
  {
    var chosen := set id | id in sel;
    SortedSize(sel);
    forall x, y | x in chosen && y in ids - chosen ensures LexLess(Increasing(x), Increasing(y)) {
      var i :| 0 <= i < |sel| && sel[i] == x;
    }
    FirstUnique(ids, Increasing, n, chosen, FirstIds(ids, n));
  }

  /** The table's `list_range`. */
  method TableRange(rows: map<int, Row>, p: string, s: string, lo: int, hi: Option<int>) returns (list: seq<Row>)
    requires Keyed(rows)
    ensures IsListing(list, Window(RowFacts(rows), p, s, lo, hi))
  {
    var ids := set id | id in RowIdsOf(rows, p, s) && id > lo && (hi.None? || id < hi.value);
    var order := FirstRowIds(ids, |ids|);
    AllRowIds(order, ids);
    list := [];
    for i := 0 to |order|
      invariant |list| == i && forall j | 0 <= j < i :: order[j] in rows && list[j] == rows[order[j]] && list[j].key.id == order[j]
    {
      list := list + [rows[order[i]]];
    }
    forall f | f in Window(RowFacts(rows), p, s, lo, hi) ensures exists row :: row in list && FactOf(row) == f {
      var id :| id in rows && FactOf(rows[id]) == f;
      assert id in ids && id in order;
      var i :| 0 <= i < |order| && order[i] == id;
      assert list[i] == rows[id];
    }
    forall row | row in list ensures FactOf(row) in Window(RowFacts(rows), p, s, lo, hi) {
      var i :| 0 <= i < |list| && list[i] == row;
      assert order[i] in ids && FactOf(row) in RowFacts(rows);
    }
  }

  /** The comprehension of `list_range` over the rows of one session's file. */
  method FileRange(file: seq<Record>, p: string, s: string, lo: int, hi: Option<int>) returns (list: seq<Row>)
    requires forall f | f in VisibleFacts(file) :: SessionOf(f) == s
    ensures IsListing(list, Window(VisibleFacts(file), p, s, lo, hi))
  {
    hide VisibleFacts, View, Lists, IsListing, Window;
    var rows := ReadTranscriptRows(file);
    RowsAreVisible(rows, file);
    RowsIncrease(rows, file, s);
    list := [];
    for i := 0 to |rows|
      invariant forall row :: row in list <==> row in rows[..i] && row.key.profile == p && InWindow(FactOf(row), lo, hi)
      invariant forall j, k | 0 <= j < k < |list| :: list[j].key.id < list[k].key.id
    {
      var row := rows[i];
      assert rows[..i + 1] == rows[..i] + [row];
      if row.key.profile == p && row.key.id > lo && (hi.None? || row.key.id < hi.value) {
        forall j | 0 <= j < |list| ensures list[j].key.id < row.key.id {
          assert list[j] in list && list[j] in rows[..i];
          var k :| 0 <= k < i && rows[k] == list[j];
        }
        list := list + [row];
      }
    }
    assert rows[..|rows|] == rows;
    FilteredIsListing(rows, list, VisibleFacts(file), p, s, lo, hi);
  }

  lemma FilteredIsListing(rows: seq<Row>, list: seq<Row>, visible: set<Fact>, p: string, s: string, lo: int, hi: Option<int>)
    requires RowsFacts(rows) == visible && forall row | row in rows :: row.key.session == s
    requires forall row :: row in list <==> row in rows && row.key.profile == p && InWindow(FactOf(row), lo, hi)
    requires forall j, k | 0 <= j < k < |list| :: list[j].key.id < list[k].key.id
    ensures IsListing(list, Window(visible, p, s, lo, hi))
  {
    forall f | f in Window(visible, p, s, lo, hi) ensures exists row :: row in list && FactOf(row) == f {
      var row :| row in rows && FactOf(row) == f;
      assert row in list;
    }
    forall row | row in list ensures FactOf(row) in Window(visible, p, s, lo, hi) { assert FactOf(row) in RowsFacts(rows); }
  }

  lemma RowsIncrease(rows: seq<Row>, file: seq<Record>, s: string)
    requires Lists(rows, file) && forall f | f in VisibleFacts(file) :: SessionOf(f) == s
    ensures forall row | row in rows :: row.key.session == s
    ensures forall j, k | 0 <= j < k < |rows| && rows[j].key.profile == rows[k].key.profile :: rows[j].key.id < rows[k].key.id
  {
    RowsAreVisible(rows, file);
    forall row | row in rows ensures row.key.session == s { assert FactOf(row) in VisibleFacts(file); }
    forall j, k | 0 <= j < k < |rows| && rows[j].key.profile == rows[k].key.profile ensures rows[j].key.id < rows[k].key.id {
      assert rows[j] in rows && rows[k] in rows;
    }
  }

  lemma RowsAreVisible(rows: seq<Row>, file: seq<Record>)
    requires Lists(rows, file)
    ensures RowsFacts(rows) == VisibleFacts(file)
  {
    forall f ensures f in RowsFacts(rows) <==> f in VisibleFacts(file) {
      if f in VisibleFacts(file) {
        var k :| k in View(file) && f == FactOf(View(file)[k]);
        FirstIsAFact(file, k);
        assert View(file)[k] in rows;
      }
      if f in RowsFacts(rows) {
        var row :| row in rows && FactOf(row) == f;
        assert row.key in View(file);
      }
    }
  }

  function ListedIds(list: seq<Row>): seq<int> { seq(|list|, i requires 0 <= i < |list| => list[i].key.id) }

  /** The candidates of a prune, in listing order: their first k ids are the k smallest eligible ids. */
  lemma CandidateIds(list: seq<Row>, facts: set<Fact>, p: string, s: string, maxId: int)
    requires IsListing(list, Window(facts, p, s, 0, Some(maxId + 1)))
    requires forall f | f in facts && f.TurnFact? :: f.key.id > 0
    ensures IsPrefixOf(ListedIds(list), UpTo(Ids(facts, p, s), maxId)) && |list| == |UpTo(Ids(facts, p, s), maxId)|
    ensures forall id | id in UpTo(Ids(facts, p, s), maxId) :: id in ListedIds(list)
  {
    var ids, eligible := ListedIds(list), UpTo(Ids(facts, p, s), maxId);
    forall i | 0 <= i < |ids| ensures ids[i] in eligible {
      assert list[i] in list && FactOf(list[i]) in Of(facts, p, s);
    }
    forall id | id in eligible ensures id in ids {
      var f :| f in Of(facts, p, s) && f.key.id == id;
      assert f in Window(facts, p, s, 0, Some(maxId + 1));
      var row :| row in list && FactOf(row) == f;
      var i :| 0 <= i < |list| && list[i] == row;
      assert ids[i] == id;
    }
    SortedSize(ids);
    assert (set id | id in ids) == eligible;
  }

  /** `selected = candidates[: max(1, limit)]`: its last id is the boundary, its length the count. */
  lemma SelectedRows(list: seq<Row>, ids: set<int>, maxId: int, limit: Option<int>, selected: seq<Row>)
    requires IsPrefixOf(ListedIds(list), UpTo(ids, maxId)) && |list| == |UpTo(ids, maxId)|
    requires forall id | id in UpTo(ids, maxId) :: id in ListedIds(list)
    requires selected == list[..Min(Quota(UpTo(ids, maxId), limit), |list|)]
    ensures |selected| == |Selected(ids, maxId, limit)|
    ensures selected != [] ==> selected[|selected| - 1].key.id == MaxId(Selected(ids, maxId, limit))
  {
    hide IsPrefixOf, FirstIds, UpTo, Ids, StrictlySorted;
    var eligible := UpTo(ids, maxId);
    var sel, n := ListedIds(selected), Quota(eligible, limit);
    assert sel == ListedIds(list)[..|selected|];
    FirstOfPrefix(ListedIds(list), eligible, |selected|);
    FirstRowIdsAreFirst(sel, eligible, n);
    LastIsLargest(sel, FirstIds(eligible, n)) by { assert StrictlySorted(sel) by { PrefixIsSorted(sel, eligible); } }
  }

  datatype Queued = Queued(oid: int, mutation: Record)

  predicate AllApplicable(outbox: map<int, Record>) { forall oid | oid in outbox :: Applicable(outbox[oid]) }

  predicate AllQueuedApplicable(q: seq<Queued>) { forall i | 0 <= i < |q| :: Applicable(q[i].mutation) }

  ghost function OutboxFacts(rows: map<int, Record>): map<int, Fact>
    requires AllApplicable(rows)
  {
    map oid | oid in rows :: MutationFact(rows[oid])
  }

  ghost function Entries(q: seq<Queued>): seq<Entry>
    requires AllQueuedApplicable(q)
  {
    seq(|q|, i requires 0 <= i < |q| => Entry(q[i].oid, MutationFact(q[i].mutation)))
  }

  ghost predicate PositiveTurns(facts: set<Fact>) { forall f | f in facts :: f.TurnFact? && f.key.id >= 1 }

  ghost predicate AlreadyOnDisk(oids: set<int>, outbox: map<int, Record>, disk: set<Fact>)
    requires AllApplicable(outbox)
  {
    forall oid | oid in oids :: oid in outbox && OnlySaid({MutationFact(outbox[oid])}) <= disk
  }

  lemma MoreOnDisk(oids: set<int>, outbox: map<int, Record>, disk: set<Fact>, more: set<Fact>)
    requires AllApplicable(outbox) && AlreadyOnDisk(oids, outbox, disk)
    ensures AlreadyOnDisk(oids, outbox, disk + more)
  {
  }

  /** The committed database rows the store uses. */
  datatype Database = Database(table: map<int, Row>, counters: map<string, int>, outbox: map<int, Record>)

  /** What the session's open transaction has changed. */
  datatype Changes = Changes(table: map<int, Row>, counters: map<string, int>, added: seq<Queued>, removed: set<int>)

  ghost predicate WellFormed(db: Database, tx: Changes, files: map<string, seq<Record>>) {
    && AllApplicable(db.outbox) && AllQueuedApplicable(tx.added)
    && Keyed(db.table) && Keyed(tx.table)
    && Routed(files)
  }

  /** Everything the files say or may be told to say. */
  ghost function Sayable(db: Database, files: map<string, seq<Record>>): set<Fact>
    requires AllApplicable(db.outbox)
  {
    Disk(files) + RowFacts(db.table) + OutboxFacts(db.outbox).Values
  }

  /** The store may read and refresh its files. */
  ghost predicate Refreshable(db: Database, tx: Changes, files: map<string, seq<Record>>) {
    && WellFormed(db, tx, files)
    && Consistent(Sayable(db, files))
    && PositiveTurns(RowFacts(db.table))
    && AlreadyOnDisk(tx.removed, db.outbox, Disk(files))
  }

  /** One callback and one pending id per queued mutation, and none outside a transaction. */
  ghost predicate BooksAgree(callbacks: seq<Record>, added: seq<Queued>, pending: set<int>, inTransaction: bool) {
    && |callbacks| == |added| && (forall i | 0 <= i < |added| :: callbacks[i] == added[i].mutation)
    && (forall i | 0 <= i < |added| :: added[i].oid in pending)
    && (!inTransaction ==> added == [])
  }

  ghost function TxnOf(tx: Changes): Txn
    requires AllQueuedApplicable(tx.added)
  {
    Txn(tx.counters, RowFacts(tx.table), Entries(tx.added), tx.removed)
  }

  ghost function StateOf(backend: Backend, legacy: set<Fact>, history: seq<Fact>, db: Database, tx: Option<Changes>,
                         files: map<string, seq<Record>>): State
    requires AllApplicable(db.outbox) && (tx.Some? ==> AllQueuedApplicable(tx.value.added))
  {
    State(backend, legacy, RowFacts(db.table), db.counters, OutboxFacts(db.outbox), Disk(files), history, multiset{},
          if tx.None? then None else Some(TxnOf(tx.value)))
  }

  ghost function QueuedOids(q: seq<Queued>): set<int> { set i | 0 <= i < |q| :: q[i].oid }

  lemma QueuedMore(added: seq<Queued>, q: Queued)
    ensures QueuedOids(added + [q]) == QueuedOids(added) + {q.oid}
  {
    var more := added + [q];
    forall oid | oid in QueuedOids(added) + {q.oid} ensures oid in QueuedOids(more) {
      if oid in QueuedOids(added) {
        var i :| 0 <= i < |added| && added[i].oid == oid;
        assert more[i].oid == oid;
      } else {
        assert more[|added|].oid == oid;
      }
    }
  }

  lemma PendingCovers(added: seq<Queued>, pending: set<int>)
    requires forall i | 0 <= i < |added| :: added[i].oid in pending
    ensures added != [] ==> pending != {}
  {
    if added != [] { assert added[0].oid in pending; }
  }

  lemma NothingDrained(outbox: map<int, Record>, gone: set<int>)
    ensures OidFacts(outbox, []) == {} && OidSet([]) == {} && gone + OidSet([]) == gone
  {
  }

  lemma DrainedMore(outbox: map<int, Record>, gone: set<int>, s: string, drained: seq<int>, applied: seq<int>)
    requires AllApplicable(outbox) && IsPrefixOf(applied, OpenRows(outbox, gone + OidSet(drained), s))
    ensures gone + OidSet(drained + applied) == gone + OidSet(drained) + OidSet(applied)
    ensures OidFacts(outbox, drained + applied) == OidFacts(outbox, drained) + OidFacts(outbox, applied)
    ensures OidSet(applied) <= OpenRows(outbox, gone, s)
    ensures OidSet(drained + applied) == OidSet(drained) + OidSet(applied)
    ensures applied != [] ==>
              |OpenRows(outbox, gone + OidSet(drained + applied), s)| < |OpenRows(outbox, gone + OidSet(drained), s)|
  {
    var before, after := OpenRows(outbox, gone + OidSet(drained), s), OpenRows(outbox, gone + OidSet(drained + applied), s);
    assert before == after + OidSet(applied);
    if applied != [] { assert applied[0] in OidSet(applied); }
  }

  /** When no open row is left, all rows of the session were applied, now or earlier. */
  lemma DrainedAll(outbox: map<int, Record>, gone: set<int>, s: string, drained: seq<int>, disk: set<Fact>)
    requires AllApplicable(outbox) && AlreadyOnDisk(gone, outbox, disk)
    requires OpenRows(outbox, gone + OidSet(drained), s) == {} && OidSet(drained) <= OpenRows(outbox, gone, s)
    ensures gone + OidSet(drained) == gone + OutboxOf(OutboxFacts(outbox), s)
    ensures disk + OidFacts(outbox, drained) == disk + Undelivered(OutboxFacts(outbox), s)
  {
    var all := OutboxOf(OutboxFacts(outbox), s);
    forall oid | oid in all ensures oid in gone + OidSet(drained) {
      assert oid !in OpenRows(outbox, gone + OidSet(drained), s);
    }
    forall oid | oid in OidSet(drained) ensures oid in all { assert oid in OpenRows(outbox, gone, s); }
  }

  /** `SELECT .. WHERE namespace AND session_id`, without the rows this transaction already deleted. */
  function OpenRows(outbox: map<int, Record>, removed: set<int>, s: string): set<int>
    requires AllApplicable(outbox)
  {
    set oid | oid in outbox && oid !in removed && SessionOf(MutationFact(outbox[oid])) == s
  }

  lemma DrainedOnDisk(oids: set<int>, outbox: map<int, Record>, disk: set<Fact>, applied: seq<int>)
    requires AllApplicable(outbox) && AlreadyOnDisk(oids, outbox, disk)
    requires forall i | 0 <= i < |applied| :: applied[i] in outbox
    ensures AlreadyOnDisk(oids + OidSet(applied), outbox, disk + OidFacts(outbox, applied))
  {
    forall oid | oid in OidSet(applied) ensures oid in outbox && OnlySaid({MutationFact(outbox[oid])}) <= OidFacts(outbox, applied) {
      var i :| 0 <= i < |applied| && applied[i] == oid;
    }
  }

  lemma SubsetConsistent(a: set<Fact>, b: set<Fact>)
    requires a <= b && Consistent(b)
    ensures Consistent(a)
  {
  }

  ghost function RowsFacts(rows: seq<Row>): set<Fact> { set row | row in rows :: FactOf(row) }

  lemma RowsFactsStep(rows: seq<Row>, i: nat)
    requires i < |rows|
    ensures RowsFacts(rows[..i + 1]) == RowsFacts(rows[..i]) + {FactOf(rows[i])}
    ensures RowsFacts(rows[..i + 1]) <= RowsFacts(rows)
  {
    assert rows[..i + 1] == rows[..i] + [rows[i]];
  }

  function OidSet(oids: seq<int>): set<int> { set oid | oid in oids }

  ghost function OidFacts(outbox: map<int, Record>, oids: seq<int>): set<Fact> {
    set oid | oid in oids && oid in outbox && Applicable(outbox[oid]) && Said(MutationFact(outbox[oid])) :: MutationFact(outbox[oid])
  }

  lemma OidFactsStep(outbox: map<int, Record>, oids: seq<int>, i: nat, oid: int)
    requires i < |oids| && oids[i] == oid && oid in outbox && Applicable(outbox[oid])
    ensures OidFacts(outbox, oids[..i + 1]) == OidFacts(outbox, oids[..i]) + OnlySaid({MutationFact(outbox[oid])})
    ensures OidFacts(outbox, oids[..i + 1]) <= OidFacts(outbox, oids)
  {
    assert oids[..i + 1] == oids[..i] + [oid];
    assert oid in oids[..i + 1];
  }

  lemma OidFactsFromOutbox(outbox: map<int, Record>, oids: seq<int>, open: set<int>)
    requires AllApplicable(outbox) && open <= outbox.Keys && IsPrefixOf(oids, open)
    ensures OidFacts(outbox, oids) <= OutboxFacts(outbox).Values
    ensures forall i | 0 <= i < |oids| :: oids[i] in outbox
  {
    forall oid | oid in outbox ensures MutationFact(outbox[oid]) in OutboxFacts(outbox).Values {
      assert OutboxFacts(outbox)[oid] == MutationFact(outbox[oid]);
    }
  }

  lemma WholeWindow(facts: set<Fact>, p: string, s: string)
    requires PositiveTurns(facts)
    ensures Window(facts, p, s, 0, None) == Of(facts, p, s)
  {
  }

  lemma ListingFacts(rows: seq<Row>, window: set<Fact>)
    requires IsListing(rows, window)
    ensures RowsFacts(rows) == window
  {
  }

  lemma RowsOfTurns(rows: seq<Row>, facts: set<Fact>, p: string, s: string)
    requires RowsFacts(rows) == Of(facts, p, s) && PositiveTurns(facts)
    ensures Of(facts, p, s) <= facts
    ensures rows == [] <==> Of(facts, p, s) == {}
    ensures forall i | 0 <= i < |rows| :: rows[i].key.id >= 1
    ensures (set row | row in rows :: row.key.id) == Ids(facts, p, s)
  {
    ListingIds(rows, facts, p, s);
    assert rows == [] || rows[0] in rows;
    assert rows == [] ==> RowsFacts(rows) == {};
    forall i | 0 <= i < |rows| ensures FactOf(rows[i]) in Of(facts, p, s) && rows[i].key.id >= 1 {
      assert rows[i] in rows && FactOf(rows[i]) in RowsFacts(rows);
      assert FactOf(rows[i]).key.id >= 1;
    }
  }

  lemma ListingIds(rows: seq<Row>, facts: set<Fact>, p: string, s: string)
    requires RowsFacts(rows) == Of(facts, p, s)
    ensures (set row | row in rows :: row.key.id) == Ids(facts, p, s)
  {
    var ids := set row | row in rows :: row.key.id;
    forall id ensures id in ids <==> id in Ids(facts, p, s) {
      if id in ids {
        var row :| row in rows && row.key.id == id;
        assert FactOf(row) in RowsFacts(rows) && FactOf(row).key.id == id;
      }
      if id in Ids(facts, p, s) {
        var f :| f in Of(facts, p, s) && f.key.id == id;
        var row :| row in rows && FactOf(row) == f;
      }
    }
  }

  /** The ids `delete_up_to` removes from the view of the refreshed file. */
  ghost function Pruned(st: State, p: string, s: string, maxId: int, limit: Option<int>, stale: bool): set<int>
    requires st.txn.Some?
  {
    if maxId < 1 then {} else Selected(Shown(st, p, s, stale), maxId, limit)
  }

  lemma PositiveView(facts: set<Fact>)
    ensures forall f | f in Visible(facts) && f.TurnFact? :: f.key.id > 0
  {
  }

  /** `SELECT max(id)` over the matching rows. */
  method LargestOf(ids: set<int>) returns (m: int)
    ensures m == MaxId(ids)
  {
    var order := FirstRowIds(ids, |ids|);
    AllRowIds(order, ids);
    PrefixIsSorted(order, ids);
    LastIsLargest(order, ids);
    m := if order == [] then 0 else order[|order| - 1];
  }

  lemma RowIdsOfSession(rows: seq<Row>, visible: set<Fact>, s: string)
    requires forall f :: f in RowsFacts(rows) <==> f in visible && f.TurnFact? && f.key.session == s
    requires forall f | f in visible && f.TurnFact? :: f.key.id >= 1
    ensures (set row | row in rows :: row.key.id) == SessionIds(visible, s)
    ensures rows == [] ==> SessionIds(visible, s) == {}
    ensures forall i | 0 <= i < |rows| :: rows[i].key.id >= 1
  {
    var ids := set row | row in rows :: row.key.id;
    forall i | 0 <= i < |rows| ensures rows[i].key.id >= 1 { assert rows[i] in rows && FactOf(rows[i]) in RowsFacts(rows); }
    forall id ensures id in ids <==> id in SessionIds(visible, s) {
      if id in ids {
        var row :| row in rows && row.key.id == id;
        assert FactOf(row) in RowsFacts(rows);
      }
      if id in SessionIds(visible, s) {
        var f :| f in visible && f.TurnFact? && f.key.session == s && f.key.id == id;
        assert f in RowsFacts(rows);
      }
    }
  }

  lemma NewRowId(st: State, rows: map<int, Row>, id: int)
    requires Inv(st) && st.backend.Dual? && NeverReused(st, id) && Keyed(rows) && RowFacts(rows) == st.txn.value.table
    ensures id !in rows
  {
    forall i | i in rows ensures i < id {
      assert FactOf(rows[i]) in RowFacts(rows) && FactOf(rows[i]) in Source(st) + AddedFacts(st.txn.value);
    }
  }

  lemma NewRowFacts(rows: map<int, Row>, id: int, row: Row)
    requires Keyed(rows) && id !in rows && row.key.id == id
    ensures Keyed(rows[id := row]) && RowFacts(rows[id := row]) == RowFacts(rows) + {FactOf(row)}
  {
    var more := rows[id := row];
    forall f ensures f in RowFacts(more) <==> f in RowFacts(rows) + {FactOf(row)} {
      if f in RowFacts(rows) {
        var i :| i in rows && FactOf(rows[i]) == f;
        assert more[i] == rows[i];
      }
      if f == FactOf(row) { assert more[id] == row; }
    }
  }

  lemma SelectedCount(ids: seq<int>, eligible: set<int>, n: nat)
    requires IsPrefixOf(ids, eligible) && forall id :: id in ids <==> id in FirstIds(eligible, n)
    ensures |ids| == |FirstIds(eligible, n)|
  {
    PrefixIsSorted(ids, eligible);
    LastIsLargest(ids, FirstIds(eligible, n));
  }

  lemma RowsWithout(rows: map<int, Row>, p: string, s: string, ids: seq<int>, deleted: set<int>)
    requires Keyed(rows) && (forall id :: id in ids <==> id in deleted) && deleted <= RowIdsOf(rows, p, s)
    ensures RowFacts(map id | id in rows && id !in ids :: rows[id]) == Without(RowFacts(rows), p, s, deleted)
  {
    var rest := map id | id in rows && id !in ids :: rows[id];
    forall id | id in deleted ensures rows[id].key.profile == p && rows[id].key.session == s {
      assert id in RowIdsOf(rows, p, s);
    }
    forall f ensures f in RowFacts(rest) <==> f in Without(RowFacts(rows), p, s, deleted) {
      if f in RowFacts(rest) {
        var id :| id in rest && FactOf(rest[id]) == f;
        assert FactOf(rows[id]) in RowFacts(rows);
      }
      if f in Without(RowFacts(rows), p, s, deleted) {
        var id :| id in rows && FactOf(rows[id]) == f;
        assert rest[id] == rows[id];
      }
    }
  }

  lemma NoneDeleted(deleted: set<int>)
    ensures |deleted| == 0 <==> deleted == {}
  {
  }

  lemma ExactWindow(st: State, p: string, s: string, lo: int, hi: Option<int>)
    requires Inv(st) && st.txn.Some?
    ensures st.txn.value.added == [] ==>
              Window(Visible(Refreshed(st, p, s, false).disk), p, s, lo, hi) == Window(Visible(Source(st)), p, s, lo, hi)
    ensures st.txn.value.added == [] && st.backend.Dual? ==>
              Window(Visible(Refreshed(st, p, s, false).disk), p, s, lo, hi) == Window(st.table, p, s, lo, hi)
  {
    if st.txn.value.added == [] { RefreshedIsExact(st, p, s); }
  }

  lemma ListingCount(list: seq<Row>, facts: set<Fact>, p: string, s: string)
    requires IsListing(list, Window(facts, p, s, 0, None))
    requires forall f | f in facts && f.TurnFact? :: f.key.id > 0
    ensures |list| == |Ids(facts, p, s)|
  {
    var ids := ListedIds(list);
    forall id ensures id in ids <==> id in Ids(facts, p, s) {
      if id in ids {
        var i :| 0 <= i < |list| && ids[i] == id;
        assert list[i] in list && FactOf(list[i]) in Of(facts, p, s);
      }
      if id in Ids(facts, p, s) {
        var f :| f in Of(facts, p, s) && f.key.id == id;
        assert f in Window(facts, p, s, 0, None);
        var row :| row in list && FactOf(row) == f;
        var i :| 0 <= i < |list| && list[i] == row;
        assert ids[i] == id;
      }
    }
    LastIsLargest(ids, Ids(facts, p, s));
  }

  // ----- the most recent turns -----

  /** At most `limit` rows of the window in ascending order, and every row left out is older. */
  ghost predicate IsRecent(list: seq<Row>, window: set<Fact>, limit: int) {
    && |list| <= Max(0, limit)
    && (forall i, j | 0 <= i < j < |list| :: list[i].key.id < list[j].key.id)
    && RowsFacts(list) <= window
    && (forall f | f in window && f !in RowsFacts(list) ::
          f.TurnFact? && |list| == Max(0, limit) && forall i | 0 <= i < |list| :: f.key.id < list[i].key.id)
  }

  lemma SuffixIsRecent(all: seq<Row>, limit: int)
    requires limit >= 1
    ensures forall window | IsListing(all, window) && AllTurns(window) :: IsRecent(all[Max(0, |all| - limit)..], window, limit)
  {
    var list := all[Max(0, |all| - limit)..];
    forall j | |all| - |list| <= j < |all| ensures all[j] in list { assert list[j - (|all| - |list|)] == all[j]; }
    forall window | IsListing(all, window) && AllTurns(window) ensures IsRecent(list, window, limit) {
      forall f | f in window && f !in RowsFacts(list)
        ensures f.TurnFact? && |list| == limit && forall i | 0 <= i < |list| :: f.key.id < list[i].key.id
      {
        var row :| row in all && FactOf(row) == f;
        var j :| 0 <= j < |all| && all[j] == row;
        assert row !in list;
      }
    }
  }

  ghost predicate AllTurns(facts: set<Fact>) { forall f | f in facts :: f.TurnFact? }

  ghost predicate IdsIncrease(list: seq<Row>) { forall i, j | 0 <= i < j < |list| :: list[i].key.id < list[j].key.id }

  lemma {:induction false} RowsFactsSize(list: seq<Row>)
    requires IdsIncrease(list)
    ensures |RowsFacts(list)| == |list|
  {
    assert list == [] ==> RowsFacts(list) == {};
    if list != [] {
      LastIsNew(list);
      hide RowsFacts, IdsIncrease;
      RowsFactsSize(list[..|list| - 1]);
    }
  }

  lemma LastIsNew(list: seq<Row>)
    requires list != [] && IdsIncrease(list)
    ensures var prefix, last := list[..|list| - 1], list[|list| - 1];
            && IdsIncrease(prefix)
            && FactOf(last) !in RowsFacts(prefix)
            && RowsFacts(list) == RowsFacts(prefix) + {FactOf(last)}
  {
    RowsFactsStep(list, |list| - 1);
    assert list[..|list|] == list;
  }

  /** The most recent rows are determined by the window: file and table return the same list. */
  lemma RecentAgree(a: seq<Row>, b: seq<Row>, window: set<Fact>, limit: int)
    requires IsRecent(a, window, limit) && IsRecent(b, window, limit)
    ensures |a| == |b| && forall i | 0 <= i < |a| :: FactOf(a[i]) == FactOf(b[i])
  {
    RecentWithin(a, b, window, limit);
    RecentWithin(b, a, window, limit);
    ListingsAgree(a, b, RowsFacts(a));
  }

  lemma RecentWithin(a: seq<Row>, b: seq<Row>, window: set<Fact>, limit: int)
    requires IsRecent(a, window, limit) && IsRecent(b, window, limit)
    ensures RowsFacts(a) <= RowsFacts(b)
  {
    forall f | f in RowsFacts(a) ensures f in RowsFacts(b) {
      if f !in RowsFacts(b) {
        LeftOutIsOlder(b, window, limit, f);
        RowsFactsSize(a);
        RowsFactsSize(b);
        var g := Another(RowsFacts(a), RowsFacts(b), f);
        LeftOutIsOlder(a, window, limit, g);
      }
    }
  }

  lemma Another<T>(a: set<T>, b: set<T>, x: T) returns (y: T)
    requires |a| <= |b| && x in a && x !in b
    ensures y in b && y !in a
  {
    if b <= a { SubsetSize(b, a - {x}); }
    y :| y in b && y !in a;
  }

  lemma LeftOutIsOlder(list: seq<Row>, window: set<Fact>, limit: int, f: Fact)
    requires IsRecent(list, window, limit) && f in window && f !in RowsFacts(list)
    ensures f.TurnFact? && |list| == Max(0, limit)
    ensures forall g | g in RowsFacts(list) :: g.TurnFact? && f.key.id < g.key.id
  {
  }

  function Negated(ids: set<int>): set<int> { set id | id in ids :: -id }

  function Fetched(rows: map<int, Row>, newest: seq<int>): seq<Row>
    requires forall k | 0 <= k < |newest| :: -newest[k] in rows
  {
    seq(|newest|, k requires 0 <= k < |newest| => rows[-newest[|newest| - 1 - k]])
  }

  /** The table's `list_recent`: newest first up to the limit, then reversed. */
  method TableRecent(rows: map<int, Row>, p: string, s: string, limit: int, lo: int) returns (list: seq<Row>)
    requires Keyed(rows)
    ensures IsRecent(list, Window(RowFacts(rows), p, s, lo, None), limit)
  {
    hide IsPrefixOf, IsRecent, Window, RowFacts, RowIdsOf, Negated;
    NothingRecent(RowFacts(rows), p, s, lo, limit);
    RowIdsExist(rows, p, s);
    if limit < 1 { return []; }
    var ids := set id | id in RowIdsOf(rows, p, s) && id > lo;
    var newest := FirstRowIds(Negated(ids), limit);
    NegatedFrom(newest, ids);
    RecentFromNewest(rows, p, s, limit, lo, ids, newest);
    list := [];
    for i := 0 to |newest|
      invariant list == Fetched(rows, newest[..i])
    {
      list := [rows[-newest[i]]] + list;
    }
    assert newest[..|newest|] == newest;
  }

  lemma NothingRecent(facts: set<Fact>, p: string, s: string, lo: int, limit: int)
    ensures limit < 1 ==> IsRecent([], Window(facts, p, s, lo, None), limit)
  {
  }

  lemma RowIdsExist(rows: map<int, Row>, p: string, s: string)
    ensures RowIdsOf(rows, p, s) <= rows.Keys
  {
  }

  lemma NegatedFrom(newest: seq<int>, ids: set<int>)
    requires IsPrefixOf(newest, Negated(ids))
    ensures forall k | 0 <= k < |newest| :: -newest[k] in ids
  {
  }

  lemma RecentFromNewest(rows: map<int, Row>, p: string, s: string, limit: nat, lo: int, ids: set<int>, newest: seq<int>)
    requires Keyed(rows) && limit >= 1
    requires ids == set id | id in RowIdsOf(rows, p, s) && id > lo
    requires IsPrefixOf(newest, Negated(ids)) && |newest| == Min(limit, |Negated(ids)|)
    requires forall k | 0 <= k < |newest| :: -newest[k] in ids
    ensures IsRecent(Fetched(rows, newest), Window(RowFacts(rows), p, s, lo, None), limit)
  {
    var window, list := Window(RowFacts(rows), p, s, lo, None), Fetched(rows, newest);
    forall f | f in RowsFacts(list) ensures f in window {
      var i :| 0 <= i < |list| && FactOf(list[i]) == f;
      assert -newest[|newest| - 1 - i] in ids && f in RowFacts(rows);
    }
    forall f | f in window && f !in RowsFacts(list)
      ensures |list| == limit && forall i | 0 <= i < |list| :: f.key.id < list[i].key.id
    {
      var id :| id in rows && FactOf(rows[id]) == f;
      NotFetched(rows, limit, ids, newest, id);
    }
  }

  lemma NotFetched(rows: map<int, Row>, limit: nat, ids: set<int>, newest: seq<int>, id: int)
    requires Keyed(rows) && ids <= rows.Keys && id in ids
    requires IsPrefixOf(newest, Negated(ids)) && |newest| == Min(limit, |Negated(ids)|)
    requires forall k | 0 <= k < |newest| :: -newest[k] in ids
    requires FactOf(rows[id]) !in RowsFacts(Fetched(rows, newest))
    ensures |newest| == limit
    ensures forall i | 0 <= i < |newest| :: id < Fetched(rows, newest)[i].key.id
  {
    var list := Fetched(rows, newest);
    assert -id in Negated(ids);
    forall k | 0 <= k < |newest| ensures newest[k] != -id {
      assert list[|list| - 1 - k] == rows[-newest[k]];
      assert FactOf(list[|list| - 1 - k]) in RowsFacts(list);
    }
    if |list| < limit { AllRowIds(newest, Negated(ids)); }
  }

  // ----- ending a transaction -----

  function WithQueued(outbox: map<int, Record>, q: seq<Queued>): map<int, Record> {
    if q == [] then outbox
    else WithQueued(outbox, q[..|q| - 1])[q[|q| - 1].oid := q[|q| - 1].mutation]
  }

  function CommitDatabase(db: Database, tx: Changes): Database {
    Database(tx.table, tx.counters, WithQueued(map oid | oid in db.outbox && oid !in tx.removed :: db.outbox[oid], tx.added))
  }

  lemma {:induction false} QueuedOutbox(outbox: map<int, Record>, q: seq<Queued>)
    requires AllApplicable(outbox) && AllQueuedApplicable(q)
    ensures AllApplicable(WithQueued(outbox, q))
    ensures OutboxFacts(WithQueued(outbox, q)) == OutboxFacts(outbox) + AddedRows(Entries(q))
    decreases |q|
  {
    if q != [] {
      var prefix, last := q[..|q| - 1], q[|q| - 1];
      EntriesMore(q);
      QueuedOutbox(outbox, prefix);
      hide Entries, OutboxFacts;
      OneMoreRow(WithQueued(outbox, prefix), last);
    } else {
      assert Entries(q) == [];
    }
  }

  lemma EntriesMore(q: seq<Queued>)
    requires q != [] && AllQueuedApplicable(q)
    ensures |Entries(q)| == |q| && Entries(q)[..|q| - 1] == Entries(q[..|q| - 1])
    ensures Entries(q)[|q| - 1] == Entry(q[|q| - 1].oid, MutationFact(q[|q| - 1].mutation))
  {
  }

  lemma OneMoreRow(outbox: map<int, Record>, q: Queued)
    requires AllApplicable(outbox) && Applicable(q.mutation)
    ensures OutboxFacts(outbox[q.oid := q.mutation]) == OutboxFacts(outbox)[q.oid := MutationFact(q.mutation)]
  {
  }

  lemma CommittedDatabase(backend: Backend, legacy: set<Fact>, history: seq<Fact>, db: Database, tx: Changes,
                          files: map<string, seq<Record>>)
    requires WellFormed(db, tx, files)
    ensures AllApplicable(CommitDatabase(db, tx).outbox) && Keyed(CommitDatabase(db, tx).table)
    ensures StateOf(backend, legacy, history + Added(Entries(tx.added)), CommitDatabase(db, tx), None, files) ==
            DoCommit(StateOf(backend, legacy, history, db, Some(tx), files)).(callbacks := multiset{})
  {
    var kept := map oid | oid in db.outbox && oid !in tx.removed :: db.outbox[oid];
    QueuedOutbox(kept, tx.added);
    var st := StateOf(backend, legacy, history, db, Some(tx), files);
    assert OutboxFacts(kept) == map oid | oid in st.outbox && oid !in tx.removed :: st.outbox[oid];
  }

  ghost function Succeeded(facts: seq<Fact>, succeeds: seq<bool>): set<Fact>
    requires |facts| == |succeeds|
  {
    set i | 0 <= i < |facts| && succeeds[i] && Said(facts[i]) :: facts[i]
  }

  /** A commit followed by its after-commit callbacks, each of which may fail. */
  ghost function CommittedAndRun(st: State, succeeds: seq<bool>): State
    requires st.txn.Some? && |succeeds| == |st.txn.value.added|
  {
    var after := DoCommit(st);
    after.(callbacks := multiset{}, disk := after.disk + Succeeded(Added(st.txn.value.added), succeeds))
  }

  ghost function CallbackSteps(facts: seq<Fact>, succeeds: seq<bool>): seq<Step>
    requires |facts| == |succeeds|
  {
    seq(|facts|, i requires 0 <= i < |facts| => Callback(facts[i], succeeds[i]))
  }

  /** The state after the first n callbacks. */
  ghost function AfterCallbacks(st: State, facts: seq<Fact>, succeeds: seq<bool>, n: nat): State
    requires |facts| == |succeeds| && n <= |facts|
  {
    st.(callbacks := multiset(facts[n..]), disk := st.disk + Succeeded(facts[..n], succeeds[..n]))
  }

  lemma {:induction false} CallbacksRun(st: State, facts: seq<Fact>, succeeds: seq<bool>, n: nat)
    requires |facts| == |succeeds| && n <= |facts| && st.callbacks == multiset(facts)
    ensures n <= |CallbackSteps(facts, succeeds)|
    ensures Run(st, CallbackSteps(facts, succeeds)[..n]) == AfterCallbacks(st, facts, succeeds, n)
  {
    assert |CallbackSteps(facts, succeeds)| == |facts|;
    hide AfterCallbacks, Enabled, Run, CallbackSteps, Do;
    if n == 0 {
      NoCallbacks(st, facts, succeeds);
    } else {
      CallbacksRun(st, facts, succeeds, n - 1);
      OneCallback(st, facts, succeeds, n - 1);
      RunStep(st, CallbackSteps(facts, succeeds), n - 1);
    }
  }

  lemma OneCallback(st: State, facts: seq<Fact>, succeeds: seq<bool>, i: nat)
    requires |facts| == |succeeds| && i < |facts|
    ensures var before, steps := AfterCallbacks(st, facts, succeeds, i), CallbackSteps(facts, succeeds);
            |steps| == |facts| && Enabled(before, steps[i]) && Do(before, steps[i]) == AfterCallbacks(st, facts, succeeds, i + 1)
  {
    hide Succeeded;
    CallbackEnabled(AfterCallbacks(st, facts, succeeds, i), facts, succeeds, i);
    SucceededMore(facts, succeeds, i);
  }

  lemma NoCallbacks(st: State, facts: seq<Fact>, succeeds: seq<bool>)
    requires |facts| == |succeeds| && st.callbacks == multiset(facts)
    ensures Run(st, CallbackSteps(facts, succeeds)[..0]) == AfterCallbacks(st, facts, succeeds, 0)
  {
    assert facts[0..] == facts;
    assert Succeeded(facts[..0], succeeds[..0]) == {};
  }

  lemma RunStep(st: State, steps: seq<Step>, n: nat)
    requires n < |steps| && Enabled(Run(st, steps[..n]), steps[n])
    ensures Run(st, steps[..n + 1]) == Do(Run(st, steps[..n]), steps[n])
  {
    hide Enabled, Do;
    assert steps[..n + 1][..n] == steps[..n];
  }

  lemma CallbackEnabled(st: State, facts: seq<Fact>, succeeds: seq<bool>, i: nat)
    requires |facts| == |succeeds| && i < |facts| && st.callbacks == multiset(facts[i..])
    ensures |CallbackSteps(facts, succeeds)| == |facts| && CallbackSteps(facts, succeeds)[i] == Callback(facts[i], succeeds[i])
    ensures Enabled(st, CallbackSteps(facts, succeeds)[i])
    ensures multiset(facts[i..]) - multiset{facts[i]} == multiset(facts[i + 1..])
  {
    assert facts[i..] == [facts[i]] + facts[i + 1..];
  }

  lemma SucceededMore(facts: seq<Fact>, succeeds: seq<bool>, n: nat)
    requires |facts| == |succeeds| && n < |facts|
    ensures Succeeded(facts[..n + 1], succeeds[..n + 1]) ==
            Succeeded(facts[..n], succeeds[..n]) + (if succeeds[n] then OnlySaid({facts[n]}) else {})
  {
    var less, more := Succeeded(facts[..n], succeeds[..n]), Succeeded(facts[..n + 1], succeeds[..n + 1]);
    forall f ensures f in more <==> f in less + (if succeeds[n] then OnlySaid({facts[n]}) else {}) {
      if f in less {
        var i :| 0 <= i < n && succeeds[i] && facts[i] == f;
        assert succeeds[..n + 1][i] && facts[..n + 1][i] == f;
      }
      if succeeds[n] && f == facts[n] { assert succeeds[..n + 1][n] && facts[..n + 1][n] == f; }
      if f in more {
        var i :| 0 <= i <= n && succeeds[..n + 1][i] && facts[..n + 1][i] == f;
        if i < n { assert succeeds[..n][i] && facts[..n][i] == f; }
      }
    }
  }

  /** The commit of the session is a run of the machine: one commit step and one step per callback. */
  lemma CommitRefines(st: State, succeeds: seq<bool>)
    requires st.txn.Some? && |succeeds| == |st.txn.value.added| && st.callbacks == multiset{}
    ensures CommittedAndRun(st, succeeds) == Run(DoCommit(st), CallbackSteps(Added(st.txn.value.added), succeeds))
    ensures Inv(st) ==> Inv(CommittedAndRun(st, succeeds)) && Inv(DoCommit(st).(callbacks := multiset{}))
  {
    var after, facts := DoCommit(st), Added(st.txn.value.added);
    var steps := CallbackSteps(facts, succeeds);
    CallbacksRun(after, facts, succeeds, |facts|);
    assert steps[..|facts|] == steps && facts[..|facts|] == facts && succeeds[..|facts|] == succeeds;
    if Inv(st) {
      CommitInv(st);
      RunInv(after, steps);
      DropTxnInv(after, multiset{});
    }
  }

  ghost function QueuedFacts(q: seq<Queued>): set<Fact>
    requires AllQueuedApplicable(q)
  {
    set i | 0 <= i < |q| && Said(MutationFact(q[i].mutation)) :: MutationFact(q[i].mutation)
  }

  lemma QueuedFactsEach(q: seq<Queued>)
    requires AllQueuedApplicable(q)
    ensures |Added(Entries(q))| == |q|
    ensures forall i | 0 <= i < |q| :: OnlySaid({MutationFact(q[i].mutation)}) <= QueuedFacts(q)
    ensures forall i | 0 <= i < |q| :: Added(Entries(q))[i] == MutationFact(q[i].mutation)
  {
  }

  lemma NothingSucceeded(facts: seq<Fact>, succeeds: seq<bool>)
    requires |facts| == |succeeds|
    ensures Succeeded(facts[..0], succeeds[..0]) == {}
  {
  }

  lemma CommittedFacts(st: State, q: seq<Queued>)
    requires Inv(st) && st.txn.Some? && AllQueuedApplicable(q) && st.txn.value.added == Entries(q)
    ensures Consistent(Source(DoCommit(st))) && DoCommit(st).disk <= Source(DoCommit(st))
    ensures QueuedFacts(q) <= Source(DoCommit(st))
  {
    CommitInv(st);
    CommitSource(st);
    QueuedFactsEach(q);
    forall f | f in QueuedFacts(q) ensures f in AddedFacts(st.txn.value) {
      var i :| 0 <= i < |q| && MutationFact(q[i].mutation) == f;
      assert Added(Entries(q))[i] == f;
    }
  }

  lemma InsertedRow(db: Database, tx: Changes, files: map<string, seq<Record>>, id: int, row: Row)
    requires WellFormed(db, tx, files) && id !in tx.table && row.key.id == id
    ensures WellFormed(db, tx.(table := tx.table[id := row]), files)
    ensures RowFacts(tx.table[id := row]) == RowFacts(tx.table) + {FactOf(row)}
  {
    NewRowFacts(tx.table, id, row);
  }

  /** Only turns can clash. */
  lemma TurnsConsistent(a: set<Fact>, b: set<Fact>)
    requires Consistent(b) && forall f | f in a && f.TurnFact? :: f in b
    ensures Consistent(a)
  {
  }

  lemma PrunedIgnoresTransactionTable(st: State, p: string, s: string, maxId: int, limit: Option<int>, stale: bool, table: set<Fact>)
    requires st.txn.Some?
    ensures Pruned(WithTable(st, table), p, s, maxId, limit, stale) == Pruned(st, p, s, maxId, limit, stale)
  {
    PruneIgnoresTransactionTable(st, p, s, maxId, limit, stale, 0, table);
  }

  /** A dual-mode prune: what the mirror does to the committed state, with the rows left in the table. */
  lemma DualPruneSplits(base: State, st: State, p: string, s: string, maxId: int, limit: Option<int>, stale: bool, oid: int)
    requires base.txn.Some? && st.txn.Some? && st == WithTable(base, st.txn.value.table)
    ensures var deleted := Deleted(st.txn.value.table, p, s, maxId, limit);
            var rest := Without(st.txn.value.table, p, s, deleted);
            var pruned := if |deleted| == 0 then base else DoPrune(base, p, s, maxId, Some(|deleted|), stale, oid);
            pruned.txn.Some? && DoPruneDual(st, p, s, maxId, limit, stale, oid) == WithTable(pruned, rest)
  {
    var deleted := Deleted(st.txn.value.table, p, s, maxId, limit);
    var rest := Without(st.txn.value.table, p, s, deleted);
    NoneDeleted(deleted);
    assert WithTable(st, rest) == WithTable(base, rest);
    hide DoPrune, Deleted, Without;
    PruneIgnoresTransactionTable(base, p, s, maxId, Some(|deleted|), stale, oid, rest);
  }

  lemma WindowWithin(st: State, p: string, s: string, lo: int, hi: Option<int>)
    requires Inv(st)
    ensures Window(Visible(st.disk), p, s, lo, hi) <= Source(st)
  {
  }

  lemma NoneRecent(facts: set<Fact>, p: string, s: string, lo: int, limit: int)
    ensures AllTurns(Window(facts, p, s, lo, None))
    ensures limit < 1 ==> IsRecent([], Window(facts, p, s, lo, None), limit)
  {
  }
}
