/** The transactional outbox protocol of the transcript store, as a state machine on facts.

    One database transaction at a time writes (the write gate); files are written immediately
    and survive rollbacks and crashes.  `history` is the sequence of committed mutations in
    commit order, kept only to state the theorems. */
module TranscriptMachine {
  import opened Ordering
  import opened TranscriptLog

  datatype Backend = Jsonl | Dual

  /** One outbox row written by the open transaction. */
  datatype Entry = Entry(oid: int, fact: Fact)

  datatype Txn = Txn(counters: map<string, int>, table: set<Fact>, added: seq<Entry>, removed: set<int>)

  datatype State = State(
    backend: Backend,
    legacy: set<Fact>,          // chat turns already in the table when the JSONL store was switched on
    table: set<Fact>,           // committed rows of the chat turn table
    counters: map<string, int>, // committed per-session sequence rows
    outbox: map<int, Fact>,     // committed outbox rows
    disk: set<Fact>,            // what the transcript files say
    history: seq<Fact>,         // committed mutations, in commit order
    callbacks: multiset<Fact>,  // after-commit callbacks that have not run yet
    txn: Option<Txn>)

  function SessionOf(f: Fact): string {
    match f case TurnFact(k, _) => k.session case PruneFact(_, s, _) => s
  }

  /** What applying a mutation makes the files say: a prune without a session id is dropped. */
  predicate Said(f: Fact) { f.TurnFact? || f.session != "" }

  function OnlySaid(facts: set<Fact>): set<Fact> { set f | f in facts && Said(f) }

  /** An absent sequence row behaves like one that holds 1. */
  function Next(counters: map<string, int>, s: string): int {
    if s in counters then counters[s] else 1
  }

  /** `ensure_session_jsonl_next_id` */
  function Ensure(counters: map<string, int>, s: string, atLeast: int): map<string, int> {
    counters[s := Max(Next(counters, s), Max(1, atLeast))]
  }

  ghost function Committed(st: State): set<Fact> { set f | f in st.history && Said(f) }

  /** Everything a reader may legitimately see. */
  ghost function Source(st: State): set<Fact> { Committed(st) + st.legacy }

  function Of(facts: set<Fact>, p: string, s: string): set<Fact> {
    set f | f in facts && f.TurnFact? && f.key.profile == p && f.key.session == s
  }

  function Ids(facts: set<Fact>, p: string, s: string): set<int> { set f | f in Of(facts, p, s) :: f.key.id }

  ghost function SessionIds(facts: set<Fact>, s: string): set<int> {
    set f | f in facts && f.TurnFact? && f.key.session == s :: f.key.id
  }

  function UpTo(ids: set<int>, maxId: int): set<int> { set i | i in ids && i <= maxId }

  /** The rows one bounded prune selects: all of them, or the first max(1, limit). */
  function Quota(ids: set<int>, limit: Option<int>): nat {
    match limit case None => |ids| case Some(n) => Max(1, n)
  }

  ghost function FirstIds(ids: set<int>, n: nat): (sel: set<int>)
    ensures IsFirst(ids, Increasing, n, sel)
  {
    IncreasingIsInjective(ids);
    Leading(ids, Increasing, n)
  }

  ghost function Selected(ids: set<int>, maxId: int, limit: Option<int>): set<int> {
    var eligible := UpTo(ids, maxId);
    FirstIds(eligible, Quota(eligible, limit))
  }

  function Added(entries: seq<Entry>): seq<Fact> { seq(|entries|, i requires 0 <= i < |entries| => entries[i].fact) }

  function AddedOids(entries: seq<Entry>): set<int> { set i | 0 <= i < |entries| :: entries[i].oid }

  function AddedRows(entries: seq<Entry>): map<int, Fact> {
    if entries == [] then map[]
    else AddedRows(entries[..|entries| - 1])[entries[|entries| - 1].oid := entries[|entries| - 1].fact]
  }

  ghost predicate FreeOid(st: State, oid: int) {
    st.txn.Some? && oid !in st.outbox.Keys - st.txn.value.removed && oid !in AddedOids(st.txn.value.added)
  }

  /** `enqueue_session_jsonl_mutation`, with the counters and the table rows the operation leaves. */
  function Enqueued(st: State, f: Fact, oid: int, counters: map<string, int>, table: set<Fact>): State
    requires st.txn.Some?
  {
    var t := st.txn.value;
    st.(txn := Some(Txn(counters, table, t.added + [Entry(oid, f)], t.removed)))
  }

  // ----- steps -----

  datatype Step =
    | Begin
    | CreateJsonl(p: string, s: string, content: Content, oid: int)
    | CreateDual(id: int, p: string, s: string, content: Content, oid: int)
    | PruneJsonl(p: string, s: string, maxId: int, limit: Option<int>, stale: bool, oid: int)
    | PruneDual(p: string, s: string, maxId: int, limit: Option<int>, stale: bool, oid: int)
    | BackfillRows(p: string, s: string)
    | AppendRow(row: Fact)  // one append of a backfill that goes no further
    | DrainRow(oid: int)
    | Commit
    | Rollback
    | Callback(fact: Fact, succeeds: bool)
    | Crash

  /** The id `create_turn` allocates: above the counter, the table and the visible file rows. */
  ghost function Allocated(st: State, p: string, s: string): int
    requires st.txn.Some?
  {
    Max(Next(st.txn.value.counters, s),
        Max(1, Max(MaxId(Ids(st.txn.value.table, p, s)) + 1, MaxId(SessionIds(Visible(st.disk), s)) + 1)))
  }

  ghost function DoCreateJsonl(st: State, p: string, s: string, content: Content, oid: int): State
    requires st.txn.Some?
  {
    var t := st.txn.value;
    var id := Allocated(st, p, s);
    Enqueued(st, TurnFact(Key(p, s, id), content), oid, t.counters[s := id + 1], t.table)
  }

  ghost function DoCreateDual(st: State, id: int, p: string, s: string, content: Content, oid: int): State
    requires st.txn.Some?
  {
    var t := st.txn.value;
    var f := TurnFact(Key(p, s, id), content);
    Enqueued(st, f, oid, Ensure(t.counters, s, id + 1), t.table + {f})
  }

  /** Every committed table row of the profile and session is appended to the file; the counter
      is raised above them inside the open transaction. */
  ghost function DoBackfill(st: State, p: string, s: string): State
    requires st.txn.Some?
  {
    var rows := Of(st.table, p, s);
    var t := st.txn.value;
    if rows == {} then st
    else st.(disk := st.disk + rows,
             txn := Some(t.(counters := Ensure(t.counters, s, MaxId(Ids(st.table, p, s)) + 1))))
  }

  function DoDrainRow(st: State, oid: int): State
    requires st.txn.Some? && oid in st.outbox
  {
    st.(disk := st.disk + OnlySaid({st.outbox[oid]}),
        txn := Some(st.txn.value.(removed := st.txn.value.removed + {oid})))
  }

  function OutboxOf(outbox: map<int, Fact>, s: string): set<int> {
    set oid | oid in outbox && SessionOf(outbox[oid]) == s
  }

  function Undelivered(outbox: map<int, Fact>, s: string): set<Fact> {
    set oid | oid in OutboxOf(outbox, s) && Said(outbox[oid]) :: outbox[oid]
  }

  /** The drain loop of one session; a store with pending rows does not drain, be they of the open
      transaction or, `stale`, of one that was rolled back. */
  function DoDrainSession(st: State, s: string, stale: bool): State
    requires st.txn.Some?
  {
    if stale || st.txn.value.added != [] then st
    else
      st.(disk := st.disk + Undelivered(st.outbox, s),
          txn := Some(st.txn.value.(removed := st.txn.value.removed + OutboxOf(st.outbox, s))))
  }

  /** What every read and every prune does first. */
  ghost function Refreshed(st: State, p: string, s: string, stale: bool): State
    requires st.txn.Some?
  {
    DoDrainSession(DoBackfill(st, p, s), s, stale)
  }

  /** The ids of the turns the refreshed file shows. */
  ghost function Shown(st: State, p: string, s: string, stale: bool): set<int>
    requires st.txn.Some?
  {
    Ids(Visible(Refreshed(st, p, s, stale).disk), p, s)
  }

  /** The JSONL `delete_up_to`. */
  ghost function DoPrune(st: State, p: string, s: string, maxId: int, limit: Option<int>, stale: bool, oid: int): State
    requires st.txn.Some?
  {
    if maxId < 1 then st
    else
      var st1 := Refreshed(st, p, s, stale);
      var selected := Selected(Shown(st, p, s, stale), maxId, limit);
      if selected == {} then st1
      else Enqueued(st1, PruneFact(p, s, MaxId(selected)), oid, st1.txn.value.counters, st1.txn.value.table)
  }

  /** The table's `delete_up_to`: the ids it deletes. */
  ghost function Deleted(table: set<Fact>, p: string, s: string, maxId: int, limit: Option<int>): set<int> {
    if maxId < 1 then {} else Selected(Ids(table, p, s), maxId, limit)
  }

  ghost function Without(table: set<Fact>, p: string, s: string, ids: set<int>): set<Fact> {
    set f | f in table && !(f in Of(table, p, s) && f.key.id in ids)
  }

  /** Dual mode: the table deletes, then the mirror prunes that many rows. */
  ghost function DoPruneDual(st: State, p: string, s: string, maxId: int, limit: Option<int>, stale: bool, oid: int): State
    requires st.txn.Some?
  {
    var t := st.txn.value;
    var deleted := Deleted(t.table, p, s, maxId, limit);
    var st1 := st.(txn := Some(t.(table := Without(t.table, p, s, deleted))));
    if deleted == {} then st1 else DoPrune(st1, p, s, maxId, Some(|deleted|), stale, oid)
  }

  function DoCommit(st: State): State
    requires st.txn.Some?
  {
    var t := st.txn.value;
    st.(table := t.table, counters := t.counters,
        outbox := (map oid | oid in st.outbox && oid !in t.removed :: st.outbox[oid]) + AddedRows(t.added),
        history := st.history + Added(t.added),
        callbacks := st.callbacks + multiset(Added(t.added)),
        txn := None)
  }

  /** Row ids handed out by the table grow for ever: the assumption dual mode rests on. */
  ghost predicate NeverReused(st: State, id: int) {
    && st.txn.Some? && id >= 1
    && forall f | f in Source(st) + AddedFacts(st.txn.value) && f.TurnFact? :: f.key.id < id
  }

  /** When a dual-mode prune leaves table and mirror equal: it deletes nothing; or the session has an id,
      every row it deletes was committed before this transaction, and the refreshed file shows no turn
      that the transaction's table has already lost. */
  ghost predicate PruneAgrees(st: State, p: string, s: string, maxId: int, limit: Option<int>, stale: bool)
    requires st.txn.Some?
  {
    Deleted(st.txn.value.table, p, s, maxId, limit) == {} || (s != "" && RowsAgree(st, p, s, maxId, limit, stale))
  }

  ghost predicate RowsAgree(st: State, p: string, s: string, maxId: int, limit: Option<int>, stale: bool)
    requires st.txn.Some?
  {
    var table := st.txn.value.table;
    Deleted(table, p, s, maxId, limit) <= Ids(st.table, p, s) && Shown(st, p, s, stale) <= Ids(table, p, s)
  }

  ghost predicate Enabled(st: State, step: Step) {
    match step
    case Begin => st.txn.None?
    case CreateJsonl(p, s, c, oid) => st.backend.Jsonl? && FreeOid(st, oid)
    case PruneJsonl(p, s, m, l, stale, oid) => st.backend.Jsonl? && FreeOid(st, oid)
    case CreateDual(id, p, s, c, oid) => st.backend.Dual? && FreeOid(st, oid) && NeverReused(st, id)
    case PruneDual(p, s, m, l, stale, oid) =>
      st.backend.Dual? && FreeOid(st, oid) && PruneAgrees(st, p, s, m, l, stale)
    case BackfillRows(p, s) => st.txn.Some?
    case AppendRow(row) => st.txn.Some? && row in st.table
    case DrainRow(oid) => st.txn.Some? && oid in st.outbox
    case Commit => st.txn.Some?
    case Rollback => st.txn.Some?
    case Callback(f, ok) => f in st.callbacks
    case Crash => true
  }

  ghost function Do(st: State, step: Step): State
    requires Enabled(st, step)
  {
    match step
    case Begin => st.(txn := Some(Txn(st.counters, st.table, [], {})))
    case CreateJsonl(p, s, c, oid) => DoCreateJsonl(st, p, s, c, oid)
    case CreateDual(id, p, s, c, oid) => DoCreateDual(st, id, p, s, c, oid)
    case PruneJsonl(p, s, m, l, stale, oid) => DoPrune(st, p, s, m, l, stale, oid)
    case PruneDual(p, s, m, l, stale, oid) => DoPruneDual(st, p, s, m, l, stale, oid)
    case BackfillRows(p, s) => DoBackfill(st, p, s)
    case AppendRow(row) => st.(disk := st.disk + {row})
    case DrainRow(oid) => DoDrainRow(st, oid)
    case Commit => DoCommit(st)
    case Rollback => st.(txn := None)
    case Callback(f, ok) =>
      st.(callbacks := st.callbacks - multiset{f}, disk := if ok then st.disk + OnlySaid({f}) else st.disk)
    case Crash => st.(txn := None, callbacks := multiset{})
  }

  /** A run: steps that are not enabled are skipped. */
  ghost function Run(st: State, steps: seq<Step>): State
    decreases |steps|
  {
    if steps == [] then st
    else
      var before := Run(st, steps[..|steps| - 1]);
      var step := steps[|steps| - 1];
      if Enabled(before, step) then Do(before, step) else before
  }

  ghost predicate LegacyTable(table: set<Fact>) {
    && (forall f | f in table :: f.TurnFact? && f.key.id >= 1)
    && Consistent(table)
  }

  ghost function Start(backend: Backend, table: set<Fact>): State {
    State(backend, table, table, map[], map[], {}, [], multiset{}, None)
  }

  // ----- invariants -----

  /** Ids and boundaries of a session are below its counter; a turn is above every earlier turn and
      prune boundary of its session, and above every table id of its profile and session. */
  ghost predicate Ordered(facts: seq<Fact>, counters: map<string, int>, legacy: set<Fact>) {
    && (forall i | 0 <= i < |facts| ::
          match facts[i]
          case TurnFact(k, _) => 1 <= k.id < Next(counters, k.session)
          case PruneFact(_, s, b) => b < Next(counters, s))
    && (forall i, f | 0 <= i < |facts| && facts[i].TurnFact? && f in Of(legacy, facts[i].key.profile, facts[i].key.session) ::
          f.key.id < facts[i].key.id)
    && (forall i, j | 0 <= i < j < |facts| && facts[j].TurnFact? && SessionOf(facts[i]) == SessionOf(facts[j]) ::
          (if facts[i].TurnFact? then facts[i].key.id else facts[i].boundary) < facts[j].key.id)
  }

  /** A prune boundary is the id of a turn it removed. */
  ghost predicate PrunesAreIds(prunes: set<Fact>, source: set<Fact>) {
    forall f | f in prunes && f.PruneFact? :: f.boundary in Ids(source, f.profile, f.session)
  }

  ghost function AddedFacts(t: Txn): set<Fact> { set f | f in Added(t.added) && Said(f) }

  /** Committed mutations are on disk or in the outbox; nothing else ever reaches the disk. */
  ghost predicate Durable(st: State) {
    && LegacyTable(st.legacy)
    && Consistent(Source(st))
    && PrunesAreIds(Committed(st), Source(st))
    && st.disk <= Source(st)
    && st.table <= Source(st)
    && Committed(st) <= st.disk + st.outbox.Values
    && OnlySaid(st.outbox.Values) <= Committed(st)
    && (forall f | f in st.callbacks && Said(f) :: f in Committed(st))
  }

  ghost predicate TxnInv(st: State) {
    match st.txn
    case None => true
    case Some(t) =>
      && t.removed <= st.outbox.Keys
      && (forall oid | oid in t.removed && Said(st.outbox[oid]) :: st.outbox[oid] in st.disk)
      && Consistent(Source(st) + AddedFacts(t))
      && PrunesAreIds(AddedFacts(t), Source(st))
      && AddedOids(t.added) !! (st.outbox.Keys - t.removed)
      && (forall i, j | 0 <= i < j < |t.added| :: t.added[i].oid != t.added[j].oid)
  }

  /** JSONL mode: the table is frozen and the counter orders the ids. */
  ghost predicate JsonlInv(st: State) {
    && st.table == st.legacy
    && Ordered(st.history, st.counters, st.legacy)
    && match st.txn
       case None => true
       case Some(t) => t.table == st.table && Ordered(st.history + Added(t.added), t.counters, st.legacy)
  }

  /** Dual mode: the table, committed or not, is the view of the mutations, and the turns of the open
      transaction are newer than all committed ones. */
  ghost predicate DualInv(st: State) {
    && st.table == Visible(Source(st))
    && match st.txn
       case None => true
       case Some(t) => t.table == Visible(Source(st) + AddedFacts(t)) && Newer(AddedFacts(t), Source(st))
  }

  ghost predicate Newer(facts: set<Fact>, source: set<Fact>) {
    forall f, g | f in facts && f.TurnFact? && g in source && g.TurnFact? :: g.key.id < f.key.id
  }

  ghost predicate Inv(st: State) {
    match st.backend
    case Jsonl => Durable(st) && TxnInv(st) && JsonlInv(st)
    case Dual => Durable(st) && TxnInv(st) && DualInv(st)
  }

  // ----- the invariant, step by step -----

  lemma StartInv(backend: Backend, table: set<Fact>)
    requires LegacyTable(table)
    ensures Inv(Start(backend, table))
  {
    var st := Start(backend, table);
    assert Committed(st) == {} && Source(st) == table;
    assert Visible(table) == table;
  }

  lemma BeginInv(st: State)
    requires Inv(st) && st.txn.None?
    ensures Inv(Do(st, Begin))
  {
    var st' := Do(st, Begin);
    assert Committed(st') == Committed(st);
    assert AddedFacts(st'.txn.value) == {} && Source(st') + {} == Source(st);
    assert st'.history + Added([]) == st'.history;
  }

  lemma OrderedUnderHigherCounters(facts: seq<Fact>, low: map<string, int>, high: map<string, int>, legacy: set<Fact>)
    requires Ordered(facts, low, legacy)
    requires forall s :: Next(low, s) <= Next(high, s)
    ensures Ordered(facts, high, legacy)
  {
    forall i | 0 <= i < |facts|
      ensures match facts[i]
              case TurnFact(k, _) => 1 <= k.id < Next(high, k.session)
              case PruneFact(_, s, b) => b < Next(high, s)
    {
      assert Next(low, SessionOf(facts[i])) <= Next(high, SessionOf(facts[i]));
    }
  }

  ghost function Written(st: State, facts: set<Fact>, counters: map<string, int>, removed: set<int>): State
    requires st.txn.Some?
  {
    st.(disk := st.disk + facts,
        txn := Some(st.txn.value.(counters := counters, removed := st.txn.value.removed + removed)))
  }

  /** Writing facts of the source to disk and raising counters keeps the invariant. */
  lemma WritesInv(st: State, facts: set<Fact>, counters: map<string, int>, removed: set<int>)
    requires Inv(st) && st.txn.Some? && facts <= Source(st)
    requires forall s :: Next(st.txn.value.counters, s) <= Next(counters, s)
    requires removed <= st.outbox.Keys && forall oid | oid in removed && Said(st.outbox[oid]) :: st.outbox[oid] in facts
    ensures Inv(Written(st, facts, counters, removed))
  {
    var t := st.txn.value;
    var st' := Written(st, facts, counters, removed);
    assert Committed(st') == Committed(st) && Source(st') == Source(st);
    if st.backend.Jsonl? {
      OrderedUnderHigherCounters(st.history + Added(t.added), t.counters, counters, st.legacy);
    }
    assert AddedFacts(st'.txn.value) == AddedFacts(t);
  }

  lemma BackfillInv(st: State, p: string, s: string)
    requires Inv(st) && st.txn.Some?
    ensures Inv(DoBackfill(st, p, s))
  {
    var rows := Of(st.table, p, s);
    if rows != {} {
      var t := st.txn.value;
      var counters := Ensure(t.counters, s, MaxId(Ids(st.table, p, s)) + 1);
      WritesInv(st, rows, counters, {}) by { assert st.table <= Source(st); }
      assert DoBackfill(st, p, s) == Written(st, rows, counters, {}) by { assert t.removed + {} == t.removed; }
    }
  }

  lemma AppendRowInv(st: State, row: Fact)
    requires Inv(st) && st.txn.Some? && row in st.table
    ensures Inv(st.(disk := st.disk + {row}))
  {
    var t := st.txn.value;
    WritesInv(st, {row}, t.counters, {}) by { assert st.table <= Source(st); }
    assert st.(disk := st.disk + {row}) == Written(st, {row}, t.counters, {}) by { assert t.removed + {} == t.removed; }
  }

  lemma BackfillReaches(st: State, p: string, s: string)
    requires st.txn.Some?
    ensures Of(st.table, p, s) <= DoBackfill(st, p, s).disk
    ensures forall i | i in Ids(st.table, p, s) :: i < Next(DoBackfill(st, p, s).txn.value.counters, s)
  {
    if Of(st.table, p, s) == {} { assert Ids(st.table, p, s) == {}; }
  }

  lemma DrainRowInv(st: State, oid: int)
    requires Inv(st) && st.txn.Some? && oid in st.outbox
    ensures Inv(DoDrainRow(st, oid))
  {
    var f := st.outbox[oid];
    WritesInv(st, OnlySaid({f}), st.txn.value.counters, {oid}) by { assert f in st.outbox.Values; }
    assert DoDrainRow(st, oid) == Written(st, OnlySaid({f}), st.txn.value.counters, {oid});
  }

  lemma DrainSessionInv(st: State, s: string, stale: bool)
    requires Inv(st) && st.txn.Some?
    ensures Inv(DoDrainSession(st, s, stale))
  {
    var facts := Undelivered(st.outbox, s);
    if !stale && st.txn.value.added == [] {
      forall f | f in facts ensures f in Source(st) { assert f in st.outbox.Values; }
      WritesInv(st, facts, st.txn.value.counters, OutboxOf(st.outbox, s));
      assert DoDrainSession(st, s, stale) == Written(st, facts, st.txn.value.counters, OutboxOf(st.outbox, s));
    }
  }

  lemma DrainReaches(st: State, s: string)
    requires st.txn.Some? && st.txn.value.added == []
    requires Committed(st) <= st.disk + st.outbox.Values
    ensures forall f | f in Committed(st) && SessionOf(f) == s :: f in DoDrainSession(st, s, false).disk
  {
    forall f | f in Committed(st) && SessionOf(f) == s ensures f in st.disk + Undelivered(st.outbox, s) {
      if f !in st.disk {
        var oid := SomeKey(st.outbox, f);
        assert oid in OutboxOf(st.outbox, s);
      }
    }
  }

  lemma RefreshedSource(st: State, p: string, s: string, stale: bool)
    requires st.txn.Some?
    ensures Source(Refreshed(st, p, s, stale)) == Source(DoBackfill(st, p, s)) == Source(st)
    ensures DoBackfill(st, p, s).txn.Some? && Refreshed(st, p, s, stale).txn.Some?
    ensures var t := Refreshed(st, p, s, stale).txn.value;
            t.added == st.txn.value.added && t.table == st.txn.value.table && Refreshed(st, p, s, stale).table == st.table
  {
    assert Committed(Refreshed(st, p, s, stale)) == Committed(DoBackfill(st, p, s)) == Committed(st);
  }

  lemma RefreshedInv(st: State, p: string, s: string, stale: bool)
    requires Inv(st) && st.txn.Some?
    ensures Inv(Refreshed(st, p, s, stale))
    ensures Source(Refreshed(st, p, s, stale)) == Source(st)
  {
    hide Inv, DoBackfill, DoDrainSession;
    RefreshedSource(st, p, s, stale);
    BackfillInv(st, p, s);
    DrainSessionInv(DoBackfill(st, p, s), s, stale);
  }

  /** Enough of the source on disk: every committed mutation of the session and every table row. */
  ghost predicate Delivered(disk: set<Fact>, st: State, p: string, s: string) {
    && disk <= Source(st)
    && (forall f | f in Committed(st) && SessionOf(f) == s :: f in disk)
    && Of(st.table, p, s) <= disk
  }

  lemma DeliveredIsExact(disk: set<Fact>, st: State, p: string, s: string)
    requires Inv(st) && Delivered(disk, st, p, s)
    ensures Of(Visible(disk), p, s) == Of(Visible(Source(st)), p, s)
    ensures st.backend.Dual? ==> Of(Visible(disk), p, s) == Of(st.table, p, s)
  {
    forall f ensures f in Of(Visible(disk), p, s) <==> f in Of(Visible(Source(st)), p, s) {
      if f.TurnFact? && f.key.profile == p && f.key.session == s {
        SameSessionHidden(disk, Source(st), f.key);
        if f in Visible(Source(st)) && f !in Committed(st) {
          assert f in Of(st.table, p, s);
        }
      }
    }
  }

  /** After backfill and drain the file shows, for one profile and session, exactly the view of all
      committed mutations and the legacy rows; in dual mode, exactly the table. */
  lemma RefreshedIsExact(st: State, p: string, s: string)
    requires Inv(st) && st.txn.Some? && st.txn.value.added == []
    ensures Of(Visible(Refreshed(st, p, s, false).disk), p, s) == Of(Visible(Source(st)), p, s)
    ensures st.backend.Dual? ==> Of(Visible(Refreshed(st, p, s, false).disk), p, s) == Of(st.table, p, s)
  {
    var st1 := DoBackfill(st, p, s);
    var st2 := Refreshed(st, p, s, false);
    assert Delivered(st2.disk, st, p, s) by {
      assert st2.disk <= Source(st) by { RefreshedInv(st, p, s, false); }
      BackfillReaches(st, p, s);
      assert Committed(st1) == Committed(st);
      DrainReaches(st1, s);
    }
    DeliveredIsExact(st2.disk, st, p, s);
  }

  lemma SameSessionHidden(a: set<Fact>, b: set<Fact>, k: Key)
    requires forall f: Fact | f.PruneFact? && f.session == k.session :: f in a <==> f in b
    ensures Hidden(a, k) <==> Hidden(b, k)
  {
    if Hidden(a, k) && k.id > 0 {
      var c :| PruneFact(k.profile, k.session, c) in a && k.id <= c;
      assert PruneFact(k.profile, k.session, c) in b;
    }
    if Hidden(b, k) && k.id > 0 {
      var c :| PruneFact(k.profile, k.session, c) in b && k.id <= c;
      assert PruneFact(k.profile, k.session, c) in a;
    }
  }

  // ----- creating a turn -----

  lemma AddedAppend(added: seq<Entry>, e: Entry)
    ensures Added(added + [e]) == Added(added) + [e.fact]
    ensures AddedOids(added + [e]) == AddedOids(added) + {e.oid}
  {
    var more := added + [e];
    forall oid ensures oid in AddedOids(more) <==> oid in AddedOids(added) + {e.oid} {
      if oid in AddedOids(added) {
        var i :| 0 <= i < |added| && added[i].oid == oid;
        assert more[i].oid == oid;
      }
      if oid == e.oid { assert more[|added|].oid == oid; }
    }
  }

  /** Enqueueing one mutation keeps the invariant when the mode's own conditions are met. */
  lemma EnqueueInv(st: State, f: Fact, oid: int, counters: map<string, int>, table: set<Fact>)
    requires Inv(st) && FreeOid(st, oid)
    requires Consistent(Source(st) + AddedFacts(st.txn.value) + OnlySaid({f}))
    requires PrunesAreIds(OnlySaid({f}), Source(st))
    requires st.backend.Jsonl? ==> table == st.table && Ordered(st.history + Added(st.txn.value.added) + [f], counters, st.legacy)
    requires st.backend.Dual? ==> table == Visible(Source(st) + AddedFacts(st.txn.value) + OnlySaid({f})) && Newer({f}, Source(st))
    ensures Inv(Enqueued(st, f, oid, counters, table))
  {
    EnqueuedFacts(st, f, oid, counters, table);
    EnqueuedDurable(st, f, oid, counters, table);
    EnqueuedTxn(st, f, oid, counters, table);
    hide Durable, TxnInv, Source, Committed, AddedFacts, Consistent, Ordered, Visible, AddedOids, Newer, FreeOid;
    if st.backend.Dual? { NewerUnion(AddedFacts(st.txn.value), f, Source(st)); }
  }

  lemma EnqueuedTxn(st: State, f: Fact, oid: int, counters: map<string, int>, table: set<Fact>)
    requires TxnInv(st) && FreeOid(st, oid)
    requires Consistent(Source(st) + AddedFacts(st.txn.value) + OnlySaid({f})) && PrunesAreIds(OnlySaid({f}), Source(st))
    ensures TxnInv(Enqueued(st, f, oid, counters, table))
  {
    EnqueuedFacts(st, f, oid, counters, table);
    EnqueuedOids(st, oid, f);
    PrunesUnion(AddedFacts(st.txn.value), OnlySaid({f}), Source(st));
    hide Source, Committed, AddedFacts, Consistent, AddedOids, PrunesAreIds;
  }

  lemma PrunesUnion(prunes: set<Fact>, more: set<Fact>, source: set<Fact>)
    requires PrunesAreIds(prunes, source) && PrunesAreIds(more, source)
    ensures PrunesAreIds(prunes + more, source)
  {
  }

  lemma NewerUnion(facts: set<Fact>, f: Fact, source: set<Fact>)
    requires Newer(facts, source) && Newer({f}, source)
    ensures Newer(facts + OnlySaid({f}), source)
  {
  }

  lemma EnqueuedFacts(st: State, f: Fact, oid: int, counters: map<string, int>, table: set<Fact>)
    requires st.txn.Some?
    ensures var st' := Enqueued(st, f, oid, counters, table);
            && Committed(st') == Committed(st) && Source(st') == Source(st)
            && AddedFacts(st'.txn.value) == AddedFacts(st.txn.value) + OnlySaid({f})
            && Source(st') + AddedFacts(st'.txn.value) == Source(st) + AddedFacts(st.txn.value) + OnlySaid({f})
            && st.history + Added(st'.txn.value.added) == st.history + Added(st.txn.value.added) + [f]
  {
    AddedAppend(st.txn.value.added, Entry(oid, f));
    assert Committed(Enqueued(st, f, oid, counters, table)) == Committed(st);
  }

  lemma EnqueuedDurable(st: State, f: Fact, oid: int, counters: map<string, int>, table: set<Fact>)
    requires Durable(st) && st.txn.Some?
    ensures Durable(Enqueued(st, f, oid, counters, table))
  {
    EnqueuedFacts(st, f, oid, counters, table);
    hide Committed, Source;
  }

  lemma EnqueuedOids(st: State, oid: int, f: Fact)
    requires FreeOid(st, oid)
    requires AddedOids(st.txn.value.added) !! (st.outbox.Keys - st.txn.value.removed)
    requires forall i, j | 0 <= i < j < |st.txn.value.added| :: st.txn.value.added[i].oid != st.txn.value.added[j].oid
    ensures var added := st.txn.value.added + [Entry(oid, f)];
            && AddedOids(added) !! (st.outbox.Keys - st.txn.value.removed)
            && forall i, j | 0 <= i < j < |added| :: added[i].oid != added[j].oid
  {
    var t := st.txn.value;
    AddedAppend(t.added, Entry(oid, f));
    forall i | 0 <= i < |t.added| ensures t.added[i].oid != oid { assert t.added[i].oid in AddedOids(t.added); }
  }

  lemma NewKeyConsistent(facts: set<Fact>, f: Fact)
    requires Consistent(facts) && f.TurnFact?
    requires forall g | g in facts && g.TurnFact? :: g.key != f.key
    ensures Consistent(facts + {f})
  {
  }

  lemma AllocatedIsFresh(st: State, p: string, s: string)
    requires st.txn.Some? && st.txn.value.table == st.legacy
    requires Ordered(st.history + Added(st.txn.value.added), st.txn.value.counters, st.legacy)
    ensures forall g | g in Of(st.legacy, p, s) :: g.key.id < Allocated(st, p, s)
    ensures forall g | g in Source(st) + AddedFacts(st.txn.value) && g.TurnFact? && g.key.profile == p && g.key.session == s ::
              g.key.id < Allocated(st, p, s)
    ensures forall g | g in Source(st) + AddedFacts(st.txn.value) && g.TurnFact? :: g.key != Key(p, s, Allocated(st, p, s))
  {
    var t := st.txn.value;
    var all := st.history + Added(t.added);
    AllocatedIsAbove(st, p, s);
    OrderedBelowCounter(all, t.counters, st.legacy, s);
    hide Allocated, Ordered, MaxId, Ids;
    forall g | g in Source(st) + AddedFacts(t) && g.TurnFact? && g.key.profile == p && g.key.session == s
      ensures g.key.id < Allocated(st, p, s)
    {
      if g in Committed(st) + AddedFacts(t) {
        assert g in all;
        var i :| 0 <= i < |all| && all[i] == g;
        assert SessionOf(all[i]) == s;
      } else {
        assert g in Of(st.legacy, p, s);
      }
    }
  }

  lemma AllocatedIsAbove(st: State, p: string, s: string)
    requires st.txn.Some?
    ensures Next(st.txn.value.counters, s) <= Allocated(st, p, s)
    ensures forall g | g in Of(st.txn.value.table, p, s) :: g.key.id < Allocated(st, p, s)
  {
    hide MaxId, Visible;
    forall g | g in Of(st.txn.value.table, p, s) ensures g.key.id < Allocated(st, p, s) {
      assert g.key.id in Ids(st.txn.value.table, p, s);
    }
  }

  lemma OrderedCreate(facts: seq<Fact>, counters: map<string, int>, legacy: set<Fact>, k: Key, content: Content)
    requires Ordered(facts, counters, legacy)
    requires 1 <= k.id && Next(counters, k.session) <= k.id
    requires forall g | g in Of(legacy, k.profile, k.session) :: g.key.id < k.id
    ensures Ordered(facts + [TurnFact(k, content)], counters[k.session := k.id + 1], legacy)
  {
    var counters' := counters[k.session := k.id + 1];
    OrderedBelowCounter(facts, counters, legacy, k.session);
    OrderedUnderHigherCounters(facts, counters, counters', legacy);
    OrderedAppend(facts, TurnFact(k, content), counters', legacy);
  }

  lemma EnqueueNewTurnInv(st: State, k: Key, content: Content, oid: int)
    requires Inv(st) && st.backend.Jsonl? && FreeOid(st, oid)
    requires NewKey(st, k)
    ensures Inv(Enqueued(st, TurnFact(k, content), oid, st.txn.value.counters[k.session := k.id + 1], st.txn.value.table))
  {
    var t := st.txn.value;
    var f := TurnFact(k, content);
    OrderedCreate(st.history + Added(t.added), t.counters, st.legacy, k, content);
    NewKeyConsistent(Source(st) + AddedFacts(t), f);
    EnqueueInv(st, f, oid, t.counters[k.session := k.id + 1], t.table);
  }

  ghost predicate NewKey(st: State, k: Key) {
    && st.txn.Some?
    && 1 <= k.id && Next(st.txn.value.counters, k.session) <= k.id
    && (forall g | g in Of(st.legacy, k.profile, k.session) :: g.key.id < k.id)
    && (forall g | g in Source(st) + AddedFacts(st.txn.value) && g.TurnFact? :: g.key != k)
  }

  lemma AllocatedNewKey(st: State, p: string, s: string)
    requires Inv(st) && st.backend.Jsonl? && st.txn.Some?
    ensures NewKey(st, Key(p, s, Allocated(st, p, s)))
  {
    AllocatedIsFresh(st, p, s);
  }

  lemma CreateJsonlInv(st: State, p: string, s: string, content: Content, oid: int)
    requires Inv(st) && st.backend.Jsonl? && FreeOid(st, oid)
    ensures Inv(DoCreateJsonl(st, p, s, content, oid))
  {
    hide Inv, NewKey, Allocated;
    AllocatedNewKey(st, p, s);
    EnqueueNewTurnInv(st, Key(p, s, Allocated(st, p, s)), content, oid);
  }

  lemma OrderedBelowCounter(facts: seq<Fact>, counters: map<string, int>, legacy: set<Fact>, s: string)
    requires Ordered(facts, counters, legacy)
    ensures forall i | 0 <= i < |facts| && SessionOf(facts[i]) == s ::
              (if facts[i].TurnFact? then facts[i].key.id else facts[i].boundary) < Next(counters, s)
  {
  }

  lemma OrderedAppend(facts: seq<Fact>, f: Fact, counters: map<string, int>, legacy: set<Fact>)
    requires Ordered(facts, counters, legacy)
    requires if f.TurnFact? then 1 <= f.key.id < Next(counters, f.key.session) else f.boundary < Next(counters, f.session)
    requires f.TurnFact? ==> forall g | g in Of(legacy, f.key.profile, f.key.session) :: g.key.id < f.key.id
    requires f.TurnFact? ==> forall i | 0 <= i < |facts| && SessionOf(facts[i]) == f.key.session ::
                (if facts[i].TurnFact? then facts[i].key.id else facts[i].boundary) < f.key.id
    ensures Ordered(facts + [f], counters, legacy)
  {
  }

  // ----- pruning -----

  /** The ids up to the largest of the first n are exactly the first n: a boundary removes what the
      bounded prune selected and nothing else. */
  lemma BoundaryIsExact(ids: set<int>, maxId: int, n: nat, sel: set<int>)
    requires IsFirst(UpTo(ids, maxId), Increasing, n, sel) && sel != {}
    ensures sel == UpTo(ids, MaxId(sel))
  {
    var b := MaxId(sel);
    FirstIdsAreBelow(UpTo(ids, maxId), n, sel);
    forall i | i in UpTo(ids, b) ensures i in sel {
      assert i in UpTo(ids, maxId);
    }
  }

  lemma FirstIdsAreBelow(ids: set<int>, n: nat, sel: set<int>)
    requires IsFirst(ids, Increasing, n, sel)
    ensures forall x, y | x in sel && y in ids && y !in sel :: x < y
  {
    forall x, y | x in sel && y in ids && y !in sel ensures x < y {
      assert y in ids - sel;
      assert LexLess(Increasing(x), Increasing(y));
    }
  }

  lemma VisibleIdsAreSourceIds(st: State, p: string, s: string)
    requires Inv(st)
    ensures Ids(Visible(st.disk), p, s) <= Ids(Source(st), p, s)
  {
    var disk, source := st.disk, Source(st);
    forall i | i in Ids(Visible(disk), p, s) ensures i in Ids(source, p, s) {
      var f :| f in Of(Visible(disk), p, s) && f.key.id == i;
      assert f in Of(source, p, s);
    }
  }

  lemma CommittedIdsBelow(history: seq<Fact>, added: seq<Fact>, counters: map<string, int>, legacy: set<Fact>, s: string)
    requires Ordered(history + added, counters, legacy)
    ensures forall f | f in history && f.TurnFact? && f.key.session == s :: f.key.id < Next(counters, s)
  {
    var all := history + added;
    OrderedBelowCounter(all, counters, legacy, s);
    forall f | f in history && f.TurnFact? && f.key.session == s ensures f.key.id < Next(counters, s) {
      var j :| 0 <= j < |history| && history[j] == f;
      assert all[j] == f && SessionOf(all[j]) == s;
    }
  }

  lemma RefreshedCounter(st: State, p: string, s: string, stale: bool)
    requires st.txn.Some?
    ensures Next(st.txn.value.counters, s) <= Next(Refreshed(st, p, s, stale).txn.value.counters, s)
    ensures forall i | i in Ids(st.table, p, s) :: i < Next(Refreshed(st, p, s, stale).txn.value.counters, s)
  {
    BackfillReaches(st, p, s);
  }

  /** After a backfill the counter is above every id of the profile and session in the source. */
  lemma BackfilledCounter(st: State, p: string, s: string, stale: bool, b: int)
    requires Inv(st) && st.backend.Jsonl? && st.txn.Some?
    requires b in Ids(Source(st), p, s)
    ensures b < Next(Refreshed(st, p, s, stale).txn.value.counters, s)
  {
    var t := st.txn.value;
    RefreshedCounter(st, p, s, stale);
    var f :| f in Of(Source(st), p, s) && f.key.id == b;
    if f in Committed(st) {
      CommittedIdsBelow(st.history, Added(t.added), t.counters, st.legacy, s);
    } else {
      assert f in Of(st.table, p, s) && b in Ids(st.table, p, s);
    }
  }

  lemma RefreshedFreeOid(st: State, p: string, s: string, stale: bool, oid: int)
    requires FreeOid(st, oid)
    ensures FreeOid(Refreshed(st, p, s, stale), oid) && Refreshed(st, p, s, stale).backend == st.backend
  {
  }

  lemma PruneConsistent(facts: set<Fact>, f: Fact)
    requires Consistent(facts) && f.PruneFact?
    ensures Consistent(facts + OnlySaid({f}))
  {
  }

  lemma EnqueuePruneJsonlInv(st: State, p: string, s: string, b: int, oid: int)
    requires Inv(st) && st.backend.Jsonl? && FreeOid(st, oid)
    requires b in Ids(Source(st), p, s) && b < Next(st.txn.value.counters, s)
    ensures Inv(Enqueued(st, PruneFact(p, s, b), oid, st.txn.value.counters, st.txn.value.table))
  {
    var t := st.txn.value;
    var f := PruneFact(p, s, b);
    assert Ordered(st.history + Added(t.added), t.counters, st.legacy) && Consistent(Source(st) + AddedFacts(t));
    OrderedAppend(st.history + Added(t.added), f, t.counters, st.legacy);
    PruneConsistent(Source(st) + AddedFacts(t), f);
    EnqueueInv(st, f, oid, t.counters, t.table);
  }

  lemma PruneJsonlInv(st: State, p: string, s: string, maxId: int, limit: Option<int>, stale: bool, oid: int)
    requires Inv(st) && st.backend.Jsonl? && FreeOid(st, oid)
    ensures Inv(DoPrune(st, p, s, maxId, limit, stale, oid))
  {
    hide Inv, Refreshed, Visible, Selected;
    if maxId >= 1 {
      RefreshedFreeOid(st, p, s, stale, oid);
      var st1 := Refreshed(st, p, s, stale);
      RefreshedInv(st, p, s, stale);
      var sel := Selected(Shown(st, p, s, stale), maxId, limit);
      if sel != {} {
        var b := MaxId(sel);
        SelectedIsEligible(Shown(st, p, s, stale), maxId, limit);
        VisibleIdsAreSourceIds(st1, p, s);
        BackfilledCounter(st, p, s, stale, b);
        EnqueuePruneJsonlInv(st1, p, s, b, oid);
      }
    }
  }

  lemma SelectedIsEligible(ids: set<int>, maxId: int, limit: Option<int>)
    ensures Selected(ids, maxId, limit) <= UpTo(ids, maxId)
  {
  }

  // ----- dual mode -----

  /** A create keeps table and mirror equal, whatever the transaction did before. */
  lemma CreateDualInv(st: State, id: int, p: string, s: string, content: Content, oid: int)
    requires Inv(st) && Enabled(st, CreateDual(id, p, s, content, oid))
    ensures Inv(DoCreateDual(st, id, p, s, content, oid))
  {
    var t := st.txn.value;
    var f := TurnFact(Key(p, s, id), content);
    var all := Source(st) + AddedFacts(t);
    assert OnlySaid({f}) == {f};
    assert !Hidden(all, f.key) by {
      forall b | PruneFact(p, s, b) in all ensures b < id {
        var g :| g in Of(Source(st), p, s) && g.key.id == b;
      }
    }
    assert t.table + {f} == Visible(all + {f}) by { SamePrunesSameHidden(all, all + {f}); }
    NewKeyConsistent(all, f);
    EnqueueInv(st, f, oid, Ensure(t.counters, s, id + 1), t.table + {f});
  }

  /** Comparing the table of the transaction with what the mirror shows: rows the mirror still shows
      though the table lost them come before, rows it does not show yet after all others. */
  ghost predicate Staggered(shown: set<int>, table: set<int>) {
    && (forall x, y | x in shown && x !in table && y in table :: x < y)
    && (forall x, y | x in shown && y in table && y !in shown :: x < y)
  }

  lemma ShownAndTable(st: State, p: string, s: string, stale: bool)
    requires Inv(st) && st.backend.Dual? && st.txn.Some?
    ensures Staggered(Shown(st, p, s, stale), Ids(st.txn.value.table, p, s))
    ensures forall i | i in Ids(st.txn.value.table, p, s) :: i in Shown(st, p, s, stale) <==> i in Ids(st.table, p, s)
    ensures Shown(st, p, s, stale) <= Ids(Source(st), p, s)
  {
    var st1 := Refreshed(st, p, s, stale);
    var disk, t := st1.disk, st.txn.value;
    assert disk <= Source(st) && Of(st.table, p, s) <= disk by {
      RefreshedInv(st, p, s, stale);
      BackfillReaches(st, p, s);
    }
    VisibleIdsAreSourceIds(st1, p, s) by { RefreshedInv(st, p, s, stale); }
    assert Source(st1) == Source(st) by { RefreshedSource(st, p, s, stale); }
    hide Refreshed, DoBackfill, DoDrainSession;
    forall f | f in Of(t.table, p, s) ensures f.key.id in Shown(st, p, s, stale) <==> f.key.id in Ids(st.table, p, s) {
      TableRowShown(st, disk, p, s, f);
    }
    forall e, f | e in Of(Visible(disk), p, s) && f in Of(t.table, p, s) ensures e in t.table || e.key.id < f.key.id {
      HiddenComesFirst(Source(st) + AddedFacts(t), e, f);
    }
    forall e, f | e in Of(Visible(disk), p, s) && f in Of(t.table, p, s) && f !in Visible(disk) ensures e.key.id < f.key.id {
      TableRowShown(st, disk, p, s, f);
    }
    StaggeredFacts(Visible(disk), t.table, Source(st) + AddedFacts(t), p, s);
  }

  lemma StaggeredFacts(shown: set<Fact>, table: set<Fact>, all: set<Fact>, p: string, s: string)
    requires Consistent(all) && shown <= all && table <= all
    requires forall e, f | e in Of(shown, p, s) && f in Of(table, p, s) :: e in table || e.key.id < f.key.id
    requires forall e, f | e in Of(shown, p, s) && f in Of(table, p, s) && f !in shown :: e.key.id < f.key.id
    ensures Staggered(Ids(shown, p, s), Ids(table, p, s))
  {
    forall x, y | x in Ids(shown, p, s) && y in Ids(table, p, s) && (x !in Ids(table, p, s) || y !in Ids(shown, p, s)) ensures x < y {
      var e :| e in Of(shown, p, s) && e.key.id == x;
      var f :| f in Of(table, p, s) && f.key.id == y;
      if e in table { assert e in Of(table, p, s); }
      if f in shown { assert f in Of(shown, p, s); }
    }
  }

  /** A row of the transaction's table is on disk and shown exactly when it was committed; if it was not,
      it is newer than everything committed. */
  lemma TableRowShown(st: State, disk: set<Fact>, p: string, s: string, f: Fact)
    requires Inv(st) && st.backend.Dual? && st.txn.Some?
    requires disk <= Source(st) && Of(st.table, p, s) <= disk && f in Of(st.txn.value.table, p, s)
    ensures f in Visible(disk) <==> f in st.table
    ensures f.key.id in Ids(Visible(disk), p, s) <==> f.key.id in Ids(st.table, p, s)
    ensures f !in st.table ==> forall e | e in Of(Source(st), p, s) :: e.key.id < f.key.id
  {
    var all := Source(st) + AddedFacts(st.txn.value);
    assert f in all && !Hidden(all, f.key);
    FewerPrunesHideLess(Source(st), all, f.key);
    FewerPrunesHideLess(disk, all, f.key);
    if f in Source(st) {
      assert f in Of(st.table, p, s);
      assert f in Of(Visible(disk), p, s);
    } else {
      assert f in AddedFacts(st.txn.value);
      forall i | i in Ids(Visible(disk), p, s) + Ids(st.table, p, s) ensures i < f.key.id {
        var g :| g in Source(st) && g.TurnFact? && g.key.id == i;
      }
    }
  }

  lemma FewerPrunesHideLess(a: set<Fact>, b: set<Fact>, k: Key)
    requires a <= b
    ensures Hidden(a, k) ==> Hidden(b, k)
  {
    if Hidden(a, k) && k.id > 0 {
      var c :| PruneFact(k.profile, k.session, c) in a && k.id <= c;
      assert PruneFact(k.profile, k.session, c) in b;
    }
  }

  /** A turn that is hidden lies below every turn of its profile and session that is not. */
  lemma HiddenComesFirst(all: set<Fact>, e: Fact, f: Fact)
    requires e in all && f in Visible(all) && e.TurnFact? && f.TurnFact?
    requires e.key.profile == f.key.profile && e.key.session == f.key.session && e.key.id > 0
    ensures e in Visible(all) || e.key.id < f.key.id
  {
    if Hidden(all, e.key) {
      var b :| PruneFact(e.key.profile, e.key.session, b) in all && e.key.id <= b;
      assert PruneFact(f.key.profile, f.key.session, b) in all;
    }
  }

  /** On ids: the mirror's boundary removes what the table deleted if and only if every deleted id is
      shown and nothing is shown that the table lost; and then the mirror selects the deleted ids. */
  lemma SelectionAgreesIff(shown: set<int>, table: set<int>, maxId: int, limit: Option<int>)
    requires Staggered(shown, table) && Selected(table, maxId, limit) != {}
    ensures var deleted := Selected(table, maxId, limit);
            var selected := Selected(shown, maxId, Some(|deleted|));
            && ((selected != {} && UpTo(table, MaxId(selected)) == deleted) <==> (deleted <= shown && shown <= table))
            && (deleted <= shown && shown <= table ==> selected == deleted)
  {
    var deleted := Selected(table, maxId, limit);
    var n := |deleted|;
    var selected := Selected(shown, maxId, Some(n));
    var q := Quota(UpTo(table, maxId), limit);
    FirstIdsAreBelow(UpTo(table, maxId), q, deleted);
    BoundaryIsExact(table, maxId, q, deleted);
    if deleted <= shown && shown <= table {
      forall x, y | x in deleted && y in UpTo(shown, maxId) - deleted ensures LexLess(Increasing(x), Increasing(y)) {
        assert y in UpTo(table, maxId);
      }
      SubsetSize(deleted, UpTo(shown, maxId));
      FirstUnique(UpTo(shown, maxId), Increasing, n, deleted, selected);
    }
    if selected != {} && UpTo(table, MaxId(selected)) == deleted {
      BoundaryIsExact(shown, maxId, n, selected);
      DeletedIsSelected(shown, table, MaxId(selected), deleted, selected);
      var any := Any(deleted);
      assert any in UpTo(table, MaxId(selected));
      forall x | x in shown ensures x in table {
        assert x in selected <==> x <= MaxId(selected);
      }
    }
  }

  lemma DeletedIsSelected(shown: set<int>, table: set<int>, b: int, deleted: set<int>, selected: set<int>)
    requires Staggered(shown, table) && b in shown && deleted == UpTo(table, b) && selected == UpTo(shown, b)
    requires |selected| <= |deleted|
    ensures deleted == selected
  {
    forall y | y in deleted ensures y in selected {
      if y !in shown { assert b < y; }
    }
    SubsetSize(deleted, selected);
  }

  /** Deleting rows equals adding a boundary if and only if the boundary covers exactly the deleted ids. */
  lemma TableAfterPruneIff(source: set<Fact>, table: set<Fact>, p: string, s: string, b: int, deleted: set<int>)
    requires table == Visible(source) && deleted <= Ids(table, p, s)
    ensures Without(table, p, s, deleted) == Visible(source + {PruneFact(p, s, b)}) <==> UpTo(Ids(table, p, s), b) == deleted
  {
    PruneRemovesExactly(source, p, s, b);
    var pruned := set f | f in table && !(f.key.profile == p && f.key.session == s && f.key.id <= b);
    assert pruned == Visible(source + {PruneFact(p, s, b)});
    if UpTo(Ids(table, p, s), b) == deleted {
      forall f | f in table ensures f in Without(table, p, s, deleted) <==> f in pruned {
        if f in Of(table, p, s) { assert f.key.id in Ids(table, p, s); }
      }
    } else {
      var i :| i in Ids(table, p, s) && (i in deleted <==> i > b);
      var f :| f in Of(table, p, s) && f.key.id == i;
      assert f in Without(table, p, s, deleted) <==> f !in pruned;
    }
  }

  /** Deleting the selected rows leaves the table equal to the view with the boundary added. */
  lemma TableAfterPrune(source: set<Fact>, table: set<Fact>, p: string, s: string, maxId: int, n: nat, deleted: set<int>)
    requires table == Visible(source)
    requires IsFirst(UpTo(Ids(table, p, s), maxId), Increasing, n, deleted) && deleted != {}
    ensures Without(table, p, s, deleted) == Visible(source + {PruneFact(p, s, MaxId(deleted))})
  {
    BoundaryIsExact(Ids(table, p, s), maxId, n, deleted);
    TableAfterPruneIff(source, table, p, s, MaxId(deleted), deleted);
  }

  /** The ids the mirror selects when the table deleted some. */
  ghost function MirrorSelected(st: State, p: string, s: string, maxId: int, limit: Option<int>, stale: bool): set<int>
    requires st.txn.Some?
  {
    Selected(Shown(st, p, s, stale), maxId, Some(|Deleted(st.txn.value.table, p, s, maxId, limit)|))
  }

  ghost function WithTable(st: State, table: set<Fact>): State
    requires st.txn.Some?
  {
    st.(txn := Some(st.txn.value.(table := table)))
  }

  /** What the open transaction did to the table does not change what the mirror reads or prunes: the peer
      session and the file see committed rows only. */
  lemma PruneIgnoresTransactionTable(st: State, p: string, s: string, maxId: int, limit: Option<int>, stale: bool, oid: int,
                                     table: set<Fact>)
    requires st.txn.Some?
    ensures Refreshed(st, p, s, stale).txn.Some? && DoPrune(st, p, s, maxId, limit, stale, oid).txn.Some?
    ensures Refreshed(WithTable(st, table), p, s, stale) == WithTable(Refreshed(st, p, s, stale), table)
    ensures DoPrune(WithTable(st, table), p, s, maxId, limit, stale, oid) == WithTable(DoPrune(st, p, s, maxId, limit, stale, oid), table)
  {
    hide Selected, Visible, MaxId, Ids, UpTo;
  }

  /** A dual-mode prune, step by step. */
  lemma DualPruneStep(st: State, p: string, s: string, maxId: int, limit: Option<int>, stale: bool, oid: int)
    requires st.txn.Some? && Deleted(st.txn.value.table, p, s, maxId, limit) != {}
    ensures Refreshed(st, p, s, stale).txn.Some?
    ensures var st1 := Refreshed(st, p, s, stale);
            var rest := Without(st.txn.value.table, p, s, Deleted(st.txn.value.table, p, s, maxId, limit));
            var selected := MirrorSelected(st, p, s, maxId, limit, stale);
            DoPruneDual(st, p, s, maxId, limit, stale, oid) ==
            if selected == {} then WithTable(st1, rest)
            else Enqueued(st1, PruneFact(p, s, MaxId(selected)), oid, st1.txn.value.counters, rest)
  {
    var rest := Without(st.txn.value.table, p, s, Deleted(st.txn.value.table, p, s, maxId, limit));
    assert maxId >= 1;
    PruneIgnoresTransactionTable(st, p, s, maxId, Some(|Deleted(st.txn.value.table, p, s, maxId, limit)|), stale, oid, rest);
    hide Selected, Without, Visible, MaxId, Refreshed, Deleted;
  }

  /** Exactly when a dual-mode prune keeps table and mirror equal, in terms of the mirror's selection. */
  lemma PruneDualKeepsInvIff(st: State, p: string, s: string, maxId: int, limit: Option<int>, stale: bool, oid: int)
    requires Inv(st) && st.backend.Dual? && FreeOid(st, oid)
    ensures var table := st.txn.value.table;
            var deleted := Deleted(table, p, s, maxId, limit);
            var selected := MirrorSelected(st, p, s, maxId, limit, stale);
            Inv(DoPruneDual(st, p, s, maxId, limit, stale, oid)) <==>
              deleted == {} || (s != "" && selected != {} && UpTo(Ids(table, p, s), MaxId(selected)) == deleted)
  {
    var t := st.txn.value;
    var deleted := Deleted(t.table, p, s, maxId, limit);
    if deleted == {} {
      assert Without(t.table, p, s, deleted) == t.table;
      assert DoPruneDual(st, p, s, maxId, limit, stale, oid) == st;
    } else {
      assert Inv(Refreshed(st, p, s, stale)) && Source(Refreshed(st, p, s, stale)) == Source(st) by { RefreshedInv(st, p, s, stale); }
      RefreshedSource(st, p, s, stale);
      RefreshedFreeOid(st, p, s, stale, oid);
      DualPruneStep(st, p, s, maxId, limit, stale, oid);
      ShownAndTable(st, p, s, stale);
      DeletedAreRows(t.table, p, s, maxId, limit);
      var selected := MirrorSelected(st, p, s, maxId, limit, stale);
      SelectedIsEligible(Shown(st, p, s, stale), maxId, Some(|deleted|));
      hide Refreshed, Deleted, DoPruneDual, MirrorSelected, Shown;
      EnqueueDualPruneIff(Refreshed(st, p, s, stale), p, s, selected, deleted, oid);
    }
  }

  lemma DeletedAreRows(table: set<Fact>, p: string, s: string, maxId: int, limit: Option<int>)
    ensures Deleted(table, p, s, maxId, limit) <= Ids(table, p, s)
  {
  }

  /** The last step of a dual-mode prune. */
  lemma EnqueueDualPruneIff(st: State, p: string, s: string, selected: set<int>, deleted: set<int>, oid: int)
    requires Inv(st) && st.backend.Dual? && FreeOid(st, oid)
    requires deleted != {} && deleted <= Ids(st.txn.value.table, p, s) && selected <= Ids(Source(st), p, s)
    ensures var t := st.txn.value;
            var rest := Without(t.table, p, s, deleted);
            var after := if selected == {} then WithTable(st, rest)
                         else Enqueued(st, PruneFact(p, s, MaxId(selected)), oid, t.counters, rest);
            Inv(after) <==> (s != "" && selected != {} && UpTo(Ids(t.table, p, s), MaxId(selected)) == deleted)
  {
    var t := st.txn.value;
    var rest := Without(t.table, p, s, deleted);
    var all := Source(st) + AddedFacts(t);
    assert rest != t.table by {
      var f :| f in Of(t.table, p, s) && f.key.id in deleted;
      assert f !in rest;
    }
    if selected == {} {
      assert Source(WithTable(st, rest)) + AddedFacts(t) == all by { assert Committed(WithTable(st, rest)) == Committed(st); }
    } else {
      var f := PruneFact(p, s, MaxId(selected));
      var after := Enqueued(st, f, oid, t.counters, rest);
      EnqueuedFacts(st, f, oid, t.counters, rest);
      assert OnlySaid({f}) == if s != "" then {f} else {};
      assert all + {} == all;
      TableAfterPruneIff(all, t.table, p, s, MaxId(selected), deleted);
      if rest == Visible(all + OnlySaid({f})) {
        PruneConsistent(all, f);
        EnqueueInv(st, f, oid, t.counters, rest);
      }
    }
  }

  /** Exactly when, in terms a caller can check beforehand. */
  lemma PruneDualAgreesIff(st: State, p: string, s: string, maxId: int, limit: Option<int>, stale: bool, oid: int)
    requires Inv(st) && st.backend.Dual? && FreeOid(st, oid)
    ensures Inv(DoPruneDual(st, p, s, maxId, limit, stale, oid)) <==> PruneAgrees(st, p, s, maxId, limit, stale)
    ensures RowsAgree(st, p, s, maxId, limit, stale) && Deleted(st.txn.value.table, p, s, maxId, limit) != {} ==>
              MirrorSelected(st, p, s, maxId, limit, stale) == Deleted(st.txn.value.table, p, s, maxId, limit)
  {
    var t := st.txn.value;
    var deleted := Deleted(t.table, p, s, maxId, limit);
    PruneDualKeepsInvIff(st, p, s, maxId, limit, stale, oid);
    ShownAndTable(st, p, s, stale);
    DeletedAreRows(t.table, p, s, maxId, limit);
    hide Inv, DoPruneDual, Shown;
    if deleted != {} { SelectionAgreesIff(Shown(st, p, s, stale), Ids(t.table, p, s), maxId, limit); }
  }

  lemma PruneDualInv(st: State, p: string, s: string, maxId: int, limit: Option<int>, stale: bool, oid: int)
    requires Inv(st) && Enabled(st, PruneDual(p, s, maxId, limit, stale, oid))
    ensures Inv(DoPruneDual(st, p, s, maxId, limit, stale, oid))
  {
    hide Inv, DoPruneDual;
    PruneDualAgreesIff(st, p, s, maxId, limit, stale, oid);
  }

  // ----- ending a transaction -----

  lemma {:induction false} AddedRowsHold(added: seq<Entry>)
    requires forall i, j | 0 <= i < j < |added| :: added[i].oid != added[j].oid
    ensures AddedRows(added).Keys == AddedOids(added)
    ensures forall i | 0 <= i < |added| :: added[i].oid in AddedRows(added) && AddedRows(added)[added[i].oid] == added[i].fact
    ensures forall f | f in AddedRows(added).Values :: f in Added(added)
    decreases |added|
  {
    if added != [] {
      var prefix, e := added[..|added| - 1], added[|added| - 1];
      AddedRowsHold(prefix);
      AddedAppend(prefix, e);
      assert added == prefix + [e];
    }
  }

  lemma CommitSource(st: State)
    requires st.txn.Some?
    ensures Committed(DoCommit(st)) == Committed(st) + AddedFacts(st.txn.value)
    ensures Source(DoCommit(st)) == Source(st) + AddedFacts(st.txn.value)
  {
  }

  lemma CommitDelivers(st: State)
    requires Durable(st) && TxnInv(st) && st.txn.Some?
    ensures Committed(DoCommit(st)) <= DoCommit(st).disk + DoCommit(st).outbox.Values
  {
    var t := st.txn.value;
    var st' := DoCommit(st);
    AddedRowsHold(t.added);
    CommitSource(st);
    forall f | f in Committed(st') ensures f in st'.disk + st'.outbox.Values {
      if f in AddedFacts(t) {
        var i :| 0 <= i < |Added(t.added)| && Added(t.added)[i] == f;
        assert st'.outbox[t.added[i].oid] == f;
      } else if f !in st.disk {
        var oid := SomeKey(st.outbox, f);
        assert oid !in AddedOids(t.added);
        assert st'.outbox[oid] == f;
      }
    }
  }

  lemma CommitOutbox(st: State)
    requires Durable(st) && TxnInv(st) && st.txn.Some?
    ensures OnlySaid(DoCommit(st).outbox.Values) <= Committed(DoCommit(st))
  {
    var st' := DoCommit(st);
    AddedRowsHold(st.txn.value.added);
    CommitSource(st);
    forall f | f in st'.outbox.Values && Said(f) ensures f in Committed(st') {
      var oid := SomeKey(st'.outbox, f);
      if oid in AddedRows(st.txn.value.added) {
        assert f in AddedRows(st.txn.value.added).Values;
      } else {
        assert f in st.outbox.Values;
      }
    }
  }

  lemma MoreIds(prunes: set<Fact>, a: set<Fact>, b: set<Fact>)
    requires PrunesAreIds(prunes, a) && a <= b
    ensures PrunesAreIds(prunes, b)
  {
    forall f | f in prunes && f.PruneFact? ensures f.boundary in Ids(b, f.profile, f.session) {
      var g :| g in Of(a, f.profile, f.session) && g.key.id == f.boundary;
      assert g in Of(b, f.profile, f.session);
    }
  }

  lemma CommitDurable(st: State)
    requires Durable(st) && TxnInv(st) && st.txn.Some?
    requires st.txn.value.table <= Source(st) + AddedFacts(st.txn.value)
    ensures Durable(DoCommit(st))
  {
    var st' := DoCommit(st);
    CommitSource(st);
    CommitDelivers(st);
    CommitOutbox(st);
    MoreIds(Committed(st), Source(st), Source(st'));
    MoreIds(AddedFacts(st.txn.value), Source(st), Source(st'));
    forall f | f in st'.callbacks && Said(f) ensures f in Committed(st') {
      if f !in st.callbacks { assert f in Added(st.txn.value.added); }
    }
  }

  lemma CommitInv(st: State)
    requires Inv(st) && st.txn.Some?
    ensures Inv(DoCommit(st))
  {
    CommitDurable(st) by { assert st.table <= Source(st); }
    CommitSource(st);
  }

  lemma DropTxnInv(st: State, callbacks: multiset<Fact>)
    requires Inv(st) && callbacks <= st.callbacks
    ensures Inv(st.(txn := None, callbacks := callbacks))
  {
    var st' := st.(txn := None, callbacks := callbacks);
    assert Committed(st') == Committed(st) && Source(st') == Source(st);
    assert Durable(st');
  }

  lemma CallbackInv(st: State, f: Fact, ok: bool)
    requires Inv(st) && f in st.callbacks
    ensures Inv(Do(st, Callback(f, ok)))
  {
    var st' := Do(st, Callback(f, ok));
    assert Committed(st') == Committed(st) && Source(st') == Source(st);
    assert Durable(st');
  }

  lemma StepInv(st: State, step: Step)
    requires Inv(st) && Enabled(st, step)
    ensures Inv(Do(st, step))
  {
    hide Inv;
    match step
    case Begin => BeginInv(st);
    case CreateJsonl(p, s, c, oid) => CreateJsonlInv(st, p, s, c, oid);
    case CreateDual(id, p, s, c, oid) => CreateDualInv(st, id, p, s, c, oid);
    case PruneJsonl(p, s, m, l, stale, oid) => PruneJsonlInv(st, p, s, m, l, stale, oid);
    case PruneDual(p, s, m, l, stale, oid) => PruneDualInv(st, p, s, m, l, stale, oid);
    case BackfillRows(p, s) => BackfillInv(st, p, s);
    case AppendRow(row) => AppendRowInv(st, row);
    case DrainRow(oid) => DrainRowInv(st, oid);
    case Commit => CommitInv(st);
    case Rollback => DropTxnInv(st, st.callbacks);
    case Callback(f, ok) => CallbackInv(st, f, ok);
    case Crash => DropTxnInv(st, multiset{});
  }

  /** The invariant holds after every run of every length, in either mode. */
  lemma {:induction false} RunInv(st: State, steps: seq<Step>)
    requires Inv(st)
    ensures Inv(Run(st, steps))
    decreases |steps|
  {
    if steps != [] {
      var prefix, step := steps[..|steps| - 1], steps[|steps| - 1];
      RunInv(st, prefix);
      var before := Run(st, prefix);
      if Enabled(before, step) { StepInv(before, step); }
    }
  }
}
