/** The outbox protocol of the run event store: events are enqueued in a transaction, appended to their
    session's file by callbacks that may fail and by drains that may crash, and each append may stop before the
    run index is written. */
module RunlogMachine {
  import opened Ordering
  import opened RunlogEvents
  import TranscriptMachine
  import PythonText

  datatype Entry = Entry(oid: int, event: Event)

  datatype Txn = Txn(counters: map<string, int>, added: seq<Entry>, removed: set<int>)

  datatype State = State(
    table: set<Event>,           // committed rows of the event table
    counters: map<string, int>,
    outbox: map<int, Event>,
    files: Files,
    index: map<int, string>,
    history: set<Event>,         // committed events
    callbacks: set<Event>,       // after-commit callbacks that have not run yet
    txn: Option<Txn>)

  datatype Step =
    | Begin
    | Create(run: int, session: string, body: string, oid: int)
    | AppendRow(row: Event, crash: bool)
    | Raise(session: string, atLeast: int)
    | DrainRow(oid: int, crash: bool)
    | Commit
    | Rollback
    | Callback(event: Event, succeeds: bool, crash: bool)
    | Crash

  function AddedEvents(t: Txn): set<Event> { set i | 0 <= i < |t.added| :: t.added[i].event }

  function AddedOids(t: Txn): set<int> { set i | 0 <= i < |t.added| :: t.added[i].oid }

  /** Everything that is or may become part of a file. */
  function Known(st: State): set<Event> {
    st.table + st.history + (if st.txn.Some? then AddedEvents(st.txn.value) else {})
  }

  function SessionEventIds(events: set<Event>, session: string): set<int> {
    set e | e in events && e.session == session :: e.id
  }

  /** The id `_create_event` allocates: above the counter, the table and the file. */
  ghost function Allocated(st: State, session: string): int
    requires st.txn.Some?
  {
    Max(TranscriptMachine.Next(st.txn.value.counters, session),
        Max(1, Max(MaxId(SessionEventIds(st.table, session)) + 1, MaxId(SessionEventIds(AllEvents(st.files), session)) + 1)))
  }

  predicate FreeOid(st: State, oid: int) {
    st.txn.Some? && oid !in st.outbox.Keys - st.txn.value.removed && oid !in AddedOids(st.txn.value)
  }

  ghost predicate Enabled(st: State, step: Step) {
    match step
    case Begin => st.txn.None?
    // a run lives in one session
    case Create(run, session, _, oid) => FreeOid(st, oid) && forall e | e in Known(st) && e.run == run :: e.session == session
    case AppendRow(row, _) => row in st.table
    case Raise(_, _) => st.txn.Some?
    case DrainRow(oid, _) => st.txn.Some? && oid in st.outbox
    case Commit => st.txn.Some?
    case Rollback => st.txn.Some?
    case Callback(e, _, _) => e in st.callbacks
    case Crash => true
  }

  /** One append: the line unless it is there, then the run index unless the process stops in between. */
  function Append(st: State, e: Event, crash: bool): State {
    st.(files := st.files[e.session := Appended(FileOf(st.files, e.session), e)],
        index := if crash then st.index else st.index[e.run := e.session])
  }

  function Rows(added: seq<Entry>): map<int, Event> {
    if added == [] then map[]
    else Rows(added[..|added| - 1])[added[|added| - 1].oid := added[|added| - 1].event]
  }

  ghost function Do(st: State, step: Step): State
    requires Enabled(st, step)
  {
    match step
    case Begin => st.(txn := Some(Txn(st.counters, [], {})))
    case Create(run, session, body, oid) =>
      var id, t := Allocated(st, session), st.txn.value;
      st.(txn := Some(Txn(t.counters[session := id + 1], t.added + [Entry(oid, Event(id, run, session, body))], t.removed)))
    case AppendRow(row, crash) => Append(st, row, crash)
    case Raise(session, atLeast) =>
      st.(txn := Some(st.txn.value.(counters := TranscriptMachine.Ensure(st.txn.value.counters, session, atLeast))))
    case DrainRow(oid, crash) =>
      Append(st, st.outbox[oid], crash).(txn := Some(st.txn.value.(removed := st.txn.value.removed + {oid})))
    case Commit =>
      var t := st.txn.value;
      st.(counters := t.counters, history := st.history + AddedEvents(t), callbacks := st.callbacks + AddedEvents(t),
          outbox := (map oid | oid in st.outbox && oid !in t.removed :: st.outbox[oid]) + Rows(t.added), txn := None)
    case Rollback => st.(txn := None)
    case Callback(e, succeeds, crash) => (if succeeds then Append(st, e, crash) else st).(callbacks := st.callbacks - {e})
    case Crash => st.(txn := None, callbacks := {})
  }

  // ----- the invariant -----

  /** Created events lie below their session's counter. */
  ghost predicate BelowCounter(events: set<Event>, counters: map<string, int>) {
    forall e | e in events :: e.id < TranscriptMachine.Next(counters, e.session)
  }

  /** Files and index are sound and say what was committed only. */
  ghost predicate OnFiles(st: State) {
    FilesInv(st.files) && IndexInv(st.files, st.index) && AllEvents(st.files) <= st.table + st.history
  }

  /** Committed events are on file or in the outbox. */
  ghost predicate Durable(st: State) {
    && st.history <= AllEvents(st.files) + st.outbox.Values
    && st.outbox.Values <= st.history && st.callbacks <= st.history
    && BelowCounter(st.history, st.counters)
  }

  ghost predicate TxnInv(st: State) {
    match st.txn
    case None => true
    case Some(t) =>
      && (forall oid | oid in t.removed :: oid in st.outbox && st.outbox[oid] in AllEvents(st.files))
      && AddedOids(t) !! (st.outbox.Keys - t.removed)
      && (forall i, j | 0 <= i < j < |t.added| :: t.added[i].oid != t.added[j].oid)
      && BelowCounter(st.history + AddedEvents(t), t.counters)
  }

  ghost predicate Inv(st: State) { OnFiles(st) && Durable(st) && TxnInv(st) && Compatible(Known(st)) }

  lemma AppendInv(st: State, e: Event, crash: bool)
    requires Inv(st) && e in st.table + st.history
    ensures Inv(Append(st, e, crash)) && AllEvents(Append(st, e, crash).files) == AllEvents(st.files) + {e}
  {
    SubsetCompatible(AllEvents(st.files) + {e}, Known(st));
    hide FilesInv, IndexInv, AllEvents, Compatible, Appended, FileOf, AddedEvents, AddedOids;
    AppendFacts(st.files, e) by { assert Fits(st.files, e); }
    FitsAtHome(st.files, e);
    AppendKeepsIndex(st.files, e, st.index);
    AppendedKeepsRest(st, Append(st, e, crash));
  }

  lemma AppendedKeepsRest(st: State, after: State)
    requires Inv(st) && after == st.(files := after.files, index := after.index) && AllEvents(st.files) <= AllEvents(after.files)
    ensures Durable(after) && TxnInv(after) && Known(after) == Known(st)
  {
    hide FilesInv, IndexInv, AllEvents, Compatible, AddedEvents, AddedOids;
  }

  lemma AllocatedIsNew(st: State, session: string)
    requires Inv(st) && st.txn.Some?
    ensures TranscriptMachine.Next(st.txn.value.counters, session) <= Allocated(st, session)
    ensures forall e | e in Known(st) && e.session == session :: e.id < Allocated(st, session)
  {
    hide FilesInv, IndexInv, AllEvents, Compatible, MaxId;
    forall e | e in Known(st) && e.session == session ensures e.id < Allocated(st, session) {
      if e in st.table { assert e.id in SessionEventIds(st.table, session); }
    }
  }

  lemma CreateInv(st: State, run: int, session: string, body: string, oid: int)
    requires Inv(st) && Enabled(st, Create(run, session, body, oid))
    ensures Inv(Do(st, Create(run, session, body, oid)))
  {
    hide OnFiles, Durable, TxnInv, Allocated, Compatible;
    var id, t := Allocated(st, session), st.txn.value;
    var e := Event(id, run, session, body);
    var after := Do(st, Create(run, session, body, oid));
    AllocatedIsNew(st, session);
    OneMoreEntry(t, Entry(oid, e), after.txn.value);
    assert Known(after) == Known(st) + {e};
    NewEventCompatible(Known(st), e);
    SameCommitted(st, after);
    CreateTxnInv(st, Entry(oid, e), t.counters[session := id + 1]);
  }

  lemma SameCommitted(st: State, after: State)
    requires OnFiles(st) && Durable(st) && after == st.(txn := after.txn)
    ensures OnFiles(after) && Durable(after)
  {
  }

  lemma CreateTxnInv(st: State, entry: Entry, counters: map<string, int>)
    requires TxnInv(st) && FreeOid(st, entry.oid)
    requires TranscriptMachine.Next(st.txn.value.counters, entry.event.session) <= entry.event.id
    requires counters == st.txn.value.counters[entry.event.session := entry.event.id + 1]
    ensures TxnInv(st.(txn := Some(Txn(counters, st.txn.value.added + [entry], st.txn.value.removed))))
  {
    var t := st.txn.value;
    OneMoreEntry(t, entry, Txn(counters, t.added + [entry], t.removed));
    hide AddedEvents, AddedOids, AllEvents;
    forall i | 0 <= i < |t.added| ensures t.added[i].oid != entry.oid { EntryOid(t, i); }
  }

  lemma EntryOid(t: Txn, i: nat)
    requires i < |t.added|
    ensures t.added[i].oid in AddedOids(t)
  {
  }

  lemma NewEventCompatible(events: set<Event>, e: Event)
    requires Compatible(events) && forall f | f in events && f.run == e.run :: f.session == e.session && f.id != e.id
    ensures Compatible(events + {e})
  {
  }

  lemma OneMoreEntry(t: Txn, entry: Entry, more: Txn)
    requires more.added == t.added + [entry]
    ensures AddedEvents(more) == AddedEvents(t) + {entry.event} && AddedOids(more) == AddedOids(t) + {entry.oid}
  {
    forall i | 0 <= i < |t.added| ensures more.added[i] == t.added[i] {}
    assert more.added[|t.added|] == entry;
    forall e | e in AddedEvents(t) + {entry.event} ensures e in AddedEvents(more) {
      if e in AddedEvents(t) {
        var i :| 0 <= i < |t.added| && t.added[i].event == e;
        assert more.added[i].event == e;
      }
    }
    forall oid | oid in AddedOids(t) + {entry.oid} ensures oid in AddedOids(more) {
      if oid in AddedOids(t) {
        var i :| 0 <= i < |t.added| && t.added[i].oid == oid;
        assert more.added[i].oid == oid;
      }
    }
  }

  lemma {:induction false} RowsHold(added: seq<Entry>)
    requires forall i, j | 0 <= i < j < |added| :: added[i].oid != added[j].oid
    ensures forall i | 0 <= i < |added| :: added[i].oid in Rows(added) && Rows(added)[added[i].oid] == added[i].event
    ensures forall oid | oid in Rows(added) :: exists i :: 0 <= i < |added| && added[i] == Entry(oid, Rows(added)[oid])
    decreases |added|
  {
    if added != [] {
      var prefix, last := added[..|added| - 1], added[|added| - 1];
      RowsHold(prefix);
      forall i | 0 <= i < |prefix| ensures added[i] == prefix[i] && added[i].oid != last.oid {}
      forall oid | oid in Rows(added) ensures exists i :: 0 <= i < |added| && added[i] == Entry(oid, Rows(added)[oid]) {
        if oid == last.oid {
          assert added[|added| - 1] == Entry(oid, Rows(added)[oid]);
        } else {
          var i :| 0 <= i < |prefix| && prefix[i] == Entry(oid, Rows(prefix)[oid]);
          assert added[i] == Entry(oid, Rows(added)[oid]);
        }
      }
    }
  }

  lemma CommitInv(st: State)
    requires Inv(st) && st.txn.Some?
    ensures Inv(Do(st, Commit))
  {
    CommitDelivers(st);
    CommitOutbox(st);
    assert Known(Do(st, Commit)) == Known(st);
    hide FilesInv, IndexInv, AllEvents, Compatible, Rows, Known;
  }

  lemma RowOids(t: Txn)
    requires forall i, j | 0 <= i < j < |t.added| :: t.added[i].oid != t.added[j].oid
    ensures forall oid | oid in Rows(t.added) :: oid in AddedOids(t) && Rows(t.added)[oid] in AddedEvents(t)
  {
    RowsHold(t.added);
    forall oid | oid in Rows(t.added) ensures oid in AddedOids(t) && Rows(t.added)[oid] in AddedEvents(t) {
      var i :| 0 <= i < |t.added| && t.added[i] == Entry(oid, Rows(t.added)[oid]);
      EntryOid(t, i);
    }
  }

  lemma CommitDelivers(st: State)
    requires Durable(st) && TxnInv(st) && st.txn.Some?
    ensures Do(st, Commit).history <= AllEvents(Do(st, Commit).files) + Do(st, Commit).outbox.Values
  {
    var t, after := st.txn.value, Do(st, Commit);
    RowsHold(t.added);
    RowOids(t);
    hide AllEvents, Rows;
    forall e | e in after.history ensures e in AllEvents(after.files) + after.outbox.Values {
      if e in AddedEvents(t) {
        var i :| 0 <= i < |t.added| && t.added[i].event == e;
        assert after.outbox[t.added[i].oid] == e;
      } else if e in st.outbox.Values {
        var oid := SomeKey(st.outbox, e);
        if oid !in t.removed {
          assert oid !in AddedOids(t);
          assert after.outbox[oid] == e;
        }
      }
    }
  }

  lemma CommitOutbox(st: State)
    requires Durable(st) && TxnInv(st) && st.txn.Some?
    ensures Do(st, Commit).outbox.Values <= Do(st, Commit).history
  {
    var t, after := st.txn.value, Do(st, Commit);
    RowOids(t);
    hide AllEvents, Rows, AddedEvents, AddedOids;
    forall e | e in after.outbox.Values ensures e in after.history {
      var oid := SomeKey(after.outbox, e);
      if oid !in Rows(t.added) { assert e in st.outbox.Values; }
    }
  }

  lemma StepInv(st: State, step: Step)
    requires Inv(st) && Enabled(st, step)
    ensures Inv(Do(st, step))
  {
    hide FilesInv, IndexInv, AllEvents, Compatible, Append, Allocated, Rows;
    match step
    case Begin => assert AddedEvents(Txn(st.counters, [], {})) == {} && Known(Do(st, Begin)) == Known(st) && st.history + {} == st.history;
    case Create(run, session, body, oid) => CreateInv(st, run, session, body, oid);
    case AppendRow(row, crash) => AppendInv(st, row, crash);
    case Raise(_, _) => assert Known(Do(st, step)) == Known(st);
    case DrainRow(oid, crash) => DrainRowInv(st, oid, crash);
    case Commit => CommitInv(st);
    case Rollback => SubsetCompatible(Known(Do(st, Rollback)), Known(st));
    case Callback(e, succeeds, crash) => CallbackInv(st, e, succeeds, crash);
    case Crash => SubsetCompatible(Known(Do(st, Crash)), Known(st));
  }

  lemma DrainRowInv(st: State, oid: int, crash: bool)
    requires Inv(st) && Enabled(st, DrainRow(oid, crash))
    ensures Inv(Do(st, DrainRow(oid, crash)))
  {
    hide Inv, Append;
    var e := st.outbox[oid];
    assert e in st.table + st.history by { OutboxIsCommitted(st, oid); }
    AppendInv(st, e, crash);
    AppendFrame(st, e, crash);
    RemoveInv(Append(st, e, crash), oid);
  }

  lemma OutboxIsCommitted(st: State, oid: int)
    requires Inv(st) && oid in st.outbox
    ensures st.outbox[oid] in st.history
  {
    assert st.outbox[oid] in st.outbox.Values;
  }

  lemma RemoveInv(st: State, oid: int)
    requires Inv(st) && st.txn.Some? && oid in st.outbox && st.outbox[oid] in AllEvents(st.files)
    ensures Inv(st.(txn := Some(st.txn.value.(removed := st.txn.value.removed + {oid}))))
  {
    var t := st.txn.value;
    var after := st.(txn := Some(t.(removed := t.removed + {oid})));
    assert AddedEvents(after.txn.value) == AddedEvents(t) && AddedOids(after.txn.value) == AddedOids(t);
    assert Known(after) == Known(st);
    hide FilesInv, IndexInv, AllEvents, Compatible, Known, AddedEvents, AddedOids;
  }

  lemma AppendFrame(st: State, e: Event, crash: bool)
    ensures Append(st, e, crash) == st.(files := Append(st, e, crash).files, index := Append(st, e, crash).index)
  {
  }

  lemma CallbackInv(st: State, e: Event, succeeds: bool, crash: bool)
    requires Inv(st) && e in st.callbacks
    ensures Inv(Do(st, Callback(e, succeeds, crash)))
  {
    hide FilesInv, IndexInv, AllEvents, Compatible, Append;
    AppendFrame(st, e, crash);
    if succeeds {
      AppendInv(st, e, crash);
      DropCallbackInv(Append(st, e, crash), e);
    } else {
      DropCallbackInv(st, e);
    }
  }

  lemma DropCallbackInv(st: State, e: Event)
    requires Inv(st)
    ensures Inv(st.(callbacks := st.callbacks - {e}))
  {
    assert Known(st.(callbacks := st.callbacks - {e})) == Known(st);
    hide FilesInv, IndexInv, AllEvents, Compatible, Known;
  }

  // ----- runs -----

  ghost function Run(st: State, steps: seq<Step>): State
    decreases |steps|
  {
    if steps == [] then st
    else
      var before, step := Run(st, steps[..|steps| - 1]), steps[|steps| - 1];
      if Enabled(before, step) then Do(before, step) else before
  }

  function Start(table: set<Event>): State { State(table, map[], map[], map[], map[], {}, {}, None) }

  lemma {:induction false} RunInv(st: State, steps: seq<Step>)
    requires Inv(st)
    ensures Inv(Run(st, steps)) && Run(st, steps).table == st.table
    decreases |steps|
  {
    hide Inv, Enabled;
    if steps != [] {
      var before, step := Run(st, steps[..|steps| - 1]), steps[|steps| - 1];
      RunInv(st, steps[..|steps| - 1]);
      if Enabled(before, step) {
        StepInv(before, step);
        StepKeepsTable(before, step);
      }
    }
  }

  lemma StepKeepsTable(st: State, step: Step)
    requires Enabled(st, step)
    ensures Do(st, step).table == st.table
  {
    hide Allocated, Appended, Rows, AddedEvents, FileOf;
  }

  lemma StartInv(table: set<Event>)
    requires Compatible(table)
    ensures Inv(Start(table))
  {
    assert AllEvents(map[]) == {} && Known(Start(table)) == table;
  }

  /** Exactly once, from at-least-once delivery: in every reachable state the files hold committed events and
      table rows only, no file holds an event twice, and once the outbox is empty and the table is backfilled
      they hold all of them. */
  lemma EventsExactlyOnce(table: set<Event>, steps: seq<Step>)
    requires Compatible(table)
    ensures var st := Run(Start(table), steps);
            && AllEvents(st.files) <= st.history + table
            && (forall s | s in st.files :: NoRepeats(EventsOf(st.files[s])))
            && (st.outbox == map[] && table <= AllEvents(st.files) ==> AllEvents(st.files) == st.history + table)
  {
    StartInv(table);
    RunInv(Start(table), steps);
  }

  /** In every reachable state, after every crash between an append and its index write, reading a run through
      the index finds what a scan finds, if the session recorded for it survives stripping. */
  lemma IndexStaysTrue(table: set<Event>, steps: seq<Step>, run: int)
    requires Compatible(table)
    ensures var st := Run(Start(table), steps);
            (run in st.index ==> PythonText.IsTrimmed(st.index[run])) ==>
              IndexedEvents(st.files, st.index, run) == RunEvents(st.files, run)
  {
    StartInv(table);
    RunInv(Start(table), steps);
    hide Run;
    IndexAgreesIff(Run(Start(table), steps).files, Run(Start(table), steps).index, run);
  }

  // ----- an event from creation to reading -----

  lemma RunMore(st: State, steps: seq<Step>, step: Step)
    requires Enabled(Run(st, steps), step)
    ensures Run(st, steps + [step]) == Do(Run(st, steps), step)
  {
    assert (steps + [step])[..|steps|] == steps;
  }

  /** Creating an event and committing it adds exactly one event to what is committed: of this run and session, with
      this body, and with an id above all the session has. */
  lemma CreatedEventIsCommitted(st: State, run: int, session: string, body: string, oid: int) returns (e: Event)
    requires Inv(st) && st.txn.None? && oid !in st.outbox && forall f | f in Known(st) && f.run == run :: f.session == session
    ensures e.run == run && e.session == session && e.body == body && forall f | f in Known(st) && f.session == session :: f.id < e.id
    ensures var after := Run(st, [Begin] + [Create(run, session, body, oid)] + [Commit]);
            && Inv(after) && after.txn.None? && after.history == st.history + {e} && e in after.callbacks
            && after.files == st.files && after.index == st.index && after.outbox == st.outbox[oid := e] && after.table == st.table
  {
    var open := Do(st, Begin);
    StepInv(st, Begin);
    assert Run(st, []) == st && [] + [Begin] == [Begin];
    RunMore(st, [], Begin);
    assert Known(open) == Known(st);
    RunMore(st, [Begin], Create(run, session, body, oid));
    RunMore(st, [Begin] + [Create(run, session, body, oid)], Commit);
    e := Event(Allocated(open, session), run, session, body);
    AllocatedIsNew(open, session);
    hide Inv, Known, Allocated, Run;
    CommittedEvent(st, open, run, session, body, oid, e);
  }

  lemma CommittedEvent(st: State, open: State, run: int, session: string, body: string, oid: int, e: Event)
    requires Inv(open) && open == st.(txn := Some(Txn(st.counters, [], {})))
    requires Enabled(open, Create(run, session, body, oid)) && e == Event(Allocated(open, session), run, session, body)
    ensures var created := Do(open, Create(run, session, body, oid));
            && created.txn.Some?
            && var after := Do(created, Commit);
            && Inv(after) && after.txn.None? && after.history == st.history + {e} && e in after.callbacks
            && after.files == st.files && after.index == st.index && after.outbox == st.outbox[oid := e] && after.table == st.table
  {
    hide Inv, Allocated;
    var created := Do(open, Create(run, session, body, oid));
    StepInv(open, Create(run, session, body, oid));
    StepInv(created, Commit);
    assert created.txn.value.added == [Entry(oid, e)];
    assert created.txn.value.added[..0] == [];
    assert Rows(created.txn.value.added) == map[oid := e];
    assert AddedEvents(created.txn.value) == {e} by { assert created.txn.value.added[0].event == e; }
    assert (map o | o in st.outbox && o !in {} :: st.outbox[o]) == st.outbox;
  }

  /** When its callback succeeds, or later when its outbox row is drained, the event is on file and nothing else is
      new. */
  lemma DeliveredEventIsOnFile(st: State, e: Event, oid: int)
    requires Inv(st) && st.txn.None? && oid in st.outbox && st.outbox[oid] == e
    ensures var after := Run(st, [Begin] + [DrainRow(oid, false)] + [Commit]);
            && Inv(after) && AllEvents(after.files) == AllEvents(st.files) + {e} && oid !in after.outbox && e.run in after.index
            && after.index[e.run] == e.session
    ensures e in st.callbacks ==>
              var after := Run(st, [] + [Callback(e, true, false)]);
              && Inv(after) && AllEvents(after.files) == AllEvents(st.files) + {e} && e.run in after.index && after.index[e.run] == e.session
  {
    assert Run(st, []) == st && [] + [Begin] == [Begin];
    StepInv(st, Begin);
    RunMore(st, [], Begin);
    var open := Do(st, Begin);
    RunMore(st, [Begin], DrainRow(oid, false));
    RunMore(st, [Begin] + [DrainRow(oid, false)], Commit);
    if e in st.callbacks { RunMore(st, [], Callback(e, true, false)); }
    hide Run;
    DrainedEvent(open, e, oid);
    if e in st.callbacks {
      StepInv(st, Callback(e, true, false));
      OutboxIsCommitted(st, oid);
      AppendInv(st, e, false);
    }
  }

  lemma DrainedEvent(open: State, e: Event, oid: int)
    requires Inv(open) && open.txn.Some? && open.txn.value.added == [] && oid in open.outbox && open.outbox[oid] == e
    ensures var drained := Do(open, DrainRow(oid, false));
            && drained.txn.Some?
            && var after := Do(drained, Commit);
            && Inv(after) && AllEvents(after.files) == AllEvents(open.files) + {e} && oid !in after.outbox && e.run in after.index
            && after.index[e.run] == e.session
  {
    hide Inv, AllEvents, Appended;
    StepInv(open, DrainRow(oid, false));
    StepInv(Do(open, DrainRow(oid, false)), Commit);
    OutboxIsCommitted(open, oid);
    AppendInv(open, e, false);
    assert Rows([]) == map[];
  }

  /** Reading the run then shows the event with its own body, after what was there: the events on file that have this
      run, and no other. */
  lemma ReadShowsTheRun(st: State, run: int)
    requires Inv(st) && run in st.index && PythonText.IsTrimmed(st.index[run])
    ensures forall f :: f in IndexedEvents(st.files, st.index, run) <==> f in AllEvents(st.files) && f.run == run
  {
    IndexAgreesIff(st.files, st.index, run);
  }
}
