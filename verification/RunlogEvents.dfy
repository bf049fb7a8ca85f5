/** The run event store: per-session files, the run index that spares a full scan, reading by cursor, and
    the batched backfill from the database. */
module RunlogEvents {
  import opened Ordering
  import opened PythonText
  import TranscriptMachine

  datatype Event = Event(id: int, run: int, session: string, body: string)

  /** One line of a file; every line the reader skips is `Bad`. */
  datatype Line = Good(event: Event) | Bad

  type Files = map<string, seq<Line>>

  function EventsOf(lines: seq<Line>): seq<Event> {
    if lines == [] then []
    else
      var last := lines[|lines| - 1];
      EventsOf(lines[..|lines| - 1]) + (if last.Good? then [last.event] else [])
  }

  function FileOf(files: Files, session: string): seq<Line> { if session in files then files[session] else [] }

  function AllEvents(files: Files): set<Event> { set s, e | s in files && e in EventsOf(files[s]) :: e }

  function RunEvents(files: Files, run: int): set<Event> { set e | e in AllEvents(files) && e.run == run }

  /** Every run lives in one session, and an event is known by its run and id. */
  ghost predicate Compatible(events: set<Event>) {
    forall e, f | e in events && f in events && e.run == f.run :: e.session == f.session && (e.id == f.id ==> e == f)
  }

  ghost predicate NoRepeats(list: seq<Event>) {
    forall i, j | 0 <= i < j < |list| :: list[i].run != list[j].run || list[i].id != list[j].id
  }

  ghost predicate FilesInv(files: Files) {
    && (forall s, e | s in files && e in EventsOf(files[s]) :: e.session == s)
    && (forall s | s in files :: NoRepeats(EventsOf(files[s])))
    && Compatible(AllEvents(files))
  }

  /** The index knows runs with events only, and what it says about them is true. */
  ghost predicate IndexInv(files: Files, index: map<int, string>) {
    && (forall run | run in index :: exists e :: e in AllEvents(files) && e.run == run)
    && (forall e | e in AllEvents(files) && e.run in index :: index[e.run] == e.session)
  }

  // ----- the index and the scan -----

  /** `_read_run_index` strips what it read, and an empty answer counts as no index. */
  function ReadIndex(index: map<int, string>, run: int): Option<string> {
    if run in index && Strip(index[run]) != "" then Some(Strip(index[run])) else None
  }

  /** The events `_read_run_events_sync` looks at. */
  function IndexedEvents(files: Files, index: map<int, string>, run: int): set<Event> {
    match ReadIndex(index, run)
    case None => RunEvents(files, run)
    case Some(s) => set e | e in EventsOf(FileOf(files, s)) && e.run == run
  }

  /** Reading through the index finds the same events as scanning every file exactly when the session
      recorded for the run survives stripping, or the run has no events at all. */
  lemma IndexAgreesIff(files: Files, index: map<int, string>, run: int)
    requires FilesInv(files) && IndexInv(files, index)
    ensures IndexedEvents(files, index, run) == RunEvents(files, run) <==>
              RunEvents(files, run) == {} || run !in index || IsTrimmed(index[run]) || IsBlank(index[run])
  {
    if run in index {
      var home := index[run];
      var a, b := StripTrims(home);
      StripFixes(home);
      hide Strip, IsTrimmed, IsBlank;
      if Strip(home) == home && home != "" {
        HomeHasAll(files, index, run);
      } else if Strip(home) != "" {
        ForeignFileHasNone(files, index, run, Strip(home));
      }
    }
  }

  lemma HomeHasAll(files: Files, index: map<int, string>, run: int)
    requires FilesInv(files) && IndexInv(files, index) && run in index
    ensures (set e | e in EventsOf(FileOf(files, index[run])) && e.run == run) == RunEvents(files, run)
  {
    forall e | e in RunEvents(files, run) ensures e in EventsOf(FileOf(files, index[run])) {
      var s :| s in files && e in EventsOf(files[s]);
    }
    forall e | e in EventsOf(FileOf(files, index[run])) ensures e in AllEvents(files) { assert index[run] in files; }
  }

  lemma ForeignFileHasNone(files: Files, index: map<int, string>, run: int, s: string)
    requires FilesInv(files) && IndexInv(files, index) && run in index && s != index[run]
    ensures (set e | e in EventsOf(FileOf(files, s)) && e.run == run) == {}
  {
    forall e | e in EventsOf(FileOf(files, s)) ensures e.run != run {
      assert s in files && e in AllEvents(files);
    }
  }

  /** What the first append of a run in a session whose id starts with a blank leaves: the index leads to the
      file of another session, and the event is not found. */
  lemma BlankLeadingSessionIsNotFound()
    ensures var row := Event(1, 7, " s", "b");
            var empty: Files := map[];
            var files, index := empty[" s" := Appended(FileOf(empty, " s"), row)], map[7 := " s"];
            && FilesInv(files) && IndexInv(files, index)
            && RunEvents(files, 7) == {row} && IndexedEvents(files, index, 7) == {}
  {
    var row := Event(1, 7, " s", "b");
    var empty: Files := map[];
    var files, index := empty[" s" := Appended(FileOf(empty, " s"), row)], map[7 := " s"];
    assert FilesInv(empty) && AllEvents(empty) == {} && Fits(empty, row);
    BlankLeadingStrips();
    hide EventsOf, Appended, Strip, AllEvents, FilesInv;
    AppendFacts(empty, row);
    assert AllEvents(files) == {row};
    ForeignFileHasNone(files, index, 7, "s");
  }

  lemma BlankLeadingStrips()
    ensures Strip(" s") == "s" != " s"
  {
    assert !IsSpace('s') && IsSpace(' ');
    assert Forward(" s", 1) == 1 && Forward(" s", 0) == 1;
    assert " s"[1..] == "s";
    assert Backward("s", 1) == 1;
  }

  // ----- appending -----

  ghost predicate Fits(files: Files, row: Event) { Compatible(AllEvents(files) + {row}) }

  /** The file with the event appended unless a line with its run and id is there already. */
  function Appended(file: seq<Line>, row: Event): seq<Line> {
    if HasEvent(file, row) then file else file + [Good(row)]
  }

  predicate HasEvent(file: seq<Line>, row: Event) {
    exists i | 0 <= i < |EventsOf(file)| :: IsSame(EventsOf(file)[i], row)
  }

  predicate IsSame(a: Event, b: Event) { a.run == b.run && a.id == b.id }

  lemma AppendFacts(files: Files, row: Event)
    requires FilesInv(files) && Fits(files, row)
    ensures var after := files[row.session := Appended(FileOf(files, row.session), row)];
            FilesInv(after) && AllEvents(after) == AllEvents(files) + {row}
  {
    hide AllEvents, EventsOf, FilesInv;
    var s, file := row.session, FileOf(files, row.session);
    if HasEvent(file, row) {
      FileEvents(files, s);
      SameEvent(files, file, row);
      assert files[s := file] == files;
    } else {
      var after := files[s := file + [Good(row)]];
      OneMoreLine(file, row);
      MoreEvents(files, after, row);
    }
  }

  /** All events of the run live in the event's session. */
  ghost predicate SameHome(files: Files, row: Event) { forall e | e in RunEvents(files, row.run) :: e.session == row.session }

  /** An append of any event: the files stay right if and only if the run has no event in another session. */
  lemma AppendKeepsFilesIff(files: Files, row: Event)
    requires FilesInv(files)
    ensures var after := files[row.session := Appended(FileOf(files, row.session), row)];
            && (FilesInv(after) <==> SameHome(files, row))
            && AllEvents(after) == AllEvents(files) + (if HasEvent(FileOf(files, row.session), row) then {} else {row})
  {
    var s, file := row.session, FileOf(files, row.session);
    var after := files[s := Appended(file, row)];
    FileEvents(files, s);
    if HasEvent(file, row) {
      var i :| 0 <= i < |EventsOf(file)| && IsSame(EventsOf(file)[i], row);
      assert EventsOf(file)[i] in EventsOf(file);
      assert after == files;
    } else {
      hide EventsOf, HasEvent, FileOf;
      OneMoreLine(file, row);
      NewEventKeepsFilesIff(files, after, row);
    }
  }

  lemma NewEventKeepsFilesIff(files: Files, after: Files, row: Event)
    requires FilesInv(files) && !HasEvent(FileOf(files, row.session), row)
    requires after == files[row.session := FileOf(files, row.session) + [Good(row)]]
    requires EventsOf(after[row.session]) == EventsOf(FileOf(files, row.session)) + [row]
    ensures FilesInv(after) <==> SameHome(files, row)
    ensures AllEvents(after) == AllEvents(files) + {row}
  {
    OneMoreLine(FileOf(files, row.session), row);
    hide EventsOf, HasEvent, FileOf, AllEvents;
    MoreInFile(files, after, row);
    if SameHome(files, row) {
      hide FilesInv;
      NewIdFits(files, row);
      MoreEvents(files, after, row);
    } else {
      var e :| e in RunEvents(files, row.run) && e.session != row.session;
      assert e in AllEvents(after) && row in AllEvents(after);
    }
  }

  lemma NewIdFits(files: Files, row: Event)
    requires FilesInv(files) && SameHome(files, row) && !HasEvent(FileOf(files, row.session), row)
    ensures Fits(files, row)
  {
    forall e | e in AllEvents(files) && e.run == row.run ensures e.session == row.session && e.id != row.id {
      assert e in RunEvents(files, row.run);
      var s :| s in files && e in EventsOf(files[s]);
      var list := EventsOf(FileOf(files, row.session));
      assert e in list;
      var i :| 0 <= i < |list| && list[i] == e;
      assert !IsSame(list[i], row);
    }
  }

  /** The append points the index at the event's own session: afterwards a read of the run finds that session's
      events, and all events of the run if and only if no other session has any. */
  lemma IndexFollowsLastAppendIff(files: Files, row: Event, index: map<int, string>)
    requires FilesInv(files) && Strip(row.session) == row.session != ""
    ensures var after := files[row.session := Appended(FileOf(files, row.session), row)];
            var seen := IndexedEvents(after, index[row.run := row.session], row.run);
            && seen == (set e | e in RunEvents(after, row.run) && e.session == row.session)
            && (seen == RunEvents(after, row.run) <==> SameHome(files, row))
  {
    hide Strip, Appended, HasEvent, EventsOf, FilesInv, AllEvents;
    var after := files[row.session := Appended(FileOf(files, row.session), row)];
    AppendKeepsFilesIff(files, row);
    FiledAfterAppend(files, row);
    SessionEvents(after, row.session, row.run);
    assert forall e | e in RunEvents(files, row.run) :: e in RunEvents(after, row.run);
    assert forall e | e in RunEvents(after, row.run) :: e in RunEvents(files, row.run) || e == row;
  }

  lemma SessionEvents(files: Files, s: string, run: int)
    requires s in files && forall t, e | t in files && e in EventsOf(files[t]) :: e.session == t
    ensures (set e | e in EventsOf(FileOf(files, s)) && e.run == run) == (set e | e in RunEvents(files, run) && e.session == s)
  {
    hide EventsOf;
    forall e ensures e in EventsOf(files[s]) && e.run == run <==> e in RunEvents(files, run) && e.session == s {
      if e in EventsOf(files[s]) { assert e in AllEvents(files); }
    }
  }

  lemma FiledAfterAppend(files: Files, row: Event)
    requires FilesInv(files)
    ensures var after := files[row.session := Appended(FileOf(files, row.session), row)];
            forall s, e | s in after && e in EventsOf(after[s]) :: e.session == s
  {
    var file := FileOf(files, row.session);
    if !HasEvent(file, row) { OneMoreLine(file, row); }
  }

  /** The index as the append leaves it, before or after it is written. */
  lemma AppendKeepsIndex(files: Files, row: Event, index: map<int, string>)
    requires FilesInv(files) && IndexInv(files, index) && SameHome(files, row)
    ensures var after := files[row.session := Appended(FileOf(files, row.session), row)];
            IndexInv(after, index[row.run := row.session]) && IndexInv(after, index)
  {
    hide FilesInv, AllEvents, Appended, HasEvent, EventsOf;
    AppendKeepsFilesIff(files, row);
    var known := RunIsKnown(files, row);
    assert forall e | e in AllEvents(files) && e.run == row.run :: e in RunEvents(files, row.run);
  }

  lemma RunIsKnown(files: Files, row: Event) returns (known: Event)
    ensures known.run == row.run
    ensures known in AllEvents(files[row.session := Appended(FileOf(files, row.session), row)])
  {
    var after := files[row.session := Appended(FileOf(files, row.session), row)];
    var file := FileOf(files, row.session);
    if HasEvent(file, row) {
      var i :| 0 <= i < |EventsOf(file)| && IsSame(EventsOf(file)[i], row);
      known := EventsOf(file)[i];
    } else {
      OneMoreLine(file, row);
      known := row;
      assert EventsOf(after[row.session])[|EventsOf(file)|] == row;
    }
    hide EventsOf, HasEvent;
    assert known in EventsOf(after[row.session]);
  }

  lemma OneMoreLine(file: seq<Line>, row: Event)
    requires !HasEvent(file, row)
    ensures EventsOf(file + [Good(row)]) == EventsOf(file) + [row]
    ensures forall i | 0 <= i < |EventsOf(file)| :: var e := EventsOf(file)[i]; e.run != row.run || e.id != row.id
  {
    assert (file + [Good(row)])[..|file|] == file;
    forall i | 0 <= i < |EventsOf(file)| ensures var e := EventsOf(file)[i]; e.run != row.run || e.id != row.id {
      assert !IsSame(EventsOf(file)[i], row);
    }
  }

  /** An event with the run and id of one that is there is that event. */
  lemma SameEvent(files: Files, file: seq<Line>, row: Event)
    requires FilesInv(files) && Fits(files, row) && HasEvent(file, row) && forall e | e in EventsOf(file) :: e in AllEvents(files)
    ensures row in AllEvents(files) && row in EventsOf(file) && AllEvents(files) + {row} == AllEvents(files)
  {
    hide AllEvents, EventsOf, FilesInv;
    var i :| 0 <= i < |EventsOf(file)| && IsSame(EventsOf(file)[i], row);
    var e := EventsOf(file)[i];
    assert e in EventsOf(file);
    assert e in AllEvents(files) + {row} && row in AllEvents(files) + {row};
  }

  lemma MoreEvents(files: Files, after: Files, row: Event)
    requires FilesInv(files) && Fits(files, row) && after.Keys == files.Keys + {row.session}
    requires EventsOf(after[row.session]) == EventsOf(FileOf(files, row.session)) + [row]
    requires forall s | s in files && s != row.session :: after[s] == files[s]
    requires forall i | 0 <= i < |EventsOf(FileOf(files, row.session))| ::
               var e := EventsOf(FileOf(files, row.session))[i]; e.run != row.run || e.id != row.id
    ensures FilesInv(after) && AllEvents(after) == AllEvents(files) + {row}
  {
    hide EventsOf, AllEvents, Compatible, FileOf;
    MoreInFile(files, after, row);
    var s0 := row.session;
    var list := EventsOf(FileOf(files, s0));
    FileEvents(files, s0);
    forall s, e | s in after && e in EventsOf(after[s]) ensures e.session == s {
      if s == s0 && e != row { assert e in list && s0 in files; }
    }
    OneMoreEvent(list, row);
    assert forall s | s in after && s != s0 :: s in files && after[s] == files[s];
  }

  lemma FileEvents(files: Files, s: string)
    ensures if s in files then FileOf(files, s) == files[s] else EventsOf(FileOf(files, s)) == []
    ensures forall e | e in EventsOf(FileOf(files, s)) :: e in AllEvents(files)
    ensures (s in files ==> NoRepeats(EventsOf(files[s]))) ==> NoRepeats(EventsOf(FileOf(files, s)))
  {
  }

  lemma OneMoreEvent(list: seq<Event>, row: Event)
    requires NoRepeats(list) && forall i | 0 <= i < |list| :: list[i].run != row.run || list[i].id != row.id
    ensures NoRepeats(list + [row])
  {
  }

  lemma MoreInFile(files: Files, after: Files, row: Event)
    requires after.Keys == files.Keys + {row.session}
    requires EventsOf(after[row.session]) == EventsOf(FileOf(files, row.session)) + [row]
    requires forall s | s in files && s != row.session :: after[s] == files[s]
    ensures AllEvents(after) == AllEvents(files) + {row}
  {
    var s0 := row.session;
    var list := EventsOf(FileOf(files, s0));
    assert s0 !in files ==> list == [];
    assert row in EventsOf(after[s0]);
    hide EventsOf;
    forall e | e in AllEvents(after) ensures e in AllEvents(files) + {row} {
      var s :| s in after && e in EventsOf(after[s]);
      if s == s0 { assert e in list || e == row; }
    }
    forall e | e in AllEvents(files) ensures e in AllEvents(after) {
      var s :| s in files && e in EventsOf(files[s]);
      if s == s0 { assert e in list; }
      assert e in EventsOf(after[s]);
    }
  }

  // ----- listings and pages -----

  predicate Before(a: Event, b: Event) { a.run < b.run || (a.run == b.run && a.id < b.id) }

  ghost predicate InOrder(list: seq<Event>) { forall i, j | 0 <= i < j < |list| :: Before(list[i], list[j]) }

  /** `list` holds the events of the set in the order of the sort key, each once. */
  ghost predicate IsListing(list: seq<Event>, events: set<Event>) { InOrder(list) && forall e :: e in list <==> e in events }

  lemma {:induction false} ListingUnique(a: seq<Event>, b: seq<Event>, events: set<Event>)
    requires IsListing(a, events) && IsListing(b, events)
    ensures a == b
    decreases |a|
  {
    assert a == [] || a[0] in a;
    assert b == [] || b[0] in b;
    if a != [] && b != [] {
      assert a[0] == b[0];
      ListingRest(a, events);
      ListingRest(b, events);
      ListingUnique(a[1..], b[1..], events - {a[0]});
      assert a == [a[0]] + a[1..] && b == [b[0]] + b[1..];
    }
  }

  lemma ListingRest(a: seq<Event>, events: set<Event>)
    requires IsListing(a, events) && a != []
    ensures IsListing(a[1..], events - {a[0]})
  {
    forall e ensures e in a[1..] <==> e in events - {a[0]} {
      if e in a[1..] { assert e in a && Before(a[0], e); }
      if e in a && e != a[0] { assert e in a[1..]; }
    }
  }

  function Insert(list: seq<Event>, e: Event): (r: seq<Event>)
    ensures forall x :: x in r <==> x == e || x in list
  {
    if list == [] || !Before(e, list[|list| - 1]) then list + [e]
    else
      assert list == list[..|list| - 1] + [list[|list| - 1]];
      Insert(list[..|list| - 1], e) + [list[|list| - 1]]
  }

  lemma {:induction false} InsertKeepsOrder(list: seq<Event>, e: Event)
    requires InOrder(list) && forall x | x in list :: x.run != e.run || x.id != e.id
    ensures InOrder(Insert(list, e))
    decreases |list|
  {
    if list != [] && Before(e, list[|list| - 1]) {
      var prefix, last := list[..|list| - 1], list[|list| - 1];
      InsertKeepsOrder(prefix, e);
      var r := Insert(prefix, e);
      forall i | 0 <= i < |r| ensures Before(r[i], last) {
        assert r[i] in r;
        if r[i] != e {
          var j :| 0 <= j < |prefix| && prefix[j] == r[i];
          assert list[j] == r[i];
        }
      }
    } else {
      forall i | 0 <= i < |list| ensures Before(list[i], e) { assert list[i] in list; }
    }
  }

  /** `rows.sort(key=..)` */
  method SortEvents(list: seq<Event>) returns (sorted: seq<Event>)
    requires NoRepeats(list)
    ensures InOrder(sorted) && forall e :: e in sorted <==> e in list
  {
    sorted := [];
    for i := 0 to |list|
      invariant InOrder(sorted) && forall e :: e in sorted <==> e in list[..i]
    {
      assert list[..i + 1] == list[..i] + [list[i]];
      forall x | x in sorted ensures x.run != list[i].run || x.id != list[i].id {
        var j :| 0 <= j < i && list[j] == x;
      }
      InsertKeepsOrder(sorted, list[i]);
      sorted := Insert(sorted, list[i]);
    }
    assert list[..|list|] == list;
  }

  function After(list: seq<Event>, after: int): seq<Event> {
    if list == [] then []
    else
      var last := list[|list| - 1];
      After(list[..|list| - 1], after) + (if last.id > after then [last] else [])
  }

  /** `[row for row in rows if row.id > after][:limit]` */
  function Page(list: seq<Event>, after: int, limit: int): seq<Event> {
    if limit <= 0 then [] else var rest := After(list, after); rest[..Min(limit, |rest|)]
  }

  ghost predicate OneRun(list: seq<Event>, run: int) { forall i | 0 <= i < |list| :: list[i].run == run }

  /** In columns: events of the set with ids above the cursor, in id order, as many as the limit allows, and none that
      comes before them is left out. */
  ghost predicate IsNextPage(page: seq<Event>, events: set<Event>, after: int, limit: int) {
    && (forall e | e in page :: e in events && e.id > after)
    && (forall i, j | 0 <= i < j < |page| :: page[i].id < page[j].id)
    && |page| <= Max(0, limit)
    && forall e | e in events && e.id > after && e !in page :: |page| == Max(0, limit) && forall other | other in page :: other.id < e.id
  }

  lemma PageMeans(list: seq<Event>, events: set<Event>, run: int, after: int, limit: int)
    requires IsListing(list, events) && OneRun(list, run)
    ensures IsNextPage(Page(list, after, limit), events, after, limit)
  {
    hide After;
    var k := FirstAfter(list, run, after);
    AfterIsSuffix(list, after, k);
    if limit > 0 {
      var n := Min(k + limit, |list|);
      assert list[k..][..Min(limit, |list| - k)] == list[k..n];
      SliceIsNextPage(list, events, run, after, limit, k, n);
    }
  }

  lemma SliceIsNextPage(list: seq<Event>, events: set<Event>, run: int, after: int, limit: int, k: nat, n: nat)
    requires IsListing(list, events) && OneRun(list, run) && limit > 0 && k <= |list| && n == Min(k + limit, |list|)
    requires (forall i | 0 <= i < k :: list[i].id <= after) && (forall i | k <= i < |list| :: list[i].id > after)
    ensures IsNextPage(list[k..n], events, after, limit)
  {
    var page := list[k..n];
    SliceElements(list, k, n);
    forall i, j | 0 <= i < j < |page| ensures page[i].id < page[j].id { assert Before(list[k + i], list[k + j]); }
    forall e | e in events && e.id > after && e !in page
      ensures |page| == limit && forall other | other in page :: other.id < e.id
    {
      var j :| 0 <= j < |list| && list[j] == e;
      assert j >= n;
      forall other | other in page ensures other.id < e.id {
        var i :| k <= i < n && list[i] == other;
        assert Before(list[i], list[j]);
      }
    }
  }

  lemma SliceElements(list: seq<Event>, k: nat, n: nat)
    requires k <= n <= |list|
    ensures forall i | k <= i < n :: list[i] in list[k..n]
    ensures forall e | e in list[k..n] :: exists i :: k <= i < n && list[i] == e
    ensures forall e | e in list[k..n] :: e in list
  {
    forall i | k <= i < n ensures list[i] in list[k..n] { assert list[k..n][i - k] == list[i]; }
    forall e | e in list[k..n] ensures exists i :: k <= i < n && list[i] == e {
      var i :| 0 <= i < n - k && list[k..n][i] == e;
      assert list[k + i] == e;
    }
  }

  /** Where the events above the cursor start. */
  lemma {:induction false} FirstAfter(list: seq<Event>, run: int, after: int) returns (k: nat)
    requires InOrder(list) && OneRun(list, run)
    ensures k <= |list| && (forall i | 0 <= i < k :: list[i].id <= after) && (forall i | k <= i < |list| :: list[i].id > after)
    decreases |list|
  {
    if list == [] || list[|list| - 1].id <= after {
      k := |list|;
      forall i | 0 <= i < k ensures list[i].id <= after { assert i < |list| - 1 ==> Before(list[i], list[|list| - 1]); }
    } else {
      k := FirstAfter(list[..|list| - 1], run, after);
    }
  }

  lemma {:induction false} AfterSplits(a: seq<Event>, b: seq<Event>, after: int)
    ensures After(a + b, after) == After(a, after) + After(b, after)
    decreases |b|
  {
    if b == [] {
      assert a + b == a;
    } else {
      assert (a + b)[..|a + b| - 1] == a + b[..|b| - 1];
      AfterSplits(a, b[..|b| - 1], after);
    }
  }

  lemma {:induction false} AfterKeeps(list: seq<Event>, after: int)
    ensures (forall e | e in list :: e.id > after) ==> After(list, after) == list
    ensures (forall e | e in list :: e.id <= after) ==> After(list, after) == []
    decreases |list|
  {
    if list != [] {
      AfterKeeps(list[..|list| - 1], after);
      assert list == list[..|list| - 1] + [list[|list| - 1]];
    }
  }

  lemma AfterIsSuffix(list: seq<Event>, after: int, k: nat)
    requires k <= |list|
    requires (forall i | 0 <= i < k :: list[i].id <= after) && (forall i | k <= i < |list| :: list[i].id > after)
    ensures After(list, after) == list[k..]
  {
    hide After;
    assert list == list[..k] + list[k..];
    AfterSplits(list[..k], list[k..], after);
    AfterKeeps(list[..k], after);
    AfterKeeps(list[k..], after);
  }

  /** The page after the k-th event of a run starts at the next one. */
  lemma NextPage(list: seq<Event>, run: int, k: nat, cursor: int, limit: int)
    requires InOrder(list) && OneRun(list, run) && k <= |list| && limit >= 1
    requires if k == 0 then forall i | 0 <= i < |list| :: cursor < list[i].id else cursor == list[k - 1].id
    ensures Page(list, cursor, limit) == list[k..Min(k + limit, |list|)]
  {
    forall i | 0 <= i < k ensures list[i].id <= cursor { if i < k - 1 { assert Before(list[i], list[k - 1]); } }
    forall i | k <= i < |list| ensures list[i].id > cursor { if k > 0 { assert Before(list[k - 1], list[i]); } }
    AfterIsSuffix(list, cursor, k);
    assert list[k..][..Min(limit, |list| - k)] == list[k..Min(k + limit, |list|)];
  }

  lemma ListedRun(list: seq<Event>, events: set<Event>, run: int)
    requires IsListing(list, events) && forall e | e in list :: e.run == run
    ensures OneRun(list, run)
  {
    forall i | 0 <= i < |list| ensures list[i].run == run { assert list[i] in list; }
  }

  lemma PositiveIds(list: seq<Event>, events: set<Event>)
    requires IsListing(list, events) && forall e | e in events :: e.id >= 1
    ensures InOrder(list) && forall i | 0 <= i < |list| :: list[i].id >= 1
  {
    forall i | 0 <= i < |list| ensures list[i].id >= 1 { assert list[i] in list; }
  }

  class RunlogStore {
    var files: Files
    var index: map<int, string>
    // committed rows of the event table, and the sequence rows
    var table: map<int, Event>
    var counters: map<string, int>

    ghost predicate Valid()
      reads this
    {
      FilesInv(files) && IndexInv(files, index)
    }

    constructor (table: map<int, Event>)
      ensures Valid() && this.table == table && AllEvents(files) == {}
    {
      files, index, counters := map[], map[], map[];
      this.table := table;
    }

    /** `_append_reserved_sync`, for any event; a crash between the two writes leaves the index as it was. */
    method AppendReserved(row: Event, crash: bool)
      requires Valid()
      modifies `files, `index
      ensures AllEvents(files) == old(AllEvents(files)) + (if HasEvent(FileOf(old(files), row.session), row) then {} else {row})
      ensures index == if crash then old(index) else old(index)[row.run := row.session]
      ensures Valid() <==> SameHome(old(files), row)
      ensures Fits(old(files), row) ==> Valid() && AllEvents(files) == old(AllEvents(files)) + {row}
    {
      hide FilesInv, IndexInv, Fits, AllEvents, EventsOf, HasEvent, SameHome;
      AppendKeepsFilesIff(files, row);
      if SameHome(files, row) { AppendKeepsIndex(files, row, index); }
      FitsAtHome(files, row);
      var file := FileOf(files, row.session);
      var found := EventExists(file, row);
      files := files[row.session := if found then file else file + [Good(row)]];
      if crash { return; }
      index := index[row.run := row.session];
    }

    /** `_runlog_event_exists` */
    static method EventExists(file: seq<Line>, row: Event) returns (found: bool)
      ensures found <==> HasEvent(file, row)
    {
      var list := EventsOf(file);
      found := false;
      for i := 0 to |list|
        invariant found <==> exists j | 0 <= j < i :: IsSame(list[j], row)
      {
        if IsSame(list[i], row) { found := true; }
      }
    }

    /** `_read_run_events_sync` and the filter on the run. */
    method ReadRunEvents(run: int) returns (list: seq<Event>)
      requires Valid()
      ensures IsListing(list, IndexedEvents(files, index, run)) && forall e | e in list :: e.run == run
      ensures run !in index || IsTrimmed(index[run]) ==>
                forall e :: e in list <==> e.run == run && exists s :: s in files && e in EventsOf(files[s])
    {
      IndexAgreesIff(files, index, run);
      var session := ReadIndex(index, run);
      if session.None? {
        var all := ReadAllEvents();
        list := OfRun(all, run);
      } else {
        var file := FileOf(files, session.value);
        assert NoRepeats(EventsOf(file)) by { assert session.value in files || EventsOf(file) == []; }
        var rows := OfRun(EventsOf(file), run);
        list := SortEvents(rows);
      }
    }

    /** `_read_all_events_sync` */
    method ReadAllEvents() returns (list: seq<Event>)
      requires Valid()
      ensures IsListing(list, AllEvents(files))
    {
      var rows: seq<Event> := [];
      var rest := files.Keys;
      ghost var done := {};
      while rest != {}
        invariant rest <= files.Keys && done == files.Keys - rest
        invariant NoRepeats(rows)
        invariant forall e :: e in rows <==> e.session in done && e in EventsOf(files[e.session])
        decreases |rest|
      {
        var s :| s in rest;
        NoRepeatsAcross(files, rows, s);
        rows := rows + EventsOf(files[s]);
        rest := rest - {s};
        done := done + {s};
      }
      list := SortEvents(rows);
      EventsBySession(files);
    }

    /** `[row for row in rows if row.run_id == run_id]` */
    static method OfRun(rows: seq<Event>, run: int) returns (list: seq<Event>)
      ensures forall e :: e in list <==> e in rows && e.run == run
      ensures InOrder(rows) ==> InOrder(list)
      ensures NoRepeats(rows) ==> NoRepeats(list)
    {
      list := [];
      for i := 0 to |rows|
        invariant forall e :: e in list <==> e in rows[..i] && e.run == run
        invariant InOrder(rows) ==> InOrder(list)
        invariant NoRepeats(rows) ==> NoRepeats(list)
      {
        assert rows[..i + 1] == rows[..i] + [rows[i]];
        if rows[i].run == run {
          PrefixBefore(rows, i, list);
          list := list + [rows[i]];
        }
      }
      assert rows[..|rows|] == rows;
    }

    /** `list_run_events_since`, after its backfill and drain. */
    method ListRunEventsSince(run: int, after: int, limit: int) returns (page: seq<Event>)
      requires Valid()
      ensures exists full :: IsListing(full, IndexedEvents(files, index, run)) && OneRun(full, run) && page == Page(full, after, limit)
      ensures IsNextPage(page, IndexedEvents(files, index, run), after, limit)
    {
      hide FilesInv, IndexInv, IndexedEvents, IsListing, IsNextPage, OneRun, AllEvents, EventsOf;
      var list := ReadRunEvents(run);
      ListedRun(list, IndexedEvents(files, index, run), run);
      PageMeans(list, IndexedEvents(files, index, run), run, after, limit);
      if limit <= 0 {
        assert Page(list, after, limit) == [];
        return [];
      }
      var rest := [];
      for i := 0 to |list|
        invariant rest == After(list[..i], after)
      {
        assert list[..i + 1][..i] == list[..i];
        if list[i].id > after { rest := rest + [list[i]]; }
      }
      assert list[..|list|] == list;
      page := rest[..Min(limit, |rest|)];
      assert page == Page(list, after, limit);
    }

    /** A client that walks the cursor page by page visits every event of the run once, in order. */
    method WalkCursor(run: int, limit: int) returns (visited: seq<Event>)
      requires Valid() && limit >= 1
      requires forall e | e in IndexedEvents(files, index, run) :: e.id >= 1
      ensures IsListing(visited, IndexedEvents(files, index, run))
    {
      hide FilesInv, IndexInv, IndexedEvents, Page, IsNextPage, IsListing, InOrder, OneRun;
      visited := [];
      var cursor := 0;
      var page := ListRunEventsSince(run, cursor, limit);
      ghost var list: seq<Event> :| IsListing(list, IndexedEvents(files, index, run)) && OneRun(list, run) && page == Page(list, cursor, limit);
      PositiveIds(list, IndexedEvents(files, index, run));
      NextPage(list, run, 0, cursor, limit);
      while page != []
        invariant |visited| <= |list| && visited == list[..|visited|]
        invariant page == list[|visited|..Min(|visited| + limit, |list|)]
        decreases |list| - |visited|
      {
        visited := visited + page;
        cursor := page[|page| - 1].id;
        NextPage(list, run, |visited|, cursor, limit);
        page := ListRunEventsSince(run, cursor, limit);
        ghost var full: seq<Event> :| IsListing(full, IndexedEvents(files, index, run)) && page == Page(full, cursor, limit);
        ListingUnique(full, list, IndexedEvents(files, index, run));
      }
      assert visited == list;
    }

    // ----- backfill from the database -----

    /** `_materialize_database_events` */
    method MaterializeDatabaseEvents(rows: seq<Event>)
      requires Valid() && Compatible(AllEvents(files) + Elements(rows))
      modifies `files, `index, `counters
      ensures Valid() && AllEvents(files) == old(AllEvents(files)) + Elements(rows)
      ensures Covers(counters, Elements(rows)) && Grows(old(counters), counters)
    {
      ghost var before := AllEvents(files);
      hide FilesInv, IndexInv, AllEvents, Covers, Grows;
      for i := 0 to |rows|
        invariant Valid() && AllEvents(files) == before + Elements(rows[..i]) && counters == old(counters)
      {
        ElementsStep(rows, i);
        SubsetCompatible(AllEvents(files) + {rows[i]}, before + Elements(rows));
        AppendReserved(rows[i], false);
      }
      assert rows[..|rows|] == rows;
      RaiseCounters(rows);
    }

    /** One sequence row per session, raised above the largest materialized id of the session. */
    method RaiseCounters(rows: seq<Event>)
      modifies `counters
      ensures Covers(counters, Elements(rows)) && Grows(old(counters), counters)
    {
      var tops: map<string, int> := map[];
      for i := 0 to |rows|
        invariant forall j | 0 <= j < i :: rows[j].session in tops && rows[j].id <= tops[rows[j].session]
      {
        var s := rows[i].session;
        tops := tops[s := if s in tops then Max(tops[s], rows[i].id) else rows[i].id];
      }
      var rest := tops.Keys;
      while rest != {}
        invariant rest <= tops.Keys && Grows(old(counters), counters)
        invariant forall s | s in tops.Keys - rest :: tops[s] < TranscriptMachine.Next(counters, s)
        decreases |rest|
      {
        var s :| s in rest;
        counters := TranscriptMachine.Ensure(counters, s, tops[s] + 1);
        rest := rest - {s};
      }
      forall e | e in Elements(rows) ensures e.id < TranscriptMachine.Next(counters, e.session) {
        var j :| 0 <= j < |rows| && rows[j] == e;
        assert e.session in tops.Keys;
      }
    }

    /** The table's `list_run_events_since` */
    method TableSince(run: int, after: int, limit: nat) returns (rows: seq<Event>)
      requires Keyed(table)
      ensures IsPrefixOf(EventIds(rows), IdsAfter(table, run, after)) && |rows| == Min(limit, |IdsAfter(table, run, after)|)
      ensures forall i | 0 <= i < |rows| :: rows[i].id in table && rows[i] == table[rows[i].id]
    {
      var order := FirstRowIds(IdsAfter(table, run, after), limit);
      rows := [];
      for i := 0 to |order|
        invariant |rows| == i && forall j | 0 <= j < i :: order[j] in table && rows[j] == table[order[j]] && rows[j].id == order[j]
      {
        assert order[i] in IdsAfter(table, run, after);
        rows := rows + [table[order[i]]];
      }
      assert EventIds(rows) == order;
    }

    /** `_backfill_database_events`: for every batch size, all committed rows of the run reach the files, each
        once, and the counters end above them. */
    method BackfillDatabaseEvents(run: int, batchSize: nat)
      requires Valid() && Keyed(table) && batchSize >= 1 && forall id | id in table :: id >= 1
      requires Compatible(AllEvents(files) + RowsOf(table, run))
      modifies `files, `index, `counters
      ensures Valid() && AllEvents(files) == old(AllEvents(files)) + RowsOf(table, run)
      ensures Covers(counters, RowsOf(table, run)) && Grows(old(counters), counters)
      ensures forall e :: e in AllEvents(files) <==> e in old(AllEvents(files)) || exists id :: id in table && table[id] == e && e.run == run
      ensures forall id | id in table && table[id].run == run :: table[id].session in counters && id < counters[table[id].session]
    {
      ghost var before := AllEvents(files);
      var after := 0;
      RowsOfMeans(table, run);
      StartBackfill(table, run, before, counters);
      hide FilesInv, IndexInv, AllEvents, Covers, Grows, IdsAfter, Compatible, RowsUpTo, RowsOf, Keyed;
      var finished := false;
      while !finished
        invariant Valid() && AllEvents(files) == before + RowsUpTo(table, run, after)
        invariant Covers(counters, RowsUpTo(table, run, after)) && Grows(old(counters), counters)
        invariant finished ==> RowsUpTo(table, run, after) == RowsOf(table, run)
        decreases !finished, |IdsAfter(table, run, after)|
      {
        finished, after := BackfillBatch(run, after, batchSize, before, old(counters));
      }
      CoveredRows(table, run, counters);
    }

    /** One round of the loop: read a batch, materialize it, move the cursor. */
    method BackfillBatch(run: int, after: int, batchSize: nat, ghost before: set<Event>, ghost first: map<string, int>)
        returns (finished: bool, next: int)
      requires Valid() && Keyed(table) && batchSize >= 1 && Compatible(before + RowsOf(table, run))
      requires AllEvents(files) == before + RowsUpTo(table, run, after)
      requires Covers(counters, RowsUpTo(table, run, after)) && Grows(first, counters)
      modifies `files, `index, `counters
      ensures Valid() && AllEvents(files) == before + RowsUpTo(table, run, next)
      ensures Covers(counters, RowsUpTo(table, run, next)) && Grows(first, counters)
      ensures finished ==> RowsUpTo(table, run, next) == RowsOf(table, run)
      ensures !finished ==> |IdsAfter(table, run, next)| < |IdsAfter(table, run, after)|
    {
      hide FilesInv, IndexInv, AllEvents, Covers, Grows, IdsAfter, IsPrefixOf, Compatible, RowsUpTo, RowsOf, Elements, Keyed;
      var rows := TableSince(run, after, batchSize);
      BatchFacts(table, run, after, rows, batchSize);
      if rows == [] { return true, after; }
      RowsUpToAreRows(table, run, after);
      SubsetCompatible(AllEvents(files) + Elements(rows), before + RowsOf(table, run));
      ghost var reached := counters;
      MaterializeDatabaseEvents(rows);
      CoverMore(first, reached, counters, RowsUpTo(table, run, after), Elements(rows));
      next := rows[|rows| - 1].id;
      finished := |rows| < batchSize;
    }
  }

  function EventIds(rows: seq<Event>): seq<int> { seq(|rows|, i requires 0 <= i < |rows| => rows[i].id) }

  predicate Keyed(table: map<int, Event>) { forall id | id in table :: table[id].id == id }

  function Elements(rows: seq<Event>): set<Event> { set e | e in rows }

  function RowsOf(table: map<int, Event>, run: int): set<Event> { set id | id in table && table[id].run == run :: table[id] }

  lemma RowsOfMeans(table: map<int, Event>, run: int)
    ensures forall e :: e in RowsOf(table, run) <==> exists id :: id in table && table[id] == e && e.run == run
  {
  }

  lemma CoveredRows(table: map<int, Event>, run: int, counters: map<string, int>)
    requires Keyed(table) && Covers(counters, RowsOf(table, run)) && forall id | id in table :: id >= 1
    ensures forall id | id in table && table[id].run == run :: table[id].session in counters && id < counters[table[id].session]
  {
    forall id | id in table && table[id].run == run ensures table[id].session in counters && id < counters[table[id].session] {
      assert table[id] in RowsOf(table, run) && table[id].id == id;
    }
  }

  function RowsUpTo(table: map<int, Event>, run: int, top: int): set<Event> {
    set id | id in table && table[id].run == run && id <= top :: table[id]
  }

  function IdsAfter(table: map<int, Event>, run: int, after: int): set<int> {
    set id | id in table && table[id].run == run && id > after
  }

  /** The sequence rows are above the events. */
  ghost predicate Covers(counters: map<string, int>, events: set<Event>) {
    forall e | e in events :: e.id < TranscriptMachine.Next(counters, e.session)
  }

  ghost predicate Grows(before: map<string, int>, after: map<string, int>) {
    forall s :: TranscriptMachine.Next(before, s) <= TranscriptMachine.Next(after, s)
  }

  lemma ElementsStep(rows: seq<Event>, i: nat)
    requires i < |rows|
    ensures Elements(rows[..i + 1]) == Elements(rows[..i]) + {rows[i]} <= Elements(rows)
  {
    assert rows[..i + 1] == rows[..i] + [rows[i]];
  }

  lemma SubsetCompatible(a: set<Event>, b: set<Event>)
    requires a <= b && Compatible(b)
    ensures Compatible(a)
  {
  }

  lemma StartBackfill(table: map<int, Event>, run: int, before: set<Event>, counters: map<string, int>)
    requires forall id | id in table :: id >= 1
    ensures before + RowsUpTo(table, run, 0) == before
    ensures Covers(counters, RowsUpTo(table, run, 0)) && Grows(counters, counters)
  {
    assert RowsUpTo(table, run, 0) == {};
  }

  lemma RowsUpToAreRows(table: map<int, Event>, run: int, top: int)
    ensures RowsUpTo(table, run, top) <= RowsOf(table, run)
  {
  }

  lemma CoverMore(first: map<string, int>, reached: map<string, int>, counters: map<string, int>, a: set<Event>, b: set<Event>)
    requires Covers(reached, a) && Covers(counters, b) && Grows(first, reached) && Grows(reached, counters)
    ensures Covers(counters, a + b) && Grows(first, counters)
  {
    forall s ensures TranscriptMachine.Next(first, s) <= TranscriptMachine.Next(counters, s) {
      assert TranscriptMachine.Next(first, s) <= TranscriptMachine.Next(reached, s);
    }
    forall e | e in a ensures e.id < TranscriptMachine.Next(counters, e.session) {
      assert TranscriptMachine.Next(reached, e.session) <= TranscriptMachine.Next(counters, e.session);
    }
  }

  /** One batch: it takes the rows up to its last id, and a short batch takes the rest. */
  lemma BatchFacts(table: map<int, Event>, run: int, after: int, rows: seq<Event>, batchSize: nat)
    requires Keyed(table) && batchSize >= 1
    requires IsPrefixOf(EventIds(rows), IdsAfter(table, run, after)) && |rows| == Min(batchSize, |IdsAfter(table, run, after)|)
    requires forall i | 0 <= i < |rows| :: rows[i].id in table && rows[i] == table[rows[i].id]
    ensures rows == [] ==> RowsUpTo(table, run, after) == RowsOf(table, run)
    ensures Elements(rows) <= RowsOf(table, run)
    ensures rows != [] ==>
              var top := rows[|rows| - 1].id;
              && RowsUpTo(table, run, top) == RowsUpTo(table, run, after) + Elements(rows)
              && |IdsAfter(table, run, top)| < |IdsAfter(table, run, after)|
              && (|rows| < batchSize ==> RowsUpTo(table, run, top) == RowsOf(table, run))
  {
    var all, ids := IdsAfter(table, run, after), EventIds(rows);
    BatchIds(ids, all, batchSize);
    hide IsPrefixOf;
    if rows == [] {
      assert all == {};
      forall id | id in table && table[id].run == run ensures id <= after { assert id !in all; }
    } else {
      var top := ids[|ids| - 1];
      BatchRows(table, run, after, ids, rows, top);
      hide RowsUpTo, RowsOf, Elements;
      IdsShrink(table, run, after, top);
      if |rows| < batchSize {
        forall id | id in table && table[id].run == run ensures id <= top { if id > after { assert id in all; } }
        AllRows(table, run, top);
      }
    }
  }

  lemma AllRows(table: map<int, Event>, run: int, top: int)
    requires forall id | id in table && table[id].run == run :: id <= top
    ensures RowsUpTo(table, run, top) == RowsOf(table, run)
  {
  }

  lemma IdsShrink(table: map<int, Event>, run: int, after: int, top: int)
    requires top in IdsAfter(table, run, after)
    ensures |IdsAfter(table, run, top)| < |IdsAfter(table, run, after)|
  {
    SubsetSize(IdsAfter(table, run, top), IdsAfter(table, run, after) - {top});
  }

  lemma BatchIds(ids: seq<int>, all: set<int>, batchSize: nat)
    requires IsPrefixOf(ids, all) && |ids| == Min(batchSize, |all|) && batchSize >= 1
    ensures ids == [] ==> all == {}
    ensures forall i | 0 <= i < |ids| :: ids[i] in all
    ensures ids != [] ==> forall id | id in all :: id in ids <==> id <= ids[|ids| - 1]
    ensures |ids| < batchSize ==> forall id | id in all :: id in ids
  {
    if |ids| < batchSize { AllRowIds(ids, all); }
    forall id | id in all && id in ids ensures id <= ids[|ids| - 1] {
      var i :| 0 <= i < |ids| && ids[i] == id;
    }
  }

  lemma BatchRows(table: map<int, Event>, run: int, after: int, ids: seq<int>, rows: seq<Event>, top: int)
    requires |rows| == |ids| && forall i | 0 <= i < |rows| :: ids[i] in IdsAfter(table, run, after) && rows[i] == table[ids[i]]
    requires forall id | id in IdsAfter(table, run, after) :: id in ids <==> id <= top
    requires top in IdsAfter(table, run, after)
    ensures Elements(rows) <= RowsOf(table, run)
    ensures RowsUpTo(table, run, top) == RowsUpTo(table, run, after) + Elements(rows)
  {
    forall e ensures e in RowsUpTo(table, run, top) <==> e in RowsUpTo(table, run, after) + Elements(rows) {
      if e in RowsUpTo(table, run, top) {
        var id :| id in table && table[id].run == run && id <= top && table[id] == e;
        if id > after {
          assert id in IdsAfter(table, run, after) && id in ids;
          var i :| 0 <= i < |ids| && ids[i] == id;
          assert rows[i] == e;
        }
      }
      if e in Elements(rows) {
        var i :| 0 <= i < |rows| && rows[i] == e;
        assert ids[i] in ids && ids[i] <= top;
      }
    }
  }

  lemma ListingInOrder(list: seq<Event>, events: set<Event>)
    requires IsListing(list, events)
    ensures InOrder(list)
  {
  }

  lemma FitsAtHome(files: Files, row: Event)
    requires FilesInv(files)
    ensures Fits(files, row) ==> SameHome(files, row)
    ensures Fits(files, row) && HasEvent(FileOf(files, row.session), row) ==> AllEvents(files) + {row} == AllEvents(files)
  {
    if Fits(files, row) {
      FileEvents(files, row.session);
      if HasEvent(FileOf(files, row.session), row) { SameEvent(files, FileOf(files, row.session), row); }
    }
  }

  /** All events of the files already read come from other sessions than the next file. */
  lemma NoRepeatsAcross(files: Files, rows: seq<Event>, s: string)
    requires FilesInv(files) && s in files && NoRepeats(rows)
    requires forall e | e in rows :: e.session != s && e.session in files && e in EventsOf(files[e.session])
    ensures NoRepeats(rows + EventsOf(files[s]))
  {
    var list := EventsOf(files[s]);
    forall i, j | 0 <= i < |rows| && 0 <= j < |list| ensures rows[i].run != list[j].run {
      assert rows[i] in rows && list[j] in list;
      assert rows[i] in AllEvents(files) && list[j] in AllEvents(files);
    }
  }

  lemma EventsBySession(files: Files)
    requires FilesInv(files)
    ensures forall e :: e in AllEvents(files) <==> e.session in files && e in EventsOf(files[e.session])
  {
  }

  lemma PrefixBefore(rows: seq<Event>, i: nat, list: seq<Event>)
    requires i < |rows| && forall e | e in list :: e in rows[..i]
    ensures InOrder(rows) ==> forall j | 0 <= j < |list| :: Before(list[j], rows[i])
    ensures NoRepeats(rows) ==> forall j | 0 <= j < |list| :: list[j].run != rows[i].run || list[j].id != rows[i].id
  {
    forall j | 0 <= j < |list| ensures exists k :: 0 <= k < i && rows[k] == list[j] { assert list[j] in list; }
  }
}
