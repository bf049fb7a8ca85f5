/** The append-only transcript file and the view its reader folds out of it.

    A session's file is a sequence of records.  The reader keeps the first turn of every
    (profile, session, id) key, remembers the largest prune boundary of every
    (profile, session), and yields the turns above their boundary in id order.  The central
    result is that this view depends only on the SET of facts in the file: order,
    repetition and the creation times of the records do not matter. */
module TranscriptLog {
  import opened Ordering

  datatype Key = Key(profile: string, session: string, id: int)
  datatype Content = Content(user: string, assistant: string)
  datatype Row = Row(key: Key, content: Content, createdAt: int)

  /** One line of the file.  `Unreadable` stands for every line the reader skips: blank lines,
      truncated JSON, missing fields, unknown operations. */
  datatype Record = Turn(row: Row) | Prune(profile: string, session: string, boundary: int) | Unreadable

  /** What a record says, without the time at which the line was written. */
  datatype Fact = TurnFact(key: Key, content: Content) | PruneFact(profile: string, session: string, boundary: int)

  function FactOf(row: Row): Fact { TurnFact(row.key, row.content) }

  function FactsOf(r: Record): set<Fact> {
    match r
    case Turn(row) => {FactOf(row)}
    case Prune(p, s, b) => {PruneFact(p, s, b)}
    case Unreadable => {}
  }

  function Facts(log: seq<Record>): set<Fact> {
    if log == [] then {} else Facts(log[..|log| - 1]) + FactsOf(log[|log| - 1])
  }

  lemma FactsAppend(log: seq<Record>, r: Record)
    ensures Facts(log + [r]) == Facts(log) + FactsOf(r)
  {
    assert (log + [r])[..|log|] == log;
  }

  // ----- the fold, as the reader performs it -----

  function Keys(log: seq<Record>): set<Key> {
    if log == [] then {}
    else
      var last := log[|log| - 1];
      Keys(log[..|log| - 1]) + (if last.Turn? then {last.row.key} else {})
  }

  /** `dict.setdefault`: the first row written under a key wins. */
  function First(log: seq<Record>, k: Key): Row
    requires k in Keys(log)
  {
    var prefix := log[..|log| - 1];
    if k in Keys(prefix) then First(prefix, k) else log[|log| - 1].row
  }

  function Bound(log: seq<Record>, profile: string, session: string): int {
    if log == [] then 0
    else
      var last := log[|log| - 1];
      var b := Bound(log[..|log| - 1], profile, session);
      if last.Prune? && last.profile == profile && last.session == session then Max(b, last.boundary) else b
  }

  predicate IsVisible(log: seq<Record>, k: Key) {
    k in Keys(log) && k.id > Bound(log, k.profile, k.session)
  }

  function View(log: seq<Record>): map<Key, Row> {
    map k | k in Keys(log) && IsVisible(log, k) :: First(log, k)
  }

  function VisibleFacts(log: seq<Record>): set<Fact> {
    set k | k in View(log) :: FactOf(View(log)[k])
  }

  // ----- the same view, declaratively, on a set of facts -----

  ghost predicate Consistent(facts: set<Fact>) {
    forall f, g | f in facts && g in facts && f.TurnFact? && g.TurnFact? && f.key == g.key :: f == g
  }

  ghost predicate Hidden(facts: set<Fact>, k: Key) {
    k.id <= 0 || exists b :: PruneFact(k.profile, k.session, b) in facts && k.id <= b
  }

  ghost function Visible(facts: set<Fact>): set<Fact> {
    set f | f in facts && f.TurnFact? && !Hidden(facts, f.key)
  }

  lemma {:induction false} BoundHides(log: seq<Record>, k: Key)
    ensures k.id <= Bound(log, k.profile, k.session) <==> Hidden(Facts(log), k)
    decreases |log|
  {
    if log != [] {
      var prefix, last := log[..|log| - 1], log[|log| - 1];
      BoundHides(prefix, k);
      assert Facts(log) == Facts(prefix) + FactsOf(last);
      if last.Prune? && last.profile == k.profile && last.session == k.session {
        assert PruneFact(k.profile, k.session, last.boundary) in Facts(log);
      }
    }
  }

  lemma {:induction false} FirstIsAFact(log: seq<Record>, k: Key)
    requires k in Keys(log)
    ensures First(log, k).key == k
    ensures FactOf(First(log, k)) in Facts(log)
    decreases |log|
  {
    var prefix := log[..|log| - 1];
    if k in Keys(prefix) { FirstIsAFact(prefix, k); }
  }

  lemma {:induction false} TurnFactHasKey(log: seq<Record>, f: Fact)
    requires f in Facts(log) && f.TurnFact?
    ensures f.key in Keys(log)
    decreases |log|
  {
    var prefix := log[..|log| - 1];
    if f in Facts(prefix) { TurnFactHasKey(prefix, f); }
  }

  /** The reader's view is a function of the set of facts in the file. */
  lemma ViewIsVisible(log: seq<Record>)
    requires Consistent(Facts(log))
    ensures VisibleFacts(log) == Visible(Facts(log))
  {
    var facts := Facts(log);
    forall f ensures f in VisibleFacts(log) <==> f in Visible(facts) {
      if f in VisibleFacts(log) {
        var k :| k in View(log) && f == FactOf(View(log)[k]);
        FirstIsAFact(log, k);
        BoundHides(log, k);
      }
      if f in Visible(facts) {
        TurnFactHasKey(log, f);
        FirstIsAFact(log, f.key);
        BoundHides(log, f.key);
        assert f == FactOf(View(log)[f.key]);
      }
    }
  }

  /** Permuting, duplicating or interleaving the records of a file leaves its view unchanged. */
  lemma ViewIgnoresOrderAndRepetition(a: seq<Record>, b: seq<Record>)
    requires Facts(a) == Facts(b) && Consistent(Facts(a))
    ensures VisibleFacts(a) == VisibleFacts(b)
  {
    ViewIsVisible(a);
    ViewIsVisible(b);
  }

  lemma {:induction false} SameRecordsSameFacts(a: seq<Record>, b: seq<Record>)
    requires forall r :: r in a <==> r in b
    ensures Facts(a) == Facts(b)
  {
    RecordFacts(a);
    RecordFacts(b);
  }

  lemma {:induction false} RecordFacts(log: seq<Record>)
    ensures forall f :: f in Facts(log) <==> exists r :: r in log && f in FactsOf(r)
    decreases |log|
  {
    if log != [] {
      var prefix, last := log[..|log| - 1], log[|log| - 1];
      RecordFacts(prefix);
      assert log == prefix + [last];
      forall f ensures f in Facts(log) <==> exists r :: r in log && f in FactsOf(r) {
        if f in FactsOf(last) { assert last in log; }
        if f in Facts(prefix) {
          var r :| r in prefix && f in FactsOf(r);
          assert r in log;
        }
      }
    }
  }

  // ----- appending -----

  /** The store appends a turn only when its key is not visible; a pruned turn is written again. */
  function AppendTurn(log: seq<Record>, row: Row): seq<Record> {
    if row.key in View(log) then log else log + [Turn(row)]
  }

  /** Whether or not the line is written, the file afterwards says what it said plus the turn:
      re-applying a turn is idempotent, and applications commute. */
  lemma AppendTurnFacts(log: seq<Record>, row: Row)
    requires Consistent(Facts(log) + {FactOf(row)})
    ensures Facts(AppendTurn(log, row)) == Facts(log) + {FactOf(row)}
  {
    if row.key in View(log) {
      FirstIsAFact(log, row.key);
      assert FactOf(First(log, row.key)) == FactOf(row);
    } else {
      FactsAppend(log, Turn(row));
    }
  }

  /** A prune removes exactly the ids of that profile and session up to its boundary. */
  lemma PruneRemovesExactly(facts: set<Fact>, p: string, s: string, b: int)
    ensures Visible(facts + {PruneFact(p, s, b)}) ==
            set f | f in Visible(facts) && !(f.key.profile == p && f.key.session == s && f.key.id <= b)
  {
    var after := facts + {PruneFact(p, s, b)};
    forall k ensures Hidden(after, k) <==> Hidden(facts, k) || (k.profile == p && k.session == s && k.id <= b) {
      if k.profile == p && k.session == s && k.id <= b {
        assert PruneFact(k.profile, k.session, b) in after;
      }
      if Hidden(facts, k) && k.id > 0 {
        var c :| PruneFact(k.profile, k.session, c) in facts && k.id <= c;
        assert PruneFact(k.profile, k.session, c) in after;
      }
    }
  }

  /** Backfill may write pruned turns again; the view does not change. */
  lemma HiddenTurnsDoNotMatter(facts: set<Fact>, again: set<Fact>)
    requires forall f | f in again :: f.TurnFact? && (f in facts || Hidden(facts, f.key))
    ensures Visible(facts + again) == Visible(facts)
  {
    SamePrunesSameHidden(facts, facts + again);
  }

  lemma SamePrunesSameHidden(a: set<Fact>, b: set<Fact>)
    requires forall f: Fact | f.PruneFact? :: f in a <==> f in b
    ensures forall k :: Hidden(a, k) <==> Hidden(b, k)
  {
    forall k ensures Hidden(a, k) <==> Hidden(b, k) {
      if Hidden(a, k) && k.id > 0 {
        var c :| PruneFact(k.profile, k.session, c) in a && k.id <= c;
        assert PruneFact(k.profile, k.session, c) in b;
      }
      if Hidden(b, k) && k.id > 0 {
        var c :| PruneFact(k.profile, k.session, c) in b && k.id <= c;
        assert PruneFact(k.profile, k.session, c) in a;
      }
    }
  }

  // ----- the reader -----

  ghost predicate SortedById(rows: seq<Row>) {
    forall i, j | 0 <= i < j < |rows| :: rows[i].key.id <= rows[j].key.id
  }

  ghost predicate DistinctKeys(rows: seq<Row>) {
    forall i, j | 0 <= i < j < |rows| :: rows[i].key != rows[j].key
  }

  /** `rows` lists the view of `log` once each, in id order. */
  ghost predicate Lists(rows: seq<Row>, log: seq<Record>) {
    && SortedById(rows)
    && DistinctKeys(rows)
    && (forall row :: row in rows <==> row.key in View(log) && View(log)[row.key] == row)
  }

  /** One step of a stable insertion by id: after the equal ids already there. */
  function InsertById(rows: seq<Row>, row: Row): (r: seq<Row>)
    ensures |r| == |rows| + 1
    ensures forall x :: x in r <==> x == row || x in rows
    decreases |rows|
  {
    if rows == [] || rows[|rows| - 1].key.id <= row.key.id then rows + [row]
    else
      var prefix, last := rows[..|rows| - 1], rows[|rows| - 1];
      assert rows == prefix + [last];
      InsertById(prefix, row) + [last]
  }

  lemma {:induction false} InsertKeepsOrder(rows: seq<Row>, row: Row)
    requires SortedById(rows) && DistinctKeys(rows) && forall x | x in rows :: x.key != row.key
    ensures SortedById(InsertById(rows, row)) && DistinctKeys(InsertById(rows, row))
    decreases |rows|
  {
    if rows != [] && rows[|rows| - 1].key.id > row.key.id {
      var prefix, last := rows[..|rows| - 1], rows[|rows| - 1];
      InsertKeepsOrder(prefix, row);
      forall x | x in prefix ensures x.key.id <= last.key.id && x.key != last.key {
        var j :| 0 <= j < |prefix| && prefix[j] == x;
        assert rows[j] == x;
      }
      var r := InsertById(prefix, row);
      hide InsertById;
      forall i | 0 <= i < |r| ensures r[i].key.id <= last.key.id && r[i].key != last.key { assert r[i] in r; }
      assert last in rows;
      LastInOrder(r, last);
      assert InsertById(rows, row) == r + [last] by { InsertBefore(rows, row); }
    }
  }

  lemma InsertBefore(rows: seq<Row>, row: Row)
    requires rows != [] && rows[|rows| - 1].key.id > row.key.id
    ensures InsertById(rows, row) == InsertById(rows[..|rows| - 1], row) + [rows[|rows| - 1]]
  {
  }

  lemma LastInOrder(r: seq<Row>, last: Row)
    requires SortedById(r) && DistinctKeys(r) && forall i | 0 <= i < |r| :: r[i].key.id <= last.key.id && r[i].key != last.key
    ensures SortedById(r + [last]) && DistinctKeys(r + [last])
  {
  }

  function BoundOf(bounds: map<(string, string), int>, p: string, s: string): int {
    if (p, s) in bounds then bounds[(p, s)] else 0
  }

  ghost predicate Collected(log: seq<Record>, order: seq<Row>, bounds: map<(string, string), int>) {
    && DistinctKeys(order)
    && (forall row :: row in order <==> row.key in Keys(log) && First(log, row.key) == row)
    && (forall p, s :: BoundOf(bounds, p, s) == Bound(log, p, s))
  }

  method ReadTranscriptRows(log: seq<Record>) returns (rows: seq<Row>)
    ensures Lists(rows, log)
  {
    var order, bounds := CollectRecords(log);
    var sorted := SortRows(order);
    rows := [];
    for i := 0 to |sorted|
      invariant forall row :: row in rows <==> row in sorted[..i] && IsVisible(log, row.key)
      invariant SortedById(rows) && DistinctKeys(rows)
    {
      var row := sorted[i];
      assert row in sorted;
      assert sorted[..i + 1] == sorted[..i] + [row];
      if row.key.id > BoundOf(bounds, row.key.profile, row.key.session) {
        forall j | 0 <= j < |rows| ensures rows[j].key.id <= row.key.id && rows[j].key != row.key {
          assert rows[j] in rows;
        }
        rows := rows + [row];
      }
    }
    assert sorted[..|sorted|] == sorted;
  }

  /** The loop over the lines: `setdefault` on the rows, `max` on the boundaries. */
  method CollectRecords(log: seq<Record>) returns (order: seq<Row>, bounds: map<(string, string), int>)
    ensures Collected(log, order, bounds)
  {
    var seen: set<Key> := {};
    order, bounds := [], map[];
    for i := 0 to |log|
      invariant seen == Keys(log[..i])
      invariant Collected(log[..i], order, bounds)
    {
      assert log[..i + 1][..i] == log[..i];
      CollectStep(log[..i], log[i], order, bounds);
      match log[i]
      case Turn(row) =>
        if row.key !in seen {
          seen := seen + {row.key};
          order := order + [row];
        }
      case Prune(p, s, b) =>
        bounds := bounds[(p, s) := Max(BoundOf(bounds, p, s), b)];
      case Unreadable =>
      assert log[..i + 1] == log[..i] + [log[i]];
    }
    assert log[..|log|] == log;
  }

  lemma CollectStep(log: seq<Record>, r: Record, order: seq<Row>, bounds: map<(string, string), int>)
    requires Collected(log, order, bounds)
    ensures r.Turn? && r.row.key !in Keys(log) ==> Collected(log + [r], order + [r.row], bounds)
    ensures r.Turn? && r.row.key in Keys(log) ==> Collected(log + [r], order, bounds)
    ensures r.Prune? ==> Collected(log + [r], order,
                                   bounds[(r.profile, r.session) := Max(BoundOf(bounds, r.profile, r.session), r.boundary)])
    ensures r.Unreadable? ==> Collected(log + [r], order, bounds)
  {
    var after := log + [r];
    assert after[..|after| - 1] == log && after[|after| - 1] == r;
    forall p, s ensures Bound(after, p, s) ==
                        if r.Prune? && r.profile == p && r.session == s then Max(Bound(log, p, s), r.boundary) else Bound(log, p, s) {}
    forall k | k in Keys(log) ensures k in Keys(after) && First(after, k) == First(log, k) {}
    if r.Turn? && r.row.key !in Keys(log) {
      forall j | 0 <= j < |order| ensures order[j].key != r.row.key { assert order[j] in order; }
    }
  }

  method SortRows(order: seq<Row>) returns (sorted: seq<Row>)
    requires DistinctKeys(order)
    ensures SortedById(sorted) && DistinctKeys(sorted)
    ensures forall row :: row in sorted <==> row in order
  {
    sorted := [];
    for i := 0 to |order|
      invariant SortedById(sorted) && DistinctKeys(sorted)
      invariant forall row :: row in sorted <==> row in order[..i]
    {
      assert order[..i + 1] == order[..i] + [order[i]];
      InsertKeepsOrder(sorted, order[i]);
      sorted := InsertById(sorted, order[i]);
    }
    assert order[..|order|] == order;
  }
}
