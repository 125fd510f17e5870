/**
 * The two tables of the tracker database (`trackers` and `history`) and the single
 * SQL statements the helper issues against them, each as a function from table
 * state to table state.
 */
module Tables {
  import opened Wrappers

  /** A Java `double` (latitude, longitude): only copied and compared for equality. */
  type Double(==, !new)

  /** A Java `float` (speed): only copied. */
  type Float(==, !new)

  /** What `SQLiteDatabase.insert` returns when the row could not be inserted. */
  const InsertFailed: int := -1

  /** A row of `trackers`: id, moid, imei, sender (NOT NULL UNIQUE), title, icon. */
  datatype TrackerRow = TrackerRow(id: int, moid: int, imei: string, sender: string, title: string, icon: string)

  /** A row of `history`; a NULL `moid` reads back as 0, and that is how it is stored here. */
  datatype HistoryRow = HistoryRow(pointId: int, trackerId: int, moid: int, lat: Double, lon: Double,
                                   speed: Float, battery: int, signal: int, time: int)

  /** The in-memory `Tracker` object: a tracker row joined with one position sample. */
  datatype Tracker = Tracker(id: int, moid: int, name: string, image: string, imei: string, sender: string,
                             lat: Double, lon: Double, speed: Float, battery: int, signal: int, time: int)

  /** Both tables, plus the AUTOINCREMENT counter of `history`. */
  datatype Db = Db(trackers: seq<TrackerRow>, history: seq<HistoryRow>, lastPointId: int)

  // ---------------------------------------------------------------------------
  // Integrity of the tables

  predicate UniqueSenders(trackers: seq<TrackerRow>) {
    forall i, j :: 0 <= i < j < |trackers| ==> trackers[i].sender != trackers[j].sender
  }

  predicate UniqueIds(trackers: seq<TrackerRow>) {
    forall i, j :: 0 <= i < j < |trackers| ==> trackers[i].id != trackers[j].id
  }

  predicate HasTracker(trackers: seq<TrackerRow>, id: int) {
    exists i :: 0 <= i < |trackers| && trackers[i].id == id
  }

  predicate HasHistory(history: seq<HistoryRow>, trackerId: int) {
    exists j :: 0 <= j < |history| && history[j].trackerId == trackerId
  }

  /** History rows are kept in insertion order, so their AUTOINCREMENT keys increase. */
  predicate PointsIncreasing(history: seq<HistoryRow>) {
    forall i, j :: 0 <= i < j < |history| ==> history[i].pointId < history[j].pointId
  }

  predicate DistinctPoints(rows: seq<HistoryRow>) {
    forall i, j :: 0 <= i < j < |rows| ==> rows[i].pointId != rows[j].pointId
  }

  /**
   * The state the helper keeps the store in: the schema's UNIQUE sender and primary
   * keys, tracker rowids from 1 on, the AUTOINCREMENT counter ahead of every point id, the foreign key when
   * `fk` (the connection enforces foreign keys), and every tracker row owning at
   * least one history row (each insertion of a tracker is followed by its footprint).
   */
  predicate WellFormed(db: Db, fk: bool) {
    && UniqueSenders(db.trackers)
    && UniqueIds(db.trackers)
    && (forall i :: 0 <= i < |db.trackers| ==> db.trackers[i].id >= 1)
    && PointsIncreasing(db.history)
    && (forall j :: 0 <= j < |db.history| ==> 1 <= db.history[j].pointId <= db.lastPointId)
    && (fk ==> forall j :: 0 <= j < |db.history| ==> HasTracker(db.trackers, db.history[j].trackerId))
    && (forall i :: 0 <= i < |db.trackers| ==> HasHistory(db.history, db.trackers[i].id))
  }

  // ---------------------------------------------------------------------------
  // Queries

  /** `SELECT * FROM trackers WHERE sender = ?`, first row. */
  function FindBySender(trackers: seq<TrackerRow>, sender: string): (r: Option<TrackerRow>)
    ensures r.Some? ==> r.value in trackers && r.value.sender == sender
    ensures r.None? <==> forall i :: 0 <= i < |trackers| ==> trackers[i].sender != sender
  {
    if trackers == [] then None
    else if trackers[0].sender == sender then Some(trackers[0])
    else FindBySender(trackers[1..], sender)
  }

  /** `WHERE tracker_id = ?` over `history`, in table order. */
  function RowsOf(history: seq<HistoryRow>, trackerId: int): (r: seq<HistoryRow>)
    ensures forall h :: h in r <==> h in history && h.trackerId == trackerId
    ensures PointsIncreasing(history) ==> PointsIncreasing(r)
    decreases |history|
  {
    if history == [] then []
    else
      var prefix := history[..|history| - 1];
      var last := history[|history| - 1];
      var rest := RowsOf(prefix, trackerId);
      assert forall h :: h in history <==> h in prefix || h == last by {
        assert history == prefix + [last];
      }
      PrefixIncreasing(history);
      if last.trackerId == trackerId then
        AppendIncreasing(rest, last);
        rest + [last]
      else rest
  }

  /** The prefix of an increasing history is increasing and below its last key. */
  lemma PrefixIncreasing(history: seq<HistoryRow>)
    requires history != []
    ensures PointsIncreasing(history) ==>
              && PointsIncreasing(history[..|history| - 1])
              && forall h :: h in history[..|history| - 1] ==> h.pointId < history[|history| - 1].pointId
  {
    var prefix := history[..|history| - 1];
    if PointsIncreasing(history) {
      forall h | h in prefix
        ensures h.pointId < history[|history| - 1].pointId
      {
        var i :| 0 <= i < |prefix| && prefix[i] == h;
        assert history[i] == h;
      }
    }
  }

  /** Appending a row with a larger key to an increasing sequence keeps it increasing. */
  lemma AppendIncreasing(rest: seq<HistoryRow>, last: HistoryRow)
    ensures PointsIncreasing(rest) && (forall h :: h in rest ==> h.pointId < last.pointId) ==>
              PointsIncreasing(rest + [last])
  {
    var r := rest + [last];
    if PointsIncreasing(rest) && (forall h :: h in rest ==> h.pointId < last.pointId) {
      forall i, j | 0 <= i < j < |r|
        ensures r[i].pointId < r[j].pointId
      {
        assert r[i] == rest[i];
        if j < |rest| {
          assert r[j] == rest[j];
        } else {
          assert rest[i] in rest;
        }
      }
    }
  }

  /** Appending a history row adds it to the rows of its own tracker only. */
  lemma RowsOfAppended(history: seq<HistoryRow>, h: HistoryRow, trackerId: int)
    ensures RowsOf(history + [h], trackerId) ==
            RowsOf(history, trackerId) + (if h.trackerId == trackerId then [h] else [])
  {
    assert (history + [h])[..|history|] == history;
  }

  /** The order of `ORDER BY time DESC`; rows of equal time put the later insertion first. */
  predicate AtLeastAsNew(a: HistoryRow, b: HistoryRow) {
    a.time > b.time || (a.time == b.time && a.pointId >= b.pointId)
  }

  predicate NewestFirst(rows: seq<HistoryRow>) {
    forall i, j :: 0 <= i < j < |rows| ==> AtLeastAsNew(rows[i], rows[j])
  }

  /** Every element of `r` is dominated by `a` when `r` holds the elements of `s` and `x`. */
  lemma DominatesAll(a: HistoryRow, x: HistoryRow, s: seq<HistoryRow>, r: seq<HistoryRow>)
    requires multiset(r) == multiset(s) + multiset{x}
    requires AtLeastAsNew(a, x)
    requires forall k :: 0 <= k < |s| ==> AtLeastAsNew(a, s[k])
    ensures forall k :: 0 <= k < |r| ==> AtLeastAsNew(a, r[k])
  {
    forall k | 0 <= k < |r|
      ensures AtLeastAsNew(a, r[k])
    {
      assert r[k] in multiset(r);
      if r[k] != x {
        assert r[k] in multiset(s);
        assert r[k] in s;
      }
    }
  }

  /** A row at least as new as every row of a sorted sequence can go in front of it. */
  lemma ConsNewest(a: HistoryRow, s: seq<HistoryRow>)
    requires NewestFirst(s)
    requires forall k :: 0 <= k < |s| ==> AtLeastAsNew(a, s[k])
    ensures NewestFirst([a] + s)
  {
    var r := [a] + s;
    forall i, j | 0 <= i < j < |r|
      ensures AtLeastAsNew(r[i], r[j])
    {
      assert r[j] == s[j - 1];
      if i > 0 {
        assert r[i] == s[i - 1];
      }
    }
  }

  /** A row at least as new as the head of a sorted sequence (if any) is at least as new as all of it. */
  lemma HeadDominates(x: HistoryRow, s: seq<HistoryRow>)
    requires NewestFirst(s) && (s != [] ==> AtLeastAsNew(x, s[0]))
    ensures forall k :: 0 <= k < |s| ==> AtLeastAsNew(x, s[k])
  {
    forall k | 0 < k < |s|
      ensures AtLeastAsNew(x, s[k])
    {
      assert AtLeastAsNew(s[0], s[k]);
    }
  }

  function InsertByTime(x: HistoryRow, s: seq<HistoryRow>): (r: seq<HistoryRow>)
    requires NewestFirst(s)
    ensures NewestFirst(r)
    ensures multiset(r) == multiset(s) + multiset{x}
  {
    if s == [] || AtLeastAsNew(x, s[0]) then
      HeadDominates(x, s);
      ConsNewest(x, s);
      [x] + s
    else
      var rest := InsertByTime(x, s[1..]);
      assert s == [s[0]] + s[1..];
      assert forall k :: 0 <= k < |s[1..]| ==> AtLeastAsNew(s[0], s[1..][k]);
      DominatesAll(s[0], x, s[1..], rest);
      ConsNewest(s[0], rest);
      [s[0]] + rest
  }

  /** The rows of `s` sorted as `ORDER BY time DESC` returns them. */
  function SortNewestFirst(s: seq<HistoryRow>): (r: seq<HistoryRow>)
    ensures NewestFirst(r)
    ensures multiset(r) == multiset(s)
  {
    if s == [] then []
    else
      assert s == [s[0]] + s[1..];
      InsertByTime(s[0], SortNewestFirst(s[1..]))
  }

  /** `getTrackerFootprints`: the history of one tracker, newest first. */
  function GetTrackerFootprints(history: seq<HistoryRow>, trackerId: int): (r: seq<HistoryRow>)
    ensures NewestFirst(r)
    ensures forall h :: h in r <==> h in history && h.trackerId == trackerId
  {
    var rows := RowsOf(history, trackerId);
    var r := SortNewestFirst(rows);
    assert forall h :: h in r <==> h in multiset(rows);
    r
  }

  /** Inserting a row whose key is new into a sorted list keeps the keys distinct. */
  lemma {:induction false} InsertKeepsDistinct(x: HistoryRow, s: seq<HistoryRow>)
    requires NewestFirst(s) && DistinctPoints(s)
    requires forall k :: 0 <= k < |s| ==> s[k].pointId != x.pointId
    ensures DistinctPoints(InsertByTime(x, s))
    decreases |s|
  {
    if s != [] && !AtLeastAsNew(x, s[0]) {
      var rest := InsertByTime(x, s[1..]);
      InsertKeepsDistinct(x, s[1..]);
      forall k | 0 <= k < |rest|
        ensures rest[k].pointId != s[0].pointId
      {
        assert rest[k] in multiset(rest);
        if rest[k] != x {
          assert rest[k] in multiset(s[1..]);
          var m :| 0 <= m < |s[1..]| && s[1..][m] == rest[k];
          assert s[m + 1] == rest[k];
        }
      }
      assert InsertByTime(x, s) == [s[0]] + rest;
    }
  }

  /** Sorting keeps the keys distinct. */
  lemma {:induction false} SortKeepsDistinct(s: seq<HistoryRow>)
    requires DistinctPoints(s)
    ensures DistinctPoints(SortNewestFirst(s))
    decreases |s|
  {
    if s != [] {
      var rest := SortNewestFirst(s[1..]);
      SortKeepsDistinct(s[1..]);
      forall k | 0 <= k < |rest|
        ensures rest[k].pointId != s[0].pointId
      {
        assert rest[k] in multiset(s[1..]);
        var m :| 0 <= m < |s[1..]| && s[1..][m] == rest[k];
        assert s[m + 1] == rest[k];
      }
      InsertKeepsDistinct(s[0], rest);
    }
  }

  /** The footprints of one tracker in a history with increasing keys have distinct keys. */
  lemma FootprintsDistinct(history: seq<HistoryRow>, trackerId: int)
    requires PointsIncreasing(history)
    ensures DistinctPoints(GetTrackerFootprints(history, trackerId))
  {
    SortKeepsDistinct(RowsOf(history, trackerId));
  }

  /** A tracker row joined with one of its history rows (the body of `getFullInfoTracker`). */
  function Snapshot(row: TrackerRow, h: HistoryRow): (t: Tracker)
    ensures TrackerRow(t.id, t.moid, t.imei, t.sender, t.name, t.image) == row
    ensures Footprint(h.pointId, h.trackerId, t) == h.(moid := 0)
  {
    Tracker(row.id, row.moid, row.title, row.icon, row.imei, row.sender,
            h.lat, h.lon, h.speed, h.battery, h.signal, h.time)
  }

  /**
   * `getFullInfoTracker`: the tracker row joined with its newest history row, or
   * nothing when the tracker has no history at all.
   */
  function GetFullInfoTracker(row: TrackerRow, history: seq<HistoryRow>): (r: Option<Tracker>)
    ensures r.None? <==> !HasHistory(history, row.id)
    ensures r.Some? ==> exists h :: h in history && h.trackerId == row.id && r.value == Snapshot(row, h)
    ensures r.Some? ==> forall h :: h in history && h.trackerId == row.id ==> h.time <= r.value.time
  {
    var rows := GetTrackerFootprints(history, row.id);
    if rows == [] then
      assert forall j :: 0 <= j < |history| ==> history[j] in history;
      None
    else
      assert rows[0] in rows;
      assert HasHistory(history, row.id) by {
        var j :| 0 <= j < |history| && history[j] == rows[0];
      }
      assert forall h :: h in history && h.trackerId == row.id ==> h.time <= rows[0].time by {
        forall h | h in history && h.trackerId == row.id
          ensures h.time <= rows[0].time
        {
          assert h in rows;
          var k :| 0 <= k < |rows| && rows[k] == h;
          assert k == 0 || AtLeastAsNew(rows[0], rows[k]);
        }
      }
      Some(Snapshot(row, rows[0]))
  }

  /**
   * `getTracker`: the tracker with this sender, carrying its newest position;
   * nothing when no row has the sender or that row has no history.
   */
  function GetTracker(db: Db, sender: string): (r: Option<Tracker>)
    requires UniqueSenders(db.trackers)
    ensures r.Some? ==> r.value.sender == sender && HasTracker(db.trackers, r.value.id)
    ensures r.Some? ==> exists i, h :: 0 <= i < |db.trackers| && db.trackers[i].sender == sender &&
                                       h in db.history && h.trackerId == db.trackers[i].id &&
                                       r.value == Snapshot(db.trackers[i], h)
    ensures r.Some? ==> forall h :: h in db.history && h.trackerId == r.value.id ==> h.time <= r.value.time
    ensures r.None? <==> forall i :: 0 <= i < |db.trackers| && db.trackers[i].sender == sender ==>
                                       !HasHistory(db.history, db.trackers[i].id)
  {
    match FindBySender(db.trackers, sender)
    case None => None
    case Some(row) =>
      var r := GetFullInfoTracker(row, db.history);
      assert forall i :: 0 <= i < |db.trackers| && db.trackers[i].sender == sender ==> db.trackers[i] == row;
      r
  }

  /** Under WellFormed a known sender always has a position, so `getTracker` reports exactly the unknown senders. */
  lemma GetTrackerKnownSender(db: Db, fk: bool, sender: string)
    requires WellFormed(db, fk)
    ensures GetTracker(db, sender).None? <==> FindBySender(db.trackers, sender).None?
  {
  }

  // ---------------------------------------------------------------------------
  // Statements

  /** The largest tracker id, or 0 for an empty table. */
  function MaxTrackerId(trackers: seq<TrackerRow>): (m: int)
    ensures m >= 0
    ensures forall i :: 0 <= i < |trackers| ==> trackers[i].id <= m
  {
    if trackers == [] then 0
    else
      var rest := MaxTrackerId(trackers[..|trackers| - 1]);
      var last := trackers[|trackers| - 1].id;
      if last > rest then last else rest
  }

  /**
   * `db.insert(TABLE_TRACKERS, ...)` with moid, title, icon, imei, sender taken from
   * `t`. The rowid is one past the largest; a sender already present violates UNIQUE
   * and the insert returns -1.
   */
  function InsertTracker(db: Db, t: Tracker): (r: (Db, int))
    ensures FindBySender(db.trackers, t.sender).Some? ==> r == (db, InsertFailed)
    ensures FindBySender(db.trackers, t.sender).None? ==>
              && r.1 >= 1 && !HasTracker(db.trackers, r.1)
              && r.0 == db.(trackers := db.trackers + [TrackerRow(r.1, t.moid, t.imei, t.sender, t.name, t.image)])
  {
    if FindBySender(db.trackers, t.sender).Some? then (db, InsertFailed)
    else
      var id := MaxTrackerId(db.trackers) + 1;
      (db.(trackers := db.trackers + [TrackerRow(id, t.moid, t.imei, t.sender, t.name, t.image)]), id)
  }

  /** The history row `db.insert(TABLE_HISTORY, ...)` writes for `t`; moid is left NULL. */
  function Footprint(pointId: int, trackerId: int, t: Tracker): (r: HistoryRow) {
    HistoryRow(pointId, trackerId, 0, t.lat, t.lon, t.speed, t.battery, t.signal, t.time)
  }

  /**
   * `db.insert(TABLE_HISTORY, ...)` for `t` under `trackerId`: the next AUTOINCREMENT
   * key, or -1 when foreign keys are enforced and no tracker has that id.
   */
  function InsertFootprint(db: Db, fk: bool, trackerId: int, t: Tracker): (r: (Db, int))
    ensures r.1 == InsertFailed <==> fk && !HasTracker(db.trackers, trackerId)
    ensures r.1 == InsertFailed ==> r.0 == db
    ensures r.1 != InsertFailed ==>
              && r.1 > db.lastPointId
              && r.0 == Db(db.trackers, db.history + [Footprint(r.1, trackerId, t)], r.1)
  {
    if fk && !HasTracker(db.trackers, trackerId) then (db, InsertFailed)
    else
      var id := if db.lastPointId >= 0 then db.lastPointId + 1 else 1;
      (Db(db.trackers, db.history + [Footprint(id, trackerId, t)], id), id)
  }

  /** `UPDATE trackers SET moid, title, icon, imei, sender WHERE _id = id`. */
  function UpdateTrackerRow(db: Db, id: int, t: Tracker): (r: Db)
    ensures r.history == db.history && r.lastPointId == db.lastPointId
    ensures |r.trackers| == |db.trackers|
    ensures forall i :: 0 <= i < |db.trackers| ==>
              r.trackers[i] == if db.trackers[i].id == id then TrackerRow(id, t.moid, t.imei, t.sender, t.name, t.image)
                               else db.trackers[i]
  {
    var rows := seq(|db.trackers|, i requires 0 <= i < |db.trackers| =>
                      if db.trackers[i].id == id then TrackerRow(id, t.moid, t.imei, t.sender, t.name, t.image)
                      else db.trackers[i]);
    db.(trackers := rows)
  }

  /** The tracker rows whose id is not `id`, in order. */
  function OtherTrackers(trackers: seq<TrackerRow>, id: int): (r: seq<TrackerRow>)
    ensures forall x :: x in r <==> x in trackers && x.id != id
    decreases |trackers|
  {
    if trackers == [] then []
    else
      var prefix := trackers[..|trackers| - 1];
      var last := trackers[|trackers| - 1];
      assert trackers == prefix + [last];
      if last.id != id then OtherTrackers(prefix, id) + [last] else OtherTrackers(prefix, id)
  }

  /** Dropping tracker rows keeps senders and ids unique. */
  lemma {:induction false} OtherTrackersUnique(trackers: seq<TrackerRow>, id: int)
    requires UniqueSenders(trackers) && UniqueIds(trackers)
    ensures UniqueSenders(OtherTrackers(trackers, id)) && UniqueIds(OtherTrackers(trackers, id))
    decreases |trackers|
  {
    if trackers != [] {
      var prefix := trackers[..|trackers| - 1];
      var last := trackers[|trackers| - 1];
      var rest := OtherTrackers(prefix, id);
      OtherTrackersUnique(prefix, id);
      if last.id != id {
        forall x | x in rest
          ensures x.sender != last.sender && x.id != last.id
        {
          var k :| 0 <= k < |prefix| && prefix[k] == x;
          assert trackers[k] == x;
        }
        var r := rest + [last];
        assert OtherTrackers(trackers, id) == r;
        forall i, j | 0 <= i < j < |r|
          ensures r[i].sender != r[j].sender && r[i].id != r[j].id
        {
          if j == |rest| {
            assert r[i] in rest;
          } else {
            assert r[i] == rest[i] && r[j] == rest[j];
          }
        }
      }
    }
  }

  /** The history rows not owned by `trackerId`, in order. */
  function OtherHistory(history: seq<HistoryRow>, trackerId: int): (r: seq<HistoryRow>)
    ensures forall h :: h in r <==> h in history && h.trackerId != trackerId
    ensures PointsIncreasing(history) ==> PointsIncreasing(r)
    decreases |history|
  {
    if history == [] then []
    else
      var prefix := history[..|history| - 1];
      var last := history[|history| - 1];
      var rest := OtherHistory(prefix, trackerId);
      assert forall h :: h in history <==> h in prefix || h == last by {
        assert history == prefix + [last];
      }
      PrefixIncreasing(history);
      if last.trackerId != trackerId then
        AppendIncreasing(rest, last);
        rest + [last]
      else rest
  }

  /**
   * `DELETE FROM trackers WHERE _id = id`. The `ON DELETE CASCADE` of `history`
   * fires only when the connection enforces foreign keys.
   */
  function DeleteTracker(db: Db, fk: bool, id: int): (r: Db)
    ensures forall x :: x in r.trackers <==> x in db.trackers && x.id != id
    ensures fk ==> forall h :: h in r.history <==> h in db.history && h.trackerId != id
    ensures !fk ==> r.history == db.history
    ensures r.lastPointId == db.lastPointId
  {
    Db(OtherTrackers(db.trackers, id), if fk then OtherHistory(db.history, id) else db.history, db.lastPointId)
  }

  /** `history` with `moid` set on every row whose key is `pointId`. */
  function SetMoid(history: seq<HistoryRow>, pointId: int, moid: int): (r: seq<HistoryRow>)
    ensures |r| == |history|
    ensures forall j :: 0 <= j < |history| ==>
              r[j] == if history[j].pointId == pointId then history[j].(moid := moid) else history[j]
  {
    seq(|history|, j requires 0 <= j < |history| =>
          if history[j].pointId == pointId then history[j].(moid := moid) else history[j])
  }

  /** The number of history rows whose key is `pointId`. */
  function CountPoint(history: seq<HistoryRow>, pointId: int): (n: nat)
    ensures n == 0 <==> forall j :: 0 <= j < |history| ==> history[j].pointId != pointId
    ensures PointsIncreasing(history) ==> n <= 1
    decreases |history|
  {
    if history == [] then 0
    else
      var prefix := history[..|history| - 1];
      var rest := CountPoint(prefix, pointId);
      if history[|history| - 1].pointId == pointId then
        assert PointsIncreasing(history) ==> forall j :: 0 <= j < |prefix| ==> prefix[j].pointId != pointId;
        rest + 1
      else rest
  }

  /** `UPDATE history SET moid WHERE _point_id = pointId`, returning the number of rows changed. */
  function SetFootprintMoid(db: Db, pointId: int, moid: int): (r: (Db, int))
    ensures r.0 == db.(history := SetMoid(db.history, pointId, moid))
    ensures r.1 == 0 <==> forall j :: 0 <= j < |db.history| ==> db.history[j].pointId != pointId
    ensures PointsIncreasing(db.history) ==> r.1 <= 1
  {
    (db.(history := SetMoid(db.history, pointId, moid)), CountPoint(db.history, pointId))
  }

  /** `UPDATE history SET moid = 0 WHERE tracker_id = trackerId`, returning the number of rows changed. */
  function ClearFootprintMoids(db: Db, trackerId: int): (r: (Db, int))
    ensures r.0.trackers == db.trackers && r.0.lastPointId == db.lastPointId
    ensures |r.0.history| == |db.history|
    ensures forall j :: 0 <= j < |db.history| ==>
              r.0.history[j] == if db.history[j].trackerId == trackerId then db.history[j].(moid := 0) else db.history[j]
    ensures r.1 == |RowsOf(db.history, trackerId)|
  {
    var cleared := seq(|db.history|, j requires 0 <= j < |db.history| =>
                         if db.history[j].trackerId == trackerId then db.history[j].(moid := 0) else db.history[j]);
    (db.(history := cleared), |RowsOf(db.history, trackerId)|)
  }

  // ---------------------------------------------------------------------------
  // The statements keep the store well formed

  /** Changing `moid` columns of history rows keeps the store well formed. */
  lemma MoidsOnlyKeepWellFormed(db: Db, fk: bool, history: seq<HistoryRow>)
    requires WellFormed(db, fk)
    requires |history| == |db.history|
    requires forall j :: 0 <= j < |history| ==> history[j] == db.history[j].(moid := history[j].moid)
    ensures WellFormed(db.(history := history), fk)
  {
    var db' := db.(history := history);
    forall i | 0 <= i < |db.trackers|
      ensures HasHistory(history, db.trackers[i].id)
    {
      var j :| 0 <= j < |db.history| && db.history[j].trackerId == db.trackers[i].id;
      assert history[j].trackerId == db.trackers[i].id;
    }
  }

  /** Appending a footprint keeps the store well formed. */
  lemma InsertFootprintKeepsWellFormed(db: Db, fk: bool, trackerId: int, t: Tracker)
    requires WellFormed(db, fk)
    ensures WellFormed(InsertFootprint(db, fk, trackerId, t).0, fk)
  {
    var r := InsertFootprint(db, fk, trackerId, t);
    if r.1 != InsertFailed {
      forall i | 0 <= i < |db.trackers|
        ensures HasHistory(r.0.history, db.trackers[i].id)
      {
        var j :| 0 <= j < |db.history| && db.history[j].trackerId == db.trackers[i].id;
        assert r.0.history[j] == db.history[j];
      }
    }
  }

  /** Inserting a tracker for an unknown sender adds one row and keeps senders and ids unique. */
  lemma InsertTrackerKeepsUnique(db: Db, t: Tracker)
    requires UniqueSenders(db.trackers) && UniqueIds(db.trackers)
    requires FindBySender(db.trackers, t.sender).None?
    ensures var (db1, id) := InsertTracker(db, t);
            && id != InsertFailed && HasTracker(db1.trackers, id)
            && UniqueSenders(db1.trackers) && UniqueIds(db1.trackers)
            && db1.history == db.history && db1.lastPointId == db.lastPointId
            && |db1.trackers| == |db.trackers| + 1
            && forall i :: 0 <= i < |db.trackers| ==> db1.trackers[i] == db.trackers[i]
  {
    var (db1, id) := InsertTracker(db, t);
    assert db1.trackers[|db.trackers|].id == id;
  }

  /**
   * Inserting a tracker for an unknown sender and then its first footprint under
   * the new id keeps the store well formed, and both rows are really added.
   */
  lemma InsertTrackerWithFootprint(db: Db, fk: bool, t: Tracker)
    requires WellFormed(db, fk)
    requires FindBySender(db.trackers, t.sender).None?
    ensures var (db1, id) := InsertTracker(db, t);
            var (db2, pid) := InsertFootprint(db1, fk, id, t);
            && id != InsertFailed && pid != InsertFailed
            && WellFormed(db2, fk)
            && |db2.trackers| == |db.trackers| + 1 && |db2.history| == |db.history| + 1
  {
    InsertTrackerKeepsUnique(db, t);
    var (db1, id) := InsertTracker(db, t);
    var (db2, pid) := InsertFootprint(db1, fk, id, t);
    assert pid != InsertFailed;
    GrowKeepsWellFormed(db, fk, db2, TrackerRow(id, t.moid, t.imei, t.sender, t.name, t.image), Footprint(pid, id, t));
  }

  /** Appending one tracker row and one footprint of it, with a fresh larger key, keeps the store well formed. */
  lemma GrowKeepsWellFormed(db: Db, fk: bool, db2: Db, row: TrackerRow, fp: HistoryRow)
    requires WellFormed(db, fk)
    requires db2.trackers == db.trackers + [row] && db2.history == db.history + [fp]
    requires UniqueSenders(db2.trackers) && UniqueIds(db2.trackers)
    requires row.id >= 1 && fp.trackerId == row.id
    requires fp.pointId > db.lastPointId && fp.pointId >= 1 && db2.lastPointId == fp.pointId
    ensures WellFormed(db2, fk)
  {
    var n := |db.trackers|;
    assert db2.trackers[n] == row;
    assert db2.history[|db.history|] == fp;
    forall i | 0 <= i < n
      ensures db2.trackers[i] == db.trackers[i]
    {
    }
    forall j | 0 <= j < |db.history|
      ensures db2.history[j] == db.history[j]
    {
    }
    assert PointsIncreasing(db2.history);
    forall i | 0 <= i < |db2.trackers|
      ensures HasHistory(db2.history, db2.trackers[i].id)
    {
      if i < n {
        var j :| 0 <= j < |db.history| && db.history[j].trackerId == db.trackers[i].id;
        assert db2.history[j] == db.history[j];
      }
    }
    forall j | 0 <= j < |db2.history| && fk
      ensures HasTracker(db2.trackers, db2.history[j].trackerId)
    {
      if j < |db.history| {
        var i :| 0 <= i < n && db.trackers[i].id == db.history[j].trackerId;
        assert db2.trackers[i] == db.trackers[i];
      }
    }
  }

  /** A sender found nowhere is found in the row appended for it. */
  lemma {:induction false} FindAppended(trackers: seq<TrackerRow>, row: TrackerRow)
    requires FindBySender(trackers, row.sender).None?
    ensures FindBySender(trackers + [row], row.sender) == Some(row)
    decreases |trackers|
  {
    if trackers != [] {
      assert (trackers + [row])[1..] == trackers[1..] + [row];
      FindAppended(trackers[1..], row);
    }
  }

  /** A tracker without history has no rows. */
  lemma RowsOfNone(history: seq<HistoryRow>, trackerId: int)
    requires !HasHistory(history, trackerId)
    ensures RowsOf(history, trackerId) == []
  {
    if RowsOf(history, trackerId) != [] {
      assert RowsOf(history, trackerId)[0] in RowsOf(history, trackerId);
    }
  }

  /**
   * After a new sender's tracker row and its first footprint are inserted,
   * `getTracker` returns exactly the tracker that was inserted iff no history
   * left behind under the reused id is newer than it. Such history can exist
   * only without foreign keys; with them, and whenever the id has no history at
   * all, the round trip always holds.
   */
  lemma InsertTrackerRoundTrip(db: Db, fk: bool, t: Tracker)
    requires WellFormed(db, fk)
    requires FindBySender(db.trackers, t.sender).None?
    ensures var (db1, id) := InsertTracker(db, t);
            var db2 := InsertFootprint(db1, fk, id, t).0;
            && UniqueSenders(db2.trackers)
            && (GetTracker(db2, t.sender) == Some(t.(id := id)) <==>
                  forall h :: h in db.history && h.trackerId == id ==> h.time <= t.time)
            && (fk || !HasHistory(db.history, id) ==> GetTracker(db2, t.sender) == Some(t.(id := id)))
  {
    InsertTrackerKeepsUnique(db, t);
    var (db1, id) := InsertTracker(db, t);
    var (db2, pid) := InsertFootprint(db1, fk, id, t);
    var row := TrackerRow(id, t.moid, t.imei, t.sender, t.name, t.image);
    assert db2.trackers == db.trackers + [row];
    var fp := Footprint(pid, id, t);
    assert db2 == Db(db.trackers + [row], db.history + [fp], pid);
    assert Snapshot(row, fp) == t.(id := id);
    if fk {
      NoTrackerNoHistory(db, id);
    }
    if forall h :: h in db.history && h.trackerId == id ==> h.time <= t.time {
      FindAppended(db.trackers, row);
      LatestFootprintLeads(row, db.history, fp, db.lastPointId);
    } else {
      var h :| h in db.history && h.trackerId == id && h.time > t.time;
      assert h in db2.history;
    }
  }

  /**
   * A footprint appended with a key above every earlier one, and no earlier time
   * of its tracker above its own, is what `getFullInfoTracker` then returns.
   */
  lemma LatestFootprintLeads(row: TrackerRow, history: seq<HistoryRow>, fp: HistoryRow, last: int)
    requires fp.trackerId == row.id && fp.pointId > last
    requires forall j :: 0 <= j < |history| ==> history[j].pointId <= last
    requires forall h :: h in history && h.trackerId == row.id ==> h.time <= fp.time
    ensures GetFullInfoTracker(row, history + [fp]) == Some(Snapshot(row, fp))
  {
    var rows := GetTrackerFootprints(history + [fp], row.id);
    assert fp in history + [fp];
    HeadOf(rows, fp);
    var a := rows[0];
    assert a in rows;
    assert a in history + [fp];
    assert a == fp;
  }

  /** The head of a list sorted newest first is at least as new as each of its rows. */
  lemma HeadOf(r: seq<HistoryRow>, x: HistoryRow)
    requires NewestFirst(r) && x in r
    ensures r != [] && AtLeastAsNew(r[0], x)
  {
    var m :| 0 <= m < |r| && r[m] == x;
    if m > 0 {
      assert AtLeastAsNew(r[0], r[m]);
    }
  }

  /** A new sender's row with its first footprint, and no older history under its id, reads back as that pair. */
  lemma AppendedSnapshot(trackers: seq<TrackerRow>, history: seq<HistoryRow>, row: TrackerRow, fp: HistoryRow, last: int)
    requires UniqueSenders(trackers + [row])
    requires FindBySender(trackers, row.sender).None?
    requires !HasHistory(history, row.id) && fp.trackerId == row.id
    ensures GetTracker(Db(trackers + [row], history + [fp], last), row.sender) == Some(Snapshot(row, fp))
  {
    FindAppended(trackers, row);
    RowsOfNone(history, row.id);
    RowsOfAppended(history, fp, row.id);
    SingleFootprint(history + [fp], fp, row.id);
  }

  /** With foreign keys enforced, an id no tracker row has owns no history. */
  lemma NoTrackerNoHistory(db: Db, id: int)
    requires WellFormed(db, true)
    requires !HasTracker(db.trackers, id)
    ensures !HasHistory(db.history, id)
  {
    forall j | 0 <= j < |db.history|
      ensures db.history[j].trackerId != id
    {
      assert HasTracker(db.trackers, db.history[j].trackerId);
    }
  }

  /** A tracker with a single history row has exactly that footprint. */
  lemma SingleFootprint(history: seq<HistoryRow>, fp: HistoryRow, id: int)
    requires RowsOf(history, id) == [fp]
    ensures GetTrackerFootprints(history, id) == [fp]
  {
    assert [fp][1..] == [];
    assert SortNewestFirst([fp]) == InsertByTime(fp, []);
  }

  /** Rewriting the row of an existing id with its own sender keeps the store well formed. */
  lemma UpdateTrackerRowKeepsWellFormed(db: Db, fk: bool, id: int, t: Tracker)
    requires WellFormed(db, fk)
    requires FindBySender(db.trackers, t.sender).Some? && FindBySender(db.trackers, t.sender).value.id == id
    ensures WellFormed(UpdateTrackerRow(db, id, t), fk)
  {
    var r := UpdateTrackerRow(db, id, t);
    var row := FindBySender(db.trackers, t.sender).value;
    var k :| 0 <= k < |db.trackers| && db.trackers[k] == row;
    forall i | 0 <= i < |db.trackers|
      ensures r.trackers[i].id == db.trackers[i].id && r.trackers[i].sender == db.trackers[i].sender
    {
      assert db.trackers[i].id == id ==> i == k;
    }
    SameKeysKeepWellFormed(db, fk, r.trackers);
  }

  /** Tracker rows that keep their ids and senders, in place, keep the store well formed. */
  lemma SameKeysKeepWellFormed(db: Db, fk: bool, trackers: seq<TrackerRow>)
    requires WellFormed(db, fk)
    requires |trackers| == |db.trackers|
    requires forall i :: 0 <= i < |trackers| ==> trackers[i].id == db.trackers[i].id && trackers[i].sender == db.trackers[i].sender
    ensures WellFormed(db.(trackers := trackers), fk)
  {
    var r := db.(trackers := trackers);
    forall j | 0 <= j < |r.history| && fk
      ensures HasTracker(r.trackers, r.history[j].trackerId)
    {
      var i :| 0 <= i < |db.trackers| && db.trackers[i].id == db.history[j].trackerId;
      assert r.trackers[i].id == db.trackers[i].id;
    }
  }


  /** With unique senders, the row `FindBySender` returns is the one row with that sender. */
  lemma FindUnique(trackers: seq<TrackerRow>, k: int)
    requires UniqueSenders(trackers)
    requires 0 <= k < |trackers|
    ensures FindBySender(trackers, trackers[k].sender) == Some(trackers[k])
  {
    var r := FindBySender(trackers, trackers[k].sender);
    var m :| 0 <= m < |trackers| && trackers[m] == r.value;
    assert m == k;
  }

  /**
   * Rewriting a known sender's row changes what `getTracker` returns in the
   * columns written and nowhere else: the position and time still come from the
   * same newest footprint.
   */
  lemma UpdateTrackerRowSnapshot(db: Db, fk: bool, t: Tracker)
    requires WellFormed(db, fk)
    requires GetTracker(db, t.sender).Some?
    ensures var cur := GetTracker(db, t.sender).value;
            var db1 := UpdateTrackerRow(db, cur.id, t);
            && UniqueSenders(db1.trackers)
            && GetTracker(db1, t.sender) == Some(cur.(moid := t.moid, name := t.name, image := t.image, imei := t.imei))
  {
    var cur := GetTracker(db, t.sender).value;
    var row := FindBySender(db.trackers, t.sender).value;
    assert row.id == cur.id;
    UpdateTrackerRowKeepsWellFormed(db, fk, cur.id, t);
    var db1 := UpdateTrackerRow(db, cur.id, t);
    var k :| 0 <= k < |db.trackers| && db.trackers[k] == row;
    var row1 := TrackerRow(cur.id, t.moid, t.imei, t.sender, t.name, t.image);
    assert db1.trackers[k] == row1;
    FindUnique(db1.trackers, k);
    assert GetTracker(db1, t.sender) == GetFullInfoTracker(row1, db.history);
    var rows := GetTrackerFootprints(db.history, cur.id);
    assert GetFullInfoTracker(row, db.history) == Some(Snapshot(row, rows[0]));
  }

  /** Deleting a tracker row (with or without the cascade) keeps the store well formed. */
  lemma DeleteTrackerKeepsWellFormed(db: Db, fk: bool, id: int)
    requires WellFormed(db, fk)
    ensures WellFormed(DeleteTracker(db, fk, id), fk)
  {
    OtherTrackersUnique(db.trackers, id);
    OtherTrackersKeepHistory(db, fk, id);
    if fk {
      CascadeKeepsWellFormed(db, id);
    }
  }

  /** The surviving tracker rows keep positive ids and their history. */
  lemma OtherTrackersKeepHistory(db: Db, fk: bool, id: int)
    requires WellFormed(db, fk)
    ensures var r := DeleteTracker(db, fk, id);
            forall i :: 0 <= i < |r.trackers| ==> r.trackers[i].id >= 1 && HasHistory(r.history, r.trackers[i].id)
  {
    var r := DeleteTracker(db, fk, id);
    forall i | 0 <= i < |r.trackers|
      ensures r.trackers[i].id >= 1 && HasHistory(r.history, r.trackers[i].id)
    {
      assert r.trackers[i] in db.trackers;
      var k :| 0 <= k < |db.trackers| && db.trackers[k] == r.trackers[i];
      var j :| 0 <= j < |db.history| && db.history[j].trackerId == db.trackers[k].id;
      assert db.history[j] in r.history;
    }
  }

  /** With the cascade, the surviving history rows keep their keys and their trackers. */
  lemma CascadeKeepsWellFormed(db: Db, id: int)
    requires WellFormed(db, true)
    ensures var r := DeleteTracker(db, true, id);
            && (forall j :: 0 <= j < |r.history| ==> 1 <= r.history[j].pointId <= r.lastPointId)
            && (forall j :: 0 <= j < |r.history| ==> HasTracker(r.trackers, r.history[j].trackerId))
  {
    var r := DeleteTracker(db, true, id);
    forall j | 0 <= j < |r.history|
      ensures 1 <= r.history[j].pointId <= r.lastPointId
      ensures HasTracker(r.trackers, r.history[j].trackerId)
    {
      assert r.history[j] in db.history;
      var k :| 0 <= k < |db.history| && db.history[k] == r.history[j];
      var i :| 0 <= i < |db.trackers| && db.trackers[i].id == db.history[k].trackerId;
      assert db.trackers[i] in r.trackers;
    }
  }
}
