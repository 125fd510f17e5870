/**
 * The decisions of the reconciliation paths: how an incoming report is stamped,
 * when it counts as a new position, which snapshot the merge returns, and which
 * fields `updateTracker` inherits from the stored tracker.
 */
module Reconcile {
  import opened Wrappers
  import opened Tables
  import opened Markers

  /** `Long.MIN_VALUE`: the `moid` of a report that does not name a map object. */
  const MoidUnset: int := -0x8000_0000_0000_0000

  /** A report whose time is 0 takes the current time. */
  function Stamped(t: Tracker, now: int): (r: Tracker)
    ensures r == t.(time := r.time)
    ensures t.time != 0 ==> r == t
    ensures t.time == 0 ==> r.time == now
  {
    if t.time == 0 then t.(time := now) else t
  }

  /** The incoming report differs from the stored snapshot in time, latitude or longitude. */
  predicate Moved(cur: Tracker, inc: Tracker): (b: bool)
    ensures b <==> cur.(lat := inc.lat, lon := inc.lon, time := inc.time) != cur
  {
    cur.time != inc.time || cur.lat != inc.lat || cur.lon != inc.lon
  }

  /**
   * The tracker `updateTrackerPositionInDB` returns: the stored one, with the
   * incoming latitude, longitude and time when the report is not older.
   */
  function Advanced(cur: Tracker, inc: Tracker): (r: Tracker)
    ensures r.time >= cur.time && r.time >= inc.time
    ensures r.time == cur.time || r.time == inc.time
    ensures r == cur.(lat := r.lat, lon := r.lon, time := r.time)
    ensures inc.time >= cur.time ==> r.lat == inc.lat && r.lon == inc.lon && r.time == inc.time
    ensures inc.time < cur.time ==> r == cur
  {
    if cur.time <= inc.time then cur.(lon := inc.lon, lat := inc.lat, time := inc.time) else cur
  }

  /** The map object that mirrors a tracker. */
  function TrackerMarker(t: Tracker, color: int): (m: Marker)
    ensures m.lat == t.lat && m.lon == t.lon
    ensures m.name == t.name && m.image == t.image && m.color == color
  {
    Marker(t.lat, t.lon, t.name, t.image, color)
  }

  /**
   * The report as `updateTracker` writes it: with a stored tracker, a blank name or
   * icon and an unset `moid` are taken from it and so is the id; a name still blank
   * then becomes the sender.
   */
  function Inherit(st: Tracker, cur: Option<Tracker>): (t: Tracker)
    ensures t.name == "" ==> t.sender == ""
    ensures st.name != "" ==> t.name == st.name
    ensures st.name == "" && cur.Some? && cur.value.name != "" ==> t.name == cur.value.name
    ensures st.name == "" && (cur.None? || cur.value.name == "") ==> t.name == st.sender
    ensures st.image != "" || cur.None? ==> t.image == st.image
    ensures st.image == "" && cur.Some? ==> t.image == cur.value.image
    ensures st.moid != MoidUnset || cur.None? ==> t.moid == st.moid
    ensures st.moid == MoidUnset && cur.Some? ==> t.moid == cur.value.moid
    ensures cur.Some? ==> t.id == cur.value.id
    ensures cur.None? ==> t.id == st.id
    ensures t == st.(id := t.id, moid := t.moid, name := t.name, image := t.image)
  {
    var t := match cur
      case None => st
      case Some(db) =>
        st.(name := if st.name == "" then db.name else st.name,
            image := if st.image == "" then db.image else st.image,
            moid := if st.moid == MoidUnset then db.moid else st.moid,
            id := db.id);
    if t.name == "" then t.(name := t.sender) else t
  }

  /**
   * The footprint the merge appends never lowers the stored snapshot: `getTracker`
   * still finds the tracker, its time does not decrease, and it is the later of
   * the two times when the footprint lands under the stored tracker's id. A
   * footprint under any other id (the merge files it under the report's own `_id`)
   * leaves what `getTracker` returns for the report's sender exactly as it was.
   */
  lemma MergeFootprintSnapshot(db: Db, fk: bool, st: Tracker)
    requires WellFormed(db, fk)
    requires GetTracker(db, st.sender).Some?
    ensures var cur := GetTracker(db, st.sender).value;
            var (db', pid) := InsertFootprint(db, fk, st.id, st);
            && GetTracker(db', st.sender).Some?
            && GetTracker(db', st.sender).value.time >= cur.time
            && (pid == InsertFailed || st.id != cur.id ==> GetTracker(db', st.sender) == GetTracker(db, st.sender))
            && (pid != InsertFailed && st.id == cur.id ==>
                  GetTracker(db', st.sender).value.time == if st.time > cur.time then st.time else cur.time)
  {
    var (db', pid) := InsertFootprint(db, fk, st.id, st);
    var row := FindBySender(db.trackers, st.sender).value;
    assert GetTracker(db, st.sender) == GetFullInfoTracker(row, db.history);
    if pid != InsertFailed {
      assert db'.trackers == db.trackers;
      assert GetTracker(db', st.sender) == GetFullInfoTracker(row, db'.history);
      FullInfoAppended(row, db.history, Footprint(pid, st.id, st));
    }
  }

  /**
   * Appending a history row to a tracker that has history: what `getFullInfoTracker`
   * returns is unchanged when the row belongs to another tracker, and otherwise
   * carries the later of the two times.
   */
  lemma FullInfoAppended(row: TrackerRow, history: seq<HistoryRow>, fp: HistoryRow)
    requires HasHistory(history, row.id)
    ensures var before := GetFullInfoTracker(row, history);
            var after := GetFullInfoTracker(row, history + [fp]);
            && before.Some? && after.Some?
            && (fp.trackerId != row.id ==> after == before)
            && (fp.trackerId == row.id ==> after.value.time == if fp.time > before.value.time then fp.time else before.value.time)
  {
    var h' :| 0 <= h' < |history| && history[h'].trackerId == row.id;
    assert (history + [fp])[h'] == history[h'];
    if fp.trackerId == row.id {
      FullInfoOwnAppended(row, history, fp);
    } else {
      RowsOfAppended(history, fp, row.id);
      assert GetTrackerFootprints(history + [fp], row.id) == GetTrackerFootprints(history, row.id);
    }
  }

  /** `FullInfoAppended` for a row of the tracker itself. */
  lemma FullInfoOwnAppended(row: TrackerRow, history: seq<HistoryRow>, fp: HistoryRow)
    requires HasHistory(history, row.id) && HasHistory(history + [fp], row.id)
    requires fp.trackerId == row.id
    ensures var before := GetFullInfoTracker(row, history);
            var after := GetFullInfoTracker(row, history + [fp]);
            && before.Some? && after.Some?
            && after.value.time == if fp.time > before.value.time then fp.time else before.value.time
  {
    var before := GetFullInfoTracker(row, history).value;
    var after := GetFullInfoTracker(row, history + [fp]).value;
    var h :| h in history && h.trackerId == row.id && before == Snapshot(row, h);
    assert h in history + [fp];
    assert fp in history + [fp];
    assert after.time >= before.time && after.time >= fp.time;
    var g :| g in history + [fp] && g.trackerId == row.id && after == Snapshot(row, g);
    if g != fp {
      assert g in history;
    }
  }

  /**
   * The statements `updateTracker` issues for the already inherited tracker `t`:
   * insert a row for a new sender or rewrite the stored one unless the report is
   * older, then archive the report under the resulting id when that id is valid
   * and the sender is new or the time differs. Returns the id.
   */
  function RecordReport(db: Db, fk: bool, t: Tracker, cur: Option<Tracker>): (r: (Db, int))
    ensures cur.Some? ==> r.1 == cur.value.id
    ensures |db.history| <= |r.0.history| <= |db.history| + 1 && r.0.history[..|db.history|] == db.history
    ensures r.0.lastPointId >= db.lastPointId
    ensures cur.Some? && t.time < cur.value.time ==> r.0.trackers == db.trackers
    ensures cur.Some? && t.time == cur.value.time ==> r.0.history == db.history
  {
    match cur
    case None =>
      var (db1, id) := InsertTracker(db, t);
      (if id != InsertFailed then InsertFootprint(db1, fk, id, t).0 else db1, id)
    case Some(c) =>
      var db1 := if t.time >= c.time then UpdateTrackerRow(db, c.id, t) else db;
      (if c.id != InsertFailed && t.time != c.time then InsertFootprint(db1, fk, c.id, t).0 else db1, c.id)
  }

  /**
   * `updateTracker` keeps the store well formed and always ends with a valid id
   * and a known sender: one tracker row more exactly for a new sender, one history
   * row more exactly for a new sender or a different time, and an older report
   * leaves the tracker rows alone.
   */
  lemma RecordReportKeepsWellFormed(db: Db, fk: bool, t: Tracker)
    requires WellFormed(db, fk)
    requires GetTracker(db, t.sender).Some? ==> t.id == GetTracker(db, t.sender).value.id
    ensures var cur := GetTracker(db, t.sender);
            var (db2, id) := RecordReport(db, fk, t, cur);
            && WellFormed(db2, fk)
            && id != InsertFailed && HasTracker(db2.trackers, id)
            && FindBySender(db2.trackers, t.sender).Some?
            && |db2.trackers| == |db.trackers| + (if cur.None? then 1 else 0)
            && |db2.history| == |db.history| + (if cur.None? || t.time != cur.value.time then 1 else 0)
            && (cur.Some? && t.time < cur.value.time ==> db2.trackers == db.trackers)
  {
    GetTrackerKnownSender(db, fk, t.sender);
    if GetTracker(db, t.sender).None? {
      RecordNewSender(db, fk, t);
    } else {
      var c := GetTracker(db, t.sender).value;
      var row := FindBySender(db.trackers, t.sender).value;
      assert row.id == c.id;
      var k :| 0 <= k < |db.trackers| && db.trackers[k] == row;
      RecordKnownSender(db, fk, t, c, k);
    }
  }

  /** `RecordReportKeepsWellFormed` for a sender without a tracker row. */
  lemma RecordNewSender(db: Db, fk: bool, t: Tracker)
    requires WellFormed(db, fk)
    requires FindBySender(db.trackers, t.sender).None?
    ensures var (db2, id) := RecordReport(db, fk, t, None);
            && WellFormed(db2, fk)
            && id != InsertFailed && HasTracker(db2.trackers, id)
            && FindBySender(db2.trackers, t.sender).Some?
            && |db2.trackers| == |db.trackers| + 1
            && |db2.history| == |db.history| + 1
  {
    InsertTrackerWithFootprint(db, fk, t);
    var (db1, id) := InsertTracker(db, t);
    FindAppended(db.trackers, TrackerRow(id, t.moid, t.imei, t.sender, t.name, t.image));
  }

  /** `RecordReportKeepsWellFormed` for a sender whose stored tracker is `c`. */
  lemma RecordKnownSender(db: Db, fk: bool, t: Tracker, c: Tracker, k: int)
    requires WellFormed(db, fk)
    requires FindBySender(db.trackers, t.sender).Some?
    requires 0 <= k < |db.trackers| && db.trackers[k] == FindBySender(db.trackers, t.sender).value
    requires db.trackers[k].id == c.id
    ensures var (db2, id) := RecordReport(db, fk, t, Some(c));
            && WellFormed(db2, fk)
            && id == c.id && HasTracker(db2.trackers, id)
            && FindBySender(db2.trackers, t.sender).Some?
            && |db2.trackers| == |db.trackers|
            && |db2.history| == |db.history| + (if t.time != c.time then 1 else 0)
            && (t.time < c.time ==> db2.trackers == db.trackers)
  {
    var db1 := if t.time >= c.time then UpdateTrackerRow(db, c.id, t) else db;
    if t.time >= c.time {
      RowRewritten(db, fk, t, k);
    }
    assert db1.trackers[k].id == c.id && db1.trackers[k].sender == t.sender;
    assert c.id != InsertFailed;
    InsertFootprintKeepsWellFormed(db1, fk, c.id, t);
  }

  /** Rewriting the row at `k` with its own sender keeps the store well formed and the row in place. */
  lemma RowRewritten(db: Db, fk: bool, t: Tracker, k: int)
    requires WellFormed(db, fk)
    requires FindBySender(db.trackers, t.sender).Some?
    requires 0 <= k < |db.trackers| && db.trackers[k] == FindBySender(db.trackers, t.sender).value
    ensures var db1 := UpdateTrackerRow(db, db.trackers[k].id, t);
            && WellFormed(db1, fk)
            && db1.trackers[k] == TrackerRow(db.trackers[k].id, t.moid, t.imei, t.sender, t.name, t.image)
  {
    UpdateTrackerRowKeepsWellFormed(db, fk, db.trackers[k].id, t);
  }

  /**
   * After `updateTracker` for a known sender, `getTracker` reports: the report
   * itself when it is newer than the stored tracker; the stored position and time
   * with the four written columns (moid, name, icon, imei) when it has the same
   * time; and the stored tracker unchanged when it is older.
   */
  lemma RecordReportSnapshot(db: Db, fk: bool, t: Tracker)
    requires WellFormed(db, fk)
    requires GetTracker(db, t.sender).Some? && t.id == GetTracker(db, t.sender).value.id
    ensures var cur := GetTracker(db, t.sender).value;
            var db2 := RecordReport(db, fk, t, Some(cur)).0;
            && UniqueSenders(db2.trackers)
            && (t.time > cur.time ==> GetTracker(db2, t.sender) == Some(t))
            && (t.time == cur.time ==>
                  GetTracker(db2, t.sender) == Some(cur.(moid := t.moid, name := t.name, image := t.image, imei := t.imei)))
            && (t.time < cur.time ==> GetTracker(db2, t.sender) == Some(cur))
  {
    var cur := GetTracker(db, t.sender).value;
    var row := FindBySender(db.trackers, t.sender).value;
    var k :| 0 <= k < |db.trackers| && db.trackers[k] == row;
    assert GetTracker(db, t.sender) == GetFullInfoTracker(row, db.history);
    assert row.id == cur.id;
    if t.time > cur.time {
      RecordNewer(db, fk, t, cur, k);
    } else if t.time == cur.time {
      UpdateTrackerRowSnapshot(db, fk, t);
    } else {
      RecordOlder(db, fk, t, cur, k);
    }
  }

  /** `RecordReportSnapshot` for a report newer than the stored tracker `cur`, whose row is at `k`. */
  lemma RecordNewer(db: Db, fk: bool, t: Tracker, cur: Tracker, k: int)
    requires WellFormed(db, fk)
    requires 0 <= k < |db.trackers| && db.trackers[k].sender == t.sender && db.trackers[k].id == cur.id
    requires GetTracker(db, t.sender) == Some(cur) && t.id == cur.id && t.time > cur.time
    ensures var db2 := RecordReport(db, fk, t, Some(cur)).0;
            UniqueSenders(db2.trackers) && GetTracker(db2, t.sender) == Some(t)
  {
    FindUnique(db.trackers, k);
    RowRewritten(db, fk, t, k);
    var db1 := UpdateTrackerRow(db, cur.id, t);
    var row1 := db1.trackers[k];
    FullInfoSameId(db.trackers[k], row1, db.history);
    assert row1.id == cur.id && db1.history == db.history;
    assert GetTracker(db, t.sender) == GetFullInfoTracker(db.trackers[k], db.history);
    AppendOwnFootprint(db1, fk, t, k);
    var (db2, pid) := InsertFootprint(db1, fk, cur.id, t);
    assert GetTracker(db1, t.sender).value.time == cur.time;
    assert GetTracker(db2, t.sender) == Some(Snapshot(row1, Footprint(pid, cur.id, t)));
    assert Snapshot(row1, Footprint(pid, cur.id, t)) == t;
    RecordKnown(db, fk, t, cur);
  }

  /** The writes of `updateTracker` for a known sender at a valid tracker id. */
  lemma RecordKnown(db: Db, fk: bool, t: Tracker, c: Tracker)
    requires c.id != InsertFailed
    ensures RecordReport(db, fk, t, Some(c)).0 ==
            if t.time > c.time then InsertFootprint(UpdateTrackerRow(db, c.id, t), fk, c.id, t).0
            else if t.time == c.time then UpdateTrackerRow(db, c.id, t)
            else InsertFootprint(db, fk, c.id, t).0
  {
  }

  /** `RecordReportSnapshot` for a report older than the stored tracker `cur`, whose row is at `k`. */
  lemma RecordOlder(db: Db, fk: bool, t: Tracker, cur: Tracker, k: int)
    requires WellFormed(db, fk)
    requires 0 <= k < |db.trackers| && db.trackers[k].sender == t.sender && db.trackers[k].id == cur.id
    requires GetTracker(db, t.sender) == Some(cur) && t.id == cur.id && t.time < cur.time
    ensures var db2 := RecordReport(db, fk, t, Some(cur)).0;
            UniqueSenders(db2.trackers) && GetTracker(db2, t.sender) == Some(cur)
  {
    AppendOwnFootprint(db, fk, t, k);
  }

  /**
   * A footprint of `t` appended under the id of the row at `k`, which has the
   * report's sender and some history: `getTracker` then returns the row joined
   * with that footprint when it is newer than the answer before, and the answer
   * before when it is older.
   */
  lemma AppendOwnFootprint(db: Db, fk: bool, t: Tracker, k: int)
    requires UniqueSenders(db.trackers) && PointsIncreasing(db.history)
    requires 0 <= k < |db.trackers| && db.trackers[k].sender == t.sender
    requires HasHistory(db.history, db.trackers[k].id)
    ensures var row := db.trackers[k];
            var (db2, pid) := InsertFootprint(db, fk, row.id, t);
            var before := GetTracker(db, t.sender);
            && pid != InsertFailed && UniqueSenders(db2.trackers)
            && before == GetFullInfoTracker(row, db.history) && before.Some?
            && (t.time > before.value.time ==> GetTracker(db2, t.sender) == Some(Snapshot(row, Footprint(pid, row.id, t))))
            && (t.time < before.value.time ==> GetTracker(db2, t.sender) == before)
  {
    var row := db.trackers[k];
    FindUnique(db.trackers, k);
    var (db2, pid) := InsertFootprint(db, fk, row.id, t);
    assert pid != InsertFailed by {
      assert db.trackers[k].id == row.id;
    }
    var fp := Footprint(pid, row.id, t);
    assert db2.trackers == db.trackers && db2.history == db.history + [fp];
    assert GetTracker(db2, t.sender) == GetFullInfoTracker(row, db.history + [fp]);
    var before := GetFullInfoTracker(row, db.history);
    if t.time > before.value.time {
      NewerFootprintLeads(row, db.history, fp);
    } else if t.time < before.value.time {
      OlderFootprintTrails(row, db.history, fp);
    }
  }

  /** `getFullInfoTracker` for two rows with the same id differs only in the tracker row's columns. */
  lemma FullInfoSameId(row: TrackerRow, row1: TrackerRow, history: seq<HistoryRow>)
    requires row.id == row1.id
    ensures GetFullInfoTracker(row1, history).Some? == GetFullInfoTracker(row, history).Some?
    ensures GetFullInfoTracker(row, history).Some? ==>
              GetFullInfoTracker(row1, history).value ==
              GetFullInfoTracker(row, history).value.(moid := row1.moid, name := row1.title, image := row1.icon,
                                                      imei := row1.imei, sender := row1.sender)
  {
  }

  /** A footprint newer than every footprint of the tracker becomes what `getFullInfoTracker` returns. */
  lemma NewerFootprintLeads(row: TrackerRow, history: seq<HistoryRow>, fp: HistoryRow)
    requires fp.trackerId == row.id
    requires forall h :: h in history && h.trackerId == row.id ==> h.time < fp.time
    ensures GetFullInfoTracker(row, history + [fp]) == Some(Snapshot(row, fp))
  {
    var rows := GetTrackerFootprints(history + [fp], row.id);
    assert fp in history + [fp];
    HeadOf(rows, fp);
    assert rows[0] in history + [fp];
    assert rows[0] == fp;
  }

  /**
   * A footprint older than what `getFullInfoTracker` returns leaves the answer
   * unchanged, in a history whose keys increase.
   */
  lemma OlderFootprintTrails(row: TrackerRow, history: seq<HistoryRow>, fp: HistoryRow)
    requires PointsIncreasing(history) && HasHistory(history, row.id)
    requires fp.time < GetFullInfoTracker(row, history).value.time
    ensures GetFullInfoTracker(row, history + [fp]) == GetFullInfoTracker(row, history)
  {
    var before := GetTrackerFootprints(history, row.id);
    var after := GetTrackerFootprints(history + [fp], row.id);
    var j :| 0 <= j < |history| && history[j].trackerId == row.id;
    assert history[j] in before;
    var o := before[0];
    assert o in before;
    assert o in history + [fp];
    HeadOf(after, o);
    var a := after[0];
    assert a in after;
    assert a != fp;
    assert a in history;
    HeadOf(before, a);
    SameKeySameRow(history, a, o);
  }

  /** In a history with increasing keys, a key names one row. */
  lemma SameKeySameRow(history: seq<HistoryRow>, a: HistoryRow, b: HistoryRow)
    requires PointsIncreasing(history) && a in history && b in history && a.pointId == b.pointId
    ensures a == b
  {
    var i :| 0 <= i < |history| && history[i] == a;
    var j :| 0 <= j < |history| && history[j] == b;
    assert i == j;
  }

}
