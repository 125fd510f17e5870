/**
 * `TrackerHelper`: receives position reports, keeps the tracker and history
 * tables, and mirrors each tracker and its recent footprints as map objects of
 * the host application.
 */
module Helper {
  import opened Wrappers
  import opened Tables
  import opened Markers
  import opened Reconcile
  import opened Trail

  class TrackerHelper {
    /** The `trackers` table. */
    var trackers: seq<TrackerRow>
    /** The `history` table, in insertion order. */
    var history: seq<HistoryRow>
    /** The AUTOINCREMENT counter of `history`. */
    var lastPointId: int
    /** `prefFootprintsCount`: how many footprints are still to be mirrored. */
    var footprintsCount: int
    /** The host's map objects. */
    var host: Host
    /** `prefMarkerColor`. */
    const markerColor: int
    /** The device's time format, used in footprint labels. */
    const timeFormat: int -> string
    /** Whether the connection enforces the foreign key of `history`. */
    const foreignKeys: bool

    function Store(): Db
      reads this
    {
      Db(trackers, history, lastPointId)
    }

    ghost predicate Valid()
      reads this
    {
      WellFormed(Store(), foreignKeys) && host.Valid()
    }

    /** The helper over an empty database, with the two preference values already read. */
    constructor (footprintsCount: int, markerColor: int, timeFormat: int -> string, host: Host, foreignKeys: bool)
      requires host.Valid()
      ensures Valid()
      ensures trackers == [] && history == [] && lastPointId == 0
      ensures this.footprintsCount == footprintsCount && this.host == host
      ensures this.markerColor == markerColor && this.timeFormat == timeFormat && this.foreignKeys == foreignKeys
    {
      trackers, history, lastPointId := [], [], 0;
      this.footprintsCount := footprintsCount;
      this.host := host;
      this.markerColor := markerColor;
      this.timeFormat := timeFormat;
      this.foreignKeys := foreignKeys;
    }

    // -------------------------------------------------------------------------
    // Single statements against the database

    /** `db.insert(TABLE_TRACKERS, null, values)` with the columns taken from `t`. */
    method InsertTrackerRow(t: Tracker) returns (id: int)
      modifies this
      ensures (Store(), id) == InsertTracker(old(Store()), t)
      ensures host == old(host) && footprintsCount == old(footprintsCount)
    {
      var r := InsertTracker(Store(), t);
      trackers, id := r.0.trackers, r.1;
    }

    /** `db.update(TABLE_TRACKERS, values, "_id = ?", id)`. */
    method UpdateTrackerRowInDB(id: int, t: Tracker)
      modifies this
      ensures Store() == UpdateTrackerRow(old(Store()), id, t)
      ensures host == old(host) && footprintsCount == old(footprintsCount)
    {
      trackers := UpdateTrackerRow(Store(), id, t).trackers;
    }

    // -------------------------------------------------------------------------
    // The helper's own operations

    /** `insertNewFootprintInDB`: one history row for `t` under `t`'s own id. */
    method InsertNewFootprintInDB(t: Tracker) returns (pointId: int)
      modifies this
      ensures (Store(), pointId) == InsertFootprint(old(Store()), foreignKeys, t.id, t)
      ensures host == old(host) && footprintsCount == old(footprintsCount)
    {
      var r := InsertFootprint(Store(), foreignKeys, t.id, t);
      trackers, history, lastPointId := r.0.trackers, r.0.history, r.0.lastPointId;
      pointId := r.1;
    }

    /**
     * `insertNewTrackerInDB`: stamps the report, inserts its tracker row, takes the
     * row id (-1 on failure) and inserts a footprint under it in every case.
     */
    method InsertNewTrackerInDB(t: Tracker, now: int) returns (seen: Tracker)
      modifies this
      ensures var st := Stamped(t, now);
              var (db1, id) := InsertTracker(old(Store()), st);
              && seen == st.(id := id)
              && Store() == InsertFootprint(db1, foreignKeys, id, seen).0
      ensures host == old(host) && footprintsCount == old(footprintsCount)
    {
      seen := t;
      if seen.time == 0 {
        seen := seen.(time := now);
      }
      var id := InsertTrackerRow(seen);
      seen := seen.(id := id);
      var _ := InsertNewFootprintInDB(seen);
    }

    /** `sendNewTrackerInAndrozicApp`: a new map object for `t`; its id, or 0 when the host refuses. */
    method SendNewTrackerInAndrozicApp(t: Tracker) returns (moid: int)
      modifies this
      ensures var c := old(host).Create(TrackerMarker(t, markerColor));
              host == c.0 && moid == c.1.GetOr(0)
      ensures moid == 0 <==> !old(host).accepting
      ensures moid != 0 ==> moid > old(host).lastId && host.markers == old(host).markers[moid := TrackerMarker(t, markerColor)]
      ensures Store() == old(Store()) && footprintsCount == old(footprintsCount)
    {
      var c := host.Create(TrackerMarker(t, markerColor));
      host := c.0;
      moid := c.1.GetOr(0);
    }

    /**
     * `updateTrackerPositionInDB`: stamps the report, inserts a footprint for it
     * (under the report's own `_id`, refused under foreign keys when no tracker has
     * that id) when time, latitude or longitude differs from the stored snapshot,
     * and returns the stored tracker advanced to the report
     * when the report is not older. The tracker row is never written.
     */
    method UpdateTrackerPositionInDB(report: Tracker, now: int) returns (merged: Tracker, seen: Tracker)
      requires Valid()
      requires GetTracker(Store(), report.sender).Some?
      modifies this
      ensures Valid()
      ensures var cur := old(GetTracker(Store(), report.sender)).value;
              var st := Stamped(report, now);
              && seen == st
              && merged == Advanced(cur, st)
              && Store() == if Moved(cur, st) then InsertFootprint(old(Store()), foreignKeys, st.id, st).0 else old(Store())
      ensures var cur := old(GetTracker(Store(), report.sender)).value;
              var st := Stamped(report, now);
              && trackers == old(trackers)
              && |history| == |old(history)| + (if Moved(cur, st) && (!foreignKeys || HasTracker(trackers, st.id)) then 1 else 0)
      ensures GetTracker(Store(), report.sender).Some?
      ensures GetTracker(Store(), report.sender).value.time >= old(GetTracker(Store(), report.sender)).value.time
      ensures host == old(host) && footprintsCount == old(footprintsCount)
    {
      ghost var db0 := Store();
      var cur := GetTracker(Store(), report.sender).value;
      seen := report;
      if seen.time == 0 {
        seen := seen.(time := now);
      }
      MergeFootprintSnapshot(db0, foreignKeys, seen);
      InsertFootprintKeepsWellFormed(db0, foreignKeys, seen.id, seen);
      if cur.time != seen.time || cur.lat != seen.lat || cur.lon != seen.lon {
        var _ := InsertNewFootprintInDB(seen);
      }
      merged := cur;
      if cur.time <= seen.time {
        merged := merged.(lon := seen.lon, lat := seen.lat, time := seen.time);
      }
    }

    /** `setFootprintMoidInDB`: sets `moid` on the history row `pointId`; the number of rows changed. */
    method SetFootprintMoidInDB(pointId: int, moid: int) returns (n: int)
      requires Valid()
      modifies this
      ensures Valid()
      ensures (Store(), n) == SetFootprintMoid(old(Store()), pointId, moid)
      ensures 0 <= n <= 1
      ensures host == old(host) && footprintsCount == old(footprintsCount)
    {
      var r := SetFootprintMoid(Store(), pointId, moid);
      MoidsOnlyKeepWellFormed(Store(), foreignKeys, r.0.history);
      history := r.0.history;
      n := r.1;
    }

    /** `clearFootprintMoids`: sets `moid` to 0 on every history row of a tracker; the number of rows changed. */
    method ClearFootprintMoidsInDB(trackerId: int) returns (n: int)
      requires Valid()
      modifies this
      ensures Valid()
      ensures (Store(), n) == ClearFootprintMoids(old(Store()), trackerId)
      ensures host == old(host) && footprintsCount == old(footprintsCount)
    {
      var r := ClearFootprintMoids(Store(), trackerId);
      MoidsOnlyKeepWellFormed(Store(), foreignKeys, r.0.history);
      history := r.0.history;
      n := r.1;
    }

    /** `removeTracker`: deletes the tracker row of the report's sender, if there is one. */
    method RemoveTracker(report: Tracker)
      requires Valid()
      modifies this
      ensures Valid()
      ensures Store() == match old(FindBySender(trackers, report.sender))
                         case None => old(Store())
                         case Some(row) => DeleteTracker(old(Store()), foreignKeys, row.id)
      ensures forall i :: 0 <= i < |trackers| ==> trackers[i].sender != report.sender
      ensures host == old(host) && footprintsCount == old(footprintsCount)
    {
      var found := FindBySender(trackers, report.sender);
      if found.Some? {
        var id := found.value.id;
        DeleteTrackerKeepsWellFormed(Store(), foreignKeys, id);
        var r := DeleteTracker(Store(), foreignKeys, id);
        forall i | 0 <= i < |r.trackers|
          ensures r.trackers[i].sender != report.sender
        {
          assert r.trackers[i] in trackers;
        }
        trackers, history := r.trackers, r.history;
      }
    }

    /**
     * `setFootprintsInAndrozicApp`: walks `t`'s footprints newest first, skips the
     * first, mirrors the next ones while `prefFootprintsCount` lasts (decrementing
     * it) and then takes down the map objects of the rest.
     */
    method SetFootprintsInAndrozicApp(t: Tracker)
      requires Valid()
      modifies this
      ensures Valid()
      ensures (Sync(history, host), footprintsCount) ==
              ApplyTrail(Sync(old(history), old(host)), GetTrackerFootprints(old(history), t.id),
                         old(footprintsCount), Style(t.name, timeFormat, markerColor))
      ensures trackers == old(trackers) && lastPointId == old(lastPointId)
    {
      var rows := GetTrackerFootprints(history, t.id);
      WalkFootprints(rows, Style(t.name, timeFormat, markerColor));
    }

    /**
     * The walk of `setFootprintsInAndrozicApp` over the cursor `rows`: the
     * do-while loop that mirrors, then the loop that erases.
     */
    method WalkFootprints(rows: seq<HistoryRow>, style: Style)
      requires Valid()
      modifies this
      ensures Valid()
      ensures (Sync(history, host), footprintsCount) == ApplyTrail(Sync(old(history), old(host)), rows, old(footprintsCount), style)
      ensures trackers == old(trackers) && lastPointId == old(lastPointId)
    {
      if footprintsCount > 0 && 1 < |rows| {
        var pos := MirrorWindow(rows, style);
        TrimOlder(rows, pos);
      }
    }

    /**
     * The do-while loop: from the second footprint on, mirror one footprint per
     * pass, decrementing the budget while footprints remain, until the budget or
     * the footprints run out. Returns the position where the cursor stopped.
     */
    method MirrorWindow(rows: seq<HistoryRow>, style: Style) returns (pos: nat)
      requires Valid()
      requires Mirrors(footprintsCount, |rows|)
      modifies this
      ensures Valid()
      ensures pos == WindowEnd(old(footprintsCount), |rows|)
      ensures Sync(history, host) == MirrorAll(Sync(old(history), old(host)), rows[1..pos], style)
      ensures footprintsCount == Remaining(old(footprintsCount), |rows|)
      ensures trackers == old(trackers) && lastPointId == old(lastPointId)
    {
      ghost var s0 := Sync(history, host);
      ghost var n0 := footprintsCount;
      ghost var k := WindowEnd(n0, |rows|);
      pos := 1;
      var more := true;
      while more
        invariant Valid()
        invariant 1 <= pos <= k
        invariant more == (pos < k)
        invariant footprintsCount == if pos < |rows| then n0 - (pos - 1) else n0 - (|rows| - 2)
        invariant Sync(history, host) == MirrorAll(s0, rows[1..pos], style)
        invariant trackers == old(trackers) && lastPointId == old(lastPointId)
        decreases |rows| - pos
      {
        ghost var done := rows[1..pos];
        MirrorFootprint(rows[pos], style);
        assert rows[1..pos + 1] == done + [rows[pos]];
        assert (done + [rows[pos]])[..|done|] == done;
        pos := pos + 1;
        if pos < |rows| {
          footprintsCount := footprintsCount - 1;
          more := footprintsCount > 0;
        } else {
          more := false;
        }
      }
    }

    /** The loop after it: every footprint from `from` on loses its map object. */
    method TrimOlder(rows: seq<HistoryRow>, from: nat)
      requires Valid()
      requires from <= |rows|
      modifies this
      ensures Valid()
      ensures Sync(history, host) == TrimAll(Sync(old(history), old(host)), rows[from..])
      ensures trackers == old(trackers) && lastPointId == old(lastPointId) && footprintsCount == old(footprintsCount)
    {
      ghost var s1 := Sync(history, host);
      var pos := from;
      assert rows[from..pos] == [];
      while pos < |rows|
        invariant Valid()
        invariant from <= pos <= |rows|
        invariant Sync(history, host) == TrimAll(s1, rows[from..pos])
        invariant trackers == old(trackers) && lastPointId == old(lastPointId) && footprintsCount == old(footprintsCount)
      {
        ghost var done := rows[from..pos];
        TrimFootprint(rows[pos]);
        assert rows[from..pos + 1] == done + [rows[pos]];
        assert (done + [rows[pos]])[..|done|] == done;
        pos := pos + 1;
      }
      assert rows[from..pos] == rows[from..];
    }

    /** One pass of the do-while loop of `setFootprintsInAndrozicApp`. */
    method MirrorFootprint(row: HistoryRow, style: Style)
      requires Valid()
      modifies this
      ensures Valid()
      ensures Sync(history, host) == MirrorRow(old(Sync(history, host)), row, style)
      ensures trackers == old(trackers) && lastPointId == old(lastPointId) && footprintsCount == old(footprintsCount)
    {
      var m := FootprintMarker(row, style);
      if row.moid <= 0 {
        var c := host.Create(m);
        host := c.0;
        if c.1.Some? {
          var _ := SetFootprintMoidInDB(row.pointId, c.1.value);
        }
      } else {
        host := host.Update(row.moid, m);
      }
    }

    /** One pass of the erasing loop of `setFootprintsInAndrozicApp`. */
    method TrimFootprint(row: HistoryRow)
      requires Valid()
      modifies this
      ensures Valid()
      ensures Sync(history, host) == TrimRow(old(Sync(history, host)), row)
      ensures trackers == old(trackers) && lastPointId == old(lastPointId) && footprintsCount == old(footprintsCount)
    {
      if row.moid > 0 {
        host := host.Delete(row.moid);
        var _ := SetFootprintMoidInDB(row.pointId, 0);
      }
    }

    /** `updateTrackerInAndrozicApp`: rewrites the tracker's own map object, then its footprints. */
    method UpdateTrackerInAndrozicApp(t: Tracker)
      requires Valid()
      modifies this
      ensures Valid()
      ensures (Sync(history, host), footprintsCount) ==
              ApplyTrail(Sync(old(history), old(host).Update(t.moid, TrackerMarker(t, markerColor))),
                         GetTrackerFootprints(old(history), t.id),
                         old(footprintsCount), Style(t.name, timeFormat, markerColor))
      ensures trackers == old(trackers) && lastPointId == old(lastPointId)
    {
      host := host.Update(t.moid, TrackerMarker(t, markerColor));
      SetFootprintsInAndrozicApp(t);
    }

    /**
     * `processIncomingTracker`: a known sender goes through the merge and the
     * mirroring of the stored tracker; an unknown sender is named after itself,
     * gets a map object and is inserted with its first footprint.
     */
    method ProcessIncomingTracker(report: Tracker, now: int) returns (seen: Tracker)
      requires Valid()
      modifies this
      ensures Valid()
      ensures old(GetTracker(Store(), report.sender)).Some? ==>
                var cur := old(GetTracker(Store(), report.sender)).value;
                var st := Stamped(report, now);
                var merged := Advanced(cur, st);
                var db1 := if Moved(cur, st) then InsertFootprint(old(Store()), foreignKeys, st.id, st).0 else old(Store());
                && seen == st
                && trackers == old(trackers) && lastPointId == db1.lastPointId
                && (Sync(history, host), footprintsCount) ==
                   ApplyTrail(Sync(db1.history, old(host).Update(cur.moid, TrackerMarker(merged, markerColor))),
                              GetTrackerFootprints(db1.history, cur.id),
                              old(footprintsCount), Style(cur.name, timeFormat, markerColor))
      ensures old(GetTracker(Store(), report.sender)).None? ==>
                var named := report.(name := report.sender);
                var c := old(host).Create(TrackerMarker(named, markerColor));
                var st := Stamped(named.(moid := c.1.GetOr(0)), now);
                var (db1, id) := InsertTracker(old(Store()), st);
                && host == c.0 && footprintsCount == old(footprintsCount)
                && id != InsertFailed
                && seen == st.(id := id)
                && Store() == InsertFootprint(db1, foreignKeys, id, seen).0
                && |trackers| == |old(trackers)| + 1 && |history| == |old(history)| + 1
                && (GetTracker(Store(), report.sender) == Some(seen) <==>
                      forall h :: h in old(history) && h.trackerId == id ==> h.time <= seen.time)
                && (foreignKeys ==> GetTracker(Store(), report.sender) == Some(seen))
    {
      ghost var db0 := Store();
      var cur := GetTracker(Store(), report.sender);
      if cur.Some? {
        var merged;
        merged, seen := UpdateTrackerPositionInDB(report, now);
        UpdateTrackerInAndrozicApp(merged);
      } else {
        GetTrackerKnownSender(db0, foreignKeys, report.sender);
        seen := report.(name := report.sender);
        var moid := SendNewTrackerInAndrozicApp(seen);
        seen := seen.(moid := moid);
        ghost var st := Stamped(seen, now);
        InsertTrackerWithFootprint(db0, foreignKeys, st);
        InsertTrackerRoundTrip(db0, foreignKeys, st);
        seen := InsertNewTrackerInDB(seen, now);
      }
    }

    /**
     * `updateTracker`: stamps the report, inherits blank name and icon, an unset
     * `moid` and the id from the stored tracker, inserts the row for a new sender
     * or rewrites it when the report is not older, and archives the report when
     * it has an id and its time differs from the stored one. Returns the id.
     */
    method UpdateTracker(report: Tracker, now: int) returns (id: int, seen: Tracker)
      requires Valid()
      modifies this
      ensures Valid()
      ensures var cur := old(GetTracker(Store(), report.sender));
              var t := Inherit(Stamped(report, now), cur);
              && (Store(), id) == RecordReport(old(Store()), foreignKeys, t, cur)
              && seen == t.(id := id)
      ensures id != InsertFailed && FindBySender(trackers, report.sender).Some?
      ensures host == old(host) && footprintsCount == old(footprintsCount)
    {
      ghost var db0 := Store();
      var t := report;
      if t.time == 0 {
        t := t.(time := now);
      }
      var cur := GetTracker(Store(), t.sender);
      t := InheritFromStored(t, cur);
      RecordReportKeepsWellFormed(db0, foreignKeys, t);
      id := WriteReport(t, cur);
      seen := t.(id := id);
    }

    /**
     * The inheritance step of `updateTracker`: a blank name or icon and an unset
     * map object id come from the stored tracker, as does the id; a name still
     * blank becomes the sender.
     */
    static method InheritFromStored(st: Tracker, cur: Option<Tracker>) returns (t: Tracker)
      ensures t == Inherit(st, cur)
    {
      t := st;
      if cur.Some? {
        // A blank name or icon falls back to the stored one
        if t.name == "" {
          t := t.(name := cur.value.name);
        }
        if t.image == "" {
          t := t.(image := cur.value.image);
        }
        // An unset map object id falls back to the stored one
        if t.moid == MoidUnset {
          t := t.(moid := cur.value.moid);
        }
        t := t.(id := cur.value.id);
      }
      // A name still blank becomes the sender
      if t.name == "" {
        t := t.(name := t.sender);
      }
    }

    /** The writes of `updateTracker` for the already inherited tracker `t`; returns its id. */
    method WriteReport(t: Tracker, cur: Option<Tracker>) returns (id: int)
      requires cur.Some? ==> t.id == cur.value.id
      modifies this
      ensures (Store(), id) == RecordReport(old(Store()), foreignKeys, t, cur)
      ensures host == old(host) && footprintsCount == old(footprintsCount)
    {
      var tracker := t;
      if cur.None? {
        var newId := InsertTrackerRow(tracker);
        tracker := tracker.(id := newId);
      } else if tracker.time >= cur.value.time {
        tracker := tracker.(id := cur.value.id);
        UpdateTrackerRowInDB(cur.value.id, tracker);
      }
      if tracker.id != InsertFailed && (cur.None? || tracker.time != cur.value.time) {
        var _ := InsertNewFootprintInDB(tracker);
      }
      id := tracker.id;
    }
  }
}
