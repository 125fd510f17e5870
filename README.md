# Tracker helper of the Androzic tracker plugin, modelled in Dafny

The plugin receives position reports from remote trackers (a sender such as a
phone number, a position, speed, battery, signal and a timestamp). It keeps
them in two SQLite tables and mirrors every tracker, plus a short trail of its
latest footprints, as map objects in the host Androzic application. All of this
is done by the class `TrackerHelper`. The model covers:

- the `trackers` and `history` tables and the SQL statements the class issues;
- the host's map-object store;
- the reconciliation decisions: merging a report into a known tracker, creating
  a new one, and the alternative `updateTracker` entry point with its field
  inheritance;
- the cursor walk that mirrors the trail and takes down older footprints.

Modules:

- `Wrappers`: `Option`.
- `Tables`: the rows, the store `Db` (both tables plus the AUTOINCREMENT counter
  of `history`), the invariant `WellFormed`, the queries (`getTracker`,
  `getFullInfoTracker`, `getTrackerFootprints`) and every statement as a function
  from store to store.
- `Markers`: the host's map-object store as a value with `insert`, `update` and
  `delete`.
- `Reconcile`: stamping a report with the clock, the merge snapshot, the
  inheritance rule of `updateTracker`, and the statements `updateTracker` issues.
- `Trail`: what `setFootprintsInAndrozicApp` does to history and to the host, as
  a function of the state before the call.
- `Helper`: the class `TrackerHelper`. It holds the two tables, the counter, the
  trail budget `footprintsCount` (the source's `prefFootprintsCount`) and the host
  store as fields. Its methods follow the source's steps. Each method is proved
  against the functions above, and the properties are proved as lemmas about
  those functions.

Modelling decisions:

- Latitude, longitude and speed are opaque values compared only for equality.
- The clock is a `now` parameter.
- The device's time format is a function of the time. A footprint label is
  `name + " " + format(time)`.
- The two preference values (trail length and marker colour) are constructor
  parameters.
- The host is deterministic: an accepted `insert` hands out the id after the
  last one, and a refused one returns nothing. The host never reuses ids.
  Whether it accepts inserts is fixed for its lifetime (see "Left out").
- A tracker row gets the rowid one past the largest id present, so a deleted
  id can be reused. A history row gets the AUTOINCREMENT key one past the
  counter, so point ids only grow.
- `ORDER BY time DESC` is an insertion sort with a tie-break: among rows with
  equal times it puts the larger point id first, so the order is total.
- Whether the connection enforces the `history` foreign key (`PRAGMA
  foreign_keys`) is a constant of the helper, `foreignKeys`:
  - On: a footprint under an id that no tracker row has is refused (the insert
    returns -1), and deleting a tracker cascades to its history.
  - Off: such a footprint is stored, and deleting a tracker removes only its row.
  - The source issues the pragma only inside `onCreate`
    (src/com/androzic/plugin/tracker/TrackerHelper.java:646). Android runs
    `onCreate` inside a transaction, and SQLite ignores this pragma inside a
    transaction. So in the deployed program enforcement is effectively off.
- The caller's `Tracker` object, which the source mutates in place, is passed
  in by value. Its final state comes back as an out-parameter (`seen`).

Invariant: `WellFormed` (the helper's `Valid()`, together with the host's own
invariant) is established by the constructor, and every method that requires
`Valid()` also ensures it: `ProcessIncomingTracker`, `UpdateTracker`,
`UpdateTrackerPositionInDB`, `RemoveTracker`, `SetFootprintMoidInDB`,
`ClearFootprintMoidsInDB`, `SetFootprintsInAndrozicApp`,
`UpdateTrackerInAndrozicApp` and the loop steps under them. The single
statements `InsertTrackerRow`, `UpdateTrackerRowInDB`, `InsertNewFootprintInDB`,
`InsertNewTrackerInDB`, `SendNewTrackerInAndrozicApp` and `WriteReport` neither
require nor ensure it: they are steps inside those operations, and
`InsertTrackerRow` by itself leaves a tracker row without history. `WellFormed` states:

- senders are unique and tracker ids are unique and positive;
- point ids increase in table order and never exceed the counter;
- with `foreignKeys`, every footprint has a tracker row;
- every tracker row has at least one history row, because every insertion of
  a tracker is followed by its first footprint.

The last point means that `getTracker` reports `null` exactly for unknown
senders (`GetTrackerKnownSender`).

Behaviour the model reproduces on purpose, because the code does it:

- The footprint appended by the merge is filed under the report's own `_id`,
  not the stored tracker's id. When the two differ, what `getTracker` later
  returns for the report's sender does not change (`MergeFootprintSnapshot`).
  The footprint itself goes to the tracker whose id is that `_id`, and can change
  what `getTracker` returns for that tracker's sender. When no tracker has that
  id, it is refused under foreign keys and kept as an orphan row without them
  (`Tables.InsertFootprint`).
- `prefFootprintsCount` is decremented in place and never restored
  (`TrailBudgetConsumed`).
- `updateTracker` archives a report strictly older than the stored one without
  touching the tracker row (`RecordReportKeepsWellFormed`: one history row more
  whenever the times differ; `RecordReportSnapshot`: `getTracker` then still
  returns the stored tracker).
- `insertNewTrackerInDB` inserts a footprint even when the tracker insert
  returned -1 (`Helper.TrackerHelper.InsertNewTrackerInDB`). From a well-formed
  store, `processIncomingTracker` never reaches that case.

## Model

| member | source | states |
|---|---|---|
| Tables.WellFormed | src/com/androzic/plugin/tracker/TrackerHelper.java:648-666 | the invariant the helper keeps: the schema's UNIQUE sender and primary keys, tracker ids from 1, AUTOINCREMENT point ids increasing and at most the counter, the foreign key when enforced, and (derived from the code, not the schema) every tracker row owning a history row; it has no `ensures`, and the lemmas and methods that keep it are listed below |
| Tables.FindBySender | src/com/androzic/plugin/tracker/TrackerHelper.java:514-520 | the row found has the sender; nothing is found iff no row has the sender |
| Tables.RowsOf | src/com/androzic/plugin/tracker/TrackerHelper.java:533 | exactly the history rows of the tracker; increasing keys stay increasing |
| Tables.SortNewestFirst | src/com/androzic/plugin/tracker/TrackerHelper.java:600 | `ORDER BY time DESC`: the result is sorted newest first and is a permutation of the input |
| Tables.GetTrackerFootprints | src/com/androzic/plugin/tracker/TrackerHelper.java:594-601 | the footprints of one tracker, newest first, exactly the history rows with that tracker id |
| Tables.FootprintsDistinct | src/com/androzic/plugin/tracker/TrackerHelper.java:594-601 | in a history with increasing keys, one tracker's footprints have distinct point ids |
| Tables.GetFullInfoTracker | src/com/androzic/plugin/tracker/TrackerHelper.java:526-559 | absent iff the tracker has no history; otherwise the row joined with one of its footprints whose time is the maximum of the tracker's times |
| Tables.Snapshot | src/com/androzic/plugin/tracker/TrackerHelper.java:541-556 | the join of a tracker row and a footprint; projecting it back gives the tracker row, and the footprint up to its moid |
| Tables.GetTracker | src/com/androzic/plugin/tracker/TrackerHelper.java:508-524 | a result is the row with the sender joined with one of that row's footprints, and no footprint of the row is newer; absent iff every row with the sender lacks history |
| Tables.GetTrackerKnownSender | src/com/androzic/plugin/tracker/TrackerHelper.java:508-524 | in a well-formed store, `getTracker` is null exactly for senders without a row |
| Tables.MaxTrackerId | src/com/androzic/plugin/tracker/TrackerHelper.java:648 | at least 0 and at least every tracker id (the basis of the next rowid) |
| Tables.InsertTracker | src/com/androzic/plugin/tracker/TrackerHelper.java:648-654 | a present sender violates UNIQUE and yields -1 with the store unchanged; otherwise a positive id no row has and exactly that row appended |
| Tables.InsertFootprint | src/com/androzic/plugin/tracker/TrackerHelper.java:656-666 | -1 iff foreign keys are enforced and no tracker has the id; otherwise a key above the counter and exactly that row appended |
| Tables.Footprint | src/com/androzic/plugin/tracker/TrackerHelper.java:405-412 | the history row written for a report: the tracker id it is filed under and the report's latitude, longitude, speed, battery, signal and time, with moid NULL (0); the same columns as :472-479; it has no `ensures` |
| Tables.UpdateTrackerRow | src/com/androzic/plugin/tracker/TrackerHelper.java:465 | rows with the id get the new moid, title, icon, imei and sender; all other rows and the history are unchanged |
| Tables.OtherTrackers | src/com/androzic/plugin/tracker/TrackerHelper.java:504 | exactly the tracker rows whose id differs |
| Tables.OtherHistory | src/com/androzic/plugin/tracker/TrackerHelper.java:665 | exactly the history rows of other trackers (the cascade), keys still increasing |
| Tables.DeleteTracker | src/com/androzic/plugin/tracker/TrackerHelper.java:504 | the row with the id is gone; its history goes too iff foreign keys are enforced |
| Tables.SetMoid | src/com/androzic/plugin/tracker/TrackerHelper.java:612-622 | rows with the point id get the moid, all others unchanged |
| Tables.CountPoint | src/com/androzic/plugin/tracker/TrackerHelper.java:622 | zero iff no row has the point id, at most one under increasing keys |
| Tables.SetFootprintMoid | src/com/androzic/plugin/tracker/TrackerHelper.java:603-623 | only the moid of that footprint changes; the count returned is 0 iff no such row and at most 1 |
| Tables.ClearFootprintMoids | src/com/androzic/plugin/tracker/TrackerHelper.java:625-636 | every row of the tracker gets moid 0 and nothing else changes; the count is the number of the tracker's rows |
| Tables.MoidsOnlyKeepWellFormed | src/com/androzic/plugin/tracker/TrackerHelper.java:603-636 | changing only `moid` columns keeps the store well formed |
| Tables.InsertFootprintKeepsWellFormed | src/com/androzic/plugin/tracker/TrackerHelper.java:398-415 | appending a footprint keeps the store well formed |
| Tables.InsertTrackerKeepsUnique | src/com/androzic/plugin/tracker/TrackerHelper.java:393 | a new sender's insert succeeds, adds one row and keeps senders and ids unique |
| Tables.InsertTrackerWithFootprint | src/com/androzic/plugin/tracker/TrackerHelper.java:375-396 | for a new sender both inserts succeed, the store stays well formed and each table grows by exactly one row |
| Tables.InsertTrackerRoundTrip | src/com/androzic/plugin/tracker/TrackerHelper.java:375-396 | after the two inserts, `getTracker` returns exactly the inserted tracker iff no history left under the reused id is newer than its time; with foreign keys, or when the id has no history, it always does |
| Tables.LatestFootprintLeads | src/com/androzic/plugin/tracker/TrackerHelper.java:526-559 | a footprint with a key above every earlier one and no earlier time of its tracker above its own is what `getFullInfoTracker` returns (the tie-break on equal times goes to the later insert) |
| Tables.UpdateTrackerRowKeepsWellFormed | src/com/androzic/plugin/tracker/TrackerHelper.java:461-466 | rewriting a known sender's row keeps the store well formed |
| Tables.UpdateTrackerRowSnapshot | src/com/androzic/plugin/tracker/TrackerHelper.java:461-466 | after the rewrite, `getTracker` differs only in the written columns; position and time are unchanged |
| Tables.DeleteTrackerKeepsWellFormed | src/com/androzic/plugin/tracker/TrackerHelper.java:494-506 | deleting a tracker, with or without the cascade, keeps the store well formed |
| Markers.Host.Create | src/com/androzic/plugin/tracker/TrackerHelper.java:366-372 | a fresh id above every earlier one, bound to the marker, iff the host accepts; otherwise nothing changes |
| Markers.Host.Update | src/com/androzic/plugin/tracker/TrackerHelper.java:268 | a held id is rebound to the marker; an unknown id changes nothing |
| Markers.Host.Delete | src/com/androzic/plugin/tracker/TrackerHelper.java:336 | exactly the given id disappears; every other marker is kept |
| Reconcile.Advanced | src/com/androzic/plugin/tracker/TrackerHelper.java:234-243 | the merge snapshot: latitude, longitude and time come from the report iff it is not older, and every other field comes from the stored tracker |
| Reconcile.Inherit | src/com/androzic/plugin/tracker/TrackerHelper.java:428-447 | a blank name or icon, and a moid of `Long.MIN_VALUE`, take the stored values; the id is the stored id; a still-blank name becomes the sender; nothing else changes |
| Reconcile.Stamped | src/com/androzic/plugin/tracker/TrackerHelper.java:224-225 | only the time can change: a report with time 0 takes the current time, any other is unchanged (also :382-383 and :424-425) |
| Reconcile.Moved | src/com/androzic/plugin/tracker/TrackerHelper.java:227-229 | a report has moved iff copying its latitude, longitude and time into the stored tracker changes it |
| Reconcile.TrackerMarker | src/com/androzic/plugin/tracker/TrackerHelper.java:258-263 | the map object of a tracker carries its position, name and icon, and the preference colour |
| Reconcile.MergeFootprintSnapshot | src/com/androzic/plugin/tracker/TrackerHelper.java:227-232 | the merge's footprint never lowers the stored time; under the stored tracker's id it yields the later time, and under any other id `getTracker` is unchanged |
| Reconcile.FullInfoAppended | src/com/androzic/plugin/tracker/TrackerHelper.java:526-559 | appending history: another tracker's row leaves the answer unchanged; the tracker's own row yields the later time |
| Reconcile.NewerFootprintLeads | src/com/androzic/plugin/tracker/TrackerHelper.java:532-556 | a footprint newer than all of the tracker's becomes what `getFullInfoTracker` returns |
| Reconcile.OlderFootprintTrails | src/com/androzic/plugin/tracker/TrackerHelper.java:532-556 | a footprint older than the current answer leaves `getFullInfoTracker` unchanged |
| Reconcile.RecordReport | src/com/androzic/plugin/tracker/TrackerHelper.java:449-482 | the writes of `updateTracker`: history is only appended to, by at most one footprint; a known sender keeps its id; an older report leaves the tracker rows unchanged and an equal-time one archives nothing |
| Reconcile.RecordReportKeepsWellFormed | src/com/androzic/plugin/tracker/TrackerHelper.java:457-482 | `updateTracker` keeps the store well formed and ends with a valid id and a known sender. It adds a tracker row iff the sender is new and a history row iff the sender is new or the time differs. An older report leaves the tracker rows unchanged |
| Reconcile.RecordReportSnapshot | src/com/androzic/plugin/tracker/TrackerHelper.java:457-482 | for a known sender, `getTracker` afterwards is the report itself when it is newer; the stored position and time with the written moid, name, icon and imei when the times are equal; and the stored tracker unchanged when it is older |
| Trail.Label | src/com/androzic/plugin/tracker/TrackerHelper.java:298-303 | the footprint label: the tracker's name, a space, and the time in the device's time format; it has no `ensures`, and `FootprintMarker` states its prefix |
| Trail.FootprintMarker | src/com/androzic/plugin/tracker/TrackerHelper.java:298-311 | the map object of a footprint carries its position, no icon and the preference colour, and its label starts with the tracker's name |
| Trail.MirrorRow | src/com/androzic/plugin/tracker/TrackerHelper.java:313-325 | a footprint without a map object gets one under a fresh id, recorded on its row, iff the host accepts; one with a map object has it rewritten if the host holds it, and history is untouched |
| Trail.TrimRow | src/com/androzic/plugin/tracker/TrackerHelper.java:332-339 | a footprint with a map object loses it from the host and its row's moid becomes 0; any other footprint changes nothing |
| Trail.MirrorAll | src/com/androzic/plugin/tracker/TrackerHelper.java:293-328 | the do-while pass changes only `moid` columns, keeps the host's mode, never lowers its id counter and removes no map object |
| Trail.MirrorAllHost | src/com/androzic/plugin/tracker/TrackerHelper.java:307-325 | when every map-object id on the footprints was handed out by the host: after the pass, a footprint's held map object, if no later footprint shares its id, shows that footprint; one without a map object, when the host accepts, shows it under the id created for it |
| Trail.TrimAllKeeps | src/com/androzic/plugin/tracker/TrackerHelper.java:330-342 | the erasing pass keeps every map object whose id no erased footprint carries |
| Trail.TrimAll | src/com/androzic/plugin/tracker/TrackerHelper.java:330-342 | the erasing pass changes only `moid` columns and leaves the host's id counter unchanged |
| Trail.Mirrors | src/com/androzic/plugin/tracker/TrackerHelper.java:287 | the do-while is entered iff the budget is positive and a footprint follows the newest; it has no `ensures`, and `ApplyTrail` states that otherwise nothing changes |
| Trail.WindowEnd | src/com/androzic/plugin/tracker/TrackerHelper.java:287-328 | with budget N = `prefFootprintsCount` and F footprints, the loop mirrors positions 1 to min(N, F-1): the result is exactly min(N+1, F) |
| Trail.Remaining | src/com/androzic/plugin/tracker/TrackerHelper.java:328 | the budget left: between 0 and N, and 0 iff N <= F-2 |
| Trail.ApplyTrail | src/com/androzic/plugin/tracker/TrackerHelper.java:279-347 | with N <= 0 or F <= 1 nothing changes; otherwise the budget left is as above and only `moid` columns change |
| Trail.MirrorAllRow | src/com/androzic/plugin/tracker/TrackerHelper.java:307-324 | over distinct footprints, only visited rows change. A visited row with a map object keeps its moid. One without, when the host accepts, gets a fresh id, and it is exactly the id its own pass created (the host's last id after the passes up to it), the id `MirrorAllHost` shows its map object under; a refusing host leaves it unchanged |
| Trail.TrimAllRow | src/com/androzic/plugin/tracker/TrackerHelper.java:330-342 | over distinct footprints, only visited rows with a map object change, to moid 0 |
| Trail.TrimAllRemovesMarkers | src/com/androzic/plugin/tracker/TrackerHelper.java:333-337 | no erased footprint's former map object remains in the host |
| Trail.SplitRows | src/com/androzic/plugin/tracker/TrackerHelper.java:287-342 | the window and the older part of distinct footprints share no key |
| Trail.TrailWindowRow | src/com/androzic/plugin/tracker/TrackerHelper.java:307-324 | a windowed footprint, through the whole call: kept when it had a map object or the host refuses; otherwise given the fresh id its own pass created, the id `TrailWindowMarker` shows its map object under |
| Trail.TrailOlderRow | src/com/androzic/plugin/tracker/TrackerHelper.java:330-342 | a footprint past the window, through the whole call: moid 0 if it had a map object, else unchanged |
| Trail.TrailOtherRow | src/com/androzic/plugin/tracker/TrackerHelper.java:287 | the newest footprint and rows of other trackers are untouched |
| Trail.TrailRow | src/com/androzic/plugin/tracker/TrackerHelper.java:279-347 | the per-row effect of one call: row 0 and foreign rows untouched, positions 1 to min(N, F-1) mirrored (a row without a map object records the id its own pass created, when the host accepts), older positions with a map object set to moid 0 |
| Trail.TrailRemovesOlderMarkers | src/com/androzic/plugin/tracker/TrackerHelper.java:330-342 | after the call no map object of a footprint past the window remains |
| Trail.TrailWindowMarker | src/com/androzic/plugin/tracker/TrackerHelper.java:293-342 | after the whole call, a windowed footprint whose map-object id no other footprint shares is shown by the host under that id (when held) or under the id created for it (when the host accepts) |
| Trail.TrailBudgetConsumed | src/com/androzic/plugin/tracker/TrackerHelper.java:328 | after a call with at least N+2 footprints the budget is 0, and every later call changes nothing |
| Helper.TrackerHelper.constructor | src/com/androzic/plugin/tracker/TrackerHelper.java:159-177 | empty, well-formed tables with the two preference values and the host given |
| Helper.TrackerHelper.InsertTrackerRow | src/com/androzic/plugin/tracker/TrackerHelper.java:393 | the store becomes the tracker insert's result and the id is its rowid or -1 |
| Helper.TrackerHelper.UpdateTrackerRowInDB | src/com/androzic/plugin/tracker/TrackerHelper.java:465 | the store becomes the row update's result |
| Helper.TrackerHelper.InsertNewFootprintInDB | src/com/androzic/plugin/tracker/TrackerHelper.java:398-415 | one footprint under the tracker's own `_id`; the store and key are the insert's result |
| Helper.TrackerHelper.InsertNewTrackerInDB | src/com/androzic/plugin/tracker/TrackerHelper.java:375-396 | stamps the report, inserts the row, takes the id (even -1) and inserts a footprint under it |
| Helper.TrackerHelper.SendNewTrackerInAndrozicApp | src/com/androzic/plugin/tracker/TrackerHelper.java:355-373 | one map object for the tracker; the moid is its fresh id, or 0 iff the host refused |
| Helper.TrackerHelper.UpdateTrackerPositionInDB | src/com/androzic/plugin/tracker/TrackerHelper.java:212-244 | stamps the report. It attempts one footprint insert under the report's `_id` iff time, latitude or longitude moved; under foreign keys that insert is refused when no tracker has that id. It never writes the tracker row, returns the advanced snapshot, and `getTracker`'s time does not decrease |
| Helper.TrackerHelper.SetFootprintMoidInDB | src/com/androzic/plugin/tracker/TrackerHelper.java:603-623 | the store becomes the update's result, stays well formed, and the count of changed rows is 0 or 1 |
| Helper.TrackerHelper.ClearFootprintMoidsInDB | src/com/androzic/plugin/tracker/TrackerHelper.java:625-636 | the store becomes the update's result and stays well formed |
| Helper.TrackerHelper.RemoveTracker | src/com/androzic/plugin/tracker/TrackerHelper.java:494-506 | deletes the sender's row when there is one; afterwards no row has the sender and the store is well formed |
| Helper.TrackerHelper.SetFootprintsInAndrozicApp | src/com/androzic/plugin/tracker/TrackerHelper.java:279-347 | history, host and budget become `ApplyTrail` of the tracker's footprints, newest first |
| Helper.TrackerHelper.WalkFootprints | src/com/androzic/plugin/tracker/TrackerHelper.java:287-342 | the two loops over the cursor together compute `ApplyTrail` |
| Helper.TrackerHelper.MirrorWindow | src/com/androzic/plugin/tracker/TrackerHelper.java:293-328 | the do-while loop stops at `WindowEnd`, having mirrored exactly the window, and leaves `Remaining` as the budget |
| Helper.TrackerHelper.TrimOlder | src/com/androzic/plugin/tracker/TrackerHelper.java:330-342 | the erasing loop applies `TrimRow` to every footprint from the stop position on |
| Helper.TrackerHelper.MirrorFootprint | src/com/androzic/plugin/tracker/TrackerHelper.java:307-324 | one do-while pass is `MirrorRow` |
| Helper.TrackerHelper.TrimFootprint | src/com/androzic/plugin/tracker/TrackerHelper.java:332-338 | one erasing pass is `TrimRow` |
| Helper.TrackerHelper.UpdateTrackerInAndrozicApp | src/com/androzic/plugin/tracker/TrackerHelper.java:251-272 | rewrites the tracker's own map object, then the trail as `ApplyTrail` |
| Helper.TrackerHelper.ProcessIncomingTracker | src/com/androzic/plugin/tracker/TrackerHelper.java:180-205 | known sender: the merge followed by the mirror, with the stored tracker advanced. New sender: named after itself, one map object (moid 0 iff refused), one tracker row and one footprint; `getTracker` then returns it iff no history left under the reused id is newer, so always with foreign keys |
| Helper.TrackerHelper.UpdateTracker | src/com/androzic/plugin/tracker/TrackerHelper.java:417-491 | the stamped report with the inherited fields is written as `RecordReport` says; the id is valid, the sender is known and the store is well formed |
| Helper.TrackerHelper.InheritFromStored | src/com/androzic/plugin/tracker/TrackerHelper.java:428-447 | the inheritance steps, in the source's statement order, compute `Inherit`; the method exists only to mirror that order, and `Inherit` is the definition the rest of the model uses |
| Helper.TrackerHelper.WriteReport | src/com/androzic/plugin/tracker/TrackerHelper.java:457-482 | the insert or update and the archiving compute `RecordReport` |

## Left out

- Android plumbing: `ContentProviderClient`, `ContentValues`, `Uri`, `Cursor` and `SQLiteDatabase`. They are replaced by sequence fields and the `Host` value. A cursor is the sequence of rows returned at the moment of the query.
- `RemoteException`: not modelled. The host never fails partway through the mirror loop.
- Floating point: latitude, longitude and speed are opaque and compared for equality only, so NaN is not modelled.
- The clock is the `now` parameter, and `Calendar`/`DateFormat` are the uninterpreted `timeFormat` function.
- The constructor's preference parsing: the two values are parameters. A malformed preference string (an exception in the source) is not modelled.
- Logging and the column-name constants.
- `onCreate`/`onUpgrade`: reduced to "the store starts empty". The model does not capture `onUpgrade` ending its transaction without marking it successful.
- `getHeadersOfTrackers`: a raw cursor over the whole table.
- The unused `updateAndrozicApp` flag of `processIncomingTracker`.
- `getTrackerFootprint`: a column projection; the model reads the row's fields directly.
- Null strings: names, icons and senders are never null in the model. A blank name or icon is the empty string.
- The 64-bit columns and `Long.MIN_VALUE` are unbounded integers. `MoidUnset` is the value -2^63, and no arithmetic on these values can overflow in the source.
- `clearFootprintMoids` takes the tracker id as a string in the source. The model takes the integer it stands for.
- Markers.Host.Create: whether the host accepts an insert is a property of the host for its whole lifetime (`accepting`), not of each call, so a provider that refuses one insert and accepts the next is not represented. The per-call check on the returned Uri (src/com/androzic/plugin/tracker/TrackerHelper.java:316 and :367) is modelled, but `Trail.MirrorAllRow`, `Trail.TrailWindowRow`, `Trail.MirrorAllHost` and `Helper.TrackerHelper.SendNewTrackerInAndrozicApp` state their cases in terms of that fixed mode.
- Trail.MirrorAll: its own contract is a frame (moids, mode, counter, kept map objects). What the host shows afterwards is stated by `Trail.MirrorAllHost` only for footprints whose map-object id no later footprint shares and whose ids the host handed out, because two footprints carrying the same stale id overwrite each other's map object.
- Trail.ApplyTrail: the same holds for the whole call. `Trail.TrailWindowMarker` states the host's marker for a windowed footprint under those two conditions only.
