/**
 * What `setFootprintsInAndrozicApp` does to the history table and the host's map
 * objects, as a function of the state before the call: skip the newest footprint,
 * mirror the next ones while the trail budget lasts, then take down the map objects
 * of every older footprint.
 */
module Trail {
  import opened Wrappers
  import opened Tables
  import opened Markers

  /** What the labels and colours of footprint markers depend on. */
  datatype Style = Style(name: string, timeFormat: int -> string, color: int)

  /** The two stores the loop writes: the history table and the host's markers. */
  datatype Sync = Sync(history: seq<HistoryRow>, host: Host)

  /** `tracker.name + " " + time`, the time shown in the device's time format. */
  function Label(style: Style, time: int): (r: string) {
    style.name + " " + style.timeFormat(time)
  }

  /** The map object for one footprint: its position and label, no image. */
  function FootprintMarker(row: HistoryRow, style: Style): (m: Marker)
    ensures m.lat == row.lat && m.lon == row.lon && m.image == "" && m.color == style.color
    ensures |m.name| > |style.name| && m.name[..|style.name|] == style.name
  {
    Marker(row.lat, row.lon, Label(style, row.time), "", style.color)
  }

  /**
   * One pass of the do-while loop: a footprint without a map object gets one
   * (and its id is recorded on that row); otherwise its map object is rewritten.
   */
  function MirrorRow(s: Sync, row: HistoryRow, style: Style): (r: Sync)
    ensures row.moid <= 0 && !s.host.accepting ==> r == s
    ensures row.moid <= 0 && s.host.accepting ==>
              && r.host.lastId > s.host.lastId
              && r.host.markers == s.host.markers[r.host.lastId := FootprintMarker(row, style)]
              && r.history == SetMoid(s.history, row.pointId, r.host.lastId)
    ensures row.moid > 0 ==>
              && r.history == s.history && r.host.lastId == s.host.lastId
              && (row.moid in s.host.markers ==> r.host.markers == s.host.markers[row.moid := FootprintMarker(row, style)])
              && (row.moid !in s.host.markers ==> r.host == s.host)
  {
    var m := FootprintMarker(row, style);
    if row.moid <= 0 then
      var c := s.host.Create(m);
      Sync(if c.1.Some? then SetMoid(s.history, row.pointId, c.1.value) else s.history, c.0)
    else Sync(s.history, s.host.Update(row.moid, m))
  }

  /** One pass of the erasing loop: a footprint with a map object loses it and its `moid` becomes 0. */
  function TrimRow(s: Sync, row: HistoryRow): (r: Sync)
    ensures row.moid <= 0 ==> r == s
    ensures row.moid > 0 ==>
              && r.history == SetMoid(s.history, row.pointId, 0)
              && (forall id :: id in r.host.markers <==> id in s.host.markers && id != row.moid)
              && r.host.lastId == s.host.lastId
  {
    if row.moid > 0 then Sync(SetMoid(s.history, row.pointId, 0), s.host.Delete(row.moid)) else s
  }

  /** Only `moid` columns of history change, the host keeps its mode and its counter only grows. */
  predicate MoidsOnly(s: Sync, r: Sync) {
    && |r.history| == |s.history|
    && (forall j :: 0 <= j < |s.history| ==> r.history[j] == s.history[j].(moid := r.history[j].moid))
    && r.host.accepting == s.host.accepting
    && r.host.lastId >= s.host.lastId
    && (s.host.Valid() ==> r.host.Valid())
  }

  /** `MirrorRow` applied to `rows` in order. */
  function MirrorAll(s: Sync, rows: seq<HistoryRow>, style: Style): (r: Sync)
    ensures MoidsOnly(s, r)
    ensures forall id :: id in s.host.markers ==> id in r.host.markers
    decreases |rows|
  {
    if rows == [] then s
    else MirrorRow(MirrorAll(s, rows[..|rows| - 1], style), rows[|rows| - 1], style)
  }

  /** `TrimRow` applied to `rows` in order. */
  function TrimAll(s: Sync, rows: seq<HistoryRow>): (r: Sync)
    ensures MoidsOnly(s, r) && r.host.lastId == s.host.lastId
    decreases |rows|
  {
    if rows == [] then s
    else TrimRow(TrimAll(s, rows[..|rows| - 1]), rows[|rows| - 1])
  }

  /** The loop body runs at all: the budget is positive and there is a footprint after the newest. */
  predicate Mirrors(budget: int, count: nat) {
    budget > 0 && count >= 2
  }

  /** One past the last mirrored position: positions 1 to min(budget, count - 1) are mirrored. */
  function WindowEnd(budget: int, count: nat): (k: nat)
    requires Mirrors(budget, count)
    ensures 2 <= k <= count && k <= budget + 1
    ensures k == count || k == budget + 1
  {
    1 + if budget < count - 1 then budget else count - 1
  }

  /** The budget left after the do-while loop: 0 once there were more footprints than it covered. */
  function Remaining(budget: int, count: nat): (n: int)
    requires Mirrors(budget, count)
    ensures 0 <= n <= budget
    ensures n == 0 <==> budget <= count - 2
  {
    if budget <= count - 2 then 0 else budget - (count - 2)
  }

  /**
   * The whole call, on the footprints `rows` of one tracker (newest first) and the
   * trail budget `prefFootprintsCount`: the new stores and the new budget.
   */
  function ApplyTrail(s: Sync, rows: seq<HistoryRow>, budget: int, style: Style): (r: (Sync, int))
    ensures !Mirrors(budget, |rows|) ==> r == (s, budget)
    ensures Mirrors(budget, |rows|) ==> 0 <= r.1 <= budget && (r.1 == 0 <==> budget <= |rows| - 2)
    ensures MoidsOnly(s, r.0)
  {
    if Mirrors(budget, |rows|) then
      var k := WindowEnd(budget, |rows|);
      (TrimAll(MirrorAll(s, rows[1..k], style), rows[k..]), Remaining(budget, |rows|))
    else (s, budget)
  }

  // ---------------------------------------------------------------------------
  // What happens to each history row

  /** A history row with key `pointId` that the mirror pass over `rows` does not visit keeps its `moid`. */
  predicate NotIn(rows: seq<HistoryRow>, pointId: int) {
    forall i :: 0 <= i < |rows| ==> rows[i].pointId != pointId
  }

  /**
   * The mirror pass over distinct footprints: a row it does not visit is unchanged;
   * a visited footprint that already had a map object keeps its `moid`; one without
   * it gets a fresh id when the host accepts and keeps its value when it refuses.
   */
  lemma {:induction false} MirrorAllRow(s: Sync, rows: seq<HistoryRow>, style: Style, j: int)
    requires DistinctPoints(rows)
    requires 0 <= j < |s.history|
    ensures var r := MirrorAll(s, rows, style);
            && (NotIn(rows, s.history[j].pointId) ==> r.history[j] == s.history[j])
            && forall i :: 0 <= i < |rows| && rows[i].pointId == s.history[j].pointId ==>
                 if rows[i].moid > 0 || !s.host.accepting then r.history[j] == s.history[j]
                 else r.history[j] == s.history[j].(moid := MirrorAll(s, rows[..i + 1], style).host.lastId)
                      && r.history[j].moid > s.host.lastId
    decreases |rows|
  {
    if rows != [] {
      var n := |rows| - 1;
      var prefix := rows[..n];
      var mid := MirrorAll(s, prefix, style);
      MirrorAllRow(s, prefix, style, j);
      var row := rows[n];
      var r := MirrorRow(mid, row, style);
      assert r == MirrorAll(s, rows, style);
      assert mid.history[j].pointId == s.history[j].pointId;
      if row.pointId != s.history[j].pointId {
        assert r.history[j] == mid.history[j];
        forall i | 0 <= i < |rows| && rows[i].pointId == s.history[j].pointId
          ensures i < n && prefix[i] == rows[i] && prefix[..i + 1] == rows[..i + 1]
        {
        }
      } else {
        assert NotIn(prefix, s.history[j].pointId);
        assert mid.history[j] == s.history[j];
        forall i | 0 <= i < |rows| && rows[i].pointId == s.history[j].pointId
          ensures i == n
        {
        }
        assert rows[..n + 1] == rows;
      }
    }
  }

  /**
   * The erasing pass over distinct footprints: a row it does not visit is
   * unchanged; a visited footprint with a map object gets `moid` 0, any other keeps it.
   */
  lemma {:induction false} TrimAllRow(s: Sync, rows: seq<HistoryRow>, j: int)
    requires DistinctPoints(rows)
    requires 0 <= j < |s.history|
    ensures var r := TrimAll(s, rows);
            && (NotIn(rows, s.history[j].pointId) ==> r.history[j] == s.history[j])
            && forall i :: 0 <= i < |rows| && rows[i].pointId == s.history[j].pointId ==>
                 r.history[j] == if rows[i].moid > 0 then s.history[j].(moid := 0) else s.history[j]
    decreases |rows|
  {
    if rows != [] {
      var n := |rows| - 1;
      var prefix := rows[..n];
      var mid := TrimAll(s, prefix);
      TrimAllRow(s, prefix, j);
      var row := rows[n];
      var r := TrimRow(mid, row);
      assert r == TrimAll(s, rows);
      assert mid.history[j].pointId == s.history[j].pointId;
      if row.pointId != s.history[j].pointId {
        assert r.history[j] == mid.history[j];
        forall i | 0 <= i < |rows| && rows[i].pointId == s.history[j].pointId
          ensures i < n && prefix[i] == rows[i]
        {
        }
      } else {
        assert NotIn(prefix, s.history[j].pointId);
        assert mid.history[j] == s.history[j];
        forall i | 0 <= i < |rows| && rows[i].pointId == s.history[j].pointId
          ensures i == n
        {
        }
      }
    }
  }

  /** After the erasing pass no visited footprint's former map object is left in the host. */
  lemma {:induction false} TrimAllRemovesMarkers(s: Sync, rows: seq<HistoryRow>)
    ensures forall i :: 0 <= i < |rows| && rows[i].moid > 0 ==> rows[i].moid !in TrimAll(s, rows).host.markers
    decreases |rows|
  {
    if rows != [] {
      TrimAllRemovesMarkers(s, rows[..|rows| - 1]);
      forall i | 0 <= i < |rows| && rows[i].moid > 0
        ensures rows[i].moid !in TrimAll(s, rows).host.markers
      {
        if i < |rows| - 1 {
          assert rows[..|rows| - 1][i] == rows[i];
        }
      }
    }
  }

  /**
   * What the mirror pass leaves in the host for the footprint at `i`, when every
   * map-object id on the footprints was handed out by the host before the pass:
   * a footprint whose map object the host holds, and that no later footprint
   * shares, shows it there; one without a map object, when the host accepts,
   * shows it under the id its pass created, the last id handed out after it.
   */
  lemma {:induction false} MirrorAllHost(s: Sync, rows: seq<HistoryRow>, style: Style, i: int)
    requires 0 <= i < |rows|
    requires forall k :: 0 <= k < |rows| ==> rows[k].moid <= s.host.lastId
    requires rows[i].moid > 0 ==> forall k :: i < k < |rows| ==> rows[k].moid != rows[i].moid
    ensures var r := MirrorAll(s, rows, style).host;
            && (rows[i].moid > 0 && rows[i].moid in s.host.markers ==>
                  rows[i].moid in r.markers && r.markers[rows[i].moid] == FootprintMarker(rows[i], style))
            && (rows[i].moid <= 0 && s.host.accepting ==>
                  var id := MirrorAll(s, rows[..i + 1], style).host.lastId;
                  s.host.lastId < id <= r.lastId && id in r.markers && r.markers[id] == FootprintMarker(rows[i], style))
    decreases |rows|
  {
    var n := |rows| - 1;
    var prefix := rows[..n];
    var mid := MirrorAll(s, prefix, style);
    assert MirrorAll(s, rows, style) == MirrorRow(mid, rows[n], style);
    if i == n {
      assert rows[..i + 1] == rows;
    } else {
      assert prefix[..i + 1] == rows[..i + 1];
      assert forall k :: 0 <= k < |prefix| ==> prefix[k] == rows[k];
      MirrorAllHost(s, prefix, style, i);
    }
  }

  /** The erasing pass keeps every map object whose id no visited footprint carries. */
  lemma {:induction false} TrimAllKeeps(s: Sync, rows: seq<HistoryRow>, id: int)
    requires forall k :: 0 <= k < |rows| ==> rows[k].moid != id
    ensures id in s.host.markers ==>
              id in TrimAll(s, rows).host.markers && TrimAll(s, rows).host.markers[id] == s.host.markers[id]
    decreases |rows|
  {
    if rows != [] {
      var prefix := rows[..|rows| - 1];
      assert forall k :: 0 <= k < |prefix| ==> prefix[k] == rows[k];
      TrimAllKeeps(s, prefix, id);
    }
  }

  /**
   * The map object of a footprint in the window after the whole call, when every
   * map-object id on the footprints was handed out by the host and no other
   * footprint after the newest shares the footprint's own: it shows the footprint
   * under its old id when the host held that, or, for a footprint without one and
   * a host that accepts, under the id created for it.
   */
  lemma TrailWindowMarker(s: Sync, rows: seq<HistoryRow>, budget: int, style: Style, i: int)
    requires Mirrors(budget, |rows|) && 1 <= i < WindowEnd(budget, |rows|)
    requires forall k :: 0 <= k < |rows| ==> rows[k].moid <= s.host.lastId
    requires rows[i].moid > 0 ==> forall k :: 1 <= k < |rows| && k != i ==> rows[k].moid != rows[i].moid
    ensures var r := ApplyTrail(s, rows, budget, style).0.host;
            && (rows[i].moid > 0 && rows[i].moid in s.host.markers ==>
                  rows[i].moid in r.markers && r.markers[rows[i].moid] == FootprintMarker(rows[i], style))
            && (rows[i].moid <= 0 && s.host.accepting ==>
                  var id := MirrorAll(s, rows[1..i + 1], style).host.lastId;
                  s.host.lastId < id && id in r.markers && r.markers[id] == FootprintMarker(rows[i], style))
  {
    var k := WindowEnd(budget, |rows|);
    var window, older := rows[1..k], rows[k..];
    assert forall m :: 0 <= m < |window| ==> window[m] == rows[m + 1];
    assert forall m :: 0 <= m < |older| ==> older[m] == rows[m + k];
    assert window[..i] == rows[1..i + 1];
    MirrorAllHost(s, window, style, i - 1);
    var mid := MirrorAll(s, window, style);
    if rows[i].moid > 0 {
      TrimAllKeeps(mid, older, rows[i].moid);
    } else if s.host.accepting {
      TrimAllKeeps(mid, older, MirrorAll(s, rows[1..i + 1], style).host.lastId);
    }
  }

  /** Distinct keys split between the window `rows[1..k]` and the older part `rows[k..]`. */
  lemma SplitRows(rows: seq<HistoryRow>, k: nat, p: int)
    requires DistinctPoints(rows) && 1 <= k <= |rows|
    ensures DistinctPoints(rows[1..k]) && DistinctPoints(rows[k..])
    ensures (exists i :: 1 <= i < k && rows[i].pointId == p) ==> NotIn(rows[k..], p)
    ensures (exists i :: k <= i < |rows| && rows[i].pointId == p) ==> NotIn(rows[1..k], p)
    ensures NotIn(rows[1..], p) ==> NotIn(rows[1..k], p) && NotIn(rows[k..], p)
  {
    assert forall i :: 1 <= i < k ==> rows[1..k][i - 1] == rows[i];
    assert forall i :: k <= i < |rows| ==> rows[k..][i - k] == rows[i];
    assert forall i :: 1 <= i < |rows| ==> rows[1..][i - 1] == rows[i];
  }

  /** A footprint in the window, seen through the whole call. */
  lemma TrailWindowRow(s: Sync, rows: seq<HistoryRow>, budget: int, style: Style, j: int, i: int)
    requires DistinctPoints(rows) && Mirrors(budget, |rows|) && 0 <= j < |s.history|
    requires 1 <= i < WindowEnd(budget, |rows|) && rows[i].pointId == s.history[j].pointId
    ensures var r := ApplyTrail(s, rows, budget, style).0;
            if rows[i].moid > 0 || !s.host.accepting then r.history[j] == s.history[j]
            else r.history[j] == s.history[j].(moid := MirrorAll(s, rows[1..i + 1], style).host.lastId)
                 && r.history[j].moid > s.host.lastId
  {
    var k := WindowEnd(budget, |rows|);
    var p := s.history[j].pointId;
    SplitRows(rows, k, p);
    var window, older := rows[1..k], rows[k..];
    var mid := MirrorAll(s, window, style);
    MirrorAllRow(s, window, style, j);
    assert window[i - 1] == rows[i];
    assert window[..i] == rows[1..i + 1];
    assert mid.history[j].pointId == p;
    TrimAllRow(mid, older, j);
  }

  /** A footprint past the window, seen through the whole call. */
  lemma TrailOlderRow(s: Sync, rows: seq<HistoryRow>, budget: int, style: Style, j: int, i: int)
    requires DistinctPoints(rows) && Mirrors(budget, |rows|) && 0 <= j < |s.history|
    requires WindowEnd(budget, |rows|) <= i < |rows| && rows[i].pointId == s.history[j].pointId
    ensures var r := ApplyTrail(s, rows, budget, style).0;
            r.history[j] == if rows[i].moid > 0 then s.history[j].(moid := 0) else s.history[j]
  {
    var k := WindowEnd(budget, |rows|);
    var p := s.history[j].pointId;
    SplitRows(rows, k, p);
    var window, older := rows[1..k], rows[k..];
    var mid := MirrorAll(s, window, style);
    MirrorAllRow(s, window, style, j);
    assert mid.history[j] == s.history[j];
    assert older[i - k] == rows[i];
    TrimAllRow(mid, older, j);
  }

  /** A row the call does not visit, seen through the whole call. */
  lemma TrailOtherRow(s: Sync, rows: seq<HistoryRow>, budget: int, style: Style, j: int)
    requires DistinctPoints(rows) && Mirrors(budget, |rows|) && 0 <= j < |s.history|
    requires NotIn(rows[1..], s.history[j].pointId)
    ensures ApplyTrail(s, rows, budget, style).0.history[j] == s.history[j]
  {
    var k := WindowEnd(budget, |rows|);
    var p := s.history[j].pointId;
    SplitRows(rows, k, p);
    var mid := MirrorAll(s, rows[1..k], style);
    MirrorAllRow(s, rows[1..k], style, j);
    assert mid.history[j] == s.history[j];
    TrimAllRow(mid, rows[k..], j);
  }

  /**
   * The effect of one call on each history row, for footprints `rows` with
   * distinct keys and a budget that lets the loop run: the newest footprint and
   * every row that is not among `rows` are untouched; positions 1 up to
   * min(budget, |rows| - 1) are mirrored (a row without a map object gets a fresh
   * id when the host accepts); every older position with a map object gets `moid` 0.
   */
  lemma TrailRow(s: Sync, rows: seq<HistoryRow>, budget: int, style: Style, j: int)
    requires DistinctPoints(rows)
    requires Mirrors(budget, |rows|)
    requires 0 <= j < |s.history|
    ensures var r := ApplyTrail(s, rows, budget, style).0;
            var k := WindowEnd(budget, |rows|);
            var p := s.history[j].pointId;
            && (NotIn(rows[1..], p) ==> r.history[j] == s.history[j])
            && (forall i :: 1 <= i < k && rows[i].pointId == p ==>
                  if rows[i].moid > 0 || !s.host.accepting then r.history[j] == s.history[j]
                  else r.history[j] == s.history[j].(moid := MirrorAll(s, rows[1..i + 1], style).host.lastId)
                       && r.history[j].moid > s.host.lastId)
            && (forall i :: k <= i < |rows| && rows[i].pointId == p ==>
                  r.history[j] == if rows[i].moid > 0 then s.history[j].(moid := 0) else s.history[j])
  {
    var k := WindowEnd(budget, |rows|);
    var p := s.history[j].pointId;
    if NotIn(rows[1..], p) {
      TrailOtherRow(s, rows, budget, style, j);
    }
    forall i | 1 <= i < k && rows[i].pointId == p
      ensures var r := ApplyTrail(s, rows, budget, style).0;
              if rows[i].moid > 0 || !s.host.accepting then r.history[j] == s.history[j]
              else r.history[j] == s.history[j].(moid := MirrorAll(s, rows[1..i + 1], style).host.lastId)
                   && r.history[j].moid > s.host.lastId
    {
      TrailWindowRow(s, rows, budget, style, j, i);
    }
    forall i | k <= i < |rows| && rows[i].pointId == p
      ensures var r := ApplyTrail(s, rows, budget, style).0;
              r.history[j] == if rows[i].moid > 0 then s.history[j].(moid := 0) else s.history[j]
    {
      TrailOlderRow(s, rows, budget, style, j, i);
    }
  }

  /** The map objects of footprints past the window are gone after the call. */
  lemma TrailRemovesOlderMarkers(s: Sync, rows: seq<HistoryRow>, budget: int, style: Style)
    requires Mirrors(budget, |rows|)
    ensures forall i :: WindowEnd(budget, |rows|) <= i < |rows| && rows[i].moid > 0 ==>
              rows[i].moid !in ApplyTrail(s, rows, budget, style).0.host.markers
  {
    var k := WindowEnd(budget, |rows|);
    TrimAllRemovesMarkers(MirrorAll(s, rows[1..k], style), rows[k..]);
    forall i | k <= i < |rows| && rows[i].moid > 0
      ensures rows[i].moid !in ApplyTrail(s, rows, budget, style).0.host.markers
    {
      assert rows[k..][i - k] == rows[i];
    }
  }

  /**
   * The budget is consumed: once a call had at least budget + 2 footprints, the
   * next call (for any tracker) mirrors and erases nothing and leaves the budget at 0.
   */
  lemma TrailBudgetConsumed(s: Sync, rows: seq<HistoryRow>, budget: int, style: Style,
                            rows': seq<HistoryRow>, style': Style)
    requires budget > 0 && |rows| >= budget + 2
    ensures var (s1, n1) := ApplyTrail(s, rows, budget, style);
            n1 == 0 && ApplyTrail(s1, rows', n1, style') == (s1, 0)
  {
  }
}
