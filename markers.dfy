/**
 * The host application's map-object store, reached through a content provider.
 * It is outside the plugin; the model keeps its observable state (the markers by
 * id) and the effect of the three calls the helper makes: insert, update, delete.
 */
module Markers {
  import opened Wrappers
  import opened Tables

  /** One map object: position, name, image and background colour. */
  datatype Marker = Marker(lat: Double, lon: Double, name: string, image: string, color: int)

  /**
   * The store: its markers, the last id it handed out, and whether it accepts an
   * insert (`insert` returning a null Uri is the refusal).
   */
  datatype Host = Host(markers: map<int, Marker>, lastId: int, accepting: bool) {

    /** Every id in use is positive and was handed out. */
    predicate Valid() {
      lastId >= 0 && forall id :: id in markers ==> 1 <= id <= lastId
    }

    /** `insert`: a fresh id bound to `m`, or nothing when the store refuses. */
    function Create(m: Marker): (r: (Host, Option<int>))
      ensures r.1.Some? <==> accepting
      ensures r.1.None? ==> r.0 == this
      ensures r.1.Some? ==> r.1.value > lastId && r.0.markers == markers[r.1.value := m] && r.0.lastId == r.1.value
      ensures r.1.Some? && Valid() ==> r.1.value !in markers
      ensures r.0.accepting == accepting && r.0.lastId >= lastId
      ensures Valid() ==> r.0.Valid()
    {
      if accepting then
        var id := if lastId >= 0 then lastId + 1 else 1;
        (this.(markers := markers[id := m], lastId := id), Some(id))
      else (this, None)
    }

    /** `update` of the map object `id`; an id the store does not hold matches no row. */
    function Update(id: int, m: Marker): (r: Host)
      ensures id in markers ==> r.markers == markers[id := m]
      ensures id !in markers ==> r == this
      ensures r.lastId == lastId && r.accepting == accepting
      ensures Valid() ==> r.Valid()
    {
      if id in markers then this.(markers := markers[id := m]) else this
    }

    /** `delete` of the map object `id`. */
    function Delete(id: int): (r: Host)
      ensures id !in r.markers
      ensures forall k :: k in r.markers <==> k in markers && k != id
      ensures forall k :: k in r.markers ==> r.markers[k] == markers[k]
      ensures r.lastId == lastId && r.accepting == accepting
      ensures Valid() ==> r.Valid()
    {
      this.(markers := map k | k in markers && k != id :: markers[k])
    }
  }
}
