/**
  The chart the judgement engine reads: lanes of objects, each a tap
  (`HitObject`, one timestamp) or a hold (`LongNote`, a start and an end),
  with map-domain timestamps.
 */
module Chart {
  import opened Primitives
  import opened Timing

  datatype Object =
    | HitObject(timestamp: MapTimestamp)
    | LongNote(startTimestamp: MapTimestamp, endTimestamp: MapTimestamp)
  {
    function StartTimestamp(): MapTimestamp {
      match this
      case HitObject(t) => t
      case LongNote(s, _) => s
    }

    /** A tap ends where it starts. */
    function EndTimestamp(): (e: MapTimestamp)
      ensures HitObject? ==> e == StartTimestamp()
    {
      match this
      case HitObject(t) => t
      case LongNote(_, e) => e
    }
  }

  /** A single column of the chart. */
  datatype Lane = Lane(objects: seq<Object>)

  /** The chart; its metadata strings are not part of this model. */
  datatype Map = Map(lanes: seq<Lane>)

  /** The order `sort_unstable_by_key(Object::start_timestamp)` leaves a lane in. */
  predicate SortedByStart(objects: seq<Object>) {
    forall i, j :: 0 <= i < j < |objects| ==> objects[i].StartTimestamp().Le(objects[j].StartTimestamp())
  }

  /** Every object ends strictly before its successor starts. */
  predicate NonOverlapping(objects: seq<Object>) {
    forall i :: 0 <= i < |objects| - 1 ==> objects[i].EndTimestamp().Lt(objects[i + 1].StartTimestamp())
  }

  /** Every hold starts no later than it ends. */
  predicate HoldsForward(objects: seq<Object>) {
    forall i :: 0 <= i < |objects| ==> objects[i].StartTimestamp().Le(objects[i].EndTimestamp())
  }

  /** The neighbour check `Game::new` runs over `windows(2)` of each sorted
      lane; the source asserts that it passes. */
  method CheckNeighbours(objects: seq<Object>) returns (ok: bool)
    ensures ok <==> NonOverlapping(objects)
  {
    ok := true;
    var i := 0;
    while i + 1 < |objects|
      invariant 0 <= i <= |objects|
      invariant ok <==> forall k :: 0 <= k < i && k < |objects| - 1 ==> objects[k].EndTimestamp().Lt(objects[k + 1].StartTimestamp())
    {
      var a, b := objects[i], objects[i + 1];
      if !a.EndTimestamp().Lt(b.StartTimestamp()) {
        ok := false;
      }
      i := i + 1;
    }
  }

  /** A lane that passes the check, and whose holds run forward, has strictly
      increasing start times: sorting it by start could not reorder it. */
  lemma {:induction false} NonOverlappingIsStrictlyOrdered(objects: seq<Object>, i: int, j: int)
    requires NonOverlapping(objects) && HoldsForward(objects)
    requires 0 <= i < j < |objects|
    ensures objects[i].StartTimestamp().Lt(objects[j].StartTimestamp())
    decreases j - i
  {
    if i + 1 < j {
      NonOverlappingIsStrictlyOrdered(objects, i + 1, j);
    }
    assert objects[i].EndTimestamp().Lt(objects[i + 1].StartTimestamp());
    assert objects[i].StartTimestamp().Le(objects[i].EndTimestamp());
  }
}
