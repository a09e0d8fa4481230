/**
  The judgement engine as the source runs it: a `Game` owns one `LaneState`
  per lane, and `Update`, `KeyPress` and `KeyRelease` move that lane's cursor
  and overwrite its verdict states in place. Each method is proved to leave
  the lane exactly as the corresponding function of `Judgement` says, and to
  touch no other lane.
 */
module Engine {
  import opened Primitives
  import opened Timing
  import Chart
  import opened Judgement

  /** The verdict states of one lane and its cursor `first_object`. */
  class LaneState {
    const objectStates: array<ObjectState>
    var firstObject: nat

    ghost function Progress(): LaneProgress
      reads this, objectStates
    {
      LaneProgress(objectStates[..], firstObject)
    }

    /** One untouched state of the matching kind per object, pushed in order. */
    constructor (objects: seq<Chart.Object>)
      ensures fresh(objectStates)
      ensures Progress() == InitialProgress(objects)
    {
      var states := new ObjectState[|objects|];
      var i := 0;
      while i < |objects|
        invariant 0 <= i <= |objects|
        invariant forall k :: 0 <= k < i ==> states[k] == InitialState(objects[k])
      {
        states[i] := InitialState(objects[i]);
        i := i + 1;
      }
      objectStates := states;
      firstObject := 0;
    }

    /** The scan loop of `update` at map time `mapTimestamp`, in place: move
        the cursor past every object that can no longer be hit, resolving it
        as it goes, and stop at the first one that still can. */
    method Advance(objects: seq<Chart.Object>, mapTimestamp: MapTimestamp, conv: TimestampConverter)
      requires LaneInvariant(objects, Progress()) && LaneFits(objects)
      modifies this, objectStates
      ensures Progress() == UpdateAt(objects, old(Progress()), mapTimestamp, conv)
    {
      var hitWindow := HitWindow();
      var mapHitWindow := conv.GameToMapDifference(hitWindow);
      ghost var before := Progress();

      var i := firstObject;
      while i < objectStates.Length
        invariant firstObject == i
        invariant before.firstObject <= i <= |objects| == objectStates.Length
        invariant forall k :: i <= k < |objects| ==> objectStates[k] == before.states[k]
        invariant Scan(objects, before.states, before.firstObject, mapTimestamp, conv)
               == Scan(objects, objectStates[..], i, mapTimestamp, conv)
        decreases |objects| - i
      {
        ghost var current := objectStates[..];
        firstObject := firstObject + 1;
        var resolved := ResolveObject(objects[i], i, mapTimestamp, hitWindow, mapHitWindow, conv);
        if resolved {
          ScanResolves(objects, current, i, mapTimestamp, conv, objectStates[i]);
          i := i + 1;
          continue;
        }
        ScanStops(objects, current, i, mapTimestamp, conv);
        firstObject := firstObject - 1;
        break;
      }
      if i == objectStates.Length {
        ScanStops(objects, objectStates[..], i, mapTimestamp, conv);
      }
    }

    /** One iteration of the scan loop on the object `obj` at index `i`:
        resolve it, reporting `true`, when it can no longer be hit, or report
        `false` and leave it when it still can. */
    method ResolveObject(obj: Chart.Object, i: nat, mapTimestamp: MapTimestamp,
                         hitWindow: GameTimestampDifference, mapHitWindow: MapTimestampDifference,
                         conv: TimestampConverter)
      returns (resolved: bool)
      requires i < objectStates.Length && WindowFits(obj)
      requires Matches(obj, objectStates[i]) && Pending(objectStates[i])
      requires hitWindow == HitWindow() && mapHitWindow == conv.GameToMapDifference(hitWindow)
      modifies objectStates
      ensures var step := ScanStep(obj, old(objectStates[i]), mapTimestamp, conv);
              (resolved <==> step.Resolve?) &&
              objectStates[..] == if resolved then old(objectStates[..])[i := step.state] else old(objectStates[..])
    {
      var state := objectStates[i];

      if obj.EndTimestamp().Add(mapHitWindow).Lt(mapTimestamp) {
        // can't be hit
        if state.LongNote? {
          if state.longNote.Held? {
            objectStates[i] := LongNote(LongNoteState.Hit(state.longNote.diff, hitWindow));
          } else if state.longNote == LongNoteState.NotHit {
            objectStates[i] := LongNote(Missed(None, None));
          } else {
            assert false;
          }
        }
        return true;
      }

      if obj.StartTimestamp().Add(mapHitWindow).Lt(mapTimestamp) {
        if state.LongNote? {
          if state.longNote == LongNoteState.NotHit {
            objectStates[i] := LongNote(Missed(None, None));
            return true;
          }
          if !state.longNote.Held? {
            assert false;
          }
        } else {
          assert false;
        }
      }

      return false;
    }

    /** The body of `key_press` after its `update`, for a lane with an
        active object: a press not too early hits the tap at the cursor, or
        starts holding the hold there. */
    method ApplyPress(objects: seq<Chart.Object>, mapTimestamp: MapTimestamp, conv: TimestampConverter)
      requires LaneInvariant(objects, Progress()) && LaneFits(objects) && Reachable(objects, Progress(), mapTimestamp)
      requires firstObject < objectStates.Length
      modifies this, objectStates
      ensures Progress() == Press(objects, old(Progress()), mapTimestamp, conv)
    {
      var hitWindow := HitWindow();
      var mapHitWindow := conv.GameToMapDifference(hitWindow);

      var obj := objects[firstObject];
      var state := objectStates[firstObject];

      if mapTimestamp.raw >= obj.StartTimestamp().SubDiff(mapHitWindow).raw {
        var diff := conv.MapToGameDifference(mapTimestamp.Sub(obj.StartTimestamp()));

        match state
        case HitObject(_) =>
          objectStates[firstObject] := HitObject(HitObjectState.Hit(diff));
          firstObject := firstObject + 1;
        case LongNote(_) =>
          objectStates[firstObject] := LongNote(Held(diff));
      }
    }

    /** The body of `key_release` after its `update`, for a lane with an
        active object: a held hold at the cursor is hit, or missed when the
        release is too early, and the cursor moves past it. */
    method ApplyRelease(objects: seq<Chart.Object>, mapTimestamp: MapTimestamp, conv: TimestampConverter)
      requires LaneInvariant(objects, Progress()) && LaneFits(objects) && Reachable(objects, Progress(), mapTimestamp)
      requires firstObject < objectStates.Length
      modifies this, objectStates
      ensures Progress() == Release(objects, old(Progress()), mapTimestamp, conv)
    {
      var hitWindow := HitWindow();
      var mapHitWindow := conv.GameToMapDifference(hitWindow);

      var obj := objects[firstObject];
      var state := objectStates[firstObject];

      if state.LongNote? && state.longNote.Held? {
        var diff := state.longNote.diff;
        if mapTimestamp.raw >= obj.StartTimestamp().SubDiff(mapHitWindow).raw {
          var relDiff := conv.MapToGameDifference(mapTimestamp.Sub(obj.StartTimestamp()));
          objectStates[firstObject] := LongNote(LongNoteState.Hit(diff, relDiff));
        } else {
          objectStates[firstObject] := LongNote(Missed(Some(mapTimestamp), Some(diff)));
        }
        firstObject := firstObject + 1;
      }
    }
  }

  class Game {
    /** The chart, read-only after construction. */
    const chart: Chart.Map
    var timestampConverter: TimestampConverter
    const laneStates: seq<LaneState>
    ghost const Repr: set<object>

    ghost predicate Valid()
      reads this, Repr
    {
      && |laneStates| == |chart.lanes|
      && (forall i :: 0 <= i < |laneStates| ==> laneStates[i] in Repr && laneStates[i].objectStates in Repr)
      && (forall i, j :: 0 <= i < |laneStates| && 0 <= j < |laneStates| && i != j ==>
            laneStates[i] != laneStates[j] && laneStates[i].objectStates != laneStates[j].objectStates)
      && (forall i :: 0 <= i < |laneStates| ==>
            LaneFits(chart.lanes[i].objects) && LaneInvariant(chart.lanes[i].objects, laneStates[i].Progress()))
    }

    /** `Game::new`. Each lane is taken in the order the sort by start leaves
        it; the neighbour check must pass (the source asserts it). */
    constructor (chart: Chart.Map)
      requires forall i :: 0 <= i < |chart.lanes| ==>
        Chart.SortedByStart(chart.lanes[i].objects) && Chart.NonOverlapping(chart.lanes[i].objects)
      requires forall i :: 0 <= i < |chart.lanes| ==> LaneFits(chart.lanes[i].objects)
      ensures Valid() && fresh(Repr)
      ensures this.chart == chart
      ensures timestampConverter.globalOffset.raw == 0
      ensures forall i :: 0 <= i < |laneStates| ==> laneStates[i].Progress() == InitialProgress(chart.lanes[i].objects)
    {
      var states: seq<LaneState> := [];
      ghost var repr: set<object> := {};
      var i := 0;
      while i < |chart.lanes|
        invariant 0 <= i <= |chart.lanes| && |states| == i
        invariant forall k :: 0 <= k < i ==> states[k] in repr && states[k].objectStates in repr
        invariant forall k :: 0 <= k < i ==> fresh(states[k]) && fresh(states[k].objectStates)
        invariant forall k, l :: 0 <= k < i && 0 <= l < i && k != l ==>
          states[k] != states[l] && states[k].objectStates != states[l].objectStates
        invariant forall k :: 0 <= k < i ==> states[k].Progress() == InitialProgress(chart.lanes[k].objects)
        invariant forall o :: o in repr ==> fresh(o)
      {
        var objects := chart.lanes[i].objects;
        var ok := Chart.CheckNeighbours(objects);
        assert ok;
        var laneState := new LaneState(objects);
        states := states + [laneState];
        repr := repr + {laneState, laneState.objectStates};
        i := i + 1;
      }
      this.chart := chart;
      laneStates := states;
      Repr := repr;
      var offset := TimestampDifference<GameDomain>.FromMillis(0);
      timestampConverter := TimestampConverter(offset.value);
    }

    /** `has_active_objects`: exactly when the lane's cursor has not passed
        its last object; when it has, every verdict of the lane is settled,
        and when it has not, the object at the cursor is still pending. */
    function HasActiveObjects(lane: nat): (r: bool)
      requires Valid() && lane < |laneStates|
      reads this, Repr
      ensures r <==> laneStates[lane].firstObject < laneStates[lane].objectStates.Length
      ensures r ==> laneStates[lane].firstObject < laneStates[lane].objectStates.Length &&
                    Pending(laneStates[lane].objectStates[laneStates[lane].firstObject])
      ensures !r ==> forall k :: 0 <= k < laneStates[lane].objectStates.Length ==> Settled(laneStates[lane].objectStates[k])
    {
      var laneState := laneStates[lane];
      laneState.firstObject < laneState.objectStates.Length
    }

    /** `update`: resolve the objects of `lane` that can no longer be hit at
        `timestamp`, and leave every other lane alone. */
    method Update(lane: nat, timestamp: GameTimestamp)
      requires Valid() && lane < |laneStates| && timestampConverter.CanGameToMap(timestamp)
      modifies laneStates[lane], laneStates[lane].objectStates
      ensures Valid()
      ensures laneStates[lane].Progress() ==
        UpdateLane(chart.lanes[lane].objects, old(laneStates[lane].Progress()), timestamp, timestampConverter)
      ensures forall i :: 0 <= i < |laneStates| && i != lane ==> laneStates[i].Progress() == old(laneStates[i].Progress())
    {
      if !HasActiveObjects(lane) {
        return;
      }
      var mapTimestamp := timestampConverter.GameToMap(timestamp);
      laneStates[lane].Advance(chart.lanes[lane].objects, mapTimestamp, timestampConverter);
    }

    /** `key_press`: `update`, then judge the press against the object at
        the cursor. */
    method KeyPress(lane: nat, timestamp: GameTimestamp)
      requires Valid() && lane < |laneStates| && timestampConverter.CanGameToMap(timestamp)
      modifies laneStates[lane], laneStates[lane].objectStates
      ensures Valid()
      ensures laneStates[lane].Progress() ==
        KeyPressLane(chart.lanes[lane].objects, old(laneStates[lane].Progress()), timestamp, timestampConverter)
      ensures forall i :: 0 <= i < |laneStates| && i != lane ==> laneStates[i].Progress() == old(laneStates[i].Progress())
    {
      Update(lane, timestamp);
      if !HasActiveObjects(lane) {
        return;
      }
      var mapTimestamp := timestampConverter.GameToMap(timestamp);
      laneStates[lane].ApplyPress(chart.lanes[lane].objects, mapTimestamp, timestampConverter);
    }

    /** `key_release`: `update`, then judge the release against the hold at
        the cursor, if it is held. */
    method KeyRelease(lane: nat, timestamp: GameTimestamp)
      requires Valid() && lane < |laneStates| && timestampConverter.CanGameToMap(timestamp)
      modifies laneStates[lane], laneStates[lane].objectStates
      ensures Valid()
      ensures laneStates[lane].Progress() ==
        KeyReleaseLane(chart.lanes[lane].objects, old(laneStates[lane].Progress()), timestamp, timestampConverter)
      ensures forall i :: 0 <= i < |laneStates| && i != lane ==> laneStates[i].Progress() == old(laneStates[i].Progress())
    {
      Update(lane, timestamp);
      if !HasActiveObjects(lane) {
        return;
      }
      var mapTimestamp := timestampConverter.GameToMap(timestamp);
      laneStates[lane].ApplyRelease(chart.lanes[lane].objects, mapTimestamp, timestampConverter);
    }
  }

  /** One resolving step of the scan, unfolded. */
  lemma ScanResolves(objects: seq<Chart.Object>, states: seq<ObjectState>, i: nat,
                     tMap: MapTimestamp, conv: TimestampConverter, s: ObjectState)
    requires |states| == |objects| && i < |objects| && LaneFits(objects)
    requires forall k :: i <= k < |objects| ==> Matches(objects[k], states[k]) && Pending(states[k])
    requires ScanStep(objects[i], states[i], tMap, conv) == Resolve(s)
    ensures Scan(objects, states, i, tMap, conv) == Scan(objects, states[i := s], i + 1, tMap, conv)
  {
  }

  /** The regular-hit scenario of the source's own test: two taps at 0 ms and
      10 s, pressed at 10 s. The first can no longer be hit and is passed
      over as `NotHit`; the second is hit dead on. */
  method GameStateRegularHit() returns (states: seq<ObjectState>)
    ensures states == [HitObject(HitObjectState.NotHit), HitObject(HitObjectState.Hit(TimestampDifference(0)))]
  {
    RegularHitTimestamps();
    var first := Timestamp<MapDomain>.FromMillis(0).value;
    var second := Timestamp<MapDomain>.FromMillis(10_000).value;
    var objects := [Chart.HitObject(first), Chart.HitObject(second)];
    TwoTapsAccepted();
    var game := new Game(Chart.Map([Chart.Lane(objects)]));
    var pressedAt := Timestamp<GameDomain>.FromMillis(10_000).value;
    assert game.timestampConverter == NoOffset();
    TwoTapsPressedAtSecond();
    game.KeyPress(0, pressedAt);
    states := game.laneStates[0].objectStates[..];
  }

  /** The times of the regular-hit scenario, in raw units. */
  lemma RegularHitTimestamps()
    ensures Timestamp<MapDomain>.FromMillis(0) == Some(Timestamp(0))
    ensures Timestamp<MapDomain>.FromMillis(10_000) == Some(Timestamp(1_000_000))
    ensures Timestamp<GameDomain>.FromMillis(10_000) == Some(Timestamp(1_000_000))
  {
  }

  /** The two-tap lane is one `Game::new` accepts. */
  lemma TwoTapsAccepted()
    ensures Chart.SortedByStart(TwoTaps()) && Chart.NonOverlapping(TwoTaps()) && LaneFits(TwoTaps())
  {
  }

  /** The scan stops at the end of the lane, or at an object that can still
      be hit. */
  lemma ScanStops(objects: seq<Chart.Object>, states: seq<ObjectState>, i: nat,
                  tMap: MapTimestamp, conv: TimestampConverter)
    requires |states| == |objects| && i <= |objects| && LaneFits(objects)
    requires forall k :: i <= k < |objects| ==> Matches(objects[k], states[k]) && Pending(states[k])
    requires i < |objects| ==> ScanStep(objects[i], states[i], tMap, conv).Stop?
    ensures Scan(objects, states, i, tMap, conv) == LaneProgress(states, i)
  {
  }
}
