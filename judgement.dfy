/**
  The judgement rules of the game engine, as values: the verdict states of
  taps and holds, what one step of the `update` scan does to the object at the
  cursor, and what `update`, `key_press` and `key_release` do to one lane's
  verdict states and cursor. The class `Engine.Game` runs the same rules in
  place and is proved to agree with these functions.

  The lane invariant `LaneInvariant` is what keeps the source's three
  `unreachable!()` branches unreachable: every state at or after the cursor is
  `NotHit` or `Held`, only the object at the cursor may be `Held`, and every
  state has the kind of its object.
 */
module Judgement {
  import opened Primitives
  import opened Timing
  import Chart

  datatype HitObjectState = NotHit | Hit(diff: GameTimestampDifference)

  /** `Missed.pressed` is the source's `press_diff` of a missed hold. */
  datatype LongNoteState =
    | NotHit
    | Held(diff: GameTimestampDifference)
    | Hit(pressDiff: GameTimestampDifference, relDiff: GameTimestampDifference)
    | Missed(held: Option<MapTimestamp>, pressed: Option<GameTimestampDifference>)

  datatype ObjectState = HitObject(hitObject: HitObjectState) | LongNote(longNote: LongNoteState) {
    /** `ObjectState::is_hit` */
    predicate IsHit() {
      match this
      case HitObject(Hit(_)) => true
      case LongNote(Hit(_, _)) => true
      case _ => false
    }
  }

  /** The hit window in raw units: 76 ms. */
  const WINDOW: int := 7600

  /** `GameTimestampDifference::from_millis(76)`, the fixed hit window. */
  function HitWindow(): (w: GameTimestampDifference)
    ensures TimestampDifference<GameDomain>.FromMillis(76) == Some(w)
    ensures w.raw as int == WINDOW
  {
    TimestampDifference(7600)
  }

  // ---------------------------------------------------------------------
  // Classification of states
  // ---------------------------------------------------------------------

  /** A state has the kind of its object. */
  predicate Matches(o: Chart.Object, s: ObjectState) {
    o.HitObject? <==> s.HitObject?
  }

  /** What a state at or after the cursor may be. */
  predicate Pending(s: ObjectState) {
    s == HitObject(HitObjectState.NotHit) || s == LongNote(LongNoteState.NotHit) || (s.LongNote? && s.longNote.Held?)
  }

  /** What a state behind the cursor may be: any tap state (a skipped tap
      stays `NotHit`), or a hold that was hit or missed. */
  predicate Settled(s: ObjectState) {
    s.HitObject? || s.longNote.Hit? || s.longNote.Missed?
  }

  predicate Untouched(s: ObjectState) {
    s == HitObject(HitObjectState.NotHit) || s == LongNote(LongNoteState.NotHit)
  }

  /** The i32 arithmetic the engine does on this object cannot overflow. */
  predicate WindowFits(o: Chart.Object) {
    var s, e := o.StartTimestamp().raw as int, o.EndTimestamp().raw as int;
    FitsI32(s - WINDOW) && FitsI32(s + WINDOW) && FitsI32(e + WINDOW) && FitsI32(e + WINDOW - s)
  }

  predicate LaneFits(objects: seq<Chart.Object>) {
    forall k :: 0 <= k < |objects| ==> WindowFits(objects[k])
  }

  // ---------------------------------------------------------------------
  // One lane: verdict states and cursor
  // ---------------------------------------------------------------------

  /** The contents of one `LaneState`: a verdict per object and the cursor
      `first_object`. */
  datatype LaneProgress = LaneProgress(states: seq<ObjectState>, firstObject: nat)

  ghost predicate LaneInvariant(objects: seq<Chart.Object>, p: LaneProgress) {
    && |p.states| == |objects|
    && p.firstObject <= |objects|
    && (forall k :: 0 <= k < |objects| ==> Matches(objects[k], p.states[k]))
    && (forall k :: 0 <= k < p.firstObject ==> Settled(p.states[k]))
    && (forall k :: p.firstObject <= k < |objects| ==> Pending(p.states[k]))
    && (forall k :: p.firstObject < k < |objects| ==> Untouched(p.states[k]))
  }

  /** The state `Game::new` gives an object. */
  function InitialState(o: Chart.Object): (s: ObjectState)
    ensures Matches(o, s) && Untouched(s)
  {
    match o
    case HitObject(_) => HitObject(HitObjectState.NotHit)
    case LongNote(_, _) => LongNote(LongNoteState.NotHit)
  }

  /** A new lane: cursor 0, one untouched state of the matching kind per object. */
  function InitialProgress(objects: seq<Chart.Object>): (p: LaneProgress)
    ensures LaneInvariant(objects, p)
    ensures p.firstObject == 0
    ensures forall k :: 0 <= k < |objects| ==> p.states[k] == InitialState(objects[k])
  {
    LaneProgress(seq(|objects|, k requires 0 <= k < |objects| => InitialState(objects[k])), 0)
  }

  // ---------------------------------------------------------------------
  // update
  // ---------------------------------------------------------------------

  datatype Step = Resolve(state: ObjectState) | Stop

  /** One iteration of the scan in `update`, for the object at the cursor at
      map time `tMap`: resolve it and move on, or stop there. */
  function ScanStep(o: Chart.Object, s: ObjectState, tMap: MapTimestamp, conv: TimestampConverter): (r: Step)
    requires WindowFits(o) && Matches(o, s) && Pending(s)
    ensures r.Stop? <==>
      tMap.raw as int <= o.EndTimestamp().raw as int + WINDOW &&
      (tMap.raw as int <= o.StartTimestamp().raw as int + WINDOW || (s.LongNote? && s.longNote.Held?))
    ensures r.Resolve? ==> Matches(o, r.state) && Settled(r.state)
    ensures r.Resolve? && s.HitObject? ==> r.state == s
    ensures r.Resolve? && s.LongNote? && s.longNote.Held? ==>
      r.state == LongNote(LongNoteState.Hit(s.longNote.diff, HitWindow()))
    ensures r.Resolve? && s == LongNote(LongNoteState.NotHit) ==>
      r.state == LongNote(Missed(None, None))
  {
    var window := conv.GameToMapDifference(HitWindow());
    if o.EndTimestamp().Add(window).Lt(tMap) then
      match s
      case HitObject(_) => Resolve(s)
      case LongNote(Held(diff)) => Resolve(LongNote(LongNoteState.Hit(diff, HitWindow())))
      case LongNote(_) => Resolve(LongNote(Missed(None, None)))
    else if o.StartTimestamp().Add(window).Lt(tMap) && s == LongNote(LongNoteState.NotHit) then
      Resolve(LongNote(Missed(None, None)))
    else
      Stop
  }

  /** The scan loop of `update` from index `cursor` on. */
  function Scan(objects: seq<Chart.Object>, states: seq<ObjectState>, cursor: nat,
                tMap: MapTimestamp, conv: TimestampConverter): LaneProgress
    requires |states| == |objects| && cursor <= |objects| && LaneFits(objects)
    requires forall k :: cursor <= k < |objects| ==> Matches(objects[k], states[k]) && Pending(states[k])
    decreases |objects| - cursor
  {
    if cursor == |objects| then
      LaneProgress(states, cursor)
    else
      match ScanStep(objects[cursor], states[cursor], tMap, conv)
      case Stop => LaneProgress(states, cursor)
      case Resolve(s) => Scan(objects, states[cursor := s], cursor + 1, tMap, conv)
  }

  /** The scan resolves objects from the cursor on, each as `ScanStep`
      says, until one stops it (or the lane ends), and touches nothing else. */
  lemma {:induction false} ScanResolvesUntilStop(objects: seq<Chart.Object>, states: seq<ObjectState>, cursor: nat,
                                                 tMap: MapTimestamp, conv: TimestampConverter)
    requires |states| == |objects| && cursor <= |objects| && LaneFits(objects)
    requires forall k :: cursor <= k < |objects| ==> Matches(objects[k], states[k]) && Pending(states[k])
    ensures var r := Scan(objects, states, cursor, tMap, conv);
      && |r.states| == |objects| && cursor <= r.firstObject <= |objects|
      && (forall k :: 0 <= k < cursor ==> r.states[k] == states[k])
      && (forall k :: r.firstObject <= k < |objects| ==> r.states[k] == states[k])
      && (forall k :: cursor <= k < r.firstObject ==>
            ScanStep(objects[k], states[k], tMap, conv) == Resolve(r.states[k]))
      && (r.firstObject < |objects| ==> ScanStep(objects[r.firstObject], states[r.firstObject], tMap, conv).Stop?)
    decreases |objects| - cursor
  {
    if cursor < |objects| {
      match ScanStep(objects[cursor], states[cursor], tMap, conv)
      case Stop =>
      case Resolve(s) => ScanResolvesUntilStop(objects, states[cursor := s], cursor + 1, tMap, conv);
    }
  }

  /** The object at the cursor, if any, can still be reached at `tMap`. */
  predicate Reachable(objects: seq<Chart.Object>, p: LaneProgress, tMap: MapTimestamp) {
    p.firstObject < |objects| ==> tMap.raw as int <= objects[p.firstObject].EndTimestamp().raw as int + WINDOW
  }

  /** `update` at map time `tMap`. */
  function UpdateAt(objects: seq<Chart.Object>, p: LaneProgress, tMap: MapTimestamp, conv: TimestampConverter): (r: LaneProgress)
    requires LaneInvariant(objects, p) && LaneFits(objects)
    ensures LaneInvariant(objects, r)
    ensures p.firstObject <= r.firstObject
    ensures forall k :: 0 <= k < p.firstObject ==> r.states[k] == p.states[k]
    ensures Reachable(objects, r, tMap)
    ensures forall k :: p.firstObject <= k < r.firstObject ==>
      ScanStep(objects[k], p.states[k], tMap, conv) == Resolve(r.states[k])
    ensures forall k :: r.firstObject <= k < |objects| ==> r.states[k] == p.states[k]
    ensures r.firstObject < |objects| ==> ScanStep(objects[r.firstObject], p.states[r.firstObject], tMap, conv).Stop?
  {
    if p.firstObject < |p.states| then
      var r := Scan(objects, p.states, p.firstObject, tMap, conv);
      ScanResolvesUntilStop(objects, p.states, p.firstObject, tMap, conv);
      ScanKeepsInvariant(objects, p, tMap, conv);
      r
    else
      p
  }

  lemma ScanKeepsInvariant(objects: seq<Chart.Object>, p: LaneProgress, tMap: MapTimestamp, conv: TimestampConverter)
    requires LaneInvariant(objects, p) && LaneFits(objects)
    ensures LaneInvariant(objects, Scan(objects, p.states, p.firstObject, tMap, conv))
  {
    var r := Scan(objects, p.states, p.firstObject, tMap, conv);
    ScanResolvesUntilStop(objects, p.states, p.firstObject, tMap, conv);
    forall k | 0 <= k < |objects|
      ensures Matches(objects[k], r.states[k])
      ensures k < r.firstObject ==> Settled(r.states[k])
    {
      if p.firstObject <= k < r.firstObject {
        assert ScanStep(objects[k], p.states[k], tMap, conv) == Resolve(r.states[k]);
      }
    }
  }

  // ---------------------------------------------------------------------
  // key_press and key_release, after their update
  // ---------------------------------------------------------------------

  /** `(map_timestamp - object.start_timestamp()).to_game(..)`: the signed
      offset of `tMap` from the object's start, in the game domain. */
  function Offset(o: Chart.Object, tMap: MapTimestamp, conv: TimestampConverter): (d: GameTimestampDifference)
    requires FitsI32(tMap.raw as int - o.StartTimestamp().raw as int)
    ensures d.raw as int == tMap.raw as int - o.StartTimestamp().raw as int
  {
    conv.MapToGameDifference(tMap.Sub(o.StartTimestamp()))
  }

  /** The press is not too early for the object at the cursor. */
  predicate InPressWindow(o: Chart.Object, tMap: MapTimestamp) {
    o.StartTimestamp().raw as int - WINDOW <= tMap.raw as int
  }

  /** What `key_press` does once its `update` has run. */
  function Press(objects: seq<Chart.Object>, p: LaneProgress, tMap: MapTimestamp, conv: TimestampConverter): (r: LaneProgress)
    requires LaneInvariant(objects, p) && LaneFits(objects) && Reachable(objects, p, tMap)
    ensures LaneInvariant(objects, r)
    ensures forall k :: 0 <= k < |objects| && k != p.firstObject ==> r.states[k] == p.states[k]
    ensures !(p.firstObject < |objects| && InPressWindow(objects[p.firstObject], tMap)) ==> r == p
    ensures p.firstObject < |objects| && InPressWindow(objects[p.firstObject], tMap) ==>
      var o := objects[p.firstObject];
      FitsI32(tMap.raw as int - o.StartTimestamp().raw as int) &&
      r.states[p.firstObject] ==
        (if o.HitObject? then HitObject(HitObjectState.Hit(Offset(o, tMap, conv)))
         else LongNote(Held(Offset(o, tMap, conv))))
    ensures r.firstObject == p.firstObject + 1 <==>
      p.firstObject < |objects| && objects[p.firstObject].HitObject? && InPressWindow(objects[p.firstObject], tMap)
    ensures r.firstObject == p.firstObject || r.firstObject == p.firstObject + 1
    ensures r.firstObject == p.firstObject + 1 ==> -WINDOW <= r.states[p.firstObject].hitObject.diff.raw as int <= WINDOW
  {
    if p.firstObject == |objects| then
      p
    else
      var c := p.firstObject;
      var o := objects[c];
      var window := conv.GameToMapDifference(HitWindow());
      if tMap.raw as int >= o.StartTimestamp().SubDiff(window).raw as int then
        var diff := Offset(o, tMap, conv);
        match p.states[c]
        case HitObject(_) => LaneProgress(p.states[c := HitObject(HitObjectState.Hit(diff))], c + 1)
        case LongNote(_) => LaneProgress(p.states[c := LongNote(Held(diff))], c)
      else
        p
  }

  /** What `key_release` does once its `update` has run. */
  function Release(objects: seq<Chart.Object>, p: LaneProgress, tMap: MapTimestamp, conv: TimestampConverter): (r: LaneProgress)
    requires LaneInvariant(objects, p) && LaneFits(objects) && Reachable(objects, p, tMap)
    ensures LaneInvariant(objects, r)
    ensures forall k :: 0 <= k < |objects| && k != p.firstObject ==> r.states[k] == p.states[k]
    ensures r != p <==> p.firstObject < |objects| && p.states[p.firstObject].LongNote? && p.states[p.firstObject].longNote.Held?
    ensures r != p ==> r.firstObject == p.firstObject + 1
    ensures r != p ==>
      var o, d := objects[p.firstObject], p.states[p.firstObject].longNote.diff;
      if InPressWindow(o, tMap) then
        FitsI32(tMap.raw as int - o.StartTimestamp().raw as int) &&
        r.states[p.firstObject] == LongNote(LongNoteState.Hit(d, Offset(o, tMap, conv)))
      else
        r.states[p.firstObject] == LongNote(Missed(Some(tMap), Some(d)))
  {
    if p.firstObject == |objects| then
      p
    else
      var c := p.firstObject;
      match p.states[c]
      case LongNote(Held(diff)) =>
        var o := objects[c];
        var window := conv.GameToMapDifference(HitWindow());
        var s :=
          if tMap.raw as int >= o.StartTimestamp().SubDiff(window).raw as int then
            LongNote(LongNoteState.Hit(diff, Offset(o, tMap, conv)))
          else
            LongNote(Missed(Some(tMap), Some(diff)));
        LaneProgress(p.states[c := s], c + 1)
      case _ => p
  }

  // ---------------------------------------------------------------------
  // The three entry points, on one lane
  // ---------------------------------------------------------------------

  function UpdateLane(objects: seq<Chart.Object>, p: LaneProgress, t: GameTimestamp, conv: TimestampConverter): LaneProgress
    requires LaneInvariant(objects, p) && LaneFits(objects) && conv.CanGameToMap(t)
  {
    UpdateAt(objects, p, conv.GameToMap(t), conv)
  }

  function KeyPressLane(objects: seq<Chart.Object>, p: LaneProgress, t: GameTimestamp, conv: TimestampConverter): LaneProgress
    requires LaneInvariant(objects, p) && LaneFits(objects) && conv.CanGameToMap(t)
  {
    var tMap := conv.GameToMap(t);
    Press(objects, UpdateAt(objects, p, tMap, conv), tMap, conv)
  }

  function KeyReleaseLane(objects: seq<Chart.Object>, p: LaneProgress, t: GameTimestamp, conv: TimestampConverter): LaneProgress
    requires LaneInvariant(objects, p) && LaneFits(objects) && conv.CanGameToMap(t)
  {
    var tMap := conv.GameToMap(t);
    Release(objects, UpdateAt(objects, p, tMap, conv), tMap, conv)
  }

  datatype Event = UpdateEvent(t: GameTimestamp) | PressEvent(t: GameTimestamp) | ReleaseEvent(t: GameTimestamp)

  /** One entry-point call; the cursor never goes back and nothing behind it
      is rewritten. */
  function Apply(objects: seq<Chart.Object>, p: LaneProgress, conv: TimestampConverter, e: Event): (r: LaneProgress)
    requires LaneInvariant(objects, p) && LaneFits(objects) && conv.CanGameToMap(e.t)
    ensures LaneInvariant(objects, r)
    ensures p.firstObject <= r.firstObject
    ensures forall k :: 0 <= k < p.firstObject ==> r.states[k] == p.states[k]
  {
    match e
    case UpdateEvent(t) => UpdateLane(objects, p, t, conv)
    case PressEvent(t) => KeyPressLane(objects, p, t, conv)
    case ReleaseEvent(t) => KeyReleaseLane(objects, p, t, conv)
  }

  /** A sequence of calls on one lane, in order. */
  function Run(objects: seq<Chart.Object>, p: LaneProgress, conv: TimestampConverter, events: seq<Event>): (r: LaneProgress)
    requires LaneInvariant(objects, p) && LaneFits(objects)
    requires forall i :: 0 <= i < |events| ==> conv.CanGameToMap(events[i].t)
    ensures LaneInvariant(objects, r)
    ensures p.firstObject <= r.firstObject
    ensures forall k :: 0 <= k < p.firstObject ==> r.states[k] == p.states[k]
    decreases |events|
  {
    if events == [] then p
    else Run(objects, Apply(objects, p, conv, events[0]), conv, events[1..])
  }

  // ---------------------------------------------------------------------
  // Properties
  // ---------------------------------------------------------------------

  /** A hit, or a resolved hold, is always behind the cursor... */
  lemma ResolvedIsBehindCursor(objects: seq<Chart.Object>, p: LaneProgress, k: nat)
    requires LaneInvariant(objects, p) && k < |objects|
    requires p.states[k].IsHit() || (p.states[k].LongNote? && p.states[k].longNote.Missed?)
    ensures k < p.firstObject
  {
  }

  /** ... and so no sequence of calls changes it again. */
  lemma ResolvedIsFinal(objects: seq<Chart.Object>, p: LaneProgress, conv: TimestampConverter, events: seq<Event>, k: nat)
    requires LaneInvariant(objects, p) && LaneFits(objects)
    requires forall i :: 0 <= i < |events| ==> conv.CanGameToMap(events[i].t)
    requires k < |objects|
    requires p.states[k].IsHit() || (p.states[k].LongNote? && p.states[k].longNote.Missed?)
    ensures Run(objects, p, conv, events).states[k] == p.states[k]
  {
    ResolvedIsBehindCursor(objects, p, k);
  }

  /** With no active object left, every verdict is settled. */
  lemma NoActiveObjectsMeansSettled(objects: seq<Chart.Object>, p: LaneProgress)
    requires LaneInvariant(objects, p) && p.firstObject == |objects|
    ensures forall k :: 0 <= k < |objects| ==> Settled(p.states[k])
  {
  }

  /** A release after the press that made the hold `Held` is always inside
      the start-relative window `key_release` checks, and so is a hit: the
      `Missed` branch of `key_release` is taken only by a release stamped
      earlier than its own press. */
  lemma ReleaseAfterPressIsHit(objects: seq<Chart.Object>, p: LaneProgress, tMap: MapTimestamp, conv: TimestampConverter)
    requires LaneInvariant(objects, p) && LaneFits(objects) && Reachable(objects, p, tMap)
    requires p.firstObject < |objects| && p.states[p.firstObject].LongNote? && p.states[p.firstObject].longNote.Held?
    requires -WINDOW <= p.states[p.firstObject].longNote.diff.raw as int
    requires p.states[p.firstObject].longNote.diff.raw as int <= tMap.raw as int - objects[p.firstObject].StartTimestamp().raw as int
    ensures Release(objects, p, tMap, conv).states[p.firstObject].longNote.Hit?
  {
  }

  // ---------------------------------------------------------------------
  // Scenarios: one hold from 0 ms to 1000 ms, no global offset
  // ---------------------------------------------------------------------

  function OneHold(): seq<Chart.Object> {
    [Chart.LongNote(Timestamp(0), Timestamp(100_000))]
  }

  function NoOffset(): TimestampConverter {
    TimestampConverter(TimestampDifference(0))
  }

  /** The hold, pressed on time at 0 ms, is held. */
  lemma HoldPressedOnTime()
    ensures KeyPressLane(OneHold(), InitialProgress(OneHold()), Timestamp(0), NoOffset())
         == LaneProgress([LongNote(Held(TimestampDifference(0)))], 0)
  {
    var objects, conv, tMap := OneHold(), NoOffset(), Timestamp(0);
    var p0 := InitialProgress(objects);
    assert p0.states == [LongNote(LongNoteState.NotHit)];
    assert ScanStep(objects[0], p0.states[0], tMap, conv) == Stop;
    assert UpdateAt(objects, p0, tMap, conv) == p0;
    var s := LongNote(Held(Offset(objects[0], tMap, conv)));
    assert InPressWindow(objects[0], tMap);
    assert Offset(objects[0], tMap, conv) == TimestampDifference(0);
    assert p0.states[0 := s] == [s];
    assert Press(objects, p0, tMap, conv) == LaneProgress([s], 0);
  }

  /** Pressed on time and released at its end, the hold is hit, and its
      release offset is measured from the start of the hold (1000 ms). */
  lemma HoldReleasedAtEnd()
    ensures var held := LaneProgress([LongNote(Held(TimestampDifference(0)))], 0);
            (LaneInvariant(OneHold(), held) &&
             KeyReleaseLane(OneHold(), held, Timestamp(100_000), NoOffset())
          == LaneProgress([LongNote(LongNoteState.Hit(TimestampDifference(0), TimestampDifference(100_000)))], 1))
  {
    var objects, conv, tMap := OneHold(), NoOffset(), Timestamp(100_000);
    var held := LaneProgress([LongNote(Held(TimestampDifference(0)))], 0);
    assert LaneInvariant(objects, held);
    assert ScanStep(objects[0], held.states[0], tMap, conv) == Stop;
    assert UpdateAt(objects, held, tMap, conv) == held;
    var s := LongNote(LongNoteState.Hit(TimestampDifference(0), Offset(objects[0], tMap, conv)));
    assert Offset(objects[0], tMap, conv) == TimestampDifference(100_000);
    assert InPressWindow(objects[0], tMap);
    assert held.states[0 := s] == [s];
    assert Release(objects, held, tMap, conv) == LaneProgress([s], 1);
  }

  /** Pressed on time and never released, the hold is resolved by the first
      update past its end window as a hit whose release offset is the hit
      window itself. */
  lemma UnreleasedHoldAutoResolves()
    ensures var held := LaneProgress([LongNote(Held(TimestampDifference(0)))], 0);
            (LaneInvariant(OneHold(), held) &&
             UpdateLane(OneHold(), held, Timestamp(120_000), NoOffset())
          == LaneProgress([LongNote(LongNoteState.Hit(TimestampDifference(0), TimestampDifference(WINDOW as i32)))], 1))
  {
    var objects, conv, tMap := OneHold(), NoOffset(), Timestamp(120_000);
    var held := LaneProgress([LongNote(Held(TimestampDifference(0)))], 0);
    var s := LongNote(LongNoteState.Hit(TimestampDifference(0), HitWindow()));
    assert ScanStep(objects[0], held.states[0], tMap, conv) == Resolve(s);
    assert held.states[0 := s] == [s];
    assert Scan(objects, [s], 1, tMap, conv) == LaneProgress([s], 1);
  }

  /** Never pressed, the hold is missed once its press window has passed. */
  lemma UnpressedHoldIsMissed()
    ensures UpdateLane(OneHold(), InitialProgress(OneHold()), Timestamp(10_000), NoOffset())
         == LaneProgress([LongNote(Missed(None, None))], 1)
  {
    var objects, conv, tMap := OneHold(), NoOffset(), Timestamp(10_000);
    var p0 := InitialProgress(objects);
    var s := LongNote(Missed(None, None));
    assert p0.states == [LongNote(LongNoteState.NotHit)];
    assert ScanStep(objects[0], p0.states[0], tMap, conv) == Resolve(s);
    assert p0.states[0 := s] == [s];
    assert Scan(objects, [s], 1, tMap, conv) == LaneProgress([s], 1);
  }

  /** Two taps, at 0 ms and 10 s, with no global offset. */
  function TwoTaps(): seq<Chart.Object> {
    [Chart.HitObject(Timestamp(0)), Chart.HitObject(Timestamp(1_000_000))]
  }

  /** Pressed at 10 s, the second tap is hit dead on, and the first, long out
      of reach, is passed over and stays `NotHit`. */
  lemma TwoTapsPressedAtSecond()
    ensures KeyPressLane(TwoTaps(), InitialProgress(TwoTaps()), Timestamp(1_000_000), NoOffset())
         == LaneProgress([HitObject(HitObjectState.NotHit), HitObject(HitObjectState.Hit(TimestampDifference(0)))], 2)
  {
    var objects, conv := TwoTaps(), NoOffset();
    var t: MapTimestamp := Timestamp(1_000_000);
    var initial := InitialProgress(objects);
    var untouched := HitObject(HitObjectState.NotHit);
    assert initial.states == [untouched, untouched];
    assert ScanStep(objects[0], untouched, t, conv) == Resolve(untouched);
    assert ScanStep(objects[1], untouched, t, conv) == Stop;
    assert initial.states[0 := untouched] == initial.states;
    assert Scan(objects, initial.states, 1, t, conv) == LaneProgress(initial.states, 1);
    var updated := UpdateAt(objects, initial, t, conv);
    assert updated == LaneProgress(initial.states, 1);
    assert Offset(objects[1], t, conv) == TimestampDifference(0);
    assert initial.states[1 := HitObject(HitObjectState.Hit(TimestampDifference(0)))]
        == [untouched, HitObject(HitObjectState.Hit(TimestampDifference(0)))];
  }
}
