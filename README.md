# y-core judgement engine in Dafny

This project models the judgement core of the `y-core` rhythm-game crate. It covers three parts:

- **Timing.** The i32 fixed-point timestamps, in hundredths of a millisecond, for two time domains: *map time*, the chart's own clock, and *game time*, the player's clock shifted by an audio-latency offset. A `TimestampConverter` converts between them.
- **Scroll.** The scroll transform, which turns a game-time difference into an i64 screen position and back.
- **Judgement.** The per-lane state machine that judges taps (`HitObject`) and holds (`LongNote`) against a 76 ms hit window when `update`, `key_press` and `key_release` are called.

## Modules

- `Primitives` (`primitives.dfy`): Rust's `i32`, `i64` and `u8`, plus the two pieces of their arithmetic the core uses.
  - `checked_mul`.
  - `/`, which truncates toward zero; Dafny's own `/` is Euclidean.
- `Timing` (`timing.dfy`): absolute times and differences.
  - The source writes out a base pair of types and, through a macro, a Map pair and a Game pair that delegate to it. Here the domain is a phantom type parameter, so map and game values still cannot be mixed.
- `Scroll` (`scroll.dfy`): `Position`, `ScrollSpeed` and `ScrollSpeedMultiplier`, with `speed * diff` and `position / speed`.
- `Chart` (`chart.dfy`): objects, lanes and the map, plus the neighbour check `Game::new` performs on each lane.
- `Judgement` (`judgement.dfy`): the judgement rules as pure functions on one lane's states and cursor (`LaneProgress`).
  - The lane invariant `LaneInvariant` holds:
    - every state has the kind of its object;
    - states behind the cursor are settled;
    - states at or after it are `NotHit` or `Held`;
    - only the state at the cursor may be `Held`.
  - This invariant is why the three `unreachable!()` branches of `update` are unreachable. The model proves it is kept by every entry point and by any run of them.
- `Engine` (`engine.dfy`): the `Game` and `LaneState` classes, which update verdict arrays and cursors in place, as the source does.
  - Each of `Update`, `KeyPress` and `KeyRelease` is proved to leave its lane exactly as the corresponding `Judgement` function says. It is also proved to leave every other lane untouched and to keep `Game.Valid()`.

Panics that the source states explicitly become `None`:
- `checked_mul(..).expect(..)`;
- the `assert!`s of `ScrollSpeedMultiplier::new`;
- the zero-speed division and the `try_into().unwrap()` of `Position / ScrollSpeed`.

Implicit i32 overflow of `+` and `-` panics in a debug build and wraps in a release build. It is excluded by a `requires` that the result fits (see Left out).

### Behaviour of the code worth noting

- A tap that passes its window unpressed is skipped by `update` and stays `NotHit`. Taps have no `Missed` state. The source's own test only checks that it is still `NotHit` (`Engine.GameStateRegularHit`).
- A hold released after its start window opens gets `rel_diff = release time − start time`, not an offset from its end. A hold pressed at 0 ms and released at its end, 1000 ms, is `Hit{press_diff: 0, rel_diff: 1000 ms}` (`Judgement.HoldReleasedAtEnd`).
- The release check in `key_release` compares against `start − hit window`. A release that does not come before its own press therefore always scores a hit (`Judgement.ReleaseAfterPressIsHit`). The `Missed{held: Some(..), ..}` branch is taken only by a release stamped earlier than the press that made the hold `Held`.
- An unreleased hold whose end window has passed is resolved by `update` as `Hit{press_diff, rel_diff: hit window}` (`Judgement.UnreleasedHoldAutoResolves`).
- `y-core/src/object.rs` declares object timestamps as plain `i32` and declares no `start_timestamp`/`end_timestamp`. `game.rs` and its test build objects from `MapTimestamp` and call those two accessors. The model uses `MapTimestamp`, and gives a tap the same start and end.

## Model

| member | source | states |
|---|---|---|
| Primitives.TruncDiv | y-core/src/timing.rs:22-24 | Rust's `/` by a positive divisor: the quotient brackets the dividend from the side of zero, and has the dividend's sign |
| Primitives.TruncDivTwice | y-core/src/scroll.rs:61 | `a / b / c` with positive `b`, `c` equals the single truncating division `a / (b * c)` |
| Primitives.CheckedMul | y-core/src/timing.rs:16-20 | `checked_mul` is `None` exactly when the product leaves i32, else it is the product |
| Timing.MillisToRaw | y-core/src/timing.rs:16-20 | `millis * 100` succeeds exactly when it fits i32; the result is then exactly `millis * 100`, and dividing it by 100 gives `millis` back |
| Timing.RawToMillis | y-core/src/timing.rs:22-24 | `as_millis` keeps the whole milliseconds, dropping a sub-millisecond remainder of the value's own sign |
| Timing.Timestamp.FromMillis | y-core/src/timing.rs:16-20 | `from_millis` aborts exactly on i32 overflow; otherwise it stores exactly `millis * 100`, and `as_millis` recovers the argument |
| Timing.TimestampDifference.FromMillis | y-core/src/timing.rs:36-40 | the same for differences: aborts exactly on i32 overflow, otherwise stores exactly `millis * 100` (including the Map and Game wrappers at lines 82-84) |
| Timing.Timestamp.FromMilliHundreds | y-core/src/timing.rs:26-32 | `into_milli_hundreds(from_milli_hundreds(x)) == x` |
| Timing.TimestampDifference.FromMilliHundreds | y-core/src/timing.rs:46-52 | `into_milli_hundreds(from_milli_hundreds(x)) == x` for differences |
| Timing.Timestamp.AsMillis | y-core/src/timing.rs:22-24 | no contract of its own; its law is `AsMillisTruncates`, and `FromMillis` promises that it recovers the argument |
| Timing.Timestamp.IntoMilliHundreds | y-core/src/timing.rs:30-32 | no contract of its own; `FromMilliHundreds` and `MilliHundredsRoundTrip` make it the inverse of `from_milli_hundreds` |
| Timing.TimestampDifference.AsMillis | y-core/src/timing.rs:42-44 | no contract of its own; `RawToMillis` brackets it, `AsMillisTruncates` gives its value, and `TimestampDifference.FromMillis` promises that it recovers the argument |
| Timing.TimestampDifference.IntoMilliHundreds | y-core/src/timing.rs:50-52 | no contract of its own; `TimestampDifference.FromMilliHundreds` and the second clause of `MilliHundredsRoundTrip` make it the inverse of `from_milli_hundreds` |
| Timing.Timestamp.Lt | y-core/src/timing.rs:3-4 | the derived `Ord` `<` on the raw count; no contract of its own, and `GameToMapMonotonic` and `NonOverlappingIsStrictlyOrdered` are the laws that use it |
| Timing.Timestamp.Le | y-core/src/timing.rs:3-4 | the derived `Ord` `<=` on the raw count; no contract of its own, and `GameToMapMonotonic` and `Chart.SortedByStart` use it |
| Timing.AsMillisTruncates | y-core/src/timing.rs:22-24 | for a time and for a difference, the raw count and `as_millis * 100` differ by less than one millisecond, with the raw count's sign |
| Timing.MilliHundredsRoundTrip | y-core/src/timing.rs:26-32 | `from_milli_hundreds(into_milli_hundreds(t)) == t`: the raw count is the whole value |
| Timing.Timestamp.Sub | y-core/src/timing.rs:103-112 | no contract of its own; its laws are `AddThenSubtract` and `SubtractThenAdd`: it undoes `+` and `t2 + (t1 - t2) == t1` |
| Timing.Timestamp.Add | y-core/src/timing.rs:114-123 | no contract of its own; its laws are `AddThenSubtract` and `SubtractThenAdd` |
| Timing.Timestamp.SubDiff | y-core/src/timing.rs:125-134 | no contract of its own; its laws are `AddThenSubtract` and `SubtractThenAdd`: it is the inverse of `+` |
| Timing.TimestampDifference.Add | y-core/src/timing.rs:136-145 | no contract of its own; its law is `DifferenceAddThenSubtract` |
| Timing.TimestampDifference.Sub | y-core/src/timing.rs:147-156 | no contract of its own; its law is `DifferenceAddThenSubtract`: it undoes `+` |
| Timing.AddThenSubtract | y-core/src/timing.rs:103-134 | `(t + d) - d == t` and `(t + d) - t == d` whenever the sum fits |
| Timing.SubtractThenAdd | y-core/src/timing.rs:103-134 | `(t - d) + d == t` and `t2 + (t1 - t2) == t1` |
| Timing.DifferenceAddThenSubtract | y-core/src/timing.rs:136-156 | `(d1 + d2) - d2 == d1` for differences |
| Timing.TimestampConverter.GameToMap | y-core/src/timing.rs:192-194 | no contract of its own; its laws are `ConverterRoundTrip`, `GameToMapMonotonic` and `GameToMapCommutesWithSub` (the `to_map` wrapper at lines 179-183 forwards to it) |
| Timing.TimestampConverter.MapToGame | y-core/src/timing.rs:196-198 | no contract of its own; its law is `ConverterRoundTrip`: it is the inverse of `game_to_map` (the `to_game` wrapper at lines 167-171 forwards to it) |
| Timing.TimestampConverter.GameToMapDifference | y-core/src/timing.rs:200-205 | no contract of its own; its laws are `DifferenceConversionIgnoresOffset` and `GameToMapCommutesWithSub` (the `GameTimestampDifference::to_map` wrapper at lines 185-189 forwards to it) |
| Timing.TimestampConverter.MapToGameDifference | y-core/src/timing.rs:207-212 | no contract of its own; its law is `DifferenceConversionIgnoresOffset`: it is the inverse of `game_to_map_difference` (the `MapTimestampDifference::to_game` wrapper at lines 173-177 forwards to it) |
| Timing.ConverterRoundTrip | y-core/src/timing.rs:192-198 | `map_to_game` and `game_to_map` are inverse on every value they accept |
| Timing.DifferenceConversionIgnoresOffset | y-core/src/timing.rs:200-212 | difference conversions copy the raw count, do not depend on the offset, and are mutually inverse |
| Timing.GameToMapMonotonic | y-core/src/timing.rs:192-194 | `game_to_map` preserves and reflects `<` and `<=` |
| Timing.GameToMapCommutesWithSub | y-core/src/timing.rs:192-194 | converting two times and subtracting gives the converted difference: the offset cancels |
| Scroll.NewMultiplier | y-core/src/scroll.rs:15-20 | `ScrollSpeedMultiplier::new` accepts exactly `-2^24 <= value < 2^24` and stores it |
| Scroll.DefaultMultiplier | y-core/src/scroll.rs:31-35 | the default is 1000, a value `new` accepts |
| Scroll.Times | y-core/src/scroll.rs:37-47 | the i64 product `speed * diff * 1000` stays within `255 * 2^31 * 1000`, so it cannot overflow i64 |
| Scroll.TimesCommutes | y-core/src/scroll.rs:49-55 | `diff * speed == speed * diff` |
| Scroll.DiffTimesSpeed | y-core/src/scroll.rs:49-55 | no contract of its own; its law is `TimesCommutes` |
| Scroll.DivBy | y-core/src/scroll.rs:57-63 | `position / speed` aborts exactly on a zero speed or a quotient outside i32; otherwise it is the truncating quotient by `speed * 1000` |
| Scroll.DivByUndoesTimes | y-core/src/scroll.rs:37-63 | for a positive speed, `(speed * diff) / speed == diff` exactly |
| Scroll.TimesStrictlyIncreasing | y-core/src/scroll.rs:37-47 | for a positive speed, positions order exactly as the differences do |
| Scroll.DivByTruncatesTowardZero | y-core/src/scroll.rs:57-63 | the quotient scaled back lies within one `speed * 1000` of the position, on the side of zero |
| Chart.Object.EndTimestamp | y-core/src/game.rs:60-63 | a tap ends where it starts |
| Chart.CheckNeighbours | y-core/src/game.rs:61-64 | the neighbour loop over `windows(2)` passes exactly when every object ends before the next one starts |
| Chart.Object.StartTimestamp | y-core/src/game.rs:60 | no contract of its own; `EndTimestamp` states that a tap ends where it starts, and `NonOverlappingIsStrictlyOrdered` orders a lane by it |
| Chart.NonOverlappingIsStrictlyOrdered | y-core/src/game.rs:60-64 | in a lane that passes the check and whose holds run forward, start times strictly increase, so the sort by start could not reorder it |
| Judgement.HitWindow | y-core/src/game.rs:104 | the hit window is `from_millis(76)`, 7600 raw units |
| Judgement.InitialState | y-core/src/game.rs:67-72 | a new state is `NotHit` of its object's kind |
| Judgement.InitialProgress | y-core/src/game.rs:66-78 | a new lane has cursor 0 and one initial state per object, and satisfies the lane invariant |
| Judgement.ScanStep | y-core/src/game.rs:113-160 | one loop iteration stops exactly when the object is reachable (before `end + window`, and before `start + window` or held); a tap passes unchanged, a held hold becomes `Hit{diff, window}`, a `NotHit` hold becomes `Missed{None, None}` |
| Judgement.Scan | y-core/src/game.rs:113-161 | no contract of its own; its laws are `ScanResolvesUntilStop` and `ScanKeepsInvariant` |
| Judgement.ScanResolvesUntilStop | y-core/src/game.rs:113-161 | the loop from the cursor on resolves each object as `ScanStep` says, stops at the first reachable one (or the end of the lane), and leaves every other state unchanged |
| Judgement.ScanKeepsInvariant | y-core/src/game.rs:113-161 | the loop keeps the lane invariant |
| Judgement.UpdateAt | y-core/src/game.rs:99-162 | `update` resolves every object from the old cursor up to the new one exactly as `ScanStep` says and stops at the first reachable object (or the end of the lane); it leaves every state behind the old cursor and from the new cursor on unchanged, keeps the lane invariant, and never moves the cursor back |
| Judgement.Offset | y-core/src/game.rs:180 | the press offset is the map time minus the object's start |
| Judgement.Press | y-core/src/game.rs:170-193 | after `update`, a press no earlier than `start - window` hits a tap (cursor + 1, diff within ±76 ms) or holds a hold (cursor stays); an earlier press or an empty lane changes nothing; only the cursor's state changes |
| Judgement.Release | y-core/src/game.rs:202-225 | after `update`, a release changes the lane exactly when the cursor's hold is `Held`; it then becomes `Hit{diff, offset}` (offset from the start) or, when the release is before `start - window`, `Missed{Some(t), Some(diff)}`, and the cursor moves on |
| Judgement.UpdateLane | y-core/src/game.rs:99-162 | no contract of its own; it is `UpdateAt` at the converted time, and `Apply`/`Run` carry its laws |
| Judgement.KeyPressLane | y-core/src/game.rs:164-194 | no contract of its own; it is `Press` after `UpdateAt`, and `Apply`/`Run` carry its laws |
| Judgement.KeyReleaseLane | y-core/src/game.rs:196-226 | no contract of its own; it is `Release` after `UpdateAt`, and `Apply`/`Run` carry its laws |
| Judgement.Apply | y-core/src/game.rs:99-226 | every entry point keeps the lane invariant, never moves the cursor back, and never rewrites a state behind it |
| Judgement.Run | y-core/src/game.rs:99-226 | the same holds for any sequence of calls |
| Judgement.ObjectState.IsHit | y-core/src/game.rs:229-237 | no contract of its own; its laws are `ResolvedIsBehindCursor` and `ResolvedIsFinal` |
| Judgement.ResolvedIsBehindCursor | y-core/src/game.rs:229-237 | a state that `is_hit`, or a missed hold, is behind the cursor |
| Judgement.ResolvedIsFinal | y-core/src/game.rs:229-237 | such a state is never changed by any later sequence of calls |
| Judgement.NoActiveObjectsMeansSettled | y-core/src/game.rs:94-97 | when a lane has no active objects, every verdict in it is settled |
| Judgement.ReleaseAfterPressIsHit | y-core/src/game.rs:211-223 | releasing a held hold at or after the time of its press always scores a hit |
| Judgement.HoldPressedOnTime | y-core/src/game.rs:179-189 | a 0–1000 ms hold pressed at 0 ms becomes `Held{diff: 0}` and keeps the cursor |
| Judgement.HoldReleasedAtEnd | y-core/src/game.rs:211-223 | that held hold released at 1000 ms is `Hit{0, 1000 ms}` and the cursor moves past it |
| Judgement.UnreleasedHoldAutoResolves | y-core/src/game.rs:116-125 | that held hold, never released, is `Hit{0, 76 ms}` after an update at 1200 ms |
| Judgement.UnpressedHoldIsMissed | y-core/src/game.rs:139-146 | the same hold, never pressed, is `Missed{None, None}` after an update at 100 ms, with the cursor past it |
| Judgement.TwoTapsPressedAtSecond | y-core/src/game.rs:244-278 | on one lane, taps at 0 ms and 10 s pressed at 10 s become `[NotHit, Hit{diff: 0}]` with the cursor past both |
| Engine.LaneState.constructor | y-core/src/game.rs:66-78 | fills a fresh array with the initial state of each object, in order, with cursor 0 |
| Engine.LaneState.Advance | y-core/src/game.rs:109-161 | the in-place loop leaves exactly the lane `UpdateAt` describes |
| Engine.LaneState.ResolveObject | y-core/src/game.rs:114-160 | one in-place loop iteration resolves the object exactly when `ScanStep` does, writing the state `ScanStep` gives, and writes nothing otherwise |
| Engine.LaneState.ApplyPress | y-core/src/game.rs:175-193 | the in-place press leaves exactly the lane `Press` describes |
| Engine.LaneState.ApplyRelease | y-core/src/game.rs:207-225 | the in-place release leaves exactly the lane `Release` describes |
| Engine.Game.constructor | y-core/src/game.rs:56-91 | one fresh, distinct lane state per lane, each equal to `InitialProgress`; zero global offset; `Valid()` |
| Engine.Game.HasActiveObjects | y-core/src/game.rs:94-97 | true exactly when the cursor is below the lane's object count; when false, every verdict of the lane is settled; when true, the object at the cursor is pending |
| Engine.Game.Update | y-core/src/game.rs:98-162 | the lane becomes `UpdateLane` of its old value, every other lane is unchanged, and `Valid()` is kept |
| Engine.Game.KeyPress | y-core/src/game.rs:164-194 | the lane becomes `KeyPressLane` of its old value, every other lane is unchanged, and `Valid()` is kept |
| Engine.Game.KeyRelease | y-core/src/game.rs:196-226 | the lane becomes `KeyReleaseLane` of its old value, every other lane is unchanged, and `Valid()` is kept |
| Engine.GameStateRegularHit | y-core/src/game.rs:244-278 | taps at 0 ms and 10 s, pressed at 10 s: `[NotHit, Hit{diff: 0}]` |

## Left out

- The sort in `Game::new` (`sort_unstable_by_key(Object::start_timestamp)`) is not modelled. `Engine.Game.constructor` requires each lane to be sorted by start already. `Chart.NonOverlappingIsStrictlyOrdered` shows that a lane which passes the neighbour check and whose holds run forward has only one such order.
- Engine.Game.constructor: the neighbour `assert!` of `Game::new` is a precondition (`NonOverlapping`), not a modelled panic; the loop `Chart.CheckNeighbours` is still run and its result asserted.
- Engine.Game.constructor, Engine.Game.Update, Engine.Game.KeyPress, Engine.Game.KeyRelease: every object's window arithmetic must fit in i32 (`LaneFits`) for the whole chart. The source would only overflow, panicking in a debug build or wrapping in a release build, when it reached the offending object. Overflow of the game-to-map conversion is excluded the same way (`CanGameToMap`).
- Timing: i32 `+`/`-` wrap-around in release builds is not modelled. Every such operation requires its result to fit.
- Timing: the source's separate base, Map and Game wrapper types are one datatype with a phantom domain parameter. The wrappers only delegate.
- `ScrollSpeedMultiplier::from_f32` and `as_f32` are not modelled: floating point.
- `Game.scroll_speed` and `Game.cap_fps` are not modelled. No core operation reads them.
- `Arc<Map>` sharing is not modelled. The chart is an immutable field.
- Map metadata (artist, title, difficulty, mapper, audio file) and `TimeSignature` are not modelled. The judgement core does not read them.
- The `Hit` struct at `y-core/src/game.rs:41-44` is not modelled. Nothing in the core uses it.
- The "circular queue" TODOs in `update`, `key_press` and `key_release` are not modelled. They are comments with no code.
- Out-of-range lane indices are not modelled. The source panics on them, and the methods require `lane < |laneStates|`.
- The `TimestampConverter` is fixed during a `Judgement.Run`. No core operation changes it.
- Concurrency across lanes is not modelled. The source is single-threaded, and the frame ensures only show that a call touches one lane.
