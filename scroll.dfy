/**
  Scroll position: a game-domain time difference scaled by the scroll speed
  and by a fixed-point multiplier (thousandths), as a 64-bit product, and the
  truncating inverse that turns a position back into a time difference.
 */
module Scroll {
  import opened Primitives
  import opened Timing

  datatype Position = Position(value: i64)

  datatype ScrollSpeed = ScrollSpeed(value: u8)

  /** Thousandths of the nominal speed; kept within +-2^24 by `NewMultiplier`. */
  datatype ScrollSpeedMultiplier = ScrollSpeedMultiplier(value: i32)

  const MULTIPLIER_LIMIT: int := 0x100_0000

  /** The largest magnitude `Times` can produce: 255 * 2^31 * 1000. */
  const POSITION_LIMIT: int := 255 * 0x8000_0000 * 1000

  /** `ScrollSpeedMultiplier::new`: its two `assert!`s become `None`. */
  function NewMultiplier(value: i32): (r: Option<ScrollSpeedMultiplier>)
    ensures r.Some? <==> -MULTIPLIER_LIMIT <= value as int < MULTIPLIER_LIMIT
    ensures r.Some? ==> r.value.value == value
  {
    if value as int < MULTIPLIER_LIMIT && value as int >= -MULTIPLIER_LIMIT then
      Some(ScrollSpeedMultiplier(value))
    else
      None
  }

  /** The default multiplier, 1.000, is one `NewMultiplier` accepts. */
  function DefaultMultiplier(): (m: ScrollSpeedMultiplier)
    ensures m.value == 1000
    ensures NewMultiplier(m.value) == Some(m)
  {
    ScrollSpeedMultiplier(1000)
  }

  /** `ScrollSpeed * GameTimestampDifference`: an i64 product that cannot
      overflow for any u8 speed and any i32 difference. */
  function Times(speed: ScrollSpeed, diff: GameTimestampDifference): (p: Position)
    ensures -POSITION_LIMIT <= p.value as int <= POSITION_LIMIT
  {
    var s, r, m := speed.value as int, diff.IntoMilliHundreds() as int, DefaultMultiplier().value as int;
    ProductBound(s, r);
    Position((s * r * m) as i64)
  }

  /** `GameTimestampDifference * ScrollSpeed` forwards to `Times`. */
  function DiffTimesSpeed(diff: GameTimestampDifference, speed: ScrollSpeed): Position {
    Times(speed, diff)
  }

  /** `Position / ScrollSpeed`: divides out the speed and then the multiplier,
      truncating each time. `None` stands for the two panics of the source:
      division by a zero speed and a quotient that does not fit in i32. */
  function DivBy(p: Position, speed: ScrollSpeed): (r: Option<GameTimestampDifference>)
    ensures r.Some? <==>
      speed.value > 0 && FitsI32(TruncDiv(p.value as int, speed.value as int * DefaultMultiplier().value as int))
    ensures r.Some? ==> r.value.raw as int == TruncDiv(p.value as int, speed.value as int * DefaultMultiplier().value as int)
  {
    if speed.value == 0 then
      None
    else
      var m := DefaultMultiplier().value as int;
      var value := TruncDiv(TruncDiv(p.value as int, speed.value as int), m);
      TruncDivTwice(p.value as int, speed.value as int, m);
      if FitsI32(value) then Some(TimestampDifference<GameDomain>.FromMilliHundreds(value as i32)) else None
  }

  lemma ProductBound(s: int, r: int)
    requires 0 <= s < 0x100 && -0x8000_0000 <= r < 0x8000_0000
    ensures -POSITION_LIMIT <= s * r * 1000 <= POSITION_LIMIT
  {
    var bound := 255 * 0x8000_0000;
    SpeedTimesRawBound(s, r);
    MultiplyMonotonic(s * r, bound, 1000);
    MultiplyMonotonic(-bound, s * r, 1000);
  }

  lemma SpeedTimesRawBound(s: int, r: int)
    requires 0 <= s < 0x100 && -0x8000_0000 <= r < 0x8000_0000
    ensures -255 * 0x8000_0000 <= s * r <= 255 * 0x8000_0000
  {
    if 0 <= r {
      MultiplyMonotonic(s, 255, r);
      MultiplyMonotonic(r, 0x8000_0000, 255);
      MultiplyMonotonic(0, s, r);
    } else {
      MultiplyMonotonic(s, 255, -r);
      MultiplyMonotonic(-r, 0x8000_0000, 255);
      MultiplyMonotonic(0, s, -r);
      assert s * r == -(s * -r);
    }
  }

  // ---------------------------------------------------------------------
  // Properties
  // ---------------------------------------------------------------------

  /** Multiplication is symmetric in its two operands. */
  lemma TimesCommutes(speed: ScrollSpeed, diff: GameTimestampDifference)
    ensures DiffTimesSpeed(diff, speed) == Times(speed, diff)
  {
  }

  /** For a positive speed, dividing a position by the speed recovers the
      time difference it was made from, exactly. */
  lemma DivByUndoesTimes(speed: ScrollSpeed, diff: GameTimestampDifference)
    requires speed.value > 0
    ensures DivBy(Times(speed, diff), speed) == Some(diff)
  {
    var k := speed.value as int * 1000;
    assert Times(speed, diff).value as int == diff.raw as int * k;
    TruncDivCancel(diff.raw as int, k);
  }

  /** For a positive speed the position is strictly increasing in the time
      difference, and so the order of positions is the order of differences. */
  lemma TimesStrictlyIncreasing(speed: ScrollSpeed, d1: GameTimestampDifference, d2: GameTimestampDifference)
    requires speed.value > 0
    ensures d1.raw < d2.raw <==> Times(speed, d1).value < Times(speed, d2).value
    ensures d1.raw <= d2.raw <==> Times(speed, d1).value <= Times(speed, d2).value
  {
    var k := speed.value as int * 1000;
    assert Times(speed, d1).value as int == d1.raw as int * k;
    assert Times(speed, d2).value as int == d2.raw as int * k;
    ScalingReflectsOrder(d1.raw as int, d2.raw as int, k);
    ScalingReflectsOrder(d2.raw as int, d1.raw as int, k);
  }

  lemma ScalingReflectsOrder(x: int, y: int, k: int)
    requires k > 0
    ensures x < y <==> x * k < y * k
  {
    if x < y {
      assert (x + 1) * k == x * k + k;
      MultiplyMonotonic(x + 1, y, k);
    } else {
      MultiplyMonotonic(y, x, k);
    }
  }

  /** The inverse is lossy only below one multiplier step: for a positive
      speed, the difference it returns, scaled back, lies within one
      `speed * 1000` of the position and on the same side of zero. */
  lemma DivByTruncatesTowardZero(p: Position, speed: ScrollSpeed)
    requires DivBy(p, speed).Some?
    ensures var k := speed.value as int * 1000;
            var back := DivBy(p, speed).value.raw as int * k;
            (0 <= p.value ==> back <= p.value as int < back + k) &&
            (p.value < 0 ==> back - k < p.value as int <= back)
  {
  }
}
