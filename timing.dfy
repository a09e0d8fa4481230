/**
  Fixed-point timestamps: i32 counts of 1/100 ms.

  The source defines a base `Timestamp` / `TimestampDifference` pair and, by a
  macro, two domain families (Map and Game) that wrap the base types and
  delegate every operation to them. Here one pair of datatypes carries a
  phantom domain parameter `D`, so that map-domain and game-domain values
  are distinct types (they cannot be mixed without a `TimestampConverter`)
  while every operation is defined once.
 */
module Timing {
  import opened Primitives

  /** Domain markers. `Untagged` is the source's base pair. */
  datatype Untagged = Untagged
  datatype MapDomain = MapDomain
  datatype GameDomain = GameDomain

  /** Rust's `checked_mul(100).expect(..)`: `None` stands for the panic. */
  function MillisToRaw(millis: i32): (r: Option<i32>)
    ensures r.Some? <==> FitsI32(millis as int * 100)
    ensures r.Some? ==> r.value as int == millis as int * 100
    ensures r.Some? ==> TruncDiv(r.value as int, 100) == millis as int
  {
    match CheckedMul(millis, 100)
    case None => None
    case Some(raw) =>
      TruncDivCancel(millis as int, 100);
      Some(raw)
  }

  /** Rust's `raw / 100`: whole milliseconds, the remainder dropped toward zero. */
  function RawToMillis(raw: i32): (m: i32)
    ensures 0 <= raw ==> m as int * 100 <= raw as int < m as int * 100 + 100
    ensures raw < 0 ==> m as int * 100 - 100 < raw as int <= m as int * 100
  {
    TruncDiv(raw as int, 100) as i32
  }

  /** An absolute time in domain `D`. */
  datatype Timestamp<D> = Timestamp(raw: i32) {

    static function FromMillis(millis: i32): (r: Option<Timestamp<D>>)
      ensures r.Some? <==> FitsI32(millis as int * 100)
      ensures r.Some? ==> r.value.raw as int == millis as int * 100
      ensures r.Some? ==> r.value.AsMillis() == millis
    {
      match MillisToRaw(millis)
      case None => None
      case Some(raw) => Some(Timestamp(raw))
    }

    function AsMillis(): i32 {
      RawToMillis(raw)
    }

    static function FromMilliHundreds(milliHundreds: i32): (r: Timestamp<D>)
      ensures r.IntoMilliHundreds() == milliHundreds
    {
      Timestamp(milliHundreds)
    }

    function IntoMilliHundreds(): i32 {
      raw
    }

    /** The derived `Ord`: comparison of the raw counts. */
    predicate Lt(other: Timestamp<D>) {
      raw < other.raw
    }

    predicate Le(other: Timestamp<D>) {
      raw <= other.raw
    }

    /** `self - other` for two absolute times. */
    function Sub(other: Timestamp<D>): TimestampDifference<D>
      requires FitsI32(raw as int - other.raw as int)
    {
      TimestampDifference(raw - other.raw)
    }

    /** `self + difference` */
    function Add(d: TimestampDifference<D>): Timestamp<D>
      requires FitsI32(raw as int + d.raw as int)
    {
      Timestamp(raw + d.raw)
    }

    /** `self - difference` */
    function SubDiff(d: TimestampDifference<D>): Timestamp<D>
      requires FitsI32(raw as int - d.raw as int)
    {
      Timestamp(raw - d.raw)
    }
  }

  /** A duration in domain `D`. */
  datatype TimestampDifference<D> = TimestampDifference(raw: i32) {

    static function FromMillis(millis: i32): (r: Option<TimestampDifference<D>>)
      ensures r.Some? <==> FitsI32(millis as int * 100)
      ensures r.Some? ==> r.value.raw as int == millis as int * 100
      ensures r.Some? ==> r.value.AsMillis() == millis
    {
      match MillisToRaw(millis)
      case None => None
      case Some(raw) => Some(TimestampDifference(raw))
    }

    function AsMillis(): i32 {
      RawToMillis(raw)
    }

    static function FromMilliHundreds(milliHundreds: i32): (r: TimestampDifference<D>)
      ensures r.IntoMilliHundreds() == milliHundreds
    {
      TimestampDifference(milliHundreds)
    }

    function IntoMilliHundreds(): i32 {
      raw
    }

    function Add(d: TimestampDifference<D>): TimestampDifference<D>
      requires FitsI32(raw as int + d.raw as int)
    {
      TimestampDifference(raw + d.raw)
    }

    function Sub(d: TimestampDifference<D>): TimestampDifference<D>
      requires FitsI32(raw as int - d.raw as int)
    {
      TimestampDifference(raw - d.raw)
    }
  }

  type MapTimestamp = Timestamp<MapDomain>
  type MapTimestampDifference = TimestampDifference<MapDomain>
  type GameTimestamp = Timestamp<GameDomain>
  type GameTimestampDifference = TimestampDifference<GameDomain>

  /** Converts between the two domains; `map time = game time + globalOffset`. */
  datatype TimestampConverter = TimestampConverter(globalOffset: GameTimestampDifference) {

    /** `game_to_map` does not overflow. */
    predicate CanGameToMap(t: GameTimestamp) {
      FitsI32(t.raw as int + globalOffset.raw as int)
    }

    /** `map_to_game` does not overflow. */
    predicate CanMapToGame(t: MapTimestamp) {
      FitsI32(t.raw as int - globalOffset.raw as int)
    }

    function GameToMap(t: GameTimestamp): MapTimestamp
      requires CanGameToMap(t)
    {
      Timestamp(t.Add(globalOffset).raw)
    }

    function MapToGame(t: MapTimestamp): GameTimestamp
      requires CanMapToGame(t)
    {
      var asGame: GameTimestamp := Timestamp(t.raw);
      asGame.SubDiff(globalOffset)
    }

    function GameToMapDifference(d: GameTimestampDifference): MapTimestampDifference {
      TimestampDifference(d.raw)
    }

    function MapToGameDifference(d: MapTimestampDifference): GameTimestampDifference {
      TimestampDifference(d.raw)
    }
  }

  // ---------------------------------------------------------------------
  // Properties of the representation
  // ---------------------------------------------------------------------

  /** `as_millis` truncates toward zero: it keeps the whole milliseconds and
      drops a remainder of the raw count's own sign, below one millisecond. */
  lemma AsMillisTruncates<D>(t: Timestamp<D>, d: TimestampDifference<D>)
    ensures 0 <= t.raw ==> 0 <= t.raw as int - t.AsMillis() as int * 100 < 100
    ensures t.raw < 0 ==> -100 < t.raw as int - t.AsMillis() as int * 100 <= 0
    ensures 0 <= d.raw ==> 0 <= d.raw as int - d.AsMillis() as int * 100 < 100
    ensures d.raw < 0 ==> -100 < d.raw as int - d.AsMillis() as int * 100 <= 0
  {
  }

  /** The raw count is the whole state: the two raw conversions are inverse. */
  lemma MilliHundredsRoundTrip<D>(t: Timestamp<D>, d: TimestampDifference<D>)
    ensures Timestamp<D>.FromMilliHundreds(t.IntoMilliHundreds()) == t
    ensures TimestampDifference<D>.FromMilliHundreds(d.IntoMilliHundreds()) == d
  {
  }

  // ---------------------------------------------------------------------
  // Absolute / difference algebra (valid whenever nothing overflows)
  // ---------------------------------------------------------------------

  /** `(t + d) - d == t` and `(t + d) - t == d`. */
  lemma AddThenSubtract<D>(t: Timestamp<D>, d: TimestampDifference<D>)
    requires FitsI32(t.raw as int + d.raw as int)
    ensures FitsI32(t.Add(d).raw as int - d.raw as int) && t.Add(d).SubDiff(d) == t
    ensures FitsI32(t.Add(d).raw as int - t.raw as int) && t.Add(d).Sub(t) == d
  {
  }

  /** `(t - d) + d == t`, and `t2 + (t1 - t2) == t1`. */
  lemma SubtractThenAdd<D>(t1: Timestamp<D>, t2: Timestamp<D>, d: TimestampDifference<D>)
    requires FitsI32(t1.raw as int - d.raw as int)
    requires FitsI32(t1.raw as int - t2.raw as int)
    ensures FitsI32(t1.SubDiff(d).raw as int + d.raw as int) && t1.SubDiff(d).Add(d) == t1
    ensures FitsI32(t2.raw as int + t1.Sub(t2).raw as int) && t2.Add(t1.Sub(t2)) == t1
  {
  }

  /** `(d1 + d2) - d2 == d1` */
  lemma DifferenceAddThenSubtract<D>(d1: TimestampDifference<D>, d2: TimestampDifference<D>)
    requires FitsI32(d1.raw as int + d2.raw as int)
    ensures FitsI32(d1.Add(d2).raw as int - d2.raw as int) && d1.Add(d2).Sub(d2) == d1
  {
  }

  // ---------------------------------------------------------------------
  // The converter
  // ---------------------------------------------------------------------

  /** `game_to_map` and `map_to_game` are inverse to each other. */
  lemma ConverterRoundTrip(c: TimestampConverter, g: GameTimestamp, m: MapTimestamp)
    ensures c.CanGameToMap(g) ==> c.CanMapToGame(c.GameToMap(g)) && c.MapToGame(c.GameToMap(g)) == g
    ensures c.CanMapToGame(m) ==> c.CanGameToMap(c.MapToGame(m)) && c.GameToMap(c.MapToGame(m)) == m
  {
  }

  /** Differences are copied unchanged whatever the offset, and their round
      trip is the identity. */
  lemma DifferenceConversionIgnoresOffset(c1: TimestampConverter, c2: TimestampConverter,
                                          g: GameTimestampDifference, m: MapTimestampDifference)
    ensures c1.GameToMapDifference(g) == c2.GameToMapDifference(g)
    ensures c1.MapToGameDifference(m) == c2.MapToGameDifference(m)
    ensures c1.MapToGameDifference(c1.GameToMapDifference(g)) == g
    ensures c1.GameToMapDifference(c1.MapToGameDifference(m)) == m
    ensures c1.GameToMapDifference(g).raw == g.raw
  {
  }

  /** `game_to_map` preserves and reflects order. */
  lemma GameToMapMonotonic(c: TimestampConverter, t1: GameTimestamp, t2: GameTimestamp)
    requires c.CanGameToMap(t1) && c.CanGameToMap(t2)
    ensures t1.Le(t2) <==> c.GameToMap(t1).Le(c.GameToMap(t2))
    ensures t1.Lt(t2) <==> c.GameToMap(t1).Lt(c.GameToMap(t2))
  {
  }

  /** Converting two times and subtracting them gives the converted difference:
      the offset cancels. */
  lemma GameToMapCommutesWithSub(c: TimestampConverter, t1: GameTimestamp, t2: GameTimestamp)
    requires c.CanGameToMap(t1) && c.CanGameToMap(t2)
    requires FitsI32(t1.raw as int - t2.raw as int)
    ensures FitsI32(c.GameToMap(t1).raw as int - c.GameToMap(t2).raw as int)
    ensures c.GameToMap(t1).Sub(c.GameToMap(t2)) == c.GameToMapDifference(t1.Sub(t2))
  {
  }
}
