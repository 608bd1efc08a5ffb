/** Canonical persisted bar intervals and bucket alignment. */
module Timeframes {

  const MICROS_PER_SECOND := 1_000_000

  /** The four persisted intervals: 1m, 5m, 15m and 60m. */
  datatype Timeframe = OneMinute | FiveMinutes | FifteenMinutes | OneHour {
    function Seconds(): int {
      match this
      case OneMinute => 60
      case FiveMinutes => 300
      case FifteenMinutes => 900
      case OneHour => 3600
    }

    /** One bar slot in microseconds. */
    function Slot(): (r: int)
      ensures r >= 60 * MICROS_PER_SECOND
    {
      match this
      case OneMinute => 60_000_000
      case FiveMinutes => 300_000_000
      case FifteenMinutes => 900_000_000
      case OneHour => 3_600_000_000
    }

    /** A whole second that is a multiple of the interval. */
    predicate Aligned(t: int) {
      t % MICROS_PER_SECOND == 0 && (t / MICROS_PER_SECOND) % Seconds() == 0
    }
  }

  lemma ProductGrows(x: int, k: int)
    requires x > 0
    ensures k >= 1 ==> x * k >= x
    ensures k <= -1 ==> x * k <= -x
  {
  }

  lemma DivisionIsUnique(x: int, q: int, r: int)
    requires 0 <= r < x
    ensures (x * q + r) / x == q && (x * q + r) % x == r
  {
    var a := x * q + r;
    var d := q - a / x;
    assert a == x * (a / x) + a % x;
    assert x * d == x * q - x * (a / x);
    ProductGrows(x, d);
  }

  lemma Multiples(x: int, k: int)
    requires x > 0
    ensures (x * k) % x == 0 && (x * k) / x == k
  {
    DivisionIsUnique(x, k, 0);
  }

  lemma AlignedIsSlotMultiple(timeframe: Timeframe, t: int)
    ensures timeframe.Aligned(t) <==> t % timeframe.Slot() == 0
  {
    var m, s, u := MICROS_PER_SECOND, timeframe.Seconds(), timeframe.Slot();
    assert u == m * s;
    if timeframe.Aligned(t) {
      var k := (t / m) / s;
      assert t == m * (s * k);
      assert m * (s * k) == u * k;
      Multiples(u, k);
    }
    if t % u == 0 {
      var k := t / u;
      assert t == u * k == m * (s * k);
      Multiples(m, s * k);
      Multiples(s, k);
    }
  }

  lemma MultiplesDiffer(u: int, a: int, b: int)
    requires u > 0 && a % u == 0
    ensures b % u == 0 <==> (b - a) % u == 0
  {
    var k := a / u;
    assert a == u * k;
    if b % u == 0 {
      assert b - a == u * (b / u) - u * k == u * (b / u - k);
      Multiples(u, b / u - k);
    }
    if (b - a) % u == 0 {
      var d := (b - a) / u;
      assert b == u * k + u * d == u * (k + d);
      Multiples(u, k + d);
    }
  }

  /** Aligned instants are whole slots apart, and stepping whole slots keeps alignment. */
  lemma AlignedDistance(timeframe: Timeframe, a: int, b: int)
    requires timeframe.Aligned(a)
    ensures timeframe.Aligned(b) <==> (b - a) % timeframe.Slot() == 0
  {
    AlignedIsSlotMultiple(timeframe, a);
    AlignedIsSlotMultiple(timeframe, b);
    MultiplesDiffer(timeframe.Slot(), a, b);
  }
}
