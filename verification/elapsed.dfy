/** The elapsed-time read-out of the completion screen: `getElapsedTime`
    (src/App.jsx, lines 48-54) splits a millisecond duration into whole
    minutes and leftover whole seconds. */
module Elapsed {
  import opened Wrappers

  const MsPerMinute: int := 60000
  const MsPerSecond: int := 1000

  /** Minutes and seconds as the read-out prints them ("2분 5초"). */
  datatype Elapsed = Elapsed(minutes: int, seconds: int)

  /** `Math.floor(a / m)`: exact division followed by rounding toward minus
      infinity. */
  function FloorDiv(a: int, m: int): int
    requires m > 0
  {
    ((a as real) / (m as real)).Floor
  }

  /** JavaScript's `a % m`: the remainder carries the sign of the dividend
      (it truncates toward zero), unlike Dafny's Euclidean `%`. */
  function JsRem(a: int, m: int): (r: int)
    requires m > 0
    ensures a >= 0 ==> 0 <= r < m
    ensures a < 0 ==> -m < r <= 0
    ensures (a - r) % m == 0
  {
    if a >= 0 then
      assert a - a % m == (a / m) * m;
      MultipleModZero(a / m, m);
      a % m
    else
      var q := (-a) / m;
      assert a + (-a) % m == (-q) * m;
      MultipleModZero(-q, m);
      -((-a) % m)
  }

  /** A multiple of m leaves no Euclidean remainder. */
  lemma MultipleModZero(k: int, m: int)
    requires m > 0
    ensures (k * m) % m == 0
  {
    var q, r := (k * m) / m, (k * m) % m;
    assert r == (k - q) * m;
    if k - q >= 1 {
      MultipleAtLeast(k - q, m);
      assert false;
    } else if k - q <= -1 {
      MultipleAtLeast(q - k, m);
      assert false;
    }
  }

  lemma MultipleAtLeast(d: int, m: int)
    requires d >= 1 && m > 0
    ensures d * m >= m
  {
  }

  /** `!endTime` is false exactly for a present, non-zero timestamp: both
      `null` and `0` are falsy in JavaScript. */
  predicate IsSet(endTime: Option<int>) {
    endTime.Some? && endTime.value != 0
  }

  /** What the read-out promises for a duration that is not negative: whole
      seconds below a minute, and the duration lies in the second the pair
      names. */
  predicate Decomposes(e: Elapsed, d: int) {
    0 <= e.minutes && 0 <= e.seconds < 60
    && e.minutes * MsPerMinute + e.seconds * MsPerSecond <= d
    && d < e.minutes * MsPerMinute + (e.seconds + 1) * MsPerSecond
  }

  /** `getElapsedTime`: nothing while the end time is unset, otherwise the
      floored minutes of the duration and the floored seconds of what is
      left of the last minute. */
  function ElapsedTime(startTime: int, endTime: Option<int>): (r: Option<Elapsed>)
    ensures r.Some? <==> IsSet(endTime)
    ensures r.Some? && endTime.value >= startTime ==> Decomposes(r.value, endTime.value - startTime)
  {
    if !IsSet(endTime) then None
    else
      var duration := endTime.value - startTime;
      var e := Elapsed(FloorDiv(duration, MsPerMinute), FloorDiv(JsRem(duration, MsPerMinute), MsPerSecond));
      DurationDecomposes(duration);
      Some(e)
  }

  /** For a positive divisor, flooring the exact quotient is Dafny's own
      (Euclidean) integer division. */
  lemma FloorDivIsDiv(a: int, m: int)
    requires m > 0
    ensures FloorDiv(a, m) == a / m
  {
    var q, r := a / m, a % m;
    assert a == q * m + r;
    assert (a as real) / (m as real) == (q as real) + (r as real) / (m as real);
    assert 0.0 <= (r as real) / (m as real) < 1.0;
  }

  /** The minutes/seconds pair of a non-negative duration satisfies Decomposes. */
  lemma DurationDecomposes(d: int)
    ensures d >= 0 ==> Decomposes(Elapsed(FloorDiv(d, MsPerMinute), FloorDiv(JsRem(d, MsPerMinute), MsPerSecond)), d)
  {
    if d >= 0 {
      FloorDivIsDiv(d, MsPerMinute);
      var rem := JsRem(d, MsPerMinute);
      FloorDivIsDiv(rem, MsPerSecond);
      var m, s := d / MsPerMinute, rem / MsPerSecond;
      assert d == m * MsPerMinute + rem;
      assert rem == s * MsPerSecond + rem % MsPerSecond;
    }
  }

  /** Decomposes pins the pair down: at most one pair describes a duration,
      so the read-out is the only correct one. */
  lemma DecompositionUnique(e1: Elapsed, e2: Elapsed, d: int)
    requires Decomposes(e1, d) && Decomposes(e2, d)
    ensures e1 == e2
  {
    var t1 := e1.minutes * 60 + e1.seconds;
    var t2 := e2.minutes * 60 + e2.seconds;
    assert t1 * 1000 <= d < (t1 + 1) * 1000;
    assert t2 * 1000 <= d < (t2 + 1) * 1000;
    assert t1 == t2;
  }

  /** A run of 125000 ms reads "2 minutes 5 seconds". */
  lemma TwoMinutesFiveSeconds()
    ensures ElapsedTime(0, Some(125000)) == Some(Elapsed(2, 5))
  {
    var r := ElapsedTime(0, Some(125000));
    DecompositionUnique(r.value, Elapsed(2, 5), 125000);
  }

  /** A clock that went backwards gives a negative minute count and a
      seconds figure between -60 and 0, since JavaScript's `%` keeps the
      sign of the duration. */
  lemma NegativeDuration(startTime: int, endTime: int)
    requires endTime != 0 && endTime < startTime
    ensures var r := ElapsedTime(startTime, Some(endTime));
      r.Some? && r.value.minutes < 0 && -60 <= r.value.seconds <= 0
  {
    var d := endTime - startTime;
    FloorDivIsDiv(d, MsPerMinute);
    FloorDivIsDiv(JsRem(d, MsPerMinute), MsPerSecond);
  }
}
