/** The clients' conversions of durations into the integers that the SQL functions take. */
module Durations {

  const I32_MIN: int := -0x8000_0000
  const I32_MAX: int := 0x7fff_ffff
  const I64_MIN: int := -0x8000_0000_0000_0000
  const I64_MAX: int := 0x7fff_ffff_ffff_ffff
  const U64_MAX: int := 0xffff_ffff_ffff_ffff
  const NANOS: int := 1_000_000_000

  function Clamp(x: int, low: int, high: int): int {
    if x < low then low else if x > high then high else x
  }

  /** Integer division that truncates towards zero. */
  function Truncated(n: int, d: int): int
    requires d > 0
  {
    if n >= 0 then n / d else -((-n) / d)
  }

  // ----- std::time::Duration: u64 seconds and nanoseconds below one second -----

  datatype Std = Std(secs: nat, nanos: nat)

  ghost predicate ValidStd(d: Std) { d.secs <= U64_MAX && d.nanos < NANOS }

  function TotalNanos(d: Std): int { d.secs * NANOS + d.nanos }

  /** `VisibilityTimeoutOffset::from(std::time::Duration)` and `poll_timeout_secs`. */
  function StdSeconds(d: Std): int {
    var secs := if d.nanos > 0 then Clamp(d.secs + 1, 0, U64_MAX) else d.secs;
    if secs <= I32_MAX then secs else I32_MAX
  }

  /** `duration_as_ms_i32`: `as_millis` truncates. */
  function StdMillis(d: Std): int {
    var ms := TotalNanos(d) / 1_000_000;
    if ms <= I32_MAX then ms else I32_MAX
  }

  /** Rounded up to the whole second, never shorter, unless clamped; a non-zero duration is at least
      one second. */
  lemma StdRoundsUp(d: Std)
    requires ValidStd(d)
    ensures var r := StdSeconds(d);
            && 0 <= r <= I32_MAX
            && (r < I32_MAX ==> TotalNanos(d) <= r * NANOS < TotalNanos(d) + NANOS)
            && (r == I32_MAX <==> (I32_MAX - 1) * NANOS < TotalNanos(d))
            && (TotalNanos(d) > 0 ==> r >= 1)
  {
  }

  /** Truncated to whole milliseconds unless clamped. */
  lemma StdMillisTruncates(d: Std)
    requires ValidStd(d)
    ensures var r := StdMillis(d);
            && 0 <= r <= I32_MAX
            && (r < I32_MAX ==> r * 1_000_000 <= TotalNanos(d) < (r + 1) * 1_000_000)
            && (r == I32_MAX <==> I32_MAX * 1_000_000 <= TotalNanos(d))
  {
  }

  lemma StdMonotone(a: Std, b: Std)
    requires ValidStd(a) && ValidStd(b) && TotalNanos(a) <= TotalNanos(b)
    ensures StdSeconds(a) <= StdSeconds(b) && StdMillis(a) <= StdMillis(b)
  {
  }

  // ----- chrono::Duration: a signed number of nanoseconds -----

  ghost predicate ValidChrono(nanos: int) {
    -I64_MAX * 1_000_000 <= nanos <= I64_MAX * 1_000_000
  }

  function Saturated(x: int): int { Clamp(x, I64_MIN, I64_MAX) }

  function ChronoMillis(nanos: int): int { Truncated(nanos, 1_000_000) }

  /** `VisibilityTimeoutOffset::from(chrono::Duration)`. */
  function ChronoSeconds(nanos: int): int {
    var secs := Truncated(nanos, NANOS);
    var extra := Saturated(ChronoMillis(nanos) - Saturated(secs * 1000));
    var bump := if extra > 0 then 1 else if extra < 0 then -1 else 0;
    Clamp(Saturated(secs + bump), I32_MIN, I32_MAX)
  }

  function Abs(x: int): nat { if x < 0 then -x else x }

  /** The millisecond count rounded away from zero to whole seconds, or the nearer bound when it is out
      of range. */
  lemma ChronoRoundsAway(nanos: int)
    requires ValidChrono(nanos)
    ensures var ms, r := ChronoMillis(nanos), ChronoSeconds(nanos);
            && I32_MIN <= r <= I32_MAX
            && (ms == 0 ==> r == 0) && (ms > 0 ==> r > 0) && (ms < 0 ==> r < 0)
            && (I32_MIN * 1000 <= ms <= I32_MAX * 1000 ==> Abs(ms) <= Abs(r) * 1000 < Abs(ms) + 1000)
            && (ms > I32_MAX * 1000 ==> r == I32_MAX) && (ms < I32_MIN * 1000 ==> r == I32_MIN)
  {
    ChronoSplit(nanos);
  }

  /** Seconds and the sub-second milliseconds of a duration. */
  lemma ChronoSplit(nanos: int)
    ensures var secs, ms := Truncated(nanos, NANOS), ChronoMillis(nanos);
            if nanos >= 0 then 0 <= ms - secs * 1000 < 1000 else -1000 < ms - secs * 1000 <= 0
  {
    var n := Abs(nanos);
    assert n / NANOS == (n / 1_000_000) / 1000;
  }

  lemma ChronoMonotone(a: int, b: int)
    requires ValidChrono(a) && ValidChrono(b) && a <= b
    ensures ChronoSeconds(a) <= ChronoSeconds(b)
  {
    ChronoRoundsAway(a);
    ChronoRoundsAway(b);
    ChronoSplit(a);
    ChronoSplit(b);
    assert ChronoMillis(a) <= ChronoMillis(b);
  }

  /** The conversion promises to wait at least as long as asked. It keeps the promise exactly when the
      duration is within the range and is not a whole number of seconds and less than a millisecond
      more, for it sees whole milliseconds only. */
  lemma ChronoNeverShorterIff(nanos: int)
    requires ValidChrono(nanos)
    ensures Abs(ChronoSeconds(nanos)) * NANOS >= Abs(nanos)
       <==> I32_MIN * NANOS <= nanos <= I32_MAX * NANOS
            && (Abs(nanos) % NANOS == 0 || Abs(nanos) % NANOS >= 1_000_000)
  {
    ChronoSplit(nanos);
  }

  /** Half a millisecond becomes no wait at all. */
  lemma HalfMillisecondIsDropped()
    ensures ChronoSeconds(500_000) == 0
  {
  }
}
