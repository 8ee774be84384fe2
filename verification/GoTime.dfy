/**
 Go's 64-bit integers and times. A time is a 64-bit count of seconds since year 1 and nanoseconds, so
 adding days to it wraps around after 2^64 seconds; a duration is a 64-bit count of nanoseconds.
 */
module GoTime {
  import opened Civil

  const TWO_63: int := 0x8000_0000_0000_0000
  const TWO_64: int := 0x1_0000_0000_0000_0000

  /** The value an integer computation leaves in a Go int. */
  function Wrapped(n: int): (w: int)
    ensures -TWO_63 <= w < TWO_63
    ensures -TWO_63 <= n < TWO_63 ==> w == n
  {
    (n + TWO_63) % TWO_64 - TWO_63
  }

  lemma WrapsOnce(n: int)
    requires TWO_63 <= n < TWO_63 + TWO_64
    ensures Wrapped(n) == n - TWO_64
  {
    assert (n + TWO_63) / TWO_64 == 1;
  }

  /** Half the nanoseconds a time can tell apart, and all of them. */
  const HALF: int := 0x8000_0000_0000_0000 * 1_000_000_000
  const WHOLE: int := 0x1_0000_0000_0000_0000 * 1_000_000_000

  /** The instant a time shows when its seconds should be those of t. */
  function Settled(t: Instant): (r: Instant)
    ensures -HALF <= r.Ticks() < HALF
  {
    Add(t, (t.Ticks() + HALF) % WHOLE - HALF - t.Ticks())
  }

  /** t.AddDate(0, 0, n). */
  function AddDays64(t: Instant, n: int): Instant { Settled(Moment(t.day + n, t.clock)) }

  /** Days this near year 1 lie, with the months around them, within a time's range. */
  const REACH: int := 106_751_991_167_000

  predicate InReach(day: int) { -REACH <= day <= REACH }

  lemma SettledInReach(t: Instant)
    requires InReach(t.day)
    ensures Settled(t) == t
  {
    assert -HALF <= t.Ticks() < HALF;
    assert (t.Ticks() + HALF) % WHOLE == t.Ticks() + HALF;
    SameTicks(Settled(t), t);
  }

  lemma SameTicks(a: Instant, b: Instant)
    requires a.Ticks() == b.Ticks()
    ensures a == b
  {
  }

  /** Instants a multiple of 2^64 seconds apart settle alike. */
  lemma SettledAlike(a: Instant, b: Instant, k: int)
    requires a.Ticks() == b.Ticks() + k * WHOLE
    ensures Settled(a) == Settled(b)
  {
    assert (b.Ticks() + HALF + k * WHOLE) % WHOLE == (b.Ticks() + HALF) % WHOLE by { ModShift(b.Ticks() + HALF, k); }
    SameTicks(Settled(a), Settled(b));
  }

  lemma ModShift(x: int, k: int)
    ensures (x + k * WHOLE) % WHOLE == x % WHOLE
  {
    var q := x / WHOLE;
    assert x == q * WHOLE + x % WHOLE;
    assert x + k * WHOLE == (q + k) * WHOLE + x % WHOLE;
  }

  lemma SettledShift(t: Instant) returns (k: int)
    ensures Settled(t).Ticks() == t.Ticks() - k * WHOLE
  {
    k := (t.Ticks() + HALF) / WHOLE;
  }

  /** Adding days twice is adding their sum, wrapping included. */
  lemma AddDays64Twice(t: Instant, m: int, n: int)
    ensures AddDays64(AddDays64(t, m), n) == AddDays64(t, m + n)
  {
    hide Settled;
    var s := AddDays64(t, m);
    var k := SettledShift(Moment(t.day + m, t.clock));
    var a, b: Instant := Moment(s.day + n, s.clock), Moment(t.day + (m + n), t.clock);
    assert a.Ticks() == b.Ticks() - k * WHOLE;
    SettledAlike(a, b, -k);
  }

  /** The longest duration. */
  const MAX_DURATION: int := 0x7fff_ffff_ffff_ffff

  /** t.Sub(u): a difference that does not fit is cut to the longest or the shortest duration. */
  function Sub(t: Instant, u: Instant): (d: int)
    ensures -MAX_DURATION - 1 <= d <= MAX_DURATION
    ensures d == t.Sub(u) <==> -MAX_DURATION - 1 <= t.Sub(u) <= MAX_DURATION
  {
    var d := t.Sub(u);
    if d > MAX_DURATION then MAX_DURATION else if d < -MAX_DURATION - 1 then -MAX_DURATION - 1 else d
  }
}
