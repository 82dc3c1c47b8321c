/** Session expiry and the countdown shown while a session is open. The clock
    is an argument `now` (milliseconds); the source re-evaluates these every
    second from a timer. */
module Countdown {

  const MsPerSecond: int := 1000
  const MsPerMinute: int := 60 * MsPerSecond
  const MsPerHour: int := 60 * MsPerMinute

  /** The timer test `expiresAt - now <= 0` (the per-second tick of every
      variant that shows hours, minutes and seconds). */
  predicate TickExpired(expiresAt: int, now: int) {
    expiresAt - now <= 0
  }

  /** The load-time test of the local form, `now > expiresAt`. */
  predicate LoadExpired(expiresAt: int, now: int) {
    now > expiresAt
  }

  /** `expiresAt < now`: the load-time test of the hook, and date-fns
      `isPast` as used by the routed form and the owner's dashboard. */
  predicate IsPast(expiresAt: int, now: int) {
    expiresAt < now
  }

  /** What the countdown label shows. */
  datatype Display = ExpiredLabel | Left(hours: nat, minutes: nat, seconds: nat)

  /** The milliseconds a countdown label accounts for. */
  function Millis(hours: int, minutes: int, seconds: int): int {
    hours * MsPerHour + minutes * MsPerMinute + seconds * MsPerSecond
  }

  /** A valid label for `remaining` milliseconds: minutes and seconds below 60,
      and the label is `remaining` rounded down to whole seconds. */
  predicate Represents(d: Display, remaining: int) {
    d.Left? && d.minutes < 60 && d.seconds < 60
    && Millis(d.hours, d.minutes, d.seconds) <= remaining < Millis(d.hours, d.minutes, d.seconds) + MsPerSecond
  }

  /** `Math.floor(remaining / 3600000)`, `Math.floor((remaining % 3600000) / 60000)`
      and `Math.floor((remaining % 60000) / 1000)`; for a positive `remaining`
      JavaScript's truncating `%` and `Math.floor` agree with Euclidean
      division. */
  function Split(remaining: int): (d: Display)
    requires remaining > 0
    ensures Represents(d, remaining)
  {
    var h := remaining / MsPerHour;
    var m := (remaining % MsPerHour) / MsPerMinute;
    var s := (remaining % MsPerMinute) / MsPerSecond;
    SplitReconstructs(remaining, h, m, s);
    Left(h, m, s)
  }

  lemma SplitReconstructs(remaining: int, h: int, m: int, s: int)
    requires remaining > 0
    requires h == remaining / MsPerHour
    requires m == (remaining % MsPerHour) / MsPerMinute
    requires s == (remaining % MsPerMinute) / MsPerSecond
    ensures 0 <= h && 0 <= m < 60 && 0 <= s < 60
    ensures Millis(h, m, s) <= remaining < Millis(h, m, s) + MsPerSecond
  {
    var rh := remaining % MsPerHour;
    assert remaining == h * MsPerHour + rh && 0 <= rh < MsPerHour;
    var rm := rh % MsPerMinute;
    assert rh == m * MsPerMinute + rm && 0 <= rm < MsPerMinute;
    assert 0 <= m < 60 by {
      if m >= 60 {
        MultipleAtLeast(m - 59, MsPerMinute);
      }
    }
    // an hour is sixty minutes, so removing whole hours first does not change
    // the remainder modulo a minute
    assert remaining == (h * 60 + m) * MsPerMinute + rm;
    DivModUnique(remaining, MsPerMinute, h * 60 + m, rm);
    var rs := rm % MsPerSecond;
    assert rm == s * MsPerSecond + rs && 0 <= rs < MsPerSecond;
    assert 0 <= s < 60 by {
      if s >= 60 {
        MultipleAtLeast(s - 59, MsPerSecond);
      }
    }
  }

  /** Euclidean division is determined by quotient and remainder bounds. */
  lemma DivModUnique(n: int, d: int, q: int, r: int)
    requires d > 0 && 0 <= r < d && n == q * d + r
    ensures n / d == q && n % d == r
  {
    var q', r' := n / d, n % d;
    assert n == q' * d + r' && 0 <= r' < d;
    if q > q' {
      MultipleAtLeast(q - q', d);
    } else if q < q' {
      MultipleAtLeast(q' - q, d);
    }
  }

  lemma {:induction false} MultipleAtLeast(k: int, d: int)
    requires k >= 1 && d > 0
    ensures k * d >= d
    decreases k
  {
    if k > 1 {
      MultipleAtLeast(k - 1, d);
      assert k * d == (k - 1) * d + d;
    }
  }

  /** The label is unique: any hours/minutes/seconds triple that represents
      `remaining` is the one `Split` computes. */
  lemma SplitUnique(remaining: int, d: Display)
    requires remaining > 0
    requires Represents(d, remaining)
    ensures Split(remaining) == d
  {
    var h, m, s := d.hours, d.minutes, d.seconds;
    var e := remaining - Millis(h, m, s);
    var inSecond := s * MsPerSecond + e;
    var inHour := m * MsPerMinute + inSecond;
    assert 0 <= inSecond < MsPerMinute;
    assert 0 <= inHour < MsPerHour;
    DivModUnique(remaining, MsPerHour, h, inHour);
    DivModUnique(inHour, MsPerMinute, m, inSecond);
    DivModUnique(remaining, MsPerMinute, h * 60 + m, inSecond);
    DivModUnique(inSecond, MsPerSecond, s, e);
  }

  /** One tick of a countdown label: "Expired" once `expiresAt - now <= 0`,
      otherwise the hours, minutes and seconds left. */
  function Tick(expiresAt: int, now: int): (d: Display)
    ensures d.ExpiredLabel? <==> now >= expiresAt
    ensures d.Left? ==> Represents(d, expiresAt - now)
  {
    var remaining := expiresAt - now;
    if remaining <= 0 then ExpiredLabel else Split(remaining)
  }

  /** Once expired, expired for every later instant (all three tests). */
  lemma ExpiryMonotone(expiresAt: int, now: int, later: int)
    requires now <= later
    ensures TickExpired(expiresAt, now) ==> TickExpired(expiresAt, later)
    ensures LoadExpired(expiresAt, now) ==> LoadExpired(expiresAt, later)
    ensures IsPast(expiresAt, now) ==> IsPast(expiresAt, later)
    ensures Tick(expiresAt, now).ExpiredLabel? ==> Tick(expiresAt, later).ExpiredLabel?
  {
  }

  /** The load-time tests are strict and the tick is not: they disagree exactly
      at the instant `now == expiresAt`, where the tick already says expired. */
  lemma LoadAndTickDisagreeOnlyAtExpiry(expiresAt: int, now: int)
    ensures LoadExpired(expiresAt, now) == IsPast(expiresAt, now)
    ensures LoadExpired(expiresAt, now) != TickExpired(expiresAt, now) <==> now == expiresAt
    ensures LoadExpired(expiresAt, now) ==> TickExpired(expiresAt, now)
  {
  }

  /** A session lasting one minute from `t0` is still open at `t0 + 59999`
      and expired at `t0 + 60000` by the tick. */
  lemma OneMinuteSession(t0: int)
    ensures !TickExpired(t0 + 60000, t0 + 59999)
    ensures TickExpired(t0 + 60000, t0 + 60000)
    ensures Tick(t0 + 60000, t0 + 59999) == Left(0, 0, 0)
    ensures Tick(t0 + 60000, t0 + 1) == Left(0, 0, 59)
  {
    SplitUnique(1, Left(0, 0, 0));
    SplitUnique(59999, Left(0, 0, 59));
  }
}
