/** Time arithmetic: seconds and microseconds, saturation at INT_MAX, and the alignment of instants to the
    mem-server period in local time. */
module Times {

  datatype Time = Time(sec: int, usec: int)

  const TIMEMAX := 2147483647
  const MILLION := 1000000

  ghost predicate ValidTime(t: Time) {
    0 <= t.usec < MILLION
  }

  ghost predicate NotAfter(a: Time, b: Time) {
    a.sec < b.sec || (a.sec == b.sec && a.usec <= b.usec)
  }

  /** timeval_delta_nonnegative */
  function Delta(a: Time, b: Time): Time {
    var borrow := a.usec < b.usec;
    var sec := (if borrow then a.sec - 1 else a.sec) - b.sec;
    var usec := if borrow then MILLION - b.usec + a.usec else a.usec - b.usec;
    if sec < 0 then Time(0, 0) else Time(sec, usec)
  }

  /** timeval_someTimeLater, for a `now` that is not the epoch. */
  function Later(nsec: int, now: Time): Time {
    if nsec > 0 && now.sec > TIMEMAX - nsec then now.(sec := TIMEMAX) else now.(sec := now.sec + nsec)
  }

  /** The main loop's test for a timeout that has come. */
  predicate Due(timeout: Time, now: Time) {
    Delta(timeout, now) == Time(0, 0)
  }

  lemma DueIffNotAfter(timeout: Time, now: Time)
    requires ValidTime(timeout) && ValidTime(now)
    ensures Due(timeout, now) <==> NotAfter(timeout, now)
  {
  }

  /** select's wait is exactly the time that is left. */
  lemma DeltaIsRemainder(a: Time, b: Time)
    requires ValidTime(a) && ValidTime(b) && NotAfter(b, a)
    ensures ValidTime(Delta(a, b)) && (Delta(a, b) == Time(0, 0) <==> a == b)
    ensures a.sec * MILLION + a.usec == b.sec * MILLION + b.usec + Delta(a, b).sec * MILLION + Delta(a, b).usec
  {
  }

  function Earlier(a: int, b: int): int { if a <= b then a else b }

  /** A time that many seconds later, to the microsecond; or at INT_MAX, with the clock's microseconds. */
  lemma LaterExactly(nsec: int, now: Time)
    requires 0 <= nsec && now.sec <= 2147483647
    ensures Later(nsec, now) == Time(Earlier(now.sec + nsec, 2147483647), now.usec)
  {
  }

  /** A timeout set for later is not due now exactly until the clock reaches INT_MAX; and as long as the seconds can be
      represented it is due at that many seconds from now, and at no time before. */
  lemma LaterNotDue(nsec: int, now: Time)
    requires ValidTime(now) && nsec > 0
    ensures !Due(Later(nsec, now), now) <==> now.sec < TIMEMAX
    ensures now.sec + nsec <= TIMEMAX ==>
              forall t: Time :: ValidTime(t) ==>
                (Due(Later(nsec, now), t) <==> now.sec + nsec < t.sec || (now.sec + nsec == t.sec && now.usec <= t.usec))
  {
    if now.sec + nsec <= TIMEMAX {
      LaterExactly(nsec, now);
      forall t: Time | ValidTime(t)
        ensures Due(Later(nsec, now), t) <==> now.sec + nsec < t.sec || (now.sec + nsec == t.sec && now.usec <= t.usec)
      {
        DueIffNotAfter(Later(nsec, now), t);
      }
    }
  }

  // ----- instants

  /** C's % */
  function CMod(a: int, b: int): int
    requires b > 0
  {
    if a >= 0 then a % b else -((-a) % b)
  }

  /** timeval_getRecentInstanceId: `off` is timediff_local_utc(), and now == 0 means: read the clock. */
  function Instant(age: int, now: int, off: int, clock: int): int
    requires age > 0
  {
    var t := (if now == 0 then clock else now) + off;
    t - CMod(t, age * 60) - off
  }

  ghost predicate Aligned(t: int, off: int, p: int)
    requires p > 0
  {
    (t + off) % p == 0
  }

  lemma ModShift(a: int, b: int, p: int)
    requires p > 0
    ensures (a - a % p) % p == 0
    ensures a % p == 0 && b % p == 0 ==> (a + b) % p == 0 && (a - b) % p == 0
  {
    var q := a / p;
    assert a - a % p == q * p;
    MulMod(q, p);
    if a % p == 0 && b % p == 0 {
      assert a == (a / p) * p && b == (b / p) * p;
      assert a + b == (a / p + b / p) * p;
      assert a - b == (a / p - b / p) * p;
      MulMod(a / p + b / p, p);
      MulMod(a / p - b / p, p);
    }
  }

  lemma MulMod(q: int, p: int)
    requires p > 0
    ensures (q * p) % p == 0
  {
    var k := q - (q * p) / p;
    assert k * p == (q * p) % p;
    SmallMultiple(k, p);
  }

  lemma SmallMultiple(k: int, p: int)
    requires -p < k * p < p
    ensures k == 0
  {
    assert k > 0 ==> k * p >= p;
    assert k < 0 ==> k * p <= -p;
  }

  /** The result is always aligned.  It lies in (t - p, t], where it is the only aligned instant, exactly when
      local time is not before the epoch or t is aligned itself; otherwise C's % sends it to the next one. */
  lemma InstantIsRecent(age: int, now: int, off: int, clock: int)
    requires age > 0
    ensures var p, t, r := age * 60, if now == 0 then clock else now, Instant(age, now, off, clock);
            && Aligned(r, off, p)
            && ((t - p < r <= t) <==> t + off >= 0 || Aligned(t, off, p))
            && (t + off < 0 ==> t <= r < t + p)
  {
    var p, t := age * 60, (if now == 0 then clock else now) + off;
    if t >= 0 {
      ModShift(t, 0, p);
    } else {
      ModShift(-t, 0, p);
      ModShift(0, -t - (-t) % p, p);
      assert (t % p == 0) <==> ((-t) % p == 0) by {
        if (-t) % p == 0 { ModShift(0, -t, p); }
        if t % p == 0 { ModShift(0, t, p); }
      }
    }
  }

  lemma AlignedUnique(a: int, b: int, t: int, off: int, p: int)
    requires p > 0 && Aligned(a, off, p) && Aligned(b, off, p)
    requires t - p < a <= t && t - p < b <= t
    ensures a == b
  {
    var k := (a + off) / p - (b + off) / p;
    assert k * p == a - b;
    SmallMultiple(k, p);
  }

  /** Aligned instants are the fixed points, except that 0 stands for the clock. */
  lemma InstantFixed(age: int, t: int, off: int, clock: int)
    requires age > 0 && t != 0
    ensures Instant(age, t, off, clock) == t <==> Aligned(t, off, age * 60)
  {
    var p := age * 60;
    if t + off < 0 {
      if (-(t + off)) % p == 0 { ModShift(0, -(t + off), p); }
      if (t + off) % p == 0 { ModShift(0, t + off, p); }
    }
  }

  /** Taking the recent instant twice is taking it once, except that 0 stands for the clock: then it depends on what the
      clock says at the second time. */
  lemma InstantIdempotent(age: int, now: int, off: int, clock: int, clock': int)
    requires age > 0
    ensures var r := Instant(age, now, off, clock);
            Instant(age, r, off, clock') == r <==> r != 0 || Instant(age, clock', off, clock') == 0
  {
    InstantIsRecent(age, now, off, clock);
    var r := Instant(age, now, off, clock);
    if r != 0 {
      InstantFixed(age, r, off, clock');
    }
  }

  /** The id of the k-th mem-server of a creator that started with id0. */
  function CreatorId(id0: int, age: int, k: nat): int {
    if k == 0 then id0 else CreatorId(id0, age, k - 1) + age * 60
  }

  /** Every id a creator hands out is aligned, so the instant that a mem-server's name is formatted from is its
      own id, unless that is 0, which stands for the clock; and ids strictly increase. */
  lemma {:induction false} CreatorIdsAligned(age: int, start: int, off: int, clock: int, k: nat, clock': int)
    requires age > 0
    ensures var id0 := Instant(age, start, off, clock);
            var id := CreatorId(id0, age, k);
            && Aligned(id, off, age * 60)
            && (Instant(age, id, off, clock') == id <==> id != 0 || Instant(age, clock', off, clock') == 0)
            && (k > 0 ==> CreatorId(id0, age, k - 1) < id)
  {
    var id0 := Instant(age, start, off, clock);
    if k == 0 {
      InstantIsRecent(age, start, off, clock);
    } else {
      CreatorIdsAligned(age, start, off, clock, k - 1, clock');
      MulMod(1, age * 60);
      ModShift(CreatorId(id0, age, k - 1) + off, age * 60, age * 60);
    }
    if CreatorId(id0, age, k) != 0 {
      InstantFixed(age, CreatorId(id0, age, k), off, clock');
    }
  }
}
