/** The countdown's unit conversion (src/components/CountdownTimer.tsx,
    lines 16-30): a millisecond difference split into days, hours, minutes
    and seconds, all zero once the difference is no longer positive. */
module Countdown {

  /** The unit sizes the source writes as `1000`, `1000 * 60`,
      `1000 * 60 * 60` and `1000 * 60 * 60 * 24`. */
  const MsPerSecond: int := 1000
  const MsPerMinute: int := 60000
  const MsPerHour: int := 3600000
  const MsPerDay: int := 86400000

  /** The `timeLeft` state. */
  datatype TimeLeft = TimeLeft(days: int, hours: int, minutes: int, seconds: int)

  const Zero := TimeLeft(0, 0, 0, 0)

  /** `Math.floor(a / b)` for a positive divisor. */
  function FloorDiv(a: int, b: int): (q: int)
    requires b > 0
    ensures q * b <= a < q * b + b
  {
    a / b
  }

  /** The quotient `a / b` rounded toward zero, as JavaScript's `%` uses it. */
  function TruncDiv(a: int, b: int): (q: int)
    requires b > 0
    ensures a >= 0 ==> q == a / b
    ensures a < 0 ==> q <= 0
  {
    if a >= 0 then a / b else -((-a) / b)
  }

  /** JavaScript's `a % b`: what is left of `a` after taking away the
      truncated quotient's multiple of `b`, so the remainder has the sign of
      the dividend. */
  function JsRem(a: int, b: int): (r: int)
    requires b > 0
    ensures a == TruncDiv(a, b) * b + r
    ensures a >= 0 ==> 0 <= r < b
    ensures a < 0 ==> -b < r <= 0
    ensures a >= 0 ==> r == a % b
  {
    if a >= 0 then a % b else -((-a) % b)
  }

  /** The remainder's size does not depend on the dividend's sign, as in
      JavaScript: `-5 % 3` is `-2`, the negation of `5 % 3`. */
  lemma JsRemNegate(a: int, b: int)
    requires b > 0
    ensures JsRem(-a, b) == -JsRem(a, b)
    ensures JsRem(-5, 3) == -2
  {
  }

  /** The fields are in range: hours below 24, minutes and seconds below 60. */
  predicate InRange(t: TimeLeft) {
    t.days >= 0 && 0 <= t.hours < 24 && 0 <= t.minutes < 60 && 0 <= t.seconds < 60
  }

  /** The milliseconds a `TimeLeft` stands for. */
  function Total(t: TimeLeft): int {
    t.days * MsPerDay + t.hours * MsPerHour + t.minutes * MsPerMinute + t.seconds * MsPerSecond
  }

  /** Lines 18-30: the difference in whole days, then the hours, minutes and
      seconds left over; zero everywhere once the target is reached. Up to
      the milliseconds dropped, the fields add back up to the difference. */
  function Decompose(difference: int): (t: TimeLeft)
    ensures difference <= 0 ==> t == Zero
    ensures difference > 0 ==> InRange(t)
    ensures difference > 0 ==> Total(t) <= difference < Total(t) + MsPerSecond
  {
    if difference > 0 then
      var days := FloorDiv(difference, MsPerDay);
      var hours := FloorDiv(JsRem(difference, MsPerDay), MsPerHour);
      var minutes := FloorDiv(JsRem(difference, MsPerHour), MsPerMinute);
      var seconds := FloorDiv(JsRem(difference, MsPerMinute), MsPerSecond);
      DecomposeSums(difference);
      TimeLeft(days, hours, minutes, seconds)
    else
      Zero
  }

  /** `k` whole units of `b` are at least one unit. */
  lemma {:induction false} MulAtLeast(k: int, b: int)
    requires k >= 1 && b > 0
    ensures k * b >= b
    decreases k
  {
    if k > 1 {
      MulAtLeast(k - 1, b);
      assert k * b == (k - 1) * b + b;
    }
  }

  /** Quotients that differ put their multiples at least a unit apart. */
  lemma MulGap(q: int, q0: int, b: int)
    requires q > q0 && b > 0
    ensures q * b - q0 * b >= b
  {
    MulAtLeast(q - q0, b);
    assert (q - q0) * b == q * b - q0 * b;
  }

  /** A remainder is determined by any quotient-remainder split. */
  lemma ModUnique(d: int, q: int, r: int, b: int)
    requires b > 0 && d == q * b + r && 0 <= r < b
    ensures d % b == r
  {
    var q0 := d / b;
    if q > q0 {
      MulGap(q, q0, b);
      assert false;
    } else if q < q0 {
      MulGap(q0, q, b);
      assert false;
    }
  }

  /** Taking the remainder by a larger unit first does not change the
      remainder by a smaller unit that divides it. */
  lemma NestedRems(d: int)
    requires d > 0
    ensures (d % MsPerDay) % MsPerHour == d % MsPerHour
    ensures (d % MsPerHour) % MsPerMinute == d % MsPerMinute
    ensures (d % MsPerMinute) % MsPerSecond == d % MsPerSecond
  {
    var days, r1 := d / MsPerDay, d % MsPerDay;
    var hours, r2 := r1 / MsPerHour, r1 % MsPerHour;
    var minutes, r3 := r2 / MsPerMinute, r2 % MsPerMinute;
    var seconds, r4 := r3 / MsPerSecond, r3 % MsPerSecond;
    ModUnique(d, 24 * days + hours, r2, MsPerHour);
    ModUnique(d, 1440 * days + 60 * hours + minutes, r3, MsPerMinute);
    ModUnique(d, 86400 * days + 3600 * hours + 60 * minutes + seconds, r4, MsPerSecond);
  }

  /** The arithmetic behind `Decompose`'s reconstruction. */
  lemma DecomposeSums(d: int)
    requires d > 0
    ensures var days := d / MsPerDay;
            var hours := (d % MsPerDay) / MsPerHour;
            var minutes := (d % MsPerHour) / MsPerMinute;
            var seconds := (d % MsPerMinute) / MsPerSecond;
            && 0 <= hours < 24 && 0 <= minutes < 60 && 0 <= seconds < 60
            && days * MsPerDay + hours * MsPerHour + minutes * MsPerMinute + seconds * MsPerSecond
               <= d < days * MsPerDay + hours * MsPerHour + minutes * MsPerMinute + seconds * MsPerSecond + MsPerSecond
  {
    NestedRems(d);
    var r1 := d % MsPerDay;
    var r2 := d % MsPerHour;
    var r3 := d % MsPerMinute;
    var r4 := d % MsPerSecond;
    assert d == (d / MsPerDay) * MsPerDay + r1;
    assert r1 == (r1 / MsPerHour) * MsPerHour + r2;
    assert r2 == (r2 / MsPerMinute) * MsPerMinute + r3;
    assert r3 == (r3 / MsPerSecond) * MsPerSecond + r4;
  }

  /** The decomposition is the only in-range tuple that adds back up to the
      difference to within a second. */
  lemma DecomposeUnique(difference: int, t: TimeLeft)
    requires difference > 0
    requires InRange(t)
    requires Total(t) <= difference < Total(t) + MsPerSecond
    ensures Decompose(difference) == t
  {
    var rest := t.hours * MsPerHour + t.minutes * MsPerMinute + t.seconds * MsPerSecond;
    var r1 := difference % MsPerDay;
    var r2 := difference % MsPerHour;
    var r3 := difference % MsPerMinute;
    assert difference / MsPerDay == t.days && r1 == difference - t.days * MsPerDay by {
      assert 0 <= rest <= 86399000;
    }
    assert r1 / MsPerHour == t.hours && r2 == r1 - t.hours * MsPerHour by {
      NestedRems(difference);
    }
    assert r2 / MsPerMinute == t.minutes && r3 == r2 - t.minutes * MsPerMinute by {
      NestedRems(difference);
    }
    assert r3 / MsPerSecond == t.seconds;
  }

  /** Round trip: a positive in-range tuple survives being turned into
      milliseconds and decomposed again. */
  lemma DecomposeTotal(t: TimeLeft)
    requires InRange(t) && Total(t) > 0
    ensures Decompose(Total(t)) == t
  {
    DecomposeUnique(Total(t), t);
  }

  /** Lexicographic order on (days, hours, minutes, seconds). */
  predicate LexLe(t1: TimeLeft, t2: TimeLeft) {
    || t1.days < t2.days
    || (t1.days == t2.days && t1.hours < t2.hours)
    || (t1.days == t2.days && t1.hours == t2.hours && t1.minutes < t2.minutes)
    || (t1.days == t2.days && t1.hours == t2.hours && t1.minutes == t2.minutes && t1.seconds <= t2.seconds)
  }

  /** Between in-range tuples, lexicographic order is the order of the
      milliseconds they stand for. */
  lemma LexLeIffTotalLe(t1: TimeLeft, t2: TimeLeft)
    requires InRange(t1) && InRange(t2)
    ensures LexLe(t1, t2) <==> Total(t1) <= Total(t2)
  {
    var rest1 := t1.hours * MsPerHour + t1.minutes * MsPerMinute + t1.seconds * MsPerSecond;
    var rest2 := t2.hours * MsPerHour + t2.minutes * MsPerMinute + t2.seconds * MsPerSecond;
    assert 0 <= rest1 < MsPerDay && 0 <= rest2 < MsPerDay;
    if t1.days < t2.days {
      assert t1.days * MsPerDay + MsPerDay <= t2.days * MsPerDay;
    } else if t1.days > t2.days {
      assert t2.days * MsPerDay + MsPerDay <= t1.days * MsPerDay;
    }
  }

  /** A later target never shows less time left: the decomposition is
      monotone in the lexicographic order. */
  lemma DecomposeMonotone(d1: int, d2: int)
    requires d1 <= d2
    ensures LexLe(Decompose(d1), Decompose(d2))
  {
    var t1, t2 := Decompose(d1), Decompose(d2);
    if d1 > 0 {
      // Both totals are whole seconds, so being within a second of
      // `d1 <= d2` orders them.
      var s1 := t1.days * 86400 + t1.hours * 3600 + t1.minutes * 60 + t1.seconds;
      var s2 := t2.days * 86400 + t2.hours * 3600 + t2.minutes * 60 + t2.seconds;
      assert Total(t1) == 1000 * s1;
      assert Total(t2) == 1000 * s2;
      assert 1000 * s1 < 1000 * s2 + 1000;
      assert s1 <= s2;
      assert Total(t1) <= Total(t2);
      LexLeIffTotalLe(t1, t2);
    }
  }
}
