/**
 Modification times as restore sets them (internal/restore/visitor.go): through
 a number of nanoseconds and a number of microseconds, with integers of 64 bits
 that wrap around and division that truncates toward zero.
 */
module Timevals {
  import opened Times

  function TruncatedQuotient(a: int, b: int): int
    requires b > 0
  {
    if a >= 0 then a / b else -(-a / b)
  }

  function TruncatedRemainder(a: int, b: int): int
    requires b > 0
  {
    a - b * TruncatedQuotient(a, b)
  }

  datatype Timeval = Timeval(sec: int, usec: int)

  const ROUNDING := 999
  const NANOS_PER_MICRO := 1000
  const MICROS_PER_SECOND := 1_000_000

  const INT64_LIMIT := 0x8000_0000_0000_0000

  predicate IsInt64(n: int) {
    -INT64_LIMIT <= n < INT64_LIMIT
  }

  /** What is left of n in an int64. */
  function Wrapped(n: int): (w: int)
    ensures IsInt64(w) && (IsInt64(n) ==> w == n)
  {
    (n + INT64_LIMIT) % (2 * INT64_LIMIT) - INT64_LIMIT
  }

  function NsecToTimeval(nsec: int): Timeval {
    var rounded := Wrapped(nsec + ROUNDING);
    var usec := TruncatedQuotient(TruncatedRemainder(rounded, NANOS_PER_SECOND), NANOS_PER_MICRO);
    var sec := TruncatedQuotient(rounded, NANOS_PER_SECOND);
    if usec < 0 then Timeval(sec - 1, usec + MICROS_PER_SECOND) else Timeval(sec, usec)
  }

  lemma TruncatedBounds(a: int, b: int)
    requires b > 0
    ensures a >= 0 ==> 0 <= TruncatedRemainder(a, b) < b
    ensures a < 0 ==> -b < TruncatedRemainder(a, b) <= 0
  {
  }

  lemma MicrosecondsInRange(nsec: int)
    ensures 0 <= NsecToTimeval(nsec).usec < MICROS_PER_SECOND
  {
    var rounded := Wrapped(nsec + ROUNDING);
    TruncatedBounds(rounded, NANOS_PER_SECOND);
    TruncatedBounds(TruncatedRemainder(rounded, NANOS_PER_SECOND), NANOS_PER_MICRO);
  }

  /** The number of nanoseconds in the result: what was rounded, but for the part of a microsecond that is cut off. */
  lemma TimevalTotal(nsec: int) returns (cut: int)
    ensures var tv := NsecToTimeval(nsec);
      tv.sec * NANOS_PER_SECOND + tv.usec * NANOS_PER_MICRO == Wrapped(nsec + ROUNDING) - cut
    ensures Wrapped(nsec + ROUNDING) >= 0 ==> 0 <= cut < NANOS_PER_MICRO
    ensures Wrapped(nsec + ROUNDING) < 0 ==> -NANOS_PER_MICRO < cut <= 0
  {
    var rounded := Wrapped(nsec + ROUNDING);
    TruncatedBounds(rounded, NANOS_PER_SECOND);
    var rest := TruncatedRemainder(rounded, NANOS_PER_SECOND);
    TruncatedBounds(rest, NANOS_PER_MICRO);
    cut := TruncatedRemainder(rest, NANOS_PER_MICRO);
  }

  function UnixNano(t: Time): int {
    Wrapped(Nanoseconds(t))
  }

  /** Rounded up, the time is a number of nanoseconds that an int64 can hold: it is one from 1677 to 2262. */
  predicate Fits(t: Time) {
    IsInt64(Nanoseconds(t) + ROUNDING)
  }

  /** Wrapping around twice is wrapping around once. */
  lemma RoundedUp(t: Time)
    ensures Wrapped(UnixNano(t) + ROUNDING) == Wrapped(Nanoseconds(t) + ROUNDING)
  {
  }

  /** The time that a file has after it has been set to t. */
  function TimeSet(t: Time): Time {
    MicrosecondsInRange(UnixNano(t));
    var tv := NsecToTimeval(UnixNano(t));
    Time(tv.sec, tv.usec * NANOS_PER_MICRO)
  }

  predicate IsTime(t: Time) {
    t.nanosecond < NANOS_PER_SECOND
  }

  lemma TimeSetIsTime(t: Time)
    ensures IsTime(TimeSet(t))
  {
    MicrosecondsInRange(UnixNano(t));
  }

  lemma RemainderIs(x: int, q: int, r: nat)
    requires r < NANOS_PER_MICRO && x == NANOS_PER_MICRO * q + r
    ensures x % NANOS_PER_MICRO == r
  {
  }

  lemma WholeMicroseconds(sec: int, usec: int)
    ensures (sec * NANOS_PER_SECOND + usec * NANOS_PER_MICRO) % NANOS_PER_MICRO == 0
  {
    RemainderIs(sec * NANOS_PER_SECOND + usec * NANOS_PER_MICRO, MICROS_PER_SECOND * sec + usec, 0);
  }

  lemma MicrosecondOfSecond(t: Time)
    ensures Nanoseconds(t) % NANOS_PER_MICRO == t.nanosecond % NANOS_PER_MICRO
  {
    var whole := MICROS_PER_SECOND * t.second + t.nanosecond / NANOS_PER_MICRO;
    RemainderIs(Nanoseconds(t), whole, t.nanosecond % NANOS_PER_MICRO);
  }

  lemma NextMultiple(n: int, m: int)
    requires m % NANOS_PER_MICRO == 0
    ensures n % NANOS_PER_MICRO == 0 && 0 <= m - n < NANOS_PER_MICRO ==> m == n
    ensures 0 <= n < NANOS_PER_MICRO && -NANOS_PER_MICRO < m <= n ==> m == 0
  {
  }

  /**
   Up to the next microsecond from 1970 on, and by less than two microseconds up
   before; a time that does not fit is off by more than five hundred years.
   */
  lemma TimeSetIsNear(t: Time)
    ensures Nanoseconds(TimeSet(t)) % NANOS_PER_MICRO == 0
    ensures Fits(t) && Nanoseconds(t) >= 0 ==> 0 <= Nanoseconds(TimeSet(t)) - Nanoseconds(t) < NANOS_PER_MICRO
    ensures Fits(t) && Nanoseconds(t) < 0 ==> 0 < Nanoseconds(TimeSet(t)) - Nanoseconds(t) < 2 * NANOS_PER_MICRO
    ensures !Fits(t) ==> Far(Nanoseconds(TimeSet(t)), Nanoseconds(t))
  {
    var n, tv := UnixNano(t), NsecToTimeval(UnixNano(t));
    var cut := TimevalTotal(n);
    RoundedUp(t);
    WholeMicroseconds(tv.sec, tv.usec);
    NextMultiple(Nanoseconds(t) + ROUNDING, Nanoseconds(TimeSet(t)));
    if !Fits(t) {
      WrapsFar(Nanoseconds(t) + ROUNDING);
    }
  }

  const FIVE_CENTURIES := 500 * 365 * 24 * 60 * 60 * NANOS_PER_SECOND

  predicate Far(a: int, b: int) {
    a - b > FIVE_CENTURIES || b - a > FIVE_CENTURIES
  }

  lemma WrapsFar(n: int)
    requires !IsInt64(n)
    ensures Wrapped(n) - n >= 2 * INT64_LIMIT || n - Wrapped(n) >= 2 * INT64_LIMIT
  {
  }

  /**
   In whole microseconds: the number of nanoseconds and 999, in 64 bits, divided
   by a thousand, down from zero on and up below zero.
   */
  lemma TimeSetIs(t: Time)
    ensures var rounded := Wrapped(Nanoseconds(t) + 999);
      Nanoseconds(TimeSet(t)) == 1000 * (if rounded >= 0 then rounded / 1000 else (rounded + 999) / 1000)
  {
    var n, tv := UnixNano(t), NsecToTimeval(UnixNano(t));
    var cut := TimevalTotal(n);
    RoundedUp(t);
    WholeMicroseconds(tv.sec, tv.usec);
  }

  lemma SameNanoseconds(t: Time, u: Time)
    requires IsTime(t) && IsTime(u) && Nanoseconds(t) == Nanoseconds(u)
    ensures t == u
  {
  }

  /** A time is set as it is if and only if it fits, is a whole number of microseconds and is not before 1970. */
  lemma TimeSetIsExactIff(t: Time)
    requires IsTime(t)
    ensures TimeSet(t) == t <==> Nanoseconds(t) >= 0 && Fits(t) && t.nanosecond % NANOS_PER_MICRO == 0
  {
    TimeSetIsNear(t);
    TimeSetIsTime(t);
    MicrosecondOfSecond(t);
    NextMultiple(Nanoseconds(t), Nanoseconds(TimeSet(t)));
    if Nanoseconds(TimeSet(t)) == Nanoseconds(t) {
      SameNanoseconds(TimeSet(t), t);
    }
  }

  /**
   One nanosecond becomes a microsecond, the end of a second the next second,
   whole seconds before 1970 change, and a time in 2264 becomes one in 1680.
   */
  lemma TimesThatChange()
    ensures TimeSet(Time(0, 1)) == Time(0, 1000)
    ensures TimeSet(Time(5, 999_999_500)) == Time(6, 0)
    ensures TimeSet(Time(-1, 0)) == Time(-1, 1000)
    ensures TimeSet(Time(9_300_000_000, 0)) == Time(-9_146_744_074, 290_450_000)
  {
    assert NsecToTimeval(1) == Timeval(0, 1);
    assert NsecToTimeval(5_999_999_500) == Timeval(6, 0);
    assert NsecToTimeval(-NANOS_PER_SECOND) == Timeval(-1, 1) by {
      assert TruncatedQuotient(-999_999_001, NANOS_PER_SECOND) == 0;
      assert TruncatedQuotient(-999_999_001, NANOS_PER_MICRO) == -999_999;
    }
    assert UnixNano(Time(9_300_000_000, 0)) == -9_146_744_073_709_551_616;
    TimevalIn1680();
  }

  lemma TimevalIn1680()
    ensures NsecToTimeval(-9_146_744_073_709_551_616) == Timeval(-9_146_744_074, 290_450)
  {
    assert TruncatedQuotient(-9_146_744_073_709_550_617, NANOS_PER_SECOND) == -9_146_744_073;
    assert TruncatedQuotient(-709_550_617, NANOS_PER_MICRO) == -709_550;
  }
}
