/** Absolute deadlines and their comparison (`my_global.h`, the branches for systems other
    than Windows).  `ulonglong` arithmetic is reduced modulo 2^64. */
module TimespecArithmetic {

  import opened Wrappers
  import opened Remainders
  import opened Widths

  const BILLION := 1_000_000_000

  type ulonglong = uint64

  class Timespec {
    var tv_sec: int
    var tv_nsec: int

    constructor (sec: int, nsec: int)
      ensures tv_sec == sec && tv_nsec == nsec
    {
      tv_sec, tv_nsec := sec, nsec;
    }

    /** The moment in nanoseconds. */
    ghost function Nanoseconds(): int
      reads this
    {
      tv_sec * BILLION + tv_nsec
    }

    ghost predicate Normalised()
      reads this
    {
      0 <= tv_nsec < BILLION
    }
  }

  /** SIZEOF_TIME_T of the platform. */
  type TimeSize = n: nat | n == 4 || n == 8 witness 4

  /** Half the number of values of a `time_t`. */
  function TimeLimit(sizeofTime: TimeSize): int {
    if sizeofTime == 4 then 0x8000_0000 else 0x8000_0000_0000_0000
  }

  predicate FitsTime(x: int, sizeofTime: TimeSize) {
    -TimeLimit(sizeofTime) <= x < TimeLimit(sizeofTime)
  }

  /** How often the whole range of `time_t` is lost from `x` when it is stored there. */
  function Lost(x: int, sizeofTime: TimeSize): int {
    (x + TimeLimit(sizeofTime)) / (2 * TimeLimit(sizeofTime))
  }

  /** The value of that `time_t`. */
  function Stored(x: int, sizeofTime: TimeSize): (t: int)
    ensures FitsTime(t, sizeofTime)
    ensures t == x - 2 * TimeLimit(sizeofTime) * Lost(x, sizeofTime)
    ensures t == x <==> FitsTime(x, sizeofTime)
  {
    (x + TimeLimit(sizeofTime)) % (2 * TimeLimit(sizeofTime)) - TimeLimit(sizeofTime)
  }

  /** The whole seconds of the deadline `nsec` nanoseconds after the clock reading `clock`,
      which counts units of 100 ns. */
  function SecondsDue(clock: ulonglong, nsec: ulonglong): nat {
    (clock + nsec / 100) % U64 / 10_000_000
  }

  /** Seconds and nanoseconds of the deadline, as stored. */
  function Deadline(clock: ulonglong, nsec: ulonglong, sizeofTime: TimeSize): (int, int) {
    (Stored(SecondsDue(clock, nsec), sizeofTime),
     (clock + nsec / 100) % U64 % 10_000_000 * 100 + nsec % 100)
  }

  function Moment(t: (int, int)): int {
    t.0 * BILLION + t.1
  }

  /** The sum does not wrap and its seconds fit `time_t`. */
  predicate DeadlineFits(clock: ulonglong, nsec: int, sizeofTime: TimeSize) {
    && clock + nsec / 100 < U64
    && FitsTime((clock + nsec / 100) / 10_000_000, sizeofTime)
  }

  /** The deadline is always normalised, and it is the intended moment exactly when the 64-bit
      addition did not wrap and the seconds fit a `time_t`. */
  lemma {:induction false} DeadlineIsExact(clock: ulonglong, nsec: ulonglong, sizeofTime: TimeSize)
    ensures var t := Deadline(clock, nsec, sizeofTime);
            && FitsTime(t.0, sizeofTime) && 0 <= t.1 < BILLION
            && (Moment(t) == clock * 100 + nsec <==> DeadlineFits(clock, nsec, sizeofTime))
  {
    var units := clock + nsec / 100;
    var due := SecondsDue(clock, nsec);
    var t := Deadline(clock, nsec, sizeofTime);
    StoredIsNotMore(due, sizeofTime);
    assert due * BILLION + t.1 == units % U64 * 100 + nsec % 100;
  }

  lemma {:induction false} StoredIsNotMore(x: nat, sizeofTime: TimeSize)
    ensures Stored(x, sizeofTime) <= x
  {}

  method SetTimespecNsec(abstime: Timespec, nsec: ulonglong, clock: ulonglong, sizeofTime: TimeSize)
    modifies abstime
    ensures (abstime.tv_sec, abstime.tv_nsec) == Deadline(clock, nsec, sizeofTime)
    ensures abstime.Normalised() && FitsTime(abstime.tv_sec, sizeofTime)
    ensures abstime.Nanoseconds() == clock * 100 + nsec <==> DeadlineFits(clock, nsec, sizeofTime)
  {
    DeadlineIsExact(clock, nsec, sizeofTime);
    var now := (clock + nsec / 100) % U64;
    abstime.tv_sec := Stored(now / 10_000_000, sizeofTime);
    abstime.tv_nsec := now % 10_000_000 * 100 + nsec % 100;
  }

  method SetTimespec(abstime: Timespec, sec: ulonglong, clock: ulonglong, sizeofTime: TimeSize)
    modifies abstime
    ensures (abstime.tv_sec, abstime.tv_nsec) == Deadline(clock, sec * BILLION % U64, sizeofTime)
    ensures abstime.Normalised() && FitsTime(abstime.tv_sec, sizeofTime)
    ensures abstime.Nanoseconds() == clock * 100 + sec * BILLION
       <==> sec * BILLION < U64 && DeadlineFits(clock, sec * BILLION, sizeofTime)
  {
    SecondsAreExact(clock, sec, sizeofTime);
    SetTimespecNsec(abstime, sec * BILLION % U64, clock, sizeofTime);
  }

  /** Whole seconds: exact when in addition the product does not wrap, and only then. */
  lemma {:induction false} SecondsAreExact(clock: ulonglong, sec: ulonglong, sizeofTime: TimeSize)
    ensures Moment(Deadline(clock, sec * BILLION % U64, sizeofTime)) == clock * 100 + sec * BILLION
       <==> sec * BILLION < U64 && DeadlineFits(clock, sec * BILLION, sizeofTime)
  {
    var product: int := sec * BILLION;
    var w := product % U64;
    WrapIsLess(product);
    if product < U64 {
      DeadlineIsExact(clock, product, sizeofTime);
    } else {
      DeadlineIsNotMore(clock, w, sizeofTime);
    }
  }

  lemma {:induction false} WrapIsLess(x: nat)
    ensures if x < U64 then x % U64 == x else x % U64 < x
  {}

  lemma {:induction false} DeadlineIsNotMore(clock: ulonglong, nsec: ulonglong, sizeofTime: TimeSize)
    ensures Moment(Deadline(clock, nsec, sizeofTime)) <= clock * 100 + nsec
  {
    var units := clock + nsec / 100;
    var t := Deadline(clock, nsec, sizeofTime);
    StoredIsNotMore(SecondsDue(clock, nsec), sizeofTime);
    assert SecondsDue(clock, nsec) * BILLION + t.1 == units % U64 * 100 + nsec % 100;
  }

  function CmpTimespec(ts1: Timespec, ts2: Timespec): (r: int)
    reads ts1, ts2
  {
    if ts1.tv_sec > ts2.tv_sec || (ts1.tv_sec == ts2.tv_sec && ts1.tv_nsec > ts2.tv_nsec) then 1
    else if ts1.tv_sec < ts2.tv_sec || (ts1.tv_sec == ts2.tv_sec && ts1.tv_nsec < ts2.tv_nsec) then -1
    else 0
  }

  /** On normalised times the comparison is the order of the moments. */
  lemma {:induction false} CmpIsOrder(ts1: Timespec, ts2: Timespec)
    requires ts1.Normalised() && ts2.Normalised()
    ensures CmpTimespec(ts1, ts2) == 1 <==> ts1.Nanoseconds() > ts2.Nanoseconds()
    ensures CmpTimespec(ts1, ts2) == -1 <==> ts1.Nanoseconds() < ts2.Nanoseconds()
    ensures CmpTimespec(ts1, ts2) == 0 <==> ts1.Nanoseconds() == ts2.Nanoseconds()
  {}

  /** The signed difference of the seconds is converted to `ulonglong`, and so are the
      nanoseconds added to and taken from it, each step modulo 2^64.  None when that
      difference overflows, which C leaves undefined. */
  function DiffTimespec(ts1: Timespec, ts2: Timespec, sizeofTime: TimeSize): Option<ulonglong>
    reads ts1, ts2
  {
    if !FitsTime(ts1.tv_sec - ts2.tv_sec, sizeofTime) then None
    else
      var seconds := (ts1.tv_sec - ts2.tv_sec) % U64;
      Some(((seconds * BILLION % U64 + ts1.tv_nsec % U64) % U64 - ts2.tv_nsec % U64) % U64)
  }

  /** Whatever wraps on the way, the difference is right modulo 2^64; so it is exact if and
      only if the first moment is not the earlier one and they are less than 2^64 ns apart. */
  lemma {:induction false} DiffIsExact(ts1: Timespec, ts2: Timespec, sizeofTime: TimeSize)
    requires FitsTime(ts1.tv_sec - ts2.tv_sec, sizeofTime)
    ensures var d := ts1.Nanoseconds() - ts2.Nanoseconds();
            && DiffTimespec(ts1, ts2, sizeofTime) == Some(d % U64)
            && (DiffTimespec(ts1, ts2, sizeofTime) == Some(d) <==> 0 <= d < U64)
  {
    var s := ts1.tv_sec - ts2.tv_sec;
    var q := s / U64;
    assert s * BILLION == s % U64 * BILLION + U64 * (q * BILLION);
    var w := s % U64 * BILLION;
    ModDifference(w, ts1.tv_nsec, ts2.tv_nsec, q * BILLION);
  }

  lemma {:induction false} ModDifference(w: int, x: int, y: int, k: int)
    ensures ((w % U64 + x % U64) % U64 - y % U64) % U64 == (w + U64 * k + x - y) % U64
  {
    var sum := w % U64 + x % U64;
    var d := sum % U64 - y % U64;
    var q := k + w / U64 + x / U64 + sum / U64 - y / U64;
    assert w + U64 * k + x - y == d + U64 * q;
    AddMultiple(d, U64, q);
  }

  /** The moment before the seconds are stored. */
  function Due(clock: ulonglong, nsec: ulonglong): int {
    (clock + nsec / 100) % U64 * 100 + nsec % 100
  }

  /** The nanoseconds that the range of a `time_t` covers. */
  function Range(sizeofTime: TimeSize): int {
    if sizeofTime == 4 then U32 * BILLION else U64 * BILLION
  }

  lemma {:induction false} MomentIsDue(clock: ulonglong, nsec: ulonglong, sizeofTime: TimeSize)
    ensures Moment(Deadline(clock, nsec, sizeofTime))
         == Due(clock, nsec) - Range(sizeofTime) * Lost(SecondsDue(clock, nsec), sizeofTime)
  {
    var due, k := SecondsDue(clock, nsec), Lost(SecondsDue(clock, nsec), sizeofTime);
    var t := Deadline(clock, nsec, sizeofTime);
    assert due * BILLION + t.1 == Due(clock, nsec);
    StoredSeconds(due, k, sizeofTime);
  }

  lemma {:induction false} StoredSeconds(x: int, k: int, sizeofTime: TimeSize)
    requires k == Lost(x, sizeofTime)
    ensures Stored(x, sizeofTime) * BILLION == x * BILLION - Range(sizeofTime) * k
  {
    if sizeofTime == 4 {
      assert Stored(x, 4) == x - U32 * k;
    } else {
      assert Stored(x, sizeofTime) == x - U64 * k;
    }
  }

  lemma {:induction false} DueModulo(clock: ulonglong, nsec: ulonglong)
    ensures Due(clock, nsec) % U64 == (clock * 100 + nsec) % U64
  {
    var units := clock + nsec / 100;
    assert clock * 100 + nsec == Due(clock, nsec) + U64 * (units / U64 * 100);
    AddMultiple(Due(clock, nsec), U64, units / U64 * 100);
  }

  lemma {:induction false} DuesDiffer(clock: ulonglong, a: ulonglong, b: ulonglong)
    ensures (Due(clock, a) - Due(clock, b)) % U64 == (a - b) % U64
  {
    DueModulo(clock, a);
    DueModulo(clock, b);
    SameDifference(Due(clock, a), Due(clock, b), clock * 100 + a, clock * 100 + b);
  }

  /** At most 430 ranges of a four-byte `time_t` are ever lost, and none of an eight-byte one;
      a number of them that is not zero never vanishes modulo 2^64. */
  lemma {:induction false} LostMatters(x: int, k: int, sizeofTime: TimeSize)
    requires -430 <= k <= 430 && (sizeofTime == 8 ==> k == 0)
    ensures (x - Range(sizeofTime) * k) % U64 == x % U64 <==> k == 0
  {
    if k != 0 {
      var shift := U32 * BILLION * k;
      if (x - shift) % U64 == x % U64 {
        var q := x / U64 - (x - shift) / U64;
        assert shift == U64 * q;
        assert k * BILLION == U32 * q;
        assert k * 1_953_125 == 0x80_0000 * q;
        OddFactor(k, q);
      }
    }
  }

  lemma {:induction false} OddFactor(k: int, q: int)
    requires k * 1_953_125 == 0x80_0000 * q && -430 <= k <= 430
    ensures k == 0
  {
    var z := q * 3054701 - k * 711228;   // 3054701 is the inverse of 1953125 modulo 2^23
    assert k == 0x80_0000 * z;
  }

  /** What a caller can compute beforehand: both second counts lose the same multiple of the
      range of `time_t`, and their difference fits one. */
  predicate SameRange(clock: ulonglong, a: ulonglong, b: ulonglong, sizeofTime: TimeSize) {
    && Lost(SecondsDue(clock, a), sizeofTime) == Lost(SecondsDue(clock, b), sizeofTime)
    && FitsTime(SecondsDue(clock, a) - SecondsDue(clock, b), sizeofTime)
  }

  /** Two deadlines armed from one clock reading differ by the difference of their delays, even
      when arming either of them wrapped, if and only if storing the seconds cancels; with an
      eight-byte `time_t` it always does. */
  lemma {:induction false} DiffOfDeadlines(ts1: Timespec, ts2: Timespec, clock: ulonglong, a: ulonglong,
                                           b: ulonglong, sizeofTime: TimeSize)
    requires (ts1.tv_sec, ts1.tv_nsec) == Deadline(clock, a, sizeofTime)
    requires (ts2.tv_sec, ts2.tv_nsec) == Deadline(clock, b, sizeofTime)
    ensures DiffTimespec(ts1, ts2, sizeofTime) == Some((a - b) % U64) <==> SameRange(clock, a, b, sizeofTime)
    ensures sizeofTime == 8 ==> SameRange(clock, a, b, sizeofTime)
    ensures a >= b ==> (a - b) % U64 == a - b
  {
    var d := ts1.Nanoseconds() - ts2.Nanoseconds();
    StoredRange(clock, a, b, sizeofTime);
    if FitsTime(ts1.tv_sec - ts2.tv_sec, sizeofTime) {
      DiffIsExact(ts1, ts2, sizeofTime);
      assert d % U64 == (a - b) % U64
        <==> Lost(SecondsDue(clock, a), sizeofTime) == Lost(SecondsDue(clock, b), sizeofTime) by {
          MomentsDiffer(clock, a, b, sizeofTime);
        }
    }
    SmallRemainder(a - b);
  }

  lemma {:induction false} SmallRemainder(d: int)
    requires d < U64
    ensures d >= 0 ==> d % U64 == d
  {}

  lemma {:induction false} StoredRange(clock: ulonglong, a: ulonglong, b: ulonglong, sizeofTime: TimeSize)
    ensures var t1, t2 := Deadline(clock, a, sizeofTime).0, Deadline(clock, b, sizeofTime).0;
            SameRange(clock, a, b, sizeofTime) <==>
              && FitsTime(t1 - t2, sizeofTime)
              && Lost(SecondsDue(clock, a), sizeofTime) == Lost(SecondsDue(clock, b), sizeofTime)
    ensures sizeofTime == 8 ==> SameRange(clock, a, b, sizeofTime)
  {
    var s1, s2 := SecondsDue(clock, a), SecondsDue(clock, b);
    LostIsSmall(clock, a, sizeofTime);
    LostIsSmall(clock, b, sizeofTime);
    if Lost(s1, sizeofTime) == Lost(s2, sizeofTime) {
      StoredDiffer(s1, s2, sizeofTime);
    }
  }

  lemma {:induction false} StoredDiffer(x: int, y: int, sizeofTime: TimeSize)
    requires Lost(x, sizeofTime) == Lost(y, sizeofTime)
    ensures Stored(x, sizeofTime) - Stored(y, sizeofTime) == x - y
  {}

  lemma {:induction false} MomentsDiffer(clock: ulonglong, a: ulonglong, b: ulonglong, sizeofTime: TimeSize)
    ensures (Moment(Deadline(clock, a, sizeofTime)) - Moment(Deadline(clock, b, sizeofTime))) % U64 == (a - b) % U64
       <==> Lost(SecondsDue(clock, a), sizeofTime) == Lost(SecondsDue(clock, b), sizeofTime)
  {
    var i, j := Lost(SecondsDue(clock, a), sizeofTime), Lost(SecondsDue(clock, b), sizeofTime);
    MomentIsDue(clock, a, sizeofTime);
    MomentIsDue(clock, b, sizeofTime);
    DuesDiffer(clock, a, b);
    LostIsSmall(clock, a, sizeofTime);
    LostIsSmall(clock, b, sizeofTime);
    LostDiffer(Due(clock, a), Due(clock, b), i, j, sizeofTime);
  }

  lemma {:induction false} LostDiffer(x: int, y: int, i: nat, j: nat, sizeofTime: TimeSize)
    requires i <= 430 && j <= 430 && (sizeofTime == 8 ==> i == j == 0)
    ensures ((x - Range(sizeofTime) * i) - (y - Range(sizeofTime) * j)) % U64 == (x - y) % U64 <==> i == j
  {
    var range := Range(sizeofTime);
    assert range * i - range * j == range * (i - j);
    assert (x - range * i) - (y - range * j) == (x - y) - range * (i - j);
    LostMatters(x - y, i - j, sizeofTime);
  }

  lemma {:induction false} LostIsSmall(clock: ulonglong, nsec: ulonglong, sizeofTime: TimeSize)
    ensures 0 <= Lost(SecondsDue(clock, nsec), sizeofTime) <= if sizeofTime == 4 then 430 else 0
  {}

  /** A four-byte `time_t`: a moment in 2038 is stored as one in 1901, and the deadlines of the
      delays 2^31 s and 0 s, armed at 0, do not differ by 2^31 s. */
  lemma {:induction false} LimitExamples(ts1: Timespec, ts2: Timespec)
    requires (ts1.tv_sec, ts1.tv_nsec) == Deadline(0, 0x8000_0000 * BILLION, 4)
    requires (ts2.tv_sec, ts2.tv_nsec) == Deadline(0, 0, 4)
    ensures Deadline(0x8000_0000 * 10_000_000, 0, 4) == (-0x8000_0000, 0)
    ensures DiffTimespec(ts1, ts2, 4).Some? && DiffTimespec(ts1, ts2, 4) != Some(0x8000_0000 * BILLION)
  {
    var delay := 0x8000_0000 * BILLION;
    assert SecondsDue(0, delay) == 0x8000_0000 && SecondsDue(0, 0) == 0;
    assert Lost(0x8000_0000, 4) == 1 && Lost(0, 4) == 0;
    assert ts1.tv_sec == -0x8000_0000 && ts2.tv_sec == 0;
    assert !SameRange(0, delay, 0, 4);
    SmallRemainder(delay);
    DiffOfDeadlines(ts1, ts2, 0, delay, 0, 4);
  }

  lemma {:induction false} SameDifference(x1: int, y1: int, x2: int, y2: int)
    requires x1 % U64 == x2 % U64 && y1 % U64 == y2 % U64
    ensures (x1 - y1) % U64 == (x2 - y2) % U64
  {
    DifferenceModulo(x1, y1);
    DifferenceModulo(x2, y2);
  }

  lemma {:induction false} DifferenceModulo(x: int, y: int)
    ensures (x - y) % U64 == (x % U64 - y % U64) % U64
  {
    AddMultiple(x % U64 - y % U64, U64, x / U64 - y / U64);
  }
}
