/** Elapsed time between two readings of the system clock, in 32-bit arithmetic. */
module Timer {
  import opened Machine

  datatype Timestamp = Timestamp(secs: ULong, micro: ULong) {
    /** The reading as one number of microseconds. */
    function Micros(): nat {
      secs * 1_000_000 + micro
    }
  }

  /**
    timer_elapsed_us. The seconds wrap as ULONG, the microseconds are subtracted as LONG, and a
    negative difference borrows one second. The result is the true difference modulo 2^32.
   */
  function ElapsedUs(start: Timestamp, end: Timestamp): (us: ULong)
    ensures us == ToULong(end.Micros() - start.Micros())
  {
    var secs := ToULong(end.secs - start.secs);
    var micro := SignedDifference(start.micro, end.micro);
    var us := if micro < 0
              then ToULong(ToULong(secs - 1) * 1_000_000 + ToULong(micro + 1_000_000))
              else ToULong(secs * 1_000_000 + ToULong(micro));
    BorrowBranch(start, end);
    PlainBranch(start, end);
    us
  }

  /** (LONG)b - (LONG)a, wrapping like every 32-bit subtraction. */
  function SignedDifference(a: ULong, b: ULong): int {
    ToLong(ToULong(ToLong(b) - ToLong(a)))
  }

  lemma SignedDifferenceWraps(a: ULong, b: ULong) returns (k: int)
    ensures SignedDifference(a, b) == (b - a) + k * 0x1_0000_0000
  {
    var w := Wrapped(ToLong(b) - ToLong(a));
    k := w - Sign(b) + Sign(a) - Sign(ToULong(ToLong(b) - ToLong(a)));
  }

  /** Wrapped seconds and microseconds add up to the same total, modulo 2^32. */
  lemma WrapsCancel(secs: int, micro: int, v: int, w: int, total: int)
    requires total == (secs + v * 0x1_0000_0000) * 1_000_000 + (micro + w * 0x1_0000_0000)
    ensures ToULong(total) == ToULong(secs * 1_000_000 + micro)
  {
    ModAddMultiple(secs * 1_000_000 + micro, v * 1_000_000 + w, 0x1_0000_0000);
  }

  lemma PlainBranch(start: Timestamp, end: Timestamp)
    ensures ToULong(ToULong(end.secs - start.secs) * 1_000_000 + ToULong(SignedDifference(start.micro, end.micro)))
         == ToULong(end.Micros() - start.Micros())
  {
    hide ToULong, SignedDifference;
    var secs, micro := end.secs - start.secs, end.micro - start.micro;
    var v := Wrapped(secs);
    var k := SignedDifferenceWraps(start.micro, end.micro);
    var w := Wrapped(SignedDifference(start.micro, end.micro));
    WrapsCancel(secs, micro, v, k + w, ToULong(secs) * 1_000_000 + ToULong(SignedDifference(start.micro, end.micro)));
  }

  /** Borrowing moves one second into the microseconds, which leaves the total alone. */
  lemma BorrowBranch(start: Timestamp, end: Timestamp)
    ensures ToULong(ToULong(ToULong(end.secs - start.secs) - 1) * 1_000_000
                    + ToULong(SignedDifference(start.micro, end.micro) + 1_000_000))
         == ToULong(end.Micros() - start.Micros())
  {
    hide ToULong, SignedDifference;
    var micro := end.micro - start.micro;
    var v := WrappedLess(end.secs - start.secs);
    var k := SignedDifferenceWraps(start.micro, end.micro);
    var d := SignedDifference(start.micro, end.micro) + 1_000_000;
    var w := Wrapped(d);
    var a: ULong, b: ULong := ToULong(ToULong(end.secs - start.secs) - 1), ToULong(d);
    WrapsCancel(end.secs - start.secs - 1, micro + 1_000_000, v, k + w, a * 1_000_000 + b);
    OneSecondMoved(start, end);
  }

  lemma OneSecondMoved(start: Timestamp, end: Timestamp)
    ensures (end.secs - start.secs - 1) * 1_000_000 + (end.micro - start.micro + 1_000_000)
         == end.Micros() - start.Micros()
  {}

  /** Wrapping before and after taking one away. */
  lemma WrappedLess(n: int) returns (w: int)
    ensures ToULong(ToULong(n) - 1) == n - 1 + w * 0x1_0000_0000
  {
    var v := Wrapped(n);
    var u := Wrapped(ToULong(n) - 1);
    w := v + u;
  }

  function Sign(n: ULong): int {
    if n < 0x8000_0000 then 0 else 1
  }

  lemma Wrapped(n: int) returns (w: int)
    ensures ToULong(n) == n + w * 0x1_0000_0000
  {
    w := -(n / 0x1_0000_0000);
  }

  /** When the clock moved forward by less than 2^32 microseconds the result is exact. */
  lemma ElapsedUsExact(start: Timestamp, end: Timestamp)
    ensures ElapsedUs(start, end) == end.Micros() - start.Micros()
       <==> 0 <= end.Micros() - start.Micros() < 0x1_0000_0000
  {
    var w := Wrapped(end.Micros() - start.Micros());
  }

  /** timer_elapsed_ms: the microseconds, rounded to the nearest millisecond with halves up. */
  function ElapsedMs(start: Timestamp, end: Timestamp): (ms: ULong)
    ensures -500 < 1000 * ms - ElapsedUs(start, end) <= 500
    ensures ToLong(ms) == ms
  {
    var us := ElapsedUs(start, end);
    us / 1000 + (if us % 1000 >= 500 then 1 else 0)
  }

  /** The rounding keeps the order, so milliseconds never run backwards while microseconds run forwards. */
  lemma ElapsedMsMonotone(a: Timestamp, b: Timestamp, c: Timestamp, d: Timestamp)
    requires ElapsedUs(a, b) <= ElapsedUs(c, d)
    ensures ElapsedMs(a, b) <= ElapsedMs(c, d)
  {}
}
