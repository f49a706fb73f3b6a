// Integer helpers on struct timespec from the real-time tutorial header:
// normalisation, strict ordering and differences in micro- and
// nanoseconds computed on int-truncated fields.
module Rt {
  import opened Arith

  const USEC_PER_SEC: int := 1_000_000
  const NSEC_PER_SEC: int := 1_000_000_000

  /** A struct timespec passed by value. */
  datatype Timespec = Timespec(sec: int, nsec: int)

  /** The instant a timespec denotes, in nanoseconds. */
  function TotalNs(t: Timespec): int
  {
    t.sec * NSEC_PER_SEC + t.nsec
  }

  predicate Normal(t: Timespec)
  {
    0 <= t.nsec < NSEC_PER_SEC
  }

  /** A struct timespec reached through a pointer, which tsnorm updates in place. */
  class TimespecPtr {
    var sec: int
    var nsec: int

    constructor (s: int, ns: int)
      ensures sec == s && nsec == ns
    {
      sec, nsec := s, ns;
    }

    function Value(): Timespec
      reads this
    {
      Timespec(sec, nsec)
    }

    /**
     * tsnorm: moves whole seconds out of tv_nsec until it is below one
     * second. The instant is unchanged and a non-negative tv_nsec ends
     * in [0, NSEC_PER_SEC).
     */
    method Normalize()
      modifies this
      ensures Value() == Normalized(old(Value()))
    {
      while nsec >= NSEC_PER_SEC
        invariant Normalized(Value()) == Normalized(old(Value()))
        decreases nsec
      {
        nsec := nsec - NSEC_PER_SEC;
        sec := sec + 1;
      }
    }
  }

  /** What tsnorm leaves behind: seconds carried out of tv_nsec while it is at least one second. */
  function Normalized(t: Timespec): Timespec
    decreases t.nsec
  {
    if t.nsec >= NSEC_PER_SEC then Normalized(Timespec(t.sec + 1, t.nsec - NSEC_PER_SEC)) else t
  }

  /** Normalising keeps the instant, leaves tv_nsec below a second, and makes a non-negative one normal. */
  lemma {:induction false} NormalizedProps(t: Timespec)
    ensures TotalNs(Normalized(t)) == TotalNs(t)
    ensures Normalized(t).nsec < NSEC_PER_SEC
    ensures t.nsec >= 0 ==> Normal(Normalized(t))
    ensures t.nsec < NSEC_PER_SEC ==> Normalized(t) == t
    decreases t.nsec
  {
    if t.nsec >= NSEC_PER_SEC {
      var t' := Timespec(t.sec + 1, t.nsec - NSEC_PER_SEC);
      NormalizedProps(t');
      assert TotalNs(t') == TotalNs(t);
    }
  }

  /** tsgreater: strictly later, seconds first, then nanoseconds. */
  predicate Greater(a: Timespec, b: Timespec)
  {
    a.sec > b.sec || (a.sec == b.sec && a.nsec > b.nsec)
  }

  /** Greater is a strict total order. */
  lemma GreaterStrictOrder(a: Timespec, b: Timespec, c: Timespec)
    ensures !Greater(a, a)
    ensures Greater(a, b) ==> !Greater(b, a)
    ensures Greater(a, b) && Greater(b, c) ==> Greater(a, c)
    ensures Greater(a, b) || Greater(b, a) || a == b
  {
  }

  /** On normal timespecs, Greater compares the instants they denote. */
  lemma GreaterIsLater(a: Timespec, b: Timespec)
    requires Normal(a) && Normal(b)
    ensures Greater(a, b) <==> TotalNs(a) > TotalNs(b)
  {
    if a.sec > b.sec {
      MulLe(b.sec + 1, a.sec, NSEC_PER_SEC);
    } else if a.sec < b.sec {
      MulLe(a.sec + 1, b.sec, NSEC_PER_SEC);
    }
  }

  /** (int) x - (int) y in C: both truncated to 32 bits, and the difference wraps as well. */
  function IntDiff(x: int, y: int): (r: int)
    ensures -0x8000_0000 <= r < 0x8000_0000
    ensures (-0x8000_0000 <= x < 0x8000_0000 && -0x8000_0000 <= y < 0x8000_0000
             && -0x8000_0000 <= x - y < 0x8000_0000) ==> r == x - y
  {
    ToInt32Small(x);
    ToInt32Small(y);
    ToInt32Small(x - y);
    ToInt32(ToInt32(x) - ToInt32(y))
  }

  lemma ToInt32Small(x: int)
    ensures -0x8000_0000 <= x < 0x8000_0000 ==> ToInt32(x) == x
  {
    if 0 <= x < 0x8000_0000 {
      ModUnique(x, U32, 0, x);
    } else if -0x8000_0000 <= x < 0 {
      ModUnique(x, U32, -1, x + U32);
    }
  }

  /** tscalcdiff_us: whole seconds times 10^6 plus the nanosecond difference divided by 1000, truncated. */
  function DiffUs(t1: Timespec, t2: Timespec): int
  {
    USEC_PER_SEC * IntDiff(t1.sec, t2.sec) + CDiv(IntDiff(t1.nsec, t2.nsec), 1000)
  }

  /** tscalcdiff_ns: whole seconds times 10^9 plus the nanosecond difference. */
  function DiffNs(t1: Timespec, t2: Timespec): int
  {
    NSEC_PER_SEC * IntDiff(t1.sec, t2.sec) + IntDiff(t1.nsec, t2.nsec)
  }

  predicate SmallSpan(t1: Timespec, t2: Timespec)
  {
    -0x8000_0000 <= t1.sec < 0x8000_0000 && -0x8000_0000 <= t2.sec < 0x8000_0000
    && -0x8000_0000 <= t1.sec - t2.sec < 0x8000_0000
  }

  /** For normal timespecs whose seconds fit an int, tscalcdiff_ns is the exact distance in nanoseconds. */
  lemma DiffNsExact(t1: Timespec, t2: Timespec)
    requires Normal(t1) && Normal(t2) && SmallSpan(t1, t2)
    ensures DiffNs(t1, t2) == TotalNs(t1) - TotalNs(t2)
  {
    assert IntDiff(t1.nsec, t2.nsec) == t1.nsec - t2.nsec;
    assert IntDiff(t1.sec, t2.sec) == t1.sec - t2.sec;
  }

  /** The microsecond difference is the nanosecond difference divided by 1000, off by less than one microsecond. */
  lemma DiffUsNs(t1: Timespec, t2: Timespec)
    ensures -1000 < DiffNs(t1, t2) - 1000 * DiffUs(t1, t2) < 1000
  {
    var dn := IntDiff(t1.nsec, t2.nsec);
    CRemBound(dn, 1000);
    assert DiffNs(t1, t2) - 1000 * DiffUs(t1, t2) == CRem(dn, 1000);
  }
}
