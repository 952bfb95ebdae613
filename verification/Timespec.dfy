/** Second and nanosecond arithmetic of the base-time tool. */
module Timespecs {

  const NSEC_PER_SEC: int := 1000000000

  datatype Timespec = Timespec(sec: int, nsec: int)

  /** The time in nanoseconds. */
  function Nanos(ts: Timespec): int {
    ts.sec * NSEC_PER_SEC + ts.nsec
  }

  ghost predicate IsNormal(ts: Timespec) {
    0 <= ts.nsec < NSEC_PER_SEC
  }

  /** Whole seconds carried over, rounding down for negative nanoseconds. */
  function Normalised(ts: Timespec): Timespec {
    Timespec(ts.sec + ts.nsec / NSEC_PER_SEC, ts.nsec % NSEC_PER_SEC)
  }

  /** The normal form denotes the same time, and no other normal value does. */
  lemma NormalFormUnique(ts: Timespec, t: Timespec)
    ensures IsNormal(Normalised(ts)) && Nanos(Normalised(ts)) == Nanos(ts)
    ensures IsNormal(t) && Nanos(t) == Nanos(ts) <==> t == Normalised(ts)
  {
  }

  function Sum(a: Timespec, b: Timespec): Timespec {
    var (x, y) := (Normalised(a), Normalised(b));
    Normalised(Timespec(x.sec + y.sec, x.nsec + y.nsec))
  }

  /** Sums are exact and in normal form, whatever the form of the arguments. */
  lemma SumIsExact(a: Timespec, b: Timespec)
    ensures IsNormal(Sum(a, b)) && Nanos(Sum(a, b)) == Nanos(a) + Nanos(b)
  {
  }

  /** So order and grouping do not matter. */
  lemma SumLaws(a: Timespec, b: Timespec, c: Timespec)
    ensures Sum(a, b) == Sum(b, a)
    ensures Sum(Sum(a, b), c) == Sum(a, Sum(b, c))
  {
  }

  // ----- the code

  /** Terminates for every signed input. */
  method Normalise(input: Timespec) returns (ts: Timespec)
    ensures ts == Normalised(input)
    ensures 0 <= ts.nsec < 1000000000 && ts.sec * 1000000000 + ts.nsec == input.sec * 1000000000 + input.nsec
  {
    ts := input;
    while ts.nsec >= NSEC_PER_SEC
      invariant Nanos(ts) == Nanos(input)
      decreases ts.nsec
    {
      ts := Timespec(ts.sec + 1, ts.nsec - NSEC_PER_SEC);
    }
    while ts.nsec <= -NSEC_PER_SEC
      invariant Nanos(ts) == Nanos(input) && ts.nsec < NSEC_PER_SEC
      decreases -ts.nsec
    {
      ts := Timespec(ts.sec - 1, ts.nsec + NSEC_PER_SEC);
    }
    if ts.nsec < 0 {
      ts := Timespec(ts.sec - 1, NSEC_PER_SEC + ts.nsec);
    }
    NormalFormUnique(input, ts);
  }

  method Add(a: Timespec, b: Timespec) returns (sum: Timespec)
    ensures sum == Sum(a, b)
  {
    var ts1 := Normalise(a);
    var ts2 := Normalise(b);
    ts1 := Timespec(ts1.sec + ts2.sec, ts1.nsec + ts2.nsec);
    sum := Normalise(ts1);
  }

  /** The new base time: the clock reading plus an offset; on request the least whole second that
      is not before it. */
  method NewBaseTime(clock: Timespec, offset: Timespec, roundUp: bool) returns (ts: Timespec)
    ensures !roundUp ==> ts == Sum(clock, offset)
    ensures roundUp ==>
              && ts.nsec == 0
              && Nanos(clock) + Nanos(offset) <= Nanos(ts) < Nanos(clock) + Nanos(offset) + NSEC_PER_SEC
              && forall s: int :: Nanos(clock) + Nanos(offset) <= Nanos(Timespec(s, 0)) ==> ts.sec <= s
  {
    ts := Add(clock, offset);
    SumIsExact(clock, offset);
    if roundUp {
      if ts.nsec != 0 {
        ts := Timespec(ts.sec + 1, 0);
      }
    }
  }
}
