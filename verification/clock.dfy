/** The `timeradd` / `timersub` fallbacks of the clock utilities: seconds
    plus microseconds, with one carry or borrow between the two fields. */
module Clock {

  const USEC_PER_SEC: int := 1000000

  /** A `struct timeval`; the fields are signed, as in C. */
  datatype TimeVal = TimeVal(sec: int, usec: int)

  /** The microsecond field lies in [0, 10^6). */
  predicate Normalised(t: TimeVal)
  {
    0 <= t.usec < USEC_PER_SEC
  }

  /** The whole value in microseconds. */
  function Micros(t: TimeVal): int
  {
    t.sec * USEC_PER_SEC + t.usec
  }

  /** `timeradd(a, b, result)`: adds the fields and carries one second when
      the microseconds reach 10^6. */
  function TimerAdd(a: TimeVal, b: TimeVal): (r: TimeVal)
    ensures Micros(r) == Micros(a) + Micros(b)
    ensures r.sec == a.sec + b.sec || r.sec == a.sec + b.sec + 1
    ensures Normalised(a) && Normalised(b) ==> Normalised(r)
  {
    var sec := a.sec + b.sec;
    var usec := a.usec + b.usec;
    if usec >= USEC_PER_SEC then TimeVal(sec + 1, usec - USEC_PER_SEC)
    else TimeVal(sec, usec)
  }

  /** `timersub(a, b, result)`: subtracts the fields and borrows one second
      when the microseconds drop below zero. */
  function TimerSub(a: TimeVal, b: TimeVal): (r: TimeVal)
    ensures Micros(r) == Micros(a) - Micros(b)
    ensures r.sec == a.sec - b.sec || r.sec == a.sec - b.sec - 1
    ensures Normalised(a) && Normalised(b) ==> Normalised(r)
  {
    var sec := a.sec - b.sec;
    var usec := a.usec - b.usec;
    if usec < 0 then TimeVal(sec - 1, usec + USEC_PER_SEC)
    else TimeVal(sec, usec)
  }

  /** A normalised value is determined by its total microseconds. */
  lemma NormalisedByMicros(x: TimeVal, y: TimeVal)
    requires Normalised(x) && Normalised(y)
    requires Micros(x) == Micros(y)
    ensures x == y
  {
  }

  /** Subtracting what was added gives back the original value. */
  lemma SubUndoesAdd(a: TimeVal, b: TimeVal)
    requires Normalised(a) && Normalised(b)
    ensures TimerSub(TimerAdd(a, b), b) == a
  {
    NormalisedByMicros(TimerSub(TimerAdd(a, b), b), a);
  }

  /** Adding back what was subtracted gives back the original value. */
  lemma AddUndoesSub(a: TimeVal, b: TimeVal)
    requires Normalised(a) && Normalised(b)
    ensures TimerAdd(TimerSub(a, b), b) == a
  {
    NormalisedByMicros(TimerAdd(TimerSub(a, b), b), a);
  }
}
