/** The worker's event clock (src/utils/clock.ts). */
module Clock {
  import opened Prelude

  function Advance(last: int, reading: int): int {
    if reading <= last then last + 1 else reading
  }

  /** The value returned for the last of a sequence of system clock readings,
      starting from a new clock. */
  function ValueAfter(readings: seq<int>): int {
    if readings == [] then 0 else Advance(ValueAfter(Front(readings)), Last(readings))
  }

  /** `v` is the greatest of n and all t_i + (n - i), for n readings t_1..t_n. */
  ghost predicate IsLatest(readings: seq<int>, v: int) {
    && v >= |readings|
    && (forall i :: 0 <= i < |readings| ==> v >= readings[i] + (|readings| - 1 - i))
    && (v == |readings| || exists i :: 0 <= i < |readings| && v == readings[i] + (|readings| - 1 - i))
  }

  /** Closed form of the clock, for any readings, even decreasing ones. */
  lemma {:induction false} ValueIsLatest(readings: seq<int>)
    ensures IsLatest(readings, ValueAfter(readings))
    decreases |readings|
  {
    if readings != [] {
      var before, n := Front(readings), |readings|;
      ValueIsLatest(before);
      var v, v' := ValueAfter(before), ValueAfter(readings);
      forall i | 0 <= i < n
        ensures v' >= readings[i] + (n - 1 - i)
      {
        if i < n - 1 {
          assert readings[i] == before[i];
        }
      }
      if v' == v + 1 && v != |before| {
        var i :| 0 <= i < |before| && v == before[i] + (|before| - 1 - i);
        assert v' == readings[i] + (n - 1 - i);
      } else if v' != v + 1 {
        assert v' == readings[n - 1] + (n - 1 - (n - 1));
      }
    }
  }

  class MonotonicClock {
    var lastTimestamp: int

    constructor ()
      ensures lastTimestamp == 0
    {
      lastTimestamp := 0;
    }

    /** The next timestamp, given what the system clock reads. */
    method Now(reading: int) returns (ts: int)
      modifies this
      ensures ts == lastTimestamp == Advance(old(lastTimestamp), reading)
      ensures ts > old(lastTimestamp) && ts >= reading
    {
      if reading <= lastTimestamp {
        lastTimestamp := lastTimestamp + 1;
      } else {
        lastTimestamp := reading;
      }
      return lastTimestamp;
    }
  }
}
