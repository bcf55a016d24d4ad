/**
 * The two timespec helpers of the queue engine (messageQx.c,
 * `_msgqx_time_diff` and `_msgqx_time_add`), as integer nanosecond arithmetic.
 */
module MsgqTime {
  import opened CLang

  const NanosPerSec: int := 1000000000

  /** A `struct timespec`, overwritten in place by `Add`. */
  class Timespec {
    var tvSec: int
    var tvNsec: int

    constructor (sec: int, nsec: int)
      ensures tvSec == sec && tvNsec == nsec
    {
      tvSec, tvNsec := sec, nsec;
    }

    /** The instant in nanoseconds. */
    function Nanos(): int
      reads this
    {
      tvSec * NanosPerSec + tvNsec
    }

    /**
     * `_msgqx_time_add`: add `sec` seconds and `nsec` nanoseconds.  A total
     * that is not positive leaves the timespec as it was; otherwise the
     * timespec holds the total, normalised.
     */
    method Add(sec: int, nsec: int)
      modifies this
      ensures var total := old(Nanos()) + sec * NanosPerSec + nsec;
              if total <= 0 then tvSec == old(tvSec) && tvNsec == old(tvNsec)
              else Nanos() == total && 0 <= tvNsec < NanosPerSec
    {
      var ns := (tvSec + sec) * NanosPerSec + tvNsec + nsec;
      if ns <= 0 {
        return;
      }
      tvSec := CDiv(ns, NanosPerSec);
      tvNsec := CMod(ns, NanosPerSec);
    }
  }

  /** What `_msgqx_time_diff` returns and writes to `*sec` and `*nsec`. */
  datatype TimeDiffResult = TimeDiffResult(negative: int, sec: int, nsec: int)

  /**
   * `_msgqx_time_diff`: the time from `s` to `e`, split with truncating
   * division; the return value is 1 exactly when `e` is before `s`.
   */
  function TimeDiff(s: Timespec, e: Timespec): (r: TimeDiffResult)
    reads s, e
    ensures r.negative == (if e.Nanos() < s.Nanos() then 1 else 0)
    ensures r.sec * NanosPerSec + r.nsec == e.Nanos() - s.Nanos()
    ensures e.Nanos() >= s.Nanos() ==> 0 <= r.nsec < NanosPerSec && r.sec >= 0
    ensures e.Nanos() < s.Nanos() ==> -NanosPerSec < r.nsec <= 0 && r.sec <= 0
  {
    var diff := e.Nanos() - s.Nanos();
    TimeDiffResult(if diff < 0 then 1 else 0, CDiv(diff, NanosPerSec), CMod(diff, NanosPerSec))
  }

  /**
   * The budget, in nanoseconds, that the mutex wait of a timed send or
   * receive gets, as written: the slot or message wait from `s` to `e`
   * overwrites `*sec` and `*nsec` with the time it took, whatever the
   * caller's `budget` was.
   */
  function NextBudgetAsWritten(budget: int, s: Timespec, e: Timespec): (next: int)
    reads s, e
    ensures next == e.Nanos() - s.Nanos()
  {
    var d := TimeDiff(s, e);
    d.sec * NanosPerSec + d.nsec
  }

  /**
   * A one-second budget whose first wait takes 0.9 seconds lets the mutex
   * wait run another 0.9 seconds: 1.8 seconds in all.
   */
  lemma NextBudgetAsWrittenOverruns(s: Timespec, e: Timespec)
    requires s.tvSec == 0 && s.tvNsec == 0 && e.tvSec == 0 && e.tvNsec == 900000000
    ensures (e.Nanos() - s.Nanos()) + NextBudgetAsWritten(NanosPerSec, s, e) == 18 * NanosPerSec / 10
  {
  }

  /**
   * The budget the mutex wait should get: what is left of `budget` after
   * the first wait, so that the two waits together never exceed it.
   */
  function NextBudget(budget: int, s: Timespec, e: Timespec): (next: int)
    reads s, e
    ensures (e.Nanos() - s.Nanos()) + next == budget
    ensures 0 <= e.Nanos() - s.Nanos() <= budget ==> 0 <= next <= budget
  {
    var d := TimeDiff(s, e);
    budget - (d.sec * NanosPerSec + d.nsec)
  }
}
