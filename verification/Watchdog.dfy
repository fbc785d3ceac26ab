/** tsp_checker of src/main.cpp: the loop that decides a transcoder has stopped updating its
    status file. */
module Watchdog {
  /** What one poll sees: whether the status file is there, and its ctime. */
  datatype Seen = Seen(present: bool, ctime: int)

  /** Poll n, counted from 1, finds the file missing after the grace period, or its time
      unchanged over five polls. */
  ghost predicate Fires(seen: seq<Seen>, n: nat) {
    && 1 <= n <= |seen|
    && ((n >= 11 && !seen[n - 1].present)
        || (n >= 13 && forall i :: n - 5 <= i < n ==> seen[i].ctime == seen[n - 1].ctime))
  }

  /** The poll at which SIGUSR2 is requested, 0 for none; updated is last_updated_time. */
  method TspChecker(seen: seq<Seen>, updated: int) returns (fired: nat)
    ensures fired > 0 ==> Fires(seen, fired)
    ensures forall n: nat :: Fires(seen, n) ==> 0 < fired <= n
  {
    var timebase, exitCount, lastUpdated, k := 0, 0, updated, 0;
    while k < |seen|
      invariant 0 <= k <= |seen| && timebase == (if k < 10 then k else 10)
      invariant 0 <= exitCount <= 3 && (exitCount > 0 ==> k - exitCount >= 9)
      invariant k > 0 ==> lastUpdated == seen[k - 1].ctime
      invariant forall i :: 0 <= i && k - exitCount - 1 <= i < k ==> seen[i].ctime == seen[k - 1].ctime
      invariant k - exitCount >= 10 ==> seen[k - exitCount - 2].ctime != seen[k - exitCount - 1].ctime
      invariant forall n: nat :: Fires(seen, n) ==> n > k
    {
      if timebase != 10 {
        timebase := timebase + 1;
      } else if !seen[k].present {
        return k + 1;
      }
      if lastUpdated == seen[k].ctime && timebase == 10 {
        if exitCount > 2 {
          return k + 1;
        }
        exitCount := exitCount + 1;
      } else {
        exitCount := 0;
        lastUpdated := seen[k].ctime;
      }
      k := k + 1;
    }
    return 0;
  }
}
