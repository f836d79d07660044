/**
 * `NitterRotator` (src/data_fetcher.py): round-robin over the configured Nitter
 * instances, skipping an instance for one hour after it fails. Times are
 * integers in microseconds (the resolution of Python's `datetime`), and the
 * current time is a parameter of the operations that read the clock.
 */
module Rotator {
  import opened Wrappers

  /** `{"healthy": ..., "last_failed": ...}` for one instance. */
  datatype Status = Status(healthy: bool, lastFailed: Option<int>)

  /** `timedelta(hours=1)` in microseconds. */
  const COOLDOWN := 3_600_000_000

  /** Unhealthy, with a failure less than an hour before `now`: the instance is skipped. */
  predicate InCooldown(s: Status, now: int) {
    !s.healthy && s.lastFailed.Some? && now - s.lastFailed.value < COOLDOWN
  }

  /** `current_index` after `k` steps of `(i + 1) % n` from `start`, for up to one full turn. */
  function Advance(start: nat, k: nat, n: nat): (i: nat)
    requires start < n && k <= n
    ensures i < n
  {
    if start + k < n then start + k else start + k - n
  }

  /** One more step of `(i + 1) % n`. */
  lemma AdvanceStep(start: nat, k: nat, n: nat)
    requires start < n && k < n
    ensures Advance(start, k + 1, n) == (Advance(start, k, n) + 1) % n
  {
    var i := Advance(start, k, n);
    assert (i + 1) % n == if i + 1 < n then i + 1 else 0;
  }

  /** The instance examined `k` steps after `start` in rotation order. */
  function At(instances: seq<string>, start: nat, k: nat): string
    requires start < |instances| && k < |instances|
  {
    instances[Advance(start, k, |instances|)]
  }

  /** Every instance has a status. */
  predicate Tracked(instances: seq<string>, status: map<string, Status>) {
    forall i <- instances :: i in status
  }

  /**
   * The number of instances a search from `start` passes over: the first offset
   * whose instance is not in cooldown, or `|instances|` when all of them are.
   */
  function FirstAvailable(instances: seq<string>, status: map<string, Status>, start: nat, now: int, from: nat): (k: nat)
    requires Tracked(instances, status) && from <= |instances| && (|instances| > 0 ==> start < |instances|)
    requires forall j :: 0 <= j < from ==> InCooldown(status[At(instances, start, j)], now)
    ensures from <= k <= |instances|
    ensures k < |instances| ==> !InCooldown(status[At(instances, start, k)], now)
    ensures forall j :: 0 <= j < k ==> InCooldown(status[At(instances, start, j)], now)
    decreases |instances| - from
  {
    if from == |instances| then from
    else if !InCooldown(status[At(instances, start, from)], now) then from
    else FirstAvailable(instances, status, start, now, from + 1)
  }

  /** Offset `a`, reached by the search, is where it stops exactly when that instance is not in cooldown. */
  lemma SearchStopsAtFirst(instances: seq<string>, status: map<string, Status>, start: nat, now: int, a: nat)
    requires Tracked(instances, status) && start < |instances| && a < |instances|
    requires a <= FirstAvailable(instances, status, start, now, 0)
    ensures var k := FirstAvailable(instances, status, start, now, 0);
            if InCooldown(status[At(instances, start, a)], now) then a < k else a == k
  {
  }

  /** Every instance is met within one turn of the rotation, whatever the starting point. */
  lemma RotationCovers(instances: seq<string>, start: nat, m: nat) returns (j: nat)
    requires m < |instances| && start < |instances|
    ensures j < |instances| && At(instances, start, j) == instances[m]
  {
    j := if m >= start then m - start else m + |instances| - start;
  }

  /** The search finds nothing exactly when the list is empty or every instance is in cooldown. */
  lemma NothingAvailableIffAllCooling(instances: seq<string>, status: map<string, Status>, start: nat, now: int)
    requires Tracked(instances, status) && (|instances| > 0 ==> start < |instances|)
    ensures FirstAvailable(instances, status, start, now, 0) == |instances|
            <==> forall i <- instances :: InCooldown(status[i], now)
  {
    var k := FirstAvailable(instances, status, start, now, 0);
    if k == |instances| {
      forall i <- instances
        ensures InCooldown(status[i], now)
      {
        var m :| 0 <= m < |instances| && instances[m] == i;
        var j := RotationCovers(instances, start, m);
      }
    }
  }

  /** A failure recorded at `failedAt` keeps the instance out for exactly an hour. */
  lemma FailureCoolsDownForAnHour(failedAt: int, now: int)
    ensures InCooldown(Status(false, Some(failedAt)), now) <==> now < failedAt + COOLDOWN
    ensures !InCooldown(Status(true, Some(failedAt)), now)
  {
  }

  class NitterRotator {
    var instances: seq<string>
    var instanceStatus: map<string, Status>
    var currentIndex: nat

    /** The status table has an entry for exactly the configured instances, and the index points into the list. */
    ghost predicate Valid()
      reads this
    {
      (forall i :: i in instanceStatus <==> i in instances)
      && (if |instances| == 0 then currentIndex == 0 else currentIndex < |instances|)
    }

    /** `__init__`: every instance healthy and never failed, rotation at the first one. */
    constructor(nitterInstances: seq<string>)
      ensures Valid()
      ensures instances == nitterInstances && currentIndex == 0
      ensures forall i <- instances :: instanceStatus[i] == Status(true, None)
    {
      instances := nitterInstances;
      instanceStatus := map i | i in nitterInstances :: Status(true, None);
      currentIndex := 0;
    }

    /**
     * `get_next_instance`: the first instance, going round from `currentIndex`,
     * that is not in cooldown. The index ends one past it; an unhealthy instance
     * whose cooldown is over (or that never recorded a failure) is marked healthy
     * again. When every instance is cooling down the result is `None` and the
     * index has gone full circle back to where it was.
     */
    method GetNextInstance(now: int) returns (r: Option<string>)
      requires Valid()
      modifies this
      ensures Valid() && instances == old(instances)
      ensures var k := FirstAvailable(old(instances), old(instanceStatus), old(currentIndex), now, 0);
              if k == |instances| then
                r.None? && currentIndex == old(currentIndex) && instanceStatus == old(instanceStatus)
              else
                var chosen := At(instances, old(currentIndex), k);
                r == Some(chosen)
                && currentIndex == Advance(old(currentIndex), k + 1, |instances|)
                && instanceStatus == old(instanceStatus)[chosen := old(instanceStatus)[chosen].(healthy := true)]
    {
      ghost var start := currentIndex;
      ghost var k := FirstAvailable(instances, instanceStatus, start, now, 0);
      var attempts := 0;
      while attempts < |instances|
        invariant 0 <= attempts <= k
        invariant instanceStatus == old(instanceStatus) && instances == old(instances) && Valid()
        invariant |instances| > 0 ==> currentIndex == Advance(start, attempts, |instances|)
        invariant |instances| == 0 ==> currentIndex == start
        decreases |instances| - attempts
      {
        var instance := instances[currentIndex];
        assert instance == At(instances, start, attempts);
        SearchStopsAtFirst(instances, instanceStatus, start, now, attempts);
        AdvanceStep(start, attempts, |instances|);
        currentIndex := (currentIndex + 1) % |instances|;
        assert currentIndex == Advance(start, attempts + 1, |instances|);
        var status := instanceStatus[instance];
        if !status.healthy {
          if status.lastFailed.Some? && now - status.lastFailed.value < COOLDOWN {
            attempts := attempts + 1;
            continue;
          } else {
            instanceStatus := instanceStatus[instance := status.(healthy := true)];
          }
        }
        return Some(instance);
      }
      return None;
    }

    /** `mark_failed`: a known instance becomes unhealthy, failed at `now`; nothing else changes. */
    method MarkFailed(instance: string, now: int)
      requires Valid()
      modifies this
      ensures Valid() && instances == old(instances) && currentIndex == old(currentIndex)
      ensures instanceStatus == if instance in old(instanceStatus)
                                then old(instanceStatus)[instance := Status(false, Some(now))]
                                else old(instanceStatus)
    {
      if instance in instanceStatus {
        instanceStatus := instanceStatus[instance := Status(false, Some(now))];
      }
    }

    /** `mark_healthy`: a known instance becomes healthy, its last failure kept; nothing else changes. */
    method MarkHealthy(instance: string)
      requires Valid()
      modifies this
      ensures Valid() && instances == old(instances) && currentIndex == old(currentIndex)
      ensures instanceStatus == if instance in old(instanceStatus)
                                then old(instanceStatus)[instance := old(instanceStatus)[instance].(healthy := true)]
                                else old(instanceStatus)
    {
      if instance in instanceStatus {
        instanceStatus := instanceStatus[instance := instanceStatus[instance].(healthy := true)];
      }
    }
  }
}
