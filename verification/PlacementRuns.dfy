/** Runs of `get_core` (scheduler.cc): what the load bounds of `LoadBalance` say about the cores that a
  * run of placements leaves behind. */
module PlacementRuns {
  import opened Options
  import opened SchedulerCore
  import opened Scheduling
  import opened Placement
  import opened LoadBalance

  // One call of `get_core`, with its three clock readings.
  datatype Ask = Ask(exec: nat, call: CallId, current: nat, now1: nat, now2: nat)

  // The job that a placement books.
  function Jobs(asks: seq<Ask>): (jobs: seq<Job>)
    ensures |jobs| == |asks|
    ensures forall i :: 0 <= i < |asks| ==> jobs[i] == Job(Max(asks[i].exec, 1), asks[i].current, asks[i].now2)
  {
    seq(|asks|, i requires 0 <= i < |asks| => Job(Max(asks[i].exec, 1), asks[i].current, asks[i].now2))
  }

  // The calls are all known-short or all not, and the clock does not go back.
  ghost predicate InTurn(asks: seq<Ask>, lo: nat) {
    && (forall i :: 0 <= i < |asks| ==>
          FirstEligible(asks[i].exec) == lo && asks[i].current <= asks[i].now1 <= asks[i].now2)
    && (forall i, j :: 0 <= i < j < |asks| ==> asks[i].now2 <= asks[j].current)
  }

  lemma {:induction false} BacklogOfOne(lo: nat, busy: seq<nat>, now: nat, k: nat)
    requires lo <= k < |busy|
    ensures Max(busy[k], now) - now <= Backlog(lo, busy, now)
    decreases |busy|
  {
    if k < |busy| - 1 { BacklogOfOne(lo, busy[..|busy| - 1], now, k); }
  }

  lemma {:induction false} TotalOfPrefix(jobs: seq<Job>, n: nat)
    requires n < |jobs|
    ensures Total(jobs[..n]) + jobs[n].exec <= Total(jobs)
    decreases |jobs|
  {
    var m := |jobs| - 1;
    if n < m {
      TotalOfPrefix(jobs[..m], n);
      assert jobs[..m][..n] == jobs[..n];
    }
  }

  // The jobs of a prefix, as `LoadBalance` wants them.
  lemma {:induction false} JobsInTurn(asks: seq<Ask>, lo: nat, busy: seq<nat>, n: nat, now: nat)
    requires InTurn(asks, lo) && 0 < n <= |asks| && asks[n - 1].now2 <= now
    requires forall i :: 0 <= i < |busy| ==> busy[i] <= asks[0].current
    ensures ClockAdvances(Jobs(asks)[..n], now) && Idle(busy, Jobs(asks)[..n])
  {
    var jobs := Jobs(asks)[..n];
    forall i, j | 0 <= i < j < n ensures jobs[i].now <= jobs[j].now && jobs[i].now <= now {
      assert asks[i].now2 <= asks[j].current;
      assert i < n - 1 ==> asks[i].now2 <= asks[n - 1].current;
    }
  }

  // Before placement `n` every eligible core has room for its job.
  lemma {:induction false} RoomForOne(lo: nat, busy: seq<nat>, asks: seq<Ask>, n: nat, before: seq<nat>,
                                     now: nat, k: nat)
    requires InTurn(asks, lo) && n < |asks| && lo <= k < |before|
    requires forall i :: 0 <= i < |busy| ==> busy[i] <= asks[0].current
    requires BookedAll(lo, busy, Jobs(asks)[..n], before)
    requires asks[|asks| - 1].now2 <= now && now + Total(Jobs(asks)) <= ULLONG_MAX
    ensures asks[n].now2 <= ULLONG_MAX
    ensures Max(before[k], asks[n].current) + Max(asks[n].exec, 1) <= ULLONG_MAX
  {
    var a, jobs := asks[n], Jobs(asks);
    assert n < |asks| - 1 ==> a.now2 <= asks[|asks| - 1].current;
    TotalOfPrefix(jobs, n);
    if n > 0 {
      assert asks[n - 1].now2 <= a.current;
      JobsInTurn(asks, lo, busy, n, a.current);
      Balanced(lo, busy, jobs[..n], before, a.current);
      BacklogOfOne(lo, before, a.current, k);
    }
  }

  lemma {:induction false} RoomForAll(lo: nat, busy: seq<nat>, asks: seq<Ask>, n: nat, before: seq<nat>, now: nat)
    requires InTurn(asks, lo) && n < |asks| && |busy| == |before| > HW_Q_COUNT
    requires forall i :: 0 <= i < |busy| ==> busy[i] <= asks[0].current
    requires forall i :: 0 <= i < lo && i < |before| ==> before[i] == busy[i]
    requires BookedAll(lo, busy, Jobs(asks)[..n], before)
    requires asks[|asks| - 1].now2 <= now && now + Total(Jobs(asks)) <= ULLONG_MAX
    ensures asks[n].now2 <= ULLONG_MAX && asks[n].exec <= ULLONG_MAX && before[HW_Q_COUNT] < ULLONG_MAX
    ensures forall k :: 0 <= k < |before| ==> before[k] <= ULLONG_MAX
    ensures forall k :: lo <= k < |before| ==> Max(before[k], asks[n].current) + Max(asks[n].exec, 1) <= ULLONG_MAX
  {
    assert FirstEligible(asks[n].exec) == lo <= HW_Q_COUNT;
    RoomForOne(lo, busy, asks, n, before, now, HW_Q_COUNT);
    forall k | lo <= k < |before|
      ensures Max(before[k], asks[n].current) + Max(asks[n].exec, 1) <= ULLONG_MAX
    {
      RoomForOne(lo, busy, asks, n, before, now, k);
    }
    assert n > 0 ==> asks[0].now2 <= asks[n].current;
    assert asks[0].current <= asks[0].now2;
  }

  lemma {:induction false} BookOne(lo: nat, busy: seq<nat>, jobs: seq<Job>, n: nat, before: seq<nat>,
                                  after: seq<nat>, k: nat)
    requires n < |jobs| && BookedAll(lo, busy, jobs[..n], before)
    requires Booked(before, after, lo, jobs[n].exec, jobs[n].current, jobs[n].now, k)
    ensures BookedAll(lo, busy, jobs[..n + 1], after)
  {
    assert jobs[..n + 1][..n] == jobs[..n];
  }

  // One more placement in a run: some core is picked, and its job is booked there.
  method PlaceNext(cores: seq<Scheduler>, lo: nat, asks: seq<Ask>, n: nat, ghost busy: seq<nat>, ghost now: nat)
    requires |cores| > HW_Q_COUNT && Distinct(cores) && InTurn(asks, lo) && n < |asks|
    requires |busy| == |cores| && forall i :: 0 <= i < |busy| ==> busy[i] <= asks[0].current
    requires asks[|asks| - 1].now2 <= now && now + Total(Jobs(asks)) <= ULLONG_MAX
    requires BookedAll(lo, busy, Jobs(asks)[..n], BusyTills(cores))
    requires forall i :: 0 <= i < lo && i < |cores| ==> cores[i].busyTill == busy[i]
    modifies cores
    ensures BookedAll(lo, busy, Jobs(asks)[..n + 1], BusyTills(cores))
    ensures forall i :: 0 <= i < lo && i < |cores| ==> cores[i].busyTill == busy[i]
  {
    var a := asks[n];
    ghost var before := BusyTills(cores);
    RoomForAll(lo, busy, asks, n, before, now);
    var core := GetCore(cores, a.exec, a.call, a.current, a.now1, a.now2);
    ghost var k := core.value;
    assert BusyTills(cores) == before[k := BookedTill(before[k], a.exec, a.current)];
    PickedBooks(before, a.exec, a.current, a.now1, a.now2, k);
    BookOne(lo, busy, Jobs(asks), n, before, BusyTills(cores), k);
  }

  // Graham's bound on every eligible core.
  ghost predicate Bounded(lo: nat, busy: seq<nat>, jobs: seq<Job>, now: nat) {
    forall k :: lo <= k < |busy| ==>
      var m, peak := |busy| - lo, Max(busy[k], now) - now;
      m * peak <= Total(jobs) + (m - 1) * Largest(jobs)
  }

  lemma {:induction false} RunIsBalanced(lo: nat, busy: seq<nat>, asks: seq<Ask>, after: seq<nat>, now: nat)
    requires asks != [] && InTurn(asks, lo) && asks[|asks| - 1].now2 <= now
    requires forall i :: 0 <= i < |busy| ==> busy[i] <= asks[0].current
    requires BookedAll(lo, busy, Jobs(asks), after)
    ensures |after| == |busy| && Within(lo, after, now, Largest(Jobs(asks)))
    ensures lo == 0 ==> Within(0, after, now, LONG_FUNC)
    ensures Bounded(lo, after, Jobs(asks), now)
  {
    var jobs := Jobs(asks);
    assert jobs[..|asks|] == jobs;
    JobsInTurn(asks, lo, busy, |asks|, now);
    Balanced(lo, busy, jobs, after, now);
    if lo == 0 {
      assert forall i :: 0 <= i < |asks| ==> FirstEligible(asks[i].exec) == 0;
      ShortCallsStayBalanced(busy, jobs, after, now);
    }
    forall k | lo <= k < |after|
      ensures var m, peak := |after| - lo, Max(after[k], now) - now;
              m * peak <= Total(jobs) + (m - 1) * Largest(jobs)
    {
      GrahamBound(lo, busy, jobs, after, now, k);
    }
  }

  // From idle cores, a run of placements of known-short calls, or of others, that the 64-bit
  // clock can hold leaves the eligible cores within the largest job of each other, and within
  // LONG_FUNC if the calls are short; and each of them within Graham's bound.
  method PlaceAll(cores: seq<Scheduler>, lo: nat, asks: seq<Ask>, ghost now: nat)
    requires |cores| > HW_Q_COUNT && Distinct(cores) && asks != [] && InTurn(asks, lo)
    requires asks[|asks| - 1].now2 <= now && now + Total(Jobs(asks)) <= ULLONG_MAX
    requires forall i :: 0 <= i < |cores| ==> cores[i].busyTill <= asks[0].current
    modifies cores
    ensures Within(lo, BusyTills(cores), now, Largest(Jobs(asks)))
    ensures lo == 0 ==> Within(0, BusyTills(cores), now, LONG_FUNC)
    ensures Bounded(lo, BusyTills(cores), Jobs(asks), now)
    ensures forall i :: 0 <= i < lo && i < |cores| ==> cores[i].busyTill == old(cores[i].busyTill)
  {
    ghost var busy := BusyTills(cores);
    for n := 0 to |asks|
      invariant BookedAll(lo, busy, Jobs(asks)[..n], BusyTills(cores))
      invariant forall i :: 0 <= i < lo && i < |cores| ==> cores[i].busyTill == busy[i]
    {
      PlaceNext(cores, lo, asks, n, busy, now);
    }
    assert Jobs(asks)[..|asks|] == Jobs(asks);
    RunIsBalanced(lo, busy, asks, BusyTills(cores), now);
  }
}
