/** `get_core` (scheduler.cc): the choice of a core for a call on a machine with more
  * than HW_Q_COUNT cores, and how evenly a run of choices loads the cores.
  */
module Placement {
  import opened Options
  import opened SchedulerCore
  import opened Scheduling

  const HW_Q_COUNT: nat := 8
  const LONG_FUNC: nat := 5 * 2400000
  const ULLONG_MAX: nat := 0xFFFF_FFFF_FFFF_FFFF
  const UNKNOWN: nat := ULLONG_MAX   // an execution time of -1, as a uint64_t

  function Max(a: nat, b: nat): (m: nat)
  {
    if a < b then b else a
  }

  // Known-short calls may go to any core, the others only to the big cores.
  function FirstEligible(exec: nat): (lo: nat)
  {
    if exec < LONG_FUNC && exec != UNKNOWN then 0 else HW_Q_COUNT
  }

  // The new booking time of the chosen core, a uint64_t; no job counts as empty.
  function BookedTill(busyTill: nat, exec: nat, current: nat): (till: nat)
  {
    (Max(busyTill, current) + (if exec == 0 then 1 else exec)) % (ULLONG_MAX + 1)
  }

  ghost function BusyTills(cores: seq<Scheduler>): (b: seq<nat>)
    reads cores
    ensures |b| == |cores| && forall i :: 0 <= i < |b| ==> b[i] == cores[i].busyTill
  {
    seq(|cores|, i requires 0 <= i < |cores| reads cores => cores[i].busyTill)
  }

  ghost predicate Distinct(cores: seq<Scheduler>) {
    forall i, j :: 0 <= i < j < |cores| ==> cores[i] != cores[j]
  }

  // Core `k` is free as early as any eligible core.
  ghost predicate EarliestFree(busy: seq<nat>, lo: nat, now: nat, k: nat) {
    lo <= k < |busy| && forall j :: lo <= j < |busy| ==> Max(busy[k], now) <= Max(busy[j], now)
  }

  // A job of `exec` cycles is booked on an eligible core that is free earliest.
  ghost predicate Booked(busy: seq<nat>, busy': seq<nat>, lo: nat, exec: nat, current: nat, now: nat, k: nat) {
    && current <= now && EarliestFree(busy, lo, now, k)
    && busy' == busy[k := Max(busy[k], current) + exec]
  }

  // Core `b` is booked the least of the big ones, and `k` is free before it.
  ghost predicate BeatsBig(busy: seq<nat>, now1: nat, now2: nat, k: nat, b: nat)
    requires HW_Q_COUNT <= b < |busy| && k < |busy|
  {
    && (forall j :: HW_Q_COUNT <= j < |busy| ==> busy[b] <= busy[j])
    && busy[k] < if busy[b] < now1 then now2 else busy[b]
  }

  // What the two scans promise about the core they pick.
  ghost predicate Picked(busy: seq<nat>, exec: nat, now1: nat, now2: nat, k: nat)
    requires |busy| > HW_Q_COUNT
  {
    && EarliestFree(busy, FirstEligible(exec), now2, k)
    // A known-short call takes a small core only if that is free before the first of the big
    // ones, an idle big core counting as free from now on; so on a tie it takes a big core, and
    // never one while some small core is idle.
    && (FirstEligible(exec) == 0 && k >= HW_Q_COUNT ==>
          forall j :: 0 <= j < HW_Q_COUNT ==> busy[j] >= if busy[k] < now1 then now2 else busy[k])
    && (k < HW_Q_COUNT ==> exists b :: HW_Q_COUNT <= b < |busy| && BeatsBig(busy, now1, now2, k, b))
    // Among equals of one kind the first core is taken.
    && forall j :: (if k < HW_Q_COUNT then 0 else HW_Q_COUNT) <= j < k ==> busy[j] > busy[k]
  }

  // The scans of `get_core`. `now1` and `now2` are the clock readings of lines 265 and
  // 266. None stands for the index -1 that the source is left with when every eligible
  // core is booked to the end of time.
  method PickCore(cores: seq<Scheduler>, exec: nat, now1: nat, now2: nat) returns (core: Option<nat>)
    requires |cores| > HW_Q_COUNT && now1 <= now2 <= ULLONG_MAX
    requires forall i :: 0 <= i < |cores| ==> cores[i].busyTill <= ULLONG_MAX
    ensures core.None? <==> forall i :: FirstEligible(exec) <= i < |cores| ==> cores[i].busyTill == ULLONG_MAX
    ensures core.Some? ==> Picked(BusyTills(cores), exec, now1, now2, core.value)
    ensures core.Some? && (exec >= LONG_FUNC || exec == UNKNOWN) ==> core.value >= HW_Q_COUNT
    ensures core.Some? && exec < LONG_FUNC ==> EarliestFree(BusyTills(cores), 0, now2, core.value)
  {
    var min, minIndex := ULLONG_MAX, -1;
    for i := HW_Q_COUNT to |cores|
      invariant -1 <= minIndex < i && (minIndex != -1 ==> HW_Q_COUNT <= minIndex && min == cores[minIndex].busyTill)
      invariant minIndex == -1 ==> min == ULLONG_MAX
      invariant forall j :: HW_Q_COUNT <= j < i ==> min <= cores[j].busyTill
      invariant minIndex != -1 ==>
                  min < ULLONG_MAX && forall j :: HW_Q_COUNT <= j < minIndex ==> cores[j].busyTill > min
    {
      if cores[i].busyTill < min {
        min, minIndex := cores[i].busyTill, i;
      }
    }
    ghost var bigIndex := minIndex;
    if exec < LONG_FUNC && exec != UNKNOWN {
      if min < now1 {
        min := now2;
      }
      ghost var limit := min;
      for i := 0 to HW_Q_COUNT
        invariant (minIndex == bigIndex && min == limit) ||
                  (0 <= minIndex < i && min == cores[minIndex].busyTill < limit)
        invariant forall j :: 0 <= j < i ==> min <= cores[j].busyTill
        invariant minIndex != bigIndex ==> forall j :: 0 <= j < minIndex ==> cores[j].busyTill > min
      {
        if cores[i].busyTill < min {
          min, minIndex := cores[i].busyTill, i;
        }
      }
    }
    if minIndex == -1 {
      return None;
    }
    ghost var busy := BusyTills(cores);
    if minIndex < HW_Q_COUNT {
      assert BeatsBig(busy, now1, now2, minIndex, if bigIndex == -1 then HW_Q_COUNT else bigIndex);
    }
    return Some(minIndex);
  }

  // `current` is the clock reading of line 233.
  method GetCore(cores: seq<Scheduler>, exec: nat, call: CallId, current: nat, now1: nat, now2: nat)
    returns (core: Option<nat>)
    requires |cores| > HW_Q_COUNT && Distinct(cores)
    requires exec <= ULLONG_MAX && current <= now1 <= now2 <= ULLONG_MAX
    requires forall i :: 0 <= i < |cores| ==> cores[i].busyTill <= ULLONG_MAX
    modifies cores
    ensures core.None? <==>
            forall i :: FirstEligible(exec) <= i < |cores| ==> old(BusyTills(cores))[i] == ULLONG_MAX
    ensures core.Some? ==> Picked(old(BusyTills(cores)), exec, now1, now2, core.value)
    ensures core.Some? ==>
              var c := cores[core.value];
              && c.View() == Reserve(old(c.View()), call) && c.busy
              && c.busyTill == BookedTill(old(c.busyTill), exec, current) <= ULLONG_MAX
              && (Max(old(c.busyTill), current) + Max(exec, 1) - c.busyTill) % (ULLONG_MAX + 1) == 0
    ensures forall i :: 0 <= i < |cores| && (core.Some? ==> i != core.value) ==> unchanged(cores[i])
  {
    core := PickCore(cores, exec, now1, now2);
    if core.None? {
      return;
    }
    var c := cores[core.value];
    c.busy := true;
    c.q := c.q + [call];
    BookingWraps(c.busyTill, exec, current);
    c.busyTill := BookedTill(c.busyTill, exec, current);
  }

  // The stored time is the sum modulo 2^64. So a call of unknown length, which counts as -1,
  // leaves a core booked to one cycle before the time it is free.
  lemma {:induction false} BookingWraps(busyTill: nat, exec: nat, current: nat)
    ensures BookedTill(busyTill, exec, current) <= ULLONG_MAX
    ensures (Max(busyTill, current) + Max(exec, 1) - BookedTill(busyTill, exec, current)) % (ULLONG_MAX + 1) == 0
    ensures 0 < busyTill <= ULLONG_MAX && current <= busyTill ==> BookedTill(busyTill, UNKNOWN, current) == busyTill - 1
    ensures 0 < current <= ULLONG_MAX && busyTill <= current ==> BookedTill(busyTill, UNKNOWN, current) == current - 1
  {
  }

  // Without 64-bit overflow, what `GetCore` does to the booking times books a job.
  lemma {:induction false} PickedBooks(busy: seq<nat>, exec: nat, current: nat, now1: nat, now2: nat, k: nat)
    requires |busy| > HW_Q_COUNT && Picked(busy, exec, now1, now2, k) && current <= now1 <= now2
    requires Max(busy[k], current) + Max(exec, 1) <= ULLONG_MAX
    ensures Booked(busy, busy[k := BookedTill(busy[k], exec, current)],
                   FirstEligible(exec), Max(exec, 1), current, now2, k)
  {
  }
}

/** How far apart a run of bookings lets the cores drift. */
module LoadBalance {
  import opened Placement

  // One call of `get_core`: its length and the clock before and after the choice.
  datatype Job = Job(exec: nat, current: nat, now: nat)

  // `busy'` is reached from `busy` by booking the jobs in order on the cores from `lo` up.
  ghost predicate BookedAll(lo: nat, busy: seq<nat>, jobs: seq<Job>, busy': seq<nat>)
    decreases |jobs|
  {
    if jobs == [] then busy == busy'
    else
      var last := jobs[|jobs| - 1];
      exists mid: seq<nat>, k: nat :: BookedAll(lo, busy, jobs[..|jobs| - 1], mid) &&
                       Booked(mid, busy', lo, last.exec, last.current, last.now, k)
  }

  // The clock never goes back between one job and the next, and has reached `now`.
  ghost predicate ClockAdvances(jobs: seq<Job>, now: nat) {
    && (forall j :: 0 <= j < |jobs| ==> jobs[j].current <= jobs[j].now <= now)
    && (forall i, j :: 0 <= i < j < |jobs| ==> jobs[i].now <= jobs[j].now)
  }

  ghost predicate Idle(busy: seq<nat>, jobs: seq<Job>) {
    jobs == [] || forall i :: 0 <= i < |busy| ==> busy[i] <= jobs[0].now
  }

  // No two eligible cores become free more than `gap` cycles apart.
  ghost predicate Within(lo: nat, busy: seq<nat>, now: nat, gap: nat) {
    forall i, j :: lo <= i < |busy| && lo <= j < |busy| ==> Max(busy[i], now) <= Max(busy[j], now) + gap
  }

  function Total(jobs: seq<Job>): nat {
    if jobs == [] then 0 else Total(jobs[..|jobs| - 1]) + jobs[|jobs| - 1].exec
  }

  function Largest(jobs: seq<Job>): nat {
    if jobs == [] then 0 else Max(Largest(jobs[..|jobs| - 1]), jobs[|jobs| - 1].exec)
  }

  // Cycles still booked from `now` on, over the cores from `lo` up.
  function Backlog(lo: nat, busy: seq<nat>, now: nat): nat
    decreases |busy|
  {
    if |busy| <= lo then 0
    else Backlog(lo, busy[..|busy| - 1], now) + (Max(busy[|busy| - 1], now) - now)
  }

  lemma {:induction false} BacklogUpdate(lo: nat, busy: seq<nat>, now: nat, k: nat, b: nat)
    requires lo <= k < |busy|
    ensures Backlog(lo, busy[k := b], now) == Backlog(lo, busy, now) - (Max(busy[k], now) - now) + (Max(b, now) - now)
    decreases |busy|
  {
    var n := |busy| - 1;
    if k < n {
      assert busy[k := b][..n] == busy[..n][k := b];
      BacklogUpdate(lo, busy[..n], now, k, b);
    } else {
      assert busy[k := b][..n] == busy[..n];
    }
  }

  lemma {:induction false} BacklogShrinks(lo: nat, busy: seq<nat>, now: nat, later: nat)
    requires now <= later
    ensures Backlog(lo, busy, later) <= Backlog(lo, busy, now)
    decreases |busy|
  {
    if |busy| > lo { BacklogShrinks(lo, busy[..|busy| - 1], now, later); }
  }

  lemma {:induction false} OneMore(a: int, b: int, x: int)
    requires b == a + 1
    ensures b * x == a * x + x
  {
  }

  lemma {:induction false} BacklogAtLeast(lo: nat, busy: seq<nat>, now: nat, least: int)
    requires forall i :: lo <= i < |busy| ==> Max(busy[i], now) - now >= least
    ensures lo <= |busy| ==> Backlog(lo, busy, now) >= (|busy| - lo) * least
    decreases |busy|
  {
    if |busy| > lo {
      BacklogAtLeast(lo, busy[..|busy| - 1], now, least);
      OneMore(|busy| - 1 - lo, |busy| - lo, least);
    }
  }

  lemma {:induction false} NoBacklog(lo: nat, busy: seq<nat>, now: nat)
    requires forall i :: 0 <= i < |busy| ==> busy[i] <= now
    ensures Backlog(lo, busy, now) == 0
    decreases |busy|
  {
    if |busy| > lo { NoBacklog(lo, busy[..|busy| - 1], now); }
  }

  // After every run the eligible cores are within the largest job of each other, and no
  // more work is booked than was asked for.
  lemma {:induction false} Balanced(lo: nat, busy: seq<nat>, jobs: seq<Job>, busy': seq<nat>, now: nat)
    requires BookedAll(lo, busy, jobs, busy') && ClockAdvances(jobs, now) && Idle(busy, jobs)
    requires jobs == [] ==> forall i :: 0 <= i < |busy| ==> busy[i] <= now
    ensures |busy'| == |busy| && Within(lo, busy', now, Largest(jobs))
    ensures Backlog(lo, busy', now) <= Total(jobs)
    decreases |jobs|
  {
    if jobs == [] {
      NoBacklog(lo, busy, now);
    } else {
      var n := |jobs| - 1;
      var last := jobs[n];
      var mid: seq<nat>, k: nat :| BookedAll(lo, busy, jobs[..n], mid) &&
                                   Booked(mid, busy', lo, last.exec, last.current, last.now, k);
      Balanced(lo, busy, jobs[..n], mid, last.now);
      BacklogUpdate(lo, mid, last.now, k, busy'[k]);
      BacklogShrinks(lo, busy', last.now, now);
      BookingKeepsWithin(lo, mid, busy', last, now, k, Largest(jobs[..n]), Largest(jobs));
    }
  }

  lemma {:induction false} BookingKeepsWithin(lo: nat, mid: seq<nat>, busy': seq<nat>, last: Job, now: nat, k: nat,
                              gap: nat, gap': nat)
    requires Booked(mid, busy', lo, last.exec, last.current, last.now, k) && last.now <= now
    requires Within(lo, mid, last.now, gap) && gap <= gap' && last.exec <= gap'
    ensures Within(lo, busy', now, gap')
  {
    forall i, j | lo <= i < |busy'| && lo <= j < |busy'|
      ensures Max(busy'[i], now) <= Max(busy'[j], now) + gap'
    {
      assert Max(mid[k], last.now) <= Max(mid[j], last.now);
      assert Max(mid[i], last.now) <= Max(mid[j], last.now) + gap;
    }
  }

  // Starting from idle cores, any run of known-short calls leaves all cores of the
  // machine within LONG_FUNC cycles of each other.
  lemma {:induction false} ShortCallsStayBalanced(busy: seq<nat>, jobs: seq<Job>, busy': seq<nat>, now: nat)
    requires BookedAll(0, busy, jobs, busy') && ClockAdvances(jobs, now) && Idle(busy, jobs) && jobs != []
    requires forall j :: 0 <= j < |jobs| ==> jobs[j].exec < LONG_FUNC
    ensures Within(0, busy', now, LONG_FUNC)
  {
    Balanced(0, busy, jobs, busy', now);
    LargestBelow(jobs, LONG_FUNC);
  }

  lemma {:induction false} LargestBelow(jobs: seq<Job>, bound: nat)
    requires forall j :: 0 <= j < |jobs| ==> jobs[j].exec < bound
    ensures Largest(jobs) <= bound
    decreases |jobs|
  {
    if jobs != [] { LargestBelow(jobs[..|jobs| - 1], bound); }
  }

  // Graham's bound, over all cores (lo = 0) or over the big ones (lo = HW_Q_COUNT):
  // m * peak <= total + (m - 1) * largest, in cycles booked ahead of the clock.
  lemma {:induction false} GrahamBound(lo: nat, busy: seq<nat>, jobs: seq<Job>, busy': seq<nat>, now: nat, k: nat)
    requires BookedAll(lo, busy, jobs, busy') && ClockAdvances(jobs, now) && Idle(busy, jobs) && jobs != []
    requires lo <= k < |busy'|
    ensures var m, peak := |busy'| - lo, Max(busy'[k], now) - now;
            m * peak <= Total(jobs) + (m - 1) * Largest(jobs)
  {
    Balanced(lo, busy, jobs, busy', now);
    var peak, largest := Max(busy'[k], now) - now, Largest(jobs);
    forall i | lo <= i < |busy'| ensures Max(busy'[i], now) - now >= peak - largest {
      assert Max(busy'[k], now) <= Max(busy'[i], now) + largest;
    }
    // The core `k` itself carries the whole peak, the others all but the largest job.
    var others := busy'[k := now];
    BacklogUpdate(lo, busy', now, k, now);
    OthersAtLeast(lo, others, now, k, peak - largest);
    GrahamArithmetic(|busy'| - lo, peak, largest, Total(jobs));
  }

  lemma {:induction false} GrahamArithmetic(m: nat, peak: int, largest: int, total: int)
    requires peak + (m - 1) * (peak - largest) <= total
    ensures m * peak <= total + (m - 1) * largest
  {
    assert (m - 1) * (peak - largest) == m * peak - peak - (m - 1) * largest;
  }

  lemma {:induction false} OthersAtLeast(lo: nat, busy: seq<nat>, now: nat, k: nat, least: int)
    requires lo <= k < |busy| && busy[k] == now
    requires forall i :: lo <= i < |busy| && i != k ==> Max(busy[i], now) - now >= least
    ensures Backlog(lo, busy, now) >= (|busy| - lo - 1) * least
    decreases |busy|
  {
    var n := |busy| - 1;
    if k < n {
      OthersAtLeast(lo, busy[..n], now, k, least);
      OneMore(n - lo - 1, |busy| - lo - 1, least);
    } else {
      BacklogAtLeast(lo, busy[..n], now, least);
    }
  }
}
