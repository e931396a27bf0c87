/** What the scheduler guarantees over every run. */
module ProtocolTheorems {
  import opened Options
  import opened SchedulerCore
  import opened Protocol
  import opened ProtocolInvariant

  // ---- nothing the scheduler has promised to do can fail -----------------------------------

  // In a reachable state every message can be delivered, every due dispatch and posted
  // task can run, and every invocation whose calls have all returned can reply: no lookup
  // in a request map or table comes up empty. Every core accepts requests, and every running
  // invocation can make calls, at any time.
  lemma {:induction false} PendingWorkIsEnabled(n: nat, s: State)
    requires Reachable(n, s)
    ensures |s.wakes| == |s.cores|
    ensures forall m :: m in s.msgs ==> Enabled(s, if m.RunFuncMsg? then DeliverRun(m) else DeliverReply(m))
    ensures forall c :: 0 <= c < |s.cores| && s.wakes[c] > 0 ==> Enabled(s, Wake(c))
    ensures forall c, i :: 0 <= c < |s.cores| && i in s.cores[c].tasks ==> Enabled(s, BeginCall(c, i))
    ensures forall i :: 0 <= i < |s.calls| && s.calls[i].phase == Running && AllReturned(s, i) ==> Enabled(s, Finish(i))
    ensures forall c, place, fuse :: 0 <= c < |s.cores| && 0 <= place < |s.cores| ==> Enabled(s, Accept(c, place, fuse))
    ensures forall i, place :: 0 <= i < |s.calls| && s.calls[i].phase == Running && 0 <= place < |s.cores| ==>
              Enabled(s, Issue(i, place))
  {
    ReachableInv(n, s);
    forall i, place | 0 <= i < |s.calls| && s.calls[i].phase == Running && 0 <= place < |s.cores|
      ensures Enabled(s, Issue(i, place))
    {
      assert CallOk(s, i);
    }
    forall m | m in s.msgs ensures Enabled(s, if m.RunFuncMsg? then DeliverRun(m) else DeliverReply(m)) {
      if m.RunFuncMsg? { assert MsgOk(s, m) && CallOk(s, m.call); } else { BackIsReady(s, m); }
    }
    forall c | 0 <= c < |s.cores| && s.wakes[c] > 0 ensures Enabled(s, Wake(c)) {
      assert CoreOk(s, c);
    }
    forall c, i | 0 <= c < |s.cores| && i in s.cores[c].tasks ensures Enabled(s, BeginCall(c, i)) {
      assert CoreOk(s, c);
    }
    forall i | 0 <= i < |s.calls| && s.calls[i].phase == Running && AllReturned(s, i) ensures Enabled(s, Finish(i)) {
      FinishIsDue(s, i);
    }
  }

  // ---- deadlock freedom ------------------------------------------------------------------------

  // Nothing can happen but a new request, or a new call by a running invocation.
  ghost predicate Quiescent(s: State) {
    forall e :: Enabled(s, e) ==> e.Accept? || e.Issue?
  }

  // Every accepted request and every call is answered and every core is as at the start.
  ghost predicate Drained(s: State) {
    && (forall i :: 0 <= i < |s.calls| ==> s.calls[i].phase == Done && s.calls[i].delivered == [Served(s.calls[i])])
    && (forall c :: 0 <= c < |s.cores| ==> s.cores[c] == IdleCore)
  }

  lemma {:induction false} PhaseEnables(s: State, i: CallId)
    requires Inv(s) && i < |s.calls|
    ensures match s.calls[i].phase
            case InFlight => Enabled(s, DeliverRun(RunMsg(s, i)))
            case Ready => Enabled(s, BeginCall(s.calls[i].place, i))
            case Running => AllReturned(s, i) ==> Enabled(s, Finish(i))
            case Returning => Enabled(s, DeliverReply(BackMsg(s, i)))
            case _ => true
  {
    assert CallOk(s, i) && CallAt(s, s.calls[i].place, i);
    match s.calls[i].phase
    case Running => FinishIsDue(s, i);
    case Returning => BackIsReady(s, BackMsg(s, i));
    case _ =>
  }

  lemma {:induction false} QuietPhases(s: State, i: CallId)
    requires Inv(s) && Quiescent(s) && i < |s.calls|
    ensures s.calls[i].phase in {Arrived, Running, Done}
    ensures s.calls[i].phase == Running ==> !AllReturned(s, i)
  {
    PhaseEnables(s, i);
  }

  // An invocation that waits, waits in the end for a task that has arrived but not started.
  lemma {:induction false} WaitsFor(s: State, i: CallId) returns (j: CallId)
    requires Inv(s) && Quiescent(s) && i < |s.calls| && s.calls[i].phase == Running
    ensures j < |s.calls| && s.calls[j].phase == Arrived
    ensures !s.calls[i].fuse && s.calls[i].readyAt < s.calls[j].issuedAt
    decreases |s.calls| - i
  {
    QuietPhases(s, i);
    j :| 0 <= j < |s.calls| && s.calls[j].parent == Some(i) && s.calls[j].phase != Done;
    assert CallOk(s, j) && ChildOk(s, j);
    QuietPhases(s, j);
    if s.calls[j].phase == Running {
      j := WaitsFor(s, j);
    }
  }

  lemma {:induction false} NoFusedRuns(s: State, i: CallId)
    requires Inv(s) && Quiescent(s) && i < |s.calls| && s.calls[i].fuse
    ensures s.calls[i].phase == Done
  {
    QuietPhases(s, i);
    assert CallOk(s, i);
    if s.calls[i].phase == Running {
      var j := WaitsFor(s, i);
    }
  }

  // A core that holds an arrived task is stuck on an unfused call it started last.
  lemma {:induction false} StuckOn(s: State, i: CallId) returns (x: CallId)
    requires Inv(s) && Quiescent(s) && i < |s.calls| && s.calls[i].phase == Arrived
    ensures s.calls[i].place < |s.cores|
    ensures x < |s.calls| && s.calls[x].phase == Running && !s.calls[x].fuse && s.calls[x].place == s.calls[i].place
    ensures s.calls[x].readyAt == s.lastTry[s.calls[i].place]
  {
    var c := s.calls[i].place;
    assert CallOk(s, i) && CallAt(s, c, i) && CoreOk(s, c) && ExcusedOk(s, c);
    assert !Enabled(s, Wake(c));
    var core := s.cores[c];
    assert !SendingBack(s, c) by {
      if SendingBack(s, c) {
        var k :| 0 <= k < |s.calls| && s.calls[k].phase == Returning && s.calls[k].place == c;
        QuietPhases(s, k);
      }
    }
    var h := core.q[0];
    assert CallAt(s, c, h);
    QuietPhases(s, h);
    if s.calls[h].fuse { NoFusedRuns(s, h); }
    assert core.currWf == {} by {
      if r :| r in core.currWf {
        assert CallAt(s, c, r);
        NoFusedRuns(s, r);
      }
    }
    x := s.lastStart[c].value;
    QuietPhases(s, x);
  }

  // Along a chain of stuck cores the times of the last dispatch would increase for ever.
  lemma {:induction false} NothingWaits(s: State, i: CallId)
    requires Inv(s) && Quiescent(s) && i < |s.calls|
    ensures s.calls[i].phase != Arrived
    decreases s.clock - (if s.calls[i].place < |s.lastTry| then s.lastTry[s.calls[i].place] else 0)
  {
    if s.calls[i].phase == Arrived {
      var c := s.calls[i].place;
      var x := StuckOn(s, i);
      var j := WaitsFor(s, x);
      assert CallOk(s, j) && TriedOk(s, j) && CoreOk(s, s.calls[j].place);
      assert !Enabled(s, Wake(s.calls[j].place));
      NothingWaits(s, j);
    }
  }

  lemma {:induction false} DeadlockFreedom(n: nat, s: State)
    requires Reachable(n, s) && Quiescent(s)
    ensures Drained(s)
  {
    ReachableInv(n, s);
    forall i | 0 <= i < |s.calls| ensures s.calls[i].phase == Done && s.calls[i].delivered == [Served(s.calls[i])] {
      QuietPhases(s, i);
      NothingWaits(s, i);
      assert CallOk(s, i);
      if s.calls[i].phase == Running {
        var j := WaitsFor(s, i);
        NothingWaits(s, j);
      }
    }
    forall c | 0 <= c < |s.cores| ensures s.cores[c] == IdleCore { AllDoneIdle(s, c); }
  }

  lemma {:induction false} AllDoneIdle(s: State, c: CoreId)
    requires Inv(s) && c < |s.cores| && forall i :: 0 <= i < |s.calls| ==> s.calls[i].phase == Done
    ensures s.cores[c] == IdleCore
  {
    var core := s.cores[c];
    assert CoreOk(s, c);
    assert core.q == [] || core.q[0] in core.q;
    forall i: CallId
      ensures i !in core.q && i !in core.taskMap && i !in core.tasks && i !in core.currReq
      ensures i !in core.currWf && i !in core.replies && i !in core.callbacks
    {
      if i < |s.calls| { assert CallAt(s, c, i); }
    }
    assert core.taskMap == {} && core.currReq == {} && core.currWf == {} && core.callbacks == {};
    assert core.tasks == multiset{};
    assert core.replies.Keys == {};
  }

  // ---- dispatches ---------------------------------------------------------------------------------

  // The dispatches an event leaves due on core `c`: one where a task arrives, and where a reply
  // is served; when that reply was sent back, also where it came from.
  ghost predicate LeavesDue(s: State, e: Event, c: CoreId) {
    match e
    case DeliverRun(m) => m.RunFuncMsg? && c == m.to
    case Finish(i) => i < |s.calls| && c == s.calls[i].issuer == s.calls[i].place
    case DeliverReply(m) => m.ReplyMsg? && (c == m.to || c == m.from)
    case _ => false
  }

  // Each event leaves exactly these due, and only a dispatch uses one up.
  ghost predicate DueAfter(s: State, e: Event, t: State, c: CoreId)
    requires c < |s.cores| == |s.wakes|
  {
    && |t.wakes| == |t.cores| == |s.cores|
    && t.wakes[c] + (if e == Wake(c) then 1 else 0) == s.wakes[c] + (if LeavesDue(s, e, c) then 1 else 0)
  }

  lemma {:induction false} CallDue(s: State, e: Event, c: CoreId)
    requires Enabled(s, e) && c < |s.cores| && !e.Finish? && !e.DeliverReply?
    ensures DueAfter(s, e, Step(s, e), c)
  {
  }

  lemma {:induction false} FinishDue(s: State, i: CallId, c: CoreId)
    requires Inv(s) && Enabled(s, Finish(i)) && c < |s.cores|
    ensures DueAfter(s, Finish(i), Step(s, Finish(i)), c)
  {
    FinishIsDue(s, i);
    assert CallOk(s, i) && CallAt(s, s.calls[i].place, i);
  }

  lemma {:induction false} DeliverReplyDue(s: State, m: Msg, c: CoreId)
    requires BackDue(s, m) && c < |s.cores|
    ensures DueAfter(s, DeliverReply(m), DeliverReplyAt(s, m), c)
  {
  }

  lemma {:induction false} StepDue(s: State, e: Event, c: CoreId)
    requires Inv(s) && Enabled(s, e) && c < |s.cores|
    ensures DueAfter(s, e, Step(s, e), c)
  {
    match e
    case Finish(i) => FinishDue(s, i, c);
    case DeliverReply(m) =>
      BackIsReady(s, m);
      assert CallOk(s, m.call);
      DeliverReplyDue(s, m, c);
    case _ => CallDue(s, e, c);
  }

  lemma {:induction false} DispatchesDue(n: nat, s: State, e: Event, c: CoreId)
    requires Reachable(n, s) && Enabled(s, e) && c < |s.cores|
    ensures DueAfter(s, e, Step(s, e), c)
  {
    ReachableInv(n, s);
    StepDue(s, e, c);
  }

  lemma {:induction false} StaysDue(s: State, es: seq<Event>, t: State, c: CoreId)
    requires Inv(s) && Run(s, es, t) && c < |s.cores| && s.wakes[c] > 0 && Wake(c) !in es
    ensures Inv(t) && c < |t.cores| && t.wakes[c] > 0
    decreases |es|
  {
    if es != [] {
      assert es[0] != Wake(c);
      StepKeeps(s, es[0]);
      StepDue(s, es[0], c);
      StaysDue(Step(s, es[0]), es[1..], t, c);
    }
  }

  // So on every core where a task arrives or a reply is served, a dispatch follows, later in the
  // same run, before the machine comes to rest.
  lemma {:induction false} DispatchFollows(n: nat, s: State, e: Event, c: CoreId, es: seq<Event>, t: State)
    requires Reachable(n, s) && Enabled(s, e) && c < |s.cores| && LeavesDue(s, e, c)
    requires Run(Step(s, e), es, t) && Quiescent(t)
    ensures Wake(c) in es
  {
    ReachableInv(n, s);
    StepKeeps(s, e);
    DispatchesDue(n, s, e, c);
    if Wake(c) !in es {
      StaysDue(Step(s, e), es, t, c);
      assert CoreOk(t, c);
      assert Enabled(t, Wake(c));
    }
  }

  // ---- every run comes to rest ----------------------------------------------------------------

  // Events a call may still cause, counting the dispatches they leave due.
  function Remaining(p: Phase): nat {
    match p
    case InFlight => 8
    case Arrived => 6
    case Ready => 5
    case Running => 4
    case Returning => 3
    case Done => 0
  }

  function CallWork(calls: seq<Call>): nat {
    if calls == [] then 0 else CallWork(calls[..|calls| - 1]) + Remaining(calls[|calls| - 1].phase)
  }

  function WakeWork(wakes: seq<nat>): nat {
    if wakes == [] then 0 else WakeWork(wakes[..|wakes| - 1]) + wakes[|wakes| - 1]
  }

  function Work(s: State): nat {
    CallWork(s.calls) + WakeWork(s.wakes)
  }

  lemma {:induction false} CallWorkUpdate(calls: seq<Call>, i: nat, k: Call)
    requires i < |calls|
    ensures CallWork(calls[i := k]) == CallWork(calls) - Remaining(calls[i].phase) + Remaining(k.phase)
    decreases |calls|
  {
    var n := |calls| - 1;
    if i < n {
      assert calls[i := k][..n] == calls[..n][i := k];
      CallWorkUpdate(calls[..n], i, k);
    } else {
      assert calls[i := k][..n] == calls[..n];
    }
  }

  lemma {:induction false} WakeWorkUpdate(wakes: seq<nat>, i: nat, w: nat)
    requires i < |wakes|
    ensures WakeWork(wakes[i := w]) == WakeWork(wakes) - wakes[i] + w
    decreases |wakes|
  {
    var n := |wakes| - 1;
    if i < n {
      assert wakes[i := w][..n] == wakes[..n][i := w];
      WakeWorkUpdate(wakes[..n], i, w);
    } else {
      assert wakes[i := w][..n] == wakes[..n];
    }
  }

  lemma {:induction false} NoWakeWork(n: nat)
    ensures WakeWork(seq(n, i => 0)) == 0
  {
    if n > 0 {
      assert seq(n, i => 0)[..n - 1] == seq(n - 1, i => 0);
      NoWakeWork(n - 1);
    }
  }

  lemma {:induction false} DeliverRunWork(s: State, m: Msg)
    requires RunReady(s, m)
    ensures Work(DeliverRunAt(s, m)) < Work(s)
  {
    var t := DeliverRunAt(s, m);
    CallWorkUpdate(s.calls, m.call, t.calls[m.call]);
    WakeWorkUpdate(s.wakes, m.to, t.wakes[m.to]);
  }

  lemma {:induction false} WakeEventWork(s: State, c: CoreId)
    requires Enabled(s, Wake(c)) && (HeadStarts(s.cores[c]) ==> CallAt(s, c, s.cores[c].q[0]))
    ensures Work(WakeAt(s, c)) < Work(s)
  {
    var t := WakeAt(s, c);
    WakeWorkUpdate(s.wakes, c, t.wakes[c]);
    if HeadStarts(s.cores[c]) {
      var h := s.cores[c].q[0];
      CallWorkUpdate(s.calls, h, t.calls[h]);
    }
  }

  lemma {:induction false} BeginWork(s: State, c: CoreId, i: CallId)
    requires Enabled(s, BeginCall(c, i)) && CallAt(s, c, i)
    ensures Work(BeginAt(s, c, i)) < Work(s)
  {
    CallWorkUpdate(s.calls, i, BeginAt(s, c, i).calls[i]);
  }

  lemma {:induction false} ReplyWork(s: State, core: CoreId, x: CallId)
    requires ReplyDue(s, core, x)
    ensures Work(ReplyAt(s, core, s.calls[x].req, x)) < Work(s)
    ensures s.calls[x].phase == Returning ==> Work(ReplyAt(s, core, s.calls[x].req, x)) == Work(s) - 2
  {
    var t := ReplyAt(s, core, s.calls[x].req, x);
    CallWorkUpdate(s.calls, x, t.calls[x]);
    WakeWorkUpdate(s.wakes, core, s.wakes[core] + 1);
  }

  lemma {:induction false} DeliverReplyWork(s: State, m: Msg)
    requires BackDue(s, m)
    ensures Work(DeliverReplyAt(s, m)) < Work(s)
  {
    var u := s.(msgs := s.msgs - multiset{m});
    assert CallAt(u, m.to, m.call) && ReplyDue(u, m.to, m.call);
    ReplyWork(u, m.to, m.call);
    var v := ReplyAt(u, m.to, m.req, m.call);
    WakeWorkUpdate(v.wakes, m.from, v.wakes[m.from] + 1);
  }

  lemma {:induction false} AddWork(s: State, parent: Option<CallId>, req: CallId, issuer: CoreId, place: CoreId,
                              fuse: bool)
    requires issuer < |s.cores| && place < |s.cores|
    ensures var t := AddCall(s, parent, req, issuer, place, fuse);
            |t.calls| == |s.calls| + 1 && Work(t) == Work(s) + 8
  {
    var t := AddCall(s, parent, req, issuer, place, fuse);
    assert t.calls[..|s.calls|] == s.calls;
  }

  // Every event but a new request or call uses up work.
  lemma {:induction false} StepWork(s: State, e: Event)
    requires Inv(s) && Enabled(s, e)
    ensures var t := Step(s, e);
            if e.Accept? || e.Issue? then |t.calls| == |s.calls| + 1 && Work(t) == Work(s) + 8
            else |t.calls| == |s.calls| && Work(t) < Work(s)
  {
    match e
    case Accept(core, place, fuse) => AddWork(s, None, |s.calls|, core, place, fuse);
    case Issue(parent, place) =>
      var p := s.calls[parent];
      var fuse := s.calls[p.req].fuse;
      AddWork(s, Some(parent), p.req, p.ranOn[0], if fuse then p.ranOn[0] else place, fuse);
    case DeliverRun(m) =>
      RunIsReady(s, m);
      DeliverRunWork(s, m);
    case Wake(c) => WakeEventWork(s, c);
    case BeginCall(c, i) => BeginWork(s, c, i);
    case Finish(i) =>
      FinishIsDue(s, i);
      ReplyWork(s, s.calls[i].place, i);
    case DeliverReply(m) =>
      BackIsReady(s, m);
      assert BackDue(s, m);
      DeliverReplyWork(s, m);
  }

  lemma {:induction false} RunWork(s: State, es: seq<Event>, t: State)
    requires Inv(s) && Run(s, es, t)
    ensures |s.calls| <= |t.calls| && |es| + Work(t) <= Work(s) + 9 * (|t.calls| - |s.calls|)
    decreases |es|
  {
    if es != [] {
      StepKeeps(s, es[0]);
      StepWork(s, es[0]);
      RunWork(Step(s, es[0]), es[1..], t);
    }
  }

  // A run that makes `n` requests and calls in all takes at most `9 * n` events, so every
  // run with a finite call tree comes to rest; by `DeadlockFreedom` it rests drained.
  lemma {:induction false} RunsAreBounded(n: nat, es: seq<Event>, t: State)
    requires Run(Init(n), es, t)
    ensures |es| <= 9 * |t.calls|
  {
    InitInv(n);
    NoWakeWork(n);
    RunWork(Init(n), es, t);
  }

  // ---- replies are routed exactly once -----------------------------------------------------------

  // The function of a call runs once, on the chosen core; its reply crosses cores at most
  // once; its promise is set or its callback runs once, on the issuing core, and from
  // then on no core remembers it.
  lemma {:induction false} ExactlyOnce(n: nat, s: State, i: CallId)
    requires Reachable(n, s) && i < |s.calls|
    ensures var k := s.calls[i];
            && k.ranOn <= [k.place] && k.delivered <= [Served(k)]
            && k.sentBack <= (if k.issuer == k.place then 0 else 1)
            && (k.delivered != [] ==> k.ranOn == [k.place] && k.sentBack == (if k.issuer == k.place then 0 else 1))
            && (k.delivered != [] ==> forall c :: 0 <= c < |s.cores| ==> Forgotten(s.cores[c], i))
            && (k.delivered != [] ==> forall m :: m in s.msgs ==> m.call != i)
            && (k.delivered == [] ==> k.issuer < |s.cores| && i in s.cores[k.issuer].replies)
  {
    ReachableInv(n, s);
    assert CallOk(s, i);
    forall c | 0 <= c < |s.cores| && s.calls[i].phase == Done ensures Forgotten(s.cores[c], i) {
      assert CallAt(s, c, i);
    }
    assert CallAt(s, s.calls[i].issuer, i);
  }

  // What a reply comes to, wherever it is served: on the issuing core the promise of a request
  // is set and the callback of any other call runs; on any other core it is sent back.
  lemma {:induction false} OutcomeOfReply(n: nat, s: State, e: Event, i: CallId, c: CoreId)
    requires Reachable(n, s) && Enabled(s, e) && ServesReply(s, e, i, c)
    ensures c < |s.cores| && i < |s.calls| && i in s.cores[c].replies
    ensures var k, o := s.calls[i], ReplyOutcome(s.cores[c].replies[i], c);
            && (o == Answered <==> k.parent.None? && c == k.issuer)
            && (o == CalledBack <==> k.parent.Some? && c == k.issuer)
            && (o == SentBack(k.issuer) <==> c != k.issuer)
  {
    ReachableInv(n, s);
    match e
    case Finish(x) => FinishIsDue(s, x);
    case DeliverReply(m) => BackIsReady(s, m);
    assert CallOk(s, i) && CallAt(s, c, i);
  }

  // `reply` runs for call `i` on core `c`.
  ghost predicate ServesReply(s: State, e: Event, i: CallId, c: CoreId) {
    match e
    case Finish(x) => x == i && IsRunning(s, x) && c == s.calls[x].ranOn[0]
    case DeliverReply(m) => m.ReplyMsg? && m.call == i && m.to == c
    case _ => false
  }

  ghost predicate Forgotten(core: Core, i: CallId) {
    i !in core.q && i !in core.taskMap && i !in core.tasks && i !in core.currReq && i !in core.currWf &&
    i !in core.replies && i !in core.callbacks
  }

  // ---- tasks are conserved and start in order ------------------------------------------------------

  // An unfused call is in flight or waiting in its slot, never both, until it starts; then
  // it has neither slot nor waiting task nor message again. A waiting task lies in its slot,
  // and no slot is given twice.
  lemma {:induction false} SlotsAndTasks(n: nat, s: State, c: CoreId, i: CallId)
    requires Reachable(n, s) && c < |s.cores| && i < |s.calls| && !s.calls[i].fuse
    ensures Increasing(s.cores[c].q)
    ensures i in s.cores[c].q <==>
            s.calls[i].place == c && (RunMsg(s, i) in s.msgs || i in s.cores[c].taskMap)
    ensures !(RunMsg(s, i) in s.msgs && i in s.cores[c].taskMap)
    ensures s.msgs[RunMsg(s, i)] <= 1 && s.cores[c].tasks[i] <= 1
    ensures i in s.cores[c].taskMap ==> i !in s.cores[c].tasks && s.calls[i].ranOn == []
    ensures i in s.cores[c].tasks ==> i !in s.cores[c].q && RunMsg(s, i) !in s.msgs && s.calls[i].ranOn == []
    ensures i in s.cores[c].taskMap ==> i in s.cores[c].q
    ensures Started(s.calls[i]) ==> i !in s.cores[c].q && i !in s.cores[c].taskMap && RunMsg(s, i) !in s.msgs
  {
    ReachableInv(n, s);
    assert CallOk(s, i) && CallAt(s, c, i) && CoreOk(s, c);
  }

  // Unfused calls placed on one core start in the order in which `get_core` reserved
  // their slots, in whatever order their messages arrive.
  lemma {:induction false} StartsInOrder(n: nat, s: State, i: CallId, j: CallId)
    requires Reachable(n, s) && i < j < |s.calls|
    requires !s.calls[i].fuse && !s.calls[j].fuse && s.calls[i].place == s.calls[j].place
    requires Started(s.calls[j])
    ensures Started(s.calls[i]) && s.calls[i].readyAt < s.calls[j].readyAt
  {
    ReachableInv(n, s);
    assert FifoOk(s, i, j);
  }

  // ---- fused requests --------------------------------------------------------------------------------

  // All calls of a fused request run, and all their callbacks run, on the core chosen for
  // its root; `curr_wf` is the set of fused requests that are active.
  lemma {:induction false} FusedTogether(n: nat, s: State, i: CallId)
    requires Reachable(n, s) && i < |s.calls| && s.calls[i].fuse
    ensures s.calls[i].req < |s.calls|
    ensures s.calls[i].place == s.calls[s.calls[i].req].place && s.calls[i].ranOn <= [s.calls[s.calls[i].req].place]
    ensures s.calls[i].parent.Some? ==> s.calls[i].delivered <= [Delivery(CalledBack, s.calls[s.calls[i].req].place)]
    ensures forall c, r :: 0 <= c < |s.cores| ==> (r in s.cores[c].currWf <==> ActiveAt(s, c, r))
  {
    ReachableInv(n, s);
    FusedPlace(s, i);
    assert CallOk(s, i);
    forall c, r | 0 <= c < |s.cores| ensures r in s.cores[c].currWf <==> ActiveAt(s, c, r) {
      ActiveRequests(n, s, c, r);
    }
  }

  // `r` is a fused request whose root is on core `c`: it has arrived there and not replied.
  ghost predicate ActiveAt(s: State, c: CoreId, r: CallId) {
    r < |s.calls| && s.calls[r].fuse && s.calls[r].req == r && s.calls[r].place == c && AtPlace(s.calls[r])
  }

  // The `curr_wf` of a core is exactly the set of fused requests that are active there.
  lemma {:induction false} ActiveRequests(n: nat, s: State, c: CoreId, r: CallId)
    requires Reachable(n, s) && c < |s.cores|
    ensures r in s.cores[c].currWf <==> ActiveAt(s, c, r)
  {
    ReachableInv(n, s);
    assert CoreOk(s, c);
    if r < |s.calls| { assert CallOk(s, r) && CallAt(s, c, r); }
  }

  lemma {:induction false} FusedPlace(s: State, i: CallId)
    requires Inv(s) && i < |s.calls| && s.calls[i].fuse
    ensures s.calls[i].req < |s.calls| && s.calls[i].place == s.calls[s.calls[i].req].place
    ensures s.calls[i].parent.Some? ==> s.calls[i].req < i && s.calls[i].issuer == s.calls[i].place
    decreases i
  {
    assert CallOk(s, i);
    if s.calls[i].parent.Some? {
      assert ChildOk(s, i);
      var p := s.calls[i].parent.value;
      assert CallOk(s, p);
      FusedPlace(s, p);
    }
  }

  // What an event is about, if it is not a new call.
  ghost predicate About(s: State, e: Event, i: CallId) {
    match e
    case DeliverRun(m) => m.call == i && (m.req < |s.calls| ==> s.calls[m.req].fuse)
    case Wake(c) => c < |s.cores| && HeadStarts(s.cores[c]) && s.cores[c].q[0] == i
    case BeginCall(_, x) => x == i
    case Finish(x) => x == i
    case DeliverReply(m) => m.call == i
    case _ => false
  }

  lemma {:induction false} OthersKeepPhase(s: State, e: Event, i: CallId)
    requires Enabled(s, e) && i < |s.calls| && !Started(s.calls[i]) && !About(s, e, i)
    ensures |s.calls| <= |Step(s, e).calls| && !Started(Step(s, e).calls[i])
  {
  }

  lemma {:induction false} AboutUnstarted(s: State, e: Event, i: CallId)
    requires Inv(s) && Enabled(s, e) && i < |s.calls| && !s.calls[i].fuse && !Started(s.calls[i])
    ensures About(s, e, i) ==> e.Wake? && e.core == s.calls[i].place
  {
    match e
    case DeliverRun(m) => RunIsReady(s, m);
    case Wake(c) => assert CallAt(s, c, i);
    case BeginCall(c, x) => assert CallAt(s, c, x);
    case DeliverReply(m) => BackIsReady(s, m);
    case _ =>
  }

  // Only a dispatch that finds the slot of an unfused call at the head starts the call.
  lemma {:induction false} OnlyDispatchStarts(s: State, e: Event, i: CallId)
    requires Inv(s) && Enabled(s, e) && i < |s.calls| && !s.calls[i].fuse && !Started(s.calls[i])
    ensures |s.calls| <= |Step(s, e).calls|
    ensures Started(Step(s, e).calls[i]) ==>
              e.Wake? && e.core == s.calls[i].place && HeadStarts(s.cores[e.core]) && s.cores[e.core].q[0] == i
  {
    AboutUnstarted(s, e, i);
    if !About(s, e, i) { OthersKeepPhase(s, e, i); }
  }

  lemma {:induction false} ActiveIsMarked(s: State, r: CallId)
    requires Inv(s) && r < |s.calls| && s.calls[r].fuse && AtPlace(s.calls[r])
    ensures s.calls[r].place < |s.cores| && s.cores[s.calls[r].place].currWf != {}
  {
    assert CallOk(s, r);
    if s.calls[r].parent.Some? { RootRuns(s, r); }
    var root := s.calls[r].req;
    assert CallOk(s, root) && CallAt(s, s.calls[r].place, root);
  }

  // No event starts a queued task on a core while a fused request is active there.
  lemma {:induction false} FusedApart(n: nat, s: State, e: Event, i: CallId, r: CallId)
    requires Reachable(n, s) && Enabled(s, e) && i < |s.calls| && r < |s.calls|
    requires !s.calls[i].fuse && !Started(s.calls[i])
    requires s.calls[r].fuse && s.calls[r].place == s.calls[i].place && AtPlace(s.calls[r])
    ensures |s.calls| <= |Step(s, e).calls| && !Started(Step(s, e).calls[i])
  {
    ReachableInv(n, s);
    OnlyDispatchStarts(s, e, i);
    ActiveIsMarked(s, r);
  }
}
