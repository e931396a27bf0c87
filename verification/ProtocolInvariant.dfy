/** Where everything about a call is, at every moment of every run: the invariant of
  * the protocol and the proof that each event keeps it. */
module ProtocolInvariant {
  import opened Options
  import opened SchedulerCore
  import opened Protocol

  ghost predicate HasSlot(k: Call) {
    if k.fuse then k.parent.None? && k.phase in {InFlight, Ready, Running}
    else k.phase in {InFlight, Arrived}
  }

  ghost predicate AtPlace(k: Call) {
    k.phase in {Arrived, Ready, Running}
  }

  ghost predicate Started(k: Call) {
    k.phase in {Ready, Running, Returning, Done}
  }

  function RunMsg(s: State, i: CallId): Msg
    requires i < |s.calls|
  {
    RunFuncMsg(s.calls[i].place, s.calls[i].issuer, s.calls[i].req, i)
  }

  function BackMsg(s: State, i: CallId): Msg
    requires i < |s.calls|
  {
    ReplyMsg(s.calls[i].issuer, s.calls[i].place, s.calls[i].req, i)
  }

  // What core `c` holds of call `i`, exactly.
  ghost predicate CallAt(s: State, c: CoreId, i: CallId)
    requires c < |s.cores| && i < |s.calls|
  {
    Holds(s.cores[c], c, i, s.calls[i])
  }

  ghost predicate Holds(core: Core, c: CoreId, i: CallId, k: Call) {
    && (i in core.q <==> k.place == c && HasSlot(k))
    && (i in core.taskMap <==> k.place == c && k.phase == Arrived)
    && core.tasks[i] == (if k.place == c && k.phase == Ready then 1 else 0)
    && (i in core.currReq <==> k.place == c && !k.fuse && AtPlace(k))
    && (i in core.currWf <==> k.place == c && k.fuse && k.parent.None? && AtPlace(k))
    && (i in core.replies <==> (k.issuer == c && k.phase != Done) || (k.place == c && AtPlace(k)))
    && (i in core.replies ==>
          core.replies[i] == if k.issuer == c && k.parent.None? then Local else Via(k.issuer))
    && (i in core.callbacks <==> k.issuer == c && k.parent.Some? && k.phase != Done)
  }

  // A request is answered by its promise, any other call by its callback, on the issuing core.
  function Served(k: Call): Delivery {
    Delivery(if k.parent.None? then Answered else CalledBack, k.issuer)
  }

  // How a call relates to its parent and its request, where its messages are, and
  // what has happened to it so far.
  ghost predicate CallOk(s: State, i: CallId)
    requires i < |s.calls|
  {
    var k := s.calls[i];
    && k.issuer < |s.cores| && k.place < |s.cores| && k.req <= i
    && s.calls[k.req].parent == None && s.calls[k.req].fuse == k.fuse && s.calls[k.req].req == k.req
    && (k.parent.None? ==> k.req == i)
    && (k.parent.Some? ==> ChildOk(s, i))
    && (k.phase == Arrived ==> !k.fuse)
    && s.msgs[RunMsg(s, i)] == (if k.phase == InFlight then 1 else 0)
    && s.msgs[BackMsg(s, i)] == (if k.phase == Returning then 1 else 0)
    && (k.phase == Returning ==> k.issuer != k.place)
    && k.ranOn == (if k.phase in {Running, Returning, Done} then [k.place] else [])
    && k.sentBack == (if k.issuer != k.place && k.phase in {Returning, Done} then 1 else 0)
    && k.delivered == (if k.phase == Done then [Served(k)] else [])
    && k.issuedAt < s.clock && k.readyAt < s.clock
    && (Started(k) ==> k.issuedAt < k.readyAt)
  }

  ghost predicate ChildOk(s: State, i: CallId)
    requires i < |s.calls| && s.calls[i].parent.Some?
  {
    var k := s.calls[i];
    k.parent.value < i &&
    var p := s.calls[k.parent.value];
    && p.req == k.req && p.fuse == k.fuse && p.place == k.issuer
    && (k.fuse ==> k.place == k.issuer)
    && Started(p) && p.readyAt < k.issuedAt
    && (k.phase != Done ==> p.phase == Running)
  }

  // Slots are in reservation order.
  ghost predicate QueueOk(s: State, q: seq<CallId>) {
    Increasing(q) && forall i :: 0 <= i < |q| ==> q[i] < |s.calls|
  }

  // Only calls that exist are on a core.
  ghost predicate CoreOk(s: State, c: CoreId)
    requires c < |s.cores|
  {
    var core := s.cores[c];
    && QueueOk(s, core.q)
    && (forall i :: i in core.taskMap ==> i < |s.calls|)
    && (forall i :: i in core.tasks ==> i < |s.calls|)
    && (forall i :: i in core.currReq ==> i < |s.calls|)
    && (forall i :: i in core.currWf ==> i < |s.calls|)
    && (forall i :: i in core.replies ==> i < |s.calls|)
    && (forall i :: i in core.callbacks ==> i < |s.calls|)
  }

  ghost predicate MsgOk(s: State, m: Msg) {
    m.call < |s.calls| && (m == RunMsg(s, m.call) || m == BackMsg(s, m.call))
  }

  // Unfused calls of one core start in the order of their reservations.
  ghost predicate FifoOk(s: State, i: CallId, j: CallId)
    requires i < |s.calls| && j < |s.calls|
  {
    var a, b := s.calls[i], s.calls[j];
    i < j && !a.fuse && !b.fuse && a.place == b.place && Started(b) ==> Started(a) && a.readyAt < b.readyAt
  }

  // An arrived task either has a dispatch coming or was seen by the last one.
  ghost predicate TriedOk(s: State, i: CallId)
    requires i < |s.calls| && |s.wakes| == |s.lastTry| == |s.cores|
  {
    var k := s.calls[i];
    k.phase == Arrived && k.place < |s.cores| ==> s.wakes[k.place] > 0 || s.lastTry[k.place] > k.issuedAt
  }

  ghost predicate SendingBack(s: State, c: CoreId) {
    exists i :: 0 <= i < |s.calls| && s.calls[i].phase == Returning && s.calls[i].place == c
  }

  // Why core `c` is not dispatching: there is always a reason.
  ghost predicate ExcusedOk(s: State, c: CoreId)
    requires c < |s.cores| == |s.wakes| == |s.lastTry| == |s.lastStart|
  {
    var core := s.cores[c];
    || s.wakes[c] > 0
    || SendingBack(s, c)
    || core.q == [] || core.q[0] !in core.taskMap || core.currWf != {}
    || (s.lastStart[c].Some? && StartedLast(s, c, s.lastStart[c].value))
  }

  // `i` was started by the last dispatch of core `c` and has not replied.
  ghost predicate StartedLast(s: State, c: CoreId, i: CallId)
    requires c < |s.lastTry|
  {
    i < |s.calls| &&
    var k := s.calls[i];
    !k.fuse && k.place == c && k.phase in {Ready, Running} && k.readyAt == s.lastTry[c]
  }

  ghost predicate Sized(s: State) {
    |s.wakes| == |s.lastTry| == |s.lastStart| == |s.cores|
  }

  ghost predicate CallsOk(s: State) {
    forall i :: 0 <= i < |s.calls| ==> CallOk(s, i)
  }

  ghost predicate PlacesOk(s: State) {
    forall c, i :: 0 <= c < |s.cores| && 0 <= i < |s.calls| ==> CallAt(s, c, i)
  }

  ghost predicate CoresOk(s: State) {
    forall c :: 0 <= c < |s.cores| ==> CoreOk(s, c)
  }

  ghost predicate MsgsOk(s: State) {
    forall m :: m in s.msgs ==> MsgOk(s, m)
  }

  ghost predicate FifosOk(s: State) {
    forall i, j :: 0 <= i < |s.calls| && 0 <= j < |s.calls| ==> FifoOk(s, i, j)
  }

  ghost predicate TriesOk(s: State)
    requires Sized(s)
  {
    && (forall i :: 0 <= i < |s.calls| ==> TriedOk(s, i))
    && (forall c :: 0 <= c < |s.cores| ==> s.lastTry[c] <= s.clock)
  }

  ghost predicate ExcusesOk(s: State)
    requires Sized(s)
  {
    forall c :: 0 <= c < |s.cores| ==> ExcusedOk(s, c)
  }

  ghost predicate Inv(s: State) {
    Sized(s) && CallsOk(s) && PlacesOk(s) && CoresOk(s) && MsgsOk(s) && FifosOk(s) && TriesOk(s) && ExcusesOk(s)
  }

  lemma {:induction false} InitInv(n: nat)
    ensures Inv(Init(n))
  {
  }

  // ---- new calls ----------------------------------------------------------------------

  // What the caller of `schedule` guarantees about a new call.
  ghost predicate Fresh(s: State, parent: Option<CallId>, req: CallId, issuer: CoreId, place: CoreId, fuse: bool)
  {
    && issuer < |s.cores| && place < |s.cores|
    && (parent.None? ==> req == |s.calls|)
    && (parent.Some? ==>
          parent.value < |s.calls| &&
          var p := s.calls[parent.value];
          p.phase == Running && p.req == req && p.fuse == fuse && p.place == issuer && (fuse ==> place == issuer))
  }

  lemma {:induction false} AddCallAt(s: State, parent: Option<CallId>, req: CallId, issuer: CoreId, place: CoreId,
                              fuse: bool,
                  c: CoreId, i: CallId)
    requires Fresh(s, parent, req, issuer, place, fuse)
    requires c < |s.cores| && i <= |s.calls| && CoreOk(s, c)
    requires i < |s.calls| ==> CallAt(s, c, i)
    ensures CallAt(AddCall(s, parent, req, issuer, place, fuse), c, i)
  {
  }

  lemma {:induction false} AddCoreOk(s: State, parent: Option<CallId>, req: CallId, issuer: CoreId, place: CoreId,
                              fuse: bool, c: CoreId)
    requires Fresh(s, parent, req, issuer, place, fuse)
    requires c < |s.cores| && CoreOk(s, c)
    ensures CoreOk(AddCall(s, parent, req, issuer, place, fuse), c)
  {
    var t, q := AddCall(s, parent, req, issuer, place, fuse), s.cores[c].q;
    assert QueueOk(t, q) && QueueOk(t, q + [|s.calls|]);
    assert t.cores[c].q == q || t.cores[c].q == q + [|s.calls|];
  }

  lemma {:induction false} AddCallOk(s: State, parent: Option<CallId>, req: CallId, issuer: CoreId, place: CoreId,
                              fuse: bool, i: CallId)
    requires Fresh(s, parent, req, issuer, place, fuse)
    requires i <= |s.calls| && (i < |s.calls| ==> CallOk(s, i))
    requires parent.Some? ==> CallOk(s, parent.value)
    requires forall m :: m in s.msgs ==> MsgOk(s, m)
    ensures CallOk(AddCall(s, parent, req, issuer, place, fuse), i)
  {
  }

  lemma {:induction false} AddExcused(s: State, parent: Option<CallId>, req: CallId, issuer: CoreId, place: CoreId,
                              fuse: bool, c: CoreId)
    requires Fresh(s, parent, req, issuer, place, fuse)
    requires |s.wakes| == |s.lastTry| == |s.lastStart| == |s.cores|
    requires c < |s.cores| && CoreOk(s, c) && ExcusedOk(s, c)
    ensures ExcusedOk(AddCall(s, parent, req, issuer, place, fuse), c)
  {
    var t := AddCall(s, parent, req, issuer, place, fuse);
    if SendingBack(s, c) {
      var i :| 0 <= i < |s.calls| && s.calls[i].phase == Returning && s.calls[i].place == c;
      assert t.calls[i] == s.calls[i];
    }
  }

  lemma {:induction false} AddKeeps(s: State, parent: Option<CallId>, req: CallId, issuer: CoreId, place: CoreId,
                              fuse: bool)
    requires Inv(s) && Fresh(s, parent, req, issuer, place, fuse)
    ensures Inv(AddCall(s, parent, req, issuer, place, fuse))
  {
    var t := AddCall(s, parent, req, issuer, place, fuse);
    forall c | 0 <= c < |t.cores| ensures CoreOk(t, c) && ExcusedOk(t, c) {
      AddCoreOk(s, parent, req, issuer, place, fuse, c);
      AddExcused(s, parent, req, issuer, place, fuse, c);
    }
    forall c, i | 0 <= c < |t.cores| && 0 <= i < |t.calls| ensures CallAt(t, c, i) {
      AddCallAt(s, parent, req, issuer, place, fuse, c, i);
    }
    forall i | 0 <= i < |t.calls| ensures CallOk(t, i) && TriedOk(t, i) {
      AddCallOk(s, parent, req, issuer, place, fuse, i);
      if i < |s.calls| { assert TriedOk(s, i); }
    }
    forall i, j | 0 <= i < |t.calls| && 0 <= j < |t.calls| ensures FifoOk(t, i, j) {
      if i < |s.calls| && j < |s.calls| { assert FifoOk(s, i, j); }
    }
    forall m | m in t.msgs ensures MsgOk(t, m) {
      if m in s.msgs { assert MsgOk(s, m); }
    }
  }

  // ---- requests stay alive while they have unfinished calls -------------------------------

  // The root of an unfinished call has not replied; a fused one runs on the same core.
  lemma {:induction false} RootRuns(s: State, i: CallId)
    requires Inv(s) && i < |s.calls| && s.calls[i].parent.Some? && s.calls[i].phase != Done
    ensures s.calls[i].req < |s.calls| && s.calls[s.calls[i].req].phase == Running
    ensures s.calls[i].fuse ==> s.calls[i].place == s.calls[s.calls[i].req].place
    decreases i
  {
    assert CallOk(s, i) && ChildOk(s, i);
    var p := s.calls[i].parent.value;
    assert CallOk(s, p);
    if s.calls[p].parent.Some? { RootRuns(s, p); }
  }

  // ---- events that change one existing call -----------------------------------------------

  // `t` differs from `s` in the progress of call `x`, and in its messages.
  ghost predicate Moved(s: State, t: State, x: CallId) {
    && Sized(s) && Sized(t) && |s.cores| == |t.cores| && x < |s.calls| == |t.calls|
    && t.calls == s.calls[x := t.calls[x]] && t.clock == s.clock + 1
    && (var k, k' := s.calls[x], t.calls[x];
        && k' == k.(phase := k'.phase, readyAt := k'.readyAt, ranOn := k'.ranOn,
                    sentBack := k'.sentBack, delivered := k'.delivered)
        && (Started(k) ==> Started(k') && k'.readyAt == k.readyAt)
        && (k.phase == Running && k'.phase != Running ==> AllReturned(s, x)))
    && (forall m: Msg :: m.call != x ==> t.msgs[m] == s.msgs[m])
    && (forall m: Msg :: m in t.msgs && m.call == x ==> MsgOk(s, m))
  }

  // The other calls do not notice.
  lemma {:induction false} MovedCalls(s: State, t: State, x: CallId)
    requires CallsOk(s) && MsgsOk(s) && Moved(s, t, x) && CallOk(t, x)
    ensures CallsOk(t) && MsgsOk(t)
  {
    forall i | 0 <= i < |t.calls| ensures CallOk(t, i) {
      assert CallOk(s, i);
      if i != x { MovedCall(s, t, x, i); }
    }
    forall m | m in t.msgs ensures MsgOk(t, m) {
      assert m.call != x ==> t.msgs[m] == s.msgs[m];
      assert MsgOk(s, m);
    }
  }

  lemma {:induction false} MovedCall(s: State, t: State, x: CallId, i: CallId)
    requires Moved(s, t, x) && i < |s.calls| && i != x && CallOk(s, i)
    ensures CallOk(t, i)
  {
    assert RunMsg(t, i) == RunMsg(s, i) && BackMsg(t, i) == BackMsg(s, i);
  }

  // The order of starts and of dispatch attempts is not touched either.
  ghost predicate Quiet(s: State, t: State, x: CallId)
    requires Sized(s) && Sized(t) && |s.cores| == |t.cores| && x < |s.calls| == |t.calls|
  {
    && (Started(s.calls[x]) == Started(t.calls[x]) || s.calls[x].fuse)
    && t.lastTry == s.lastTry && (forall c :: 0 <= c < |s.cores| ==> t.wakes[c] >= s.wakes[c])
    && (t.calls[x].phase == Arrived ==> TriedOk(t, x))
  }

  lemma {:induction false} MovedOrder(s: State, t: State, x: CallId)
    requires Moved(s, t, x) && Quiet(s, t, x) && FifosOk(s) && TriesOk(s)
    ensures FifosOk(t) && TriesOk(t)
  {
    forall i, j | 0 <= i < |t.calls| && 0 <= j < |t.calls| ensures FifoOk(t, i, j) {
      assert FifoOk(s, i, j);
    }
    forall i | 0 <= i < |t.calls| ensures TriedOk(t, i) {
      assert TriedOk(s, i);
    }
  }

  lemma {:induction false} MovedKeeps(s: State, t: State, x: CallId)
    requires Inv(s) && Moved(s, t, x) && Quiet(s, t, x) && CallOk(t, x)
    requires PlacesOk(t) && CoresOk(t) && ExcusesOk(t)
    ensures Inv(t)
  {
    MovedCalls(s, t, x);
    MovedOrder(s, t, x);
  }

  lemma {:induction false} StillSending(s: State, t: State, x: CallId, c: CoreId)
    requires x < |s.calls| == |t.calls| && t.calls == s.calls[x := t.calls[x]] && SendingBack(s, c)
    requires s.calls[x].phase == Returning ==> s.calls[x].place != c
    ensures SendingBack(t, c)
  {
    var i :| 0 <= i < |s.calls| && s.calls[i].phase == Returning && s.calls[i].place == c;
    assert t.calls[i] == s.calls[i];
  }

  // ---- a run_func message arrives -----------------------------------------------------------

  // What the invariant says about a run_func message in flight.
  ghost predicate RunReady(s: State, m: Msg) {
    Enabled(s, DeliverRun(m)) && m == RunMsg(s, m.call) &&
    var k := s.calls[m.call];
    k.phase == InFlight && s.calls[m.req].fuse == k.fuse && (k.parent.None? ==> m.req == m.call)
    && (k.fuse && k.parent.Some? ==> m.req in s.cores[m.to].currWf)
  }

  lemma {:induction false} RunIsReady(s: State, m: Msg)
    requires Inv(s) && m in s.msgs && m.RunFuncMsg?
    ensures RunReady(s, m)
  {
    assert MsgOk(s, m) && CallOk(s, m.call) && CallOk(s, m.req);
    if s.calls[m.call].parent.Some? {
      RootRuns(s, m.call);
      assert CallAt(s, m.to, m.req);
    }
  }

  lemma {:induction false} DeliverRunCallAt(s: State, m: Msg, c: CoreId, i: CallId)
    requires RunReady(s, m) && c < |s.cores| && i < |s.calls| && CallAt(s, c, i)
    ensures CallAt(DeliverRunAt(s, m), c, i)
  {
  }

  lemma {:induction false} DeliverRunExcused(s: State, m: Msg, c: CoreId)
    requires RunReady(s, m) && c < |s.cores| && ExcusedOk(s, c)
    ensures ExcusedOk(DeliverRunAt(s, m), c)
  {
    if SendingBack(s, c) { StillSending(s, DeliverRunAt(s, m), m.call, c); }
  }

  lemma {:induction false} DeliverRunPlaces(s: State, m: Msg)
    requires RunReady(s, m) && Sized(s) && PlacesOk(s) && CoresOk(s) && ExcusesOk(s)
    ensures var t := DeliverRunAt(s, m); Sized(t) && PlacesOk(t) && CoresOk(t) && ExcusesOk(t)
  {
    var t := DeliverRunAt(s, m);
    forall c, i | 0 <= c < |t.cores| && 0 <= i < |t.calls| ensures CallAt(t, c, i) { DeliverRunCallAt(s, m, c, i); }
    forall c | 0 <= c < |t.cores| ensures CoreOk(t, c) { assert CoreOk(s, c); }
    forall c | 0 <= c < |t.cores| ensures ExcusedOk(t, c) { DeliverRunExcused(s, m, c); }
  }

  lemma {:induction false} DeliverRunMoves(s: State, m: Msg)
    requires RunReady(s, m) && Sized(s) && CallOk(s, m.call) && MsgsOk(s)
    ensures var t := DeliverRunAt(s, m); Moved(s, t, m.call) && Quiet(s, t, m.call) && CallOk(t, m.call)
  {
  }

  lemma {:induction false} DeliverRunKeeps(s: State, m: Msg)
    requires Inv(s) && Enabled(s, DeliverRun(m))
    ensures Inv(DeliverRunAt(s, m))
  {
    var t := DeliverRunAt(s, m);
    RunIsReady(s, m);
    DeliverRunMoves(s, m);
    DeliverRunPlaces(s, m);
    MovedKeeps(s, t, m.call);
  }

  // ---- a dispatch ----------------------------------------------------------------------------

  lemma {:induction false} WakeCallAt(s: State, w: CoreId, c: CoreId, i: CallId)
    requires Enabled(s, Wake(w)) && c < |s.cores| && i < |s.calls| && CallAt(s, c, i)
    requires CoreOk(s, w) && (HeadStarts(s.cores[w]) ==> CallAt(s, w, s.cores[w].q[0]) && CallOk(s, s.cores[w].q[0]))
    ensures CallAt(WakeAt(s, w), c, i)
  {
    var q := s.cores[w].q;
    assert q != [] ==> (i in q <==> i == q[0] || i in q[1..]);
    assert q != [] ==> q[0] !in q[1..];
  }

  // The oldest slot of a core belongs to the unstarted call that was reserved first.
  lemma {:induction false} HeadIsOldest(s: State, w: CoreId, i: CallId)
    requires w < |s.cores| && CoreOk(s, w) && HeadStarts(s.cores[w]) && s.cores[w].q[0] < |s.calls|
    requires i < |s.calls| && CallAt(s, w, i) && s.calls[i].place == w && !s.calls[i].fuse
    ensures Started(s.calls[i]) || s.cores[w].q[0] <= i
  {
  }

  lemma {:induction false} WakeExcused(s: State, w: CoreId, c: CoreId)
    requires Enabled(s, Wake(w)) && c < |s.cores| && ExcusedOk(s, c)
    requires HeadStarts(s.cores[w]) ==> CallAt(s, w, s.cores[w].q[0]) && CallOk(s, s.cores[w].q[0])
    ensures ExcusedOk(WakeAt(s, w), c)
  {
    if c != w && SendingBack(s, c) && HeadStarts(s.cores[w]) {
      StillSending(s, WakeAt(s, w), s.cores[w].q[0], c);
    }
  }

  lemma {:induction false} SameCalls(s: State, t: State)
    requires CallsOk(s) && MsgsOk(s) && t.calls == s.calls && t.msgs == s.msgs && s.clock <= t.clock
    requires |s.cores| == |t.cores|
    ensures CallsOk(t) && MsgsOk(t)
  {
    forall i | 0 <= i < |t.calls| ensures CallOk(t, i) { assert CallOk(s, i); }
    forall m | m in t.msgs ensures MsgOk(t, m) { assert MsgOk(s, m); }
  }

  lemma {:induction false} WakeFifo(s: State, w: CoreId, i: CallId, j: CallId)
    requires Enabled(s, Wake(w)) && CoreOk(s, w) && i < |s.calls| && j < |s.calls|
    requires CallAt(s, w, i) && CallAt(s, w, j) && CallOk(s, i) && FifoOk(s, i, j)
    ensures FifoOk(WakeAt(s, w), i, j)
  {
    if HeadStarts(s.cores[w]) && s.calls[i].place == w && !s.calls[i].fuse { HeadIsOldest(s, w, i); }
  }

  lemma {:induction false} WakeOrder(s: State, w: CoreId)
    requires Inv(s) && Enabled(s, Wake(w))
    ensures FifosOk(WakeAt(s, w)) && TriesOk(WakeAt(s, w))
  {
    var t := WakeAt(s, w);
    forall i, j | 0 <= i < |t.calls| && 0 <= j < |t.calls| ensures FifoOk(t, i, j) {
      WakeFifo(s, w, i, j);
    }
    forall i | 0 <= i < |t.calls| ensures TriedOk(t, i) {
      assert TriedOk(s, i) && CallOk(s, i);
    }
  }

  lemma {:induction false} WakeCoreOk(s: State, w: CoreId, c: CoreId)
    requires Enabled(s, Wake(w)) && c < |s.cores| && CoreOk(s, c)
    ensures CoreOk(WakeAt(s, w), c)
  {
    assert s.cores[c].q != [] ==> QueueOk(s, s.cores[c].q[1..]);
  }

  lemma {:induction false} WakePlaces(s: State, w: CoreId)
    requires Enabled(s, Wake(w)) && PlacesOk(s) && CoresOk(s) && ExcusesOk(s)
    requires HeadStarts(s.cores[w]) ==> CallOk(s, s.cores[w].q[0])
    ensures var t := WakeAt(s, w); Sized(t) && PlacesOk(t) && CoresOk(t) && ExcusesOk(t)
  {
    var t := WakeAt(s, w);
    assert CoreOk(s, w);
    if HeadStarts(s.cores[w]) { assert CallAt(s, w, s.cores[w].q[0]); }
    forall c, i | 0 <= c < |t.cores| && 0 <= i < |t.calls| ensures CallAt(t, c, i) { WakeCallAt(s, w, c, i); }
    forall c | 0 <= c < |t.cores| ensures CoreOk(t, c) { WakeCoreOk(s, w, c); }
    forall c | 0 <= c < |t.cores| ensures ExcusedOk(t, c) { WakeExcused(s, w, c); }
  }

  lemma {:induction false} WakeCalls(s: State, w: CoreId)
    requires Inv(s) && Enabled(s, Wake(w))
    ensures CallsOk(WakeAt(s, w)) && MsgsOk(WakeAt(s, w))
  {
    var t, q := WakeAt(s, w), s.cores[w].q;
    if HeadStarts(s.cores[w]) {
      assert CallAt(s, w, q[0]) && CallOk(s, q[0]);
      WakeMoves(s, w);
      MovedCalls(s, t, q[0]);
    } else {
      SameCalls(s, t);
    }
  }

  lemma {:induction false} WakeMoves(s: State, w: CoreId)
    requires Enabled(s, Wake(w)) && HeadStarts(s.cores[w]) && MsgsOk(s)
    requires var h := s.cores[w].q[0]; CallAt(s, w, h) && CallOk(s, h)
    ensures var t, h := WakeAt(s, w), s.cores[w].q[0]; Moved(s, t, h) && CallOk(t, h)
  {
  }

  lemma {:induction false} WakeKeeps(s: State, w: CoreId)
    requires Inv(s) && Enabled(s, Wake(w))
    ensures Inv(WakeAt(s, w))
  {
    WakeCalls(s, w);
    WakeOrder(s, w);
    assert HeadStarts(s.cores[w]) ==> CallOk(s, s.cores[w].q[0]);
    WakePlaces(s, w);
  }

  // ---- the reactor runs a task ----------------------------------------------------------------

  lemma {:induction false} BeginPlaces(s: State, w: CoreId, x: CallId)
    requires Enabled(s, BeginCall(w, x)) && PlacesOk(s) && CoresOk(s) && ExcusesOk(s)
    ensures var t := BeginAt(s, w, x); Sized(t) && PlacesOk(t) && CoresOk(t) && ExcusesOk(t)
  {
    var t := BeginAt(s, w, x);
    assert CallAt(s, w, x);
    forall c, i | 0 <= c < |t.cores| && 0 <= i < |t.calls| ensures CallAt(t, c, i) { assert CallAt(s, c, i); }
    forall c | 0 <= c < |t.cores| ensures CoreOk(t, c) { assert CoreOk(s, c); }
    forall c | 0 <= c < |t.cores| ensures ExcusedOk(t, c) { BeginExcused(s, w, x, c); }
  }

  lemma {:induction false} BeginExcused(s: State, w: CoreId, x: CallId, c: CoreId)
    requires Enabled(s, BeginCall(w, x)) && CallAt(s, w, x) && c < |s.cores| && ExcusedOk(s, c)
    ensures ExcusedOk(BeginAt(s, w, x), c)
  {
    if SendingBack(s, c) { StillSending(s, BeginAt(s, w, x), x, c); }
  }

  lemma {:induction false} BeginMoves(s: State, w: CoreId, x: CallId)
    requires Enabled(s, BeginCall(w, x)) && CallAt(s, w, x) && CallOk(s, x) && MsgsOk(s)
    ensures var t := BeginAt(s, w, x); Moved(s, t, x) && Quiet(s, t, x) && CallOk(t, x)
  {
  }

  lemma {:induction false} BeginKeeps(s: State, w: CoreId, x: CallId)
    requires Inv(s) && Enabled(s, BeginCall(w, x))
    ensures Inv(BeginAt(s, w, x))
  {
    assert CallAt(s, w, x) && CallOk(s, x);
    BeginMoves(s, w, x);
    BeginPlaces(s, w, x);
    MovedKeeps(s, BeginAt(s, w, x), x);
  }

  // ---- replies ----------------------------------------------------------------------------------

  // The two situations in which `reply` runs for call `x`: on its own core, when
  // JavaScript replies, and on the issuing core, when the reply message arrives.
  ghost predicate ReplyDue(s: State, core: CoreId, x: CallId) {
    x < |s.calls| && CanReply(s, core, s.calls[x].req, x) &&
    var k := s.calls[x];
    && ((k.phase == Running && core == k.place) || (k.phase == Returning && core == k.issuer && k.issuer != k.place))
    && (k.parent.None? ==> k.req == x) && s.calls[k.req].fuse == k.fuse
    && (k.parent.Some? && k.fuse ==> k.place == k.issuer)
    && CallAt(s, core, x)
  }

  // `reply` for call `x` leaves what the core holds of other calls, and nothing of `x`.
  lemma {:induction false} ReplyHolds(core: Core, c: CoreId, x: CallId, k: Call, fuse: bool, i: CallId, l: Call)
    requires Holds(core, c, x, k) && Holds(core, c, i, l) && Increasing(core.q) && x in core.replies && i != x
    requires k.fuse == fuse && (k.parent.None? ==> k.req == x) && (k.fuse && k.parent.Some? ==> k.place == k.issuer)
    requires (k.phase == Running && c == k.place) || (k.phase == Returning && c == k.issuer != k.place)
    ensures Holds(Reply(core, c, k.req, x, fuse), c, i, l)
  {
    EraseFirstMembers(core.q, x, i);
  }

  lemma {:induction false} ReplyHoldsNothing(core: Core, c: CoreId, x: CallId, k: Call, fuse: bool, k': Call)
    requires Holds(core, c, x, k) && Increasing(core.q) && x in core.replies
    requires k.fuse == fuse && (k.parent.None? ==> k.req == x) && (k.fuse && k.parent.Some? ==> k.place == k.issuer)
    requires (k.phase == Running && c == k.place) || (k.phase == Returning && c == k.issuer != k.place)
    requires k'.place == k.place && k'.issuer == k.issuer && k'.parent == k.parent && k'.fuse == k.fuse
    requires k'.phase == if ReplyOutcome(core.replies[x], c).SentBack? then Returning else Done
    ensures Holds(Reply(core, c, k.req, x, fuse), c, x, k')
  {
    EraseFirstMembers(core.q, x, x);
  }

  lemma {:induction false} ReplyCallAt(s: State, core: CoreId, x: CallId, c: CoreId, i: CallId)
    requires ReplyDue(s, core, x)
    requires c < |s.cores| && i < |s.calls| && CallAt(s, c, i) && CoreOk(s, c)
    ensures CallAt(ReplyAt(s, core, s.calls[x].req, x), c, i)
  {
    var k := s.calls[x];
    if c == core {
      if i == x {
        ReplyHoldsNothing(s.cores[c], c, x, k, k.fuse, ReplyAt(s, core, k.req, x).calls[x]);
      } else {
        ReplyHolds(s.cores[c], c, x, k, k.fuse, i, s.calls[i]);
      }
    }
  }

  lemma {:induction false} ReplyCoreOk(s: State, core: CoreId, x: CallId, c: CoreId)
    requires ReplyDue(s, core, x) && c < |s.cores| && CoreOk(s, c)
    ensures CoreOk(ReplyAt(s, core, s.calls[x].req, x), c)
  {
    var q := s.cores[c].q;
    assert QueueOk(s, EraseFirst(q, x)) by {
      EraseFirstIncreasing(q, x);
      forall i | 0 <= i < |EraseFirst(q, x)| ensures EraseFirst(q, x)[i] < |s.calls| {
        EraseFirstMembers(q, x, EraseFirst(q, x)[i]);
      }
    }
  }

  // The core that replies is woken, or its reply is under way and will wake it.
  lemma {:induction false} ReplyExcused(s: State, core: CoreId, x: CallId, c: CoreId)
    requires ReplyDue(s, core, x) && c < |s.cores| == |s.wakes| == |s.lastTry| == |s.lastStart| && ExcusedOk(s, c)
    requires s.calls[x].phase == Returning ==> c != s.calls[x].place
    ensures ExcusedOk(ReplyAt(s, core, s.calls[x].req, x), c)
  {
    var t := ReplyAt(s, core, s.calls[x].req, x);
    assert t.calls[x].phase == Returning ==> t.calls[x].place == core;
    if SendingBack(s, c) { StillSending(s, t, x, c); }
  }

  lemma {:induction false} FinishPlaces(s: State, x: CallId)
    requires Enabled(s, Finish(x)) && ReplyDue(s, s.calls[x].ranOn[0], x) && s.calls[x].phase == Running
    requires PlacesOk(s) && CoresOk(s) && ExcusesOk(s)
    ensures var t := Step(s, Finish(x)); Sized(t) && PlacesOk(t) && CoresOk(t) && ExcusesOk(t)
  {
    var t, core := Step(s, Finish(x)), s.calls[x].ranOn[0];
    forall c, i | 0 <= c < |t.cores| && 0 <= i < |t.calls| ensures CallAt(t, c, i) { ReplyCallAt(s, core, x, c, i); }
    forall c | 0 <= c < |t.cores| ensures CoreOk(t, c) { ReplyCoreOk(s, core, x, c); }
    forall c | 0 <= c < |t.cores| ensures ExcusedOk(t, c) { ReplyExcused(s, core, x, c); }
  }

  lemma {:induction false} FinishMoves(s: State, x: CallId)
    requires Enabled(s, Finish(x)) && CallOk(s, x) && ReplyDue(s, s.calls[x].ranOn[0], x) && MsgsOk(s)
    ensures Moved(s, Step(s, Finish(x)), x) && Quiet(s, Step(s, Finish(x)), x)
  {
    assert MsgOk(s, BackMsg(s, x));
  }

  lemma {:induction false} FinishedOk(s: State, x: CallId)
    requires Enabled(s, Finish(x)) && CallOk(s, x) && ReplyDue(s, s.calls[x].ranOn[0], x)
    ensures CallOk(Step(s, Finish(x)), x)
  {
  }

  // When JavaScript replies for `x`, the books of its core are as `reply` expects them.
  lemma {:induction false} FinishIsDue(s: State, x: CallId)
    requires Inv(s) && x < |s.calls| && s.calls[x].phase == Running
    ensures CallOk(s, x) && s.calls[x].ranOn == [s.calls[x].place] && ReplyDue(s, s.calls[x].place, x)
  {
    var core := s.calls[x].place;
    assert CallOk(s, x) && CallAt(s, core, x) && CallOk(s, s.calls[x].req);
  }

  lemma {:induction false} FinishKeeps(s: State, x: CallId)
    requires Inv(s) && Enabled(s, Finish(x))
    ensures Inv(Step(s, Finish(x)))
  {
    FinishIsDue(s, x);
    FinishMoves(s, x);
    FinishedOk(s, x);
    FinishPlaces(s, x);
    MovedKeeps(s, Step(s, Finish(x)), x);
  }

  // What the invariant says about a reply message in flight.
  lemma {:induction false} BackIsReady(s: State, m: Msg)
    requires Inv(s) && m in s.msgs && m.ReplyMsg?
    ensures Enabled(s, DeliverReply(m)) && m == BackMsg(s, m.call) && s.calls[m.call].phase == Returning
    ensures ReplyDue(s, m.to, m.call)
  {
    assert MsgOk(s, m) && CallOk(s, m.call) && CallOk(s, m.req) && CallAt(s, m.to, m.call);
  }

  ghost predicate BackDue(s: State, m: Msg) {
    && Enabled(s, DeliverReply(m)) && m == BackMsg(s, m.call) && s.calls[m.call].phase == Returning
    && Sized(s) && ReplyDue(s, m.to, m.call) && CallOk(s, m.call)
  }

  lemma {:induction false} ReplyMoved(s: State, m: Msg)
    requires BackDue(s, m) && MsgsOk(s)
    ensures Moved(s, DeliverReplyAt(s, m), m.call) && Quiet(s, DeliverReplyAt(s, m), m.call)
  {
  }

  lemma {:induction false} RepliedOk(s: State, m: Msg)
    requires BackDue(s, m)
    ensures CallOk(DeliverReplyAt(s, m), m.call)
  {
  }

  lemma {:induction false} DeliverReplyExcused(s: State, m: Msg, c: CoreId)
    requires BackDue(s, m) && c < |s.cores| && ExcusedOk(s, c)
    ensures ExcusedOk(DeliverReplyAt(s, m), c)
  {
    var u := s.(msgs := s.msgs - multiset{m});
    assert CallAt(u, m.to, m.call) && ReplyDue(u, m.to, m.call);
    assert ExcusedOk(u, c) by {
      if SendingBack(s, c) {
        var i :| 0 <= i < |s.calls| && s.calls[i].phase == Returning && s.calls[i].place == c;
        assert u.calls[i] == s.calls[i];
      }
    }
    if c != m.from { ReplyExcused(u, m.to, m.call, c); }
  }

  lemma {:induction false} DeliverReplyPlaces(s: State, m: Msg)
    requires BackDue(s, m) && PlacesOk(s) && CoresOk(s) && ExcusesOk(s)
    ensures var t := DeliverReplyAt(s, m); Sized(t) && PlacesOk(t) && CoresOk(t) && ExcusesOk(t)
  {
    var t, u, x := DeliverReplyAt(s, m), s.(msgs := s.msgs - multiset{m}), m.call;
    assert ReplyDue(u, m.to, x) by { assert CallAt(s, m.to, x); }
    forall c, i | 0 <= c < |t.cores| && 0 <= i < |t.calls| ensures CallAt(t, c, i) {
      assert CallAt(s, c, i) && CoreOk(s, c);
      assert CallAt(u, c, i) && CoreOk(u, c);
      ReplyCallAt(u, m.to, x, c, i);
    }
    forall c | 0 <= c < |t.cores| ensures CoreOk(t, c) {
      assert CoreOk(s, c);
      assert CoreOk(u, c);
      ReplyCoreOk(u, m.to, x, c);
    }
    forall c | 0 <= c < |t.cores| ensures ExcusedOk(t, c) { DeliverReplyExcused(s, m, c); }
  }

  lemma {:induction false} DeliverReplyKeeps(s: State, m: Msg)
    requires Inv(s) && Enabled(s, DeliverReply(m))
    ensures Inv(DeliverReplyAt(s, m))
  {
    BackIsReady(s, m);
    assert BackDue(s, m) by { assert CallOk(s, m.call); }
    ReplyMoved(s, m);
    RepliedOk(s, m);
    DeliverReplyPlaces(s, m);
    MovedKeeps(s, DeliverReplyAt(s, m), m.call);
  }

  // ---- every event, every run ---------------------------------------------------------------------

  lemma {:induction false} StepKeeps(s: State, e: Event)
    requires Inv(s) && Enabled(s, e)
    ensures Inv(Step(s, e))
  {
    match e
    case Accept(core, place, fuse) => AddKeeps(s, None, |s.calls|, core, place, fuse);
    case Issue(parent, place) =>
      var p := s.calls[parent];
      assert CallOk(s, parent) && CallOk(s, p.req);
      AddKeeps(s, Some(parent), p.req, p.ranOn[0], if p.fuse then p.ranOn[0] else place, p.fuse);
    case DeliverRun(m) => DeliverRunKeeps(s, m);
    case Wake(core) => WakeKeeps(s, core);
    case BeginCall(core, call) => BeginKeeps(s, core, call);
    case Finish(call) => FinishKeeps(s, call);
    case DeliverReply(m) => DeliverReplyKeeps(s, m);
  }

  lemma {:induction false} RunKeeps(s: State, es: seq<Event>, t: State)
    requires Inv(s) && Run(s, es, t)
    ensures Inv(t)
    decreases |es|
  {
    if es != [] {
      StepKeeps(s, es[0]);
      RunKeeps(Step(s, es[0]), es[1..], t);
    }
  }

  // The invariant holds in every state any machine can reach.
  lemma {:induction false} ReachableInv(n: nat, s: State)
    requires Reachable(n, s)
    ensures Inv(s)
  {
    var es :| Run(Init(n), es, s);
    InitInv(n);
    RunKeeps(Init(n), es, s);
  }
}
