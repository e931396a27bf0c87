/** The scheduler as a protocol between the cores of a machine.
  *
  * Every critical section of scheduler.cc is one event; events of different cores
  * interleave freely. Messages between cores, and the inline continuation from
  * `schedule` into `run_func` on the same core, travel in `msgs`; a `dispatch` that is
  * still due on a core, whether at the end of `run_func` or `reply` or in a deferred
  * continuation, is counted in `wakes`.
  *
  * What JavaScript does is bound only by the hypotheses in `Enabled`: an invocation
  * makes calls while it runs, and it replies once, after all its calls have returned.
  */
module Protocol {
  import opened Options
  import opened SchedulerCore

  // How far a call has come. A record of the past: no scheduler step reads it.
  datatype Phase =
    | InFlight     // reserved, on its way to its core
    | Arrived      // in the task map of its core
    | Ready        // posted to the reactor
    | Running      // its function has begun and it has not replied
    | Returning    // its reply is on its way to the issuing core
    | Done

  // The promise of a request was set, or the callback of a call ran.
  datatype Delivery = Delivery(outcome: Outcome, core: CoreId)

  datatype Call = Call(
    req: CallId, parent: Option<CallId>, issuer: CoreId, place: CoreId,
    fuse: bool,              // the workflow flag, req_wf_map[req]->fuse
    // The rest is history.
    phase: Phase,
    issuedAt: nat,           // when its slot was reserved
    readyAt: nat,            // when it was posted to the reactor
    ranOn: seq<CoreId>,      // the cores that ran its function
    sentBack: nat,           // how often its reply was forwarded between cores
    delivered: seq<Delivery>)  // what its reply came to, and on which core

  datatype Msg =
    | RunFuncMsg(to: CoreId, prev: CoreId, req: CallId, call: CallId)
    | ReplyMsg(to: CoreId, from: CoreId, req: CallId, call: CallId)

  datatype State = State(
    cores: seq<Core>, msgs: multiset<Msg>, wakes: seq<nat>, calls: seq<Call>,
    clock: nat,                            // events so far
    lastTry: seq<nat>,                     // when each core last tried to dispatch
    lastStart: seq<Option<CallId>>)        // the call each core started last

  datatype Event =
    | Accept(core: CoreId, place: CoreId, fuse: bool)  // new_req, with the core get_core chose
    | Issue(parent: CallId, place: CoreId)             // call_function
    | DeliverRun(run: Msg)                             // run_func
    | Wake(core: CoreId)                               // dispatch
    | BeginCall(core: CoreId, call: CallId)            // the reactor runs a posted task
    | Finish(call: CallId)                             // JavaScript calls Reply
    | DeliverReply(back: Msg)                          // reply, on the issuing core

  function Init(n: nat): (s: State)
  {
    State(seq(n, i => IdleCore), multiset{}, seq(n, i => 0), [], 0, seq(n, i => 0), seq(n, i => None))
  }

  // Every call made by `i` has returned to it.
  ghost predicate AllReturned(s: State, i: CallId) {
    forall j :: 0 <= j < |s.calls| && s.calls[j].parent == Some(i) ==> s.calls[j].phase == Done
  }

  ghost predicate IsRunning(s: State, i: CallId) {
    i < |s.calls| && s.calls[i].phase == Running && s.calls[i].ranOn != []
  }

  ghost predicate CanReply(s: State, core: CoreId, req: CallId, call: CallId) {
    core < |s.cores| == |s.wakes| && req < |s.calls| && call < |s.calls| && call in s.cores[core].replies
  }

  ghost predicate Enabled(s: State, e: Event) {
    |s.wakes| == |s.lastTry| == |s.lastStart| == |s.cores| &&
    match e
    case Accept(core, place, _) => core < |s.cores| && place < |s.cores|
    case Issue(parent, place) =>
      IsRunning(s, parent) && s.calls[parent].ranOn[0] < |s.cores| && place < |s.cores| &&
      s.calls[parent].req < |s.calls|
    case DeliverRun(m) =>
      m in s.msgs && m.RunFuncMsg? && m.to < |s.cores| && m.call < |s.calls| && m.req < |s.calls|
    case Wake(core) => core < |s.cores| && s.wakes[core] > 0 &&
                       (HeadStarts(s.cores[core]) ==> s.cores[core].q[0] < |s.calls|)
    case BeginCall(core, call) => core < |s.cores| && call < |s.calls| && call in s.cores[core].tasks
    case Finish(call) =>
      IsRunning(s, call) && AllReturned(s, call) && CanReply(s, s.calls[call].ranOn[0], s.calls[call].req, call)
    case DeliverReply(m) =>
      m in s.msgs && m.ReplyMsg? && m.from < |s.cores| && CanReply(s, m.to, m.req, m.call)
  }

  // A new call: its entries on the issuing core, its slot on the chosen core, its message.
  // A call of a fused request other than the root reserves no slot.
  function AddCall(s: State, parent: Option<CallId>, req: CallId, issuer: CoreId, place: CoreId, fuse: bool): (t: State)
    requires issuer < |s.cores| && place < |s.cores|
  {
    var id := |s.calls|;
    var here := if parent.None? then Promise(s.cores[issuer], id)
                else Remember(AddCallback(s.cores[issuer], id), id, Via(issuer));
    var cores := s.cores[issuer := here];
    var reserved := if fuse && parent.Some? then cores else cores[place := Reserve(cores[place], id)];
    s.(cores := reserved,
       msgs := s.msgs + multiset{RunFuncMsg(place, issuer, req, id)},
       calls := s.calls + [Call(req, parent, issuer, place, fuse, InFlight, s.clock, 0, [], 0, [])],
       clock := s.clock + 1)
  }

  // `reply` on one core.
  function ReplyAt(s: State, core: CoreId, req: CallId, call: CallId): (t: State)
    requires CanReply(s, core, req, call)
  {
    var k := s.calls[call];
    var cores := s.cores[core := Reply(s.cores[core], core, req, call, s.calls[req].fuse)];
    match ReplyOutcome(s.cores[core].replies[call], core)
    case SentBack(to) =>
      s.(cores := cores,
         msgs := s.msgs + multiset{ReplyMsg(to, core, req, call)},
         calls := s.calls[call := k.(phase := Returning, sentBack := k.sentBack + 1)],
         clock := s.clock + 1)
    case outcome =>
      s.(cores := cores,
         wakes := s.wakes[core := s.wakes[core] + 1],
         calls := s.calls[call := k.(phase := Done, delivered := k.delivered + [Delivery(outcome, core)])],
         clock := s.clock + 1)
  }

  function DeliverRunAt(s: State, m: Msg): (t: State)
    requires Enabled(s, DeliverRun(m))
  {
    var k := s.calls[m.call];
    var fuse := s.calls[m.req].fuse;
    s.(cores := s.cores[m.to := RunFunc(s.cores[m.to], m.prev, m.req, m.call, fuse)],
       msgs := s.msgs - multiset{m},
       wakes := s.wakes[m.to := s.wakes[m.to] + 1],
       calls := s.calls[m.call := if fuse then k.(phase := Ready, readyAt := s.clock) else k.(phase := Arrived)],
       clock := s.clock + 1)
  }

  function WakeAt(s: State, c: CoreId): (t: State)
    requires Enabled(s, Wake(c))
  {
    var core := s.cores[c];
    var t := s.(cores := s.cores[c := Dispatch(core)],
                wakes := s.wakes[c := s.wakes[c] - 1],
                lastTry := s.lastTry[c := s.clock],
                clock := s.clock + 1);
    if HeadStarts(core) then
      var h := core.q[0];
      t.(calls := s.calls[h := s.calls[h].(phase := Ready, readyAt := s.clock)],
         lastStart := s.lastStart[c := Some(h)])
    else t
  }

  function BeginAt(s: State, c: CoreId, i: CallId): (t: State)
    requires Enabled(s, BeginCall(c, i))
  {
    s.(cores := s.cores[c := Begin(s.cores[c], i)],
       calls := s.calls[i := s.calls[i].(phase := Running, ranOn := s.calls[i].ranOn + [c])],
       clock := s.clock + 1)
  }

  // The reply message is handled on the issuing core, and the continuation attached to
  // it is sent back to dispatch on the core that forwarded the reply.
  function DeliverReplyAt(s: State, m: Msg): (t: State)
    requires Enabled(s, DeliverReply(m))
  {
    var t := ReplyAt(s.(msgs := s.msgs - multiset{m}), m.to, m.req, m.call);
    t.(wakes := t.wakes[m.from := t.wakes[m.from] + 1])
  }

  function Step(s: State, e: Event): (t: State)
    requires Enabled(s, e)
  {
    match e
    case Accept(core, place, fuse) => AddCall(s, None, |s.calls|, core, place, fuse)
    case Issue(parent, place) =>
      // A call of a fused request stays on the core that makes it.
      var p := s.calls[parent];
      var core := p.ranOn[0];
      var fuse := s.calls[p.req].fuse;
      AddCall(s, Some(parent), p.req, core, if fuse then core else place, fuse)
    case DeliverRun(m) => DeliverRunAt(s, m)
    case Wake(core) => WakeAt(s, core)
    case BeginCall(core, call) => BeginAt(s, core, call)
    case Finish(call) => ReplyAt(s, s.calls[call].ranOn[0], s.calls[call].req, call)
    case DeliverReply(m) => DeliverReplyAt(s, m)
  }

  // `es` is a run from `s` that ends in `t`.
  ghost predicate Run(s: State, es: seq<Event>, t: State)
    decreases |es|
  {
    if es == [] then s == t else Enabled(s, es[0]) && Run(Step(s, es[0]), es[1..], t)
  }

  ghost predicate Reachable(n: nat, s: State) {
    exists es :: Run(Init(n), es, s)
  }
}
