/** The state one core keeps (scheduler.cc, include/scheduler.hh) and what each
  * critical section of the scheduler does to it, as functions on values.
  *
  * Calls are named by natural numbers, handed out in the order in which
  * `get_core` reserved their queue slot; a request bears the name of its root call.
  */
module SchedulerCore {
  type CallId = nat
  type CoreId = nat

  // An entry of `req_map` under a "reply" key: the promise of an accepted
  // request, or the core the reply has to go back to.
  datatype ReplyState = Local | Via(prev: CoreId)

  datatype Core = Core(
    q: seq<CallId>,                   // reserved slots, oldest first
    taskMap: set<CallId>,             // arrived tasks waiting for their slot
    tasks: multiset<CallId>,          // tasks posted to the reactor, not yet run
    currReq: set<CallId>,             // unfused calls here that have not replied
    currWf: set<CallId>,              // fused requests active here
    replies: map<CallId, ReplyState>, // req_map, "reply" keys
    callbacks: set<CallId>)           // req_map, "cb" keys

  const IdleCore := Core([], {}, multiset{}, {}, {}, map[], {})

  // What `reply` does with the value once the books are updated.
  datatype Outcome =
    | Answered                        // the promise of the request is set
    | CalledBack                      // the JavaScript callback runs on this core
    | SentBack(to: CoreId)            // the reply is forwarded to the issuing core

  // The oldest slot may start: its task has arrived and no fused request is active.
  predicate HeadStarts(c: Core) {
    c.q != [] && c.currWf == {} && c.q[0] in c.taskMap
  }

  function Dispatch(c: Core): (r: Core)
  {
    if HeadStarts(c) then
      c.(tasks := c.tasks + multiset{c.q[0]}, taskMap := c.taskMap - {c.q[0]}, q := c.q[1..])
    else c
  }

  // The entry `schedule` and `run_func` make for a call that has none.
  function Remember(c: Core, call: CallId, state: ReplyState): (r: Core)
  {
    if call in c.replies then c else c.(replies := c.replies[call := state])
  }

  // `new_req`: the promise of an accepted request.
  function Promise(c: Core, call: CallId): (r: Core)
  {
    c.(replies := c.replies[call := Local])
  }

  // `call_function`: the callback of a call that JavaScript makes.
  function AddCallback(c: Core, call: CallId): (r: Core)
  {
    c.(callbacks := c.callbacks + {call})
  }

  // The slot `get_core` reserves.
  function Reserve(c: Core, call: CallId): (r: Core)
  {
    c.(q := c.q + [call])
  }

  // `run_func` up to its final dispatch.
  function RunFunc(c: Core, prev: CoreId, req: CallId, call: CallId, fuse: bool): (r: Core)
  {
    var d := Remember(c, call, Via(prev));
    if fuse then
      d.(currWf := d.currWf + {req}, tasks := d.tasks + multiset{call})
    else
      d.(currReq := d.currReq + {call}, taskMap := d.taskMap + {call})
  }

  // The reactor runs a posted task.
  function Begin(c: Core, call: CallId): (r: Core)
  {
    c.(tasks := c.tasks - multiset{call})
  }

  function EraseFirst(q: seq<CallId>, call: CallId): (r: seq<CallId>)
  {
    if q == [] then [] else if q[0] == call then q[1..] else [q[0]] + EraseFirst(q[1..], call)
  }

  function ReplyOutcome(state: ReplyState, self: CoreId): (o: Outcome)
  {
    match state
    case Local => Answered
    case Via(prev) => if prev == self then CalledBack else SentBack(prev)
  }

  // `reply` up to its final dispatch. A missing "reply" entry is a null dereference
  // in the source, so the entry is the caller's obligation.
  function Reply(c: Core, self: CoreId, req: CallId, call: CallId, fuse: bool): (r: Core)
    requires call in c.replies
  {
    var d := c.(replies := c.replies - {call}, q := EraseFirst(c.q, call), currReq := c.currReq - {call});
    match ReplyOutcome(c.replies[call], self)
    case Answered => d.(currWf := d.currWf - {req})
    case CalledBack => d.(callbacks := d.callbacks - {call})
    case SentBack(_) => if fuse then d.(currWf := d.currWf - {req}) else d
  }

  // ---- queues in reservation order -------------------------------------------------

  ghost predicate Increasing(q: seq<CallId>) {
    forall i, j :: 0 <= i < j < |q| ==> q[i] < q[j]
  }

  lemma {:induction false} EraseFirstMembers(q: seq<CallId>, call: CallId, x: CallId)
    requires Increasing(q)
    ensures x in EraseFirst(q, call) <==> x in q && x != call
  {
    if q != [] {
      assert Increasing(q[1..]);
      if q[0] != call {
        EraseFirstMembers(q[1..], call, x);
      }
    }
  }

  lemma {:induction false} EraseFirstIncreasing(q: seq<CallId>, call: CallId)
    requires Increasing(q)
    ensures Increasing(EraseFirst(q, call))
    ensures EraseFirst(q, call) != [] ==> q != [] && (q[0] == call || EraseFirst(q, call)[0] == q[0])
    ensures call !in q ==> EraseFirst(q, call) == q
  {
    if q != [] {
      assert Increasing(q[1..]);
      if q[0] != call {
        EraseFirstIncreasing(q[1..], call);
        var e := EraseFirst(q[1..], call);
        forall j | 0 <= j < |e| ensures q[0] < e[j] {
          EraseFirstMembers(q[1..], call, e[j]);
        }
      }
    }
  }
}
