/** The scheduler object of one core, updated in place as scheduler.cc does, and
  * proved to perform exactly the functions of `SchedulerCore`. */
module Scheduling {
  import opened SchedulerCore

  class Scheduler {
    const self: CoreId
    var q: seq<CallId>
    var taskMap: set<CallId>
    var tasks: multiset<CallId>
    var currReq: set<CallId>
    var currWf: set<CallId>
    var replies: map<CallId, ReplyState>
    var callbacks: set<CallId>
    var busy: bool
    var busyTill: nat

    ghost function View(): (c: Core)
      reads this
    {
      Core(q, taskMap, tasks, currReq, currWf, replies, callbacks)
    }

    constructor (self: CoreId)
      ensures this.self == self && View() == IdleCore
      ensures !busy && busyTill == 0
    {
      this.self := self;
      q, taskMap, tasks, currReq, currWf, replies, callbacks := [], {}, multiset{}, {}, {}, map[], {};
      busy, busyTill := false, 0;
    }

    method Dispatch()
      modifies this
      ensures View() == SchedulerCore.Dispatch(old(View()))
      ensures busy == old(busy) && busyTill == old(busyTill)
    {
      if |q| == 0 {
        return;
      }
      if |currWf| == 0 && q[0] in taskMap {
        tasks := tasks + multiset{q[0]};
        taskMap := taskMap - {q[0]};
        q := q[1..];
      }
    }

    // The bookkeeping that `new_req` and `call_function` do before they call `schedule`,
    // and the entry `schedule` makes; `root` tells them apart.
    method Register(call: CallId, root: bool, prev: CoreId)
      modifies this
      ensures View() == if root then Promise(old(View()), call)
                        else Remember(AddCallback(old(View()), call), call, Via(prev))
      ensures busy == old(busy) && busyTill == old(busyTill)
    {
      if root {
        replies := replies[call := Local];
      } else {
        callbacks := callbacks + {call};
      }
      if call !in replies {
        replies := replies[call := Via(prev)];
      }
    }

    method RunFunc(prev: CoreId, req: CallId, call: CallId, fuse: bool)
      modifies this
      ensures View() == SchedulerCore.RunFunc(old(View()), prev, req, call, fuse)
      ensures busy == old(busy) && busyTill == old(busyTill)
    {
      if call !in replies {
        replies := replies[call := Via(prev)];
      }
      if fuse {
        currWf := currWf + {req};
        tasks := tasks + multiset{call};
      } else {
        currReq := currReq + {call};
        taskMap := taskMap + {call};
      }
    }

    method EraseFromQueue(call: CallId)
      modifies this`q
      ensures q == EraseFirst(old(q), call)
    {
      var i := 0;
      while i < |q|
        invariant 0 <= i <= |q|
        invariant q == old(q)
        invariant EraseFirst(q, call) == q[..i] + EraseFirst(q[i..], call)
      {
        if q[i] == call {
          q := q[..i] + q[i + 1..];
          assert old(q)[i..][1..] == old(q)[i + 1..];
          return;
        }
        assert q[i..][1..] == q[i + 1..];
        i := i + 1;
      }
    }

    // `rdtsc` is the clock value read when this core has become idle.
    method Reply(req: CallId, call: CallId, fuse: bool, rdtsc: nat) returns (o: Outcome)
      requires call in replies
      modifies this
      ensures View() == SchedulerCore.Reply(old(View()), self, req, call, fuse)
      ensures o == ReplyOutcome(old(replies)[call], self)
      ensures busy == (old(busy) && old(currReq) - {call} != {})
      ensures busyTill == if old(currReq) - {call} == {} then rdtsc else old(busyTill)
    {
      var state := replies[call];
      replies := replies - {call};
      EraseFromQueue(call);
      currReq := currReq - {call};
      if |currReq| == 0 {
        busy := false;
        busyTill := rdtsc;
      }
      match state {
        case Local =>
          currWf := currWf - {req};
          o := Answered;
        case Via(prev) =>
          if prev == self {
            callbacks := callbacks - {call};
            o := CalledBack;
          } else {
            if fuse {
              currWf := currWf - {req};
            }
            o := SentBack(prev);
          }
      }
    }
  }
}
