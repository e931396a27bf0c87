/** services/complex.js and services/fanout.js: an invocation issues its sub-calls in one go and
  * counts their replies in a shared counter; the callback that brings the counter to its target
  * replies. Invocations run, and replies come back, in any order. */
module FanOut {

  // A number of JavaScript, up to rounding; a text such as the NUM header stands for the
  // number that comparison makes of it, and for NaN if it is none.
  datatype JsNumber = NaN | Finite(value: real) | PlusInfinity | MinusInfinity

  // i < n
  predicate Less(i: nat, n: JsNumber) {
    n.PlusInfinity? || (n.Finite? && i as real < n.value)
  }

  // count == n
  predicate Equal(count: nat, n: JsNumber) {
    n.Finite? && count as real == n.value
  }

  // An invocation, by what it calls and the target of its counter. A leaf replies at once; the
  // others reply from a callback.
  datatype Tree = Leaf | Fan(subs: seq<Tree>, target: JsNumber)

  datatype Invocation = Invocation(
    tree: Tree, parent: nat,     // the root is its own parent
    started: bool,
    first: nat,                  // once started, its sub-calls are `first`, `first + 1`, ...
    count: nat,                  // the counter its callbacks share
    replies: nat,                // times it has called Reply
    back: nat)                // times its reply has reached a callback of the parent

  type Calls = seq<Invocation>

  datatype Event = Run(call: nat) | Return(call: nat)

  function Issue(subs: seq<Tree>, parent: nat): (c: Calls)
  {
    seq(|subs|, k requires 0 <= k < |subs| => Invocation(subs[k], parent, false, 0, 0, 0, 0))
  }

  function Request(tree: Tree): Calls {
    Issue([tree], 0)
  }

  predicate Possible(c: Calls, e: Event) {
    match e
    case Run(i) => i < |c| && !c[i].started
    case Return(i) => 0 < i < |c| && c[i].back < c[i].replies && c[i].parent < |c| && c[c[i].parent].tree.Fan?
  }

  function Step(c: Calls, e: Event): Calls
    requires Possible(c, e)
  {
    match e
    case Run(i) =>
      if c[i].tree.Leaf? then
        c[i := c[i].(started := true, replies := c[i].replies + 1)]
      else
        c[i := c[i].(started := true, first := |c|)] + Issue(c[i].tree.subs, i)
    case Return(i) =>
      var d := c[i := c[i].(back := c[i].back + 1)];
      var p := d[c[i].parent];
      var reply := if Equal(p.count + 1, p.tree.target) then 1 else 0;
      d[c[i].parent := p.(count := p.count + 1, replies := p.replies + reply)]
  }

  ghost predicate Execution(c: Calls, es: seq<Event>, d: Calls)
    decreases |es|
  {
    if es == [] then c == d else Possible(c, es[0]) && Execution(Step(c, es[0]), es[1..], d)
  }

  // ---- targets --------------------------------------------------------------------------------

  // A counter that has come to `m` has met its target.
  predicate Hit(target: JsNumber, m: nat) {
    m > 0 && (Equal(m, target) || Hit(target, m - 1))
  }

  lemma {:induction false} HitIff(target: JsNumber, m: nat)
    ensures Hit(target, m) <==> exists k :: 1 <= k <= m && Equal(k, target)
  {
    if m > 0 { HitIff(target, m - 1); }
  }

  // ---- the invariant --------------------------------------------------------------------------

  ghost function Returned(c: Calls, lo: nat, n: nat): (r: nat)
    requires lo + n <= |c|
  {
    if n == 0 then 0 else Returned(c, lo, n - 1) + c[lo + n - 1].back
  }

  ghost predicate HasParent(c: Calls, i: nat)
    requires i < |c|
  {
    i > 0 ==>
      && c[i].parent < i && c[c[i].parent].started && c[c[i].parent].tree.Fan?
      && var p := c[c[i].parent];
         p.first <= i < p.first + |p.tree.subs| && c[i].tree == p.tree.subs[i - p.first]
  }

  ghost predicate Counts(c: Calls, i: nat)
    requires i < |c|
  {
    var v := c[i];
    if !v.started then v.count == v.replies == 0
    else if v.tree.Leaf? then v.replies == 1
    else
      var n := |v.tree.subs|;
      && i < v.first && v.first + n <= |c|
      && (forall k :: v.first <= k < v.first + n ==> c[k].parent == i)
      && v.count == Returned(c, v.first, n)
      && v.replies == if Hit(v.tree.target, v.count) then 1 else 0
  }

  ghost predicate CallOk(c: Calls, i: nat)
    requires i < |c|
  {
    HasParent(c, i) && Counts(c, i) && c[i].back <= c[i].replies <= 1
  }

  ghost predicate Inv(c: Calls) {
    |c| > 0 && forall i :: 0 <= i < |c| ==> CallOk(c, i)
  }

  lemma {:induction false} ReturnedAll(c: Calls, lo: nat, n: nat)
    requires lo + n <= |c| && forall k :: lo <= k < lo + n ==> c[k].back <= 1
    ensures Returned(c, lo, n) <= n
    ensures Returned(c, lo, n) == n <==> forall k :: lo <= k < lo + n ==> c[k].back == 1
  {
    if n > 0 { ReturnedAll(c, lo, n - 1); }
  }

  lemma {:induction false} ReturnedSame(c: Calls, d: Calls, lo: nat, n: nat)
    requires lo + n <= |c| && lo + n <= |d| && forall k :: lo <= k < lo + n ==> c[k].back == d[k].back
    ensures Returned(c, lo, n) == Returned(d, lo, n)
  {
    if n > 0 { ReturnedSame(c, d, lo, n - 1); }
  }

  lemma {:induction false} ReturnedMore(c: Calls, d: Calls, lo: nat, n: nat, i: nat)
    requires lo <= i < lo + n <= |c| && lo + n <= |d|
    requires forall k :: lo <= k < lo + n ==> d[k].back == c[k].back + if k == i then 1 else 0
    ensures Returned(d, lo, n) == Returned(c, lo, n) + 1
  {
    if i == lo + n - 1 { ReturnedSame(c, d, lo, n - 1); } else { ReturnedMore(c, d, lo, n - 1, i); }
  }

  lemma {:induction false} RunKeeps(c: Calls, i: nat, j: nat)
    requires Inv(c) && Possible(c, Run(i)) && j < |Step(c, Run(i))|
    ensures CallOk(Step(c, Run(i)), j)
  {
    var d := Step(c, Run(i));
    assert CallOk(c, i);
    if j < |c| {
      assert CallOk(c, j);
      if d[j].started && d[j].tree.Fan? {
        if j == i {
          NoReturns(d, |c|, |d[j].tree.subs|);
        } else {
          ReturnedSame(c, d, c[j].first, |d[j].tree.subs|);
        }
      }
    }
  }

  lemma {:induction false} NoReturns(c: Calls, lo: nat, n: nat)
    requires lo + n <= |c| && forall k :: lo <= k < lo + n ==> c[k].back == 0
    ensures Returned(c, lo, n) == 0
  {
    if n > 0 { NoReturns(c, lo, n - 1); }
  }

  // A reply returns to an invocation that has issued the sub-call; and its target is met once.
  lemma {:induction false} ReturnCounts(c: Calls, i: nat)
    requires Inv(c) && Possible(c, Return(i))
    ensures c[i].parent < i
    ensures var p := c[c[i].parent];
            && p.started && p.tree.Fan? && p.first + |p.tree.subs| <= |c| && p.first <= i < p.first + |p.tree.subs|
            && c[i].parent < p.first && p.count == Returned(c, p.first, |p.tree.subs|)
            && p.replies == (if Hit(p.tree.target, p.count) then 1 else 0)
            && (Equal(p.count + 1, p.tree.target) ==> p.replies == 0)
  {
    assert CallOk(c, i) && CallOk(c, c[i].parent);
    HitIff(c[c[i].parent].tree.target, c[c[i].parent].count);
  }

  lemma {:induction false} ReturnKeeps(c: Calls, i: nat, j: nat)
    requires Inv(c) && Possible(c, Return(i)) && j < |c|
    ensures CallOk(Step(c, Return(i)), j)
  {
    var d := Step(c, Return(i));
    ReturnCounts(c, i);
    assert CallOk(c, i) && CallOk(c, j);
    if c[j].started && c[j].tree.Fan? {
      if j == c[i].parent {
        ReturnedMore(c, d, c[j].first, |c[j].tree.subs|, i);
      } else {
        ReturnedSame(c, d, c[j].first, |c[j].tree.subs|);
      }
    }
  }

  lemma {:induction false} StepKeeps(c: Calls, e: Event)
    requires Inv(c) && Possible(c, e)
    ensures Inv(Step(c, e))
  {
    forall j | 0 <= j < |Step(c, e)| ensures CallOk(Step(c, e), j) {
      match e
      case Run(i) => RunKeeps(c, i, j);
      case Return(i) => ReturnKeeps(c, i, j);
    }
  }

  // ---- how many invocations -------------------------------------------------------------------

  function Size(t: Tree): (n: nat)
  {
    match t
    case Leaf => 1
    case Fan(subs, _) => 1 + Sizes(subs)
  }

  function Sizes(ts: seq<Tree>): (n: nat)
  {
    if ts == [] then 0 else Size(ts[0]) + Sizes(ts[1..])
  }

  // Invocations still to be made below the calls of `c` that have not started.
  ghost function ToCome(c: Calls): (n: nat)
  {
    if c == [] then 0 else (if c[0].started then 0 else Size(c[0].tree) - 1) + ToCome(c[1..])
  }

  // What the run has used up: a start and a return for each invocation.
  ghost function Turns(c: Calls): (n: nat)
  {
    if c == [] then 0 else (if c[0].started then 1 else 0) + c[0].back + Turns(c[1..])
  }

  lemma {:induction false} Appended(c: Calls, d: Calls)
    ensures ToCome(c + d) == ToCome(c) + ToCome(d) && Turns(c + d) == Turns(c) + Turns(d)
  {
    if c == [] {
      assert c + d == d;
    } else {
      Appended(c[1..], d);
      assert (c + d)[1..] == c[1..] + d;
    }
  }

  lemma {:induction false} Replaced(c: Calls, i: nat, v: Invocation)
    requires i < |c|
    ensures ToCome(c[i := v]) - ToCome(c)
            == (if v.started then 0 else Size(v.tree) - 1) - (if c[i].started then 0 else Size(c[i].tree) - 1)
    ensures Turns(c[i := v]) - Turns(c)
            == (if v.started then 1 else 0) + v.back - (if c[i].started then 1 else 0) - c[i].back
  {
    if i > 0 {
      Replaced(c[1..], i - 1, v);
      assert c[i := v][1..] == c[1..][i - 1 := v];
    }
  }

  lemma {:induction false} Issued(subs: seq<Tree>, parent: nat)
    ensures |subs| + ToCome(Issue(subs, parent)) == Sizes(subs) && Turns(Issue(subs, parent)) == 0
  {
    if subs != [] {
      Issued(subs[1..], parent);
      assert Issue(subs, parent)[1..] == Issue(subs[1..], parent);
    }
  }

  lemma {:induction false} StepSize(c: Calls, e: Event)
    requires Inv(c) && Possible(c, e)
    ensures |Step(c, e)| + ToCome(Step(c, e)) == |c| + ToCome(c)
    ensures Turns(Step(c, e)) == Turns(c) + 1
  {
    match e
    case Run(i) =>
      if c[i].tree.Leaf? {
        Replaced(c, i, c[i].(started := true, replies := c[i].replies + 1));
      } else {
        Replaced(c, i, c[i].(started := true, first := |c|));
        Issued(c[i].tree.subs, i);
        Appended(c[i := c[i].(started := true, first := |c|)], Issue(c[i].tree.subs, i));
      }
    case Return(i) =>
      ReturnCounts(c, i);
      var d := c[i := c[i].(back := c[i].back + 1)];
      Replaced(c, i, d[i]);
      Replaced(d, c[i].parent, Step(c, e)[c[i].parent]);
  }

  lemma {:induction false} ExecutionKeeps(c: Calls, es: seq<Event>, d: Calls)
    requires Inv(c) && Execution(c, es, d)
    ensures Inv(d) && d[0].tree == c[0].tree
    ensures |d| + ToCome(d) == |c| + ToCome(c) && Turns(d) == Turns(c) + |es|
    decreases |es|
  {
    if es != [] {
      StepKeeps(c, es[0]);
      StepSize(c, es[0]);
      ExecutionKeeps(Step(c, es[0]), es[1..], d);
    }
  }

  lemma {:induction false} RequestRuns(tree: Tree, es: seq<Event>, c: Calls)
    requires Execution(Request(tree), es, c)
    ensures Inv(c) && c[0].tree == tree && |c| + ToCome(c) == Size(tree) && Turns(c) == |es|
  {
    Issued([tree], 0);
    ExecutionKeeps(Request(tree), es, c);
  }

  // ---- what every run does --------------------------------------------------------------------

  // The target is not met before the last sub-call has replied.
  predicate WaitsForAll(t: Tree) {
    t.Fan? ==> forall k :: 1 <= k < |t.subs| ==> !Equal(k, t.target)
  }

  // At all times each invocation has replied at most once, and one with sub-calls exactly when
  // its counter has met the target. If that is not met early, every sub-call has then replied
  // and its reply has come back.
  lemma {:induction false} RepliesOnceAndLast(tree: Tree, es: seq<Event>, c: Calls, i: nat)
    requires Execution(Request(tree), es, c) && i < |c|
    ensures c[i].back <= c[i].replies <= 1
    ensures c[i].tree.Fan? ==> (c[i].replies == 1 <==> Hit(c[i].tree.target, c[i].count))
    ensures c[i].replies == 1 && c[i].tree.Fan? && WaitsForAll(c[i].tree) ==>
              && c[i].first + |c[i].tree.subs| <= |c|
              && forall k :: 0 <= k < |c[i].tree.subs| ==> var sub := c[c[i].first + k];
                   sub.parent == i && sub.tree == c[i].tree.subs[k] && sub.replies == sub.back == 1
  {
    RequestRuns(tree, es, c);
    assert CallOk(c, i);
    if c[i].replies == 1 && c[i].tree.Fan? && WaitsForAll(c[i].tree) { AllCameBack(c, i); }
  }

  lemma {:induction false} AllCameBack(c: Calls, i: nat)
    requires Inv(c) && i < |c| && c[i].replies == 1 && c[i].tree.Fan? && WaitsForAll(c[i].tree)
    ensures c[i].first + |c[i].tree.subs| <= |c|
    ensures forall k :: 0 <= k < |c[i].tree.subs| ==> var sub := c[c[i].first + k];
              sub.parent == i && sub.tree == c[i].tree.subs[k] && sub.replies == sub.back == 1
  {
    var lo, n := c[i].first, |c[i].tree.subs|;
    assert CallOk(c, i);
    AllCallsOk(c, lo, n);
    ReturnedAll(c, lo, n);
    HitIff(c[i].tree.target, c[i].count);
    assert Returned(c, lo, n) == n;
    forall k | 0 <= k < n
      ensures var sub := c[lo + k]; sub.parent == i && sub.tree == c[i].tree.subs[k] && sub.replies == sub.back == 1
    {
      assert HasParent(c, lo + k) && c[lo + k].back == 1;
    }
  }

  lemma {:induction false} AllCallsOk(c: Calls, lo: nat, n: nat)
    requires Inv(c) && lo + n <= |c|
    ensures forall k :: lo <= k < lo + n ==> HasParent(c, k) && c[k].back <= c[k].replies <= 1
  {
    forall k | lo <= k < lo + n ensures HasParent(c, k) && c[k].back <= c[k].replies <= 1 { assert CallOk(c, k); }
  }

  // An invocation replies in the end if those of its sub-calls that do are enough to meet the
  // target: one that fans out to nothing never replies, and one may wait for it in vain.
  predicate Answers(t: Tree)
    decreases t
  {
    t.Leaf? || Hit(t.target, Answering(t.subs))
  }

  function Answering(ts: seq<Tree>): (n: nat)
    ensures n <= |ts|
    decreases ts
  {
    if ts == [] then 0
    else
      var last := ts[|ts| - 1];
      Answering(ts[..|ts| - 1]) + (if Answers(last) then 1 else 0)
  }

  lemma {:induction false} ReturnedAnswers(c: Calls, lo: nat, ts: seq<Tree>)
    requires lo + |ts| <= |c|
    requires forall j :: lo <= j < lo + |ts| ==> c[j].back == if Answers(ts[j - lo]) then 1 else 0
    ensures Returned(c, lo, |ts|) == Answering(ts)
    decreases |ts|
  {
    if ts != [] { ReturnedAnswers(c, lo, ts[..|ts| - 1]); }
  }

  lemma {:induction false} RestingReply(c: Calls, i: nat)
    requires Inv(c) && i < |c| && forall e :: !Possible(c, e)
    ensures c[i].replies == if Answers(c[i].tree) then 1 else 0
    decreases c[i].tree
  {
    assert CallOk(c, i) && !Possible(c, Run(i));
    if c[i].tree.Fan? {
      var lo, subs := c[i].first, c[i].tree.subs;
      AllCallsOk(c, lo, |subs|);
      forall j | lo <= j < lo + |subs| ensures c[j].back == if Answers(subs[j - lo]) then 1 else 0 {
        assert !Possible(c, Return(j));
        RestingReply(c, j);
      }
      ReturnedAnswers(c, lo, subs);
    }
  }

  lemma {:induction false} NoneToCome(c: Calls)
    requires forall i :: 0 <= i < |c| ==> c[i].started
    ensures ToCome(c) == 0
  {
    if c != [] { NoneToCome(c[1..]); }
  }

  lemma {:induction false} TurnsBounded(c: Calls)
    requires forall i :: 0 <= i < |c| ==> c[i].back <= 1
    ensures Turns(c) <= 2 * |c|
  {
    if c != [] { TurnsBounded(c[1..]); }
  }

  // A run that can go no further has made every invocation of the tree, and exactly those that
  // answer have replied, once. No run has more than two events per invocation.
  lemma {:induction false} EveryInvocationReplies(tree: Tree, es: seq<Event>, c: Calls)
    requires Execution(Request(tree), es, c)
    ensures |es| <= 2 * Size(tree)
    ensures (forall e :: !Possible(c, e)) ==>
              && |c| == Size(tree)
              && forall i :: 0 <= i < |c| ==> c[i].replies == if Answers(c[i].tree) then 1 else 0
  {
    RequestRuns(tree, es, c);
    forall i | 0 <= i < |c| ensures c[i].back <= 1 { RepliesOnceAndLast(tree, es, c, i); }
    TurnsBounded(c);
    if forall e :: !Possible(c, e) {
      forall i | 0 <= i < |c| ensures c[i].started { assert !Possible(c, Run(i)); }
      NoneToCome(c);
      forall i | 0 <= i < |c| ensures c[i].replies == if Answers(c[i].tree) then 1 else 0 { RestingReply(c, i); }
    }
  }

  // ---- the two services -----------------------------------------------------------------------

  function L2(): Tree { Fan([Leaf, Leaf, Leaf], Finite(3.0)) }
  function L1(): Tree { Fan([L2(), Leaf, Leaf], Finite(3.0)) }
  function L0(): Tree { Fan([L1(), Leaf, Leaf], Finite(3.0)) }

  // Every invocation in the tree answers, and waits for all of its sub-calls.
  predicate Whole(t: Tree)
    decreases t
  {
    t.Leaf? || (t.subs != [] && Equal(|t.subs|, t.target) && forall k :: 0 <= k < |t.subs| ==> Whole(t.subs[k]))
  }

  lemma {:induction false} WholeAnswers(t: Tree)
    requires Whole(t)
    ensures Answers(t) && WaitsForAll(t)
    decreases t, 1
  {
    if t.Fan? {
      AllAnswering(t.subs);
      HitIff(t.target, |t.subs|);
    }
  }

  lemma {:induction false} AllAnswering(ts: seq<Tree>)
    requires forall k :: 0 <= k < |ts| ==> Whole(ts[k])
    ensures Answering(ts) == |ts|
    decreases ts, 0
  {
    if ts != [] {
      WholeAnswers(ts[|ts| - 1]);
      AllAnswering(ts[..|ts| - 1]);
    }
  }

  lemma {:induction false} PartOfWhole(c: Calls, i: nat)
    requires Inv(c) && i < |c| && Whole(c[0].tree)
    ensures Whole(c[i].tree)
  {
    assert CallOk(c, i);
    if i > 0 { PartOfWhole(c, c[i].parent); }
  }

  // One l0 request makes exactly ten invocations, each of which replies exactly once, and not
  // before all of its sub-calls have.
  lemma {:induction false} ComplexMakesTen(es: seq<Event>, c: Calls, i: nat)
    requires Execution(Request(L0()), es, c) && i < |c|
    ensures WaitsForAll(c[i].tree)
    ensures (forall e :: !Possible(c, e)) ==> |c| == 10 && c[i].replies == 1
  {
    EveryInvocationReplies(L0(), es, c);
    TenInAll();
    RequestRuns(L0(), es, c);
    PartOfWhole(c, i);
    WholeAnswers(c[i].tree);
  }

  // Invocation `i` has replied and has made three calls, from `first` on: one of `t` and two leaves.
  ghost predicate CallsThree(c: Calls, i: nat, first: nat, t: Tree) {
    && i < |c| && first + 3 <= |c| && c[i].replies == 1
    && c[first].parent == c[first + 1].parent == c[first + 2].parent == i
    && c[first].tree == t && c[first + 1].tree == c[first + 2].tree == Leaf
  }

  lemma {:induction false} ThreeCalls(c: Calls, i: nat, t: Tree)
    requires Inv(c) && i < |c| && (forall e :: !Possible(c, e))
    requires c[i].tree == Fan([t, Leaf, Leaf], Finite(3.0)) && Whole(t)
    ensures CallsThree(c, i, c[i].first, t)
  {
    var subs := [t, Leaf, Leaf];
    assert CallOk(c, i) && !Possible(c, Run(i)) && c[i].tree.subs == subs;
    var lo := c[i].first;
    AllCallsOk(c, lo, 3);
    assert HasParent(c, lo) && HasParent(c, lo + 1) && HasParent(c, lo + 2);
    assert c[lo].parent == i && c[lo + 1].parent == i && c[lo + 2].parent == i;
    assert Whole(c[i].tree);
    WholeAnswers(c[i].tree);
    RestingReply(c, i);
  }

  // The ten are l0, which calls l1 and two leaves; l1, which calls l2 and two leaves; l2, which
  // calls three leaves; and the leaves.
  lemma {:induction false} ComplexCalls(es: seq<Event>, c: Calls)
    requires Execution(Request(L0()), es, c) && (forall e :: !Possible(c, e))
    ensures |c| == 10 && CallsThree(c, 0, c[0].first, L1())
    ensures var l1 := c[0].first;
            CallsThree(c, l1, c[l1].first, L2()) && CallsThree(c, c[l1].first, c[c[l1].first].first, Leaf)
  {
    EveryInvocationReplies(L0(), es, c);
    TenInAll();
    RequestRuns(L0(), es, c);
    ThreeCalls(c, 0, L1());
    ThreeCalls(c, c[0].first, L2());
    ThreeCalls(c, c[c[0].first].first, Leaf);
  }

  lemma {:induction false} TenInAll()
    ensures Size(L0()) == 10 && Whole(L0()) && Whole(L1()) && Whole(L2())
  {
    assert Sizes([Leaf, Leaf, Leaf]) == 3 by {
      assert [Leaf, Leaf, Leaf][1..] == [Leaf, Leaf] && [Leaf, Leaf][1..] == [Leaf];
    }
    assert Sizes(L1().subs) == 6 by {
      assert L1().subs[1..] == [Leaf, Leaf] && [Leaf, Leaf][1..] == [Leaf];
    }
    assert Sizes(L0().subs) == 9 by {
      assert L0().subs[1..] == [Leaf, Leaf] && [Leaf, Leaf][1..] == [Leaf];
    }
    assert Whole(L2()) && Whole(L1());
  }

  function Leaves(n: nat): (ts: seq<Tree>)
    ensures |ts| == n && forall k :: 0 <= k < n ==> ts[k] == Leaf
  {
    if n == 0 then [] else [Leaf] + Leaves(n - 1)
  }

  lemma {:induction false} LeavesSize(n: nat)
    ensures Sizes(Leaves(n)) == n
  {
    if n > 0 {
      LeavesSize(n - 1);
      assert Leaves(n)[1..] == Leaves(n - 1);
    }
  }

  // The loop of fanout.js makes `n` calls: `n` is the first value of `i` that is not below `num`.
  predicate Issues(num: JsNumber, n: nat) {
    !Less(n, num) && forall i :: 0 <= i < n ==> Less(i, num)
  }

  // The loop ends if and only if NUM is not Infinity.
  lemma {:induction false} LoopEnds(num: JsNumber)
    ensures (exists n :: Issues(num, n)) <==> !num.PlusInfinity?
  {
    if !num.PlusInfinity? {
      var n := if num.Finite? && num.value > 0.0 then -(-num.value).Floor else 0;
      assert Issues(num, n);
    }
  }

  predicate PositiveInteger(num: JsNumber) {
    num.Finite? && num.value >= 1.0 && num.value == num.value.Floor as real
  }

  // fanout.js replies, exactly once and after all of its sub-calls, if and only if NUM is a
  // positive integer, and then makes NUM + 1 invocations. For 0, a negative number, a fraction
  // or a text that is no number it never replies, whatever it calls.
  lemma {:induction false} FanOutReplies(num: JsNumber, n: nat, es: seq<Event>, c: Calls)
    requires Issues(num, n) && Execution(Request(Fan(Leaves(n), num)), es, c)
    ensures WaitsForAll(Fan(Leaves(n), num))
    ensures (forall e :: !Possible(c, e)) ==>
              |c| == n + 1 && c[0].replies == if PositiveInteger(num) then 1 else 0
    ensures PositiveInteger(num) ==> n as real == num.value
    ensures !PositiveInteger(num) ==> c[0].replies == 0
  {
    var tree := Fan(Leaves(n), num);
    EveryInvocationReplies(tree, es, c);
    RepliesOnceAndLast(tree, es, c, 0);
    RequestRuns(tree, es, c);
    LeavesSize(n);
    AllAnswering(Leaves(n));
    HitIff(num, n);
    HitIff(num, c[0].count);
    if PositiveInteger(num) {
      var k := num.value.Floor;
      assert Equal(k, num) && !Less(k, num);
    }
  }

  // With NUM equal to 1.5 two calls are made and none of their replies counts as the last; with
  // -1, or a text that is no number, none is made.
  lemma {:induction false} NumbersThatNeverReply()
    ensures Issues(Finite(1.5), 2) && !PositiveInteger(Finite(1.5))
    ensures Issues(Finite(-1.0), 0) && !PositiveInteger(Finite(-1.0))
    ensures Issues(NaN, 0) && !PositiveInteger(NaN)
  {
    assert Less(0, Finite(1.5)) && Less(1, Finite(1.5));
  }
}
