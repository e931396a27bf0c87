/** services/social_graph_service.js: `follow` under concurrency. */
module SocialGraph {
  import opened Options
  import opened OptimisticRetry

  type Name = string
  type Lists = World<Name, seq<Name>, Name>

  // The two loops of `follow`: the followee joins the list of the user, then the user
  // joins the follower list of the followee.
  function Follow(user: Name, followee: Name): (c: Client<Name, seq<Name>, Name>)
  {
    Client([Update(user, followee), Update(followee + "followers", user)], 0, None)
  }

  function List(v: Option<seq<Name>>): (l: seq<Name>)
  {
    match v case None => [] case Some(l) => l
  }

  function Push(v: Option<seq<Name>>, x: Name): (l: seq<Name>)
  {
    List(v) + [x]
  }

  // The names pushed to list `key`, in the order of the successful writes.
  ghost function Pushes(clients: seq<Client<Name, seq<Name>, Name>>, log: seq<Entry>, key: Name): (l: seq<Name>)
    requires ValidLog(clients, log)
    decreases |log|
  {
    if log == [] then []
    else
      var u := clients[log[|log| - 1].client].todo[log[|log| - 1].index];
      Pushes(clients, log[..|log| - 1], key) + (if u.key == key then [u.op] else [])
  }

  lemma {:induction false} ReplayPushes(init: Option<seq<Name>>, clients: seq<Client<Name, seq<Name>, Name>>,
                              log: seq<Entry>, key: Name)
    requires ValidLog(clients, log)
    ensures List(Replay(init, clients, log, key, Push)) == List(init) + Pushes(clients, log, key)
    decreases |log|
  {
    if log != [] { ReplayPushes(init, clients, log[..|log| - 1], key); }
  }

  ghost predicate Follows(w: Lists, pairs: seq<(Name, Name)>) {
    |w.clients| == |pairs| && forall i :: 0 <= i < |pairs| ==> w.clients[i] == Follow(pairs[i].0, pairs[i].1)
  }

  // However the reads and writes of any number of `follow` calls interleave, every list
  // is its first value and then the pushes in the order of their successful writes, and
  // a call that has returned has pushed once to each of its two lists.
  lemma {:induction false} FollowLosesNothing(w0: Lists, pairs: seq<(Name, Name)>, es: seq<Event>, t: Lists)
    requires Init(w0) && Follows(w0, pairs) && Run(w0, es, t, Push)
    ensures SameTodo(w0.clients, t.clients) && ValidLog(t.clients, t.log)
    ensures forall key :: List(Value(t.store, key)) == List(Value(w0.store, key)) + Pushes(t.clients, t.log, key)
    ensures forall i :: 0 <= i < |t.clients| && t.clients[i].next == 2 ==> LoopsOf(t.log, i) == [0, 1]
  {
    NoLostUpdates(w0, es, t, Push);
    forall key ensures List(Value(t.store, key)) == List(Value(w0.store, key)) + Pushes(t.clients, t.log, key) {
      ReplayPushes(Value(w0.store, key), t.clients, t.log, key);
    }
    assert UpTo(2) == [0, 1];
  }

  // In particular both ends of a returned call see each other.
  lemma {:induction false} FollowIsSeen(w0: Lists, pairs: seq<(Name, Name)>, es: seq<Event>, t: Lists, i: nat)
    requires Init(w0) && Follows(w0, pairs) && Run(w0, es, t, Push) && i < |pairs|
    requires i < |t.clients| && t.clients[i].next == 2
    ensures pairs[i].1 in List(Value(t.store, pairs[i].0))
    ensures pairs[i].0 in List(Value(t.store, pairs[i].1 + "followers"))
  {
    FollowLosesNothing(w0, pairs, es, t);
    assert t.clients[i].todo == w0.clients[i].todo;
    assert [0, 1][0] == 0 && [0, 1][1] == 1;
    LoggedIsPushed(t.clients, t.log, i, 0);
    LoggedIsPushed(t.clients, t.log, i, 1);
  }

  lemma {:induction false} LoggedIsPushed(clients: seq<Client<Name, seq<Name>, Name>>, log: seq<Entry>, i: nat, j: nat)
    requires ValidLog(clients, log) && j in LoopsOf(log, i)
    ensures i < |clients| && j < |clients[i].todo|
    ensures clients[i].todo[j].op in Pushes(clients, log, clients[i].todo[j].key)
    decreases |log|
  {
    var last := log[|log| - 1];
    if last != Entry(i, j) { LoggedIsPushed(clients, log[..|log| - 1], i, j); }
  }

  // `n` calls of `follow` make at most `4 * n * n + n` reads and writes and then have all returned.
  lemma {:induction false} FollowEnds(w0: Lists, pairs: seq<(Name, Name)>, es: seq<Event>, t: Lists)
    requires Init(w0) && Follows(w0, pairs) && Run(w0, es, t, Push)
    ensures |es| <= 4 * |pairs| * |pairs| + |pairs|
    ensures (forall e :: !Enabled(t, e)) ==> forall i :: 0 <= i < |t.clients| ==> t.clients[i].next == 2
  {
    var n := |pairs|;
    RunsAreBounded(w0, es, t, Push);
    TwoLoopsEach(w0.clients, n);
    Quadratic(n, Loops(w0.clients, n));
    NoLostUpdates(w0, es, t, Push);
    RunKeepsNext(w0, es, t);
    if forall e :: !Enabled(t, e) { RestMeansDone(t); }
  }

  lemma {:induction false} Quadratic(n: nat, u: nat)
    requires u == 2 * n
    ensures 2 * n * u == 4 * n * n
  {
  }

  lemma {:induction false} TwoLoopsEach(clients: seq<Client<Name, seq<Name>, Name>>, n: nat)
    requires n <= |clients| && forall i :: 0 <= i < |clients| ==> |clients[i].todo| == 2
    ensures Loops(clients, n) == 2 * n
  {
    if n > 0 { TwoLoopsEach(clients, n - 1); }
  }

  lemma {:induction false} RunKeepsNext(w0: Lists, es: seq<Event>, t: Lists)
    requires Init(w0) && Run(w0, es, t, Push)
    ensures forall i :: 0 <= i < |t.clients| ==> t.clients[i].next <= |t.clients[i].todo|
  {
    StartCounts(w0, |w0.clients|);
    RunCounts(w0, es, t, Push);
  }
}
