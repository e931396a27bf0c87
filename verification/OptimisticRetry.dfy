/** Clients that update shared entries with the loop of services/social_graph_service.js
  * and services/user_timeline_service.js: read the entry and its version, compute the new
  * value, write it back under that version, and start over on "abort". Reads and writes of
  * different clients interleave freely; each is one atomic event on a versioned store.
  */
module OptimisticRetry {
  import opened Options
  import VersionedStore

  datatype Cell<V> = Cell(version: nat, value: V)

  // One loop: the entry to update and what to do to it.
  datatype Update<K, O> = Update(key: K, op: O)

  // What DBGet returned, with version 0 for an absent entry.
  datatype View<V> = View(version: nat, value: Option<V>)

  // A client runs its loops in order; `next` is the loop it is in.
  datatype Client<K, V, O> = Client(todo: seq<Update<K, O>>, next: nat, view: Option<View<V>>)

  // A write that succeeded: which client, in which loop.
  datatype Entry = Entry(client: nat, index: nat)

  datatype World<K, V, O> = World(
    store: map<K, Cell<V>>, clients: seq<Client<K, V, O>>,
    // The rest is history.
    used: set<nat>,      // versions drawn so far
    log: seq<Entry>,     // successful writes, in order
    aborts: nat)

  datatype Event = Get(client: nat) | Set(client: nat, version: nat)

  function VersionOfCell<V>(c: Cell<V>): nat {
    c.version
  }

  function Lookup<K, V>(store: map<K, Cell<V>>, key: K): (v: View<V>)
  {
    if key in store then View(store[key].version, Some(store[key].value)) else View(0, None)
  }

  // A drawn version is not zero and has not been drawn before.
  predicate Enabled<K, V, O>(w: World<K, V, O>, e: Event) {
    e.client < |w.clients| &&
    var c := w.clients[e.client];
    c.next < |c.todo| &&
    match e
    case Get(_) => c.view.None?
    case Set(_, version) => c.view.Some? && version != 0 && version !in w.used
  }

  // The write of client `i` would be accepted.
  predicate Fresh<K, V, O>(store: map<K, Cell<V>>, c: Client<K, V, O>) {
    c.next < |c.todo| && c.view.Some? ==>
      VersionedStore.Accepts(store, VersionOfCell, c.todo[c.next].key, c.view.value.version)
  }

  function Step<K, V, O>(w: World<K, V, O>, e: Event, apply: (Option<V>, O) -> V): (t: World<K, V, O>)
    requires Enabled(w, e)
  {
    var i := e.client;
    var c := w.clients[i];
    var u := c.todo[c.next];
    match e
    case Get(_) => w.(clients := w.clients[i := c.(view := Some(Lookup(w.store, u.key)))])
    case Set(_, version) =>
      var seen := c.view.value;
      var cell := Cell(version, apply(seen.value, u.op));
      var t := w.(store := VersionedStore.Set(w.store, VersionOfCell, u.key, cell, seen.version),
                  used := w.used + {version});
      if VersionedStore.Accepts(w.store, VersionOfCell, u.key, seen.version) then
        t.(clients := w.clients[i := c.(view := None, next := c.next + 1)], log := w.log + [Entry(i, c.next)])
      else
        t.(clients := w.clients[i := c.(view := None)], aborts := w.aborts + 1)
  }

  // The clients are about to start and the versions in the store count as drawn.
  ghost predicate Init<K, V, O>(w: World<K, V, O>) {
    && (forall i :: 0 <= i < |w.clients| ==> w.clients[i].next == 0 && w.clients[i].view.None?)
    && (forall k :: k in w.store ==> w.store[k].version != 0 && w.store[k].version in w.used)
    && w.log == [] && w.aborts == 0
  }

  ghost predicate Run<K, V, O>(w: World<K, V, O>, es: seq<Event>, t: World<K, V, O>, apply: (Option<V>, O) -> V)
    decreases |es|
  {
    if es == [] then w == t else Enabled(w, es[0]) && Run(Step(w, es[0], apply), es[1..], t, apply)
  }

  // ---- the meaning of a log ---------------------------------------------------------------

  function Value<K, V>(store: map<K, Cell<V>>, key: K): (v: Option<V>)
  {
    Lookup(store, key).value
  }

  ghost predicate ValidLog<K, V, O>(clients: seq<Client<K, V, O>>, log: seq<Entry>) {
    forall n :: 0 <= n < |log| ==> log[n].client < |clients| && log[n].index < |clients[log[n].client].todo|
  }

  // The entry `key` after the logged updates, done one after the other.
  ghost function Replay<K, V, O>(init: Option<V>, clients: seq<Client<K, V, O>>, log: seq<Entry>, key: K,
                                 apply: (Option<V>, O) -> V): (v: Option<V>)
    requires ValidLog(clients, log)
    decreases |log|
  {
    if log == [] then init
    else
      var before := Replay(init, clients, log[..|log| - 1], key, apply);
      var u := clients[log[|log| - 1].client].todo[log[|log| - 1].index];
      if u.key == key then Some(apply(before, u.op)) else before
  }

  // The loops of client `i` in the log, in order.
  ghost function LoopsOf(log: seq<Entry>, i: nat): (r: seq<nat>)
    decreases |log|
  {
    if log == [] then []
    else
      var last := log[|log| - 1];
      LoopsOf(log[..|log| - 1], i) + (if last.client == i then [last.index] else [])
  }

  ghost function UpTo(n: nat): (r: seq<nat>)
  {
    seq(n, i requires 0 <= i < n => i)
  }

  ghost predicate SameTodo<K, V, O>(a: seq<Client<K, V, O>>, b: seq<Client<K, V, O>>) {
    |a| == |b| && forall i :: 0 <= i < |a| ==> a[i].todo == b[i].todo
  }

  lemma {:induction false} ReplaySame<K, V, O>(init: Option<V>, a: seq<Client<K, V, O>>, b: seq<Client<K, V, O>>,
                                               log: seq<Entry>, key: K, apply: (Option<V>, O) -> V)
    requires SameTodo(a, b) && ValidLog(a, log)
    ensures ValidLog(b, log) && Replay(init, a, log, key, apply) == Replay(init, b, log, key, apply)
    decreases |log|
  {
    if log != [] { ReplaySame(init, a, b, log[..|log| - 1], key, apply); }
  }

  // ---- the invariant ---------------------------------------------------------------------------

  // What a client has seen is what the entry holds, if its write would be accepted.
  ghost predicate ViewOk<K, V, O>(w: World<K, V, O>, c: Client<K, V, O>) {
    c.next <= |c.todo| &&
    (c.view.Some? ==>
       c.next < |c.todo| &&
       var key, seen := c.todo[c.next].key, c.view.value;
       && (seen.version == 0 || seen.version in w.used)
       && (seen.version == 0 <==> seen.value.None?)
       && (seen.version != 0 ==> key in w.store)
       && (Fresh(w.store, c) ==> Value(w.store, key) == seen.value))
  }

  ghost predicate Inv<K(!new), V, O>(w: World<K, V, O>, w0: World<K, V, O>, apply: (Option<V>, O) -> V) {
    && SameTodo(w0.clients, w.clients)
    && (forall k :: k in w.store ==> w.store[k].version != 0 && w.store[k].version in w.used)
    && (forall i :: 0 <= i < |w.clients| ==> ViewOk(w, w.clients[i]))
    && ValidLog(w.clients, w.log)
    && (forall k: K :: Value(w.store, k) == Replay(Value(w0.store, k), w.clients, w.log, k, apply))
    && (forall i :: 0 <= i < |w.clients| ==> LoopsOf(w.log, i) == UpTo(w.clients[i].next))
  }

  lemma {:induction false} StepViews<K, V, O>(w: World<K, V, O>, e: Event, apply: (Option<V>, O) -> V, i: nat)
    requires Enabled(w, e) && i < |w.clients| && ViewOk(w, w.clients[i]) && ViewOk(w, w.clients[e.client])
    requires forall k :: k in w.store ==> w.store[k].version != 0 && w.store[k].version in w.used
    ensures var t := Step(w, e, apply); ViewOk(t, t.clients[i])
  {
  }

  lemma {:induction false} StepLog<K, V, O>(w: World<K, V, O>, e: Event, apply: (Option<V>, O) -> V)
    requires Enabled(w, e) && ValidLog(w.clients, w.log)
    ensures var t := Step(w, e, apply);
            && SameTodo(w.clients, t.clients) && ValidLog(t.clients, t.log)
            && (t.log == w.log || (t.log != [] && t.log[..|t.log| - 1] == w.log))
  {
  }

  lemma {:induction false} StepValue<K, V, O>(w: World<K, V, O>, e: Event, apply: (Option<V>, O) -> V,
                              init: Option<V>, k: K)
    requires Enabled(w, e) && ValidLog(w.clients, w.log) && ViewOk(w, w.clients[e.client])
    requires Value(w.store, k) == Replay(init, w.clients, w.log, k, apply)
    ensures var t := Step(w, e, apply);
            ValidLog(t.clients, t.log) && Value(t.store, k) == Replay(init, t.clients, t.log, k, apply)
  {
    StepLog(w, e, apply);
    ReplaySame(init, w.clients, Step(w, e, apply).clients, w.log, k, apply);
  }

  lemma {:induction false} StepLoops<K, V, O>(w: World<K, V, O>, e: Event, apply: (Option<V>, O) -> V, i: nat)
    requires Enabled(w, e) && ValidLog(w.clients, w.log) && i < |w.clients|
    requires LoopsOf(w.log, i) == UpTo(w.clients[i].next)
    ensures var t := Step(w, e, apply); LoopsOf(t.log, i) == UpTo(t.clients[i].next)
  {
    StepLog(w, e, apply);
    assert UpTo(w.clients[i].next + 1) == UpTo(w.clients[i].next) + [w.clients[i].next];
  }

  lemma {:induction false} StepKeeps<K(!new), V, O>(
    w: World<K, V, O>, w0: World<K, V, O>, e: Event, apply: (Option<V>, O) -> V)
    requires Inv(w, w0, apply) && Enabled(w, e)
    ensures Inv(Step(w, e, apply), w0, apply)
  {
    var t := Step(w, e, apply);
    StepLog(w, e, apply);
    forall i | 0 <= i < |t.clients| ensures ViewOk(t, t.clients[i]) {
      StepViews(w, e, apply, i);
    }
    forall k: K ensures Value(t.store, k) == Replay(Value(w0.store, k), t.clients, t.log, k, apply) {
      StepValue(w, e, apply, Value(w0.store, k), k);
    }
    forall i | 0 <= i < |t.clients| ensures LoopsOf(t.log, i) == UpTo(t.clients[i].next) {
      StepLoops(w, e, apply, i);
    }
  }

  lemma {:induction false} RunKeeps<K(!new), V, O>(w: World<K, V, O>, w0: World<K, V, O>, es: seq<Event>,
                                                   t: World<K, V, O>, apply: (Option<V>, O) -> V)
    requires Inv(w, w0, apply) && Run(w, es, t, apply)
    ensures Inv(t, w0, apply)
    decreases |es|
  {
    if es != [] {
      StepKeeps(w, w0, es[0], apply);
      RunKeeps(Step(w, es[0], apply), w0, es[1..], t, apply);
    }
  }

  // ---- no lost updates ------------------------------------------------------------------------

  // After every run, each entry is what the successful writes make of its first value, one
  // after the other; and each client has made exactly the writes of the loops it has left.
  lemma {:induction false} NoLostUpdates<K(!new), V, O>(
    w0: World<K, V, O>, es: seq<Event>, t: World<K, V, O>, apply: (Option<V>, O) -> V)
    requires Init(w0) && Run(w0, es, t, apply)
    ensures SameTodo(w0.clients, t.clients) && ValidLog(t.clients, t.log)
    ensures forall k: K :: Value(t.store, k) == Replay(Value(w0.store, k), t.clients, t.log, k, apply)
    ensures forall i :: 0 <= i < |t.clients| ==> LoopsOf(t.log, i) == UpTo(t.clients[i].next)
  {
    assert Inv(w0, w0, apply);
    RunKeeps(w0, w0, es, t, apply);
  }

  // ---- progress -----------------------------------------------------------------------------------

  // Clients among the first `n` whose write would be refused.
  ghost function Stale<K, V, O>(store: map<K, Cell<V>>, clients: seq<Client<K, V, O>>, n: nat): (r: nat)
    requires n <= |clients|
    ensures r <= n
  {
    if n == 0 then 0 else Stale(store, clients, n - 1) + (if Fresh(store, clients[n - 1]) then 0 else 1)
  }

  // Clients among the first `n` that hold a view.
  ghost function Viewing<K, V, O>(clients: seq<Client<K, V, O>>, n: nat): (r: nat)
    requires n <= |clients|
    ensures r <= n
  {
    if n == 0 then 0 else Viewing(clients, n - 1) + (if clients[n - 1].view.Some? then 1 else 0)
  }

  // Clients among the first `n` that have loops left.
  ghost function Active<K, V, O>(clients: seq<Client<K, V, O>>, n: nat): (r: nat)
    requires n <= |clients|
    ensures r <= n
  {
    if n == 0 then 0 else Active(clients, n - 1) + (if clients[n - 1].next < |clients[n - 1].todo| then 1 else 0)
  }

  // One client changes, and the store stays: its share of the count changes.
  lemma {:induction false} CountsUpdate<K, V, O>(store: map<K, Cell<V>>, clients: seq<Client<K, V, O>>, n: nat,
                              i: nat, c: Client<K, V, O>)
    requires i < n <= |clients|
    ensures Stale(store, clients[i := c], n) - (if Fresh(store, c) then 0 else 1)
            == Stale(store, clients, n) - (if Fresh(store, clients[i]) then 0 else 1)
    ensures Viewing(clients[i := c], n) - (if c.view.Some? then 1 else 0)
            == Viewing(clients, n) - (if clients[i].view.Some? then 1 else 0)
    ensures Active(clients[i := c], n) - (if c.next < |c.todo| then 1 else 0)
            == Active(clients, n) - (if clients[i].next < |clients[i].todo| then 1 else 0)
  {
    if i < n - 1 {
      CountsUpdate(store, clients, n - 1, i, c);
    } else {
      CountsSame(store, clients, clients[i := c], n - 1);
    }
  }

  lemma {:induction false} CountsSame<K, V, O>(store: map<K, Cell<V>>, a: seq<Client<K, V, O>>,
                              b: seq<Client<K, V, O>>, n: nat)
    requires n <= |a| == |b| && a[..n] == b[..n]
    ensures Stale(store, a, n) == Stale(store, b, n) && Viewing(a, n) == Viewing(b, n) && Active(a, n) == Active(b, n)
  {
    if n > 0 {
      assert a[n - 1] == a[..n][n - 1] && a[..n - 1] == a[..n][..n - 1] && b[..n - 1] == b[..n][..n - 1];
      CountsSame(store, a, b, n - 1);
    }
  }

  // Only clients with loops left can be refused.
  lemma {:induction false} StaleAreActive<K, V, O>(store: map<K, Cell<V>>, clients: seq<Client<K, V, O>>, n: nat)
    requires n <= |clients|
    ensures Stale(store, clients, n) <= Active(clients, n)
  {
    if n > 0 { StaleAreActive(store, clients, n - 1); }
  }

  // Loops that the first `n` clients have left behind, and all their loops.
  ghost function Done<K, V, O>(clients: seq<Client<K, V, O>>, n: nat): (r: nat)
    requires n <= |clients|
  {
    if n == 0 then 0 else Done(clients, n - 1) + clients[n - 1].next
  }

  ghost function Loops<K, V, O>(clients: seq<Client<K, V, O>>, n: nat): (r: nat)
    requires n <= |clients|
  {
    if n == 0 then 0 else Loops(clients, n - 1) + |clients[n - 1].todo|
  }

  lemma {:induction false} DoneUpdate<K, V, O>(clients: seq<Client<K, V, O>>, n: nat, i: nat, c: Client<K, V, O>)
    requires n <= |clients| && i < |clients| && c.todo == clients[i].todo
    ensures Done(clients[i := c], n) == Done(clients, n) + (if i < n then c.next - clients[i].next else 0)
    ensures Loops(clients[i := c], n) == Loops(clients, n)
  {
    if n > 0 { DoneUpdate(clients, n - 1, i, c); }
  }

  lemma {:induction false} DoneWithin<K, V, O>(clients: seq<Client<K, V, O>>, n: nat)
    requires n <= |clients| && forall i :: 0 <= i < |clients| ==> clients[i].next <= |clients[i].todo|
    ensures Done(clients, n) <= Loops(clients, n)
  {
    if n > 0 { DoneWithin(clients, n - 1); }
  }

  // Every abort, and every view gone stale, is paid for by a success of another client.
  ghost predicate Paid<K, V, O>(w: World<K, V, O>) {
    var n := |w.clients|;
    && w.aborts + Stale(w.store, w.clients, n) <= (n - 1) * |w.log|
    && |w.log| == Done(w.clients, n)
    && (forall i :: 0 <= i < n ==> w.clients[i].next <= |w.clients[i].todo|)
  }

  // The same when every client has one loop: then a success retires its client.
  ghost predicate PaidOnce<K, V, O>(w: World<K, V, O>) {
    var n, s := |w.clients|, |w.log|;
    && (forall i :: 0 <= i < n ==> |w.clients[i].todo| == 1)
    && Active(w.clients, n) == n - s
    && 2 * (w.aborts + Stale(w.store, w.clients, n)) <= s * (2 * n - s - 1)
  }

  // A read spoils nothing, a refused write turns a stale view into an abort, and a
  // successful one can spoil the views of the other active clients, no more.
  lemma {:induction false} StepCounts<K, V, O>(w: World<K, V, O>, e: Event, apply: (Option<V>, O) -> V)
    requires Enabled(w, e)
    ensures var t, n := Step(w, e, apply), |w.clients|;
            && |t.clients| == n
            && Viewing(t.clients, n) == Viewing(w.clients, n) + (if e.Get? then 1 else -1)
            && Done(t.clients, n) - |t.log| == Done(w.clients, n) - |w.log|
            && Loops(t.clients, n) == Loops(w.clients, n)
            && (if |t.log| == |w.log| then
                  && t.aborts + Stale(t.store, t.clients, n) <= w.aborts + Stale(w.store, w.clients, n)
                  && t.aborts == w.aborts + (if e.Get? then 0 else 1)
                  && Active(t.clients, n) == Active(w.clients, n)
                else
                  && e.Set? && |t.log| == |w.log| + 1 && t.aborts == w.aborts
                  && Stale(t.store, t.clients, n) < Active(w.clients, n)
                  && Active(t.clients, n) >= Active(w.clients, n) - 1
                  && (|w.clients[e.client].todo| == 1 ==> Active(t.clients, n) == Active(w.clients, n) - 1))
  {
    var t, n, i := Step(w, e, apply), |w.clients|, e.client;
    CountsUpdate(w.store, w.clients, n, i, t.clients[i]);
    DoneUpdate(w.clients, n, i, t.clients[i]);
    if |t.log| != |w.log| {
      // The client that succeeded holds no view: it is not among the stale ones.
      var c := t.clients[i].(next := |t.clients[i].todo|);
      CountsUpdate(t.store, t.clients, n, i, c);
      StaleAreActive(t.store, t.clients[i := c], n);
    }
  }

  lemma {:induction false} PaidStep(a: int, s: int)
    ensures a * (s + 1) == a * s + a
  {
  }

  lemma {:induction false} PairsStep(n: int, s: int)
    ensures (s + 1) * (2 * n - (s + 1) - 1) == s * (2 * n - s - 1) + 2 * (n - s - 1)
  {
  }

  lemma {:induction false} NextWithin<K, V, O>(w: World<K, V, O>, e: Event, apply: (Option<V>, O) -> V)
    requires Enabled(w, e) && forall i :: 0 <= i < |w.clients| ==> w.clients[i].next <= |w.clients[i].todo|
    ensures var t := Step(w, e, apply);
            |t.clients| == |w.clients| &&
            forall i :: 0 <= i < |t.clients| ==>
              t.clients[i].next <= |t.clients[i].todo| && t.clients[i].todo == w.clients[i].todo
  {
  }

  lemma {:induction false} StepPaid<K, V, O>(w: World<K, V, O>, e: Event, apply: (Option<V>, O) -> V)
    requires Enabled(w, e) && Paid(w)
    ensures Paid(Step(w, e, apply))
  {
    StepCounts(w, e, apply);
    NextWithin(w, e, apply);
    PaidStep(|w.clients| - 1, |w.log|);
  }

  lemma {:induction false} StepPaidOnce<K, V, O>(w: World<K, V, O>, e: Event, apply: (Option<V>, O) -> V)
    requires Enabled(w, e) && Paid(w) && PaidOnce(w)
    ensures PaidOnce(Step(w, e, apply))
  {
    StepCounts(w, e, apply);
    NextWithin(w, e, apply);
    PairsStep(|w.clients|, |w.log|);
  }

  lemma {:induction false} RunCounts<K, V, O>(w: World<K, V, O>, es: seq<Event>, t: World<K, V, O>,
                              apply: (Option<V>, O) -> V)
    requires Run(w, es, t, apply) && Paid(w)
    ensures Paid(t) && (PaidOnce(w) ==> PaidOnce(t)) && |t.clients| == |w.clients|
    ensures Loops(t.clients, |t.clients|) == Loops(w.clients, |w.clients|)
    ensures 2 * (|t.log| + t.aborts) + Viewing(t.clients, |t.clients|)
            == 2 * (|w.log| + w.aborts) + Viewing(w.clients, |w.clients|) + |es|
    decreases |es|
  {
    if es != [] {
      StepCounts(w, es[0], apply);
      StepPaid(w, es[0], apply);
      if PaidOnce(w) { StepPaidOnce(w, es[0], apply); }
      RunCounts(Step(w, es[0], apply), es[1..], t, apply);
    }
  }

  lemma {:induction false} StartCounts<K, V, O>(w: World<K, V, O>, n: nat)
    requires Init(w) && n <= |w.clients|
    ensures Stale(w.store, w.clients, n) == 0 && Viewing(w.clients, n) == 0 && Done(w.clients, n) == 0
    ensures (forall i :: 0 <= i < n ==> |w.clients[i].todo| == 1) ==> Active(w.clients, n) == n
  {
    if n > 0 { StartCounts(w, n - 1); }
  }

  // The loops always end, and make progress whatever the interleaving: `n` clients with
  // `u` loops in all make at most `(n - 1) * u` aborted writes and `2 * n * u + n` reads
  // and writes altogether.
  lemma {:induction false} RunsAreBounded<K, V, O>(w0: World<K, V, O>, es: seq<Event>, t: World<K, V, O>,
                              apply: (Option<V>, O) -> V)
    requires Init(w0) && Run(w0, es, t, apply)
    ensures var n, u := |w0.clients|, Loops(w0.clients, |w0.clients|);
            t.aborts <= (n - 1) * |t.log| && |t.log| <= u && |es| <= 2 * n * u + n
  {
    var n := |w0.clients|;
    StartCounts(w0, n);
    RunCounts(w0, es, t, apply);
    DoneWithin(t.clients, n);
    BoundArithmetic(n, |t.log|, Loops(w0.clients, n), t.aborts);
  }

  lemma {:induction false} BoundArithmetic(n: nat, s: nat, u: nat, aborts: nat)
    requires s <= u && aborts <= (n - 1) * s
    ensures 2 * (s + aborts) + n <= 2 * n * u + n
  {
    assert s + (n - 1) * s == n * s;
    assert n * s <= n * u;
  }

  // `n` clients with one loop each abort at most `n * (n - 1) / 2` times.
  lemma {:induction false} AbortsOfOneLoopEach<K, V, O>(w0: World<K, V, O>, es: seq<Event>, t: World<K, V, O>,
                              apply: (Option<V>, O) -> V)
    requires Init(w0) && Run(w0, es, t, apply)
    requires forall i :: 0 <= i < |w0.clients| ==> |w0.clients[i].todo| == 1
    ensures 2 * t.aborts <= |w0.clients| * (|w0.clients| - 1)
  {
    var n := |w0.clients|;
    StartCounts(w0, n);
    RunCounts(w0, es, t, apply);
    assert PaidOnce(t);
    PairsArithmetic(n, |t.log|, 2 * t.aborts);
  }

  lemma {:induction false} PairsArithmetic(n: nat, s: nat, x: int)
    requires s <= n && x <= s * (2 * n - s - 1)
    ensures x <= n * (n - 1)
  {
    assert n * (n - 1) - s * (2 * n - s - 1) == (n - s) * (n - s - 1);
    assert n - s == 0 || (n - s) * (n - s - 1) >= 0;
  }

  // ---- no client is left waiting ---------------------------------------------------------------

  lemma {:induction false} UndrawnVersion(used: set<nat>) returns (v: nat)
    ensures v != 0 && v !in used
    ensures forall u :: u in used ==> u < v
    decreases |used|
  {
    if used == {} {
      v := 1;
    } else {
      var u :| u in used;
      v := UndrawnVersion(used - {u});
      if v <= u { v := u + 1; }
      assert used == (used - {u}) + {u};
    }
  }

  // When no client can take a step, all have run all their loops to success.
  lemma {:induction false} RestMeansDone<K, V, O>(w: World<K, V, O>)
    requires forall e :: !Enabled(w, e)
    ensures forall i :: 0 <= i < |w.clients| ==> w.clients[i].next >= |w.clients[i].todo|
  {
    forall i | 0 <= i < |w.clients| ensures w.clients[i].next >= |w.clients[i].todo| {
      var v := UndrawnVersion(w.used);
      assert !Enabled(w, Get(i)) && !Enabled(w, Set(i, v));
    }
  }
}
