/** services/user_timeline_service.js: the insertion into a sorted timeline, and a timeline
  * that many clients write. */
module UserTimeline {
  import opened Options
  import opened OptimisticRetry

  datatype Post = Post(id: string, timestamp: int)

  type Compare = (Post, Post) -> int

  // `a.timestamp > b.timestamp` as JavaScript compares it with 0: true is 1, false is 0.
  function Comp(a: Post, b: Post): (c: int)
  {
    if a.timestamp > b.timestamp then 1 else 0
  }

  // Where the search of `push_sorted` stops, from the bounds `m` and `n`.
  function Stop(arr: seq<Post>, e: Post, compare: Compare, m: int, n: int): (k: nat)
    requires 0 <= m <= n + 1 <= |arr|
    ensures m <= k <= n + 1
    decreases n - m + 1
  {
    if m > n then m
    else
      var k := (n + m) / 2;
      var cmp := compare(e, arr[k]);
      if cmp > 0 then Stop(arr, e, compare, k + 1, n)
      else if cmp < 0 then Stop(arr, e, compare, m, k - 1)
      else k
  }

  function Inserted(arr: seq<Post>, e: Post, compare: Compare): (r: seq<Post>)
  {
    var k := Stop(arr, e, compare, 0, |arr| - 1);
    arr[..k] + [e] + arr[k..]
  }

  class Timeline {
    var posts: seq<Post>

    // `push_sorted`: the splice happens in place.
    method PushSorted(e: Post, compare: Compare) returns (length: nat)
      modifies this
      ensures posts == Inserted(old(posts), e, compare)
      ensures length == |posts| == |old(posts)| + 1
    {
      var m, n := 0, |posts| - 1;
      var k := -1;
      while m <= n
        invariant 0 <= m <= n + 1 <= |posts| && posts == old(posts) && k == -1
        invariant Stop(posts, e, compare, 0, |posts| - 1) == Stop(posts, e, compare, m, n)
        decreases n - m
      {
        var mid := (n + m) / 2;
        var cmp := compare(e, posts[mid]);
        if cmp > 0 {
          m := mid + 1;
        } else if cmp < 0 {
          n := mid - 1;
        } else {
          k := mid;
          break;
        }
      }
      if k == -1 {
        k := m;
      }
      posts := posts[..k] + [e] + posts[k..];
      length := |posts|;
    }
  }

  // ---- what is inserted, and where -----------------------------------------------------------

  ghost predicate Sorted(arr: seq<Post>) {
    forall i, j :: 0 <= i < j < |arr| ==> arr[i].timestamp <= arr[j].timestamp
  }

  lemma {:induction false} InsertsOne(arr: seq<Post>, e: Post, compare: Compare)
    ensures multiset(Inserted(arr, e, compare)) == multiset(arr) + multiset{e}
  {
    var k := Stop(arr, e, compare, 0, |arr| - 1);
    assert arr == arr[..k] + arr[k..];
  }

  // A place for `e` that keeps a sorted array sorted.
  ghost predicate FitsAt(arr: seq<Post>, e: Post, k: nat) {
    && k <= |arr|
    && (forall i :: 0 <= i < k ==> arr[i].timestamp <= e.timestamp)
    && (forall i :: k <= i < |arr| ==> e.timestamp <= arr[i].timestamp)
  }

  lemma {:induction false} SortedIffFits(arr: seq<Post>, e: Post, k: nat)
    requires Sorted(arr) && k <= |arr|
    ensures Sorted(arr[..k] + [e] + arr[k..]) <==> FitsAt(arr, e, k)
  {
    var r := arr[..k] + [e] + arr[k..];
    assert forall i :: 0 <= i < k ==> r[i] == arr[i];
    assert r[k] == e;
    assert forall j :: k < j < |r| ==> r[j] == arr[j - 1];
    if Sorted(r) {
      forall i | k <= i < |arr| ensures e.timestamp <= arr[i].timestamp {
        assert r[k].timestamp <= r[i + 1].timestamp;
      }
    }
  }

  ghost predicate ThreeWay(compare: Compare, e: Post, arr: seq<Post>) {
    forall i :: 0 <= i < |arr| ==>
      (compare(e, arr[i]) > 0 <==> e.timestamp > arr[i].timestamp) &&
      (compare(e, arr[i]) < 0 <==> e.timestamp < arr[i].timestamp)
  }

  // With a three-way comparison every sorted array stays sorted.
  lemma {:induction false} ThreeWayKeepsSorted(arr: seq<Post>, e: Post, compare: Compare)
    requires Sorted(arr) && ThreeWay(compare, e, arr)
    ensures Sorted(Inserted(arr, e, compare))
  {
    ThreeWayFits(arr, e, compare, 0, |arr| - 1);
    SortedIffFits(arr, e, Stop(arr, e, compare, 0, |arr| - 1));
  }

  // A stored post bounds everything on its side.
  lemma {:induction false} AllOnOneSide(arr: seq<Post>, t: int, k: nat)
    requires Sorted(arr) && k < |arr|
    ensures arr[k].timestamp <= t ==> forall i :: 0 <= i <= k ==> arr[i].timestamp <= t
    ensures t <= arr[k].timestamp ==> forall i :: k <= i < |arr| ==> t <= arr[i].timestamp
  {
  }

  lemma {:induction false} ThreeWayFits(arr: seq<Post>, e: Post, compare: Compare, m: int, n: int)
    requires Sorted(arr) && ThreeWay(compare, e, arr) && 0 <= m <= n + 1 <= |arr|
    requires forall i :: 0 <= i < m ==> arr[i].timestamp <= e.timestamp
    requires forall i :: n < i < |arr| ==> e.timestamp <= arr[i].timestamp
    ensures FitsAt(arr, e, Stop(arr, e, compare, m, n))
    decreases n - m + 1
  {
    if m <= n {
      var k := (n + m) / 2;
      AllOnOneSide(arr, e.timestamp, k);
      assert (compare(e, arr[k]) > 0 <==> e.timestamp > arr[k].timestamp)
          && (compare(e, arr[k]) < 0 <==> e.timestamp < arr[k].timestamp);
      if compare(e, arr[k]) > 0 {
        ThreeWayFits(arr, e, compare, k + 1, n);
      } else if compare(e, arr[k]) < 0 {
        ThreeWayFits(arr, e, compare, m, k - 1);
      }
    }
  }

  // ---- the comparison that is passed ------------------------------------------------------------

  // The places the search can stop at with `Comp`, which never sends it to the left: they
  // depend on the length alone.
  function Probes(m: nat, length: nat): (p: seq<nat>)
    requires m <= length
    decreases length - m
  {
    if m == length then [m]
    else
      var k := (length - 1 + m) / 2;
      [k] + Probes(k + 1, length)
  }

  lemma {:induction false} StopIsFirstProbe(arr: seq<Post>, e: Post, m: nat, p: nat)
    requires m <= |arr| && Sorted(arr)
    ensures var k := Stop(arr, e, Comp, m, |arr| - 1);
            && k in Probes(m, |arr|)
            && (k < |arr| ==> e.timestamp <= arr[k].timestamp)
            && (p in Probes(m, |arr|) && (forall i :: p <= i < |arr| ==> e.timestamp <= arr[i].timestamp) ==> k <= p)
    decreases |arr| - m
  {
    if m < |arr| {
      var k := (|arr| - 1 + m) / 2;
      if Comp(e, arr[k]) > 0 {
        StopIsFirstProbe(arr, e, k + 1, p);
      } else {
        ProbesFrom(k + 1, |arr|, p);
      }
    }
  }

  lemma {:induction false} ProbesFrom(m: nat, length: nat, p: nat)
    requires m <= length
    ensures p in Probes(m, length) ==> m <= p <= length
    ensures length in Probes(m, length)
    decreases length - m
  {
    if m < length { ProbesFrom((length - 1 + m) / 2 + 1, length, p); }
  }

  lemma {:induction false} AllProbesFrom(m: nat, length: nat)
    requires m <= length
    ensures forall i :: 0 <= i < |Probes(m, length)| ==> Probes(m, length)[i] >= m
  {
    forall i | 0 <= i < |Probes(m, length)| ensures Probes(m, length)[i] >= m {
      ProbesFrom(m, length, Probes(m, length)[i]);
    }
  }

  predicate IsOlder(arr: seq<Post>, p: nat, e: Post) {
    p < |arr| && arr[p].timestamp < e.timestamp
  }

  // Whatever the array holds, the search with `Comp` stops at the first of these places that is
  // the end, or whose post is as new as the new one or newer; so a post goes before its equals.
  lemma {:induction false} CompStopsAt(arr: seq<Post>, e: Post, m: nat)
    requires m <= |arr|
    ensures var k := Stop(arr, e, Comp, m, |arr| - 1);
            && k in Probes(m, |arr|) && (k == |arr| || arr[k].timestamp >= e.timestamp)
            && forall p :: p in Probes(m, |arr|) && p < k ==> IsOlder(arr, p, e)
    decreases |arr| - m
  {
    if m < |arr| {
      var k := (|arr| - 1 + m) / 2;
      if Comp(e, arr[k]) > 0 {
        CompStopsAt(arr, e, k + 1);
      } else {
        AllProbesFrom(k + 1, |arr|);
      }
    }
  }

  // With `Comp` a sorted timeline stays sorted exactly when one of the places it can stop
  // at is a place where the new post fits.
  lemma {:induction false} CompKeepsSortedIff(arr: seq<Post>, e: Post)
    requires Sorted(arr)
    ensures Sorted(Inserted(arr, e, Comp)) <==> exists p :: p in Probes(0, |arr|) && FitsAt(arr, e, p)
  {
    var k := Stop(arr, e, Comp, 0, |arr| - 1);
    SortedIffFits(arr, e, k);
    StopIsFirstProbe(arr, e, 0, k);
    if p :| p in Probes(0, |arr|) && FitsAt(arr, e, p) {
      StopIsFirstProbe(arr, e, 0, p);
    }
  }

  // So it does for a post that is at least as new as every stored one.
  lemma {:induction false} CompKeepsSortedForNewest(arr: seq<Post>, e: Post)
    requires Sorted(arr) && forall i :: 0 <= i < |arr| ==> arr[i].timestamp <= e.timestamp
    ensures Sorted(Inserted(arr, e, Comp))
  {
    ProbesFrom(0, |arr|, |arr|);
    assert FitsAt(arr, e, |arr|);
    CompKeepsSortedIff(arr, e);
  }

  // For a post older than every stored one it does so only while there are at most two.
  lemma {:induction false} CompForOldest(arr: seq<Post>, e: Post)
    requires Sorted(arr) && forall i :: 0 <= i < |arr| ==> e.timestamp < arr[i].timestamp
    ensures Sorted(Inserted(arr, e, Comp)) <==> |arr| <= 2
  {
    var k := Stop(arr, e, Comp, 0, |arr| - 1);
    if arr != [] {
      assert Comp(e, arr[(|arr| - 1) / 2]) == 0;
      assert k == (|arr| - 1) / 2;
    }
    assert k > 0 ==> arr[0].timestamp > e.timestamp;
    assert FitsAt(arr, e, k) <==> k == 0;
    SortedIffFits(arr, e, k);
  }

  // A timeline of three posts that an older one disorders.
  lemma {:induction false} CompMisplaces()
    ensures exists arr, e :: Sorted(arr) && !Sorted(Inserted(arr, e, Comp))
  {
    var arr, e := [Post("a", 1), Post("b", 2), Post("c", 3)], Post("d", 0);
    assert Sorted(arr);
    CompForOldest(arr, e);
  }

  // ---- many writers --------------------------------------------------------------------------------

  function Posts(v: Option<seq<Post>>): (p: seq<Post>)
  {
    match v case None => [] case Some(p) => p
  }

  // One round of the loop in `write_user_timeline`.
  function Write(v: Option<seq<Post>>, e: Post): (p: seq<Post>)
  {
    Inserted(Posts(v), e, Comp)
  }

  // The posts written to timeline `user`, in the order of the successful writes.
  ghost function Written(clients: seq<Client<string, seq<Post>, Post>>, log: seq<Entry>, user: string): (p: seq<Post>)
    requires ValidLog(clients, log)
    decreases |log|
  {
    if log == [] then []
    else
      var u := clients[log[|log| - 1].client].todo[log[|log| - 1].index];
      Written(clients, log[..|log| - 1], user) + (if u.key == user then [u.op] else [])
  }

  // Posts inserted one after the other.
  ghost function InsertedAll(first: seq<Post>, added: seq<Post>): (r: seq<Post>)
    decreases |added|
  {
    if added == [] then first
    else Inserted(InsertedAll(first, added[..|added| - 1]), added[|added| - 1], Comp)
  }

  lemma {:induction false} ReplayInserts(init: Option<seq<Post>>, clients: seq<Client<string, seq<Post>, Post>>,
                                         log: seq<Entry>, user: string)
    requires ValidLog(clients, log)
    ensures Posts(Replay(init, clients, log, user, Write)) == InsertedAll(Posts(init), Written(clients, log, user))
    decreases |log|
  {
    if log != [] {
      var before := log[..|log| - 1];
      ReplayInserts(init, clients, before, user);
      var u := clients[log[|log| - 1].client].todo[log[|log| - 1].index];
      var added := Written(clients, before, user);
      if u.key == user {
        assert Written(clients, log, user)[..|added|] == added;
      } else {
        assert Written(clients, log, user) == added;
      }
    }
  }

  lemma {:induction false} ReplayTimeline(init: Option<seq<Post>>, clients: seq<Client<string, seq<Post>, Post>>,
                                          log: seq<Entry>, user: string)
    requires ValidLog(clients, log)
    ensures var r, added := Posts(Replay(init, clients, log, user, Write)), Written(clients, log, user);
            && multiset(r) == multiset(Posts(init)) + multiset(added)
            && (Sorted(Posts(init) + added) ==> Sorted(r))
    decreases |log|
  {
    if log == [] {
      assert Posts(init) + [] == Posts(init);
    } else {
      var before := log[..|log| - 1];
      ReplayTimeline(init, clients, before, user);
      var u := clients[log[|log| - 1].client].todo[log[|log| - 1].index];
      if u.key == user {
        WriteOne(Posts(init), Written(clients, before, user), Replay(init, clients, before, user, Write), u.op);
      } else {
        assert Written(clients, log, user) == Written(clients, before, user);
      }
    }
  }

  lemma {:induction false} WriteOne(first: seq<Post>, added: seq<Post>, v: Option<seq<Post>>, e: Post)
    requires multiset(Posts(v)) == multiset(first) + multiset(added)
    requires Sorted(first + added) ==> Sorted(Posts(v))
    ensures multiset(Write(v, e)) == multiset(first) + multiset(added + [e])
    ensures Sorted(first + (added + [e])) ==> Sorted(Write(v, e))
  {
    InsertsOne(Posts(v), e, Comp);
    NewestOfAll(first + added, e, Posts(v));
    assert first + (added + [e]) == (first + added) + [e];
  }

  lemma {:induction false} NewestOfAll(all: seq<Post>, e: Post, r: seq<Post>)
    requires multiset(r) == multiset(all)
    ensures Sorted(all + [e]) && Sorted(r) ==> Sorted(all) && Sorted(Inserted(r, e, Comp))
    ensures Sorted(all + [e]) ==> Sorted(all)
  {
    if Sorted(all + [e]) {
      assert forall i :: 0 <= i < |all| ==> all[i] == (all + [e])[i];
      forall i | 0 <= i < |r| ensures r[i].timestamp <= e.timestamp {
        assert r[i] in multiset(r);
        assert r[i] in all;
        var j :| 0 <= j < |all| && all[j] == r[i];
        assert (all + [e])[j].timestamp <= (all + [e])[|all|].timestamp;
      }
      if Sorted(r) { CompKeepsSortedForNewest(r, e); }
    }
  }

  // Whatever the interleaving, a timeline is its first value with every post written to it
  // inserted by `push_sorted`, in the order in which the writes succeeded. So it holds every
  // post, and it is sorted if the writes succeeded in order of their timestamps.
  lemma {:induction false} TimelineHoldsEveryPost(w0: World<string, seq<Post>, Post>, es: seq<Event>,
                              t: World<string, seq<Post>, Post>, user: string)
    requires Init(w0) && Run(w0, es, t, Write)
    ensures ValidLog(t.clients, t.log)
    ensures var r, first := Posts(Value(t.store, user)), Posts(Value(w0.store, user));
            var added := Written(t.clients, t.log, user);
            && r == InsertedAll(first, added)
            && multiset(r) == multiset(first) + multiset(added)
            && (Sorted(first + added) ==> Sorted(r))
  {
    NoLostUpdates(w0, es, t, Write);
    ReplayTimeline(Value(w0.store, user), t.clients, t.log, user);
    ReplayInserts(Value(w0.store, user), t.clients, t.log, user);
  }
}
