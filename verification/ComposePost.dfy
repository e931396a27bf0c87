/** services/compose_post_service.js: the parties that upload the parts of one post count
  * themselves with a versioned entry; the last one to arrive assembles the post. */
module ComposePost {
  import VersionedStore
  import opened OptimisticRetry

  const PARTIES: nat := 6

  // Stored strings; a count is kept as its decimal form.
  datatype Value = Text(s: string) | Count(n: nat)

  // One DBSet of an `upload_*` function, under the request id and this suffix.
  datatype Upload = Upload(field: string, value: string)

  datatype Phase =
    | Storing(next: nat)                     // about to store upload `next`, or to read the count
    | Writing(count: nat, version: nat)      // has read the count and will write it
    | Posting                                // runs upload_post
    | Replied                                // has replied "ok"

  datatype Party = Party(uploads: seq<Upload>, phase: Phase)

  datatype Request = Request(
    store: map<string, Cell<Value>>, parties: seq<Party>,
    used: set<nat>, aborts: nat)             // history: versions drawn, refused writes

  datatype Turn =
    | Store(party: nat, version: nat)
    | ReadCount(party: nat)
    | WriteCount(party: nat, version: nat)

  function CountIn(store: map<string, Cell<Value>>): (c: nat)
  {
    if "count" in store && store["count"].value.Count? then store["count"].value.n else 0
  }

  predicate Possible(r: Request, e: Turn) {
    e.party < |r.parties| &&
    var p := r.parties[e.party];
    match e
    case Store(_, version) => p.phase.Storing? && p.phase.next < |p.uploads| && version != 0 && version !in r.used
    case ReadCount(_) => p.phase == Storing(|p.uploads|)
    case WriteCount(_, version) => p.phase.Writing? && version != 0 && version !in r.used
  }

  function Take(r: Request, e: Turn): (t: Request)
    requires Possible(r, e)
  {
    var i := e.party;
    var p := r.parties[i];
    match e
    case Store(_, version) =>
      var u := p.uploads[p.phase.next];
      r.(store := VersionedStore.Set(r.store, VersionOfCell, u.field, Cell(version, Text(u.value)), 0),
         parties := r.parties[i := p.(phase := Storing(p.phase.next + 1))], used := r.used + {version})
    case ReadCount(_) =>
      // check_upload_post: the first to count does not compare with the number of parties.
      var next :=
        if "count" !in r.store then Writing(1, 0)
        else if CountIn(r.store) + 1 == |r.parties| then Posting
        else Writing(CountIn(r.store) + 1, r.store["count"].version);
      r.(parties := r.parties[i := p.(phase := next)])
    case WriteCount(_, version) =>
      var cell := Cell(version, Count(p.phase.count));
      var t := r.(store := VersionedStore.Set(r.store, VersionOfCell, "count", cell, p.phase.version),
                  used := r.used + {version});
      if VersionedStore.Accepts(r.store, VersionOfCell, "count", p.phase.version) then
        t.(parties := r.parties[i := p.(phase := Replied)])
      else
        t.(parties := r.parties[i := p.(phase := Storing(|p.uploads|))], aborts := r.aborts + 1)
  }

  ghost predicate TakeAll(r: Request, es: seq<Turn>, t: Request)
    decreases |es|
  {
    if es == [] then r == t else Possible(r, es[0]) && TakeAll(Take(r, es[0]), es[1..], t)
  }

  // A request begins with no entries; no two uploads share a field, nor use that of the count.
  ghost predicate Begun(r: Request) {
    && r.store == map[] && r.aborts == 0 && |r.parties| >= 2
    && (forall i :: 0 <= i < |r.parties| ==> r.parties[i].phase == Storing(0))
    && OwnFields(r.parties)
  }

  ghost predicate OwnFields(parties: seq<Party>) {
    && (forall i, j :: 0 <= i < |parties| && 0 <= j < |parties[i].uploads| ==> parties[i].uploads[j].field != "count")
    && (forall i, j, k, l ::
          0 <= i < |parties| && 0 <= j < |parties[i].uploads| &&
          0 <= k < |parties| && 0 <= l < |parties[k].uploads| && (i != k || j != l) ==>
            parties[i].uploads[j].field != parties[k].uploads[l].field)
  }

  // ---- the invariant --------------------------------------------------------------------------

  // How many of its uploads a party has stored.
  function Stored(p: Party): (n: nat)
  {
    if p.phase.Storing? then p.phase.next else |p.uploads|
  }

  ghost predicate Holds(store: map<string, Cell<Value>>, u: Upload) {
    u.field in store && store[u.field].version != 0 && store[u.field].value == Text(u.value)
  }

  // A party's stored uploads are in the store, the others are not.
  ghost predicate UploadsOk(store: map<string, Cell<Value>>, p: Party) {
    && Stored(p) <= |p.uploads|
    && (forall j :: 0 <= j < Stored(p) ==> Holds(store, p.uploads[j]))
    && (forall j :: Stored(p) <= j < |p.uploads| ==> p.uploads[j].field !in store)
  }

  ghost predicate CountOk(r: Request) {
    "count" in r.store ==>
      r.store["count"].value.Count? && r.store["count"].version != 0 && r.store["count"].version in r.used
  }

  // A count that would be accepted is the next one, and a party posts only when the count
  // has come to its end.
  ghost predicate PhaseOk(r: Request, p: Party) {
    match p.phase
    case Writing(c, v) =>
      && c < |r.parties| && (v == 0 || v in r.used) && (v != 0 ==> "count" in r.store)
      && (VersionedStore.Accepts(r.store, VersionOfCell, "count", v) ==> c == CountIn(r.store) + 1)
    case Posting => CountIn(r.store) == |r.parties| - 1
    case _ => true
  }

  ghost function Replies(parties: seq<Party>, n: nat): (r: nat)
    requires n <= |parties|
    ensures r <= n
  {
    if n == 0 then 0 else Replies(parties, n - 1) + (if parties[n - 1].phase.Replied? then 1 else 0)
  }

  ghost predicate SameUploads(a: seq<Party>, b: seq<Party>) {
    |a| == |b| && forall i :: 0 <= i < |a| ==> a[i].uploads == b[i].uploads
  }

  ghost predicate Inv(r: Request) {
    && |r.parties| >= 2 && OwnFields(r.parties) && CountOk(r)
    && (forall i :: 0 <= i < |r.parties| ==> UploadsOk(r.store, r.parties[i]) && PhaseOk(r, r.parties[i]))
    && CountIn(r.store) == Replies(r.parties, |r.parties|) < |r.parties|
  }

  lemma {:induction false} RepliesUpdate(parties: seq<Party>, n: nat, i: nat, p: Party)
    requires n <= |parties| && i < |parties|
    ensures Replies(parties[i := p], n)
            == Replies(parties, n)
               + if i < n then (if p.phase.Replied? then 1 else 0) - (if parties[i].phase.Replied? then 1 else 0) else 0
  {
    if n > 0 { RepliesUpdate(parties, n - 1, i, p); }
  }

  // If all but one have replied, the one that has not is the only one.
  lemma {:induction false} AllButOne(parties: seq<Party>, n: nat, i: nat, j: nat)
    requires i < n <= |parties| && j < n && i != j
    requires !parties[i].phase.Replied? && !parties[j].phase.Replied?
    ensures Replies(parties, n) <= n - 2
  {
    if i < n - 1 && j < n - 1 {
      AllButOne(parties, n - 1, i, j);
    } else {
      OneMissing(parties, n - 1, if i < j then i else j);
    }
  }

  lemma {:induction false} OneMissing(parties: seq<Party>, n: nat, i: nat)
    requires i < n <= |parties| && !parties[i].phase.Replied?
    ensures Replies(parties, n) <= n - 1
  {
    if i < n - 1 { OneMissing(parties, n - 1, i); }
  }

  lemma {:induction false} TakeUploads(r: Request, e: Turn, i: nat)
    requires Inv(r) && Possible(r, e) && i < |r.parties|
    ensures UploadsOk(Take(r, e).store, Take(r, e).parties[i])
  {
    assert UploadsOk(r.store, r.parties[i]) && UploadsOk(r.store, r.parties[e.party]);
  }

  lemma {:induction false} TakePhases(r: Request, e: Turn, i: nat)
    requires |r.parties| >= 2 && CountOk(r) && Possible(r, e) && i < |r.parties| && PhaseOk(r, r.parties[i])
    requires PhaseOk(r, r.parties[e.party]) && CountIn(r.store) < |r.parties|
    requires e.Store? ==> r.parties[e.party].uploads[r.parties[e.party].phase.next].field != "count"
    requires e.WriteCount? && r.parties[i].phase.Posting? ==>
               !VersionedStore.Accepts(r.store, VersionOfCell, "count", r.parties[e.party].phase.version)
    ensures PhaseOk(Take(r, e), Take(r, e).parties[i])
  {
  }

  lemma {:induction false} TakeCount(r: Request, e: Turn)
    requires |r.parties| >= 2 && CountOk(r) && Possible(r, e) && PhaseOk(r, r.parties[e.party])
    requires e.Store? ==> r.parties[e.party].uploads[r.parties[e.party].phase.next].field != "count"
    ensures var t := Take(r, e);
            && CountOk(t) && SameUploads(r.parties, t.parties)
            && CountIn(t.store) - CountIn(r.store) == Replies(t.parties, |t.parties|) - Replies(r.parties, |r.parties|)
            && (CountIn(t.store) != CountIn(r.store) ==> CountIn(t.store) < |r.parties|)
  {
    RepliesUpdate(r.parties, |r.parties|, e.party, Take(r, e).parties[e.party]);
  }

  // While a party posts, nobody's count is accepted: everybody else has replied.
  lemma {:induction false} NoWriterWhilePosting(r: Request, i: nat, j: nat)
    requires Inv(r) && i < |r.parties| && j < |r.parties| && i != j && r.parties[i].phase.Posting?
    ensures r.parties[j].phase.Replied?
  {
    assert PhaseOk(r, r.parties[i]);
    if !r.parties[j].phase.Replied? { AllButOne(r.parties, |r.parties|, i, j); }
  }

  lemma {:induction false} TakeKeeps(r: Request, e: Turn)
    requires Inv(r) && Possible(r, e)
    ensures Inv(Take(r, e)) && SameUploads(r.parties, Take(r, e).parties)
  {
    var t := Take(r, e);
    TakeCount(r, e);
    forall i | 0 <= i < |t.parties| ensures UploadsOk(t.store, t.parties[i]) && PhaseOk(t, t.parties[i]) {
      TakeUploads(r, e, i);
      if e.WriteCount? && r.parties[i].phase.Posting? { NoWriterWhilePosting(r, i, e.party); }
      TakePhases(r, e, i);
    }
  }

  lemma {:induction false} TakeAllKeeps(r: Request, es: seq<Turn>, t: Request)
    requires Inv(r) && TakeAll(r, es, t)
    ensures Inv(t) && SameUploads(r.parties, t.parties)
    decreases |es|
  {
    if es != [] {
      TakeKeeps(r, es[0]);
      TakeAllKeeps(Take(r, es[0]), es[1..], t);
    }
  }

  lemma {:induction false} NoReplyAtFirst(parties: seq<Party>, n: nat)
    requires n <= |parties| && forall i :: 0 <= i < |parties| ==> parties[i].phase == Storing(0)
    ensures Replies(parties, n) == 0
  {
    if n > 0 { NoReplyAtFirst(parties, n - 1); }
  }

  lemma {:induction false} BegunInv(r: Request)
    requires Begun(r)
    ensures Inv(r)
  {
    NoReplyAtFirst(r.parties, |r.parties|);
  }

  // ---- the barrier ---------------------------------------------------------------------------------

  // In every interleaving, when a party runs upload_post it is the only one that ever
  // does, every other party has replied "ok", and everything all parties have uploaded is
  // in the store with the uploaded value.
  lemma {:induction false} PostIsComplete(r: Request, es: seq<Turn>, t: Request, i: nat)
    requires Begun(r) && TakeAll(r, es, t) && i < |t.parties| && t.parties[i].phase.Posting?
    ensures |t.parties| == |r.parties|
    ensures forall j :: 0 <= j < |t.parties| && j != i ==> t.parties[j].phase.Replied?
    ensures forall j, k :: 0 <= j < |r.parties| && 0 <= k < |r.parties[j].uploads| ==>
              Holds(t.store, r.parties[j].uploads[k])
  {
    BegunInv(r);
    TakeAllKeeps(r, es, t);
    forall j | 0 <= j < |t.parties| && j != i ensures t.parties[j].phase.Replied? {
      NoWriterWhilePosting(t, i, j);
    }
    forall j, k | 0 <= j < |r.parties| && 0 <= k < |r.parties[j].uploads|
      ensures Holds(t.store, r.parties[j].uploads[k])
    {
      assert UploadsOk(t.store, t.parties[j]) && t.parties[j].uploads == r.parties[j].uploads;
    }
  }

  // When no party can take a turn, exactly one has run upload_post and the others have replied.
  lemma {:induction false} ExactlyOnePosts(r: Request, es: seq<Turn>, t: Request) returns (i: nat)
    requires Begun(r) && TakeAll(r, es, t) && forall e :: !Possible(t, e)
    ensures i < |t.parties| == |r.parties| && t.parties[i].phase.Posting?
    ensures forall j :: 0 <= j < |t.parties| && j != i ==> t.parties[j].phase.Replied?
  {
    BegunInv(r);
    TakeAllKeeps(r, es, t);
    var v := UndrawnVersion(t.used);
    forall j | 0 <= j < |t.parties| ensures t.parties[j].phase.Posting? || t.parties[j].phase.Replied? {
      assert UploadsOk(t.store, t.parties[j]);
      assert !Possible(t, Store(j, v)) && !Possible(t, ReadCount(j)) && !Possible(t, WriteCount(j, v));
    }
    if forall j :: 0 <= j < |t.parties| ==> t.parties[j].phase.Replied? {
      AllReplied(t.parties, |t.parties|);
    }
    i :| 0 <= i < |t.parties| && t.parties[i].phase.Posting?;
    forall j | 0 <= j < |t.parties| && j != i ensures t.parties[j].phase.Replied? {
      NoWriterWhilePosting(t, i, j);
    }
  }

  lemma {:induction false} AllReplied(parties: seq<Party>, n: nat)
    requires n <= |parties| && forall j :: 0 <= j < |parties| ==> parties[j].phase.Replied?
    ensures Replies(parties, n) == n
  {
    if n > 0 { AllReplied(parties, n - 1); }
  }

  // ---- progress ---------------------------------------------------------------------------------------

  ghost predicate Refused(store: map<string, Cell<Value>>, p: Party) {
    p.phase.Writing? && !VersionedStore.Accepts(store, VersionOfCell, "count", p.phase.version)
  }

  // Parties among the first `n` whose write of the count would be refused.
  ghost function Stale(store: map<string, Cell<Value>>, parties: seq<Party>, n: nat): (r: nat)
    requires n <= |parties|
  {
    if n == 0 then 0 else Stale(store, parties, n - 1) + (if Refused(store, parties[n - 1]) then 1 else 0)
  }

  // Turns a party has used for good.
  function Used(p: Party): (n: nat)
  {
    match p.phase
    case Storing(j) => j
    case Writing(_, _) => |p.uploads| + 1
    case Posting => |p.uploads| + 1
    case Replied => |p.uploads| + 2
  }

  ghost function UsedBy(parties: seq<Party>, n: nat): (r: nat)
    requires n <= |parties|
  {
    if n == 0 then 0 else UsedBy(parties, n - 1) + Used(parties[n - 1])
  }

  ghost function UploadsOf(parties: seq<Party>, n: nat): (r: nat)
    requires n <= |parties|
  {
    if n == 0 then 0 else UploadsOf(parties, n - 1) + |parties[n - 1].uploads|
  }

  lemma {:induction false} StaleUpdate(store: map<string, Cell<Value>>, parties: seq<Party>, n: nat, i: nat, p: Party)
    requires n <= |parties| && i < |parties|
    ensures Stale(store, parties[i := p], n)
            == Stale(store, parties, n)
               + if i < n then (if Refused(store, p) then 1 else 0) - (if Refused(store, parties[i]) then 1 else 0)
                 else 0
    ensures UsedBy(parties[i := p], n) == UsedBy(parties, n) + (if i < n then Used(p) - Used(parties[i]) else 0)
  {
    if n > 0 { StaleUpdate(store, parties, n - 1, i, p); }
  }

  lemma {:induction false} StaleSame(store: map<string, Cell<Value>>, store': map<string, Cell<Value>>,
                              parties: seq<Party>, n: nat)
    requires n <= |parties|
    requires forall p: Party :: Refused(store, p) <==> Refused(store', p)
    ensures Stale(store, parties, n) == Stale(store', parties, n)
  {
    if n > 0 { StaleSame(store, store', parties, n - 1); }
  }

  lemma {:induction false} StaleHaveNotReplied(store: map<string, Cell<Value>>, parties: seq<Party>, n: nat)
    requires n <= |parties|
    ensures Stale(store, parties, n) + Replies(parties, n) <= n
  {
    if n > 0 { StaleHaveNotReplied(store, parties, n - 1); }
  }

  lemma {:induction false} UsedWithin(store: map<string, Cell<Value>>, parties: seq<Party>, n: nat)
    requires n <= |parties| && forall i :: 0 <= i < |parties| ==> UploadsOk(store, parties[i])
    ensures UsedBy(parties, n) <= UploadsOf(parties, n) + 2 * n
  {
    if n > 0 { UsedWithin(store, parties, n - 1); }
  }

  // Every abort, and every read gone stale, is paid for by a success of another party.
  ghost predicate Paid(r: Request) {
    var n, s := |r.parties|, Replies(r.parties, |r.parties|);
    2 * (r.aborts + Stale(r.store, r.parties, n)) <= s * (2 * n - s - 1)
  }

  lemma {:induction false} TakePaid(r: Request, e: Turn)
    requires Inv(r) && Possible(r, e) && Paid(r)
    ensures Paid(Take(r, e))
    ensures UsedBy(Take(r, e).parties, |r.parties|) + 2 * Take(r, e).aborts
            == UsedBy(r.parties, |r.parties|) + 2 * r.aborts + 1
  {
    var t, n, i := Take(r, e), |r.parties|, e.party;
    assert PhaseOk(r, r.parties[i]) && UploadsOk(r.store, r.parties[i]);
    StaleUpdate(r.store, r.parties, n, i, t.parties[i]);
    RepliesUpdate(r.parties, n, i, t.parties[i]);
    if t.parties[i].phase.Replied? {
      StaleHaveNotReplied(t.store, t.parties, n);
      PairsStep(n, Replies(r.parties, n));
    } else {
      StaleSame(r.store, t.store, t.parties, n);
    }
  }

  lemma {:induction false} TakeAllPaid(r: Request, es: seq<Turn>, t: Request)
    requires Inv(r) && Paid(r) && TakeAll(r, es, t)
    ensures Paid(t) && |t.parties| == |r.parties|
    ensures UsedBy(t.parties, |t.parties|) + 2 * t.aborts == UsedBy(r.parties, |r.parties|) + 2 * r.aborts + |es|
    decreases |es|
  {
    if es != [] {
      TakePaid(r, es[0]);
      TakeKeeps(r, es[0]);
      TakeAllPaid(Take(r, es[0]), es[1..], t);
    }
  }

  lemma {:induction false} NothingUsed(store: map<string, Cell<Value>>, parties: seq<Party>, n: nat)
    requires n <= |parties| && forall i :: 0 <= i < |parties| ==> parties[i].phase == Storing(0)
    ensures UsedBy(parties, n) == 0 && Stale(store, parties, n) == 0
  {
    if n > 0 { NothingUsed(store, parties, n - 1); }
  }

  lemma {:induction false} SameUploadsOf(a: seq<Party>, b: seq<Party>, n: nat)
    requires SameUploads(a, b) && n <= |a|
    ensures UploadsOf(a, n) == UploadsOf(b, n)
  {
    if n > 0 { SameUploadsOf(a, b, n - 1); }
  }

  lemma {:induction false} BarrierIsPaid(r: Request, es: seq<Turn>, t: Request)
    requires Begun(r) && TakeAll(r, es, t)
    ensures |t.parties| == |r.parties| && Paid(t)
    ensures |es| <= UploadsOf(r.parties, |r.parties|) + 2 * |r.parties| + 2 * t.aborts
  {
    var n := |r.parties|;
    BegunInv(r);
    NothingUsed(r.store, r.parties, n);
    NoReplyAtFirst(r.parties, n);
    TakeAllPaid(r, es, t);
    TakeAllKeeps(r, es, t);
    UsedWithin(t.store, t.parties, n);
    SameUploadsOf(r.parties, t.parties, n);
  }

  // In every interleaving `n` parties have at most n(n-1)/2 writes of the count refused,
  // and take at most n(n+1) turns besides those that store their uploads.
  lemma {:induction false} BarrierIsBounded(r: Request, es: seq<Turn>, t: Request)
    requires Begun(r) && TakeAll(r, es, t)
    ensures var n := |r.parties|;
            && 2 * t.aborts <= n * (n - 1)
            && |es| <= UploadsOf(r.parties, n) + n * (n + 1)
  {
    var n := |r.parties|;
    BarrierIsPaid(r, es, t);
    PairsArithmetic(n, Replies(t.parties, n), 2 * t.aborts);
    Triangles(n);
  }

  lemma {:induction false} Triangles(n: int)
    ensures n * (n - 1) + 2 * n == n * (n + 1)
  {
  }

  // ---- the six uploads of one request --------------------------------------------------------------------

  function SixUploads(urls: string, media: string, mentions: string, creator: string, text: string,
                      postId: string, postType: string): (parties: seq<Party>)
    ensures |parties| == PARTIES
  {
    [Party([Upload("urls", urls)], Storing(0)),
     Party([Upload("media", media)], Storing(0)),
     Party([Upload("mentions", mentions)], Storing(0)),
     Party([Upload("creator", creator)], Storing(0)),
     Party([Upload("text", text)], Storing(0)),
     Party([Upload("post_id", postId), Upload("post_type", postType)], Storing(0))]
  }

  // What upload_post reads is what the six uploads stored, all seven parts of it; and the
  // six make at most 15 aborted writes and 49 turns.
  lemma {:induction false} SixPartyBarrier(used: set<nat>, urls: string, media: string, mentions: string,
                              creator: string, text: string,
                        postId: string, postType: string, es: seq<Turn>, t: Request)
    requires TakeAll(Request(map[], SixUploads(urls, media, mentions, creator, text, postId, postType), used, 0), es, t)
    ensures t.aborts <= 15 && |es| <= 49
    ensures (exists i :: 0 <= i < |t.parties| && t.parties[i].phase.Posting?) ==>
              && Holds(t.store, Upload("text", text)) && Holds(t.store, Upload("post_id", postId))
              && Holds(t.store, Upload("post_type", postType)) && Holds(t.store, Upload("creator", creator))
              && Holds(t.store, Upload("mentions", mentions)) && Holds(t.store, Upload("media", media))
              && Holds(t.store, Upload("urls", urls))
  {
    var parties := SixUploads(urls, media, mentions, creator, text, postId, postType);
    var r := Request(map[], parties, used, 0);
    FieldsDiffer(urls, media, mentions, creator, text, postId, postType);
    BarrierIsBounded(r, es, t);
    assert UploadsOf(parties, 6) == 7 by {
      assert UploadsOf(parties, 1) == 1;
      assert UploadsOf(parties, 2) == 2;
      assert UploadsOf(parties, 3) == 3;
      assert UploadsOf(parties, 4) == 4;
      assert UploadsOf(parties, 5) == 5;
    }
    if i :| 0 <= i < |t.parties| && t.parties[i].phase.Posting? {
      PostIsComplete(r, es, t, i);
      assert Holds(t.store, r.parties[0].uploads[0]) && Holds(t.store, r.parties[1].uploads[0]);
      assert Holds(t.store, r.parties[2].uploads[0]) && Holds(t.store, r.parties[3].uploads[0]);
      assert Holds(t.store, r.parties[4].uploads[0]) && Holds(t.store, r.parties[5].uploads[0]);
      assert Holds(t.store, r.parties[5].uploads[1]);
    }
  }

  lemma {:induction false} FieldsDiffer(urls: string, media: string, mentions: string, creator: string, text: string,
                     postId: string, postType: string)
    ensures OwnFields(SixUploads(urls, media, mentions, creator, text, postId, postType))
  {
    assert "text"[0] == 't' && "urls"[0] == 'u' && "creator"[1] == 'r' && "count"[1] == 'o';
    assert "media"[2] == 'd' && "mentions"[2] == 'n' && |"post_id"| == 7 && |"post_type"| == 9;
  }
}
