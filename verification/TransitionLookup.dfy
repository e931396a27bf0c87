/** include/redis_protocol_parser.c: how the table-driven driver finds the transition of a byte.
  * A state lists single keys, then key ranges as pairs of bounds; two binary searches stand
  * for scanning them in that order. Characters are signed. */
module TransitionLookup {

  ghost predicate SinglesSorted(keys: seq<int>, n: nat) {
    n <= |keys| && forall i, j :: 0 <= i < j < n ==> keys[i] < keys[j]
  }

  // The bounds of one range may coincide, those of different ranges do not.
  ghost predicate RangesSorted(keys: seq<int>, n: nat) {
    2 * n <= |keys| && forall i, j :: 0 <= i < j < 2 * n ==> keys[i] <= keys[j] && (i / 2 < j / 2 ==> keys[i] < keys[j])
  }

  // The first of `n` single keys that is `c`, or `n`.
  function ScanSingles(keys: seq<int>, n: nat, c: int): (i: nat)
    requires n <= |keys|
    ensures i <= n && (i < n ==> keys[i] == c) && forall j :: 0 <= j < i ==> keys[j] != c
  {
    if n == 0 then 0
    else
      var i := ScanSingles(keys, n - 1, c);
      if i < n - 1 || keys[n - 1] == c then i else n
  }

  predicate InRange(keys: seq<int>, r: nat, c: int)
    requires 2 * r + 1 < |keys|
  {
    keys[2 * r] <= c <= keys[2 * r + 1]
  }

  // The first of `n` key ranges that holds `c`, or `n`.
  function ScanRanges(keys: seq<int>, n: nat, c: int): (r: nat)
    requires 2 * n <= |keys|
    ensures r <= n && (r < n ==> InRange(keys, r, c)) && forall j :: 0 <= j < r ==> !InRange(keys, j, c)
  {
    if n == 0 then 0
    else
      var r := ScanRanges(keys, n - 1, c);
      if r < n - 1 || InRange(keys, n - 1, c) then r else n
  }

  method SearchSingles(keys: seq<int>, klen: nat, c: int) returns (i: nat)
    requires SinglesSorted(keys, klen)
    ensures i == ScanSingles(keys, klen, c)
  {
    var lower: int, upper: int := 0, klen - 1;
    while upper >= lower
      invariant 0 <= lower <= upper + 1 <= klen
      invariant forall k :: 0 <= k < lower ==> keys[k] < c
      invariant forall k :: upper < k < klen ==> c < keys[k]
      decreases upper - lower
    {
      var mid := lower + (upper - lower) / 2;
      if c < keys[mid] {
        upper := mid - 1;
      } else if c > keys[mid] {
        lower := mid + 1;
      } else {
        return mid;
      }
    }
    return klen;
  }

  lemma {:induction false} HalfOfEven(lower: int, upper: int) returns (half: int)
    requires lower <= upper && lower % 2 == 0 && upper % 2 == 0
    ensures half == (upper - lower) / 2 - (upper - lower) / 2 % 2
    ensures half % 2 == 0 && (lower + half) % 2 == 0 && lower <= lower + half <= upper
  {
    half := (upper - lower) / 2 - (upper - lower) / 2 % 2;
  }

  method SearchRanges(keys: seq<int>, klen: nat, c: int) returns (r: nat)
    requires RangesSorted(keys, klen)
    ensures r == ScanRanges(keys, klen, c)
  {
    var lower: int, upper: int := 0, 2 * klen - 2;
    while upper >= lower
      invariant 0 <= lower <= upper + 2 <= 2 * klen
      invariant lower % 2 == 0 && upper % 2 == 0
      invariant forall k :: 0 <= k < lower ==> keys[k] < c
      invariant forall k :: upper + 2 <= k < 2 * klen ==> c < keys[k]
      decreases upper - lower
    {
      // half the distance, its last bit cleared
      var mid := lower + ((upper - lower) / 2 - (upper - lower) / 2 % 2);
      ghost var half := HalfOfEven(lower, upper);
      if c < keys[mid] {
        upper := mid - 2;
      } else if c > keys[mid + 1] {
        lower := mid + 2;
      } else {
        RangeFound(keys, klen, mid / 2, c);
        return mid / 2;
      }
    }
    RangeNotFound(keys, klen, lower / 2, c);
    return klen;
  }

  lemma {:induction false} RangeFound(keys: seq<int>, n: nat, r: nat, c: int)
    requires RangesSorted(keys, n) && r < n && InRange(keys, r, c)
    ensures ScanRanges(keys, n, c) == r
  {
    forall s | 0 <= s < r ensures !InRange(keys, s, c) {
      assert (2 * s + 1) / 2 < (2 * r) / 2;
    }
  }

  lemma {:induction false} RangeNotFound(keys: seq<int>, n: nat, r: nat, c: int)
    requires 2 * n <= |keys| && r <= n
    requires forall k :: 0 <= k < 2 * r ==> keys[k] < c
    requires forall k :: 2 * r <= k < 2 * n ==> c < keys[k]
    ensures ScanRanges(keys, n, c) == n
  {
    forall s | 0 <= s < n ensures !InRange(keys, s, c) {
      if s < r { assert keys[2 * s + 1] < c; } else { assert c < keys[2 * s]; }
    }
  }

  // ---- the search of one state ----------------------------------------------------------------

  datatype Tables = Tables(
    transKeys: seq<int>, keyOffsets: seq<nat>, indexOffsets: seq<nat>,
    singleLengths: seq<nat>, rangeLengths: seq<nat>)

  predicate HasState(t: Tables, cs: nat) {
    && cs < |t.keyOffsets| && cs < |t.indexOffsets| && cs < |t.singleLengths| && cs < |t.rangeLengths|
    && t.keyOffsets[cs] + t.singleLengths[cs] + 2 * t.rangeLengths[cs] <= |t.transKeys|
  }

  function KeysOf(t: Tables, cs: nat): seq<int>
    requires HasState(t, cs)
  {
    t.transKeys[t.keyOffsets[cs]..]
  }

  // The key at which the search for `c` in state `cs` ends: a single, else a range, else the default.
  function Scan(t: Tables, cs: nat, c: int): (trans: nat)
    requires HasState(t, cs)
    ensures t.indexOffsets[cs] <= trans <= t.indexOffsets[cs] + t.singleLengths[cs] + t.rangeLengths[cs]
  {
    var keys, singles, ranges := KeysOf(t, cs), t.singleLengths[cs], t.rangeLengths[cs];
    var i := ScanSingles(keys, singles, c);
    t.indexOffsets[cs] + if i < singles then i else singles + ScanRanges(keys[singles..], ranges, c)
  }

  // A single key gives the transition at its place, a range the one at its place after all
  // singles, and any other byte the one after all ranges.
  ghost predicate Transition(t: Tables, cs: nat, c: int, trans: nat)
    requires HasState(t, cs)
  {
    var keys, singles, ranges := KeysOf(t, cs), t.singleLengths[cs], t.rangeLengths[cs];
    var at := trans - t.indexOffsets[cs];
    && (forall i :: 0 <= i < singles && keys[i] == c ==> at == i)
    && (c !in keys[..singles] ==> forall r :: 0 <= r < ranges && InRange(keys[singles..], r, c) ==> at == singles + r)
    && (c !in keys[..singles] && (forall r :: 0 <= r < ranges ==> !InRange(keys[singles..], r, c)) ==>
          at == singles + ranges)
  }

  lemma {:induction false} ScanIsTransition(t: Tables, cs: nat, c: int)
    requires HasState(t, cs)
    requires SinglesSorted(KeysOf(t, cs), t.singleLengths[cs])
    requires RangesSorted(KeysOf(t, cs)[t.singleLengths[cs]..], t.rangeLengths[cs])
    ensures Transition(t, cs, c, Scan(t, cs, c))
  {
    var keys, singles, ranges := KeysOf(t, cs), t.singleLengths[cs], t.rangeLengths[cs];
    forall i | 0 <= i < singles && keys[i] == c ensures ScanSingles(keys, singles, c) == i { }
    assert ScanSingles(keys, singles, c) < singles ==> c in keys[..singles] by {
      if ScanSingles(keys, singles, c) < singles { assert keys[..singles][ScanSingles(keys, singles, c)] == c; }
    }
    forall r | 0 <= r < ranges && InRange(keys[singles..], r, c) ensures ScanRanges(keys[singles..], ranges, c) == r {
      RangeFound(keys[singles..], ranges, r, c);
    }
  }

  method Find(t: Tables, cs: nat, c: int) returns (trans: nat)
    requires HasState(t, cs)
    requires SinglesSorted(KeysOf(t, cs), t.singleLengths[cs])
    requires RangesSorted(KeysOf(t, cs)[t.singleLengths[cs]..], t.rangeLengths[cs])
    ensures trans == Scan(t, cs, c) && Transition(t, cs, c, trans)
  {
    ScanIsTransition(t, cs, c);
    var keys := t.transKeys[t.keyOffsets[cs]..];
    trans := t.indexOffsets[cs];
    var klen := t.singleLengths[cs];
    if klen > 0 {
      var i := SearchSingles(keys, klen, c);
      trans := trans + i;
      if i < klen { return; }
      keys := keys[klen..];
    }
    klen := t.rangeLengths[cs];
    if klen > 0 {
      var r := SearchRanges(keys, klen, c);
      trans := trans + r;
    }
  }
}
