/** The chained hash table of db.cc, updated in place, refines a versioned map. */
module HashTable {
  import opened ByteCodec
  import VersionedStore

  type Key = int   // a uint32_t; the hash takes it modulo 2^32

  const U32: nat := 0x1_0000_0000

  // Bitwise exclusive or.
  function Xor(a: nat, b: nat): (x: nat)
  {
    if a == 0 && b == 0 then 0 else (a + b) % 2 + 2 * Xor(a / 2, b / 2)
  }

  // One step of the mixing, in arithmetic modulo 2^32.
  function MixStep(h: nat, step: nat): (r: nat)
  {
    match step
    case 1 => (U32 - 1 - h + h * 0x8000) % U32   // ~hash + (hash << 15)
    case 2 => Xor(h, h / 0x1000)                 // hash ^ (hash >> 12)
    case 3 => (h + h * 4) % U32                  // hash + (hash << 2)
    case 4 => Xor(h, h / 0x10)                   // hash ^ (hash >> 4)
    case 5 => h * 2057 % U32
    case _ => Xor(h, h / 0x1_0000)               // hash ^ (hash >> 16)
  }

  function Mix(h: nat, steps: nat): (r: nat)
  {
    if steps == 0 then h else MixStep(Mix(h, steps - 1), steps)
  }

  // The steps, in order.
  const STEPS: seq<nat> := [1, 2, 3, 4, 5, 6]

  function Mixed(key: Key, seed: Key): (h: nat)
  {
    Mix(Xor(key % U32, seed % U32), |STEPS|)
  }

  // Thomas Wang's integer hash (include/db.hh).
  function GetHash(key: Key, seed: Key): (h: nat)
  {
    Mixed(key, seed) % 0x4000_0000
  }

  // ---- the mixing loses nothing ---------------------------------------------------------------

  lemma {:induction false} XorHalf(a: nat, b: nat)
    ensures Xor(a, b) / 2 == Xor(a / 2, b / 2) && Xor(a, b) % 2 == (a + b) % 2
  {
  }

  lemma {:induction false} Parity(x: nat, a: nat, b: nat)
    requires x % 2 == (a + b) % 2
    ensures (x + b) % 2 == a % 2
  {
  }

  lemma {:induction false} XorTwice(a: nat, b: nat)
    ensures Xor(Xor(a, b), b) == a
    decreases a + b
  {
    if a + b > 0 {
      var x := Xor(a, b);
      XorHalf(a, b);
      XorHalf(x, b);
      XorTwice(a / 2, b / 2);
      Parity(x, a, b);
      assert Xor(x, b) / 2 == a / 2 && Xor(x, b) % 2 == a % 2;
    }
  }

  lemma {:induction false} XorQuarter(a: nat, b: nat)
    ensures Xor(a, b) / 4 == Xor(a / 4, b / 4)
  {
    XorHalf(a, b);
    XorHalf(a / 2, b / 2);
    Halves(a);
    Halves(b);
    Halves(Xor(a, b));
  }

  lemma {:induction false} Halves(a: nat)
    ensures a / 2 / 2 == a / 4
  {
  }

  lemma {:induction false} Quarters(a: nat)
    ensures a / 4 / 4 == a / 16
  {
  }

  lemma {:induction false} Xor16(a: nat, b: nat)
    ensures Xor(a, b) / 16 == Xor(a / 16, b / 16)
  {
    XorQuarter(a, b);
    XorQuarter(a / 4, b / 4);
    Quarters(a);
    Quarters(b);
    Quarters(Xor(a, b));
  }

  // A shift to the right by four bits, `n` times.
  function Right(h: nat, n: nat): nat {
    if n == 0 then h else Right(h / 16, n - 1)
  }

  lemma {:induction false} XorRight(a: nat, b: nat, n: nat)
    ensures Right(Xor(a, b), n) == Xor(Right(a, n), Right(b, n))
  {
    if n > 0 {
      Xor16(a, b);
      XorRight(a / 16, b / 16, n - 1);
    }
  }

  lemma {:induction false} RightSmaller(h: nat, n: nat)
    ensures Right(h, n) <= h && (n > 0 && h > 0 ==> Right(h, n) < h)
  {
    if n > 0 { RightSmaller(h / 16, n - 1); }
  }

  lemma {:induction false} Sixteenths(h: nat)
    ensures h / 16 / 16 / 16 == h / 0x1000 && h / 16 / 16 / 16 / 16 == h / 0x1_0000
  {
  }

  lemma {:induction false} RightNext(h: nat, n: nat)
    ensures Right(h, n + 1) == Right(h / 16, n) && Right(h, 0) == h
  {
  }

  lemma {:induction false} RightIs(h: nat)
    ensures Right(h, 1) == h / 0x10 && Right(h, 3) == h / 0x1000 && Right(h, 4) == h / 0x1_0000
  {
    Sixteenths(h);
    RightNext(h, 0);
    RightNext(h / 16 / 16, 0);
    RightNext(h / 16, 1);
    RightNext(h, 2);
    RightNext(h / 16 / 16 / 16, 0);
    RightNext(h / 16 / 16, 1);
    RightNext(h / 16, 2);
    RightNext(h, 3);
  }

  lemma {:induction false} XorBound(a: nat, b: nat, bound: nat, bits: nat)
    requires a < bound && b < bound && bound == Power(bits)
    ensures Xor(a, b) < bound
    decreases bits
  {
    if bits > 0 { XorBound(a / 2, b / 2, bound / 2, bits - 1); }
  }

  function Power(bits: nat): nat {
    if bits == 0 then 1 else 2 * Power(bits - 1)
  }

  lemma {:induction false} Power32()
    ensures Power(32) == U32
  {
    assert Power(8) == 0x100;
    assert Power(16) == 0x1_0000;
    assert Power(24) == 0x100_0000;
  }

  lemma {:induction false} XorCancel(g: nat, h: nat, b: nat)
    requires Xor(g, b) == Xor(h, b)
    ensures g == h
  {
    XorTwice(g, b);
    XorTwice(h, b);
  }

  // A number folded with itself, shifted to the right, can be unfolded.
  lemma {:induction false} FoldInjective(g: nat, h: nat, n: nat)
    requires n > 0 && Xor(g, Right(g, n)) == Xor(h, Right(h, n))
    ensures g == h
    decreases g + h
  {
    if g + h > 0 {
      RightSmaller(g, n);
      RightSmaller(h, n);
      XorRight(g, Right(g, n), n);
      XorRight(h, Right(h, n), n);
      FoldInjective(Right(g, n), Right(h, n), n);
      XorCancel(g, h, Right(g, n));
    }
  }

  // Multiplication by an odd number can be undone, modulo 2^32.
  lemma {:induction false} OddFactor(d: int, k: int, m: int, inverse: int, q: int)
    requires m * d == k * 0x1_0000_0000 && inverse * m == 1 + q * 0x1_0000_0000
    requires -0x1_0000_0000 < d < 0x1_0000_0000
    ensures d == 0
  {
    assert inverse * (m * d) == inverse * (k * 0x1_0000_0000);
    assert (inverse * m) * d == inverse * (m * d);
    assert (1 + q * 0x1_0000_0000) * d == d + (q * d) * 0x1_0000_0000;
    assert d == (inverse * k - q * d) * 0x1_0000_0000;
  }

  lemma {:induction false} By5(g: nat, h: nat)
    requires g < U32 && h < U32 && (g + g * 4) % U32 == (h + h * 4) % U32
    ensures g == h
  {
    var k := (g + g * 4) / U32 - (h + h * 4) / U32;
    OddFactor(g - h, k, 5, 0xCCCC_CCCD, 4);
  }

  lemma {:induction false} By2057(g: nat, h: nat)
    requires g < U32 && h < U32 && g * 2057 % U32 == h * 2057 % U32
    ensures g == h
  {
    var k := g * 2057 / U32 - h * 2057 / U32;
    OddFactor(g - h, k, 2057, 0xC8DE_0639, 1614);
  }

  lemma {:induction false} By7FFF(g: nat, h: nat)
    requires g < U32 && h < U32
    requires (U32 - 1 - g + g * 0x8000) % U32 == (U32 - 1 - h + h * 0x8000) % U32
    ensures g == h
  {
    var k := (U32 - 1 - g + g * 0x8000) / U32 - (U32 - 1 - h + h * 0x8000) / U32;
    OddFactor(g - h, k, 0x7FFF, 0xBFFF_7FFF, 24575);
  }

  // Each step of the mixing takes different words of 32 bits to different ones.
  lemma {:induction false} MixStepInjective(g: nat, h: nat, step: nat)
    requires g < U32 && h < U32 && MixStep(g, step) == MixStep(h, step)
    ensures g == h
  {
    RightIs(g);
    RightIs(h);
    match step
    case 1 => By7FFF(g, h);
    case 2 => FoldInjective(g, h, 3);
    case 3 => By5(g, h);
    case 4 => FoldInjective(g, h, 1);
    case 5 => By2057(g, h);
    case _ => FoldInjective(g, h, 4);
  }

  lemma {:induction false} MixWithin(h: nat, steps: nat)
    requires h < U32
    ensures Mix(h, steps) < U32
  {
    if steps > 0 {
      MixWithin(h, steps - 1);
      var m := Mix(h, steps - 1);
      Power32();
      XorBound(m, m / 0x1000, U32, 32);
      XorBound(m, m / 0x10, U32, 32);
      XorBound(m, m / 0x1_0000, U32, 32);
    }
  }

  lemma {:induction false} MixInjective(g: nat, h: nat, steps: nat)
    requires g < U32 && h < U32 && Mix(g, steps) == Mix(h, steps)
    ensures g == h
  {
    if steps > 0 {
      MixWithin(g, steps - 1);
      MixWithin(h, steps - 1);
      MixStepInjective(Mix(g, steps - 1), Mix(h, steps - 1), steps);
      MixInjective(g, h, steps - 1);
    }
  }

  lemma {:induction false} SameParts(a: nat, b: nat)
    requires a % 0x4000_0000 == b % 0x4000_0000 && a / 0x4000_0000 == b / 0x4000_0000
    ensures a == b
  {
  }

  function TopBits(key: Key, seed: Key): nat {
    Mixed(key, seed) / 0x4000_0000
  }

  // `get_hash` drops the two highest of 32 mixed bits and nothing else: keys with the same hash
  // differ in those two, so there are at most four of them.
  lemma {:induction false} HashLosesTwoBits(key: Key, other: Key, seed: Key)
    ensures GetHash(other, seed) == GetHash(key, seed) && TopBits(other, seed) == TopBits(key, seed) ==>
              key % U32 == other % U32
    ensures TopBits(key, seed) < 4
  {
    var g, h, s := key % U32, other % U32, seed % U32;
    Power32();
    XorBound(g, s, U32, 32);
    XorBound(h, s, U32, 32);
    MixWithin(Xor(g, s), |STEPS|);
    if GetHash(other, seed) == GetHash(key, seed) && TopBits(other, seed) == TopBits(key, seed) {
      SameParts(Mixed(key, seed), Mixed(other, seed));
      MixInjective(Xor(g, s), Xor(h, s), |STEPS|);
      XorCancel(g, h, s);
    }
  }

  function Bucket(key: Key, size: nat): (b: nat)
    requires size > 0
    ensures b < size
  {
    GetHash(key, 0) % size
  }

  function DataVersion(data: seq<byte>): (v: nat)
  {
    if |data| < HEADER then 0 else VersionOf(data)
  }

  class DbVal {
    var key: Key
    var next: DbVal?
    var data: array<byte>
    var length: nat

    constructor (key: Key, data: array<byte>)
      ensures this.key == key && this.data == data && length == data.Length && next == null
    {
      this.key, this.data, this.length, this.next := key, data, data.Length, null;
    }
  }

  // malloc and memcpy.
  method Copy(data: array<byte>, length: nat) returns (copy: array<byte>)
    requires length == data.Length
    ensures fresh(copy) && copy[..] == data[..]
  {
    copy := new byte[length](i requires 0 <= i < length reads data => data[i]);
  }

  // ---- chains, as values ------------------------------------------------------------------
  // A chain is the sequence of its keys; `nodes` gives the node of a key and `next` the
  // link of that node.

  ghost function At(chain: seq<Key>, nodes: map<Key, DbVal>, i: nat): (p: DbVal?)
  {
    if i < |chain| && chain[i] in nodes then nodes[chain[i]] else null
  }

  // The last node of a chain.
  ghost function Last(chain: seq<Key>, nodes: map<Key, DbVal>): (p: DbVal?)
  {
    if chain == [] then null else At(chain, nodes, |chain| - 1)
  }

  ghost predicate Linked(head: DbVal?, chain: seq<Key>, nodes: map<Key, DbVal>, next: map<Key, DbVal?>) {
    && (forall i :: 0 <= i < |chain| ==> chain[i] in nodes && chain[i] in next)
    && head == At(chain, nodes, 0)
    && (forall i {:trigger next[chain[i]]} :: 0 <= i < |chain| ==> next[chain[i]] == At(chain, nodes, i + 1))
  }

  // A chain holds every key of bucket `b`, only those, and none twice; so it is not cyclic.
  ghost predicate Keyed(chain: seq<Key>, keys: set<Key>, b: nat, size: nat)
    requires size > 0
  {
    && (forall i :: 0 <= i < |chain| ==> Bucket(chain[i], size) == b)
    && (forall i, j :: 0 <= i < j < |chain| ==> chain[i] != chain[j])
    && (forall k :: k in keys && Bucket(k, size) == b ==> k in chain)
  }

  ghost predicate BucketOk(heads: seq<DbVal?>, chains: seq<seq<Key>>, nodes: map<Key, DbVal>,
                           next: map<Key, DbVal?>, b: nat)
    requires b < |heads| == |chains|
  {
    Linked(heads[b], chains[b], nodes, next) && Keyed(chains[b], nodes.Keys, b, |chains|)
  }

  // The first `n` buckets are in order.
  ghost predicate Table(heads: seq<DbVal?>, chains: seq<seq<Key>>, nodes: map<Key, DbVal>,
                        next: map<Key, DbVal?>, n: nat)
    requires n <= |heads| == |chains|
  {
    n == 0 || (Table(heads, chains, nodes, next, n - 1) && BucketOk(heads, chains, nodes, next, n - 1))
  }

  lemma {:induction false} TableAt(heads: seq<DbVal?>, chains: seq<seq<Key>>, nodes: map<Key, DbVal>,
                                   next: map<Key, DbVal?>, n: nat, b: nat)
    requires b < n <= |heads| == |chains| && Table(heads, chains, nodes, next, n)
    ensures BucketOk(heads, chains, nodes, next, b)
  {
    if b < n - 1 { TableAt(heads, chains, nodes, next, n - 1, b); }
  }

  lemma {:induction false} TableFrom(heads: seq<DbVal?>, chains: seq<seq<Key>>, nodes: map<Key, DbVal>,
                                     next: map<Key, DbVal?>, n: nat)
    requires n <= |heads| == |chains| && forall b :: 0 <= b < n ==> BucketOk(heads, chains, nodes, next, b)
    ensures Table(heads, chains, nodes, next, n)
  {
    if n > 0 { TableFrom(heads, chains, nodes, next, n - 1); }
  }

  // What becomes of the heads and links when `val` is appended to a chain.
  ghost function HeadsWith(heads: seq<DbVal?>, chain: seq<Key>, hash: nat, val: DbVal): (r: seq<DbVal?>)
    requires hash < |heads|
    ensures |r| == |heads|
  {
    if chain == [] then heads[hash := val] else heads
  }

  ghost function NextWith(next: map<Key, DbVal?>, chain: seq<Key>, key: Key, val: DbVal): (r: map<Key, DbVal?>)
  {
    (if chain == [] then next else next[chain[|chain| - 1] := val])[key := null]
  }

  // A key that is in no chain is appended to the chain of its bucket.
  lemma {:induction false} AppendTable(heads: seq<DbVal?>, chains: seq<seq<Key>>, nodes: map<Key, DbVal>,
                    next: map<Key, DbVal?>, hash: nat, key: Key, val: DbVal)
    requires |heads| == |chains| && Table(heads, chains, nodes, next, |chains|) && key !in nodes
    requires hash < |chains| && hash == Bucket(key, |chains|)
    ensures Table(HeadsWith(heads, chains[hash], hash, val), chains[hash := chains[hash] + [key]],
                  nodes[key := val], NextWith(next, chains[hash], key, val), |chains|)
  {
    var heads', chains' := HeadsWith(heads, chains[hash], hash, val), chains[hash := chains[hash] + [key]];
    var nodes', next' := nodes[key := val], NextWith(next, chains[hash], key, val);
    forall b | 0 <= b < |chains| ensures BucketOk(heads', chains', nodes', next', b) {
      TableAt(heads, chains, nodes, next, |chains|, b);
      TableAt(heads, chains, nodes, next, |chains|, hash);
      AppendBucket(heads, chains, nodes, next, b, hash, key, val);
    }
    TableFrom(heads', chains', nodes', next', |chains|);
  }

  lemma {:induction false} AppendBucket(heads: seq<DbVal?>, chains: seq<seq<Key>>, nodes: map<Key, DbVal>,
                     next: map<Key, DbVal?>, b: nat, hash: nat, key: Key, val: DbVal)
    requires b < |heads| == |chains| && hash < |chains| && hash == Bucket(key, |chains|) && key !in nodes
    requires BucketOk(heads, chains, nodes, next, b) && BucketOk(heads, chains, nodes, next, hash)
    ensures BucketOk(HeadsWith(heads, chains[hash], hash, val), chains[hash := chains[hash] + [key]], nodes[key := val],
                     NextWith(next, chains[hash], key, val), b)
  {
    if b == hash {
      AppendChain(heads[hash], chains[hash], nodes, next, key, val);
      AppendKeyed(chains[hash], nodes, hash, |chains|, key, val);
    } else {
      ChainsApart(chains[b], b, chains[hash] + [key], hash, |chains|);
      assert chains[hash] != [] ==> chains[hash][|chains[hash]| - 1] in chains[hash] + [key];
      OtherLinked(heads[b], chains[b], nodes, next, nodes[key := val], NextWith(next, chains[hash], key, val));
    }
  }

  lemma {:induction false} AppendKeyed(chain: seq<Key>, nodes: map<Key, DbVal>, b: nat, size: nat, key: Key, val: DbVal)
    requires size > 0 && Keyed(chain, nodes.Keys, b, size) && Bucket(key, size) == b && key !in nodes
    requires forall i :: 0 <= i < |chain| ==> chain[i] in nodes
    ensures Keyed(chain + [key], nodes[key := val].Keys, b, size)
  {
    assert (chain + [key])[|chain|] == key;
  }

  // Chains of different buckets have no key in common.
  lemma {:induction false} ChainsApart(chain: seq<Key>, b: nat, grown: seq<Key>, hash: nat, size: nat)
    requires size > 0 && b != hash
    requires forall i :: 0 <= i < |chain| ==> Bucket(chain[i], size) == b
    requires forall i :: 0 <= i < |grown| ==> Bucket(grown[i], size) == hash
    ensures forall i :: 0 <= i < |chain| ==> chain[i] !in grown
  {
  }

  lemma {:induction false} OtherLinked(head: DbVal?, chain: seq<Key>, nodes: map<Key, DbVal>, next: map<Key, DbVal?>,
                    nodes': map<Key, DbVal>, next': map<Key, DbVal?>)
    requires Linked(head, chain, nodes, next)
    requires forall i :: 0 <= i < |chain| ==> chain[i] in nodes' && nodes'[chain[i]] == nodes[chain[i]]
    requires forall i :: 0 <= i < |chain| ==> chain[i] in next' && next'[chain[i]] == next[chain[i]]
    ensures Linked(head, chain, nodes', next')
  {
  }

  lemma {:induction false} AppendChain(head: DbVal?, chain: seq<Key>, nodes: map<Key, DbVal>, next: map<Key, DbVal?>,
                    key: Key, val: DbVal)
    requires Linked(head, chain, nodes, next) && key !in nodes
    requires forall i, j :: 0 <= i < j < |chain| ==> chain[i] != chain[j]
    ensures Linked(if chain == [] then val else head, chain + [key], nodes[key := val], NextWith(next, chain, key, val))
  {
    var next' := NextWith(next, chain, key, val);
    var chain' := chain + [key];
    forall i | 0 <= i < |chain'| ensures next'[chain'[i]] == At(chain', nodes[key := val], i + 1) {
      if i < |chain| - 1 { assert next[chain[i]] == At(chain, nodes, i + 1); }
    }
  }

  class Database {
    var table: array<DbVal?>
    // The table as values.
    ghost var heads: seq<DbVal?>
    ghost var chains: seq<seq<Key>>            // the keys of each bucket, in order
    ghost var nodes: map<Key, DbVal>           // the node of each key
    ghost var next: map<Key, DbVal?>           // its link
    ghost var contents: map<Key, seq<byte>>    // the map the table stands for
    ghost var Repr: set<object>

    // Node `n` holds the entry of key `k`.
    ghost predicate Holds(n: DbVal, k: Key)
      reads this, Repr
    {
      && n in Repr && n.key == k && n.data in Repr && HEADER <= n.data.Length == n.length
      && k in next && n.next == next[k]
      && k in contents && contents[k] == n.data[..]
    }

    ghost predicate Entries()
      reads this, Repr
    {
      && this in Repr && table in Repr && table[..] == heads
      && next.Keys == nodes.Keys == contents.Keys
      && (forall k {:trigger Holds(nodes[k], k)} :: k in nodes ==> Holds(nodes[k], k))
    }

    ghost predicate Valid()
      reads this, Repr
    {
      Entries() && |chains| == |heads| > 0 && Table(heads, chains, nodes, next, |chains|)
    }

    // `hashtable_init`.
    constructor (size: nat)
      requires size > 0
      ensures Valid() && fresh(Repr) && contents == map[] && table.Length == size
    {
      table := new DbVal?[size](_ => null);
      heads, chains := seq(size, _ => null), seq(size, _ => []);
      nodes, next, contents := map[], map[], map[];
      new;
      Repr := {this, table};
      TableFrom(heads, chains, nodes, next, |chains|);
    }

    lemma {:induction false} NodeAt(head: DbVal?, chain: seq<Key>, i: nat)
      requires Entries() && Linked(head, chain, nodes, next) && i < |chain|
      ensures chain[i] in nodes && At(chain, nodes, i) == nodes[chain[i]]
      ensures nodes[chain[i]] in Repr && nodes[chain[i]].key == chain[i]
      ensures nodes[chain[i]].next == At(chain, nodes, i + 1)
    {
      assert Holds(nodes[chain[i]], chain[i]) && next[chain[i]] == At(chain, nodes, i + 1);
    }

    // Walk the chain of `key` to its node; `before` is the node before it, or the last one.
    method Find(key: Key, hash: nat) returns (p: DbVal?, before: DbVal?)
      requires Entries() && hash < |heads| == |chains| && Linked(heads[hash], chains[hash], nodes, next)
      requires key in nodes ==> key in chains[hash]
      ensures p == if key in nodes then nodes[key] else null
      ensures p == null ==> before == Last(chains[hash], nodes)
      ensures (p != null ==> p in Repr) && (before != null ==> before in Repr)
    {
      ghost var chain := chains[hash];
      p := table[hash];
      before := null;
      ghost var i := 0;
      if chain != [] { NodeAt(heads[hash], chain, 0); }
      while p != null && p.key != key
        invariant 0 <= i <= |chain| && p == At(chain, nodes, i)
        invariant before == if i == 0 then null else At(chain, nodes, i - 1)
        invariant p != null ==> p in Repr && p.key == chain[i]
        invariant before != null ==> before in Repr
        invariant key !in chain[..i]
        decreases |chain| - i
      {
        NodeAt(heads[hash], chain, i);
        before := p;
        p := before.next;
        i := i + 1;
        if i < |chain| { NodeAt(heads[hash], chain, i); }
      }
    }

    // The chain to search, and the search.
    method Locate(key: Key) returns (hash: nat, p: DbVal?, before: DbVal?)
      requires Valid()
      ensures hash == Bucket(key, |chains|) && p == if key in contents then nodes[key] else null
      ensures p == null ==> before == Last(chains[hash], nodes)
      ensures (p != null ==> p in Repr && Holds(p, key)) && (before != null ==> before in Repr)
    {
      hash := Bucket(key, table.Length);
      TableAt(heads, chains, nodes, next, |chains|, hash);
      p, before := Find(key, hash);
      if p != null { assert Holds(nodes[key], key); }
    }

    method HtGet(key: Key) returns (ret: DbVal?)
      requires Valid()
      ensures (ret == null) <==> key !in contents
      ensures ret != null ==>
                fresh(ret) && fresh(ret.data) && ret.data[..] == contents[key] && ret.length == ret.data.Length
    {
      var _, p, _ := Locate(key);
      ret := null;
      if p != null {
        var data := Copy(p.data, p.length);
        ret := new DbVal(key, data);
      }
    }

    method HtSet(val: DbVal, version: nat) returns (ok: bool)
      requires Valid() && val !in Repr && val.length == val.data.Length >= HEADER
      modifies Repr, val`next
      ensures Valid() && Repr <= old(Repr) + {val, val.data}
      ensures ok == VersionedStore.Accepts(old(contents), DataVersion, old(val.key), version)
      ensures contents == VersionedStore.Set(old(contents), DataVersion, old(val.key), old(val.data[..]), version)
    {
      Detach(val);
      var hash, found, before := Locate(val.key);
      if found == null {
        Append(before, val, hash);
        return true;
      }
      ok := Overwrite(found, val, version);
    }

    // The entry of a present key is replaced if its version is the one named.
    method Overwrite(found: DbVal, val: DbVal, version: nat) returns (ok: bool)
      requires Valid() && val.key in contents && found == nodes[val.key]
      requires val !in Repr && val.length == val.data.Length >= HEADER
      modifies this`Repr, this`contents, found`data, found`length
      ensures Valid() && Repr <= old(Repr) + {val.data}
      ensures ok == (DataVersion(old(contents)[val.key]) == version)
      ensures contents == if ok then old(contents)[val.key := val.data[..]] else old(contents)
    {
      assert Holds(found, val.key);
      if VersionOf(found.data[..]) != version {
        return false;
      }
      Replace(found, val);
      ok := true;
    }

    // `val->next = NULL`.
    method Detach(val: DbVal)
      requires Valid() && val !in Repr
      modifies val`next
      ensures Valid() && val.next == null
    {
      val.next := null;
    }

    // `next->data = val->data` and `next->length = val->length`.
    method Replace(found: DbVal, val: DbVal)
      requires Entries() && val.key in nodes && found == nodes[val.key]
      requires val !in Repr && val.length == val.data.Length >= HEADER
      modifies this`Repr, this`contents, found`data, found`length
      ensures Entries() && Repr == old(Repr) + {val.data}
      ensures contents == old(contents)[val.key := val.data[..]]
    {
      assert Holds(found, val.key);
      found.data := val.data;
      found.length := val.length;
      contents := contents[val.key := val.data[..]];
      Repr := Repr + {val.data};
      forall k | k in nodes ensures Holds(nodes[k], k) {
        assert old(Holds(nodes[k], k));
      }
    }

    method Append(before: DbVal?, val: DbVal, hash: nat)
      requires Valid() && val.key !in nodes && hash == Bucket(val.key, |chains|) && before == Last(chains[hash], nodes)
      requires before != null ==> before in Repr
      requires val !in Repr && val.length == val.data.Length >= HEADER && val.next == null
      modifies this, before, table
      ensures Valid() && Repr == old(Repr) + {val, val.data} && table == old(table)
      ensures contents == old(contents)[val.key := val.data[..]]
    {
      TableAt(heads, chains, nodes, next, |chains|, hash);
      AppendTable(heads, chains, nodes, next, hash, val.key, val);
      Link(before, val, hash);
    }

    // `before->next = val`, or the table entry of an empty chain.
    method Link(before: DbVal?, val: DbVal, hash: nat)
      requires Entries() && val.key !in nodes && hash < |chains| == |heads|
      requires before == Last(chains[hash], nodes) && (before != null ==> before in Repr)
      requires chains[hash] != [] ==> chains[hash][|chains[hash]| - 1] in nodes
      requires val !in Repr && val.length == val.data.Length >= HEADER && val.next == null
      modifies this`Repr, this`contents, this`nodes, this`next, this`heads, this`chains, before, table
      ensures Entries() && Repr == old(Repr) + {val, val.data}
      ensures contents == old(contents)[val.key := val.data[..]] && nodes == old(nodes)[val.key := val]
      ensures next == NextWith(old(next), old(chains[hash]), val.key, val)
      ensures heads == HeadsWith(old(heads), old(chains[hash]), hash, val)
      ensures chains == old(chains)[hash := old(chains[hash]) + [val.key]]
    {
      ghost var chain := chains[hash];
      if before != null {
        Relink(before, val, chain[|chain| - 1]);
      } else {
        Rehead(val, hash);
      }
      Adopt(val, hash);
    }

    method Rehead(val: DbVal, hash: nat)
      requires Entries() && hash < |heads|
      modifies this`heads, table
      ensures Entries() && heads == old(heads)[hash := val]
    {
      table[hash] := val;
      heads := heads[hash := val];
      forall k | k in nodes ensures Holds(nodes[k], k) {
        assert old(Holds(nodes[k], k));
      }
    }

    method Relink(before: DbVal, val: DbVal, ghost last: Key)
      requires Entries() && last in nodes && before == nodes[last] && val !in Repr
      modifies this`next, before`next
      ensures Entries() && next == old(next)[last := val]
    {
      assert Holds(before, last);
      before.next := val;
      next := next[last := val];
      forall k | k in nodes ensures Holds(nodes[k], k) {
        assert old(Holds(nodes[k], k));
      }
    }

    ghost method Adopt(val: DbVal, hash: nat)
      requires Entries() && val.key !in nodes && hash < |chains|
      requires val !in Repr && val.length == val.data.Length >= HEADER && val.next == null
      modifies this`Repr, this`contents, this`nodes, this`next, this`chains
      ensures Entries() && Repr == old(Repr) + {val, val.data}
      ensures contents == old(contents)[val.key := val.data[..]] && nodes == old(nodes)[val.key := val]
      ensures next == old(next)[val.key := null]
      ensures chains == old(chains)[hash := old(chains[hash]) + [val.key]]
    {
      chains := chains[hash := chains[hash] + [val.key]];
      nodes, next := nodes[val.key := val], next[val.key := null];
      contents := contents[val.key := val.data[..]];
      Repr := Repr + {val, val.data};
      forall k | k in nodes ensures Holds(nodes[k], k) {
        if k != val.key { assert old(Holds(nodes[k], k)); }
      }
    }
  }
}

/** The DBGet and DBSet bindings (req_server.cc) over one database. */
module Bindings {
  import opened ByteCodec
  import opened HashTable
  import VersionedStore

  // The bytes of an entry, or an empty buffer for an absent key.
  method DbGet(db: Database, key: Key) returns (buffer: array<byte>)
    requires db.Valid()
    ensures fresh(buffer) && buffer[..] == if key in db.contents then db.contents[key] else []
  {
    var val := db.HtGet(key);
    if val == null {
      buffer := new byte[0];
    } else {
      buffer := val.data;
    }
  }

  // `random` is the version drawn for the new entry; the result is false for "abort".
  method DbSet(db: Database, key: Key, content: array<byte>, version: nat, random: nat) returns (ok: bool)
    requires db.Valid() && random < 0x8000_0000
    modifies db.Repr
    ensures db.Valid() && fresh(db.Repr - old(db.Repr))
    ensures ok == VersionedStore.Accepts(old(db.contents), DataVersion, key, version)
    ensures db.contents ==
            VersionedStore.Set(old(db.contents), DataVersion, key, Header(random) + old(content[..]), version)
  {
    var data := WithHeader(random, content);
    var val := new DbVal(key, data);
    ok := db.HtSet(val, version);
  }

  // The buffer that `db_set` allocates for the entry.
  method WithHeader(random: nat, content: array<byte>) returns (data: array<byte>)
    requires random < 0x8000_0000
    ensures fresh(data) && data[..] == Header(random) + content[..]
  {
    var stored := Header(random) + content[..];
    data := new byte[|stored|];
    forall i | 0 <= i < |stored| {
      data[i] := stored[i];
    }
  }
}
