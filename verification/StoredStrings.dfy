/** The services see versions and strings where the store holds bytes; a write of bytes is
  * the write of a cell that `OptimisticRetry` reasons about. */
module StoredStrings {
  import opened ByteCodec
  import HashTable
  import VersionedStore
  import OptimisticRetry

  type Str = seq<unit>

  // Every entry was written by `db_set` from a string.
  ghost predicate Written(m: map<HashTable.Key, seq<byte>>) {
    forall k :: k in m ==> |m[k]| >= HEADER && |m[k]| % 2 == 0
  }

  ghost function Cells(m: map<HashTable.Key, seq<byte>>): (c: map<HashTable.Key, OptimisticRetry.Cell<Str>>)
    requires Written(m)
  {
    map k | k in m :: OptimisticRetry.Cell(VersionOf(m[k]), Ab2Str(m[k]))
  }

  lemma {:induction false} WriteOfAString(m: map<HashTable.Key, seq<byte>>, key: HashTable.Key, str: Str,
                              random: nat, version: nat)
    requires Written(m) && random < 0x8000_0000
    ensures var m' := VersionedStore.Set(m, HashTable.DataVersion, key, Header(random) + Bytes(str), version);
            && Written(m')
            && Cells(m') == VersionedStore.Set(Cells(m), OptimisticRetry.VersionOfCell, key,
                                               OptimisticRetry.Cell(random, str), version)
            && VersionedStore.Accepts(m, HashTable.DataVersion, key, version)
               == VersionedStore.Accepts(Cells(m), OptimisticRetry.VersionOfCell, key, version)
  {
    StringRoundTrip(random, str);
    assert |Header(random) + Bytes(str)| % 2 == 0;
    assert key in m ==> HashTable.DataVersion(m[key]) == OptimisticRetry.VersionOfCell(Cells(m)[key]);
    var m' := VersionedStore.Set(m, HashTable.DataVersion, key, Header(random) + Bytes(str), version);
    assert Written(m');
    assert Cells(m') == VersionedStore.Set(Cells(m), OptimisticRetry.VersionOfCell, key,
                                           OptimisticRetry.Cell(random, str), version);
  }
}
