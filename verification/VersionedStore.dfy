/** The abstract store that db.cc implements: a map whose entries can be replaced only by
  * a writer that names their version. */
module VersionedStore {
  // An absent key is inserted whatever version is named; a present one is replaced if the
  // version matches, and otherwise the write is refused.
  predicate Accepts<K, V>(m: map<K, V>, versionOf: V -> nat, key: K, version: nat) {
    key !in m || versionOf(m[key]) == version
  }

  function Set<K, V>(m: map<K, V>, versionOf: V -> nat, key: K, value: V, version: nat): (r: map<K, V>)
  {
    if Accepts(m, versionOf, key, version) then m[key := value] else m
  }

  // Insert if absent, whatever version is named; replace if the version is that of the entry;
  // otherwise nothing changes. No other entry ever does.
  lemma {:induction false} SetCases<K, V>(m: map<K, V>, versionOf: V -> nat, key: K, value: V, version: nat, other: K)
    ensures key !in m ==> Accepts(m, versionOf, key, version)
    ensures key in m ==> (Accepts(m, versionOf, key, version) <==> versionOf(m[key]) == version)
    ensures var r := Set(m, versionOf, key, value, version);
            && (Accepts(m, versionOf, key, version) ==> key in r && r[key] == value)
            && (!Accepts(m, versionOf, key, version) ==> r == m)
            && (other != key ==> (other in r <==> other in m) && (other in m ==> r[other] == m[other]))
  {
  }
}
