/**
  Mutually inverse finite maps: `keys` gives each row its secondary key and
  `index` finds the row by that key. One small algebra serves all six indices.
 */
module Inverses {

  /** Every row is found under its key. Entries that lead elsewhere may be left over. */
  ghost predicate Covers(keys: map<string, string>, index: map<string, string>) {
    forall id <- keys :: keys[id] in index && index[keys[id]] == id
  }

  ghost predicate Inverse(keys: map<string, string>, index: map<string, string>) {
    && Covers(keys, index)
    && (forall k <- index :: index[k] in keys && keys[index[k]] == k)
  }

  /** Exact except for the entry under one key, which may be left over. */
  ghost predicate InverseBut(keys: map<string, string>, index: map<string, string>, hole: string) {
    && Covers(keys, index)
    && (forall k <- index :: k == hole || (index[k] in keys && keys[index[k]] == k))
  }

  ghost predicate Injective(keys: map<string, string>) {
    forall a, b :: a in keys && b in keys && keys[a] == keys[b] ==> a == b
  }

  /** Another row already holds this key. */
  ghost predicate Taken(keys: map<string, string>, id: string, key: string) {
    exists o :: o in keys && o != id && keys[o] == key
  }

  /** Covering is enough for the keys to be unique. */
  lemma CoversInjective(keys: map<string, string>, index: map<string, string>)
    requires Covers(keys, index)
    ensures Injective(keys)
  {
  }

  lemma ButReplace(keys: map<string, string>, index: map<string, string>, hole: string, id: string, key: string)
    requires InverseBut(keys, index, hole) && id in keys && (key in index ==> index[key] == id)
    ensures InverseBut(keys[id := key], (index - {keys[id]})[key := id], hole)
    ensures keys[id] == hole ==> InverseBut(keys[id := key], index[key := id], hole)
  {
  }

  lemma ButInsert(keys: map<string, string>, index: map<string, string>, hole: string, id: string, key: string)
    requires InverseBut(keys, index, hole) && id !in keys && key !in index
    ensures InverseBut(keys[id := key], index[key := id], hole)
  {
  }

  lemma ButRemove(keys: map<string, string>, index: map<string, string>, hole: string, id: string)
    requires InverseBut(keys, index, hole) && id in keys
    ensures InverseBut(keys - {id}, index - {keys[id]}, hole)
  {
  }

  /** Storing a row under a key that no other row has. */
  lemma CoversPut(keys: map<string, string>, index: map<string, string>, id: string, key: string)
    requires Covers(keys, index) && !Taken(keys, id, key)
    ensures Covers(keys[id := key], index[key := id])
  {
  }

  lemma CoversRemove(keys: map<string, string>, index: map<string, string>, id: string)
    requires Covers(keys, index) && id in keys
    ensures Covers(keys - {id}, index - {keys[id]})
  {
  }

  /** The index is determined by the keys: a rebuilt index is the maintained one. */
  lemma InverseUnique(keys: map<string, string>, index: map<string, string>, other: map<string, string>)
    requires Inverse(keys, index) && Inverse(keys, other)
    ensures index == other
  {
  }

  /** The indexed check "somebody else holds the key" is the scan over all rows. */
  lemma TakenByIndex(keys: map<string, string>, index: map<string, string>, id: string, key: string)
    requires Inverse(keys, index)
    ensures Taken(keys, id, key) <==> key in index && index[key] != id
  {
  }

  /** A lookup finds the one row with the key, or shows that there is none. */
  lemma LookupByIndex(keys: map<string, string>, index: map<string, string>, key: string)
    requires Inverse(keys, index)
    ensures key in index ==> index[key] in keys && forall id <- keys :: keys[id] == key <==> id == index[key]
    ensures key !in index ==> forall id <- keys :: keys[id] != key
  {
  }

  lemma InverseInsert(keys: map<string, string>, index: map<string, string>, id: string, key: string)
    requires Inverse(keys, index) && id !in keys && key !in index
    ensures Inverse(keys[id := key], index[key := id])
  {
  }

  lemma InverseRemove(keys: map<string, string>, index: map<string, string>, id: string)
    requires Inverse(keys, index) && id in keys
    ensures Inverse(keys - {id}, index - {keys[id]})
  {
  }

  /** Dropping a row's old key and adding its new one, in the order an update does it. */
  lemma InverseReplace(keys: map<string, string>, index: map<string, string>, id: string, key: string)
    requires Inverse(keys, index) && id in keys && !Taken(keys, id, key)
    ensures Inverse(keys[id := key], (index - {keys[id]})[key := id])
  {
  }

  ghost predicate Within(part: map<string, string>, whole: map<string, string>) {
    forall id <- part :: id in whole && part[id] == whole[id]
  }

  /** The index rebuilt from the keys. */
  ghost function Inverted(keys: map<string, string>): map<string, string> {
    map k | k in keys.Values :: Owner(keys, k)
  }

  ghost function Owner(keys: map<string, string>, key: string): (id: string)
    requires key in keys.Values
    ensures id in keys && keys[id] == key
  {
    var id :| id in keys && keys[id] == key;
    id
  }

  lemma InvertedIsInverse(keys: map<string, string>)
    requires Injective(keys)
    ensures Inverse(keys, Inverted(keys))
  {
    forall id <- keys ensures keys[id] in Inverted(keys) && Inverted(keys)[keys[id]] == id {
      assert keys[id] in keys.Values;
    }
  }
}
