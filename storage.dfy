/**
 * The device's key-value store as the screens see it: string keys mapped to
 * string values, with `getItem` answering `null` for a missing key.
 */
module Storage {
  import opened Wrappers
  import opened Seqs

  type Store = map<string, string>

  /** `AsyncStorage.getItem(key)`: the stored text, or `null`. */
  function GetItem(store: Store, key: string): (r: Option<string>)
    ensures r.Some? <==> key in store
    ensures r.Some? ==> r.value == store[key]
  {
    if key in store then Some(store[key]) else None
  }

  /** JavaScript truthiness of a `getItem` result: present and not the empty string. */
  predicate HasText(v: Option<string>)
  {
    v.Some? && v.value != ""
  }

  /** `getAllKeys()`: every stored key once, in some order. */
  predicate AllKeysOf(store: Store, keys: seq<string>)
  {
    Distinct(keys) && (forall k :: k in keys ==> k in store) && (forall k :: k in store ==> k in keys)
  }

  predicate StartsWith(s: string, prefix: string)
  {
    prefix <= s
  }

  /** `keys.filter(k => k.startsWith(prefix))`. */
  function KeysWithPrefix(keys: seq<string>, prefix: string): (r: seq<string>)
    ensures |r| <= |keys|
  {
    Filter(keys, (k: string) => StartsWith(k, prefix))
  }

  /** The filtered keys are exactly the keys with the prefix, in their order. */
  lemma KeysWithPrefixMembers(keys: seq<string>, prefix: string)
    ensures forall k :: k in KeysWithPrefix(keys, prefix) <==> k in keys && StartsWith(k, prefix)
    ensures IsSubsequence(KeysWithPrefix(keys, prefix), keys)
  {
    FilterSpec(keys, (k: string) => StartsWith(k, prefix));
  }

  /** Filtering keys without repeats gives keys without repeats. */
  lemma KeysWithPrefixSpec(keys: seq<string>, prefix: string)
    requires Distinct(keys)
    ensures forall k :: k in KeysWithPrefix(keys, prefix) <==> k in keys && StartsWith(k, prefix)
    ensures Distinct(KeysWithPrefix(keys, prefix))
  {
    KeysWithPrefixMembers(keys, prefix);
    SubsequenceDistinct(KeysWithPrefix(keys, prefix), keys);
  }

  lemma {:induction false} SubsequenceDistinct<T>(a: seq<T>, b: seq<T>)
    requires IsSubsequence(a, b) && Distinct(b)
    ensures Distinct(a)
    decreases |b|
  {
    if a != [] && b != [] {
      if a[0] == b[0] {
        SubsequenceDistinct(a[1..], b[1..]);
        SubsequenceElements(a[1..], b[1..]);
        forall i, j | 0 <= i < j < |a|
          ensures a[i] != a[j]
        {
          assert a[j] == a[1..][j - 1];
          if i == 0 {
            assert a[j] in b[1..];
            var k :| 0 <= k < |b[1..]| && b[1..][k] == a[j];
            assert b[k + 1] == a[j];
          } else {
            assert a[i] == a[1..][i - 1];
          }
        }
      } else {
        SubsequenceDistinct(a, b[1..]);
      }
    }
  }

  lemma {:induction false} SubsequenceElements<T>(a: seq<T>, b: seq<T>)
    requires IsSubsequence(a, b)
    ensures forall x :: x in a ==> x in b
    decreases |b|
  {
    if a != [] && b != [] {
      if a[0] == b[0] {
        SubsequenceElements(a[1..], b[1..]);
        assert forall x :: x in a ==> x == a[0] || x in a[1..];
      } else {
        SubsequenceElements(a, b[1..]);
      }
    }
  }
}
