/**
 * Names in `$GLOBALS` and keys of super-global containers, as capture and
 * restore both treat them.
 *
 * Keys of super-global containers. Both restore paths compute the keys to
 * visit as `array_keys(array_merge($live, $saved))`; array_merge keeps string
 * keys but renumbers integer keys from zero, so for a container with integer
 * keys that is not the union of the two key sets.
 */
module Containers {
  import opened PhpValues
  import opened Exclusion

  /**
   * The names of `$GLOBALS` that capture skips and restore leaves alone:
   * `GLOBALS` itself, the super-global arrays and the names the policy excludes.
   */
  predicate Untouched(key: string, superGlobalArrays: seq<string>, rules: ExclusionRules) {
    key == "GLOBALS" || key in superGlobalArrays || GlobalExcluded(rules, key)
  }

  /** The set of names in a list. */
  function Elements(s: seq<string>): (r: set<string>)
    ensures forall x :: x in r <==> x in s
  {
    set x | x in s
  }

  function StringKeys<T>(m: map<Key, T>): (keys: set<Key>)
    ensures forall k :: k in keys <==> k in m && k.StrKey?
  {
    set k | k in m && k.StrKey?
  }

  function IntKeyCount<T>(m: map<Key, T>): (r: nat) {
    |set k | k in m && k.IntKey?|
  }

  /**
   * The keys of `array_merge($a, $b)` as written: the string keys of both,
   * and one renumbered integer key 0, 1, ... for every integer-keyed entry
   * of either array.
   */
  function ArrayMergeKeys<S, T>(a: map<Key, S>, b: map<Key, T>): (keys: set<Key>)
    ensures forall s :: StrKey(s) in keys <==> StrKey(s) in a || StrKey(s) in b
    ensures forall n :: IntKey(n) in keys <==> 0 <= n < IntKeyCount(a) + IntKeyCount(b)
  {
    StringKeys(a) + StringKeys(b) + set n | 0 <= n < IntKeyCount(a) + IntKeyCount(b) :: IntKey(n)
  }

  /** Without integer keys the merged keys are exactly the union the restore intends. */
  lemma ArrayMergeKeysOfStringKeyed<S, T>(a: map<Key, S>, b: map<Key, T>)
    requires forall k :: k in a ==> k.StrKey?
    requires forall k :: k in b ==> k.StrKey?
    ensures ArrayMergeKeys(a, b) == a.Keys + b.Keys
  {
    assert (set k | k in a && k.IntKey?) == {};
    assert (set k | k in b && k.IntKey?) == {};
  }

  /** A container whose one key is an integer counts one integer key. */
  lemma IntKeyCountOfOne<T>(m: map<Key, T>, n: int)
    requires m.Keys == {IntKey(n)}
    ensures IntKeyCount(m) == 1
  {
    assert (set k | k in m && k.IntKey?) == {IntKey(n)};
  }
}
