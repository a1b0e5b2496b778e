/** `DictionaryExtension`: helpers over a dictionary that the caller owns and that
    `AddRange` and `AddOrUpdate` update in place. */
module DictionaryExtension {

  /** `target` with every key of `source` it lacks added with the source's value. */
  function Merged<K, V>(target: map<K, V>, source: map<K, V>): (r: map<K, V>)
    ensures r.Keys == target.Keys + source.Keys
    ensures forall k :: k in target ==> r[k] == target[k]
    ensures forall k :: k in source && k !in target ==> r[k] == source[k]
  {
    map k | k in target.Keys + source.Keys :: if k in target then target[k] else source[k]
  }

  /** Merging the same source twice changes nothing the second time. */
  lemma MergedIdempotent<K, V>(target: map<K, V>, source: map<K, V>)
    ensures Merged(Merged(target, source), source) == Merged(target, source)
  {
  }

  /** A dictionary (an `IDictionary<TKey, TValue>`) whose entries change in place. */
  class Dictionary<K(==), V> {
    var entries: map<K, V>

    constructor (initial: map<K, V>)
      ensures entries == initial
    {
      entries := initial;
    }

    /** `AddRange`: `TryAdd` of every source entry, so existing keys keep their
        values and an overlap raises nothing. */
    method AddRange(range: Dictionary<K, V>)
      modifies this
      ensures entries == Merged(old(entries), old(range.entries))
    {
      var source := range.entries;
      var remaining := source.Keys;
      ghost var start := entries;
      while remaining != {}
        invariant remaining <= source.Keys
        invariant entries == Merged(start, map k | k in source.Keys - remaining :: source[k])
        decreases remaining
      {
        var key :| key in remaining;
        var _ := TryAdd(key, source[key]);
        remaining := remaining - {key};
      }
      assert (map k | k in source.Keys - remaining :: source[k]) == source;
    }

    /** `TryAdd`: inserts only when the key is absent and reports whether it did. */
    method TryAdd(key: K, value: V) returns (added: bool)
      modifies this
      ensures added <==> key !in old(entries)
      ensures entries == if added then old(entries)[key := value] else old(entries)
    {
      added := key !in entries;
      if added {
        entries := entries[key := value];
      }
    }

    /** `AddOrUpdate`: afterwards `key` maps to `value`, which is returned. */
    method AddOrUpdate(key: K, value: V) returns (current: V)
      modifies this
      ensures current == value
      ensures entries == old(entries)[key := value]
      ensures |entries| == |old(entries)| + (if key in old(entries) then 0 else 1)
    {
      if key in entries {
        entries := entries[key := value];
      } else {
        entries := entries[key := value];
      }
      current := entries[key];
    }

    /** `ContainsAnyKey`: `keys.Any(ContainsKey)`. */
    predicate ContainsAnyKey(keys: seq<K>)
      reads this
      ensures ContainsAnyKey(keys) <==> exists i :: 0 <= i < |keys| && keys[i] in entries
      ensures keys == [] ==> !ContainsAnyKey(keys)
    {
      if keys == [] then false else keys[0] in entries || ContainsAnyKey(keys[1..])
    }

    /** `ContainsAllKeys`: `keys.All(ContainsKey)`. */
    predicate ContainsAllKeys(keys: seq<K>)
      reads this
      ensures ContainsAllKeys(keys) <==> forall i :: 0 <= i < |keys| ==> keys[i] in entries
      ensures keys == [] ==> ContainsAllKeys(keys)
    {
      if keys == [] then true else keys[0] in entries && ContainsAllKeys(keys[1..])
    }
  }

  /** `AddRange` followed by `AddRange` of the same source leaves the dictionary as the
      first call did. */
  method AddRangeTwice<K(==), V>(d: Dictionary<K, V>, range: Dictionary<K, V>)
    requires d != range
    modifies d
    ensures d.entries == Merged(old(d.entries), range.entries)
  {
    d.AddRange(range);
    d.AddRange(range);
    MergedIdempotent(old(d.entries), range.entries);
  }
}
