/**
 OrderEntryMap (pkg/maputils/ordered_entry_map.go): a map that remembers the order in which its keys
 were first set, as a list of entries and an index into it.
 */
module OrderedMap {
  import opened Strings

  /** What a history of Set calls leaves: each key once, in the order of its first call. */
  function FirstSet<K(==), V>(calls: seq<(K, V)>): (keys: seq<K>)
  {
    if calls == [] then []
    else
      var n := |calls| - 1;
      var before := FirstSet(calls[..n]);
      if calls[n].0 in before then before else before + [calls[n].0]
  }

  function LastSet<K(==), V>(calls: seq<(K, V)>): map<K, V>
  {
    if calls == [] then map[]
    else LastSet(calls[..|calls| - 1])[calls[|calls| - 1].0 := calls[|calls| - 1].1]
  }

  class OrderEntryMap<K(==), V> {
    var entries: seq<(K, V)>
    var index: map<K, nat>

    ghost predicate Valid()
      reads this
    {
      && (forall i | 0 <= i < |entries| :: entries[i].0 in index && index[entries[i].0] == i)
      && (forall k | k in index :: index[k] < |entries| && entries[index[k]].0 == k)
    }

    /** The keys as Iter yields them. */
    ghost function Order(): seq<K>
      reads this
    {
      seq(|entries|, i requires 0 <= i < |entries| reads this => entries[i].0)
    }

    ghost function Contents(): map<K, V>
      requires Valid()
      reads this
    {
      map k | k in index :: entries[index[k]].1
    }

    constructor ()
      ensures Valid() && Order() == [] && Contents() == map[]
    {
      entries, index := [], map[];
    }

    method Set(key: K, value: V)
      requires Valid()
      modifies this
      ensures Valid()
      ensures Contents() == old(Contents())[key := value]
      ensures Order() == if key in old(Order()) then old(Order()) else old(Order()) + [key]
    {
      assert key in index ==> Order()[index[key]] == key;
      assert key in Order() ==> key in index;
      if key in index {
        var i := index[key];
        entries := entries[i := (entries[i].0, value)];
        return;
      }
      index := index[key := |entries|];
      entries := entries + [(key, value)];
    }

    method Get(key: K) returns (r: Option<V>)
      requires Valid()
      ensures r == if key in Contents() then Some(Contents()[key]) else None
    {
      if key in index {
        return Some(entries[index[key]].1);
      }
      return None;
    }

    /** Iter: yields entries until the consumer has taken `limit` of them. */
    method Iter(limit: nat) returns (yielded: seq<(K, V)>)
      requires Valid()
      ensures |yielded| == if limit < |Order()| then limit else |Order()|
      ensures forall i | 0 <= i < |yielded| ::
                yielded[i].0 == Order()[i] && yielded[i].0 in Contents() && yielded[i].1 == Contents()[yielded[i].0]
    {
      yielded := [];
      for i := 0 to |entries|
        invariant yielded == entries[..i] && i <= limit
      {
        if i == limit {
          return;
        }
        yielded := yielded + [entries[i]];
      }
    }

    /** No key is yielded twice. */
    lemma OrderIsUnique(i: nat, j: nat)
      requires Valid() && i < j < |Order()|
      ensures Order()[i] != Order()[j]
    {
      assert index[entries[i].0] == i && index[entries[j].0] == j;
    }
  }

  /** Any sequence of Set calls on a new map. */
  method Build<K(==), V>(calls: seq<(K, V)>) returns (m: OrderEntryMap<K, V>)
    ensures fresh(m) && m.Valid()
    ensures m.Order() == FirstSet(calls) && m.Contents() == LastSet(calls)
  {
    m := new OrderEntryMap();
    for n := 0 to |calls|
      invariant fresh(m) && m.Valid()
      invariant m.Order() == FirstSet(calls[..n]) && m.Contents() == LastSet(calls[..n])
    {
      assert calls[..n + 1][..n] == calls[..n];
      m.Set(calls[n].0, calls[n].1);
    }
    assert calls[..|calls|] == calls;
  }
}
