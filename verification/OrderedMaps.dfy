/** The Map of the source language: entries in the order their keys were first set. */
module OrderedMaps {

  ghost predicate Distinct<T(!new)>(s: seq<T>) {
    forall i, j | 0 <= i < j < |s| :: s[i] != s[j]
  }

  function Without(keys: seq<string>, key: string): (r: seq<string>)
    ensures forall k :: k in r <==> k in keys && k != key
    ensures Distinct(keys) ==> Distinct(r)
  {
    if keys == [] then []
    else
      var last := keys[|keys| - 1];
      var rest := Without(keys[..|keys| - 1], key);
      assert keys == keys[..|keys| - 1] + [last];
      assert Distinct(keys) ==> last !in keys[..|keys| - 1] && last !in rest;
      if last == key then rest else rest + [last]
  }

  datatype OrderedMap<V> = OrderedMap(keys: seq<string>, at: map<string, V>) {

    ghost predicate Valid() {
      Distinct(keys) && forall k :: k in keys <==> k in at
    }

    function Set(key: string, value: V): (r: OrderedMap<V>)
      ensures r.at == at[key := value]
      ensures Valid() ==> r.Valid()
    {
      OrderedMap(if key in keys then keys else keys + [key], at[key := value])
    }

    function Delete(key: string): (r: OrderedMap<V>)
      ensures r.at == at - {key}
      ensures Valid() ==> r.Valid()
    {
      OrderedMap(Without(keys, key), at - {key})
    }

    function Values(): (r: seq<V>)
      requires forall k | k in keys :: k in at
      ensures |r| == |keys| && forall i | 0 <= i < |r| :: r[i] == at[keys[i]]
    {
      seq(|keys|, i requires 0 <= i < |keys| => assert keys[i] in keys; at[keys[i]])
    }
  }

  function Empty<V>(): (r: OrderedMap<V>)
    ensures r.Valid()
  {
    OrderedMap([], map[])
  }
}
