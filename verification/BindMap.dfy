/**
 NativeKeyManagement: a key-value map in which a group of keys shares one value.

 The SHA-256 text that names a group is modelled by the group's key list itself, an injective name.
 */
module BindMap {
  import opened Results

  datatype StoreKey = Shared(keys: seq<nat>) | Plain(key: nat)

  class NativeKeyManagement {
    var keyMap: map<nat, StoreKey>
    var data: map<StoreKey, set<nat>>

    constructor ()
      ensures keyMap == map[] && data == map[]
    {
      keyMap, data := map[], map[];
    }

    /** Where the value of a key is kept. */
    function Slot(key: nat): StoreKey
      reads this
    {
      if key in keyMap then keyMap[key] else Plain(key)
    }

    /** The value of a key: a group without a value reads as the empty bitmap, a lone key without one is an error. */
    function Lookup(key: nat): Result<set<nat>>
      reads this
    {
      if Slot(key) in data then Ok(data[Slot(key)])
      else if key in keyMap then Ok({})
      else Err(KeyNotFound)
    }

    method BindKeys(keys: seq<nat>) returns (hashKey: StoreKey)
      modifies this`keyMap
      ensures hashKey == Shared(keys)
      ensures keyMap.Keys == old(keyMap.Keys) + (set k | k in keys)
      ensures forall k :: k in keyMap ==> keyMap[k] == if k in keys then hashKey else old(keyMap)[k]
    {
      hashKey := Shared(keys);
      for i := 0 to |keys|
        invariant keyMap.Keys == old(keyMap.Keys) + (set k | k in keys[..i])
        invariant forall k :: k in keyMap ==> keyMap[k] == if k in keys[..i] then hashKey else old(keyMap)[k]
      {
        keyMap := keyMap[keys[i] := hashKey];
      }
      assert keys[..|keys|] == keys;
    }

    /** Setting one key sets its whole group and nothing else. */
    method Set(key: nat, value: set<nat>)
      modifies this`data
      ensures data == old(data)[Slot(key) := value]
      ensures forall k :: Lookup(k) == if Slot(k) == Slot(key) then Ok(value) else old(Lookup(k))
    {
      if key in keyMap {
        data := data[keyMap[key] := value];
      } else {
        data := data[Plain(key) := value];
      }
    }

    method Get(key: nat) returns (r: Result<set<nat>>)
      ensures r == Lookup(key)
      ensures key in keyMap ==> r == Ok(if keyMap[key] in data then data[keyMap[key]] else {})
      ensures key !in keyMap && Plain(key) !in data ==> r == Err(KeyNotFound)
    {
      if key in keyMap {
        r := Ok(if keyMap[key] in data then data[keyMap[key]] else {});
      } else if Plain(key) in data {
        r := Ok(data[Plain(key)]);
      } else {
        r := Err(KeyNotFound);
      }
    }

    /** The value listed for a bound key: its group's, else one stored under the key alone. */
    function Listed(key: nat): Option<set<nat>>
      reads this
      requires key in keyMap
    {
      if keyMap[key] in data then Some(data[keyMap[key]])
      else if Plain(key) in data then Some(data[Plain(key)])
      else None
    }

    /** Every bound key once, in any order, with its value at the same index; an error when one has none. */
    method GetAllKeysAndValues() returns (r: Result<(seq<nat>, seq<set<nat>>)>)
      ensures r.Err? <==> exists k :: k in keyMap && Listed(k).None?
      ensures r.Ok? ==>
        var (keys, values) := r.value;
        && |keys| == |values| && (forall k :: k in keys <==> k in keyMap)
        && (forall i, j :: 0 <= i < j < |keys| ==> keys[i] != keys[j])
        && (forall i :: 0 <= i < |keys| ==> keys[i] in keyMap && Listed(keys[i]) == Some(values[i]))
        && forall i :: 0 <= i < |keys| && keyMap[keys[i]] in data ==> values[i] == data[keyMap[keys[i]]]
    {
      var keys: seq<nat>, values: seq<set<nat>> := [], [];
      var rest := keyMap.Keys;
      while rest != {}
        decreases rest
        invariant rest <= keyMap.Keys && |keys| == |values|
        invariant forall k :: k in keyMap <==> k in keys || k in rest
        invariant forall i :: 0 <= i < |keys| ==> keys[i] !in rest
        invariant forall i, j :: 0 <= i < j < |keys| ==> keys[i] != keys[j]
        invariant forall i :: 0 <= i < |keys| ==> keys[i] in keyMap && Listed(keys[i]) == Some(values[i])
      {
        var key :| key in rest;
        var hashKey := keyMap[key];
        if hashKey in data {
          values := values + [data[hashKey]];
        } else if Plain(key) in data {
          values := values + [data[Plain(key)]];
        } else {
          assert Listed(key).None?;
          return Err(KeyNotFound);
        }
        keys, rest := keys + [key], rest - {key};
      }
      forall k | k in keyMap
        ensures Listed(k).Some?
      {
        var i :| 0 <= i < |keys| && keys[i] == k;
      }
      return Ok((keys, values));
    }
  }
}
