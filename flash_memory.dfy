/**
 * `FlashMemory` of the `self_checkout` example: a shared map of one-time
 * messages. `set` stores a message under a key; `get` hands it out once and
 * removes it, so a second `get` finds nothing and gives the empty string.
 */
module FlashMemory {
  import opened Wrappers

  /** The map behind the lock, as a value: the method pair below updates it in place. */
  function Stored(data: map<string, string>, key: string, value: string): (d: map<string, string>)
    ensures key in d && d[key] == value
    ensures forall k :: k != key ==> (k in d <==> k in data) && (k in data ==> d[k] == data[k])
  {
    data[key := value]
  }

  /** What `get` gives and the map it leaves. */
  function Taken(data: map<string, string>, key: string): (r: (string, map<string, string>))
    ensures r.0 == (if key in data then data[key] else "")
    ensures key !in r.1
    ensures forall k :: k != key ==> (k in r.1 <==> k in data) && (k in data ==> r.1[k] == data[k])
  {
    (if key in data then data[key] else "", data - {key})
  }

  /** A value stored and then taken twice comes out once, then as `""`. */
  lemma ReadOnce(data: map<string, string>, key: string, value: string)
    ensures Taken(Stored(data, key, value), key).0 == value
    ensures Taken(Taken(Stored(data, key, value), key).1, key).0 == ""
  {
  }

  /** Storing under one key and taking another commute. */
  lemma OtherKeys(data: map<string, string>, k: string, v: string, j: string)
    requires j != k
    ensures Taken(Stored(data, k, v), j).0 == Taken(data, j).0
    ensures Taken(Stored(data, k, v), j).1 == Stored(Taken(data, j).1, k, v)
  {
  }

  class FlashMemory {
    var data: map<string, string>

    constructor (data: map<string, string>)
      ensures this.data == data
    {
      this.data := data;
    }

    /** `FlashMemory::set`: inserts or overwrites the key. */
    method Set(key: string, value: string) returns (r: Result<(), string>)
      modifies this
      ensures r == Ok(())
      ensures data == Stored(old(data), key, value)
    {
      data := data[key := value];
      r := Ok(());
    }

    /** `FlashMemory::get`: the stored value, removed from the map, or `""` when there is none. */
    method Get(key: string) returns (r: Result<string, string>)
      modifies this
      ensures r == Ok(Taken(old(data), key).0)
      ensures data == Taken(old(data), key).1
    {
      var value := if key in data then Some(data[key]) else None;
      data := data - {key};
      r := Ok(if value.Some? then value.value else "");
    }
  }

  /** `set(k, v)` then two `get(k)`s give `v` and then `""`. */
  method SetThenGetTwice(m: FlashMemory, key: string, value: string) returns (first: string, second: string)
    modifies m
    ensures first == value && second == ""
    ensures key !in m.data
    ensures forall k :: k != key ==> (k in m.data <==> k in old(m.data)) && (k in old(m.data) ==> m.data[k] == old(m.data)[k])
  {
    var _ := m.Set(key, value);
    var a := m.Get(key);
    var b := m.Get(key);
    ReadOnce(old(m.data), key, value);
    first, second := a.value, b.value;
  }
}
