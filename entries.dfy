/**
 * The `key: value` entries that `route!` destinations and `config!` both
 * read, and the rule both apply them by: a later entry for a key replaces an
 * earlier one.
 */
module Entries {
  import opened Wrappers

  /** One `key: value` entry, the value as the text of its identifier or literal. */
  datatype KeyValue = KeyValue(key: string, value: string)

  /** The value of the last entry for `key`, if any. */
  function Lookup(kvs: seq<KeyValue>, key: string): (r: Option<string>)
    ensures r.None? <==> forall i :: 0 <= i < |kvs| ==> kvs[i].key != key
    decreases |kvs|
  {
    if kvs == [] then None
    else if kvs[|kvs| - 1].key == key then Some(kvs[|kvs| - 1].value)
    else Lookup(kvs[..|kvs| - 1], key)
  }

  /** The last entry with a key gives its value. */
  lemma {:induction false} LookupLast(kvs: seq<KeyValue>, i: nat)
    requires i < |kvs| && forall j :: i < j < |kvs| ==> kvs[j].key != kvs[i].key
    ensures Lookup(kvs, kvs[i].key) == Some(kvs[i].value)
    decreases |kvs|
  {
    if i < |kvs| - 1 {
      LookupLast(kvs[..|kvs| - 1], i);
    }
  }
}
