/**
 * The URL query parameter list the service builds for the upstream call:
 * an ordered list of name-value pairs with `append` and `set`.
 */
module UrlParams {

  import opened Wrappers

  type Entry = (string, string)

  /** The entries whose name is not `key`, in their order. */
  function RemoveKey(entries: seq<Entry>, key: string): (r: seq<Entry>)
    ensures forall i :: 0 <= i < |r| ==> r[i].0 != key
    ensures |r| <= |entries|
  {
    if entries == [] then []
    else if entries[0].0 == key then RemoveKey(entries[1..], key)
    else [entries[0]] + RemoveKey(entries[1..], key)
  }

  /**
   * `params.set(key, value)`: the first entry named `key` takes the new
   * value and the later ones are removed; without such an entry the pair is
   * appended.
   */
  function SetEntry(entries: seq<Entry>, key: string, value: string): seq<Entry>
  {
    if entries == [] then [(key, value)]
    else if entries[0].0 == key then [(key, value)] + RemoveKey(entries[1..], key)
    else [entries[0]] + SetEntry(entries[1..], key, value)
  }

  /** `params.get(key)`: the value of the first entry named `key`. */
  function Lookup(entries: seq<Entry>, key: string): (r: Option<string>)
    ensures r.None? <==> forall i :: 0 <= i < |entries| ==> entries[i].0 != key
  {
    if entries == [] then None
    else if entries[0].0 == key then Some(entries[0].1)
    else Lookup(entries[1..], key)
  }

  /** How many entries are named `key`. */
  function CountKey(entries: seq<Entry>, key: string): nat
  {
    if entries == [] then 0
    else (if entries[0].0 == key then 1 else 0) + CountKey(entries[1..], key)
  }

  /** The list of names of a list of named pairs, in order. */
  function Keys<V>(entries: seq<(string, V)>): (r: seq<string>)
    ensures |r| == |entries| && forall i :: 0 <= i < |r| ==> r[i] == entries[i].0
  {
    if entries == [] then [] else [entries[0].0] + Keys(entries[1..])
  }

  /** URLSearchParams, updated in place by the service. */
  class SearchParams {
    var entries: seq<Entry>

    /** `new URLSearchParams()` */
    constructor ()
      ensures entries == []
    {
      entries := [];
    }

    /** `params.append(key, value)` */
    method Append(key: string, value: string)
      modifies this
      ensures entries == old(entries) + [(key, value)]
    {
      entries := entries + [(key, value)];
    }

    /** `params.set(key, value)` */
    method Set(key: string, value: string)
      modifies this
      ensures entries == SetEntry(old(entries), key, value)
    {
      entries := SetEntry(entries, key, value);
    }
  }

  // ---------------------------------------------------------------------
  // Properties of `set`

  lemma {:induction false} CountOfRemoved(entries: seq<Entry>, key: string)
    ensures CountKey(RemoveKey(entries, key), key) == 0
    decreases |entries|
  {
    if entries != [] {
      CountOfRemoved(entries[1..], key);
      var r := RemoveKey(entries[1..], key);
      if entries[0].0 != key {
        assert ([entries[0]] + r)[1..] == r;
      }
    }
  }

  /** After `set`, exactly one entry has the name, and it carries the new value. */
  lemma {:induction false} SetLeavesOneEntry(entries: seq<Entry>, key: string, value: string)
    ensures CountKey(SetEntry(entries, key, value), key) == 1
    ensures Lookup(SetEntry(entries, key, value), key) == Some(value)
    decreases |entries|
  {
    var r := SetEntry(entries, key, value);
    if entries == [] {
    } else if entries[0].0 == key {
      CountOfRemoved(entries[1..], key);
      assert r[1..] == RemoveKey(entries[1..], key);
    } else {
      SetLeavesOneEntry(entries[1..], key, value);
      assert r[1..] == SetEntry(entries[1..], key, value);
    }
  }

  lemma {:induction false} RemoveKeyTwice(entries: seq<Entry>, key: string)
    ensures RemoveKey(RemoveKey(entries, key), key) == RemoveKey(entries, key)
    decreases |entries|
  {
    if entries != [] {
      RemoveKeyTwice(entries[1..], key);
      if entries[0].0 != key {
        var r := RemoveKey(entries[1..], key);
        assert ([entries[0]] + r)[1..] == r;
      }
    }
  }

  /** `set` leaves every other entry where it was. */
  lemma {:induction false} SetKeepsOtherEntries(entries: seq<Entry>, key: string, value: string)
    ensures RemoveKey(SetEntry(entries, key, value), key) == RemoveKey(entries, key)
    decreases |entries|
  {
    var r := SetEntry(entries, key, value);
    if entries == [] {
    } else if entries[0].0 == key {
      assert r[1..] == RemoveKey(entries[1..], key);
      RemoveKeyTwice(entries[1..], key);
    } else {
      assert r[1..] == SetEntry(entries[1..], key, value);
      SetKeepsOtherEntries(entries[1..], key, value);
    }
  }

  /** `set` on a name that is absent appends the pair. */
  lemma {:induction false} SetOfAbsentKeyAppends(entries: seq<Entry>, key: string, value: string)
    requires forall i :: 0 <= i < |entries| ==> entries[i].0 != key
    ensures SetEntry(entries, key, value) == entries + [(key, value)]
    decreases |entries|
  {
    if entries != [] {
      SetOfAbsentKeyAppends(entries[1..], key, value);
      assert entries == [entries[0]] + entries[1..];
    }
  }

  /** Setting a name twice is the same as setting it once to the second value. */
  lemma {:induction false} SetTwice(entries: seq<Entry>, key: string, first: string, second: string)
    ensures SetEntry(SetEntry(entries, key, first), key, second) == SetEntry(entries, key, second)
    decreases |entries|
  {
    var once := SetEntry(entries, key, first);
    if entries == [] {
    } else if entries[0].0 == key {
      assert once[0] == (key, first) && once[1..] == RemoveKey(entries[1..], key);
      RemoveKeyTwice(entries[1..], key);
    } else {
      assert once[0] == entries[0] && once[1..] == SetEntry(entries[1..], key, first);
      SetTwice(entries[1..], key, first, second);
    }
  }
}
