/**
  java.util.TreeMap<String, V> as the parser uses it: created empty, filled with put,
  then handed to the caller, who iterates over it in ascending key order.
  Only what put and iteration promise is modelled; the red-black tree is not.
 */
module TreeMaps {
  import opened JavaStrings

  /** Keys listed in strictly ascending compareTo order (so without repetition). */
  predicate StrictlyAscending(keys: seq<string>) {
    forall i, j :: 0 <= i < j < |keys| ==> Less(keys[i], keys[j])
  }

  /** A key below the first key of an ascending list is below every key of it. */
  lemma BelowAll(k: string, keys: seq<string>)
    requires StrictlyAscending(keys) && keys != [] && Less(k, keys[0])
    ensures forall j :: 0 <= j < |keys| ==> Less(k, keys[j])
  {
    forall j | 0 < j < |keys| {
      LessTransitive(k, keys[0], keys[j]);
    }
  }

  /**
    The key order after TreeMap.put(k, _): k takes its place among the keys, and a key
    that is already present keeps its single place.
   */
  function InsertSorted(keys: seq<string>, k: string): (r: seq<string>)
    requires StrictlyAscending(keys)
    ensures StrictlyAscending(r)
    ensures forall x :: x in r <==> x in keys || x == k
    decreases |keys|
  {
    if keys == [] then [k]
    else if k == keys[0] then keys
    else if Less(k, keys[0]) then
      BelowAll(k, keys);
      [k] + keys
    else
      LessConnected(k, keys[0]);
      var rest := InsertSorted(keys[1..], k);
      assert forall x :: x in rest ==> Less(keys[0], x) by {
        forall x | x in rest ensures Less(keys[0], x) {
          if x != k {
            var j :| 1 <= j < |keys| && keys[j] == x;
          }
        }
      }
      [keys[0]] + rest
  }

  /**
    An ascending listing is determined by its set of keys: whatever order the keys were
    put in, iteration visits them in the same order.
   */
  lemma {:induction false} AscendingListingIsUnique(a: seq<string>, b: seq<string>)
    requires StrictlyAscending(a) && StrictlyAscending(b)
    requires forall x :: x in a <==> x in b
    ensures a == b
    decreases |a|
  {
    assert b != [] ==> a != [] by {
      if b != [] { assert b[0] in a; }
    }
    if a != [] {
      assert b != [] by { assert a[0] in b; }
      assert a[0] in b && b[0] in a;
      var i0 :| 0 <= i0 < |a| && a[i0] == b[0];
      var j0 :| 0 <= j0 < |b| && b[j0] == a[0];
      LessAsymmetric(a[0], b[0]);
      LessIrreflexive(a[0]);
      assert a[0] == b[0];
      forall x ensures x in a[1..] <==> x in b[1..] {
        if x in a[1..] {
          var i :| 1 <= i < |a| && a[i] == x;
          assert x in b;
          var j :| 0 <= j < |b| && b[j] == x;
          assert j != 0;
          assert b[1..][j - 1] == x;
        }
        if x in b[1..] {
          var j :| 1 <= j < |b| && b[j] == x;
          assert x in a;
          var i :| 0 <= i < |a| && a[i] == x;
          assert i != 0;
          assert a[1..][i - 1] == x;
        }
      }
      AscendingListingIsUnique(a[1..], b[1..]);
    }
  }

  class TreeMap<V> {
    /** The keys in iteration order. */
    var keys: seq<string>
    var entries: map<string, V>

    ghost predicate Valid()
      reads this
    {
      && StrictlyAscending(keys)
      && forall k :: k in entries <==> k in keys
    }

    /** new TreeMap<>(): an empty map. */
    constructor ()
      ensures Valid()
      ensures entries == map[] && keys == []
    {
      keys := [];
      entries := map[];
    }

    /** put(key, value): inserts the mapping, or replaces the value of a key already present. */
    method Put(key: string, value: V)
      requires Valid()
      modifies this
      ensures Valid()
      ensures entries == old(entries)[key := value]
      ensures keys == InsertSorted(old(keys), key)
    {
      keys := InsertSorted(keys, key);
      entries := entries[key := value];
    }
  }
}
