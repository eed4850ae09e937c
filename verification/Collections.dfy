module Options {
  datatype Option<+T> = None | Some(value: T)
}

/** A JavaScript `Map`: entries in insertion order, at most one per key. */
module OrderedMaps {
  import opened Options

  datatype Entry<+K, +V> = Entry(key: K, value: V)

  ghost predicate DistinctKeys<K, V>(m: seq<Entry<K, V>>) {
    forall i, j :: 0 <= i < j < |m| ==> m[i].key != m[j].key
  }

  function Get<K(==), V>(m: seq<Entry<K, V>>, key: K): Option<V> {
    if m == [] then None
    else if m[0].key == key then Some(m[0].value)
    else Get(m[1..], key)
  }

  predicate Has<K(==), V>(m: seq<Entry<K, V>>, key: K) {
    Get(m, key).Some?
  }

  /** `map.set`: an existing key keeps its position, a new one goes last. */
  function Put<K(==), V>(m: seq<Entry<K, V>>, key: K, value: V): seq<Entry<K, V>> {
    if m == [] then [Entry(key, value)]
    else if m[0].key == key then [Entry(key, value)] + m[1..]
    else [m[0]] + Put(m[1..], key, value)
  }

  /** `map.delete`. */
  function Drop<K(==), V>(m: seq<Entry<K, V>>, key: K): seq<Entry<K, V>> {
    if m == [] then []
    else if m[0].key == key then Drop(m[1..], key)
    else [m[0]] + Drop(m[1..], key)
  }

  lemma {:induction false} GetPut<K, V>(m: seq<Entry<K, V>>, key: K, value: V, other: K)
    ensures Get(Put(m, key, value), other) == if other == key then Some(value) else Get(m, other)
  {
    if m != [] && m[0].key != key {
      GetPut(m[1..], key, value, other);
    }
  }

  lemma {:induction false} GetDrop<K, V>(m: seq<Entry<K, V>>, key: K, other: K)
    ensures Get(Drop(m, key), other) == if other == key then None else Get(m, other)
  {
    if m != [] {
      GetDrop(m[1..], key, other);
    }
  }

  /** An entry's key is found, and what is found is some entry. */
  lemma {:induction false} GetFinds<K, V>(m: seq<Entry<K, V>>, key: K)
    ensures Has(m, key) <==> exists i :: 0 <= i < |m| && m[i].key == key
    ensures Has(m, key) ==> exists i :: 0 <= i < |m| && m[i] == Entry(key, Get(m, key).value)
  {
    if m != [] {
      GetFinds(m[1..], key);
      if m[0].key != key {
        if Has(m, key) {
          var i :| 0 <= i < |m[1..]| && m[1..][i] == Entry(key, Get(m[1..], key).value);
          assert m[i + 1] == Entry(key, Get(m, key).value);
        }
        if i :| 0 <= i < |m| && m[i].key == key {
          assert m[1..][i - 1].key == key;
        }
      } else {
        assert m[0] == Entry(key, Get(m, key).value);
      }
    }
  }

  lemma {:induction false} GetAt<K, V>(m: seq<Entry<K, V>>, i: nat)
    requires DistinctKeys(m) && i < |m|
    ensures Get(m, m[i].key) == Some(m[i].value)
  {
    if i > 0 {
      GetAt(m[1..], i - 1);
    }
  }

  lemma {:induction false} PutKeepsDistinct<K, V>(m: seq<Entry<K, V>>, key: K, value: V)
    requires DistinctKeys(m)
    ensures DistinctKeys(Put(m, key, value))
  {
    if m != [] && m[0].key != key {
      PutKeepsDistinct(m[1..], key, value);
      forall j | 0 <= j < |Put(m[1..], key, value)|
        ensures Put(m[1..], key, value)[j].key != m[0].key
      {
        GetPut(m[1..], key, value, m[0].key);
        GetFinds(m[1..], m[0].key);
        GetFinds(Put(m[1..], key, value), m[0].key);
      }
    }
  }

  lemma {:induction false} DropKeepsDistinct<K, V>(m: seq<Entry<K, V>>, key: K)
    requires DistinctKeys(m)
    ensures DistinctKeys(Drop(m, key))
  {
    if m != [] {
      DropKeepsDistinct(m[1..], key);
      if m[0].key != key {
        forall j | 0 <= j < |Drop(m[1..], key)|
          ensures Drop(m[1..], key)[j].key != m[0].key
        {
          GetDrop(m[1..], key, m[0].key);
          GetFinds(m[1..], m[0].key);
          GetFinds(Drop(m[1..], key), m[0].key);
        }
      }
    }
  }

  lemma {:induction false} DropMembers<K, V>(m: seq<Entry<K, V>>, key: K, e: Entry<K, V>)
    ensures e in Drop(m, key) <==> e in m && e.key != key
  {
    if m != [] {
      DropMembers(m[1..], key, e);
    }
  }

  lemma {:induction false} PutMembers<K, V>(m: seq<Entry<K, V>>, key: K, value: V, e: Entry<K, V>)
    requires DistinctKeys(m)
    ensures e in Put(m, key, value) <==> e == Entry(key, value) || (e in m && e.key != key)
  {
    if m != [] {
      PutMembers(m[1..], key, value, e);
      assert m == [m[0]] + m[1..];
    }
  }

  lemma SameKeySameEntry<K, V>(m: seq<Entry<K, V>>, d: Entry<K, V>, e: Entry<K, V>)
    requires DistinctKeys(m) && d in m && e in m && d.key == e.key
    ensures d == e
  {
  }
}

/** What a filtering loop collects. */
module Listings {
  function Kept<T>(all: seq<T>, keep: T -> bool): seq<T> {
    if all == [] then []
    else
      var front, last := all[..|all| - 1], all[|all| - 1];
      if keep(last) then Kept(front, keep) + [last] else Kept(front, keep)
  }

  ghost predicate Increasing(positions: seq<nat>, n: nat) {
    && (forall i, j :: 0 <= i < j < |positions| ==> positions[i] < positions[j])
    && (forall i :: 0 <= i < |positions| ==> positions[i] < n)
  }

  /** The elements to keep, each as often as in the list and in the same order, and no others. */
  ghost predicate ArePositions<T>(all: seq<T>, keep: T -> bool, kept: seq<T>, positions: seq<nat>) {
    && Increasing(positions, |all|) && |positions| == |kept|
    && (forall k :: 0 <= k < |positions| ==> kept[k] == all[positions[k]])
    && (forall i: nat :: i < |all| ==> (keep(all[i]) <==> i in positions))
  }

  lemma {:induction false} KeptIsExact<T>(all: seq<T>, keep: T -> bool) returns (positions: seq<nat>)
    ensures ArePositions(all, keep, Kept(all, keep), positions)
  {
    positions := [];
    if all != [] {
      var n := |all| - 1;
      positions := KeptIsExact(all[..n], keep);
      OneMorePosition(all, keep, Kept(all[..n], keep), positions);
      if keep(all[n]) {
        positions := positions + [n];
      }
    }
  }

  lemma OneMorePosition<T>(all: seq<T>, keep: T -> bool, kept: seq<T>, positions: seq<nat>)
    requires all != [] && ArePositions(all[..|all| - 1], keep, kept, positions)
    ensures var n := |all| - 1;
            if keep(all[n]) then ArePositions(all, keep, kept + [all[n]], positions + [n])
            else ArePositions(all, keep, kept, positions)
  {
    var n := |all| - 1;
    assert forall i: nat :: i < n ==> all[..n][i] == all[i];
    assert forall i: nat :: i in positions + [n] <==> i in positions || i == n;
  }

  lemma {:induction false} KeptMembers<T>(all: seq<T>, keep: T -> bool)
    ensures forall x :: x in Kept(all, keep) <==> x in all && keep(x)
  {
    if all != [] {
      var n := |all| - 1;
      KeptMembers(all[..n], keep);
      assert all == all[..n] + [all[n]];
    }
  }
}
