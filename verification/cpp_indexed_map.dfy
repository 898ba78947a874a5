/** The C++ `IndexedMap` helpers of `indexed_map.h`: a map keyed by list
    index from which every entry at or past an index is removed when the
    list shrinks.

  `std::map` iterates its keys in ascending order; the keys are collected
  in that order by taking the least remaining key each time.
 */
module IndexedMaps {

  /** Strictly ascending, as keys come out of a `std::map`. */
  predicate Increasing(s: seq<nat>) {
    forall i, j :: 0 <= i < j < |s| ==> s[i] < s[j]
  }

  /** Every non-empty set of indices has a least element. */
  lemma LeastExists(s: set<nat>)
    requires s != {}
    ensures exists k :: k in s && forall y :: y in s ==> k <= y
  {
    var x :| x in s;
    LeastAtMost(s, x);
  }

  /** Below any member there is a least one: step down to a smaller
      member until there is none. */
  lemma {:induction false} LeastAtMost(s: set<nat>, x: nat)
    requires x in s
    ensures exists k :: k in s && forall y :: y in s ==> k <= y
    decreases x
  {
    if !forall y :: y in s ==> x <= y {
      var y :| y in s && y < x;
      LeastAtMost(s, y);
    }
  }

  /** Part way through collecting `target`: `keys` holds, ascending, what
      has been taken, `rest` what has not, and every taken key is below
      every remaining one. */
  ghost predicate Collecting(keys: seq<nat>, rest: set<nat>, target: set<nat>) {
    rest <= target && Increasing(keys)
    && (forall x :: x in keys <==> x in target && x !in rest)
    && (forall i, x :: 0 <= i < |keys| && x in rest ==> keys[i] < x)
  }

  /** Taking the least remaining key keeps collecting in order. */
  lemma CollectLeast(keys: seq<nat>, rest: set<nat>, target: set<nat>, k: nat)
    requires Collecting(keys, rest, target)
    requires k in rest && forall y :: y in rest ==> k <= y
    ensures Collecting(keys + [k], rest - {k}, target)
    ensures |rest - {k}| < |rest|
  {
    var keys', rest' := keys + [k], rest - {k};
    assert forall x :: x in keys' <==> x in keys || x == k;
    forall i, j | 0 <= i < j < |keys'| ensures keys'[i] < keys'[j] {
      if j == |keys| {
        assert keys'[i] == keys[i];
      } else {
        assert keys'[i] == keys[i] && keys'[j] == keys[j];
      }
    }
    forall i, x | 0 <= i < |keys'| && x in rest' ensures keys'[i] < x {
      if i < |keys| {
        assert keys'[i] == keys[i];
      }
    }
  }

  /** `GetInvalidatedKeys`: the keys at or past `firstToClear`, in
      ascending order. */
  method GetInvalidatedKeys<V>(firstToClear: nat, m: map<nat, V>) returns (keys: seq<nat>)
    ensures Increasing(keys)
    ensures forall x :: x in keys <==> x in m && x >= firstToClear
  {
    keys := [];
    var rest: set<nat> := Invalidated(firstToClear, m);
    while rest != {}
      invariant Collecting(keys, rest, Invalidated(firstToClear, m))
      decreases |rest|
    {
      var k := Least(rest);
      CollectLeast(keys, rest, Invalidated(firstToClear, m), k);
      keys := keys + [k];
      rest := rest - {k};
    }
  }

  function Least(s: set<nat>): (k: nat)
    requires s != {}
    ensures k in s && forall y :: y in s ==> k <= y
  {
    LeastExists(s);
    var k :| k in s && forall y :: y in s ==> k <= y;
    k
  }

  /** The keys of `m` at or past `firstToClear`. */
  function Invalidated<V>(firstToClear: nat, m: map<nat, V>): (s: set<nat>)
    ensures forall x :: x in s <==> x in m && x >= firstToClear
  {
    set k | k in m && k >= firstToClear
  }

  /** What remains of a map once the keys from `firstToClear` on are
      gone. */
  function Retained<V>(firstToClear: nat, m: map<nat, V>): map<nat, V> {
    map k | k in m && k < firstToClear :: m[k]
  }

  /** `ClearInvalidated`: erase every invalidated key. The entries below
      `firstToClear` stay, with their values. */
  method ClearInvalidated<V>(firstToClear: nat, m: map<nat, V>) returns (r: map<nat, V>)
    ensures forall k :: k in r <==> k in m && k < firstToClear
    ensures forall k :: k in r ==> r[k] == m[k]
  {
    var keys := GetInvalidatedKeys(firstToClear, m);
    r := m;
    var i := 0;
    while i < |keys|
      invariant 0 <= i <= |keys|
      invariant forall k :: k in r <==> k in m && k !in keys[..i]
      invariant forall k :: k in r ==> r[k] == m[k]
    {
      r := r - {keys[i]};
      i := i + 1;
    }
    assert keys[..i] == keys;
  }

  /** Clearing gives the retained map, clearing from 0 empties it, and a
      second clear from the same index changes nothing. */
  lemma ClearInvalidatedRetains<V>(firstToClear: nat, m: map<nat, V>, r: map<nat, V>)
    requires forall k :: k in r <==> k in m && k < firstToClear
    requires forall k :: k in r ==> r[k] == m[k]
    ensures r == Retained(firstToClear, m)
    ensures Retained(firstToClear, r) == r
    ensures Retained(0, m) == map[]
  {
  }
}
