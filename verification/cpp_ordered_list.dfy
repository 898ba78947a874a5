/** The C++ `OrderedList`: a list kept in storage order together with
    `indices`, the storage indices in display order.

  Moving an item rearranges `indices` only. Removing a stored item
  renumbers the indices above it; growing the list appends the new
  storage indices, shrinking it drops those past the new count. Ordered
  access reads `list[indices[i]]`.
 */
module OrderedLists {
  import opened Wrappers
  import opened Sequences

  // ---------------------------------------------------------------------
  // Permutations of storage indices

  /** `s` holds each of `0 .. n - 1` exactly once and nothing else. */
  ghost predicate IsPermutation(s: seq<nat>, n: nat) {
    Distinct(s) && forall v: nat :: v in s <==> v < n
  }

  /** `lo, lo + 1, .., hi - 1`. */
  function Range(lo: nat, hi: nat): (r: seq<nat>)
    requires lo <= hi
    ensures |r| == hi - lo
    ensures forall i :: 0 <= i < |r| ==> r[i] == lo + i
    decreases hi - lo
  {
    if lo == hi then [] else [lo] + Range(lo + 1, hi)
  }

  function Elements(s: seq<nat>): set<nat> {
    set v | v in s
  }

  lemma {:induction false} DistinctCardinality(s: seq<nat>)
    requires Distinct(s)
    ensures |Elements(s)| == |s|
    decreases |s|
  {
    if |s| > 0 {
      DistinctTail(s);
      DistinctCardinality(s[1..]);
      assert Elements(s) == Elements(s[1..]) + {s[0]};
    } else {
      assert Elements(s) == {};
    }
  }

  /** The identity order. */
  lemma RangeIsPermutation(n: nat)
    ensures IsPermutation(Range(0, n), n)
  {
    var r := Range(0, n);
    forall v: nat | v < n ensures v in r {
      assert r[v] == v;
    }
  }

  /** A permutation of `0 .. n - 1` has length `n`. */
  lemma PermutationLength(s: seq<nat>, n: nat)
    requires IsPermutation(s, n)
    ensures |s| == n
  {
    RangeIsPermutation(n);
    DistinctCardinality(s);
    DistinctCardinality(Range(0, n));
    assert Elements(s) == Elements(Range(0, n));
  }

  // ---------------------------------------------------------------------
  // Moves

  /** `std::find`: the first position of `x`, or `|s|` when absent. */
  function Find(s: seq<nat>, x: nat): (k: nat)
    ensures k <= |s|
    ensures k < |s| ==> s[k] == x
    ensures forall j :: 0 <= j < k ==> s[j] != x
    ensures k == |s| <==> x !in s
    decreases |s|
  {
    if |s| == 0 then 0
    else if s[0] == x then 0
    else 1 + Find(s[1..], x)
  }

  /** `s` with position `k` erased. */
  function EraseAt(s: seq<nat>, k: nat): (r: seq<nat>)
    requires k < |s|
    ensures |r| == |s| - 1
  {
    s[..k] + s[k + 1..]
  }

  /** `MoveToTop`: lists shorter than two are left alone, an absent index
      is `out_of_range`, and otherwise the index moves to the front with
      the others in their order. */
  function MoveToTop(s: seq<nat>, x: nat): (r: Result<seq<nat>>)
    ensures r.Err? <==> |s| >= 2 && x !in s
    ensures r.Err? ==> r.error == OutOfRange
    ensures r.Ok? && |s| >= 2 ==> r.value == [x] + EraseAt(s, Find(s, x))
    ensures r.Ok? ==> multiset(r.value) == multiset(s)
  {
    if |s| < 2 then Ok(s)
    else
      var k := Find(s, x);
      if k == |s| then Err(OutOfRange)
      else if k == 0 then
        assert s == [s[0]] + s[1..];
        Ok(s)
      else
        assert s == s[..k] + [x] + s[k + 1..];
        Ok([x] + EraseAt(s, k))
  }

  /** `MoveToBottom`: the same, to the back. */
  function MoveToBottom(s: seq<nat>, x: nat): (r: Result<seq<nat>>)
    ensures r.Err? <==> |s| >= 2 && x !in s
    ensures r.Err? ==> r.error == OutOfRange
    ensures r.Ok? && |s| >= 2 ==> r.value == EraseAt(s, Find(s, x)) + [x]
    ensures r.Ok? ==> multiset(r.value) == multiset(s)
  {
    if |s| < 2 then Ok(s)
    else
      var k := Find(s, x);
      if k == |s| then Err(OutOfRange)
      else if k == |s| - 1 then
        assert s == s[..k] + [x];
        assert EraseAt(s, k) == s[..k];
        Ok(s)
      else
        assert s == s[..k] + [x] + s[k + 1..];
        Ok(EraseAt(s, k) + [x])
  }

  /** Two neighbouring positions exchanged. */
  function SwapNext(s: seq<nat>, k: nat): (r: seq<nat>)
    requires k + 1 < |s|
    ensures |r| == |s| && multiset(r) == multiset(s)
    ensures r[k] == s[k + 1] && r[k + 1] == s[k]
    ensures forall j :: 0 <= j < |s| && j != k && j != k + 1 ==> r[j] == s[j]
  {
    assert s == s[..k] + [s[k], s[k + 1]] + s[k + 2..];
    s[..k] + [s[k + 1], s[k]] + s[k + 2..]
  }

  /** `MoveDown`: swap with the successor; nothing at the bottom;
      `out_of_range` when absent, an empty list included. */
  function MoveDown(s: seq<nat>, x: nat): (r: Result<seq<nat>>)
    ensures r.Err? <==> x !in s
    ensures r.Err? ==> r.error == OutOfRange
    ensures r.Ok? ==> Find(s, x) + 1 < |s| ==> r.value == SwapNext(s, Find(s, x))
    ensures r.Ok? ==> Find(s, x) + 1 == |s| ==> r.value == s
  {
    var k := Find(s, x);
    if k == |s| then Err(OutOfRange)
    else if k == |s| - 1 then Ok(s)
    else Ok(SwapNext(s, k))
  }

  /** `MoveUp`: swap with the predecessor; nothing at the top. */
  function MoveUp(s: seq<nat>, x: nat): (r: Result<seq<nat>>)
    ensures r.Err? <==> x !in s
    ensures r.Err? ==> r.error == OutOfRange
    ensures r.Ok? ==> 0 < Find(s, x) ==> r.value == SwapNext(s, Find(s, x) - 1)
    ensures r.Ok? ==> Find(s, x) == 0 ==> r.value == s
  {
    var k := Find(s, x);
    if k == |s| then Err(OutOfRange)
    else if k == 0 then Ok(s)
    else Ok(SwapNext(s, k - 1))
  }

  /** A permutation stays a permutation under a rearrangement. */
  lemma {:induction false} SameMultisetKeepsPermutation(s: seq<nat>, t: seq<nat>, n: nat)
    requires IsPermutation(s, n) && multiset(t) == multiset(s)
    ensures IsPermutation(t, n)
  {
    forall v: nat ensures v in t <==> v < n {
      assert v in t <==> v in multiset(t);
      assert v in s <==> v in multiset(s);
    }
    forall i, j | 0 <= i < j < |t| ensures t[i] != t[j] {
      if t[i] == t[j] {
        DistinctMultiplicity(s, t[i]);
        TwiceMultiplicity(t, i, j);
      }
    }
  }

  lemma {:induction false} DistinctMultiplicity(s: seq<nat>, v: nat)
    requires Distinct(s)
    ensures multiset(s)[v] <= 1
    decreases |s|
  {
    if |s| > 0 {
      assert s == [s[0]] + s[1..];
      DistinctTail(s);
      DistinctMultiplicity(s[1..], v);
    }
  }

  lemma TwiceMultiplicity(t: seq<nat>, i: nat, j: nat)
    requires i < j < |t| && t[i] == t[j]
    ensures multiset(t)[t[i]] >= 2
  {
    assert t == t[..i] + [t[i]] + t[i + 1..j] + [t[j]] + t[j + 1..];
  }

  /** All four moves keep `indices` a permutation. */
  lemma MovesKeepPermutation(s: seq<nat>, n: nat, x: nat)
    requires IsPermutation(s, n)
    ensures MoveToTop(s, x).Ok? ==> IsPermutation(MoveToTop(s, x).value, n)
    ensures MoveToBottom(s, x).Ok? ==> IsPermutation(MoveToBottom(s, x).value, n)
    ensures MoveDown(s, x).Ok? ==> IsPermutation(MoveDown(s, x).value, n)
    ensures MoveUp(s, x).Ok? ==> IsPermutation(MoveUp(s, x).value, n)
  {
    if MoveToTop(s, x).Ok? { SameMultisetKeepsPermutation(s, MoveToTop(s, x).value, n); }
    if MoveToBottom(s, x).Ok? { SameMultisetKeepsPermutation(s, MoveToBottom(s, x).value, n); }
    if MoveDown(s, x).Ok? && Find(s, x) + 1 < |s| { SameMultisetKeepsPermutation(s, MoveDown(s, x).value, n); }
    if MoveUp(s, x).Ok? && 0 < Find(s, x) { SameMultisetKeepsPermutation(s, MoveUp(s, x).value, n); }
  }

  /** Moving down and then up again restores the order, except at the
      bottom where the first move does nothing. */
  lemma MoveDownThenUp(s: seq<nat>, x: nat)
    requires Distinct(s) && x in s && Find(s, x) + 1 < |s|
    ensures MoveUp(MoveDown(s, x).value, x) == Ok(s)
  {
    var k := Find(s, x);
    var t := SwapNext(s, k);
    FindAfterSwap(s, k);
    SwapNextTwice(s, k);
    assert MoveUp(t, x).value == SwapNext(t, k);
  }

  /** After swapping with its successor, an item of a distinct sequence
      is found one place further down. */
  lemma FindAfterSwap(s: seq<nat>, k: nat)
    requires Distinct(s) && k + 1 < |s|
    ensures Find(SwapNext(s, k), s[k]) == k + 1
  {
    var t := SwapNext(s, k);
    assert s[k + 1] != s[k];
    forall j | 0 <= j < k + 1 ensures t[j] != s[k] {
      if j < k {
        assert t[j] == s[j];
      }
    }
    FindAt(t, s[k], k + 1);
  }

  /** Swapping the same neighbours twice restores the sequence. */
  lemma SwapNextTwice(s: seq<nat>, k: nat)
    requires k + 1 < |s|
    ensures SwapNext(SwapNext(s, k), k) == s
  {
    var u := SwapNext(SwapNext(s, k), k);
    assert forall j :: 0 <= j < |s| ==> u[j] == s[j];
  }

  /** `x` at position `k` and nowhere before it is found at `k`. */
  lemma {:induction false} FindAt(s: seq<nat>, x: nat, k: nat)
    requires k < |s| && s[k] == x && forall j :: 0 <= j < k ==> s[j] != x
    ensures Find(s, x) == k
    decreases k
  {
    if k > 0 {
      FindAt(s[1..], x, k - 1);
    }
  }

  // ---------------------------------------------------------------------
  // Renumbering and resizing

  /** `OnListMemberRemoved_`: `removed` leaves and every larger index
      shifts down by one. */
  function RemoveStorageIndex(s: seq<nat>, removed: nat): (r: seq<nat>)
    ensures |r| <= |s|
    decreases |s|
  {
    if |s| == 0 then []
    else
      var rest := RemoveStorageIndex(s[1..], removed);
      if s[0] == removed then rest
      else [if s[0] > removed then s[0] - 1 else s[0]] + rest
  }

  /** What survives the renumbering: the indices below `removed`, and
      one less than each index above it. */
  lemma {:induction false} RemoveMembership(s: seq<nat>, removed: nat, v: nat)
    ensures v in RemoveStorageIndex(s, removed) <==>
      (v < removed && v in s) || (v >= removed && v + 1 in s)
    decreases |s|
  {
    if |s| > 0 {
      RemoveMembership(s[1..], removed, v);
      assert v in s <==> v == s[0] || v in s[1..];
      assert v + 1 in s <==> v + 1 == s[0] || v + 1 in s[1..];
    }
  }

  lemma {:induction false} RemoveKeepsDistinct(s: seq<nat>, removed: nat)
    requires Distinct(s)
    ensures Distinct(RemoveStorageIndex(s, removed))
    decreases |s|
  {
    if |s| > 0 {
      DistinctTail(s);
      RemoveKeepsDistinct(s[1..], removed);
      var rest := RemoveStorageIndex(s[1..], removed);
      if s[0] != removed {
        var h: nat := if s[0] > removed then s[0] - 1 else s[0];
        RemoveMembership(s[1..], removed, h);
        var r := [h] + rest;
        forall i, j | 0 <= i < j < |r| ensures r[i] != r[j] {
          if i == 0 {
            assert r[j] == rest[j - 1];
          }
        }
      }
    }
  }

  /** Removing storage index `removed` from a permutation of `0 .. n - 1`
      gives a permutation of `0 .. n - 2`. */
  lemma RemoveKeepsPermutation(s: seq<nat>, n: nat, removed: nat)
    requires IsPermutation(s, n) && removed < n
    ensures IsPermutation(RemoveStorageIndex(s, removed), n - 1)
  {
    RemoveKeepsDistinct(s, removed);
    forall v: nat ensures v in RemoveStorageIndex(s, removed) <==> v < n - 1 {
      RemoveMembership(s, removed, v);
    }
  }

  /** `OnListCount_` on the indices: unchanged at the same count, the new
      storage indices appended when growing, and the indices past the new
      count dropped when shrinking. */
  function ResizeIndices(s: seq<nat>, count: nat): (r: seq<nat>)
    ensures count > |s| ==> r == s + Range(|s|, count)
    ensures count == |s| ==> r == s
    ensures count < |s| ==> r == KeepBelow(s, count)
  {
    if count == |s| then s
    else if count > |s| then s + Range(|s|, count)
    else KeepBelow(s, count)
  }

  /** The indices below `count`, in their order. */
  function KeepBelow(s: seq<nat>, count: nat): (r: seq<nat>)
    ensures forall v: nat :: v in r <==> v in s && v < count
    ensures |r| <= |s|
    decreases |s|
  {
    if |s| == 0 then []
    else if s[0] < count then [s[0]] + KeepBelow(s[1..], count)
    else KeepBelow(s[1..], count)
  }

  lemma {:induction false} KeepBelowDistinct(s: seq<nat>, count: nat)
    requires Distinct(s)
    ensures Distinct(KeepBelow(s, count))
    decreases |s|
  {
    if |s| > 0 {
      DistinctTail(s);
      KeepBelowDistinct(s[1..], count);
      if s[0] < count {
        var rest := KeepBelow(s[1..], count);
        var r := [s[0]] + rest;
        forall i, j | 0 <= i < j < |r| ensures r[i] != r[j] {
          if i == 0 {
            assert r[j] == rest[j - 1];
          }
        }
      }
    }
  }

  /** Resizing keeps `indices` a permutation of the new count. */
  lemma ResizeKeepsPermutation(s: seq<nat>, n: nat, count: nat)
    requires IsPermutation(s, n)
    ensures IsPermutation(ResizeIndices(s, count), count)
  {
    PermutationLength(s, n);
    if count > n {
      var r := s + Range(n, count);
      forall v: nat ensures v in r <==> v < count {
        if n <= v < count {
          assert Range(n, count)[v - n] == v;
        }
      }
      forall i, j | 0 <= i < j < |r| ensures r[i] != r[j] {
        if j >= n {
          if i < n {
            assert r[i] in s;
          }
        }
      }
    } else if count < n {
      KeepBelowDistinct(s, count);
    }
  }

  /** Shrinking keeps the remaining indices in their order: the kept
      ones are a subsequence of the original. */
  lemma {:induction false} KeepBelowIsOrdered(s: seq<nat>, count: nat, i: nat, j: nat)
    requires i < j < |KeepBelow(s, count)|
    ensures exists a, b :: 0 <= a < b < |s| && s[a] == KeepBelow(s, count)[i] && s[b] == KeepBelow(s, count)[j]
    decreases |s|
  {
    var r := KeepBelow(s, count);
    if s[0] < count {
      if i == 0 {
        assert r[j] == KeepBelow(s[1..], count)[j - 1];
        assert r[j] in KeepBelow(s[1..], count);
        assert r[j] in s[1..];
        var b :| 0 <= b < |s[1..]| && s[1..][b] == r[j];
        assert s[0] == r[0] && s[b + 1] == r[j];
      } else {
        KeepBelowIsOrdered(s[1..], count, i - 1, j - 1);
        var a, b :| 0 <= a < b < |s[1..]| && s[1..][a] == r[i] && s[1..][b] == r[j];
        assert s[a + 1] == r[i] && s[b + 1] == r[j];
      }
    } else {
      KeepBelowIsOrdered(s[1..], count, i, j);
      var a, b :| 0 <= a < b < |s[1..]| && s[1..][a] == r[i] && s[1..][b] == r[j];
      assert s[a + 1] == r[i] && s[b + 1] == r[j];
    }
  }

  // ---------------------------------------------------------------------
  // Ordered access

  /** `at(i)`: `list.at(indices.at(i))`, each `at` failing with
      `out_of_range`. */
  function OrderedAt<T>(list: seq<T>, indices: seq<nat>, i: nat): (r: Result<T>)
    ensures r.Err? <==> i >= |indices| || indices[i] >= |list|
    ensures r.Err? ==> r.error == OutOfRange
    ensures r.Ok? ==> r.value == list[indices[i]]
  {
    if i >= |indices| || indices[i] >= |list| then Err(OutOfRange) else Ok(list[indices[i]])
  }

  /** The reverse iterator at step `k` reads `indices.at(count - k - 1)`;
      past the end the unsigned subtraction wraps and `at` fails. */
  function ReverseAt<T>(list: seq<T>, indices: seq<nat>, k: nat): (r: Result<T>)
    ensures k < |indices| ==> r == OrderedAt(list, indices, |indices| - k - 1)
    ensures k >= |indices| ==> r == Err(OutOfRange)
  {
    if k >= |indices| then Err(OutOfRange) else OrderedAt(list, indices, |indices| - k - 1)
  }

  /** The list as displayed. */
  function Ordered<T>(list: seq<T>, indices: seq<nat>): (r: seq<T>)
    requires forall i :: 0 <= i < |indices| ==> indices[i] < |list|
    ensures |r| == |indices|
    ensures forall i :: 0 <= i < |indices| ==> OrderedAt(list, indices, i) == Ok(r[i])
  {
    seq(|indices|, i requires 0 <= i < |indices| => list[indices[i]])
  }

  /** Reverse iteration reads the displayed list backwards. */
  lemma ReverseReadsBackwards<T>(list: seq<T>, indices: seq<nat>, k: nat)
    requires forall i :: 0 <= i < |indices| ==> indices[i] < |list|
    requires k < |indices|
    ensures ReverseAt(list, indices, k) == Ok(Ordered(list, indices)[|indices| - 1 - k])
  {
  }

  /** `AssignItem(index, item)`: the item displayed at `index` is
      replaced in storage. */
  function AssignItem<T>(list: seq<T>, indices: seq<nat>, index: nat, item: T): (r: Result<seq<T>>)
    ensures r.Err? <==> OrderedAt(list, indices, index).Err?
    ensures r.Err? ==> r.error == OutOfRange
    ensures r.Ok? ==> |r.value| == |list| && OrderedAt(r.value, indices, index) == Ok(item)
    ensures r.Ok? ==> forall j :: 0 <= j < |list| && j != indices[index] ==> r.value[j] == list[j]
  {
    if index >= |indices| || indices[index] >= |list| then Err(OutOfRange)
    else Ok(list[indices[index] := item])
  }

  // ---------------------------------------------------------------------
  // The ordered list as a whole

  datatype OrderedList<T> = OrderedList(list: seq<T>, indices: seq<nat>)

  ghost predicate Valid<T>(o: OrderedList<T>) {
    IsPermutation(o.indices, |o.list|)
  }

  /** `Prepend`: append to storage, which gives the new item the next
      storage index at the end of `indices`, then move it to the top. */
  function Prepend<T>(o: OrderedList<T>, item: T): (r: (OrderedList<T>, nat))
    requires Valid(o)
    ensures r.1 == |o.list|
    ensures r.0.list == o.list + [item]
    ensures r.0.indices == [|o.list|] + o.indices
  {
    PermutationLength(o.indices, |o.list|);
    var n := |o.list|;
    var grown := ResizeIndices(o.indices, n + 1);
    assert grown == o.indices + [n];
    assert forall j :: 0 <= j < n ==> grown[j] == o.indices[j] && o.indices[j] in o.indices;
    FindAt(grown, n, n);
    assert EraseAt(grown, n) == o.indices;
    var moved := if |grown| < 2 then grown else MoveToTop(grown, n).value;
    assert |grown| < 2 ==> moved == [n] + o.indices;
    (OrderedList(o.list + [item], moved), n)
  }

  /** After `Prepend` the new item is displayed first and the list is
      still consistent. */
  lemma PrependShowsFirst<T>(o: OrderedList<T>, item: T)
    requires Valid(o)
    ensures var (o', _) := Prepend(o, item);
      Valid(o') && OrderedAt(o'.list, o'.indices, 0) == Ok(item)
  {
    var (o', _) := Prepend(o, item);
    PrependKeepsPermutation(o.indices, |o.list|);
  }

  /** A new largest index in front of a permutation gives a permutation
      one longer. */
  lemma PrependKeepsPermutation(s: seq<nat>, n: nat)
    requires IsPermutation(s, n)
    ensures IsPermutation([n] + s, n + 1)
  {
    var t := [n] + s;
    forall i, j | 0 <= i < j < |t| ensures t[i] != t[j] {
      assert t[j] == s[j - 1] && s[j - 1] in s;
      if i > 0 {
        assert t[i] == s[i - 1];
      }
    }
  }

  // ---------------------------------------------------------------------
  // OrderedList::Control

  /** The operations a control forwards to its model. */
  datatype Forwarded = ForwardMoveToTop(x: nat) | ForwardMoveToBottom(x: nat) | ForwardPrepend

  /** A control without a model refuses to forward: `Prepend` with
      `PexError`, the moves with `logic_error`. */
  function ControlForward(hasUpstream: bool, op: Forwarded): (r: Result<Forwarded>)
    ensures r.Err? <==> !hasUpstream
    ensures r.Err? ==> r.error == (if op.ForwardPrepend? then PexError else LogicError)
    ensures r.Ok? ==> r.value == op
  {
    if !hasUpstream then Err(if op.ForwardPrepend? then PexError else LogicError) else Ok(op)
  }
}
