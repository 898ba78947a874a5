/** The C++ callback lists: a `Connection` pairs an observer address with a
    callable, `NotifyMany` keeps any number of connections sorted by
    observer, and `NotifyOne` holds at most one.

  Observers are their addresses and callables are opaque identities; a
  notification is recorded as the call it makes.
 */
module Connections {
  import opened Wrappers

  /** An observer's address. */
  type Observer = nat

  /** A callable, by identity; 0 is the value-initialised callable. */
  type Callable = nat

  const NoCallable: Callable := 0

  datatype Connection = Connection(observer: Observer, callable: Callable)

  /** One invocation of a connection's callable. */
  datatype Call = Call(observer: Observer, callable: Callable, value: int)

  /** The observer-only constructor: a search key. */
  function SearchKey(o: Observer): (c: Connection)
    ensures c.observer == o && c.callable == NoCallable
  {
    Connection(o, NoCallable)
  }

  /** `Compare<Operator>` compares the observer addresses only, so `<`
      and `==` ignore the callable. */
  predicate Less(a: Connection, b: Connection) { a.observer < b.observer }
  predicate Equivalent(a: Connection, b: Connection) { a.observer == b.observer }

  /** Any two connections to the same observer are equal in the sense of
      the comparison, whatever their callables; in particular the search
      key equals every connection of its observer. */
  lemma CompareIgnoresCallable(a: Connection, b: Connection, f: Callable, g: Callable)
    ensures Less(a, b) == Less(a.(callable := f), b.(callable := g))
    ensures Equivalent(a, b) == Equivalent(a.(callable := f), b.(callable := g))
    ensures Equivalent(SearchKey(a.observer), a)
    ensures Equivalent(a, b) <==> !Less(a, b) && !Less(b, a)
  {
  }

  // ---------------------------------------------------------------------
  // NotifyMany

  ghost predicate Sorted(s: seq<Connection>) {
    forall i, j :: 0 <= i < j < |s| ==> s[i].observer <= s[j].observer
  }

  /** `std::upper_bound`: the first position whose observer is above `o`. */
  function UpperBound(s: seq<Connection>, o: Observer): (k: nat)
    ensures k <= |s|
    ensures forall i :: 0 <= i < k ==> s[i].observer <= o
    ensures k < |s| ==> s[k].observer > o
  {
    if |s| == 0 || s[0].observer > o then 0 else 1 + UpperBound(s[1..], o)
  }

  /** `std::lower_bound`: the first position whose observer is not below
      `o`. */
  function LowerBound(s: seq<Connection>, o: Observer): (k: nat)
    ensures k <= |s|
    ensures forall i :: 0 <= i < k ==> s[i].observer < o
    ensures k < |s| ==> s[k].observer >= o
  {
    if |s| == 0 || s[0].observer >= o then 0 else 1 + LowerBound(s[1..], o)
  }

  /** On a sorted list the bounds split it into below, equal and above. */
  lemma BoundsOfSorted(s: seq<Connection>, o: Observer)
    requires Sorted(s)
    ensures LowerBound(s, o) <= UpperBound(s, o)
    ensures forall i :: 0 <= i < |s| ==>
      (s[i].observer == o <==> LowerBound(s, o) <= i < UpperBound(s, o))
  {
  }

  /** Any split point of a sorted list at `o` is the upper bound. */
  lemma {:induction false} UpperBoundUnique(s: seq<Connection>, o: Observer, k: nat)
    requires k <= |s|
    requires forall i :: 0 <= i < k ==> s[i].observer <= o
    requires k < |s| ==> s[k].observer > o
    ensures UpperBound(s, o) == k
    decreases |s|
  {
    if k > 0 {
      UpperBoundUnique(s[1..], o, k - 1);
    }
  }

  /** The binary search `std::upper_bound` runs. */
  method UpperBoundSearch(s: seq<Connection>, o: Observer) returns (k: nat)
    requires Sorted(s)
    ensures k == UpperBound(s, o)
  {
    var lo, hi := 0, |s|;
    while lo < hi
      invariant 0 <= lo <= hi <= |s|
      invariant forall i :: 0 <= i < lo ==> s[i].observer <= o
      invariant forall i :: hi <= i < |s| ==> s[i].observer > o
      decreases hi - lo
    {
      var mid := lo + (hi - lo) / 2;
      if s[mid].observer <= o {
        lo := mid + 1;
      } else {
        hi := mid;
      }
    }
    UpperBoundUnique(s, o, lo);
    k := lo;
  }

  /** `Connect(observer, callable)`: the sorted insert at the upper bound;
      removing the new entry gives the list back. */
  function Connect(s: seq<Connection>, o: Observer, f: Callable): (r: seq<Connection>)
    ensures |r| == |s| + 1
    ensures r[UpperBound(s, o)] == Connection(o, f)
    ensures r[..UpperBound(s, o)] == s[..UpperBound(s, o)]
    ensures r[UpperBound(s, o) + 1..] == s[UpperBound(s, o)..]
    ensures multiset(r) == multiset(s) + multiset{Connection(o, f)}
  {
    var k := UpperBound(s, o);
    assert s == s[..k] + s[k..];
    s[..k] + [Connection(o, f)] + s[k..]
  }

  /** The insert keeps the list sorted, and the new entry comes after
      every earlier connection of the same observer. */
  lemma ConnectKeepsSorted(s: seq<Connection>, o: Observer, f: Callable)
    requires Sorted(s)
    ensures Sorted(Connect(s, o, f))
    ensures forall i :: 0 <= i < UpperBound(s, o) ==> Connect(s, o, f)[i].observer <= o
    ensures forall i :: UpperBound(s, o) < i < |s| + 1 ==> Connect(s, o, f)[i].observer > o
  {
    var k := UpperBound(s, o);
    forall i, j | 0 <= i < j < |s| + 1
      ensures Connect(s, o, f)[i].observer <= Connect(s, o, f)[j].observer
    {
      ConnectPairSorted(s, o, f, i, j);
    }
    forall i | 0 <= i < |s| + 1 ensures i < k ==> Connect(s, o, f)[i].observer <= o
      ensures k < i ==> Connect(s, o, f)[i].observer > o
    {
      ConnectAt(s, o, f, i);
      if k < i - 1 {
        assert s[k].observer <= s[i - 1].observer;
      }
    }
  }

  lemma ConnectPairSorted(s: seq<Connection>, o: Observer, f: Callable, i: nat, j: nat)
    requires Sorted(s) && i < j < |s| + 1
    ensures Connect(s, o, f)[i].observer <= Connect(s, o, f)[j].observer
  {
    var k := UpperBound(s, o);
    ConnectAt(s, o, f, i);
    ConnectAt(s, o, f, j);
    if j < k {
      assert s[i].observer <= s[j].observer;
    } else if k < i {
      assert s[i - 1].observer <= s[j - 1].observer;
    } else if i == k && k + 1 < j {
      assert s[k].observer <= s[j - 1].observer;
    }
  }

  /** Position `i` after the insert: the old entry before the insert
      point, the new one at it, the old entry one earlier after it. */
  lemma ConnectAt(s: seq<Connection>, o: Observer, f: Callable, i: nat)
    requires i < |s| + 1
    ensures var k := UpperBound(s, o);
      Connect(s, o, f)[i] == if i < k then s[i] else if i == k then Connection(o, f) else s[i - 1]
  {
    var k, r := UpperBound(s, o), Connect(s, o, f);
    if i < k {
      assert r[i] == r[..k][i];
    } else if k < i {
      assert r[i] == r[k + 1..][i - k - 1];
    }
  }

  /** The connections not made by `o`, in their order. */
  function Without(s: seq<Connection>, o: Observer): (r: seq<Connection>)
    ensures |r| <= |s|
  {
    if |s| == 0 then []
    else if s[0].observer == o then Without(s[1..], o)
    else [s[0]] + Without(s[1..], o)
  }

  /** No connection of `o` is left, and every other one is kept. */
  lemma {:induction false} WithoutDropsObserver(s: seq<Connection>, o: Observer)
    ensures forall c :: c in Without(s, o) <==> c in s && c.observer != o
    decreases |s|
  {
    if |s| > 0 {
      WithoutDropsObserver(s[1..], o);
      assert s == [s[0]] + s[1..];
    }
  }

  lemma {:induction false} WithoutAppend(a: seq<Connection>, b: seq<Connection>, o: Observer)
    ensures Without(a + b, o) == Without(a, o) + Without(b, o)
    decreases |a|
  {
    if |a| > 0 {
      assert (a + b)[0] == a[0] && (a + b)[1..] == a[1..] + b;
      WithoutAppend(a[1..], b, o);
      if a[0].observer != o {
        calc {
          Without(a + b, o);
          [a[0]] + Without(a[1..] + b, o);
          [a[0]] + (Without(a[1..], o) + Without(b, o));
          ([a[0]] + Without(a[1..], o)) + Without(b, o);
        }
      }
    } else {
      assert a + b == b;
    }
  }

  lemma {:induction false} WithoutNone(s: seq<Connection>, o: Observer)
    requires forall i :: 0 <= i < |s| ==> s[i].observer != o
    ensures Without(s, o) == s
    decreases |s|
  {
    if |s| > 0 {
      WithoutNone(s[1..], o);
    }
  }

  lemma WithoutAbsent(s: seq<Connection>, o: Observer)
    ensures (forall i :: 0 <= i < |s| ==> s[i].observer != o) ==> Without(s, o) == s
  {
    if forall i :: 0 <= i < |s| ==> s[i].observer != o {
      WithoutNone(s, o);
    }
  }

  lemma {:induction false} WithoutAll(s: seq<Connection>, o: Observer)
    requires forall i :: 0 <= i < |s| ==> s[i].observer == o
    ensures Without(s, o) == []
    decreases |s|
  {
    if |s| > 0 {
      WithoutAll(s[1..], o);
    }
  }

  /** Erasing the equal range of a sorted list drops exactly the
      observer's connections. */
  lemma EqualRangeErase(s: seq<Connection>, o: Observer)
    requires Sorted(s)
    ensures LowerBound(s, o) <= UpperBound(s, o)
    ensures s[..LowerBound(s, o)] + s[UpperBound(s, o)..] == Without(s, o)
  {
    BoundsOfSorted(s, o);
    EraseBlock(s, o, LowerBound(s, o), UpperBound(s, o));
  }

  /** Erasing the one block that holds the observer's connections. */
  lemma EraseBlock(s: seq<Connection>, o: Observer, lo: nat, hi: nat)
    requires lo <= hi <= |s|
    requires forall i :: 0 <= i < |s| ==> (s[i].observer == o <==> lo <= i < hi)
    ensures s[..lo] + s[hi..] == Without(s, o)
  {
    var a, m, b := s[..lo], s[lo..hi], s[hi..];
    assert s == a + m + b;
    forall i | 0 <= i < |a| ensures a[i].observer != o { assert a[i] == s[i]; }
    forall i | 0 <= i < |m| ensures m[i].observer == o { assert m[i] == s[lo + i]; }
    forall i | 0 <= i < |b| ensures b[i].observer != o { assert b[i] == s[hi + i]; }
    WithoutAppend(a + m, b, o);
    WithoutAppend(a, m, o);
    WithoutNone(a, o);
    WithoutAll(m, o);
    WithoutNone(b, o);
  }

  /** Dropping elements keeps a list sorted. */
  lemma SortedErase(s: seq<Connection>, lo: nat, hi: nat)
    requires Sorted(s) && lo <= hi <= |s|
    ensures Sorted(s[..lo] + s[hi..])
  {
    var r := s[..lo] + s[hi..];
    forall i, j | 0 <= i < j < |r|
      ensures r[i].observer <= r[j].observer
    {
      var i' := if i < lo then i else i - lo + hi;
      var j' := if j < lo then j else j - lo + hi;
      assert r[i] == s[i'] && r[j] == s[j'];
    }
  }

  /** `Disconnect(observer)`: erase the `equal_range` of the observer's
      search key. */
  function Disconnect(s: seq<Connection>, o: Observer): (r: seq<Connection>)
    requires Sorted(s)
    ensures r == Without(s, o)
    ensures Sorted(r)
    ensures (forall i :: 0 <= i < |s| ==> s[i].observer != o) ==> r == s
  {
    EqualRangeErase(s, o);
    SortedErase(s, LowerBound(s, o), UpperBound(s, o));
    WithoutAbsent(s, o);
    s[..LowerBound(s, o)] + s[UpperBound(s, o)..]
  }

  /** How many connections `o` holds. */
  function Count(s: seq<Connection>, o: Observer): nat {
    if |s| == 0 then 0 else (if s[0].observer == o then 1 else 0) + Count(s[1..], o)
  }

  lemma {:induction false} CountAppend(a: seq<Connection>, b: seq<Connection>, o: Observer)
    ensures Count(a + b, o) == Count(a, o) + Count(b, o)
    decreases |a|
  {
    if |a| > 0 {
      assert (a + b)[0] == a[0] && (a + b)[1..] == a[1..] + b;
      CountAppend(a[1..], b, o);
    } else {
      assert a + b == b;
    }
  }

  /** `Connect` adds one connection of its observer and none of another. */
  lemma CountConnect(s: seq<Connection>, o: Observer, f: Callable, p: Observer)
    ensures Count(Connect(s, o, f), p) == Count(s, p) + (if p == o then 1 else 0)
  {
    var k := UpperBound(s, o);
    var a, b := s[..k], s[k..];
    assert s == a + b;
    assert Connect(s, o, f) == a + [Connection(o, f)] + b;
    CountAppend(a + [Connection(o, f)], b, p);
    CountAppend(a, [Connection(o, f)], p);
    CountAppend(a, b, p);
  }

  /** Dropping an observer leaves it no connection and every other
      observer all of its own. */
  lemma {:induction false} CountWithout(s: seq<Connection>, o: Observer, p: Observer)
    ensures Count(Without(s, o), p) == (if p == o then 0 else Count(s, p))
    decreases |s|
  {
    if |s| > 0 {
      CountWithout(s[1..], o, p);
      if s[0].observer != o {
        assert ([s[0]] + Without(s[1..], o))[1..] == Without(s[1..], o);
      }
    }
  }

  /** `GetNotifierCount`. */
  function GetNotifierCount(s: seq<Connection>): nat { |s| }

  /** `Notify_(value)`: every connection once, in list order, with the
      same value. */
  function NotifyMany(s: seq<Connection>, v: int): (calls: seq<Call>)
    ensures |calls| == |s|
    ensures forall i :: 0 <= i < |s| ==> calls[i] == Call(s[i].observer, s[i].callable, v)
  {
    seq(|s|, i requires 0 <= i < |s| => Call(s[i].observer, s[i].callable, v))
  }

  /** Connecting adds one connection and keeps duplicates; disconnecting
      undoes every connection of the observer, and afterwards no call
      reaches it. */
  lemma ConnectDisconnect(s: seq<Connection>, o: Observer, f: Callable, v: int)
    requires Sorted(s)
    ensures GetNotifierCount(Connect(s, o, f)) == GetNotifierCount(s) + 1
    ensures Disconnect(Connect(s, o, f), o) == Disconnect(s, o)
    ensures forall c :: c in NotifyMany(Disconnect(s, o), v) ==> c.observer != o
  {
    WithoutDropsObserver(s, o);
    ConnectKeepsSorted(s, o, f);
    var k := UpperBound(s, o);
    WithoutInsert(s, k, Connection(o, f));
    assert Connect(s, o, f) == s[..k] + [Connection(o, f)] + s[k..];
  }

  /** Inserting a connection of `c.observer` anywhere is undone by
      dropping that observer's connections. */
  lemma WithoutInsert(s: seq<Connection>, k: nat, c: Connection)
    requires k <= |s|
    ensures Without(s[..k] + [c] + s[k..], c.observer) == Without(s, c.observer)
  {
    var o := c.observer;
    var p, q := s[..k], s[k..];
    assert s == p + q;
    assert [c][1..] == [];
    assert Without([c], o) == [];
    WithoutAppend(p, [c], o);
    assert Without(p + [c], o) == Without(p, o);
    WithoutAppend(p + [c], q, o);
    WithoutAppend(p, q, o);
  }

  // ---------------------------------------------------------------------
  // NotifyOne

  /** The single slot of a `NotifyOne`. */
  datatype Slot = Slot(connection: Option<Connection>)

  /** `Connect`: replaces whatever the slot held. */
  function ConnectOne(slot: Slot, o: Observer, f: Callable): (slot': Slot)
    ensures HasConnection(slot') && HasObserver(slot', o)
    ensures GetCallable(slot') == Ok(f)
  {
    Slot(Some(Connection(o, f)))
  }

  /** `Disconnect(observer)`: clears the slot; a debug build asserts that
      a held connection belongs to `observer`. */
  function DisconnectOne(slot: Slot, o: Observer): (r: Result<Slot>)
    ensures r.Err? <==> HasConnection(slot) && !HasObserver(slot, o)
    ensures r.Err? ==> r.error == AssertionError
    ensures r.Ok? ==> !HasConnection(r.value)
  {
    if slot.connection.Some? && slot.connection.value.observer != o then Err(AssertionError)
    else Ok(Slot(None))
  }

  function HasConnection(slot: Slot): bool { slot.connection.Some? }

  function HasObserver(slot: Slot, o: Observer): bool {
    slot.connection.Some? && slot.connection.value.observer == o
  }

  /** `GetCallable_`: logic_error without a connection. */
  function GetCallable(slot: Slot): (r: Result<Callable>)
    ensures r.Err? <==> !HasConnection(slot)
    ensures r.Err? ==> r.error == LogicError
  {
    if slot.connection.None? then Err(LogicError) else Ok(slot.connection.value.callable)
  }

  /** `Notify_(value)`: one call when connected, none otherwise. */
  function NotifyOne(slot: Slot, v: int): (calls: seq<Call>)
    ensures |calls| <= 1
    ensures |calls| == 1 <==> HasConnection(slot)
    ensures |calls| == 1 ==>
      HasObserver(slot, calls[0].observer) && GetCallable(slot) == Ok(calls[0].callable)
      && calls[0].value == v
  {
    match slot.connection
    case None => []
    case Some(c) => [Call(c.observer, c.callable, v)]
  }

  /** The destructor: an assertion failure while still connected. */
  function DestroyOne(slot: Slot): (r: Result<()>)
    ensures r.Err? <==> HasConnection(slot)
    ensures r.Err? ==> r.error == AssertionError
  {
    if slot.connection.Some? then Err(AssertionError) else Ok(())
  }

  /** A second connection replaces the first, so only the last observer
      is notified; disconnecting it leaves a slot that can be destroyed. */
  lemma LastConnectionWins(slot: Slot, a: Observer, f: Callable, b: Observer, g: Callable, v: int)
    ensures var s := ConnectOne(ConnectOne(slot, a, f), b, g);
      NotifyOne(s, v) == [Call(b, g, v)]
      && (HasObserver(s, a) <==> a == b)
      && DisconnectOne(s, b).Ok? && DestroyOne(DisconnectOne(s, b).value).Ok?
      && DestroyOne(s).Err?
  {
  }
}
