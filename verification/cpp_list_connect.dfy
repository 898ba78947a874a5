/** The C++ `ListConnect`: one observer watches a whole list of values.

  Each list index has its own item connection; an item change stores
  the item in a cache of the list and tells the observer, unless the list
  is muted or in the middle of notifying all its members, in which case
  one group notification follows when that phase ends. The list itself
  is a parameter: its current values are passed in where the source
  reads them, and its count is their number.
 */
module ListConnects {
  import opened Wrappers
  import opened Connections
  import opened Mutes

  /** A value or signal connection: the observer it was made with, which
      may be null, and its callable. */
  datatype ListCallback = ListCallback(observer: Option<Observer>, callable: Callable)

  /** The state of a `ListConnect`. `connectables` holds the indices with
      an item connection. */
  datatype ListConnect = ListConnect(
    observer: Option<Observer>,
    valueConnection: Option<ListCallback>,
    signalConnection: Option<ListCallback>,
    muteState: MuteState,
    isNotifying: bool,
    cached: seq<int>,
    connectables: set<nat>)

  /** What reaches the observer, in order. */
  datatype ListEvent =
    | ValueNotified(observer: Option<Observer>, callable: Callable, values: seq<int>)
    | SignalNotified(observer: Option<Observer>, callable: Callable)

  /** The two kinds of callback an observer may connect. */
  datatype Callback = ValueCallback(f: Callable) | SignalCallback(f: Callable)

  /** Whether any callback is connected. */
  predicate HasCallback(l: ListConnect) {
    l.valueConnection.Some? || l.signalConnection.Some?
  }

  /** The indices `0 .. count - 1`. */
  function Indices(count: nat): (r: set<nat>)
    ensures forall i: nat :: i in r <==> i < count
  {
    if count == 0 then {} else Indices(count - 1) + {count - 1}
  }

  /** One group notification: the value callback with the cache, then the
      signal callback. */
  function GroupNotify(l: ListConnect): (events: seq<ListEvent>)
    ensures |events| == (if l.valueConnection.Some? then 1 else 0) + (if l.signalConnection.Some? then 1 else 0)
    ensures l.valueConnection.Some? ==>
      events[0] == ValueNotified(l.valueConnection.value.observer, l.valueConnection.value.callable, l.cached)
    ensures l.signalConnection.Some? ==>
      events[|events| - 1] == SignalNotified(l.signalConnection.value.observer, l.signalConnection.value.callable)
  {
    (match l.valueConnection
     case None => []
     case Some(c) => [ValueNotified(c.observer, c.callable, l.cached)])
    + (match l.signalConnection
       case None => []
       case Some(c) => [SignalNotified(c.observer, c.callable)])
  }

  /** `MakeListConnections_`: one item connection per index of the list;
      nothing for an empty list. An index that already has one fails the
      debug assertion on `try_emplace`. */
  function MakeListConnections(connectables: set<nat>, count: nat): (r: Result<set<nat>>)
    ensures r.Err? <==> exists i: nat :: i in connectables && i < count
    ensures r.Err? ==> r.error == AssertionError
    ensures r.Ok? ==> r.value == connectables + Indices(count)
  {
    if exists i: nat :: i in connectables && i < count then Err(AssertionError)
    else Ok(connectables + Indices(count))
  }

  /** The default constructor: no list, no observer, nothing connected. */
  function DefaultListConnect(): (l: ListConnect)
    ensures !HasCallback(l) && l.observer.None? && l.connectables == {}
    ensures l.cached == [] && l.muteState == Unmuted && !l.isNotifying
  {
    ListConnect(None, None, None, Unmuted, false, [], {})
  }

  /** The constructors: the cache is the list's values, the given callback
      is connected with the given observer, null or not, and item
      connections are made when a callback is given. */
  function NewListConnect(observer: Option<Observer>, values: seq<int>, mute: MuteState, callback: Option<Callback>)
    : (l: ListConnect)
    ensures l.cached == values && l.muteState == mute && !l.isNotifying && l.observer == observer
    ensures l.connectables == (if callback.Some? then Indices(|values|) else {})
    ensures HasCallback(l) <==> callback.Some?
    ensures l.valueConnection ==
      (if callback.Some? && callback.value.ValueCallback? then Some(ListCallback(observer, callback.value.f)) else None)
    ensures l.signalConnection ==
      (if callback.Some? && callback.value.SignalCallback? then Some(ListCallback(observer, callback.value.f)) else None)
  {
    var l := ListConnect(observer, None, None, mute, false, values, {});
    match callback
    case None => l
    case Some(ValueCallback(f)) =>
      l.(valueConnection := Some(ListCallback(observer, f)), connectables := Indices(|values|))
    case Some(SignalCallback(f)) =>
      l.(signalConnection := Some(ListCallback(observer, f)), connectables := Indices(|values|))
  }

  /** A connection re-made for another observer with the same callable. */
  function Rebind(c: Option<ListCallback>, observer: Option<Observer>): (r: Option<ListCallback>)
    ensures r.Some? <==> c.Some?
    ensures r.Some? ==> r.value.observer == observer && r.value.callable == c.value.callable
  {
    if c.None? then None else Some(ListCallback(observer, c.value.callable))
  }

  /** `ListConnect(observer, other)`: a fresh connection to `other`'s list
      for `observer`, with `other`'s mute state and the list's values as
      its cache, never in a notifying phase. Each callback `other` has is
      re-made for `observer`, and item connections follow when there is
      one. The copy constructor passes `other`'s own observer. */
  function CopyListConnect(observer: Option<Observer>, other: ListConnect, values: seq<int>): (l: ListConnect)
    ensures l.observer == observer && l.muteState == other.muteState && l.cached == values && !l.isNotifying
    ensures l.valueConnection == Rebind(other.valueConnection, observer)
    ensures l.signalConnection == Rebind(other.signalConnection, observer)
    ensures HasCallback(l) <==> HasCallback(other)
    ensures l.connectables == (if HasCallback(other) then Indices(|values|) else {})
  {
    var l := ListConnect(observer, Rebind(other.valueConnection, observer),
      Rebind(other.signalConnection, observer), other.muteState, false, values, {});
    if HasCallback(other) then l.(connectables := Indices(|values|)) else l
  }

  /** `Assign(observer, other)`, and `operator=` with `other`'s observer:
      the item connections are cleared; each callback `other` has is
      re-made for `observer`, while a kind `other` lacks keeps this
      object's own callback; item connections are re-made, for the `count`
      members of the list, only when `other` has a callback; the mute
      state, notifying flag and cache become `other`'s. */
  function AssignListConnect(l: ListConnect, observer: Option<Observer>, other: ListConnect, count: nat): (l': ListConnect)
    ensures l'.observer == observer && l'.muteState == other.muteState
    ensures l'.isNotifying == other.isNotifying && l'.cached == other.cached
    ensures l'.valueConnection ==
      (if other.valueConnection.Some? then Rebind(other.valueConnection, observer) else l.valueConnection)
    ensures l'.signalConnection ==
      (if other.signalConnection.Some? then Rebind(other.signalConnection, observer) else l.signalConnection)
    ensures l'.connectables == (if HasCallback(other) then Indices(count) else {})
  {
    var cleared := l.(connectables := {});
    var value := if other.valueConnection.Some? then Rebind(other.valueConnection, observer) else l.valueConnection;
    var signal := if other.signalConnection.Some? then Rebind(other.signalConnection, observer) else l.signalConnection;
    var made := if HasCallback(other) then MakeListConnections(cleared.connectables, count).value else {};
    ListConnect(observer, value, signal, other.muteState, other.isNotifying, other.cached, made)
  }

  /** Copying and assigning into a default `ListConnect` agree when the
      source is out of any notifying phase and its cache is the list's
      values; but an assignment from a `ListConnect` without callbacks
      keeps the target's callbacks while dropping their item
      connections. */
  lemma CopyAgreesWithAssign(observer: Option<Observer>, other: ListConnect, l: ListConnect)
    requires !other.isNotifying
    ensures AssignListConnect(DefaultListConnect(), observer, other, |other.cached|)
      == CopyListConnect(observer, other, other.cached)
    ensures !HasCallback(other) ==>
      var l' := AssignListConnect(l, observer, other, |other.cached|);
      l'.valueConnection == l.valueConnection && l'.signalConnection == l.signalConnection
      && l'.connectables == {}
  {
  }

  /** `Connect(callable)`: `runtime_error` without an observer; otherwise
      the callback replaces any of its kind, and item connections are made
      when there are none. */
  function ListConnectCallback(l: ListConnect, callback: Callback, count: nat): (r: Result<ListConnect>)
    ensures r.Err? <==> l.observer.None?
    ensures r.Err? ==> r.error == RuntimeError
    ensures r.Ok? ==> HasCallback(r.value) && r.value.cached == l.cached && r.value.muteState == l.muteState
    ensures r.Ok? ==> r.value.connectables == (if l.connectables == {} then Indices(count) else l.connectables)
    ensures r.Ok? && callback.ValueCallback? ==>
      r.value.valueConnection == Some(ListCallback(l.observer, callback.f))
      && r.value.signalConnection == l.signalConnection
    ensures r.Ok? && callback.SignalCallback? ==>
      r.value.signalConnection == Some(ListCallback(l.observer, callback.f))
      && r.value.valueConnection == l.valueConnection
  {
    if l.observer.None? then Err(RuntimeError)
    else
      var c := ListCallback(l.observer, callback.f);
      var l1 := if callback.ValueCallback? then l.(valueConnection := Some(c)) else l.(signalConnection := Some(c));
      if l.connectables == {} then Ok(l1.(connectables := Indices(count))) else Ok(l1)
  }

  /** `Connect(observer, callable)`: the observer is stored first, so a
      null one makes the `Connect` that follows throw. */
  function ListConnectWith(l: ListConnect, observer: Option<Observer>, callback: Callback, count: nat): (r: Result<ListConnect>)
    ensures r.Err? <==> observer.None?
    ensures r.Ok? ==> r.value.observer == observer
    ensures r.Ok? && callback.ValueCallback? ==> r.value.valueConnection == Some(ListCallback(observer, callback.f))
    ensures r.Ok? && callback.SignalCallback? ==> r.value.signalConnection == Some(ListCallback(observer, callback.f))
  {
    ListConnectCallback(l.(observer := observer), callback, count)
  }

  /** `Disconnect`: both callbacks and every item connection go. */
  function ListDisconnect(l: ListConnect): (l': ListConnect)
    ensures !HasCallback(l') && l'.connectables == {}
    ensures l'.cached == l.cached && l'.muteState == l.muteState && l'.observer == l.observer
  {
    l.(valueConnection := None, signalConnection := None, connectables := {})
  }

  /** `OnMute_`: on release, one group notification; then store the
      state. */
  function ListOnMute(l: ListConnect, state: MuteState): (r: (ListConnect, seq<ListEvent>))
    ensures r.0 == l.(muteState := state)
    ensures r.1 == (if Releases(state) then GroupNotify(l) else [])
  {
    (l.(muteState := state), if Releases(state) then GroupNotify(l) else [])
  }

  /** `OnItemChanged_`: `out_of_range` past the cache; otherwise store the
      item, and notify unless muted or in a notifying phase. */
  function OnItemChanged(l: ListConnect, index: nat, item: int): (r: Result<(ListConnect, seq<ListEvent>)>)
    ensures r.Err? <==> index >= |l.cached|
    ensures r.Err? ==> r.error == OutOfRange
    ensures r.Ok? ==> r.value.0 == l.(cached := l.cached[index := item])
    ensures r.Ok? ==>
      r.value.1 == (if IsTrue(l.muteState) || l.isNotifying then [] else GroupNotify(r.value.0))
  {
    if index >= |l.cached| then Err(OutOfRange)
    else
      var l' := l.(cached := l.cached[index := item]);
      Ok((l', if l.muteState.isMuted || l.isNotifying then [] else GroupNotify(l')))
  }

  /** `OnMemberWillRemove_`: nothing without an index or without item
      connections; `out_of_range` for an index that has none; otherwise
      that index's connection goes. */
  function OnMemberWillRemove(l: ListConnect, index: Option<nat>): (r: Result<ListConnect>)
    ensures r.Err? <==> index.Some? && l.connectables != {} && index.value !in l.connectables
    ensures r.Err? ==> r.error == OutOfRange
    ensures r.Ok? ==> r.value == l.(connectables := if index.Some? then l.connectables - {index.value} else l.connectables)
  {
    if index.None? || l.connectables == {} then Ok(l)
    else if index.value !in l.connectables then Err(OutOfRange)
    else Ok(l.(connectables := l.connectables - {index.value}))
  }

  /** `OnMemberAdded_`: refresh the cache from the list; the new index gets
      an item connection only while a callback is connected, and one that
      exists already fails the debug assertion. */
  function OnMemberAdded(l: ListConnect, index: Option<nat>, values: seq<int>): (r: Result<ListConnect>)
    ensures r.Err? <==> index.Some? && HasCallback(l) && index.value in l.connectables
    ensures r.Err? ==> r.error == AssertionError
    ensures r.Ok? && index.None? ==> r.value == l
    ensures r.Ok? && index.Some? ==> r.value == l.(cached := values,
      connectables := if HasCallback(l) then l.connectables + {index.value} else l.connectables)
  {
    if index.None? then Ok(l)
    else
      var l1 := l.(cached := values);
      if !HasCallback(l) then Ok(l1)
      else if index.value in l.connectables then Err(AssertionError)
      else Ok(l1.(connectables := l.connectables + {index.value}))
  }

  /** `OnIsNotifying_`: store the flag; unless muted, the end of a
      notifying phase sends one group notification. */
  function OnIsNotifying(l: ListConnect, isNotifying: bool): (r: (ListConnect, seq<ListEvent>))
    ensures r.0 == l.(isNotifying := isNotifying)
    ensures r.1 == (if IsTrue(l.muteState) || isNotifying then [] else GroupNotify(l))
  {
    (l.(isNotifying := isNotifying), if l.muteState.isMuted || isNotifying then [] else GroupNotify(l))
  }

  /** One item change. */
  datatype Change = Change(index: nat, item: int)

  /** The cache after a run of item changes: a reference independent of the
      connection state. */
  function Apply(cached: seq<int>, changes: seq<Change>): (r: seq<int>)
    ensures |r| == |cached|
    decreases |changes|
  {
    if |changes| == 0 then cached
    else
      var c := changes[0];
      Apply(if c.index < |cached| then cached[c.index := c.item] else cached, changes[1..])
  }

  /** Every change addresses an index in the cache. */
  predicate InRange(changes: seq<Change>, count: nat) {
    forall k :: 0 <= k < |changes| ==> changes[k].index < count
  }

  /** Item changes in turn, with their events concatenated; the first
      error ends the run. */
  function ChangeItems(l: ListConnect, changes: seq<Change>): (r: Result<(ListConnect, seq<ListEvent>)>)
    decreases |changes|
  {
    if |changes| == 0 then Ok((l, []))
    else
      var (l1, e1) :- OnItemChanged(l, changes[0].index, changes[0].item);
      var (l2, e2) :- ChangeItems(l1, changes[1..]);
      Ok((l2, e1 + e2))
  }

  /** While the list is muted or notifying all its members, item changes
      are cached and nothing is sent. */
  lemma {:induction false} NotifyingChangesAreHeld(l: ListConnect, changes: seq<Change>)
    requires (IsTrue(l.muteState) || l.isNotifying) && InRange(changes, |l.cached|)
    ensures ChangeItems(l, changes).Ok?
    ensures ChangeItems(l, changes).value == (l.(cached := Apply(l.cached, changes)), [])
    decreases |changes|
  {
    if |changes| > 0 {
      var l1 := l.(cached := l.cached[changes[0].index := changes[0].item]);
      assert InRange(changes[1..], |l1.cached|) by {
        forall k | 0 <= k < |changes[1..]| ensures changes[1..][k].index < |l1.cached| {
          assert changes[1..][k] == changes[k + 1];
        }
      }
      assert OnItemChanged(l, changes[0].index, changes[0].item) == Ok((l1, []));
      NotifyingChangesAreHeld(l1, changes[1..]);
      assert Apply(l.cached, changes) == Apply(l1.cached, changes[1..]);
      var rest := ChangeItems(l1, changes[1..]).value;
      assert rest.0 == l.(cached := Apply(l.cached, changes));
      assert [] + rest.1 == rest.1;
    }
  }

  /** A list-wide notification while unmuted: the observer gets exactly one
      group notification, carrying every change, when the phase ends. */
  lemma NotifyingPhaseNotifiesOnce(l: ListConnect, changes: seq<Change>)
    requires !IsTrue(l.muteState) && InRange(changes, |l.cached|)
    ensures var (l1, e1) := OnIsNotifying(l, true);
      var changed := ChangeItems(l1, changes);
      changed.Ok? &&
      var (l2, e2) := OnIsNotifying(changed.value.0, false);
      e1 + changed.value.1 + e2 == GroupNotify(l2)
      && l2.cached == Apply(l.cached, changes) && !l2.isNotifying
  {
    var (l1, e1) := OnIsNotifying(l, true);
    NotifyingChangesAreHeld(l1, changes);
  }

  /** While muted, item changes reach nobody; the release that ends the
      mute sends one group notification carrying all of them. */
  lemma MutedChangesNotifyOnRelease(l: ListConnect, changes: seq<Change>, released: MuteState)
    requires IsTrue(l.muteState) && Releases(released) && InRange(changes, |l.cached|)
    ensures var changed := ChangeItems(l, changes);
      changed.Ok? && changed.value.1 == [] &&
      var (l2, e2) := ListOnMute(changed.value.0, released);
      e2 == GroupNotify(l2) && l2.cached == Apply(l.cached, changes) && l2.muteState == released
  {
    NotifyingChangesAreHeld(l, changes);
  }

  /** A notifying phase that ends while the list is muted sends nothing;
      the notification waits for the release, which sends it once. */
  lemma MutedPhaseWaitsForRelease(l: ListConnect, changes: seq<Change>, released: MuteState)
    requires IsTrue(l.muteState) && Releases(released) && InRange(changes, |l.cached|)
    ensures var (l1, e1) := OnIsNotifying(l, true);
      var changed := ChangeItems(l1, changes);
      changed.Ok? &&
      var (l2, e2) := OnIsNotifying(changed.value.0, false);
      var (l3, e3) := ListOnMute(l2, released);
      e1 == [] && changed.value.1 == [] && e2 == []
      && e3 == GroupNotify(l3) && l3.cached == Apply(l.cached, changes) && !l3.isNotifying
  {
    var (l1, e1) := OnIsNotifying(l, true);
    NotifyingChangesAreHeld(l1, changes);
  }

  /** After `Disconnect` the observer hears nothing more, whatever changes. */
  lemma DisconnectedHearsNothing(l: ListConnect, index: nat, item: int, state: MuteState, isNotifying: bool)
    requires index < |l.cached|
    ensures OnItemChanged(ListDisconnect(l), index, item).value.1 == []
    ensures ListOnMute(ListDisconnect(l), state).1 == []
    ensures OnIsNotifying(ListDisconnect(l), isNotifying).1 == []
  {
  }

  /** A first `Connect` makes exactly one item connection per index, and a
      later one makes none; `Disconnect` then clears them all. */
  lemma ConnectMakesEachIndexOnce(l: ListConnect, a: Callback, b: Callback, count: nat)
    requires l.observer.Some? && l.connectables == {}
    ensures var l1 := ListConnectCallback(l, a, count).value;
      var l2 := ListConnectCallback(l1, b, count + 1).value;
      l1.connectables == Indices(count)
      && (count > 0 ==> l2.connectables == Indices(count))
      && ListDisconnect(l2).connectables == {}
  {
    if count > 0 {
      assert 0 in Indices(count);
    }
  }
}
