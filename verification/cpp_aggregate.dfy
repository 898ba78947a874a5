/** The C++ `Aggregate`: a group's members are watched together and one
    observer is told of changes to the group as a whole.

  Member connections are made on the first `Connect` and unmade on
  `Disconnect`. A member change marks the group modified, forwards the
  member-changed signal to an enclosing aggregate, and notifies the
  observer unless muted; unmuting sends the one pending notification.
  The group's current value is passed in where the source calls `Get`.
 */
module Aggregates {
  import opened Wrappers
  import opened Connections
  import opened Mutes

  datatype Aggregate = Aggregate(
    muteState: MuteState,
    isModified: bool,
    hasMemberChanged: bool,   // an enclosing aggregate's signal is set
    madeConnections: bool,
    slot: Slot)

  /** What the aggregate does, in order. */
  datatype AggregateEvent =
    | MadeConnections
    | UnmadeConnections
    | MemberChangedSent
    | Notified(call: Call)

  /** The constructors. */
  function NewAggregate(): (a: Aggregate)
    ensures a.muteState == Unmuted && !a.isModified && !a.hasMemberChanged && !a.madeConnections
    ensures !HasConnection(a.slot)
  {
    Aggregate(Unmuted, false, false, false, Slot(None))
  }

  /** `MakeConnections_`: connect to the mute node and every member. */
  function MakeConnections(a: Aggregate): (r: (Aggregate, seq<AggregateEvent>))
    ensures r.0.madeConnections && r.1 == [MadeConnections]
    ensures r.0.muteState == a.muteState && r.0.isModified == a.isModified
    ensures r.0.hasMemberChanged == a.hasMemberChanged && r.0.slot == a.slot
  {
    (a.(madeConnections := true), [MadeConnections])
  }

  /** `UnmakeConnections_`: nothing when none were made. */
  function UnmakeConnections(a: Aggregate): (r: (Aggregate, seq<AggregateEvent>))
    ensures !r.0.madeConnections
    ensures !a.madeConnections ==> r == (a, [])
    ensures a.madeConnections ==> r == (a.(madeConnections := false), [UnmadeConnections])
  {
    if !a.madeConnections then (a, []) else (a.(madeConnections := false), [UnmadeConnections])
  }

  /** `Connect`: make the member connections on the first call only, then
      take the observer. */
  function AggregateConnect(a: Aggregate, o: Observer, f: Callable): (r: (Aggregate, seq<AggregateEvent>))
    ensures r.0.madeConnections && HasObserver(r.0.slot, o)
    ensures r.1 == (if a.madeConnections then [] else [MadeConnections])
    ensures r.0.muteState == a.muteState && r.0.isModified == a.isModified
  {
    var (a1, events) := if a.madeConnections then (a, []) else MakeConnections(a);
    (a1.(slot := ConnectOne(a1.slot, o, f)), events)
  }

  /** `Disconnect`: unmake the member connections, drop the member-changed
      signal, then release the observer. */
  function AggregateDisconnect(a: Aggregate, o: Observer): (r: Result<(Aggregate, seq<AggregateEvent>)>)
    ensures r.Err? <==> HasConnection(a.slot) && !HasObserver(a.slot, o)
    ensures r.Ok? ==>
      && !r.value.0.madeConnections && !r.value.0.hasMemberChanged
      && !HasConnection(r.value.0.slot)
      && r.value.1 == UnmakeConnections(a).1
  {
    var (a1, events) := UnmakeConnections(a);
    var slot :- DisconnectOne(a1.slot, o);
    Ok((a1.(hasMemberChanged := false, slot := slot), events))
  }

  /** `AssignUpstream`: the member connections are unmade and not made
      again until the next `Connect`. */
  function AssignUpstream(a: Aggregate): (r: (Aggregate, seq<AggregateEvent>))
    ensures !r.0.madeConnections && r.0.slot == a.slot
    ensures r.1 == (if a.madeConnections then [UnmadeConnections] else [])
  {
    UnmakeConnections(a)
  }

  /** The destructor: unmake the member connections and clear the slot. */
  function DestroyAggregate(a: Aggregate): (r: (Aggregate, seq<AggregateEvent>))
    ensures !r.0.madeConnections && !HasConnection(r.0.slot)
    ensures r.1 == (if a.madeConnections then [UnmadeConnections] else [])
  {
    var (a1, events) := UnmakeConnections(a);
    (a1.(slot := Slot(None)), events)
  }

  /** `ConnectAggregate_`: an enclosing aggregate installs its signal. */
  function ConnectAggregate(a: Aggregate): (a': Aggregate)
    ensures a'.hasMemberChanged
    ensures a'.muteState == a.muteState && a'.isModified == a.isModified
    ensures a'.madeConnections == a.madeConnections && a'.slot == a.slot
  {
    a.(hasMemberChanged := true)
  }

  /** `Notify_(value)`: one notification when an observer is connected. */
  function Notify(a: Aggregate, v: int): (events: seq<AggregateEvent>)
    ensures |events| == |NotifyOne(a.slot, v)|
    ensures forall i :: 0 <= i < |events| ==> events[i] == Notified(NotifyOne(a.slot, v)[i])
  {
    if a.slot.connection.None? then [] else [Notified(NotifyOne(a.slot, v)[0])]
  }

  /** `OnMemberChanged_`: mark modified, forward the member-changed
      signal, and notify with the group's value unless muted. */
  function OnMemberChanged(a: Aggregate, current: int): (r: (Aggregate, seq<AggregateEvent>))
    ensures r.0 == a.(isModified := true)
    ensures r.1 == (if a.hasMemberChanged then [MemberChangedSent] else [])
      + (if IsTrue(a.muteState) then [] else Notify(a, current))
  {
    var sent := if a.hasMemberChanged then [MemberChangedSent] else [];
    (a.(isModified := true), sent + (if a.muteState.isMuted then [] else Notify(a, current)))
  }

  /** `OnAggregateMemberChanged_`: a nested aggregate changed; mark
      modified and forward, but never notify. */
  function OnAggregateMemberChanged(a: Aggregate): (r: (Aggregate, seq<AggregateEvent>))
    ensures r.0 == a.(isModified := true)
    ensures r.1 == (if a.hasMemberChanged then [MemberChangedSent] else [])
  {
    (a.(isModified := true), if a.hasMemberChanged then [MemberChangedSent] else [])
  }

  /** `OnMute_`: on release, notify once if modified and clear the flag;
      on a new mute, clear the flag; then store the state. */
  function OnMute(a: Aggregate, state: MuteState, current: int): (r: (Aggregate, seq<AggregateEvent>))
    ensures r.0.muteState == state && r.0.slot == a.slot
    ensures r.0.hasMemberChanged == a.hasMemberChanged && r.0.madeConnections == a.madeConnections
    ensures r.1 == (if Releases(state) && a.isModified then Notify(a, current) else [])
    ensures r.0.isModified == (a.isModified && !Releases(state) && !(state.isMuted && !a.muteState.isMuted))
  {
    var released := Releases(state) && a.isModified;
    var modified := if released then false else a.isModified;
    var modified' := if state.isMuted && !a.muteState.isMuted then false else modified;
    (a.(isModified := modified', muteState := state), if released then Notify(a, current) else [])
  }

  /** How many notifications a log holds. */
  function Notifications(events: seq<AggregateEvent>): nat {
    if |events| == 0 then 0 else (if events[0].Notified? then 1 else 0) + Notifications(events[1..])
  }

  lemma {:induction false} NotificationsAppend(a: seq<AggregateEvent>, b: seq<AggregateEvent>)
    ensures Notifications(a + b) == Notifications(a) + Notifications(b)
    decreases |a|
  {
    if |a| > 0 {
      assert (a + b)[0] == a[0] && (a + b)[1..] == a[1..] + b;
      NotificationsAppend(a[1..], b);
    } else {
      assert a + b == b;
    }
  }

  /** Making the member connections and unmaking them again returns the
      group to where it was, with one event each way. */
  lemma MakeUnmakeRestores(a: Aggregate)
    requires !a.madeConnections
    ensures var (a1, e1) := MakeConnections(a);
      var (a2, e2) := UnmakeConnections(a1);
      a2 == a && e1 + e2 == [MadeConnections, UnmadeConnections]
  {
  }

  /** A single member change: the observer hears of it exactly when the
      group is unmuted and has an observer, and then with the group's
      value; a nested aggregate's change is never notified. */
  lemma {:induction false} MemberChangeNotifiesUnlessMuted(a: Aggregate, current: int)
    ensures var (a', events) := OnMemberChanged(a, current);
      a'.isModified
      && Notifications(events) == (if IsTrue(a.muteState) || !HasConnection(a.slot) then 0 else 1)
      && (forall e :: e in events && e.Notified? ==> e.call.value == current)
    ensures Notifications(OnAggregateMemberChanged(a).1) == 0
  {
    var sent: seq<AggregateEvent> := if a.hasMemberChanged then [MemberChangedSent] else [];
    var told := if IsTrue(a.muteState) then [] else Notify(a, current);
    NotificationsAppend(sent, told);
    assert Notifications(sent) == 0 by {
      if a.hasMemberChanged {
        assert Notifications(sent) == 0 + Notifications(sent[1..]);
        assert sent[1..] == [];
      }
    }
    assert Notifications(told) == |told| by {
      if |told| == 1 {
        assert told[0].Notified? && told[1..] == [];
      }
    }
    var r := OnMemberChanged(a, current);
    assert r.1 == sent + told;
    assert Notifications(OnAggregateMemberChanged(a).1) == 0 by {
      var e := OnAggregateMemberChanged(a).1;
      if a.hasMemberChanged {
        assert Notifications(e) == 0 + Notifications(e[1..]);
        assert e[1..] == [];
      }
    }
  }

  /** An enclosing aggregate hears of a member change, direct or nested,
      exactly when it has installed its signal: `ConnectAggregate_` turns
      forwarding on and `Disconnect` turns it off. */
  lemma MemberChangesForward(a: Aggregate, current: int, o: Observer)
    ensures MemberChangedSent in OnMemberChanged(a, current).1 <==> a.hasMemberChanged
    ensures MemberChangedSent in OnAggregateMemberChanged(a).1 <==> a.hasMemberChanged
    ensures MemberChangedSent in OnMemberChanged(ConnectAggregate(a), current).1
    ensures AggregateDisconnect(a, o).Ok? ==>
      MemberChangedSent !in OnMemberChanged(AggregateDisconnect(a, o).value.0, current).1
  {
    var told := if IsTrue(a.muteState) then [] else Notify(a, current);
    assert forall e :: e in told ==> e.Notified?;
  }

  /** The inputs a group reacts to. */
  datatype Input = MemberChanged(current: int) | AggregateMemberChanged | MuteChanged(state: MuteState, current: int)

  /** A run of inputs, logs concatenated. */
  function Run(a: Aggregate, inputs: seq<Input>): (r: (Aggregate, seq<AggregateEvent>))
    decreases |inputs|
  {
    if |inputs| == 0 then (a, [])
    else
      var (a1, e1) := match inputs[0]
        case MemberChanged(v) => OnMemberChanged(a, v)
        case AggregateMemberChanged => OnAggregateMemberChanged(a)
        case MuteChanged(s, v) => OnMute(a, s, v);
      var (a2, e2) := Run(a1, inputs[1..]);
      (a2, e1 + e2)
  }

  /** Member changes while muted: nothing is notified, and the group is
      left modified when there was at least one. */
  lemma {:induction false} MutedChangesAreHeld(a: Aggregate, values: seq<int>)
    requires IsTrue(a.muteState)
    ensures var (a', events) := Run(a, seq(|values|, i requires 0 <= i < |values| => MemberChanged(values[i])));
      Notifications(events) == 0 && a'.muteState == a.muteState && a'.slot == a.slot
      && a'.isModified == (a.isModified || |values| > 0)
    decreases |values|
  {
    var inputs := seq(|values|, i requires 0 <= i < |values| => MemberChanged(values[i]));
    if |values| > 0 {
      var (a1, e1) := OnMemberChanged(a, values[0]);
      assert inputs[1..] == seq(|values[1..]|, i requires 0 <= i < |values[1..]| => MemberChanged(values[1..][i]));
      MutedChangesAreHeld(a1, values[1..]);
      NotificationsAppend(e1, Run(a1, inputs[1..]).1);
      assert Notifications(e1) == 0 by {
        assert e1 == (if a.hasMemberChanged then [MemberChangedSent] else []);
      }
    }
  }

  /** A whole-group change: mute, change any number of members, unmute.
      The observer is told once if anything changed and not at all
      otherwise, and the group ends unmodified. With no observer
      connected nothing is delivered. */
  lemma GroupChangeNotifiesOnce(a: Aggregate, values: seq<int>, current: int)
    requires !a.muteState.isMuted
    ensures var muted := OnMute(a, MuteState(true, false), current);
      var changed := Run(muted.0, seq(|values|, i requires 0 <= i < |values| => MemberChanged(values[i])));
      var released := OnMute(changed.0, Unmuted, current);
      Notifications(muted.1 + changed.1 + released.1) == (if |values| > 0 && HasConnection(a.slot) then 1 else 0)
      && !released.0.isModified
  {
    var muted := OnMute(a, MuteState(true, false), current);
    MutedChangesAreHeld(muted.0, values);
    var changed := Run(muted.0, seq(|values|, i requires 0 <= i < |values| => MemberChanged(values[i])));
    var released := OnMute(changed.0, Unmuted, current);
    NotificationsAppend(muted.1 + changed.1, released.1);
    NotificationsAppend(muted.1, changed.1);
  }

  /** `Connect` makes the member connections once however often it is
      called, and unmaking twice is unmaking once. */
  lemma ConnectionsMadeOnce(a: Aggregate, o: Observer, f: Callable, p: Observer, g: Callable)
    ensures var (a1, e1) := AggregateConnect(a, o, f);
      var (a2, e2) := AggregateConnect(a1, p, g);
      e2 == [] && |e1 + e2| <= 1
    ensures UnmakeConnections(UnmakeConnections(a).0) == (UnmakeConnections(a).0, [])
  {
  }
}
