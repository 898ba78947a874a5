/** The C++ signal nodes: `model::Signal` calls every connected observer
    on `Trigger`; a `control::Signal` connects to a model signal and
    passes each trigger on to its single observer.

  A control's `Trigger` goes to the model, which calls back every
  control, the one that triggered included. Controls are found by their
  address in a map.
 */
module Signals {
  import opened Wrappers
  import opened Connections

  /** `OnModelSignaled_`, as a callable. */
  const OnModelSignaled: Callable := 3

  /** One call of a signal callback; a signal carries no value. */
  datatype Signalled = Signalled(observer: Observer, callable: Callable)

  // ---------------------------------------------------------------------
  // model::Signal

  datatype ModelSignal = ModelSignal(connections: seq<Connection>)

  ghost predicate Valid(m: ModelSignal) {
    Sorted(m.connections)
  }

  /** `Trigger`: every connection once, in order. */
  function Trigger(m: ModelSignal): (calls: seq<Signalled>)
    ensures |calls| == |m.connections|
    ensures forall i :: 0 <= i < |calls| ==>
      calls[i] == Signalled(m.connections[i].observer, m.connections[i].callable)
  {
    seq(|m.connections|, i requires 0 <= i < |m.connections| =>
      Signalled(m.connections[i].observer, m.connections[i].callable))
  }

  /** How many calls reach `o`. */
  function Received(calls: seq<Signalled>, o: Observer): nat {
    if |calls| == 0 then 0 else (if calls[0].observer == o then 1 else 0) + Received(calls[1..], o)
  }

  lemma {:induction false} ReceivedAppend(a: seq<Signalled>, b: seq<Signalled>, o: Observer)
    ensures Received(a + b, o) == Received(a, o) + Received(b, o)
    decreases |a|
  {
    if |a| > 0 {
      assert (a + b)[0] == a[0] && (a + b)[1..] == a[1..] + b;
      ReceivedAppend(a[1..], b, o);
    } else {
      assert a + b == b;
    }
  }

  /** A trigger reaches each observer once per connection it holds. */
  lemma {:induction false} TriggerReachesEach(s: seq<Connection>, o: Observer)
    ensures Received(Trigger(ModelSignal(s)), o) == Count(s, o)
    decreases |s|
  {
    if |s| > 0 {
      TriggerReachesEach(s[1..], o);
      assert Trigger(ModelSignal(s))[1..] == Trigger(ModelSignal(s[1..]));
    }
  }

  /** `n` triggers in a row. */
  function TriggerTimes(m: ModelSignal, n: nat): (calls: seq<Signalled>)
    ensures |calls| == n * |m.connections|
  {
    if n == 0 then [] else Trigger(m) + TriggerTimes(m, n - 1)
  }

  /** `n` triggers notify each observer `n` times per connection. */
  lemma {:induction false} TriggerTimesCounts(m: ModelSignal, n: nat, o: Observer)
    ensures Received(TriggerTimes(m, n), o) == n * Count(m.connections, o)
  {
    if n > 0 {
      TriggerTimesCounts(m, n - 1, o);
      ReceivedAppend(Trigger(m), TriggerTimes(m, n - 1), o);
      TriggerReachesEach(m.connections, o);
      var c := Count(m.connections, o);
      assert n * c == c + (n - 1) * c;
    }
  }

  function SignalConnect(m: ModelSignal, o: Observer, f: Callable): (m': ModelSignal)
    requires Valid(m)
    ensures Valid(m') && m'.connections == Connect(m.connections, o, f)
  {
    ConnectKeepsSorted(m.connections, o, f);
    ModelSignal(Connect(m.connections, o, f))
  }

  function SignalDisconnect(m: ModelSignal, o: Observer): (m': ModelSignal)
    requires Valid(m)
    ensures Valid(m') && m'.connections == Disconnect(m.connections, o)
  {
    ModelSignal(Disconnect(m.connections, o))
  }

  // ---------------------------------------------------------------------
  // control::Signal

  /** A control signal: its address, whether its model pointer is set, and
      its single observer slot. */
  datatype ControlSignal = ControlSignal(self: Observer, bound: bool, slot: Slot)

  /** `operator bool`. */
  function IsBound(c: ControlSignal): bool { c.bound }

  /** `Signal()`: no model. */
  function DefaultControlSignal(self: Observer): (c: ControlSignal)
    ensures !IsBound(c) && !HasConnection(c.slot)
  {
    ControlSignal(self, false, Slot(None))
  }

  /** `Signal(model)`: connect to the model. */
  function NewControlSignal(m: ModelSignal, self: Observer): (r: (ControlSignal, ModelSignal))
    requires Valid(m)
    ensures IsBound(r.0) && r.0.self == self && !HasConnection(r.0.slot)
    ensures r.1 == SignalConnect(m, self, OnModelSignaled)
  {
    (ControlSignal(self, true, Slot(None)), SignalConnect(m, self, OnModelSignaled))
  }

  /** The template constructor from a control of another observer type on
      the same model: `REQUIRE_HAS_VALUE` on the model, then connect. */
  function CopyControlSignal(other: ControlSignal, m: ModelSignal, self: Observer)
    : (r: Result<(ControlSignal, ModelSignal)>)
    requires Valid(m)
    ensures r.Err? <==> !IsBound(other)
    ensures r.Err? ==> r.error == MissingValue
    ensures r.Ok? ==> r.value == NewControlSignal(m, self)
  {
    if !other.bound then Err(MissingValue) else Ok(NewControlSignal(m, self))
  }

  /** The implicit copy constructor, chosen for a control of the same
      observer type, since a template constructor never serves as one: the
      model pointer and the observer slot are copied member by member,
      with no `REQUIRE_HAS_VALUE` and no connection to the model. */
  function CopyControlSignalSameType(other: ControlSignal, m: ModelSignal, self: Observer)
    : (r: (ControlSignal, ModelSignal))
    ensures r.0.self == self && IsBound(r.0) == IsBound(other) && r.0.slot == other.slot
    ensures r.1 == m
  {
    (other.(self := self), m)
  }

  /** A same-type copy hears no trigger, where a copy from another observer
      type hears each one once; and it inherits the original's observer, so
      destroying it while that observer is connected fails the debug
      assertion. */
  lemma SameTypeCopyHearsNothing(other: ControlSignal, m: ModelSignal, self: Observer)
    requires Valid(m) && Count(m.connections, self) == 0
    ensures var (c, m') := CopyControlSignalSameType(other, m, self);
      Received(Trigger(m'), self) == 0
      && (HasConnection(other.slot) ==> DestroyControlSignal(c, m').Err?)
    ensures IsBound(other) ==>
      var (c2, m2) := CopyControlSignal(other, m, self).value;
      Received(Trigger(m2), self) == 1
  {
    TriggerReachesEach(m.connections, self);
    if IsBound(other) {
      var m2 := SignalConnect(m, self, OnModelSignaled);
      CountConnect(m.connections, self, OnModelSignaled, self);
      TriggerReachesEach(m2.connections, self);
    }
  }

  /** The destructor: disconnect when bound; the observer slot must be
      empty by then. */
  function DestroyControlSignal(c: ControlSignal, m: ModelSignal): (r: Result<ModelSignal>)
    requires Valid(m)
    ensures r.Err? <==> HasConnection(c.slot)
    ensures r.Err? ==> r.error == AssertionError
    ensures r.Ok? ==> r.value == (if IsBound(c) then SignalDisconnect(m, c.self) else m)
  {
    var _ :- DestroyOne(c.slot);
    Ok(if c.bound then SignalDisconnect(m, c.self) else m)
  }

  /** Connecting an observer to the control fills its slot with that
      observer alone, replacing any earlier one; the control's binding to
      its model is untouched. */
  function ControlConnect(c: ControlSignal, o: Observer, f: Callable): (c': ControlSignal)
    ensures c'.slot.connection == Some(Connection(o, f))
    ensures c'.self == c.self && c'.bound == c.bound
  {
    c.(slot := ConnectOne(c.slot, o, f))
  }

  /** `OnModelSignaled_`: the control's observer is called when there is
      one. */
  function OnModelSignaledCalls(c: ControlSignal): (calls: seq<Signalled>)
    ensures |calls| == (if HasConnection(c.slot) then 1 else 0)
    ensures |calls| == 1 ==> calls[0] == Signalled(c.slot.connection.value.observer, c.slot.connection.value.callable)
  {
    if c.slot.connection.None? then []
    else [Signalled(c.slot.connection.value.observer, c.slot.connection.value.callable)]
  }

  /** After two connections only the second observer hears the model, and
      an unconnected control passes nothing on. */
  lemma ControlReconnectReplaces(c: ControlSignal, a: Observer, f: Callable, b: Observer, g: Callable)
    ensures OnModelSignaledCalls(ControlConnect(ControlConnect(c, a, f), b, g)) == [Signalled(b, g)]
    ensures !HasConnection(c.slot) ==> OnModelSignaledCalls(c) == []
  {
  }

  /** What a model trigger ends in: each call to a control's
      `OnModelSignaled_` becomes that control's own notification, any
      other call stays as it is. */
  function Deliver(calls: seq<Signalled>, controls: map<Observer, ControlSignal>): (out: seq<Signalled>)
    decreases |calls|
  {
    if |calls| == 0 then []
    else
      var first :=
        if calls[0].callable == OnModelSignaled && calls[0].observer in controls
        then OnModelSignaledCalls(controls[calls[0].observer])
        else [calls[0]];
      first + Deliver(calls[1..], controls)
  }

  /** `Trigger` on a control: `REQUIRE_HAS_VALUE` on the model, then the
      model's trigger, delivered. */
  function ControlTrigger(c: ControlSignal, m: ModelSignal, controls: map<Observer, ControlSignal>)
    : (r: Result<seq<Signalled>>)
    ensures r.Err? <==> !IsBound(c)
    ensures r.Err? ==> r.error == MissingValue
    ensures r.Ok? ==> r.value == Deliver(Trigger(m), controls)
  {
    if !c.bound then Err(MissingValue) else Ok(Deliver(Trigger(m), controls))
  }

  lemma {:induction false} DeliverAppend(a: seq<Signalled>, b: seq<Signalled>, controls: map<Observer, ControlSignal>)
    ensures Deliver(a + b, controls) == Deliver(a, controls) + Deliver(b, controls)
    decreases |a|
  {
    if |a| > 0 {
      assert (a + b)[0] == a[0] && (a + b)[1..] == a[1..] + b;
      DeliverAppend(a[1..], b, controls);
    } else {
      assert a + b == b;
    }
  }

  /** Every control that is connected to the model and has an observer
      hears a trigger from any bound control, the triggering one
      included. */
  lemma TriggerReachesEveryControl(
    c: ControlSignal, m: ModelSignal, controls: map<Observer, ControlSignal>, d: Observer, i: nat)
    requires IsBound(c) && d in controls && HasConnection(controls[d].slot)
    requires i < |m.connections| && m.connections[i] == Connection(d, OnModelSignaled)
    ensures var x := controls[d].slot.connection.value;
      Signalled(x.observer, x.callable) in ControlTrigger(c, m, controls).value
  {
    var t := Trigger(m);
    assert t == t[..i] + [t[i]] + t[i + 1..];
    DeliverAppend(t[..i] + [t[i]], t[i + 1..], controls);
    DeliverAppend(t[..i], [t[i]], controls);
    assert Deliver([t[i]], controls) == OnModelSignaledCalls(controls[d]);
  }

  /** A control built on the model and given an observer passes a
      trigger from itself back to that observer. */
  lemma TriggerEchoesToSource(m: ModelSignal, self: Observer, o: Observer, f: Callable)
    requires Valid(m)
    ensures var (c, m') := NewControlSignal(m, self);
      var c' := ControlConnect(c, o, f);
      Signalled(o, f) in ControlTrigger(c', m', map[self := c']).value
  {
    var (c, m') := NewControlSignal(m, self);
    var c' := ControlConnect(c, o, f);
    var k := UpperBound(m.connections, self);
    assert m'.connections[k] == Connection(self, OnModelSignaled);
    TriggerReachesEveryControl(c', m', map[self := c'], self, k);
  }
}
