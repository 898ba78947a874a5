/** The C++ view nodes on a model value: `control::Value_`, which reaches
    its model through a `model::Direct` and fans changes out to any number
    of observers, and `interface::Value_`, which holds a model pointer and
    notifies a single observer.

  Both wrap `Get` and `Set` in their filter and pass a model change on to
  their own observers through the getter. The static member functions
  they connect to the model are the callables `OnUpstreamChanged` and
  `OnModelChanged`.
 */
module ControlValues {
  import opened Wrappers
  import opened Connections
  import opened ModelValues

  /** `GetTag`, `SetTag`, or both. */
  datatype Access = GetAndSetAccess | GetAccess | SetAccess

  /** `HasAccess<GetTag, Access>`. */
  predicate CanGet(a: Access) { a != SetAccess }

  /** `HasAccess<SetTag, Access>`. */
  predicate CanSet(a: Access) { a != GetAccess }

  /** A view's filter: none, a static one, or a member filter reached
      through an instance that may be missing. */
  datatype Filter = Unfiltered | StaticFilter(fns: Fns) | MemberFilter(instance: Option<Fns>)

  /** The filter a copy of another filter type starts with: a member
      filter has no instance yet. */
  function Unset(kind: Filter): (f: Filter)
    ensures f.MemberFilter? <==> kind.MemberFilter?
    ensures f.MemberFilter? ==> f.instance.None?
    ensures !f.MemberFilter? ==> f == kind
  {
    if kind.MemberFilter? then MemberFilter(None) else kind
  }

  /** The filter can run: it is not a member filter without instance. */
  predicate Usable(f: Filter) {
    f.MemberFilter? ==> f.instance.Some?
  }

  /** `FilterOnSet_`; a member filter without instance fails with
      `missing`. */
  function FilterSet(f: Filter, v: Value, missing: Exception): (r: Result<Value>)
    ensures r.Err? <==> !Usable(f)
    ensures r.Err? ==> r.error == missing
    ensures f.Unfiltered? ==> r == Ok(v)
    ensures f.StaticFilter? ==> r == Ok(f.fns.onSet(v))
    ensures f.MemberFilter? && f.instance.Some? ==> r == Ok(f.instance.value.onSet(v))
  {
    match f
    case Unfiltered => Ok(v)
    case StaticFilter(fns) => Ok(fns.onSet(v))
    case MemberFilter(instance) => if instance.None? then Err(missing) else Ok(instance.value.onSet(v))
  }

  /** `FilterOnGet_`; a member filter without instance fails with
      `missing`. */
  function FilterGet(f: Filter, v: Value, missing: Exception): (r: Result<Value>)
    ensures r.Err? <==> !Usable(f)
    ensures r.Err? ==> r.error == missing
    ensures f.Unfiltered? ==> r == Ok(v)
    ensures f.StaticFilter? ==> r == Ok(f.fns.onGet(v))
    ensures f.MemberFilter? && f.instance.Some? ==> r == Ok(f.instance.value.onGet(v))
  {
    match f
    case Unfiltered => Ok(v)
    case StaticFilter(fns) => Ok(fns.onGet(v))
    case MemberFilter(instance) => if instance.None? then Err(missing) else Ok(instance.value.onGet(v))
  }

  const OnUpstreamChanged: Callable := 1
  const OnModelChanged: Callable := 2

  // ---------------------------------------------------------------------
  // control::Value_

  /** A control: its own address, its upstream handle, access, filter and
      the observers connected to it. */
  datatype Control = Control(
    self: Observer, upstream: Direct, access: Access, filter: Filter, connections: seq<Connection>)

  ghost predicate ControlValid(c: Control, w: Models) {
    PointsValid(c.upstream, w) && Sorted(c.connections)
  }

  /** `Value_()`: no upstream, no filter instance, no observers. */
  function DefaultControl(self: Observer, access: Access, kind: Filter): (c: Control)
    ensures !HasModel(c.upstream) && c.filter == Unset(kind) && c.connections == []
  {
    Control(self, Direct(None), access, Unset(kind), [])
  }

  /** `Value_(pex)` and `Value_(pex, filter)`: bind to the model and, when
      the control may read, connect to it. */
  function NewControl(w: Models, id: ModelId, self: Observer, access: Access, filter: Filter)
    : (r: (Control, Models))
    requires id in w && Valid(w[id])
    ensures ControlValid(r.0, r.1) && r.1.Keys == w.Keys
    ensures r.0 == Control(self, Direct(Some(id)), access, filter, [])
    ensures CanGet(access) ==> r.1 == w[id := ModelConnect(w[id], self, OnUpstreamChanged)]
    ensures !CanGet(access) ==> r.1 == w
  {
    var c := Control(self, Direct(Some(id)), access, filter, []);
    (c, if CanGet(access) then DirectConnect(c.upstream, w, self, OnUpstreamChanged) else w)
  }

  /** The destructor: always disconnects, a no-op without upstream. Every
      connection of the control leaves its model, which keeps its value
      and every other observer's connections; other models are
      untouched. */
  function DestroyControl(c: Control, w: Models): (w': Models)
    requires ControlValid(c, w)
    ensures w'.Keys == w.Keys && PointsValid(c.upstream, w')
    ensures !HasModel(c.upstream) ==> w' == w
    ensures HasModel(c.upstream) ==> var id := c.upstream.model.value;
      && (forall k :: k in w && k != id ==> w'[k] == w[k])
      && Get(w'[id]) == Get(w[id]) && Count(w'[id].connections, c.self) == 0
      && (forall x :: x in w'[id].connections <==> x in w[id].connections && x.observer != c.self)
  {
    if c.upstream.model.None? then w
    else
      var id := c.upstream.model.value;
      WithoutDropsObserver(w[id].connections, c.self);
      CountWithout(w[id].connections, c.self, c.self);
      DirectDisconnect(c.upstream, w, c.self)
  }

  /** Copy construction from a control of the same model: the upstream
      is shared, the filter is copied when `sameFilterType`, otherwise the
      copy's own kind starts without instance; a reader connects. */
  function CopyControl(other: Control, self: Observer, sameFilterType: bool, ownKind: Filter, w: Models)
    : (r: (Control, Models))
    requires ControlValid(other, w)
    ensures ControlValid(r.0, r.1) && r.1.Keys == w.Keys
    ensures r.0.upstream == other.upstream && r.0.access == other.access && r.0.connections == []
    ensures r.0.filter == (if sameFilterType then other.filter else Unset(ownKind))
    ensures r.1 == (if CanGet(other.access) then DirectConnect(other.upstream, w, self, OnUpstreamChanged) else w)
  {
    var c := Control(self, other.upstream, other.access,
                     if sameFilterType then other.filter else Unset(ownKind), []);
    (c, if CanGet(c.access) then DirectConnect(c.upstream, w, self, OnUpstreamChanged) else w)
  }

  /** Assignment: disconnect from the old upstream first, take the other
      upstream (and its filter when the types match), then connect if
      reading. The control keeps its own observers. */
  function AssignControl(c: Control, other: Control, sameFilterType: bool, w: Models): (r: (Control, Models))
    requires ControlValid(c, w) && ControlValid(other, w) && c.access == other.access
    ensures ControlValid(r.0, r.1) && r.1.Keys == w.Keys
    ensures r.0 == c.(upstream := other.upstream, filter := if sameFilterType then other.filter else c.filter)
    ensures var w1 := DirectDisconnect(c.upstream, w, c.self);
      r.1 == (if CanGet(c.access) then DirectConnect(other.upstream, w1, c.self, OnUpstreamChanged) else w1)
  {
    var w1 := DirectDisconnect(c.upstream, w, c.self);
    var c' := c.(upstream := other.upstream, filter := if sameFilterType then other.filter else c.filter);
    (c', if CanGet(c.access) then DirectConnect(c'.upstream, w1, c.self, OnUpstreamChanged) else w1)
  }

  /** `SetFilter`. */
  function SetControlFilter(c: Control, fns: Fns): (c': Control)
    requires c.filter.MemberFilter?
    ensures c'.filter == MemberFilter(Some(fns)) && Usable(c'.filter)
    ensures c' == c.(filter := c'.filter)
  {
    c.(filter := MemberFilter(Some(fns)))
  }

  /** `Get`: the upstream value through the getter. */
  function ControlGet(c: Control, w: Models): (r: Result<Value>)
    requires CanGet(c.access) && Points(c.upstream, w)
    ensures r.Ok? <==> HasModel(c.upstream) && Usable(c.filter)
    ensures r.Err? ==> r.error == MissingValue
    ensures r.Ok? ==> FilterGet(c.filter, Get(w[c.upstream.model.value]), MissingValue) == r
  {
    var v :- DirectGet(c.upstream, w);
    FilterGet(c.filter, v, MissingValue)
  }

  /** `Set`: the setter's output goes to the upstream's `Set`. */
  function ControlSet(c: Control, w: Models, v: Value): (r: Result<(Models, seq<Call>)>)
    requires CanSet(c.access) && Points(c.upstream, w)
    ensures r.Ok? <==> HasModel(c.upstream) && Usable(c.filter)
    ensures r.Err? ==> r.error == MissingValue
    ensures r.Ok? ==> Ok(r.value) == DirectSet(c.upstream, w, FilterSet(c.filter, v, MissingValue).value)
  {
    var u :- FilterSet(c.filter, v, MissingValue);
    DirectSet(c.upstream, w, u)
  }

  /** `SetWithoutNotify_`: the same write without notifying; `Direct`
      reaches the model without a null check, so a model is required. */
  function ControlSetWithoutNotify(c: Control, w: Models, v: Value): (r: Result<Models>)
    requires CanSet(c.access) && Points(c.upstream, w) && HasModel(c.upstream)
    ensures r.Ok? <==> Usable(c.filter)
    ensures r.Err? ==> r.error == MissingValue
    ensures var id := c.upstream.model.value;
      r.Ok? ==> r.value == w[id := SetWithoutNotify(w[id], FilterSet(c.filter, v, MissingValue).value)]
  {
    var u :- FilterSet(c.filter, v, MissingValue);
    Ok(w[c.upstream.model.value := SetWithoutNotify(w[c.upstream.model.value], u)])
  }

  /** `OnUpstreamChanged_`: the observers hear the getter's view. */
  function ControlOnUpstreamChanged(c: Control, v: Value): (r: Result<seq<Call>>)
    ensures r.Err? <==> !Usable(c.filter)
    ensures r.Ok? ==> r.value == NotifyMany(c.connections, FilterGet(c.filter, v, MissingValue).value)
  {
    var u :- FilterGet(c.filter, v, MissingValue);
    Ok(NotifyMany(c.connections, u))
  }

  /** A control that reads is connected once per construction, and its
      destruction removes it again. */
  lemma ReaderLifecycle(w: Models, id: ModelId, self: Observer, access: Access, filter: Filter)
    requires id in w && Valid(w[id]) && Count(w[id].connections, self) == 0 && CanGet(access)
    ensures var r := NewControl(w, id, self, access, filter);
      Count(r.1[id].connections, self) == 1
      && DestroyControl(r.0, r.1)[id] == ModelDisconnect(w[id], self)
      && Count(DestroyControl(r.0, r.1)[id].connections, self) == 0
  {
    var m := w[id];
    CountConnect(m.connections, self, OnUpstreamChanged, self);
    CountWithout(m.connections, self, self);
    ReaderDestroyed(w, id, self, access, filter);
  }

  lemma ReaderDestroyed(w: Models, id: ModelId, self: Observer, access: Access, filter: Filter)
    requires id in w && Valid(w[id]) && CanGet(access)
    ensures var r := NewControl(w, id, self, access, filter);
      DestroyControl(r.0, r.1)[id] == ModelDisconnect(w[id], self)
  {
    var r := NewControl(w, id, self, access, filter);
    var m1 := ModelConnect(w[id], self, OnUpstreamChanged);
    ModelConnectDisconnect(w[id], self, OnUpstreamChanged);
    assert r.1[id] == m1;
    assert DestroyControl(r.0, r.1)[id] == ModelDisconnect(m1, self);
  }

  /** A write-only control never connects to its model, and its
      destruction only disconnects. */
  lemma WriterNeverConnects(w: Models, id: ModelId, self: Observer, access: Access, filter: Filter)
    requires id in w && Valid(w[id]) && !CanGet(access)
    ensures var r := NewControl(w, id, self, access, filter);
      r.1 == w && DestroyControl(r.0, r.1)[id] == ModelDisconnect(w[id], self)
  {
  }

  /** Reassigning a reading control to the same model or to one it was
      not on leaves it connected exactly once there, so it is never
      notified twice for one change. */
  lemma AssignConnectsOnce(c: Control, other: Control, sameFilterType: bool, w: Models)
    requires ControlValid(c, w) && ControlValid(other, w) && c.access == other.access
    requires CanGet(c.access) && HasModel(c.upstream) && HasModel(other.upstream)
    requires other.upstream == c.upstream || Count(w[other.upstream.model.value].connections, c.self) == 0
    ensures Count(AssignControl(c, other, sameFilterType, w).1[other.upstream.model.value].connections, c.self) == 1
    ensures Count(AssignControl(c, other, sameFilterType, w).1[c.upstream.model.value].connections, c.self)
      == (if other.upstream == c.upstream then 1 else 0)
  {
    var a, b := c.upstream.model.value, other.upstream.model.value;
    var w1 := DirectDisconnect(c.upstream, w, c.self);
    CountWithout(w[a].connections, c.self, c.self);
    CountConnect(w1[b].connections, c.self, OnUpstreamChanged, c.self);
  }

  /** What a control's observers hear after any write to its model is what
      `Get` returns afterwards: the model calls the control once, and the
      control passes on the getter's view of the stored value. */
  lemma ControlHearsGet(c: Control, w: Models, w': Models, calls: seq<Call>, k: nat)
    requires CanGet(c.access) && Points(c.upstream, w') && HasModel(c.upstream) && Usable(c.filter)
    requires var id := c.upstream.model.value;
      calls == DoNotify(w'[id]) && k < |calls| && calls[k].observer == c.self
    ensures ControlOnUpstreamChanged(c, calls[k].value) == Ok(NotifyMany(c.connections, ControlGet(c, w').value))
  {
  }

  /** A control's own `Set` comes back to it with the getter's view of the
      stored value, the filter's round trip of what it wrote. */
  lemma ControlSetEchoes(c: Control, w: Models, v: Value, k: nat)
    requires CanGet(c.access) && CanSet(c.access) && ControlValid(c, w)
    requires ControlSet(c, w, v).Ok?
    requires k < |ControlSet(c, w, v).value.1|
    ensures var (w', calls) := ControlSet(c, w, v).value;
      var id := c.upstream.model.value;
      calls[k].value == Get(w'[id])
      && Get(w'[id]) == FilterOnSet(w[id].filter, FilterSet(c.filter, v, MissingValue).value)
      && (calls[k].observer == c.self ==>
            ControlOnUpstreamChanged(c, calls[k].value) == Ok(NotifyMany(c.connections, ControlGet(c, w').value)))
  {
    var (w', calls) := ControlSet(c, w, v).value;
    var id := c.upstream.model.value;
    assert calls == Set(w[id], FilterSet(c.filter, v, MissingValue).value).1;
  }

  // ---------------------------------------------------------------------
  // interface::Value_

  /** An interface: its own address, a model pointer, access, filter and
      the single observer slot. */
  datatype Interface = Interface(self: Observer, model: Option<ModelId>, access: Access, filter: Filter, slot: Slot)

  function Handle(i: Interface): Direct { Direct(i.model) }

  ghost predicate InterfaceValid(i: Interface, w: Models) {
    PointsValid(Handle(i), w)
  }

  /** `operator bool`: a model, and an instance when the filter needs one. */
  function IsBound(i: Interface): (b: bool)
    ensures b <==> i.model.Some? && Usable(i.filter)
  {
    i.model.Some? && (i.filter.MemberFilter? ==> i.filter.instance.Some?)
  }

  /** `Value_()`: no model, no filter instance. */
  function DefaultInterface(self: Observer, access: Access, kind: Filter): (i: Interface)
    ensures !IsBound(i) && i.slot == Slot(None)
  {
    Interface(self, None, access, Unset(kind), Slot(None))
  }

  /** `Value_(model)` and `Value_(model, filter)`: connect to the model. */
  function NewInterface(w: Models, id: ModelId, self: Observer, access: Access, filter: Filter)
    : (r: (Interface, Models))
    requires id in w && Valid(w[id])
    ensures InterfaceValid(r.0, r.1) && r.1.Keys == w.Keys
    ensures r.0 == Interface(self, Some(id), access, filter, Slot(None))
    ensures IsBound(r.0) <==> Usable(filter)
    ensures r.1 == w[id := ModelConnect(w[id], self, OnModelChanged)]
  {
    var i := Interface(self, Some(id), access, filter, Slot(None));
    (i, DirectConnect(Handle(i), w, self, OnModelChanged))
  }

  /** The destructor disconnects when a model is set; the single observer
      slot must be empty by then. */
  function DestroyInterface(i: Interface, w: Models): (r: Result<Models>)
    requires InterfaceValid(i, w)
    ensures r.Err? <==> HasConnection(i.slot)
    ensures r.Err? ==> r.error == AssertionError
    ensures r.Ok? ==> r.value == DirectDisconnect(Handle(i), w, i.self)
  {
    var w' := DirectDisconnect(Handle(i), w, i.self);
    var _ :- DestroyOne(i.slot);
    Ok(w')
  }

  /** The template constructors, from an interface of another observer or
      filter type on the same model: the model is shared and connected to
      when set; the filter is copied only from the same filter type. */
  function CopyInterface(other: Interface, self: Observer, sameFilterType: bool, ownKind: Filter, w: Models)
    : (r: (Interface, Models))
    requires InterfaceValid(other, w)
    ensures InterfaceValid(r.0, r.1) && r.1.Keys == w.Keys
    ensures r.0.model == other.model && r.0.slot == Slot(None)
    ensures r.0.filter == (if sameFilterType then other.filter else Unset(ownKind))
    ensures r.1 == DirectConnect(Handle(other), w, self, OnModelChanged)
  {
    var i := Interface(self, other.model, other.access,
                       if sameFilterType then other.filter else Unset(ownKind), Slot(None));
    (i, DirectConnect(Handle(i), w, self, OnModelChanged))
  }

  /** The template `operator=`, from an interface of another type:
      disconnect from the old model when set, take the other model, the
      filter only when the filter types match (otherwise the old filter
      stays), and connect when a model is set. */
  function AssignInterface(i: Interface, other: Interface, sameFilterType: bool, w: Models)
    : (r: (Interface, Models))
    requires InterfaceValid(i, w) && InterfaceValid(other, w)
    ensures InterfaceValid(r.0, r.1) && r.1.Keys == w.Keys
    ensures r.0 == i.(model := other.model, filter := if sameFilterType then other.filter else i.filter)
    ensures r.1 == DirectConnect(Handle(other), DirectDisconnect(Handle(i), w, i.self), i.self, OnModelChanged)
  {
    var w1 := DirectDisconnect(Handle(i), w, i.self);
    var i' := i.(model := other.model, filter := if sameFilterType then other.filter else i.filter);
    (i', DirectConnect(Handle(i'), w1, i.self, OnModelChanged))
  }

  /** The implicit copy constructor, chosen for an interface of the very
      same type, since a template constructor never serves as one: model,
      filter and observer slot are copied member by member, and nothing is
      connected to the model. */
  function CopyInterfaceSameType(other: Interface, self: Observer, w: Models): (r: (Interface, Models))
    requires InterfaceValid(other, w)
    ensures r.0.self == self && r.0.model == other.model && r.0.access == other.access
    ensures r.0.filter == other.filter && r.0.slot == other.slot
    ensures InterfaceValid(r.0, r.1) && r.1 == w
  {
    (other.(self := self), w)
  }

  /** The implicit copy assignment, for the very same type: the members are
      copied, the target keeps its address, and nothing is disconnected or
      connected. */
  function AssignInterfaceSameType(i: Interface, other: Interface, w: Models): (r: (Interface, Models))
    requires InterfaceValid(other, w)
    ensures r.0.self == i.self && r.0.model == other.model && r.0.access == other.access
    ensures r.0.filter == other.filter && r.0.slot == other.slot
    ensures InterfaceValid(r.0, r.1) && r.1 == w
  {
    (other.(self := i.self), w)
  }

  /** A same-type copy or assignment leaves the model's connections as they
      were, so the new interface hears nothing from its model, where a copy
      of another type is connected once; and an inherited observer makes
      the copy's destructor fail the debug assertion. */
  lemma SameTypeCopyIsDeaf(other: Interface, i: Interface, self: Observer, w: Models, ownKind: Filter)
    requires InterfaceValid(other, w) && other.model.Some?
    requires Count(w[other.model.value].connections, self) == 0
    requires Count(w[other.model.value].connections, i.self) == 0
    ensures var (c, w') := CopyInterfaceSameType(other, self, w);
      Count(w'[other.model.value].connections, self) == 0
      && (HasConnection(other.slot) ==> DestroyInterface(c, w').Err?)
    ensures Count(AssignInterfaceSameType(i, other, w).1[other.model.value].connections, i.self) == 0
    ensures Count(CopyInterface(other, self, false, ownKind, w).1[other.model.value].connections, self) == 1
  {
    var id := other.model.value;
    CountConnect(w[id].connections, self, OnModelChanged, self);
  }

  /** `Get`: `NOT_NULL` on the model, then the getter. */
  function InterfaceGet(i: Interface, w: Models): (r: Result<Value>)
    requires Points(Handle(i), w)
    ensures r.Ok? <==> IsBound(i)
    ensures r.Err? ==> r.error == LogicError
    ensures r.Ok? ==> r == FilterGet(i.filter, Get(w[i.model.value]), LogicError)
  {
    if i.model.None? then Err(LogicError)
    else FilterGet(i.filter, w[i.model.value].value, LogicError)
  }

  /** `Set`, for read-write interfaces: `NOT_NULL` on the model, then the
      setter's output goes to the model's `Set`. */
  function InterfaceSet(i: Interface, w: Models, v: Value): (r: Result<(Models, seq<Call>)>)
    requires i.access == GetAndSetAccess && Points(Handle(i), w)
    ensures r.Ok? <==> IsBound(i)
    ensures r.Err? ==> r.error == LogicError
    ensures r.Ok? ==> var id := i.model.value;
      var (m', calls) := Set(w[id], FilterSet(i.filter, v, LogicError).value);
      r.value == (w[id := m'], calls)
  {
    if i.model.None? then Err(LogicError)
    else
      var u :- FilterSet(i.filter, v, LogicError);
      var (m', calls) := Set(w[i.model.value], u);
      Ok((w[i.model.value := m'], calls))
  }

  /** `OnModelChanged_`: the single observer hears the getter's view. */
  function InterfaceOnModelChanged(i: Interface, v: Value): (r: Result<seq<Call>>)
    ensures r.Err? <==> !Usable(i.filter)
    ensures r.Err? ==> r.error == LogicError
    ensures r.Ok? ==> r.value == NotifyOne(i.slot, FilterGet(i.filter, v, LogicError).value)
  {
    var u :- FilterGet(i.filter, v, LogicError);
    Ok(NotifyOne(i.slot, u))
  }

  /** An interface's `Set` reaches every interface on the model, itself
      included, and each one's observer hears that interface's `Get`. */
  lemma InterfaceSetEchoes(i: Interface, j: Interface, w: Models, v: Value, k: nat)
    requires i.access == GetAndSetAccess && InterfaceValid(i, w) && IsBound(i)
    requires j.model == i.model && Usable(j.filter)
    requires k < |InterfaceSet(i, w, v).value.1|
    requires InterfaceSet(i, w, v).value.1[k].observer == j.self
    ensures var (w', calls) := InterfaceSet(i, w, v).value;
      InterfaceOnModelChanged(j, calls[k].value) == Ok(NotifyOne(j.slot, InterfaceGet(j, w').value))
  {
    var id := i.model.value;
    var (w', calls) := InterfaceSet(i, w, v).value;
    assert calls == Set(w[id], FilterSet(i.filter, v, LogicError).value).1;
  }

  /** An interface built on a model is notified of its changes exactly
      once per change until it is destroyed. */
  lemma InterfaceConnectedOnce(w: Models, id: ModelId, self: Observer, access: Access, filter: Filter)
    requires id in w && Valid(w[id]) && Count(w[id].connections, self) == 0
    ensures var r := NewInterface(w, id, self, access, filter);
      Count(r.1[id].connections, self) == 1
      && DestroyInterface(r.0, r.1).Ok?
      && DestroyInterface(r.0, r.1).value[id] == ModelDisconnect(w[id], self)
  {
    var r := NewInterface(w, id, self, access, filter);
    var m := w[id];
    var m1 := ModelConnect(m, self, OnModelChanged);
    assert r.1[id] == m1;
    assert Count(m1.connections, self) == 1 by {
      CountConnect(m.connections, self, OnModelChanged, self);
    }
    assert !HasConnection(r.0.slot);
    var d := DestroyInterface(r.0, r.1);
    assert d.Ok? && d.value == r.1[id := ModelDisconnect(m1, self)];
    assert ModelDisconnect(m1, self) == ModelDisconnect(m, self) by {
      ModelConnectDisconnect(m, self, OnModelChanged);
    }
  }
}
