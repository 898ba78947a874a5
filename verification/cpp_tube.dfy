/** The older value nodes of `value.h`: a `Tube` is a sorted callback
    list, a `ModelValue` stores a value and calls its callbacks on `Set`,
    and an `InterfaceValue` tracks one model value for its own callbacks.

  An interface value always has a model, so its operations take that
  model's state as an argument and return the new one. A void filter is
  `None`.
 */
module Tubes {
  import opened Wrappers
  import opened Connections

  type Value = int

  /** `ModelValue<T, Filter>`: `Filter::Call` applies on `Set` only. */
  datatype ModelValue = ModelValue(filter: Option<Value -> Value>, value: Value, callbacks: seq<Connection>)

  ghost predicate Valid(m: ModelValue) {
    Sorted(m.callbacks)
  }

  /** `ModelValue()` and `ModelValue(value)`: the value is stored as given,
      without the filter. */
  function NewModelValue(init: Option<Value>, filter: Option<Value -> Value>): (m: ModelValue)
    ensures Valid(m) && m.callbacks == [] && m.filter == filter
    ensures ModelGet(m) == init.GetOr(0)
  {
    ModelValue(filter, init.GetOr(0), [])
  }

  function ModelGet(m: ModelValue): Value { m.value }

  /** What `Set` stores: `Filter::Call(v)`, or `v` with a void filter. */
  function Stored(m: ModelValue, v: Value): Value {
    if m.filter.None? then v else m.filter.value(v)
  }

  /** `Set`: store, then call every callback in order with the stored
      value. */
  function ModelSet(m: ModelValue, v: Value): (r: (ModelValue, seq<Call>))
    ensures ModelGet(r.0) == Stored(m, v)
    ensures r.0.filter == m.filter && r.0.callbacks == m.callbacks
    ensures |r.1| == |m.callbacks|
    ensures forall i :: 0 <= i < |r.1| ==>
      r.1[i] == Call(m.callbacks[i].observer, m.callbacks[i].callable, ModelGet(r.0))
  {
    var m' := m.(value := Stored(m, v));
    (m', NotifyMany(m'.callbacks, m'.value))
  }

  /** `Tube::Connect`: the sorted insert after the observer's existing
      callbacks. */
  function TubeConnect(m: ModelValue, o: Observer, f: Callable): (m': ModelValue)
    requires Valid(m)
    ensures Valid(m') && m'.callbacks == Connect(m.callbacks, o, f)
    ensures m'.value == m.value && m'.filter == m.filter
  {
    ConnectKeepsSorted(m.callbacks, o, f);
    m.(callbacks := Connect(m.callbacks, o, f))
  }

  /** `Tube::Disconnect`: every callback of the observer goes. */
  function TubeDisconnect(m: ModelValue, o: Observer): (m': ModelValue)
    requires Valid(m)
    ensures Valid(m') && m'.callbacks == Disconnect(m.callbacks, o)
    ensures m'.value == m.value && m'.filter == m.filter
  {
    m.(callbacks := Disconnect(m.callbacks, o))
  }

  /** Unlike `model::Value_`, the constructor does not filter: a value
      that `Set` would change is stored as given. */
  lemma ConstructorDoesNotFilter()
    ensures var m := NewModelValue(Some(5), Some(x => 0));
      ModelGet(m) == 5 && ModelGet(ModelSet(m, 5).0) == 0
  {
  }

  // ---------------------------------------------------------------------
  // InterfaceValue

  /** `OnModelChanged_`, as a callable. */
  const OnModelChanged: Callable := 2

  /** The static `InterfaceFilter`: a getter and a setter. */
  datatype InterfaceFilter = InterfaceFilter(onGet: Value -> Value, onSet: Value -> Value)

  /** An `InterfaceValue`: its address, its filter and its own callbacks. */
  datatype InterfaceValue = InterfaceValue(self: Observer, filter: Option<InterfaceFilter>, callbacks: seq<Connection>)

  function FilterGet(i: InterfaceValue, v: Value): Value {
    if i.filter.None? then v else i.filter.value.onGet(v)
  }

  function FilterSet(i: InterfaceValue, v: Value): Value {
    if i.filter.None? then v else i.filter.value.onSet(v)
  }

  /** The constructor connects to the model. */
  function NewInterfaceValue(m: ModelValue, self: Observer, filter: Option<InterfaceFilter>)
    : (r: (InterfaceValue, ModelValue))
    requires Valid(m)
    ensures r.0 == InterfaceValue(self, filter, [])
    ensures r.1 == TubeConnect(m, self, OnModelChanged)
  {
    (InterfaceValue(self, filter, []), TubeConnect(m, self, OnModelChanged))
  }

  /** The copy constructor tracks the same model and connects to it too;
      the copy starts without callbacks of its own. */
  function CopyInterfaceValue(other: InterfaceValue, m: ModelValue, self: Observer)
    : (r: (InterfaceValue, ModelValue))
    requires Valid(m)
    ensures r.0 == InterfaceValue(self, other.filter, [])
    ensures r.1 == TubeConnect(m, self, OnModelChanged)
  {
    NewInterfaceValue(m, self, other.filter)
  }

  /** The destructor disconnects from the model: every callback of the
      interface goes, the model keeps its value, its filter and every
      other callback. */
  function DestroyInterfaceValue(i: InterfaceValue, m: ModelValue): (m': ModelValue)
    requires Valid(m)
    ensures Valid(m') && m'.value == m.value && m'.filter == m.filter
    ensures Count(m'.callbacks, i.self) == 0
    ensures forall c :: c in m'.callbacks <==> c in m.callbacks && c.observer != i.self
  {
    WithoutDropsObserver(m.callbacks, i.self);
    CountWithout(m.callbacks, i.self, i.self);
    TubeDisconnect(m, i.self)
  }

  /** `Get`: the model's value through the getter. */
  function InterfaceValueGet(i: InterfaceValue, m: ModelValue): (v: Value)
    ensures i.filter.None? ==> v == ModelGet(m)
    ensures i.filter.Some? ==> v == i.filter.value.onGet(ModelGet(m))
  {
    FilterGet(i, m.value)
  }

  /** `Set`: the setter's output goes to the model's `Set`, so the model
      stores it through its own filter and calls every model callback once,
      in order, with the stored value; without filters, `Get` then reads
      back what was set. */
  function InterfaceValueSet(i: InterfaceValue, m: ModelValue, v: Value): (r: (ModelValue, seq<Call>))
    ensures ModelGet(r.0) == Stored(m, FilterSet(i, v))
    ensures r.0.callbacks == m.callbacks && r.0.filter == m.filter
    ensures |r.1| == |m.callbacks|
    ensures forall k :: 0 <= k < |r.1| ==>
      r.1[k] == Call(m.callbacks[k].observer, m.callbacks[k].callable, ModelGet(r.0))
    ensures i.filter.None? && m.filter.None? ==> InterfaceValueGet(i, r.0) == v
  {
    ModelSet(m, FilterSet(i, v))
  }

  /** `OnModelChanged_`: the interface's callbacks hear the getter's view,
      in order. */
  function InterfaceOnModelChanged(i: InterfaceValue, v: Value): (calls: seq<Call>)
    ensures |calls| == |i.callbacks|
    ensures forall k :: 0 <= k < |calls| ==> calls[k].value == FilterGet(i, v)
  {
    NotifyMany(i.callbacks, FilterGet(i, v))
  }

  /** A `Set` through one interface reaches the other interfaces on the
      model, and each passes on what its own `Get` reads afterwards. */
  lemma InterfaceValueEchoes(i: InterfaceValue, j: InterfaceValue, m: ModelValue, v: Value, k: nat)
    requires k < |InterfaceValueSet(i, m, v).1|
    ensures var (m', calls) := InterfaceValueSet(i, m, v);
      ModelGet(m') == Stored(m, FilterSet(i, v))
      && InterfaceOnModelChanged(j, calls[k].value) == NotifyMany(j.callbacks, InterfaceValueGet(j, m'))
  {
  }

  /** Constructing an interface value and destroying it leaves the model
      as disconnecting alone would, and no callback of it remains. */
  lemma InterfaceValueLifecycle(m: ModelValue, self: Observer, filter: Option<InterfaceFilter>)
    requires Valid(m)
    ensures var r := NewInterfaceValue(m, self, filter);
      DestroyInterfaceValue(r.0, r.1) == TubeDisconnect(m, self)
      && Count(DestroyInterfaceValue(r.0, r.1).callbacks, self) == 0
  {
    ConnectDisconnect(m.callbacks, self, OnModelChanged, 0);
    CountWithout(m.callbacks, self, self);
  }
}
