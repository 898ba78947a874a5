/** The C++ model value node `model::Value_`, the `model::Direct` handle
    that controls use to reach it, and the scoped editors built on it:
    `Transaction`, `Reference`, `Defer` and `ConstReference`.

  A model is a record of its filter, its stored value and its sorted
  connection list; the handles name a model in a store of models, since
  several of them may point at one model. Values are `int`, and `Type{}`
  is 0.
 */
module ModelValues {
  import opened Wrappers
  import opened Connections

  type Value = int

  /** The two directions of a filter. */
  datatype Fns = Fns(onSet: Value -> Value, onGet: Value -> Value)

  /** A model's filter: `None` is `NoFilter`. */
  type ModelFilter = Option<Fns>

  /** `FilterOnSet_`: the raw value with `NoFilter`. */
  function FilterOnSet(f: ModelFilter, v: Value): Value {
    if f.None? then v else f.value.onSet(v)
  }

  /** `FilterOnGet_`: the raw value with `NoFilter`. */
  function FilterOnGet(f: ModelFilter, v: Value): Value {
    if f.None? then v else f.value.onGet(v)
  }

  /** `FilterOnSet_` on an optional type: an empty value is returned as it
      is, a held one is filtered. */
  function FilterOnSetOptional(f: ModelFilter, v: Option<Value>): (r: Option<Value>)
    ensures r.None? <==> v.None?
    ensures v.Some? ==> r.value == FilterOnSet(f, v.value)
  {
    match v
    case None => None
    case Some(x) => Some(FilterOnSet(f, x))
  }

  /** `FilterOnGet_` on an optional type. */
  function FilterOnGetOptional(f: ModelFilter, v: Option<Value>): (r: Option<Value>)
    ensures r.None? <==> v.None?
    ensures v.Some? ==> r.value == FilterOnGet(f, v.value)
  {
    match v
    case None => None
    case Some(x) => Some(FilterOnGet(f, x))
  }

  /** Whatever the filter, an empty optional passes through both
      directions, and without a filter every value does. */
  lemma OptionalFiltersPassEmpty(f: ModelFilter, v: Option<Value>)
    ensures FilterOnSetOptional(f, None) == None && FilterOnGetOptional(f, None) == None
    ensures FilterOnSetOptional(None, v) == v && FilterOnGetOptional(None, v) == v
  {
  }

  // ---------------------------------------------------------------------
  // model::Value_

  datatype Model = Model(filter: ModelFilter, value: Value, connections: seq<Connection>)

  /** The connection list is sorted by observer, as `Connect` keeps it. */
  ghost predicate Valid(m: Model) {
    Sorted(m.connections)
  }

  /** The stored value is something the filter's setter returns. */
  ghost predicate IsFilterOutput(m: Model) {
    exists x :: FilterOnSet(m.filter, x) == m.value
  }

  /** The four constructors: the given value, or `Type{}`, passed through
      `FilterOnSet_`, and no connections. */
  function NewModel(init: Option<Value>, filter: ModelFilter): (m: Model)
    ensures Valid(m) && IsFilterOutput(m)
    ensures m.filter == filter && m.connections == []
    ensures m.value == FilterOnSet(filter, init.GetOr(0))
  {
    Model(filter, FilterOnSet(filter, init.GetOr(0)), [])
  }

  function Get(m: Model): Value { m.value }

  /** `SetWithoutNotify_`: store the filtered value, call nobody. */
  function SetWithoutNotify(m: Model, v: Value): (m': Model)
    ensures Get(m') == FilterOnSet(m.filter, v)
    ensures IsFilterOutput(m')
    ensures m'.filter == m.filter && m'.connections == m.connections
  {
    m.(value := FilterOnSet(m.filter, v))
  }

  /** `DoNotify_`: every connection once, in order, with the stored value. */
  function DoNotify(m: Model): (calls: seq<Call>)
    ensures |calls| == |m.connections|
    ensures forall i :: 0 <= i < |calls| ==>
      calls[i] == Call(m.connections[i].observer, m.connections[i].callable, Get(m))
  {
    NotifyMany(m.connections, m.value)
  }

  /** `Set`: store the filtered value, then one round of notifications
      carrying it. */
  function Set(m: Model, v: Value): (r: (Model, seq<Call>))
    ensures r.0 == SetWithoutNotify(m, v)
    ensures |r.1| == |m.connections|
    ensures forall i :: 0 <= i < |r.1| ==>
      r.1[i] == Call(m.connections[i].observer, m.connections[i].callable, FilterOnSet(m.filter, v))
  {
    var m' := SetWithoutNotify(m, v);
    (m', DoNotify(m'))
  }

  /** `SetFilter`: only the filter changes. */
  function SetFilter(m: Model, f: ModelFilter): (m': Model)
    ensures m'.filter == f
    ensures Get(m') == Get(m) && m'.connections == m.connections
  {
    m.(filter := f)
  }

  /** Every operation but `SetFilter` keeps the stored value an output of
      the filter; `SetFilter` keeps the old value even when the new filter
      could never have produced it. */
  lemma SetFilterDoesNotRefilter()
    ensures var m := SetFilter(NewModel(Some(5), None), Some(Fns(x => 0, x => x)));
      Get(m) == 5 && !IsFilterOutput(m)
  {
    var m := SetFilter(NewModel(Some(5), None), Some(Fns(x => 0, x => x)));
    assert forall x :: FilterOnSet(m.filter, x) == 0;
  }

  /** `Connect` on the model's list. */
  function ModelConnect(m: Model, o: Observer, f: Callable): (m': Model)
    requires Valid(m)
    ensures Valid(m')
    ensures m'.connections == Connect(m.connections, o, f)
    ensures m'.filter == m.filter && Get(m') == Get(m)
  {
    ConnectKeepsSorted(m.connections, o, f);
    m.(connections := Connect(m.connections, o, f))
  }

  /** `Disconnect` on the model's list. */
  function ModelDisconnect(m: Model, o: Observer): (m': Model)
    requires Valid(m)
    ensures Valid(m')
    ensures m'.connections == Disconnect(m.connections, o)
    ensures m'.filter == m.filter && Get(m') == Get(m)
  {
    m.(connections := Disconnect(m.connections, o))
  }

  /** Storing a value and then notifying is `Set`: observers see the value
      `Get` returns afterwards, and the stored value never depends on what
      was stored before. */
  lemma SetThenGet(m: Model, n: Model, v: Value)
    requires m.filter == n.filter && m.connections == n.connections
    ensures Set(m, v) == Set(n, v)
    ensures forall c :: c in Set(m, v).1 ==> c.value == Get(Set(m, v).0)
  {
  }

  // ---------------------------------------------------------------------
  // model::Direct

  type ModelId = nat

  /** The models a program holds, by address. */
  type Models = map<ModelId, Model>

  /** `Direct`: a possibly null pointer to a model. */
  datatype Direct = Direct(model: Option<ModelId>)

  /** A non-null pointer points at a live model. */
  ghost predicate Points(d: Direct, w: Models) {
    d.model.Some? ==> d.model.value in w
  }

  /** ... whose connection list is sorted. */
  ghost predicate PointsValid(d: Direct, w: Models) {
    Points(d, w) && (d.model.Some? ==> Valid(w[d.model.value]))
  }

  function HasModel(d: Direct): bool { d.model.Some? }

  /** `Get`: the model's value; `REQUIRE_HAS_VALUE` fails without one. */
  function DirectGet(d: Direct, w: Models): (r: Result<Value>)
    requires Points(d, w)
    ensures r.Err? <==> !HasModel(d)
    ensures r.Err? ==> r.error == MissingValue
    ensures r.Ok? ==> r.value == Get(w[d.model.value])
  {
    if d.model.None? then Err(MissingValue) else Ok(w[d.model.value].value)
  }

  /** `Set`: the model's `Set`; `REQUIRE_HAS_VALUE` fails without one. */
  function DirectSet(d: Direct, w: Models, v: Value): (r: Result<(Models, seq<Call>)>)
    requires Points(d, w)
    ensures r.Err? <==> !HasModel(d)
    ensures r.Err? ==> r.error == MissingValue
    ensures r.Ok? ==> r.value == (w[d.model.value := Set(w[d.model.value], v).0], Set(w[d.model.value], v).1)
  {
    if d.model.None? then Err(MissingValue)
    else
      var (m', calls) := Set(w[d.model.value], v);
      Ok((w[d.model.value := m'], calls))
  }

  /** `Connect`: a no-op without a model. */
  function DirectConnect(d: Direct, w: Models, o: Observer, f: Callable): (w': Models)
    requires PointsValid(d, w)
    ensures PointsValid(d, w') && w'.Keys == w.Keys
    ensures !HasModel(d) ==> w' == w
    ensures HasModel(d) ==> w' == w[d.model.value := ModelConnect(w[d.model.value], o, f)]
  {
    if d.model.None? then w else w[d.model.value := ModelConnect(w[d.model.value], o, f)]
  }

  /** `ConnectOnce`: a no-op without a model; with one, the model's own
      `ConnectOnce`, which is a parameter here. */
  function DirectConnectOnce(d: Direct, w: Models, connectOnce: Model -> Model): (w': Models)
    requires Points(d, w)
    ensures w'.Keys == w.Keys
    ensures !HasModel(d) ==> w' == w
    ensures HasModel(d) ==> w' == w[d.model.value := connectOnce(w[d.model.value])]
  {
    if d.model.None? then w else w[d.model.value := connectOnce(w[d.model.value])]
  }

  /** `Disconnect`: a no-op without a model. */
  function DirectDisconnect(d: Direct, w: Models, o: Observer): (w': Models)
    requires PointsValid(d, w)
    ensures PointsValid(d, w') && w'.Keys == w.Keys
    ensures !HasModel(d) ==> w' == w
    ensures HasModel(d) ==> w' == w[d.model.value := ModelDisconnect(w[d.model.value], o)]
  {
    if d.model.None? then w else w[d.model.value := ModelDisconnect(w[d.model.value], o)]
  }

  /** `GetModel_`: logic_error without a model. */
  function GetModel(d: Direct, w: Models): (r: Result<Model>)
    requires Points(d, w)
    ensures r.Err? <==> !HasModel(d)
    ensures r.Err? ==> r.error == LogicError
    ensures r.Ok? ==> r.value == w[d.model.value]
  {
    if d.model.None? then Err(LogicError) else Ok(w[d.model.value])
  }

  /** A null `Direct` changes nothing and reads nothing. */
  lemma DirectWithoutModel(w: Models, o: Observer, f: Callable, v: Value)
    ensures var d := Direct(None);
      DirectConnect(d, w, o, f) == w && DirectDisconnect(d, w, o) == w
      && DirectGet(d, w).Err? && DirectSet(d, w, v).Err? && GetModel(d, w).Err?
  {
  }

  /** On a model, disconnecting undoes connecting, and afterwards no
      connection of the observer is left. */
  lemma ModelConnectDisconnect(m: Model, o: Observer, f: Callable)
    requires Valid(m)
    ensures ModelDisconnect(ModelConnect(m, o, f), o) == ModelDisconnect(m, o)
    ensures forall c :: c in ModelDisconnect(m, o).connections ==> c.observer != o
  {
    ConnectDisconnect(m.connections, o, f, 0);
    WithoutDropsObserver(m.connections, o);
  }

  /** Through a bound `Direct`, disconnecting undoes connecting, and
      afterwards the model holds no connection of that observer. */
  lemma DirectConnectDisconnect(d: Direct, w: Models, o: Observer, f: Callable)
    requires PointsValid(d, w) && HasModel(d)
    ensures DirectDisconnect(d, DirectConnect(d, w, o, f), o) == DirectDisconnect(d, w, o)
    ensures forall c :: c in DirectDisconnect(d, w, o)[d.model.value].connections ==> c.observer != o
  {
    var id := d.model.value;
    ModelConnectDisconnect(w[id], o, f);
    var w1 := DirectConnect(d, w, o, f);
    assert w1[id] == ModelConnect(w[id], o, f);
    assert w1[id := ModelDisconnect(w1[id], o)] == w[id := ModelDisconnect(w[id], o)];
  }

  // ---------------------------------------------------------------------
  // Transaction

  /** A `Transaction`: `armed` while its model pointer is set, with the
      value captured at construction. */
  datatype Transaction = Transaction(armed: bool, oldValue: Value)

  /** `Transaction(model)`: capture the current value. */
  function Begin(m: Model): (t: Transaction)
    ensures t.armed && t.oldValue == Get(m)
  {
    Transaction(true, m.value)
  }

  /** `Transaction(model, value)`: capture, then store without notifying. */
  function BeginWith(m: Model, v: Value): (r: (Transaction, Model))
    ensures r.0 == Begin(m)
    ensures r.1 == SetWithoutNotify(m, v)
  {
    (Transaction(true, m.value), SetWithoutNotify(m, v))
  }

  /** `Get`: `NOT_NULL` throws once the transaction is committed. */
  function TransactionGet(t: Transaction, m: Model): (r: Result<Value>)
    ensures r.Err? <==> !t.armed
    ensures r.Err? ==> r.error == LogicError
    ensures r.Ok? ==> r.value == Get(m)
  {
    if t.armed then Ok(m.value) else Err(LogicError)
  }

  /** `Set`: store without notifying; `NOT_NULL` throws once committed. */
  function TransactionSet(t: Transaction, m: Model, v: Value): (r: Result<Model>)
    ensures r.Err? <==> !t.armed
    ensures r.Err? ==> r.error == LogicError
    ensures r.Ok? ==> r.value == SetWithoutNotify(m, v)
  {
    if t.armed then Ok(SetWithoutNotify(m, v)) else Err(LogicError)
  }

  /** `Commit`: one round of notifications with the current value, then
      disarm; a disarmed transaction does nothing. */
  function Commit(t: Transaction, m: Model): (r: (Transaction, seq<Call>))
    ensures !r.0.armed && r.0.oldValue == t.oldValue
    ensures t.armed ==> r.1 == DoNotify(m)
    ensures !t.armed ==> r.1 == []
  {
    if t.armed then (t.(armed := false), DoNotify(m)) else (t, [])
  }

  /** The destructor: an armed transaction stores the captured value back
      through `SetWithoutNotify_`; a committed one changes nothing. */
  function EndTransaction(t: Transaction, m: Model): (m': Model)
    ensures !t.armed ==> m' == m
    ensures t.armed ==> m' == SetWithoutNotify(m, t.oldValue)
  {
    if t.armed then SetWithoutNotify(m, t.oldValue) else m
  }

  /** A run of `Set`s through an armed transaction. */
  function TransactionSets(m: Model, writes: seq<Value>): (m': Model)
    ensures m'.filter == m.filter && m'.connections == m.connections
    decreases |writes|
  {
    if |writes| == 0 then m else TransactionSets(SetWithoutNotify(m, writes[0]), writes[1..])
  }

  /** After a run of writes the model holds the last one, filtered. */
  lemma {:induction false} TransactionSetsLast(m: Model, writes: seq<Value>)
    requires |writes| > 0
    ensures Get(TransactionSets(m, writes)) == FilterOnSet(m.filter, writes[|writes| - 1])
    decreases |writes|
  {
    if |writes| > 1 {
      TransactionSetsLast(SetWithoutNotify(m, writes[0]), writes[1..]);
    }
  }

  /** The filter gives back its own outputs unchanged. */
  ghost predicate IdempotentFilter(f: ModelFilter) {
    forall x :: FilterOnSet(f, FilterOnSet(f, x)) == FilterOnSet(f, x)
  }

  /** An uncommitted transaction, whatever it wrote, sends nothing and
      leaves the model as it found it, provided the filter does not move
      its own outputs. */
  lemma TransactionReverts(m: Model, writes: seq<Value>)
    requires IsFilterOutput(m) && IdempotentFilter(m.filter)
    ensures EndTransaction(Begin(m), TransactionSets(m, writes)) == m
  {
    var x :| FilterOnSet(m.filter, x) == m.value;
    assert FilterOnSet(m.filter, FilterOnSet(m.filter, x)) == FilterOnSet(m.filter, x);
  }

  /** With a filter that moves its own outputs the revert does not restore
      the captured value: the destructor filters it a second time. */
  lemma TransactionRevertRefilters()
    ensures var m := NewModel(Some(1), Some(Fns(x => x + 1, x => x)));
      Get(m) == 2 && Get(EndTransaction(Begin(m), m)) == 3
  {
  }

  /** A committed transaction notifies once, every observer in order, with
      the last value written, and its destruction keeps that value. */
  lemma TransactionCommits(m: Model, writes: seq<Value>)
    requires |writes| > 0
    ensures var m' := TransactionSets(m, writes);
      var (t, calls) := Commit(Begin(m), m');
      EndTransaction(t, m') == m'
      && |calls| == |m.connections|
      && (forall i :: 0 <= i < |calls| ==>
            calls[i] == Call(m.connections[i].observer, m.connections[i].callable,
                             FilterOnSet(m.filter, writes[|writes| - 1])))
      && Commit(t, m').1 == []
  {
    TransactionSetsLast(m, writes);
  }

  // ---------------------------------------------------------------------
  // Reference, Defer, ConstReference

  /** `Reference::Set`: the model's `Set`, so it notifies at once. */
  function ReferenceSet(m: Model, v: Value): (r: (Model, seq<Call>))
    ensures Get(r.0) == FilterOnSet(m.filter, v)
    ensures r.0.filter == m.filter && r.0.connections == m.connections
    ensures |r.1| == |m.connections|
    ensures forall i :: 0 <= i < |r.1| ==>
      r.1[i] == Call(m.connections[i].observer, m.connections[i].callable, Get(r.0))
  {
    Set(m, v)
  }

  /** A run of `Reference::Set`s: one round of notifications per write. */
  function ReferenceSets(m: Model, writes: seq<Value>): (r: (Model, seq<Call>))
    ensures r.0 == TransactionSets(m, writes)
    ensures |r.1| == |writes| * |m.connections|
    decreases |writes|
  {
    if |writes| == 0 then (m, [])
    else
      var (m1, calls) := ReferenceSet(m, writes[0]);
      var (m2, rest) := ReferenceSets(m1, writes[1..]);
      (m2, calls + rest)
  }

  /** `Defer::Set`: store without notifying. */
  function DeferSet(m: Model, v: Value): (m': Model)
    ensures Get(m') == FilterOnSet(m.filter, v)
    ensures m'.filter == m.filter && m'.connections == m.connections
  {
    SetWithoutNotify(m, v)
  }

  /** A `Defer`'s life: any number of `Set`s, then the destructor's one
      `DoNotify_`. */
  function DeferSession(m: Model, writes: seq<Value>): (r: (Model, seq<Call>))
    ensures r.0.filter == m.filter && r.0.connections == m.connections
    ensures |writes| == 0 ==> r.0 == m
    ensures |writes| > 0 ==> Get(r.0) == FilterOnSet(m.filter, writes[|writes| - 1])
    ensures |r.1| == |m.connections|
    ensures forall i :: 0 <= i < |r.1| ==>
      r.1[i] == Call(m.connections[i].observer, m.connections[i].callable, Get(r.0))
  {
    var m' := TransactionSets(m, writes);
    if |writes| > 0 then TransactionSetsLast(m, writes); (m', DoNotify(m'))
    else (m', DoNotify(m'))
  }

  /** However many writes a `Defer` takes, its observers hear once, with
      the last value; a `Reference` given the same writes reaches the same
      model but notifies once per write. */
  lemma DeferNotifiesOnce(m: Model, writes: seq<Value>)
    requires |writes| > 0
    ensures var (m', calls) := DeferSession(m, writes);
      |calls| == |m.connections|
      && (forall c :: c in calls ==> c.value == FilterOnSet(m.filter, writes[|writes| - 1]))
      && ReferenceSets(m, writes).0 == m'
      && |ReferenceSets(m, writes).1| == |writes| * |calls|
  {
    TransactionSetsLast(m, writes);
  }

  /** `ConstReference::Get`: the stored value, without notifying. Only
      unfiltered models admit one. */
  function ConstReferenceGet(m: Model): (v: Value)
    requires m.filter.None?
    ensures v == Get(m)
  {
    m.value
  }
}
