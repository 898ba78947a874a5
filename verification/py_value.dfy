/** The Python value nodes: one model node per name and any number of
    interface nodes, linked by name through two process-wide value
    manifolds, plus the contexts that batch writes to model nodes.

  Routing, as the constructors wire it: a model node subscribes its
  `OnValueChanged_` on the model-side manifold and publishes on the
  interface-side manifold; an interface node does the reverse. Node
  objects are identified by `Ref`s (the referent of the weak reference to
  their bound `OnValueChanged_`). A delivery `Fired(n, v)` is node `n`
  running its local value callbacks (its `ValueCallbackManifold`) with `v`.
  Deliveries made by one `Publish` over a Python set have no defined order,
  so each publish contributes a set.
 */
module PyValue {
  import opened Wrappers
  import opened PyProxy
  import PyTube
  import M = PyManifold

  type NodeId = Ref

  /** A filter slot: the default identity filter, or an attached
      `FilterProxy`. The proxy's finaliser restores the default, so an
      attached filter is always alive when it is called. */
  datatype Filter = DefaultFilter | Attached(proxy: FilterProxy)

  function Apply(f: Filter, v: Value): Value
  {
    match f
    case DefaultFilter => v
    case Attached(p) => p.callback(v)
  }

  /** `DefaultFilterOnSet` and `DefaultFilterOnGet` are the identity. */
  lemma DefaultFilterIsIdentity(v: Value)
    ensures Apply(DefaultFilter, v) == v
  {
  }

  /** The four interface classes. */
  datatype InterfaceClass =
    | ReadableValue | InterfaceValue | FilteredReadOnlyValue | FilteredInterfaceValue
  {
    predicate Writable() { this == InterfaceValue || this == FilteredInterfaceValue }
    predicate Filtered() { this == FilteredReadOnlyValue || this == FilteredInterfaceValue }
  }

  /** A `ModelValue` (filtered == false) or `FilteredModelValue`. */
  datatype ModelNode = ModelNode(
    name: string, value: Value, filtered: bool, filterOnSet: Filter, callbacks: M.CallbackSet)

  /** An interface node; `model` is its strong reference `model_`. */
  datatype InterfaceNode = InterfaceNode(
    name: string, model: NodeId, cls: InterfaceClass,
    filterOnGet: Filter, filterOnSet: Filter, callbacks: M.CallbackSet)

  datatype Net = Net(
    registry: PyTube.Registry,
    modelSide: M.Manifold,
    interfaceSide: M.Manifold,
    models: map<NodeId, ModelNode>,
    interfaces: map<NodeId, InterfaceNode>)

  datatype Fired = Fired(node: NodeId, value: Value)

  /** The state reached and the deliveries made: first the receiving model
      nodes' own callbacks, then the echo to the interface nodes. */
  datatype Step = Step(net: Net, modelFired: set<Fired>, interfaceFired: set<Fired>)

  /** Model nodes are exactly the model-side subscribers, under their names. */
  ghost predicate ModelsWired(net: Net) {
    && net.modelSide.Valid()
    && (forall t, p :: net.modelSide.Subscribed(t, p) <==> p in net.models && net.models[p].name == t)
  }

  /** Interface nodes are exactly the interface-side subscribers. */
  ghost predicate InterfacesWired(net: Net) {
    && net.interfaceSide.Valid()
    && (forall t, p :: net.interfaceSide.Subscribed(t, p) <==> p in net.interfaces && net.interfaces[p].name == t)
  }

  /** Live model names are registered and name one model node each. */
  ghost predicate NamesUnique(net: Net) {
    && (forall p :: p in net.models ==> net.models[p].name in net.registry.modelNodeNames)
    && (forall p, q :: p in net.models && q in net.models && net.models[p].name == net.models[q].name ==> p == q)
  }

  /** Every interface node holds a live model node of its own name. */
  ghost predicate InterfacesHeld(net: Net) {
    forall i :: i in net.interfaces ==>
      net.interfaces[i].model in net.models
      && net.models[net.interfaces[i].model].name == net.interfaces[i].name
  }

  /** Only the filtered classes ever hold a non-default filter. */
  ghost predicate FiltersWhereAllowed(net: Net) {
    && (forall p :: p in net.models && !net.models[p].filtered ==> net.models[p].filterOnSet == DefaultFilter)
    && (forall i :: i in net.interfaces && !net.interfaces[i].cls.Filtered() ==>
          net.interfaces[i].filterOnGet == DefaultFilter && net.interfaces[i].filterOnSet == DefaultFilter)
  }

  /** The wiring the constructors and finalisers maintain. */
  ghost predicate Valid(net: Net) {
    && net.models.Keys !! net.interfaces.Keys
    && ModelsWired(net) && InterfacesWired(net) && NamesUnique(net)
    && InterfacesHeld(net) && FiltersWhereAllowed(net)
  }

  /** `b` differs from `a` at most in the values the model nodes hold. */
  ghost predicate SameWiring(a: Net, b: Net) {
    && a.registry == b.registry && a.modelSide == b.modelSide && a.interfaceSide == b.interfaceSide
    && a.interfaces == b.interfaces && a.models.Keys == b.models.Keys
    && (forall p :: p in a.models ==> b.models[p] == a.models[p].(value := b.models[p].value))
  }

  lemma SameWiringKeepsValid(a: Net, b: Net)
    requires SameWiring(a, b)
    ensures Valid(a) ==> Valid(b)
  {
    if Valid(a) {
      SameWiringKeepsValidParts(a, b);
    }
  }

  lemma SameWiringKeepsValidParts(a: Net, b: Net)
    requires Valid(a) && SameWiring(a, b)
    ensures Valid(b)
  {
    assert ModelsWired(b);
    assert NamesUnique(b);
    assert InterfacesHeld(b);
    assert FiltersWhereAllowed(b);
  }

  lemma SameWiringTransitive(a: Net, b: Net, c: Net)
    requires SameWiring(a, b) && SameWiring(b, c)
    ensures SameWiring(a, c)
  {
  }

  function EmptyNet(registry: PyTube.Registry): (net: Net)
    ensures Valid(net)
  {
    Net(registry, M.Empty(), M.Empty(), map[], map[])
  }

  /** `ModelValue.Create(name, value)` or `FilteredModelValue(name, value)`:
      claim the name, store the initial value unfiltered, subscribe on the
      model side. */
  function CreateModel(net: Net, id: NodeId, name: string, v: Value, filtered: bool): (r: Result<Net>)
    requires Valid(net)
    requires id !in net.models && id !in net.interfaces
    ensures r.Err? <==> name in net.registry.modelNodeNames
    ensures r.Err? ==> r.error == RuntimeError
    ensures r.Ok? ==> (Valid(r.value)
      && r.value.models == net.models[id := ModelNode(name, v, filtered, DefaultFilter, M.CallbackSet({}))]
      && r.value.interfaces == net.interfaces
      && r.value.registry.modelNodeNames == net.registry.modelNodeNames + {name})
  {
    match PyTube.Create(net.registry, name, PyTube.ModelNode)
    case Err(e) => Err(e)
    case Ok((registry, _)) =>
      Ok(Net(registry, M.Subscribe(net.modelSide, name, id), net.interfaceSide,
             net.models[id := ModelNode(name, v, filtered, DefaultFilter, M.CallbackSet({}))],
             net.interfaces))
  }

  /** Create an interface node of class `cls` on model node `m`; it takes
      the model's name and subscribes on the interface side. Interface
      nodes never consult the registry. */
  function CreateInterface(net: Net, id: NodeId, m: NodeId, cls: InterfaceClass): (net': Net)
    requires Valid(net)
    requires m in net.models
    requires id !in net.models && id !in net.interfaces
    ensures Valid(net')
    ensures net'.registry == net.registry && net'.models == net.models
    ensures net'.modelSide == net.modelSide
    ensures net'.interfaces.Keys == net.interfaces.Keys + {id}
    ensures net'.interfaces[id].name == net.models[m].name && net'.interfaces[id].model == m
    ensures net'.interfaces[id].cls == cls
    ensures net'.interfaces[id].filterOnGet == DefaultFilter && net'.interfaces[id].filterOnSet == DefaultFilter
    ensures net'.interfaces[id].callbacks.callbacks == {}
    ensures forall i :: i in net.interfaces ==> net'.interfaces[i] == net.interfaces[i]
  {
    var node := InterfaceNode(net.models[m].name, m, cls, DefaultFilter, DefaultFilter, M.CallbackSet({}));
    Net(net.registry, net.modelSide, M.Subscribe(net.interfaceSide, node.name, id),
        net.models, net.interfaces[id := node])
  }

  /** `ModelValue.GetInterfaceNode()` creates a plain `InterfaceValue`. */
  function GetInterfaceNode(net: Net, id: NodeId, m: NodeId): (net': Net)
    requires Valid(net)
    requires m in net.models
    requires id !in net.models && id !in net.interfaces
    ensures Valid(net')
    ensures id in net'.interfaces && net'.interfaces[id].cls == InterfaceValue
    ensures net'.interfaces[id].name == net.models[m].name && net'.interfaces[id].model == m
  {
    CreateInterface(net, id, m, InterfaceValue)
  }

  /** `Get` on an interface node reads the model (`model_.Get()`) through
      its filter on get; unfiltered classes return the model value. */
  function InterfaceGet(net: Net, i: NodeId): (v: Value)
    requires Valid(net)
    requires i in net.interfaces
    ensures !net.interfaces[i].cls.Filtered() ==> v == net.models[net.interfaces[i].model].value
  {
    Apply(net.interfaces[i].filterOnGet, net.models[net.interfaces[i].model].value)
  }

  /** `Connect(callback)` on a node adds the callback to its local set. */
  function Connect(net: Net, n: NodeId, callback: Ref): (net': Net)
    requires Valid(net)
    requires n in net.models || n in net.interfaces
    ensures Valid(net')
    ensures n in net'.models ==> callback in net'.models[n].callbacks.callbacks
    ensures n in net'.interfaces ==> callback in net'.interfaces[n].callbacks.callbacks
    ensures net'.models.Keys == net.models.Keys && net'.interfaces.Keys == net.interfaces.Keys
    ensures net'.registry == net.registry
    ensures net'.modelSide == net.modelSide && net'.interfaceSide == net.interfaceSide
    ensures n in net.models ==> net'.models[n] == net.models[n].(callbacks := net'.models[n].callbacks)
    ensures n in net.interfaces ==> net'.interfaces[n] == net.interfaces[n].(callbacks := net'.interfaces[n].callbacks)
    ensures n in net.models ==> forall q :: q != callback ==>
      (q in net'.models[n].callbacks.callbacks <==> q in net.models[n].callbacks.callbacks)
    ensures n in net.interfaces ==> forall q :: q != callback ==>
      (q in net'.interfaces[n].callbacks.callbacks <==> q in net.interfaces[n].callbacks.callbacks)
    ensures forall p :: p in net.models && p != n ==> net'.models[p] == net.models[p]
    ensures forall i :: i in net.interfaces && i != n ==> net'.interfaces[i] == net.interfaces[i]
  {
    WithCallback(net, n, callback)
  }

  /** The callback added to node `n`'s local set, whichever kind it is. */
  function WithCallback(net: Net, n: NodeId, callback: Ref): Net
    requires n in net.models || n in net.interfaces
  {
    if n in net.models then
      net.(models := net.models[n := net.models[n].(callbacks := M.Add(net.models[n].callbacks, callback))])
    else
      net.(interfaces := net.interfaces[n := net.interfaces[n].(callbacks := M.Add(net.interfaces[n].callbacks, callback))])
  }

  lemma WithCallbackCommutes(net: Net, n: NodeId, a: Ref, b: Ref)
    requires n in net.models || n in net.interfaces
    ensures WithCallback(WithCallback(net, n, a), n, b) == WithCallback(WithCallback(net, n, b), n, a)
    ensures WithCallback(WithCallback(net, n, a), n, a) == WithCallback(net, n, a)
  {
    if n in net.models {
      var node := net.models[n];
      assert M.Add(M.Add(node.callbacks, a), b) == M.Add(M.Add(node.callbacks, b), a);
      assert M.Add(M.Add(node.callbacks, a), a) == M.Add(node.callbacks, a);
    } else {
      var node := net.interfaces[n];
      assert M.Add(M.Add(node.callbacks, a), b) == M.Add(M.Add(node.callbacks, b), a);
      assert M.Add(M.Add(node.callbacks, a), a) == M.Add(node.callbacks, a);
    }
  }

  /** A new interface node reads its model's value through the default
      filter, and hears every later `Set` of that model with the value
      the model then holds. */
  lemma NewInterfaceFollowsModel(net: Net, id: NodeId, m: NodeId, cls: InterfaceClass, v: Value)
    requires Valid(net)
    requires m in net.models
    requires id !in net.models && id !in net.interfaces
    ensures var net1 := CreateInterface(net, id, m, cls);
      var s := ModelSet(net1, m, v);
      InterfaceGet(net1, id) == net.models[m].value
      && Fired(id, s.net.models[m].value) in s.interfaceFired
      && InterfaceGet(s.net, id) == s.net.models[m].value
  {
  }

  /** Connecting is adding to a set: connecting a callback twice is
      connecting it once, two callbacks may be connected in either order,
      and no value or delivery changes. */
  lemma ConnectIsSetInsertion(net: Net, n: NodeId, a: Ref, b: Ref, m: NodeId, v: Value)
    requires Valid(net)
    requires n in net.models || n in net.interfaces
    requires m in net.models
    ensures Connect(Connect(net, n, a), n, a) == Connect(net, n, a)
    ensures Connect(Connect(net, n, a), n, b) == Connect(Connect(net, n, b), n, a)
    ensures ModelSet(Connect(net, n, a), m, v).interfaceFired == ModelSet(net, m, v).interfaceFired
  {
    ConnectTwice(net, n, a, b);
    ConnectKeepsDeliveries(net, n, a, m, v);
  }

  lemma ConnectTwice(net: Net, n: NodeId, a: Ref, b: Ref)
    requires Valid(net)
    requires n in net.models || n in net.interfaces
    ensures Connect(Connect(net, n, a), n, a) == Connect(net, n, a)
    ensures Connect(Connect(net, n, a), n, b) == Connect(Connect(net, n, b), n, a)
  {
    WithCallbackCommutes(net, n, a, b);
  }

  lemma ConnectKeepsDeliveries(net: Net, n: NodeId, a: Ref, m: NodeId, v: Value)
    requires Valid(net)
    requires n in net.models || n in net.interfaces
    requires m in net.models
    ensures ModelSet(Connect(net, n, a), m, v).interfaceFired == ModelSet(net, m, v).interfaceFired
  {
    var c := Connect(net, n, a);
    var s1 := ModelSet(c, m, v);
    var s0 := ModelSet(net, m, v);
    assert s1.net.models[m].value == s0.net.models[m].value;
    forall f ensures f in s1.interfaceFired <==> f in s0.interfaceFired {
      var Fired(j, w) := f;
    }
  }

  /** Store a value in model node `m` as is. */
  function Store(net: Net, m: NodeId, v: Value): (net': Net)
    requires m in net.models
    ensures m in net'.models && net'.models[m].value == v
    ensures SameWiring(net, net')
    ensures forall p :: p in net.models && p != m ==> net'.models[p] == net.models[p]
  {
    net.(models := net.models[m := net.models[m].(value := v)])
  }

  /** The deliveries of `interfaceManifold_.Publish(name, v)`: each
      interface node subscribed under the name passes `v` through its
      filter on get to its callbacks. */
  function Deliveries(net: Net, name: string, v: Value): (fired: set<Fired>)
    requires Valid(net)
    ensures forall i, w :: Fired(i, w) in fired <==>
      i in net.interfaces && net.interfaces[i].name == name && w == Apply(net.interfaces[i].filterOnGet, v)
  {
    set i | i in M.Subscribers(net.interfaceSide, name) :: Fired(i, Apply(net.interfaces[i].filterOnGet, v))
  }

  /** `SetWithoutNotify_`: store the value, through the filter on set for a
      filtered model (the default filter otherwise). */
  function SetWithoutNotify(net: Net, m: NodeId, v: Value): (net': Net)
    requires m in net.models
    ensures m in net'.models && net'.models[m].value == Apply(net.models[m].filterOnSet, v)
    ensures SameWiring(net, net')
    ensures net.models[m].filterOnSet == DefaultFilter ==> net'.models[m].value == v
    ensures forall p :: p in net.models && p != m ==> net'.models[p] == net.models[p]
  {
    Store(net, m, Apply(net.models[m].filterOnSet, v))
  }

  /** `Notify_`: publish the stored value to the interface side. */
  function Notify(net: Net, m: NodeId): (fired: set<Fired>)
    requires Valid(net)
    requires m in net.models
    ensures forall i, w :: Fired(i, w) in fired <==>
      i in net.interfaces && net.interfaces[i].model == m
      && w == Apply(net.interfaces[i].filterOnGet, net.models[m].value)
  {
    Deliveries(net, net.models[m].name, net.models[m].value)
  }

  /** `Set` on a model node: store (filtered for a filtered model) and
      publish the stored value once to the interface side. The model's own
      callbacks do not run. */
  function ModelSet(net: Net, m: NodeId, v: Value): (s: Step)
    requires Valid(net)
    requires m in net.models
    ensures Valid(s.net)
    ensures s.net == SetWithoutNotify(net, m, v)
    ensures s.modelFired == {}
    ensures s.interfaceFired == Notify(s.net, m)
  {
    var net' := SetWithoutNotify(net, m, v);
    SameWiringKeepsValid(net, net');
    Step(net', {}, Notify(net', m))
  }

  /** `FilteredModelValue.SetUnfiltered`: the plain `ModelValue.Set`. */
  function SetUnfiltered(net: Net, m: NodeId, v: Value): (s: Step)
    requires Valid(net)
    requires m in net.models && net.models[m].filtered
    ensures Valid(s.net) && m in s.net.models
    ensures s.net.models[m].value == v
    ensures s.modelFired == {}
    ensures s.interfaceFired == Deliveries(s.net, net.models[m].name, v)
  {
    var net' := Store(net, m, v);
    SameWiringKeepsValid(net, net');
    Step(net', {}, Deliveries(net', net.models[m].name, v))
  }

  /** Under the wiring invariant the only model-side subscriber of an
      interface's name is its own model node. */
  lemma ModelSideSubscriber(net: Net, i: NodeId)
    requires Valid(net)
    requires i in net.interfaces
    ensures M.Subscribers(net.modelSide, net.interfaces[i].name) == {net.interfaces[i].model}
  {
    var s := M.Subscribers(net.modelSide, net.interfaces[i].name);
    forall p ensures p in s <==> p == net.interfaces[i].model {
      assert net.modelSide.Subscribed(net.interfaces[i].name, p) <==>
        p in net.models && net.models[p].name == net.interfaces[i].name;
    }
  }

  /** `OnValueChanged_` of a model node receiving `w` from the model side:
      store the (filtered) value, run its own callbacks, and republish the
      stored value to every interface subscriber, the sender included. */
  function ModelReceive(net: Net, m: NodeId, w: Value): (s: Step)
    requires Valid(net)
    requires m in net.models
    ensures Valid(s.net)
    ensures s.net == SetWithoutNotify(net, m, w)
    ensures s.modelFired == {Fired(m, s.net.models[m].value)}
    ensures s.interfaceFired == Notify(s.net, m)
  {
    var net' := SetWithoutNotify(net, m, w);
    SameWiringKeepsValid(net, net');
    Step(net', {Fired(m, net'.models[m].value)}, Notify(net', m))
  }

  /** `Set` on a writable interface node publishes its filter-on-set of the
      value on the model side; its own cache is not touched. */
  function InterfaceSet(net: Net, i: NodeId, v: Value): (s: Step)
    requires Valid(net)
    requires i in net.interfaces && net.interfaces[i].cls.Writable()
    ensures Valid(s.net)
    ensures s.net.interfaces == net.interfaces && SameWiring(net, s.net)
    ensures var m := net.interfaces[i].model;
      s.net.models[m].value == Apply(net.models[m].filterOnSet, Apply(net.interfaces[i].filterOnSet, v))
      && s.modelFired == {Fired(m, s.net.models[m].value)}
      && Fired(i, Apply(net.interfaces[i].filterOnGet, s.net.models[m].value)) in s.interfaceFired
      && (forall j, w :: Fired(j, w) in s.interfaceFired <==>
            j in net.interfaces && net.interfaces[j].model == m
            && w == Apply(net.interfaces[j].filterOnGet, s.net.models[m].value))
      && (forall p :: p in net.models && p != m ==> s.net.models[p] == net.models[p])
  {
    ModelSideSubscriber(net, i);
    ModelReceive(net, net.interfaces[i].model, Apply(net.interfaces[i].filterOnSet, v))
  }

  /** With default filters an interface `Set(v)` makes every interface on
      the same model, the sender included, receive `v`, and then reads `v`. */
  lemma InterfaceSetEchoes(net: Net, i: NodeId, j: NodeId, v: Value)
    requires Valid(net)
    requires i in net.interfaces && net.interfaces[i].cls == InterfaceValue
    requires j in net.interfaces && net.interfaces[j].model == net.interfaces[i].model
    requires !net.models[net.interfaces[i].model].filtered
    requires !net.interfaces[j].cls.Filtered()
    ensures Fired(j, v) in InterfaceSet(net, i, v).interfaceFired
    ensures InterfaceGet(InterfaceSet(net, i, v).net, j) == v
  {
  }

  /** `AttachFilterOnSet` on a filtered model node. */
  function AttachModelFilter(net: Net, m: NodeId, f: FilterProxy): (net': Net)
    requires Valid(net)
    requires m in net.models && net.models[m].filtered
    ensures Valid(net') && m in net'.models
    ensures net'.models[m].filterOnSet == Attached(f)
    ensures net'.models[m].value == net.models[m].value
  {
    net.(models := net.models[m := net.models[m].(filterOnSet := Attached(f))])
  }

  /** `AttachFilterOnGet` / `AttachFilterOnSet` on a filtered interface. */
  function AttachInterfaceFilters(net: Net, i: NodeId, onGet: Option<FilterProxy>, onSet: Option<FilterProxy>): (net': Net)
    requires Valid(net)
    requires i in net.interfaces && net.interfaces[i].cls.Filtered()
    requires onSet.Some? ==> net.interfaces[i].cls == FilteredInterfaceValue
    ensures Valid(net') && i in net'.interfaces
    ensures onGet.Some? ==> net'.interfaces[i].filterOnGet == Attached(onGet.value)
    ensures onGet.None? ==> net'.interfaces[i].filterOnGet == net.interfaces[i].filterOnGet
    ensures onSet.Some? ==> net'.interfaces[i].filterOnSet == Attached(onSet.value)
    ensures onSet.None? ==> net'.interfaces[i].filterOnSet == net.interfaces[i].filterOnSet
  {
    var node := net.interfaces[i];
    var node' := node.(
      filterOnGet := if onGet.Some? then Attached(onGet.value) else node.filterOnGet,
      filterOnSet := if onSet.Some? then Attached(onSet.value) else node.filterOnSet);
    net.(interfaces := net.interfaces[i := node'])
  }

  /** The filter slot holds a proxy whose referent is `r`. */
  predicate Refers(f: Filter, r: Ref) {
    f.Attached? && f.proxy.reference == r
  }

  function Restore(f: Filter, r: Ref): (f': Filter)
    ensures f'.Attached? ==> f'.proxy.reference != r
    ensures f.DefaultFilter? || f.proxy.reference != r ==> f' == f
  {
    if f.Attached? && f.proxy.reference == r then DefaultFilter else f
  }

  /** The state after the referent `r` is finalised, before any claim
      about it; `Finalise` states what it means. */
  /** A surviving model node once `r` is gone: `r` leaves its callbacks,
      and a filter proxy of `r` gives way to the default. */
  function FinalModel(n: ModelNode, r: Ref): ModelNode {
    n.(callbacks := M.Discard(n.callbacks, r), filterOnSet := Restore(n.filterOnSet, r))
  }

  /** A surviving interface node once `r` is gone. */
  function FinalInterface(n: InterfaceNode, r: Ref): InterfaceNode {
    n.(callbacks := M.Discard(n.callbacks, r),
       filterOnGet := Restore(n.filterOnGet, r), filterOnSet := Restore(n.filterOnSet, r))
  }

  /** Both manifolds keep their own bookkeeping consistent. */
  ghost predicate SidesValid(net: Net) {
    net.modelSide.Valid() && net.interfaceSide.Valid()
  }

  function Finalised(net: Net, r: Ref): Net
    requires SidesValid(net)
  {
    var models := map p | p in net.models && p != r :: FinalModel(net.models[p], r);
    var interfaces := map i | i in net.interfaces && i != r :: FinalInterface(net.interfaces[i], r);
    var registry := if r in net.models
      then PyTube.Finalise(net.registry, PyTube.Node(net.models[r].name, PyTube.ModelNode)).registry
      else net.registry;
    Net(registry, M.ForgetCallback(net.modelSide, r), M.ForgetCallback(net.interfaceSide, r),
        models, interfaces)
  }

  lemma FinalisedShape(net: Net, r: Ref)
    requires SidesValid(net)
    ensures var net' := Finalised(net, r);
      && net'.models.Keys == net.models.Keys - {r}
      && net'.interfaces.Keys == net.interfaces.Keys - {r}
      && (forall p :: p in net'.models ==>
            net'.models[p].name == net.models[p].name && net'.models[p].filtered == net.models[p].filtered)
      && (forall i :: i in net'.interfaces ==>
            net'.interfaces[i].name == net.interfaces[i].name && net'.interfaces[i].model == net.interfaces[i].model
            && net'.interfaces[i].cls == net.interfaces[i].cls)
  {
  }

  lemma FinalisedWired(net: Net, r: Ref)
    requires Valid(net)
    ensures ModelsWired(Finalised(net, r)) && InterfacesWired(Finalised(net, r))
  {
    var net' := Finalised(net, r);
    FinalisedShape(net, r);
    forall t, p ensures net'.modelSide.Subscribed(t, p) <==> p in net'.models && net'.models[p].name == t {
      assert net'.modelSide.Subscribed(t, p) <==> net.modelSide.Subscribed(t, p) && p != r;
    }
    forall t, p ensures net'.interfaceSide.Subscribed(t, p) <==> p in net'.interfaces && net'.interfaces[p].name == t {
      assert net'.interfaceSide.Subscribed(t, p) <==> net.interfaceSide.Subscribed(t, p) && p != r;
    }
  }

  lemma FinalisedNames(net: Net, r: Ref)
    requires Valid(net)
    requires forall i :: i in net.interfaces ==> net.interfaces[i].model != r
    ensures NamesUnique(Finalised(net, r)) && InterfacesHeld(Finalised(net, r))
  {
    var net' := Finalised(net, r);
    FinalisedShape(net, r);
    forall p | p in net'.models ensures net'.models[p].name in net'.registry.modelNodeNames {
      if r in net.models {
        assert net.models[r].name != net.models[p].name;
      }
    }
  }

  lemma FinalisedFilters(net: Net, r: Ref)
    requires Valid(net)
    ensures FiltersWhereAllowed(Finalised(net, r))
  {
    FinalisedShape(net, r);
  }

  lemma FinalisedValid(net: Net, r: Ref)
    requires Valid(net)
    requires forall i :: i in net.interfaces ==> net.interfaces[i].model != r
    ensures Valid(Finalised(net, r))
  {
    FinalisedShape(net, r);
    FinalisedWired(net, r);
    FinalisedNames(net, r);
    FinalisedFilters(net, r);
  }

  /** The referent `r` is finalised: every weak reference to it runs its
      finaliser. Filters referring to it revert to the default, callback
      sets discard it, and if it is a node its subscription is forgotten
      (an interface node), or its subscription and name are released (a
      model node, which can only die once no interface holds it). */
  function Finalise(net: Net, r: Ref): (net': Net)
    requires Valid(net)
    requires forall i :: i in net.interfaces ==> net.interfaces[i].model != r
    ensures Valid(net')
    ensures net'.models.Keys == net.models.Keys - {r}
    ensures net'.interfaces.Keys == net.interfaces.Keys - {r}
    ensures forall t :: !net'.modelSide.Subscribed(t, r) && !net'.interfaceSide.Subscribed(t, r)
    ensures forall p :: p in net'.models ==>
      r !in net'.models[p].callbacks.callbacks && net'.models[p].value == net.models[p].value
    ensures forall i :: i in net'.interfaces ==> r !in net'.interfaces[i].callbacks.callbacks
    ensures forall p, q :: p in net'.models && q != r ==>
      (q in net'.models[p].callbacks.callbacks <==> q in net.models[p].callbacks.callbacks)
    ensures forall i, q :: i in net'.interfaces && q != r ==>
      (q in net'.interfaces[i].callbacks.callbacks <==> q in net.interfaces[i].callbacks.callbacks)
    ensures forall t, q :: q != r ==>
      (net'.modelSide.Subscribed(t, q) <==> net.modelSide.Subscribed(t, q))
      && (net'.interfaceSide.Subscribed(t, q) <==> net.interfaceSide.Subscribed(t, q))
    ensures forall p :: p in net'.models ==>
      net'.models[p].filterOnSet == (if Refers(net.models[p].filterOnSet, r) then DefaultFilter else net.models[p].filterOnSet)
    ensures forall i :: i in net'.interfaces ==>
      && net'.interfaces[i].filterOnGet == (if Refers(net.interfaces[i].filterOnGet, r) then DefaultFilter else net.interfaces[i].filterOnGet)
      && net'.interfaces[i].filterOnSet == (if Refers(net.interfaces[i].filterOnSet, r) then DefaultFilter else net.interfaces[i].filterOnSet)
    ensures r in net.models ==>
      net'.registry.modelNodeNames == net.registry.modelNodeNames - {net.models[r].name}
    ensures r !in net.models ==> net'.registry == net.registry
  {
    FinalisedValid(net, r);
    FinalisedShape(net, r);
    Finalised(net, r)
  }

  /** Once the model node of a name is finalised, the name can be created
      again. */
  lemma FinaliseFreesName(net: Net, m: NodeId, id: NodeId)
    requires Valid(net)
    requires m in net.models
    requires forall i :: i in net.interfaces ==> net.interfaces[i].model != m
    requires id !in net.models && id !in net.interfaces
    ensures var net' := Finalise(net, m);
      id !in net'.models && id !in net'.interfaces
      && CreateModel(net', id, net.models[m].name, 0, false).Ok?
  {
  }

  // ---------------------------------------------------------------------
  // ValueContext

  /** `ValueContext(model)`: remembers the model value at construction. */
  datatype ValueContext = ValueContext(node: NodeId, original: Value)

  function EnterContext(net: Net, m: NodeId): (ctx: ValueContext)
    requires m in net.models
    ensures ctx.node == m && ctx.original == net.models[m].value
  {
    ValueContext(m, net.models[m].value)
  }

  /** `ValueContext.Set` writes without notifying. */
  function ContextSet(net: Net, ctx: ValueContext, v: Value): (net': Net)
    requires ctx.node in net.models
    ensures ctx.node in net'.models
    ensures net'.models[ctx.node].value == Apply(net.models[ctx.node].filterOnSet, v)
    ensures SameWiring(net, net')
  {
    SetWithoutNotify(net, ctx.node, v)
  }

  /** A run of `ValueContext.Set` calls. */
  function ContextSets(net: Net, ctx: ValueContext, vs: seq<Value>): (net': Net)
    requires ctx.node in net.models
    ensures SameWiring(net, net')
    ensures forall p :: p in net.models && p != ctx.node ==> net'.models[p] == net.models[p]
    decreases |vs|
  {
    if |vs| == 0 then net
    else
      var net1 := ContextSet(net, ctx, vs[0]);
      var net' := ContextSets(net1, ctx, vs[1..]);
      SameWiringTransitive(net, net1, net');
      net'
  }

  /** After a non-empty run of `ValueContext.Set` calls the model holds the
      last value, filtered. */
  lemma {:induction false} ContextSetsLast(net: Net, ctx: ValueContext, vs: seq<Value>)
    requires ctx.node in net.models
    requires |vs| > 0
    ensures ContextSets(net, ctx, vs).models[ctx.node].value
      == Apply(net.models[ctx.node].filterOnSet, vs[|vs| - 1])
    decreases |vs|
  {
    if |vs| > 1 {
      var net1 := ContextSet(net, ctx, vs[0]);
      ContextSetsLast(net1, ctx, vs[1..]);
    }
  }

  /** `__exit__` without an exception: notify once with the stored value.
      With an exception: put back the value remembered at construction,
      without notifying. */
  function ExitContext(net: Net, ctx: ValueContext, raised: bool): (s: Step)
    requires ctx.node in net.models
    requires !raised ==> Valid(net)
    ensures SameWiring(net, s.net) && (Valid(net) ==> Valid(s.net)) && s.modelFired == {}
    ensures !raised ==> s.net == net && s.interfaceFired == Notify(net, ctx.node)
    ensures raised ==> s.net.models[ctx.node].value == ctx.original && s.interfaceFired == {}
  {
    if raised then
      var net' := Store(net, ctx.node, ctx.original);
      SameWiringKeepsValid(net, net');
      Step(net', {}, {})
    else Step(net, {}, Notify(net, ctx.node))
  }

  /** Whatever the `Set` calls inside it, a `ValueContext` left by an
      exception returns the net to where it started, without notifying. */
  lemma {:induction false} ContextRollback(net: Net, m: NodeId, vs: seq<Value>)
    requires m in net.models
    ensures var ctx := EnterContext(net, m);
      ExitContext(ContextSets(net, ctx, vs), ctx, true) == Step(net, {}, {})
  {
    var ctx := EnterContext(net, m);
    var net' := ContextSets(net, ctx, vs);
    var s := ExitContext(net', ctx, true);
    assert s.net.models == net.models;
  }

  /** A `ValueContext` left normally remembers the value from entry but
      keeps the last value written, filtered, and notifies once with it:
      deliveries go to exactly the model's interface nodes. */
  lemma ContextCommits(net: Net, m: NodeId, vs: seq<Value>)
    requires Valid(net)
    requires m in net.models
    requires |vs| > 0
    ensures var ctx := EnterContext(net, m);
      var net' := ContextSets(net, ctx, vs);
      Valid(net')
      && ctx.original == net.models[m].value
      && ExitContext(net', ctx, false).net == net'
      && net'.models[m].value == Apply(net.models[m].filterOnSet, vs[|vs| - 1])
      && (forall j, w :: Fired(j, w) in ExitContext(net', ctx, false).interfaceFired <==>
            j in net.interfaces && net.interfaces[j].model == m
            && w == Apply(net.interfaces[j].filterOnGet, net'.models[m].value))
  {
    var ctx := EnterContext(net, m);
    var net' := ContextSets(net, ctx, vs);
    SameWiringKeepsValid(net, net');
    ContextSetsLast(net, ctx, vs);
  }

  /** The exceptional exit as written calls `SetWithoutNotify_(original)`,
      which on a filtered model passes the remembered value through the
      filter on set again. */
  function ExitContextAsWritten(net: Net, ctx: ValueContext, raised: bool): (s: Step)
    requires ctx.node in net.models
    requires !raised ==> Valid(net)
    ensures SameWiring(net, s.net) && (Valid(net) ==> Valid(s.net)) && s.modelFired == {}
    ensures raised ==> s.net.models[ctx.node].value == Apply(net.models[ctx.node].filterOnSet, ctx.original)
    ensures !raised ==> s == ExitContext(net, ctx, false)
  {
    if raised then
      var net' := SetWithoutNotify(net, ctx.node, ctx.original);
      SameWiringKeepsValid(net, net');
      Step(net', {}, {})
    else Step(net, {}, Notify(net, ctx.node))
  }

  /** A filtered model holding 0 with the filter `x + 1` attached: after a
      `Set(5)` inside a `ValueContext` that then raises, the model holds 1,
      not the 0 it held on entry. */
  lemma ContextRollbackAsWrittenReapplies()
    ensures var f := FilterProxy(1, x => x + 1);
      var net := Net(PyTube.Registry({"n"}),
                     M.Subscribe(M.Empty(), "n", 0), M.Empty(),
                     map[0 := ModelNode("n", 0, true, Attached(f), M.CallbackSet({}))], map[]);
      Valid(net)
      && var ctx := EnterContext(net, 0);
      ExitContextAsWritten(ContextSet(net, ctx, 5), ctx, true).net.models[0].value == 1
      && ExitContext(ContextSet(net, ctx, 5), ctx, true).net.models[0].value == 0
  {
    var f := FilterProxy(1, x => x + 1);
    var net := Net(PyTube.Registry({"n"}),
                   M.Subscribe(M.Empty(), "n", 0), M.Empty(),
                   map[0 := ModelNode("n", 0, true, Attached(f), M.CallbackSet({}))], map[]);
    assert Valid(net);
  }

  // ---------------------------------------------------------------------
  // MultipleValueContext

  /** One recorded `Set`: the node and the value it held just before. */
  datatype ChangedNode = ChangedNode(node: NodeId, originalValue: Value)

  /** `MultipleValueContext.Set(node, value)`: record (node, node.Get())
      and write without notifying. */
  function MultiSet(net: Net, changed: seq<ChangedNode>, m: NodeId, v: Value): (r: (Net, seq<ChangedNode>))
    requires m in net.models
    ensures SameWiring(net, r.0)
    ensures r.0.models[m].value == Apply(net.models[m].filterOnSet, v)
    ensures forall p :: p in net.models && p != m ==> r.0.models[p] == net.models[p]
    ensures r.1 == changed + [ChangedNode(m, net.models[m].value)]
  {
    (SetWithoutNotify(net, m, v), changed + [ChangedNode(m, net.models[m].value)])
  }

  ghost predicate Recorded(net: Net, changed: seq<ChangedNode>) {
    forall k :: 0 <= k < |changed| ==> changed[k].node in net.models
  }

  ghost predicate Writable(net: Net, writes: seq<(NodeId, Value)>) {
    forall k :: 0 <= k < |writes| ==> writes[k].0 in net.models
  }

  /** A context entered on `net` (its record starts empty) and given the
      `Set` calls `writes`: the net reached and the record kept. */
  function MultiSets(net: Net, writes: seq<(NodeId, Value)>): (r: (Net, seq<ChangedNode>))
    requires Writable(net, writes)
    ensures SameWiring(net, r.0) && Recorded(r.0, r.1)
    ensures |r.1| == |writes|
    ensures forall k :: 0 <= k < |writes| ==> r.1[k].node == writes[k].0
    decreases |writes|
  {
    if |writes| == 0 then (net, [])
    else
      var (net1, first) := MultiSet(net, [], writes[0].0, writes[0].1);
      var rest := MultiSets(net1, writes[1..]);
      SameWiringTransitive(net, net1, rest.0);
      (rest.0, first + rest.1)
  }

  /** Normal exit: one `Notify_` per recorded `Set`, in recording order. */
  function MultiExitNotify(net: Net, changed: seq<ChangedNode>): (waves: seq<set<Fired>>)
    requires Valid(net)
    requires Recorded(net, changed)
    ensures |waves| == |changed|
    ensures forall k :: 0 <= k < |changed| ==> waves[k] == Notify(net, changed[k].node)
  {
    seq(|changed|, k requires 0 <= k < |changed| => Notify(net, changed[k].node))
  }

  /** Exceptional exit as written: `SetWithoutNotify_` of each recorded
      prior value, in recording order. */
  function MultiExitRestoreAsWritten(net: Net, changed: seq<ChangedNode>): (net': Net)
    requires Recorded(net, changed)
    ensures SameWiring(net, net')
    decreases |changed|
  {
    if |changed| == 0 then net
    else
      var net1 := SetWithoutNotify(net, changed[0].node, changed[0].originalValue);
      var net' := MultiExitRestoreAsWritten(net1, changed[1..]);
      SameWiringTransitive(net, net1, net');
      net'
  }

  /** The last recorded entry for `p`, or -1 when `p` was never set. */
  function LastEntry(changed: seq<ChangedNode>, p: NodeId): (k: int)
    ensures -1 <= k < |changed|
    ensures k >= 0 ==> changed[k].node == p
    ensures forall j :: k < j < |changed| ==> changed[j].node != p
    decreases |changed|
  {
    if |changed| == 0 then -1
    else if changed[|changed| - 1].node == p then |changed| - 1
    else LastEntry(changed[..|changed| - 1], p)
  }

  /** How `LastEntry` of a sequence relates to `LastEntry` of its tail. */
  lemma {:induction false} LastEntryOfTail(changed: seq<ChangedNode>, p: NodeId)
    requires |changed| > 0
    ensures var k := LastEntry(changed, p); var k' := LastEntry(changed[1..], p);
      (k' >= 0 ==> k == k' + 1)
      && (k' < 0 ==> (k == (if changed[0].node == p then 0 else -1)))
    decreases |changed|
  {
    var n := |changed|;
    if changed[n - 1].node == p {
    } else if n > 1 {
      assert changed[1..][..n - 2] == changed[..n - 1][1..];
      LastEntryOfTail(changed[..n - 1], p);
    }
  }

  /** Restoring in recording order leaves each touched node at the
      (re-filtered) prior value of its LAST recorded `Set`, and untouched
      nodes as they were. */
  lemma {:induction false} MultiRestoreLastWins(net: Net, changed: seq<ChangedNode>, p: NodeId)
    requires Recorded(net, changed)
    requires p in net.models
    ensures var k := LastEntry(changed, p);
      MultiExitRestoreAsWritten(net, changed).models[p].value ==
        (if k >= 0 then Apply(net.models[p].filterOnSet, changed[k].originalValue) else net.models[p].value)
    decreases |changed|
  {
    if |changed| > 0 {
      var net1 := SetWithoutNotify(net, changed[0].node, changed[0].originalValue);
      assert Recorded(net1, changed[1..]);
      MultiRestoreLastWins(net1, changed[1..], p);
      LastEntryOfTail(changed, p);
    }
  }

  /** With distinct nodes, entry k records the value its node held before
      the context. */
  lemma {:induction false} MultiSetsRecordsPrior(net: Net, writes: seq<(NodeId, Value)>, k: nat)
    requires Writable(net, writes)
    requires forall i, j :: 0 <= i < j < |writes| ==> writes[i].0 != writes[j].0
    requires k < |writes|
    ensures MultiSets(net, writes).1[k] == ChangedNode(writes[k].0, net.models[writes[k].0].value)
    decreases |writes|
  {
    if k > 0 {
      var (net1, first) := MultiSet(net, [], writes[0].0, writes[0].1);
      MultiSetsRecordsPrior(net1, writes[1..], k - 1);
      assert writes[1..][k - 1] == writes[k];
    }
  }

  /** With distinct nodes, the node of write k ends up holding that write's
      value through its filter on set. */
  lemma {:induction false} MultiSetsValue(net: Net, writes: seq<(NodeId, Value)>, k: nat)
    requires Writable(net, writes)
    requires forall i, j :: 0 <= i < j < |writes| ==> writes[i].0 != writes[j].0
    requires k < |writes|
    ensures MultiSets(net, writes).0.models[writes[k].0].value ==
      Apply(net.models[writes[k].0].filterOnSet, writes[k].1)
    decreases |writes|
  {
    var net1 := MultiSet(net, [], writes[0].0, writes[0].1).0;
    MultiSetsStepNet(net, writes);
    DistinctWritesTail(writes);
    if k == 0 {
      MultiSetsUntouched(net1, writes[1..], writes[0].0);
    } else {
      assert writes[1..][k - 1] == writes[k];
      assert net1.models[writes[k].0] == net.models[writes[k].0];
      MultiSetsValue(net1, writes[1..], k - 1);
    }
  }

  /** The writes after the first touch distinct nodes, none of them the
      first write's. */
  lemma DistinctWritesTail(writes: seq<(NodeId, Value)>)
    requires |writes| > 0
    requires forall i, j :: 0 <= i < j < |writes| ==> writes[i].0 != writes[j].0
    ensures forall i, j :: 0 <= i < j < |writes[1..]| ==> writes[1..][i].0 != writes[1..][j].0
    ensures forall j :: 0 <= j < |writes[1..]| ==> writes[1..][j].0 != writes[0].0
  {
    forall j | 0 <= j < |writes[1..]| ensures writes[1..][j].0 != writes[0].0 {
      assert writes[1..][j] == writes[j + 1];
    }
  }

  /** A node no write touches keeps its value through the run. */
  lemma {:induction false} MultiSetsUntouched(net: Net, writes: seq<(NodeId, Value)>, p: NodeId)
    requires Writable(net, writes)
    requires forall j :: 0 <= j < |writes| ==> writes[j].0 != p
    requires p in net.models
    ensures MultiSets(net, writes).0.models[p] == net.models[p]
    decreases |writes|
  {
    if |writes| > 0 {
      var (net1, first) := MultiSet(net, [], writes[0].0, writes[0].1);
      MultiSetsUntouched(net1, writes[1..], p);
    }
  }

  /** As written, writes that touch each node at most once on models
      without a filter on set are undone by an exceptional exit. */
  lemma {:induction false} MultiRollbackTouchedOnce(net: Net, writes: seq<(NodeId, Value)>, p: NodeId)
    requires Writable(net, writes)
    requires forall j, k :: 0 <= j < k < |writes| ==> writes[j].0 != writes[k].0
    requires p in net.models && net.models[p].filterOnSet == DefaultFilter
    ensures var (net', changed) := MultiSets(net, writes);
      MultiExitRestoreAsWritten(net', changed).models[p] == net.models[p]
  {
    var (net', changed) := MultiSets(net, writes);
    MultiRestoreLastWins(net', changed, p);
    var k := LastEntry(changed, p);
    if k >= 0 {
      MultiSetsRecordsPrior(net, writes, k);
    } else {
      MultiSetsUntouched(net, writes, p);
    }
  }

  /** As written, setting one unfiltered node to `a` and then `b` and
      raising leaves it at `a`, not at the value it held on entry. */
  lemma MultiRollbackTwiceKeepsIntermediate(net: Net, m: NodeId, a: Value, b: Value)
    requires m in net.models && net.models[m].filterOnSet == DefaultFilter
    ensures var (net', changed) := MultiSets(net, [(m, a), (m, b)]);
      MultiExitRestoreAsWritten(net', changed).models[m].value == a
  {
    var (net', changed) := MultiSets(net, [(m, a), (m, b)]);
    MultiSetsTwiceRecords(net, m, a, b);
    assert LastEntry(changed, m) == 1;
    MultiRestoreLastWins(net', changed, m);
  }

  /** Two writes to one unfiltered node record its entry value and then
      the first write. */
  lemma MultiSetsTwiceRecords(net: Net, m: NodeId, a: Value, b: Value)
    requires m in net.models && net.models[m].filterOnSet == DefaultFilter
    ensures MultiSets(net, [(m, a), (m, b)]).1 == [ChangedNode(m, net.models[m].value), ChangedNode(m, a)]
  {
    var net1 := MultiSet(net, [], m, a).0;
    assert net1.models[m].value == a by {
      DefaultFilterIsIdentity(a);
    }
    MultiSetsStep(net, [(m, a), (m, b)]);
    assert [(m, a), (m, b)][1..] == [(m, b)];
    MultiSetsOnce(net1, m, b);
  }

  /** The net after several writes: the rest of the writes applied to
      the net the first one reached. */
  lemma MultiSetsStepNet(net: Net, writes: seq<(NodeId, Value)>)
    requires Writable(net, writes) && |writes| > 0
    ensures Writable(MultiSet(net, [], writes[0].0, writes[0].1).0, writes[1..])
    ensures MultiSets(net, writes).0
      == MultiSets(MultiSet(net, [], writes[0].0, writes[0].1).0, writes[1..]).0
  {
    var (net1, first) := MultiSet(net, [], writes[0].0, writes[0].1);
    var rest := MultiSets(net1, writes[1..]);
    assert MultiSets(net, writes).0 == rest.0;
  }

  /** The record of several writes: the first write's entry, then the
      record of the rest on the net it reached. */
  lemma MultiSetsStep(net: Net, writes: seq<(NodeId, Value)>)
    requires Writable(net, writes) && |writes| > 0
    ensures Writable(MultiSet(net, [], writes[0].0, writes[0].1).0, writes[1..])
    ensures MultiSets(net, writes).1
      == [ChangedNode(writes[0].0, net.models[writes[0].0].value)]
         + MultiSets(MultiSet(net, [], writes[0].0, writes[0].1).0, writes[1..]).1
  {
    var (net1, first) := MultiSet(net, [], writes[0].0, writes[0].1);
    assert first == [ChangedNode(writes[0].0, net.models[writes[0].0].value)];
    var rest := MultiSets(net1, writes[1..]);
    assert MultiSets(net, writes).1 == first + rest.1;
  }

  /** One write records the node's value before it. */
  lemma MultiSetsOnce(net: Net, m: NodeId, v: Value)
    requires m in net.models
    ensures MultiSets(net, [(m, v)]).1 == [ChangedNode(m, net.models[m].value)]
  {
    assert [(m, v)][1..] == [];
  }

  /** Exceptional exit, corrected: store each recorded prior value as is,
      newest first, so the oldest record of a node is the one that stays. */
  function MultiExitRestore(net: Net, changed: seq<ChangedNode>): (net': Net)
    requires Recorded(net, changed)
    ensures SameWiring(net, net')
    decreases |changed|
  {
    if |changed| == 0 then net
    else
      var net1 := MultiExitRestore(net, changed[1..]);
      var net' := Store(net1, changed[0].node, changed[0].originalValue);
      SameWiringTransitive(net, net1, net');
      net'
  }

  /** Whatever `Set` calls ran inside it, on filtered models or not and
      touching a node any number of times, a `MultipleValueContext` left by
      an exception returns the net exactly to where it started. */
  lemma {:induction false} MultiRollback(net: Net, writes: seq<(NodeId, Value)>)
    requires Writable(net, writes)
    ensures var (net', changed) := MultiSets(net, writes);
      MultiExitRestore(net', changed) == net
    decreases |writes|
  {
    if |writes| > 0 {
      var m := writes[0].0;
      var (net1, first) := MultiSet(net, [], m, writes[0].1);
      var rest := MultiSets(net1, writes[1..]);
      MultiRollback(net1, writes[1..]);
      var (net', changed) := MultiSets(net, writes);
      assert changed[1..] == rest.1;
      assert MultiExitRestore(net', changed[1..]) == net1;
      assert changed[0] == ChangedNode(m, net.models[m].value);
      StoreUndoesSet(net, m, writes[0].1);
    }
  }

  /** Storing a node's prior value after one `Set` on it gives the net
      back. */
  lemma StoreUndoesSet(net: Net, m: NodeId, v: Value)
    requires m in net.models
    ensures Store(MultiSet(net, [], m, v).0, m, net.models[m].value) == net
  {
    var net1 := MultiSet(net, [], m, v).0;
    var net2 := Store(net1, m, net.models[m].value);
    assert net2.models.Keys == net.models.Keys;
    forall p | p in net.models ensures net2.models[p] == net.models[p] {
      if p == m {
        assert net2.models[m] == net1.models[m].(value := net.models[m].value);
      }
    }
    assert net2.models == net.models;
  }
}
