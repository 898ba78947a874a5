/** The Python `Signal` node: a value-less notification between one model
    node and any number of interface nodes of the same name.

  A model signal subscribes its handler `OnSignal_` and its users'
  callbacks on the model-side manifold and `Signal()` publishes on the
  interface side; an interface signal is the mirror image. A model node's
  handler echoes what it receives to the interface side, an interface
  node's handler does nothing.

  Handlers are identified by the node's own identity (`NodeId`); any other
  subscribed reference is a user callback.
 */
module PySignal {
  import opened Wrappers
  import opened PyProxy
  import PyTube
  import M = PyManifold

  type NodeId = Ref

  datatype SignalNode = SignalNode(name: string, nodeType: PyTube.NodeType)

  datatype SignalNet = SignalNet(
    registry: PyTube.Registry,
    modelSide: M.Manifold,      // `Signal.modelManifold_`
    interfaceSide: M.Manifold,  // `Signal.interfaceManifold_`
    nodes: map<NodeId, SignalNode>)

  /** The user callbacks a `Signal()` reaches, by the manifold they were
      subscribed on. */
  datatype Delivered = Delivered(modelCallbacks: set<Ref>, interfaceCallbacks: set<Ref>)

  /** Each node's handler is subscribed on its own side under its name,
      and on no other topic or side. */
  ghost predicate HandlersWired(net: SignalNet) {
    && net.modelSide.Valid() && net.interfaceSide.Valid()
    && (forall t, p :: p in net.nodes ==>
          (net.modelSide.Subscribed(t, p) <==> net.nodes[p].nodeType == PyTube.ModelNode && net.nodes[p].name == t))
    && (forall t, p :: p in net.nodes ==>
          (net.interfaceSide.Subscribed(t, p) <==> net.nodes[p].nodeType == PyTube.InterfaceNode && net.nodes[p].name == t))
  }

  /** Live model names are registered and name one model node each. */
  ghost predicate ModelNamesUnique(net: SignalNet) {
    && (forall p :: p in net.nodes && net.nodes[p].nodeType == PyTube.ModelNode ==>
          net.nodes[p].name in net.registry.modelNodeNames)
    && (forall p, q ::
          (p in net.nodes && q in net.nodes
           && net.nodes[p].nodeType == PyTube.ModelNode && net.nodes[q].nodeType == PyTube.ModelNode
           && net.nodes[p].name == net.nodes[q].name) ==> p == q)
  }

  ghost predicate Valid(net: SignalNet) {
    HandlersWired(net) && ModelNamesUnique(net)
  }

  function EmptySignals(registry: PyTube.Registry): (net: SignalNet)
    ensures Valid(net) && net.nodes == map[]
  {
    SignalNet(registry, M.Empty(), M.Empty(), map[])
  }

  /** `Signal(name, nodeType)`: claim the name for a model node, then
      subscribe the handler on the node's own side. */
  function CreateSignal(net: SignalNet, id: NodeId, name: string, nodeType: PyTube.NodeType): (r: Result<SignalNet>)
    requires Valid(net)
    requires id !in net.nodes
    requires forall t :: !net.modelSide.Subscribed(t, id) && !net.interfaceSide.Subscribed(t, id)
    ensures r.Err? <==> nodeType == PyTube.ModelNode && name in net.registry.modelNodeNames
    ensures r.Err? ==> r.error == RuntimeError
    ensures r.Ok? ==> Valid(r.value) && r.value.nodes == net.nodes[id := SignalNode(name, nodeType)]
  {
    match PyTube.Create(net.registry, name, nodeType)
    case Err(e) => Err(e)
    case Ok((registry, _)) =>
      var net' := if nodeType == PyTube.ModelNode
        then SignalNet(registry, M.Subscribe(net.modelSide, name, id), net.interfaceSide,
                       net.nodes[id := SignalNode(name, nodeType)])
        else SignalNet(registry, net.modelSide, M.Subscribe(net.interfaceSide, name, id),
                       net.nodes[id := SignalNode(name, nodeType)]);
      Ok(net')
  }

  /** `GetInterfaceNode()`: a new interface node under the same name. */
  function GetInterfaceNode(net: SignalNet, n: NodeId, id: NodeId): (net': SignalNet)
    requires Valid(net)
    requires n in net.nodes && id !in net.nodes
    requires forall t :: !net.modelSide.Subscribed(t, id) && !net.interfaceSide.Subscribed(t, id)
    ensures Valid(net')
    ensures net'.nodes == net.nodes[id := SignalNode(net.nodes[n].name, PyTube.InterfaceNode)]
  {
    CreateSignal(net, id, net.nodes[n].name, PyTube.InterfaceNode).value
  }

  /** `Connect(callback)`: subscribe a user callback on the node's own
      side under its name. */
  function Connect(net: SignalNet, n: NodeId, callback: Ref): (net': SignalNet)
    requires Valid(net)
    requires n in net.nodes && callback !in net.nodes
    ensures Valid(net') && net'.nodes == net.nodes
    ensures net.nodes[n].nodeType == PyTube.ModelNode ==>
      net'.interfaceSide == net.interfaceSide
      && (forall t, q :: net'.modelSide.Subscribed(t, q) <==>
            net.modelSide.Subscribed(t, q) || (t == net.nodes[n].name && q == callback))
    ensures net.nodes[n].nodeType == PyTube.InterfaceNode ==>
      net'.modelSide == net.modelSide
      && (forall t, q :: net'.interfaceSide.Subscribed(t, q) <==>
            net.interfaceSide.Subscribed(t, q) || (t == net.nodes[n].name && q == callback))
  {
    if net.nodes[n].nodeType == PyTube.ModelNode then
      net.(modelSide := M.Subscribe(net.modelSide, net.nodes[n].name, callback))
    else
      net.(interfaceSide := M.Subscribe(net.interfaceSide, net.nodes[n].name, callback))
  }

  /** The user callbacks among the subscribers of `name` on a side. */
  function UserCallbacks(net: SignalNet, side: M.Manifold, name: string): (s: set<Ref>)
    requires side.Valid()
    ensures forall p :: p in s <==> side.Subscribed(name, p) && p !in net.nodes
  {
    set p | p in M.Subscribers(side, name) && p !in net.nodes
  }

  /** The model handlers among the model-side subscribers of `name`. */
  function ModelHandlers(net: SignalNet, name: string): (s: set<NodeId>)
    requires Valid(net)
    ensures forall p :: p in s <==> p in net.nodes && net.nodes[p].nodeType == PyTube.ModelNode && net.nodes[p].name == name
  {
    set p | p in M.Subscribers(net.modelSide, name) && p in net.nodes
  }

  /** `Signal()` on node `n`. A model node publishes its name on the
      interface side, where interface handlers do nothing and user
      callbacks run. An interface node publishes on the model side: user
      callbacks there run, and the model handler echoes the signal to the
      interface side. */
  function Trigger(net: SignalNet, n: NodeId): (d: Delivered)
    requires Valid(net)
    requires n in net.nodes
    ensures net.nodes[n].nodeType == PyTube.ModelNode ==>
      d.modelCallbacks == {} && d.interfaceCallbacks == UserCallbacks(net, net.interfaceSide, net.nodes[n].name)
    ensures net.nodes[n].nodeType == PyTube.InterfaceNode ==>
      d.modelCallbacks == UserCallbacks(net, net.modelSide, net.nodes[n].name)
  {
    var name := net.nodes[n].name;
    if net.nodes[n].nodeType == PyTube.ModelNode then
      Delivered({}, UserCallbacks(net, net.interfaceSide, name))
    else
      var echo := if ModelHandlers(net, name) != {} then UserCallbacks(net, net.interfaceSide, name) else {};
      Delivered(UserCallbacks(net, net.modelSide, name), echo)
  }

  /** An interface signal reaches the interface side exactly when a model
      node of its name is live: the echo needs the model handler, and the
      interface handlers never echo, so there is no loop. */
  lemma InterfaceTriggerEchoesThroughModel(net: SignalNet, i: NodeId, cb: Ref)
    requires Valid(net)
    requires i in net.nodes && net.nodes[i].nodeType == PyTube.InterfaceNode
    ensures cb in Trigger(net, i).interfaceCallbacks <==>
      (exists m :: m in net.nodes && net.nodes[m].nodeType == PyTube.ModelNode && net.nodes[m].name == net.nodes[i].name)
      && net.interfaceSide.Subscribed(net.nodes[i].name, cb) && cb !in net.nodes
  {
    var name := net.nodes[i].name;
    if exists m :: m in net.nodes && net.nodes[m].nodeType == PyTube.ModelNode && net.nodes[m].name == name {
      var m :| m in net.nodes && net.nodes[m].nodeType == PyTube.ModelNode && net.nodes[m].name == name;
      assert m in ModelHandlers(net, name);
    }
  }

  /** A callback connected to one interface node is reached by `Signal()`
      on another interface node of the same model, and by the model. */
  lemma {:induction false} SignalRoundTrip(net: SignalNet, m: NodeId, i: NodeId, j: NodeId, cb: Ref)
    requires Valid(net)
    requires m in net.nodes && net.nodes[m].nodeType == PyTube.ModelNode
    requires i in net.nodes && net.nodes[i] == SignalNode(net.nodes[m].name, PyTube.InterfaceNode)
    requires j in net.nodes && net.nodes[j] == SignalNode(net.nodes[m].name, PyTube.InterfaceNode)
    requires cb !in net.nodes
    ensures cb in Trigger(Connect(net, j, cb), i).interfaceCallbacks
    ensures cb in Trigger(Connect(net, j, cb), m).interfaceCallbacks
  {
    var net' := Connect(net, j, cb);
    InterfaceTriggerEchoesThroughModel(net', i, cb);
    assert net'.interfaceSide.Subscribed(net.nodes[m].name, cb);
  }

  /** Signalling one name never fires a callback subscribed only under
      another name. */
  lemma SignalIsolated(net: SignalNet, n: NodeId, cb: Ref)
    requires Valid(net)
    requires n in net.nodes
    requires !net.modelSide.Subscribed(net.nodes[n].name, cb)
    requires !net.interfaceSide.Subscribed(net.nodes[n].name, cb)
    ensures cb !in Trigger(net, n).modelCallbacks && cb !in Trigger(net, n).interfaceCallbacks
  {
  }

  /** A second live model signal of the same name is refused. */
  lemma DuplicateModelSignalRefused(net: SignalNet, m: NodeId, id: NodeId)
    requires Valid(net)
    requires m in net.nodes && net.nodes[m].nodeType == PyTube.ModelNode
    requires id !in net.nodes
    requires forall t :: !net.modelSide.Subscribed(t, id) && !net.interfaceSide.Subscribed(t, id)
    ensures CreateSignal(net, id, net.nodes[m].name, PyTube.ModelNode) == Err(RuntimeError)
  {
  }

  /** A user callback's referent is finalised: both manifolds run
      `ForgetCallback_` for it, so no later `Signal()` reaches it. */
  function ForgetUserCallback(net: SignalNet, cb: Ref): (net': SignalNet)
    requires Valid(net)
    requires cb !in net.nodes
    ensures Valid(net') && net'.nodes == net.nodes
    ensures forall t :: !net'.modelSide.Subscribed(t, cb) && !net'.interfaceSide.Subscribed(t, cb)
    ensures forall t, q :: q != cb ==>
      (net'.modelSide.Subscribed(t, q) <==> net.modelSide.Subscribed(t, q))
      && (net'.interfaceSide.Subscribed(t, q) <==> net.interfaceSide.Subscribed(t, q))
  {
    net.(modelSide := M.ForgetCallback(net.modelSide, cb),
         interfaceSide := M.ForgetCallback(net.interfaceSide, cb))
  }

  /** A finalised callback is no longer called, while every other
      callback is reached as before. */
  lemma ForgottenCallbackSilent(net: SignalNet, n: NodeId, cb: Ref, other: Ref)
    requires Valid(net)
    requires n in net.nodes && cb !in net.nodes && other != cb
    ensures var d := Trigger(ForgetUserCallback(net, cb), n);
      cb !in d.modelCallbacks && cb !in d.interfaceCallbacks
    ensures var d := Trigger(ForgetUserCallback(net, cb), n); var d0 := Trigger(net, n);
      (other in d.modelCallbacks <==> other in d0.modelCallbacks)
      && (other in d.interfaceCallbacks <==> other in d0.interfaceCallbacks)
  {
    var net' := ForgetUserCallback(net, cb);
    assert ModelHandlers(net', net.nodes[n].name) == ModelHandlers(net, net.nodes[n].name);
  }
}
