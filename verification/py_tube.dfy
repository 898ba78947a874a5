/** The Python `Tube` base of every node: a process-wide set of live model
    names keeps each model node a singleton, while interface nodes are
    unlimited.
 */
module PyTube {
  import opened Wrappers

  datatype NodeType = ModelNode | InterfaceNode

  /** A constructed node; `name` and `nodeType` are its two properties. */
  datatype Node = Node(name: string, nodeType: NodeType)

  /** The class variable holding the names of the live model nodes. */
  datatype Registry = Registry(modelNodeNames: set<string>)

  /** Whether finalising a node emitted the "Unknown model node" warning. */
  datatype Finalised = Finalised(registry: Registry, warned: bool)

  /** Construct a node. A model node claims its name and fails when the
      name is already live; an interface node never looks at the registry. */
  function Create(reg: Registry, name: string, nodeType: NodeType): (r: Result<(Registry, Node)>)
    ensures r.Err? <==> nodeType == ModelNode && name in reg.modelNodeNames
    ensures r.Err? ==> r.error == RuntimeError
    ensures r.Ok? ==> r.value.1.name == name && r.value.1.nodeType == nodeType
    ensures r.Ok? && nodeType == ModelNode ==>
      r.value.0.modelNodeNames == reg.modelNodeNames + {name}
    ensures nodeType == InterfaceNode ==> r.Ok? && r.value.0 == reg
  {
    if nodeType == ModelNode then
      if name in reg.modelNodeNames then
        Err(RuntimeError)
      else
        Ok((Registry(reg.modelNodeNames + {name}), Node(name, nodeType)))
    else
      Ok((reg, Node(name, nodeType)))
  }

  /** Finalise a constructed node. Only model nodes touch the registry; an
      unknown model name is reported by a warning and nothing else. */
  function Finalise(reg: Registry, node: Node): (f: Finalised)
    ensures node.nodeType == InterfaceNode ==> f == Finalised(reg, false)
    ensures node.nodeType == ModelNode ==>
      f.registry.modelNodeNames == reg.modelNodeNames - {node.name}
    ensures f.warned <==> node.nodeType == ModelNode && node.name !in reg.modelNodeNames
  {
    if node.nodeType == ModelNode then
      if node.name !in reg.modelNodeNames then
        Finalised(reg, true)
      else
        Finalised(Registry(reg.modelNodeNames - {node.name}), false)
    else
      Finalised(reg, false)
  }

  /** `copy.copy` of any node raises TypeError. */
  function Copy(node: Node): (r: Result<Node>)
    ensures r == Err(TypeError)
  {
    Err(TypeError)
  }

  /** `copy.deepcopy` of any node raises TypeError. */
  function DeepCopy(node: Node): (r: Result<Node>)
    ensures r == Err(TypeError)
  {
    Err(TypeError)
  }

  /** Creating a model node and then finalising it leaves the registry as it
      was, so the same name can be created again. */
  lemma CreateThenFinalise(reg: Registry, name: string)
    requires name !in reg.modelNodeNames
    ensures Create(reg, name, ModelNode).Ok?
    ensures var (reg', node) := Create(reg, name, ModelNode).value;
      Finalise(reg', node) == Finalised(reg, false)
      && Create(Finalise(reg', node).registry, name, ModelNode).Ok?
  {
    var (reg', node) := Create(reg, name, ModelNode).value;
    assert reg'.modelNodeNames - {name} == reg.modelNodeNames;
  }

  /** Any number of interface nodes may share a name, live model or not:
      a run of interface creations never fails and never changes the registry. */
  function CreateInterfaces(reg: Registry, names: seq<string>): (r: Result<(Registry, seq<Node>)>)
    ensures r.Ok? && r.value.0 == reg && |r.value.1| == |names|
    ensures forall i :: 0 <= i < |names| ==>
      r.value.1[i] == Node(names[i], InterfaceNode)
  {
    if |names| == 0 then Ok((reg, []))
    else
      var (reg', node) := Create(reg, names[0], InterfaceNode).value;
      var rest := CreateInterfaces(reg', names[1..]).value;
      Ok((rest.0, [node] + rest.1))
  }

  /** A second live model node with the same name is refused, whatever
      happened to the registry in between as long as the first is live. */
  lemma SecondModelNodeRefused(reg: Registry, name: string)
    requires Create(reg, name, ModelNode).Ok?
    ensures Create(Create(reg, name, ModelNode).value.0, name, ModelNode) == Err(RuntimeError)
  {
  }
}
