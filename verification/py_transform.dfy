/** The Python structural transform: a decorator that turns a prototype
    class (a record of plain fields) into a class of pex nodes, one node per
    field, and the helpers around its per-series class cache.

  Reflection is not modelled. A prototype class is given as the map from
  each attribute name `dir()` lists to the kind of object it holds, plus
  the names its attrs fields and an earlier transform contribute. A
  decorated instance is an explicit tree of named fields whose leaves are
  model value nodes of a `PyValue.Net`.
 */
module PyTransform {
  import opened Wrappers
  import opened PyProxy
  import PV = PyValue

  // ---------------------------------------------------------------------
  // Class names and the class cache

  /** A class, named by its module and its own (dot-free) name. */
  datatype ClassRef = ClassRef(moduleName: string, className: string)

  predicate NoDot(s: string) { forall i :: 0 <= i < |s| ==> s[i] != '.' }

  /** `GetClassName`: `"<module>.<name>"`. */
  function GetClassName(c: ClassRef): string {
    c.moduleName + "." + c.className
  }

  /** The index of the last dot, or -1. */
  function LastDot(s: string): (k: int)
    ensures -1 <= k < |s|
    ensures k >= 0 ==> s[k] == '.'
    ensures forall j :: k < j < |s| ==> s[j] != '.'
  {
    if |s| == 0 then -1
    else if s[|s| - 1] == '.' then |s| - 1
    else LastDot(s[..|s| - 1])
  }

  /** Module names may hold dots, class names do not, so the last dot of a
      class name splits it back into module and class. */
  lemma GetClassNameInjective(a: ClassRef, b: ClassRef)
    requires NoDot(a.className) && NoDot(b.className)
    requires GetClassName(a) == GetClassName(b)
    ensures a == b
  {
    var s := GetClassName(a);
    LastDotBeforeName(a.moduleName, a.className);
    LastDotBeforeName(b.moduleName, b.className);
    assert a.moduleName == s[..|a.moduleName|];
    assert b.moduleName == s[..|b.moduleName|];
    assert a.className == s[|a.moduleName| + 1..];
    assert b.className == s[|b.moduleName| + 1..];
  }

  lemma {:induction false} LastDotBeforeName(m: string, n: string)
    requires NoDot(n)
    ensures LastDot(m + "." + n) == |m|
    decreases |n|
  {
    var s := m + "." + n;
    if |n| > 0 {
      assert s[..|s| - 1] == m + "." + n[..|n| - 1];
      LastDotBeforeName(m, n[..|n| - 1]);
    }
  }

  /** `classByPrototypeNameBySeries`: series, then prototype class name,
      to the decorated class. */
  type Cache = map<string, map<string, ClassRef>>

  /** `GetDecoratedClass(class_, series)`: the lookup goes through a
      `defaultdict`, so a missing series gains an empty entry even when the
      lookup then raises KeyError. */
  function GetDecoratedClass(cache: Cache, c: ClassRef, series: string): (r: (Cache, Result<ClassRef>))
    ensures r.1.Ok? <==> series in cache && GetClassName(c) in cache[series]
    ensures r.1.Ok? ==> r.1.value == cache[series][GetClassName(c)]
    ensures r.1.Err? ==> r.1.error == KeyError
    ensures r.0.Keys == cache.Keys + {series}
    ensures forall s :: s in cache ==> r.0[s] == cache[s]
    ensures series !in cache ==> r.0[series] == map[]
  {
    var cache' := if series in cache then cache else cache[series := map[]];
    var byName := cache'[series];
    if GetClassName(c) in byName then (cache', Ok(byName[GetClassName(c)]))
    else (cache', Err(KeyError))
  }

  /** `IsPrototype(class_, series)`. */
  function IsPrototype(cache: Cache, c: ClassRef, series: string): bool {
    series in cache && GetClassName(c) in cache[series]
  }

  /** The lookup succeeds exactly for prototypes, and the entry it may add
      is invisible to every later `IsPrototype` and lookup. */
  lemma LookupAgreesWithIsPrototype(cache: Cache, c: ClassRef, series: string, d: ClassRef, s: string)
    ensures GetDecoratedClass(cache, c, series).1.Ok? <==> IsPrototype(cache, c, series)
    ensures IsPrototype(GetDecoratedClass(cache, c, series).0, d, s) == IsPrototype(cache, d, s)
    ensures GetDecoratedClass(GetDecoratedClass(cache, c, series).0, d, s).1 == GetDecoratedClass(cache, d, s).1
  {
  }

  /** The store at the end of a decoration: the decorated class under the
      prototype's name in its series. */
  function CacheDecorated(cache: Cache, series: string, prototype: ClassRef, decorated: ClassRef): (cache': Cache)
    ensures GetDecoratedClass(cache', prototype, series).1 == Ok(decorated)
    ensures forall c: ClassRef, s: string :: s != series || GetClassName(c) != GetClassName(prototype) ==>
      GetDecoratedClass(cache', c, s).1 == GetDecoratedClass(cache, c, s).1
  {
    var byName := if series in cache then cache[series] else map[];
    cache[series := byName[GetClassName(prototype) := decorated]]
  }

  // ---------------------------------------------------------------------
  // Attribute makers and node names

  /** A callable that makes one node. For a class, what is inspected is
      its unbound `__init__`, whose first parameter is `self`. */
  datatype Maker =
    | FunctionMaker(parameters: seq<string>)
    | ClassMaker(initParameters: seq<string>)

  /** `GetHasName`: whether the first parameter is named `name`; a maker
      without parameters makes `next` raise StopIteration. */
  function GetHasName(maker: Maker): (r: Result<bool>)
    ensures r.Err? <==> |ParametersOf(maker)| == 0
    ensures r.Err? ==> r.error == StopIteration
    ensures r.Ok? ==> (r.value <==> ParametersOf(maker)[0] == "name")
  {
    var ps := ParametersOf(maker);
    if |ps| == 0 then Err(StopIteration) else Ok(ps[0] == "name")
  }

  function ParametersOf(maker: Maker): seq<string> {
    match maker
    case FunctionMaker(ps) => ps
    case ClassMaker(ps) => ps
  }

  /** A class maker with an ordinary `__init__(self, ...)` never takes a
      name, whatever its later parameters are. */
  lemma ClassMakerHasNoName(ps: seq<string>)
    requires |ps| > 0 && ps[0] == "self"
    ensures GetHasName(ClassMaker(ps)) == Ok(false)
  {
  }

  /** `MakeNodeName(name, instanceName)`: the instance name when one is
      given (an empty one too), else the decorated class's name, joined to
      the field name by a dot. */
  function MakeNodeName(name: string, instanceName: Option<string>, className: string): (s: string)
    ensures instanceName.Some? ==>
      |s| == |instanceName.value| + 1 + |name| && s[..|instanceName.value|] == instanceName.value
    ensures instanceName.None? ==> |s| == |className| + 1 + |name| && s[..|className|] == className
    ensures |s| > |name| && s[|s| - |name|..] == name && s[|s| - |name| - 1] == '.'
  {
    var prefix := if instanceName.Some? then instanceName.value else className;
    prefix + "." + name
  }

  /** Under one prefix, different fields get different node names. */
  lemma MakeNodeNameInjective(a: string, b: string, instanceName: Option<string>, className: string)
    requires MakeNodeName(a, instanceName, className) == MakeNodeName(b, instanceName, className)
    ensures a == b
  {
    var prefix := if instanceName.Some? then instanceName.value else className;
    assert MakeNodeName(a, instanceName, className) == prefix + "." + a;
    assert MakeNodeName(b, instanceName, className) == prefix + "." + b;
    assert a == MakeNodeName(a, instanceName, className)[|prefix| + 1..];
    assert b == MakeNodeName(b, instanceName, className)[|prefix| + 1..];
  }

  // ---------------------------------------------------------------------
  // Member selection

  /** What `getattr(prototype, name)` holds, as far as selection cares. */
  datatype MemberKind =
    | FunctionMember
    | MethodMember
    | ValueMember(memberType: ClassRef)

  /** The lists a transform leaves on the class it decorated. */
  datatype TransformVars = TransformVars(instanceVars: set<string>, classVars: set<string>)

  /** A prototype class: its `dir()` with each member's kind, its attrs
      fields (empty when it is not an attrs class), and its transform vars
      when it was itself decorated. The class vars of a decorated class are
      attributes of it, so `dir()` already lists them. */
  datatype PrototypeClass = PrototypeClass(
    cls: ClassRef,
    members: map<string, MemberKind>,
    attrsFields: set<string>,
    transformed: Option<TransformVars>)

  /** `IsTransformed`. */
  predicate IsTransformed(p: PrototypeClass) { p.transformed.Some? }

  /** `GetTransformedInstanceVars`, defined for transformed classes. */
  function GetTransformedInstanceVars(p: PrototypeClass): set<string>
    requires IsTransformed(p)
  {
    p.transformed.value.instanceVars
  }

  /** `prototypeMembers`: the instance members, initialised per instance. */
  function PrototypeMembers(p: PrototypeClass): set<string> {
    p.attrsFields + (if IsTransformed(p) then GetTransformedInstanceVars(p) else {})
  }

  predicate Private(name: string) { |name| > 0 && name[0] == '_' }

  /** The four skip rules of the selection loop. */
  predicate SelectedClassVar(p: PrototypeClass, overrides: set<string>, name: string) {
    && name in p.members
    && !Private(name)
    && name !in PrototypeMembers(p)
    && name !in overrides
    && p.members[name].ValueMember?
  }

  /** What a selected class var becomes: the cached decorated class,
      instantiated with the member and its bare name, or the maker's node,
      named when the maker takes a name. */
  datatype Attribute =
    | FromCache(decorated: ClassRef, name: string)
    | FromMaker(nodeName: Option<string>)

  function MakeAttribute(cache: Cache, series: string, hasName: bool, className: string,
                         name: string, memberType: ClassRef): (a: Attribute)
    ensures a.FromCache? <==> IsPrototype(cache, memberType, series)
    ensures a.FromCache? ==> a == FromCache(cache[series][GetClassName(memberType)], name)
    ensures a.FromMaker? ==> (a.nodeName.Some? <==> hasName)
    ensures a.FromMaker? && hasName ==> a.nodeName == Some(MakeNodeName(name, None, className))
  {
    match GetDecoratedClass(cache, memberType, series).1
    case Ok(decorated) => FromCache(decorated, name)
    case Err(_) => FromMaker(if hasName then Some(MakeNodeName(name, None, className)) else None)
  }

  // ---------------------------------------------------------------------
  // Decoration

  /** A `Transform(prototype, attributeMaker, init, series)` decorator. */
  datatype Transform = Transform(prototype: PrototypeClass, hasName: bool, init: bool, series: string)

  /** What decorating class `cls` (whose attrs fields are `overrides`)
      gives it. */
  datatype Decorated = Decorated(
    cls: ClassRef,
    attributes: map<string, Attribute>,
    classVars: set<string>,
    prototypeMembers: set<string>,
    instanceVars: set<string>,
    hasInit: bool,
    hasGetPrototype: bool,
    hasLoadPrototype: bool)

  /** `Transform.__init__`, which inspects the maker. */
  function NewTransform(prototype: PrototypeClass, maker: Maker, init: bool, series: string): (r: Result<Transform>)
    ensures r.Err? <==> GetHasName(maker).Err?
    ensures r.Ok? ==>
      r.value.prototype == prototype && r.value.init == init && r.value.series == series
      && r.value.hasName == GetHasName(maker).value
  {
    var hasName :- GetHasName(maker);
    Ok(Transform(prototype, hasName, init, series))
  }

  /** `TransformModel`. */
  function TransformModel(prototype: PrototypeClass, maker: Maker, init: bool): (r: Result<Transform>)
    ensures r.Ok? ==> r.value.series == "model"
    ensures r == NewTransform(prototype, maker, init, "model")
  {
    NewTransform(prototype, maker, init, "model")
  }

  /** `TransformInterface`. */
  function TransformInterface(prototype: PrototypeClass, maker: Maker, init: bool): (r: Result<Transform>)
    ensures r.Ok? ==> r.value.series == "interface"
    ensures r == NewTransform(prototype, maker, init, "interface")
  {
    NewTransform(prototype, maker, init, "interface")
  }

  /** `Transform.__call__(class_)`: select and make the class vars, record
      the transform vars, add `__init__` when asked, add
      `GetPrototype`/`LoadPrototype` for the model series only, and cache
      the decorated class. */
  function Decorate(cache: Cache, t: Transform, cls: ClassRef, overrides: set<string>): (r: (Cache, Decorated))
    ensures r.1.cls == cls
    ensures forall n :: n in r.1.classVars <==> SelectedClassVar(t.prototype, overrides, n)
    ensures r.1.attributes.Keys == r.1.classVars
    ensures forall n :: n in r.1.attributes ==>
      SelectedClassVar(t.prototype, overrides, n) &&
      r.1.attributes[n] == MakeAttribute(cache, t.series, t.hasName, cls.className, n,
                                         t.prototype.members[n].memberType)
    ensures r.1.prototypeMembers == PrototypeMembers(t.prototype)
    ensures r.1.instanceVars == PrototypeMembers(t.prototype) - overrides
    ensures r.1.hasInit == t.init
    ensures r.1.hasGetPrototype == r.1.hasLoadPrototype == (t.series == "model")
    ensures r.0 == CacheDecorated(cache, t.series, t.prototype.cls, cls)
  {
    var p := t.prototype;
    var classVars := set n | n in p.members && SelectedClassVar(p, overrides, n);
    var attributes := map n | n in classVars ::
      MakeAttribute(cache, t.series, t.hasName, cls.className, n, p.members[n].memberType);
    var members := PrototypeMembers(p);
    var decorated := Decorated(
      cls, attributes, classVars, members, members - overrides,
      t.init, t.series == "model", t.series == "model");
    (CacheDecorated(cache, t.series, p.cls, cls), decorated)
  }

  /** The selection rules as the source states them: no private names, no
      instance members, no overridden names and no functions or methods;
      class vars and instance vars never share a name, and instance vars
      leave out the overrides. */
  lemma SelectionRules(cache: Cache, t: Transform, cls: ClassRef, overrides: set<string>, n: string)
    ensures var d := Decorate(cache, t, cls, overrides).1;
      && (Private(n) ==> n !in d.classVars)
      && (n in PrototypeMembers(t.prototype) ==> n !in d.classVars)
      && (n in overrides ==> n !in d.classVars && n !in d.instanceVars)
      && (n in t.prototype.members && !t.prototype.members[n].ValueMember? ==> n !in d.classVars)
      && !(n in d.classVars && n in d.instanceVars)
      && (n in d.instanceVars <==> n in d.prototypeMembers && n !in overrides)
  {
  }

  /** Transforming a prototype that was itself decorated: its instance
      vars stay instance members of the new class unless overridden. */
  lemma TransformedInstanceVarsCarry(cache: Cache, t: Transform, cls: ClassRef, overrides: set<string>)
    requires IsTransformed(t.prototype)
    ensures GetTransformedInstanceVars(t.prototype) - overrides <= Decorate(cache, t, cls, overrides).1.instanceVars
  {
  }

  /** Cache reuse: once a prototype is decorated in a series, a later
      decoration in the same series builds a member of that prototype's
      type from the cached class, named by the bare member name. */
  lemma CachedMemberReused(cache: Cache, t1: Transform, cls1: ClassRef, o1: set<string>,
                           t2: Transform, cls2: ClassRef, o2: set<string>, n: string)
    requires t1.series == t2.series
    requires SelectedClassVar(t2.prototype, o2, n)
    requires t2.prototype.members[n] == ValueMember(t1.prototype.cls)
    ensures var cache1 := Decorate(cache, t1, cls1, o1).0;
      Decorate(cache1, t2, cls2, o2).1.attributes[n] == FromCache(cls1, n)
  {
    var cache1 := Decorate(cache, t1, cls1, o1).0;
    assert GetDecoratedClass(cache1, t1.prototype.cls, t1.series).1 == Ok(cls1);
  }

  /** The synthesized `__init__(self, prototype, namePrefix)`, present only
      with `init`: it initialises the nodes only when given a prototype.
      None stands for a class that kept its own `__init__`. */
  function SynthesizedInit<P>(d: Decorated, prototype: Option<P>): (initialises: Option<bool>)
    ensures initialises.Some? <==> d.hasInit
    ensures initialises == Some(true) <==> d.hasInit && prototype.Some?
  {
    if d.hasInit then Some(prototype.Some?) else None
  }

  /** Through a decoration the `init` flag decides the constructor: a
      transform made with `init` gives the class a constructor that
      initialises its nodes exactly when handed a prototype, in either
      series, and one made without it keeps the class's own. */
  lemma SynthesizedInitFollowsTransform<P>(cache: Cache, prototype: PrototypeClass, maker: Maker, init: bool,
                                           cls: ClassRef, overrides: set<string>, given: Option<P>)
    requires GetHasName(maker).Ok?
    ensures var dm := Decorate(cache, TransformModel(prototype, maker, init).value, cls, overrides).1;
      var di := Decorate(cache, TransformInterface(prototype, maker, init).value, cls, overrides).1;
      && SynthesizedInit(dm, given) == SynthesizedInit(di, given)
      && (SynthesizedInit(dm, given).None? <==> !init)
      && (SynthesizedInit(dm, given) == Some(true) <==> init && given.Some?)
  {
  }

  // ---------------------------------------------------------------------
  // GetPrototype and LoadPrototype

  /** A decorated instance: one field per prototype member. `GetPrototype`
      and `LoadPrototype` test a member for `Get`/`Set` before
      `GetPrototype`/`LoadPrototype`, so a member object with its own
      `Get` and `Set` is read and written as one value even when it was
      itself decorated. Such a member is a plain model value node (`Leaf`)
      or a compound node such as `RangeModel` or `ChooserModel`
      (`Compound`), whose value is held by the model value node `node` and
      whose `SetWithoutNotify_` first passes the value through its own
      `adjust` (the range's clamp to its current limits, for one). Any
      other member is a nested decorated instance. */
  datatype Field = Field(name: string, member: Member)
  datatype Member =
    | Leaf(node: PV.NodeId)
    | Compound(node: PV.NodeId, adjust: Value -> Value)
    | Nested(fields: seq<Field>)

  /** A prototype instance: a plain value, or a record of named members. */
  datatype Proto = Scalar(value: Value) | Record(members: map<string, Proto>)

  function Names(fs: seq<Field>): set<string> {
    set i | 0 <= i < |fs| :: fs[i].name
  }

  /** The nodes of an instance, depth first, in field order. */
  function Leaves(fs: seq<Field>): seq<PV.NodeId>
    decreases fs
  {
    if |fs| == 0 then [] else FieldLeaves(fs[0]) + Leaves(fs[1..])
  }

  function FieldLeaves(f: Field): seq<PV.NodeId>
    decreases f
  {
    match f.member
    case Leaf(id) => [id]
    case Compound(id, _) => [id]
    case Nested(gs) => Leaves(gs)
  }

  ghost predicate LeavesIn(net: PV.Net, fs: seq<Field>) {
    forall x :: x in Leaves(fs) ==> x in net.models
  }

  ghost predicate LeavesDistinct(fs: seq<Field>) {
    forall i, j :: 0 <= i < j < |Leaves(fs)| ==> Leaves(fs)[i] != Leaves(fs)[j]
  }

  /** Prototype members `p` fit the fields `fs`: each field has a member
      of its shape, and a nested field's record has exactly its names. */
  ghost predicate Fits(fs: seq<Field>, p: map<string, Proto>)
    decreases fs
  {
    forall i :: 0 <= i < |fs| ==>
      && fs[i].name in p
      && match fs[i].member
         case Leaf(_) => p[fs[i].name].Scalar?
         case Compound(_, _) => p[fs[i].name].Scalar?
         case Nested(gs) =>
           p[fs[i].name].Record? && p[fs[i].name].members.Keys == Names(gs)
           && Fits(gs, p[fs[i].name].members)
  }

  /** `GetPrototype`'s values: `Get()` of each node, `GetPrototype()` of
      each nested instance. */
  function GetMembers(net: PV.Net, fs: seq<Field>): (values: map<string, Proto>)
    requires LeavesIn(net, fs)
    ensures values.Keys == Names(fs)
    decreases fs
  {
    if |fs| == 0 then map[]
    else
      var v := match fs[0].member
        case Leaf(id) =>
          assert FieldLeaves(fs[0]) == [id];
          Scalar(net.models[id].value)
        case Compound(id, _) =>
          assert FieldLeaves(fs[0]) == [id];
          Scalar(net.models[id].value)
        case Nested(gs) =>
          assert FieldLeaves(fs[0]) == Leaves(gs);
          Record(GetMembers(net, gs));
      var rest := GetMembers(net, fs[1..]);
      assert Names(fs) == Names(fs[1..]) + {fs[0].name};
      rest[fs[0].name := v]
  }

  /** `GetPrototype`, which only the model series adds. */
  function GetPrototype(d: Decorated, net: PV.Net, fs: seq<Field>): (r: Result<Proto>)
    requires LeavesIn(net, fs)
    ensures r.Err? <==> !d.hasGetPrototype
    ensures r.Err? ==> r.error == AttributeError
    ensures r.Ok? ==> r.value.Record? && r.value.members.Keys == Names(fs)
  {
    if d.hasGetPrototype then Ok(Record(GetMembers(net, fs))) else Err(AttributeError)
  }

  /** `AssignMembers`: the `context.Set` calls `LoadPrototype` issues, in
      field order, descending into nested instances. The source iterates a
      set of names, so its order is unspecified; this is one order. */
  function LoadWrites(fs: seq<Field>, p: map<string, Proto>): (writes: seq<(PV.NodeId, Value)>)
    requires Fits(fs, p)
    ensures |writes| == |Leaves(fs)|
    ensures forall k :: 0 <= k < |writes| ==> writes[k].0 == Leaves(fs)[k]
    decreases fs
  {
    if |fs| == 0 then []
    else
      var head := match fs[0].member
        case Leaf(id) => [(id, p[fs[0].name].value)]
        case Compound(id, adjust) => [(id, adjust(p[fs[0].name].value))]
        case Nested(gs) => LoadWrites(gs, p[fs[0].name].members);
      head + LoadWrites(fs[1..], p)
  }

  /** `LoadPrototype(proto)` without a context: one `MultipleValueContext`
      around all the writes; on its exit every written node is notified
      once, in writing order. */
  function LoadPrototype(d: Decorated, net: PV.Net, fs: seq<Field>, p: map<string, Proto>)
    : (r: Result<(PV.Net, seq<set<PV.Fired>>)>)
    requires PV.Valid(net) && LeavesIn(net, fs) && Fits(fs, p)
    ensures r.Err? <==> !d.hasLoadPrototype
    ensures r.Err? ==> r.error == AttributeError
    ensures r.Ok? ==> PV.SameWiring(net, r.value.0) && PV.Valid(r.value.0)
    ensures r.Ok? ==> |r.value.1| == |Leaves(fs)|
    ensures r.Ok? ==> forall k :: 0 <= k < |Leaves(fs)| ==> r.value.1[k] == PV.Notify(r.value.0, Leaves(fs)[k])
  {
    if !d.hasLoadPrototype then Err(AttributeError)
    else
      var writes := LoadWrites(fs, p);
      var (net', changed) := PV.MultiSets(net, writes);
      PV.SameWiringKeepsValid(net, net');
      Ok((net', PV.MultiExitNotify(net', changed)))
  }

  /** Every leaf's write, with its member's value, is among `w`. */
  ghost predicate Covered(fs: seq<Field>, p: map<string, Proto>, w: seq<(PV.NodeId, Value)>)
    requires Fits(fs, p)
    decreases fs
  {
    forall i :: 0 <= i < |fs| ==>
      match fs[i].member
      case Leaf(id) => (id, p[fs[i].name].value) in w
      case Compound(id, adjust) => (id, adjust(p[fs[i].name].value)) in w
      case Nested(gs) => Covered(gs, p[fs[i].name].members, w)
  }

  /** Every leaf holds its member's value in `net`. */
  ghost predicate Holds(net: PV.Net, fs: seq<Field>, p: map<string, Proto>)
    requires Fits(fs, p)
    decreases fs
  {
    forall i :: 0 <= i < |fs| ==>
      match fs[i].member
      case Leaf(id) => id in net.models && net.models[id].value == p[fs[i].name].value
      case Compound(id, adjust) => id in net.models && net.models[id].value == adjust(p[fs[i].name].value)
      case Nested(gs) => Holds(net, gs, p[fs[i].name].members)
  }

  /** Every compound member's adjustment keeps the value loaded into it
      (a range's value lies within its limits, say). */
  ghost predicate Settled(fs: seq<Field>, p: map<string, Proto>)
    requires Fits(fs, p)
    decreases fs
  {
    forall i :: 0 <= i < |fs| ==>
      match fs[i].member
      case Leaf(_) => true
      case Compound(_, adjust) => adjust(p[fs[i].name].value) == p[fs[i].name].value
      case Nested(gs) => Settled(gs, p[fs[i].name].members)
  }

  lemma {:induction false} CoveredGrows(fs: seq<Field>, p: map<string, Proto>,
                                        w: seq<(PV.NodeId, Value)>, w': seq<(PV.NodeId, Value)>)
    requires Fits(fs, p) && Covered(fs, p, w)
    requires forall x :: x in w ==> x in w'
    ensures Covered(fs, p, w')
    decreases fs
  {
    forall i | 0 <= i < |fs| && fs[i].member.Nested?
      ensures Covered(fs[i].member.fields, p[fs[i].name].members, w')
    {
      CoveredGrows(fs[i].member.fields, p[fs[i].name].members, w, w');
    }
  }

  /** The writes `LoadPrototype` issues cover every leaf. */
  lemma {:induction false} LoadWritesCover(fs: seq<Field>, p: map<string, Proto>)
    requires Fits(fs, p)
    ensures Covered(fs, p, LoadWrites(fs, p))
    decreases fs
  {
    if |fs| > 0 {
      var w := LoadWrites(fs, p);
      var tail := fs[1..];
      assert Fits(tail, p);
      LoadWritesCover(tail, p);
      CoveredGrows(tail, p, LoadWrites(tail, p), w);
      if fs[0].member.Nested? {
        var gs := fs[0].member.fields;
        LoadWritesCover(gs, p[fs[0].name].members);
        CoveredGrows(gs, p[fs[0].name].members, LoadWrites(gs, p[fs[0].name].members), w);
      }
      forall i | 0 <= i < |fs|
        ensures match fs[i].member
          case Leaf(id) => (id, p[fs[i].name].value) in w
          case Compound(id, adjust) => (id, adjust(p[fs[i].name].value)) in w
          case Nested(gs) => Covered(gs, p[fs[i].name].members, w)
      {
        if i > 0 {
          assert fs[i] == tail[i - 1];
        }
      }
    }
  }

  /** With distinct nodes and no filter on set, covered writes leave every
      leaf holding its member's value. */
  lemma {:induction false} CoveredHolds(net: PV.Net, fs: seq<Field>, p: map<string, Proto>,
                                        w: seq<(PV.NodeId, Value)>)
    requires Fits(fs, p) && Covered(fs, p, w)
    requires PV.Writable(net, w)
    requires forall i, j :: 0 <= i < j < |w| ==> w[i].0 != w[j].0
    requires forall k :: 0 <= k < |w| ==> net.models[w[k].0].filterOnSet == PV.DefaultFilter
    ensures Holds(PV.MultiSets(net, w).0, fs, p)
    decreases fs
  {
    var net' := PV.MultiSets(net, w).0;
    forall i | 0 <= i < |fs|
      ensures match fs[i].member
        case Leaf(id) => id in net'.models && net'.models[id].value == p[fs[i].name].value
        case Compound(id, adjust) => id in net'.models && net'.models[id].value == adjust(p[fs[i].name].value)
        case Nested(gs) => Holds(net', gs, p[fs[i].name].members)
    {
      match fs[i].member
      case Leaf(id) =>
        var k :| 0 <= k < |w| && w[k] == (id, p[fs[i].name].value);
        PV.MultiSetsValue(net, w, k);
      case Compound(id, adjust) =>
        var k :| 0 <= k < |w| && w[k] == (id, adjust(p[fs[i].name].value));
        PV.MultiSetsValue(net, w, k);
      case Nested(gs) =>
        CoveredHolds(net, gs, p[fs[i].name].members, w);
    }
  }

  /** Holding and settling pass from a list of fields to its tail. */
  lemma HoldingTail(net: PV.Net, fs: seq<Field>, p: map<string, Proto>)
    requires |fs| > 0 && Fits(fs, p) && Holds(net, fs, p) && Settled(fs, p)
    ensures Fits(fs[1..], p) && Holds(net, fs[1..], p) && Settled(fs[1..], p)
  {
    var tail := fs[1..];
    assert Fits(tail, p) by {
      forall i | 0 <= i < |tail| ensures tail[i] == fs[i + 1] { }
    }
    assert Holds(net, tail, p) by {
      forall i | 0 <= i < |tail|
        ensures match tail[i].member
          case Leaf(id) => id in net.models && net.models[id].value == p[tail[i].name].value
          case Compound(id, adjust) => id in net.models && net.models[id].value == adjust(p[tail[i].name].value)
          case Nested(gs) => Holds(net, gs, p[tail[i].name].members)
      {
        assert tail[i] == fs[i + 1];
      }
    }
    assert Settled(tail, p) by {
      forall i | 0 <= i < |tail|
        ensures match tail[i].member
          case Leaf(_) => true
          case Compound(_, adjust) => adjust(p[tail[i].name].value) == p[tail[i].name].value
          case Nested(gs) => Settled(gs, p[tail[i].name].members)
      {
        assert tail[i] == fs[i + 1];
      }
    }
  }

  /** Reading back nodes that hold the members gives the members. */
  lemma {:induction false} GetMembersOfHolding(net: PV.Net, fs: seq<Field>, p: map<string, Proto>)
    requires Fits(fs, p) && LeavesIn(net, fs) && Holds(net, fs, p) && Settled(fs, p)
    ensures forall n :: n in Names(fs) ==> GetMembers(net, fs)[n] == p[n]
    decreases fs, 1
  {
    if |fs| > 0 {
      var tail := fs[1..];
      assert LeavesIn(net, tail);
      HoldingTail(net, fs, p);
      GetMembersOfHolding(net, tail, p);
      var n0 := fs[0].name;
      var all := GetMembers(net, fs);
      assert all == GetMembers(net, tail)[n0 := all[n0]];
      FirstMemberReadsBack(net, fs, p);
      assert Names(fs) == Names(tail) + {n0};
    }
  }

  /** The first field reads back its member. */
  lemma {:induction false} FirstMemberReadsBack(net: PV.Net, fs: seq<Field>, p: map<string, Proto>)
    requires |fs| > 0
    requires Fits(fs, p) && LeavesIn(net, fs) && Holds(net, fs, p) && Settled(fs, p)
    ensures GetMembers(net, fs)[fs[0].name] == p[fs[0].name]
    decreases fs, 0
  {
    var n0 := fs[0].name;
    match fs[0].member
    case Leaf(id) =>
    case Compound(id, _) =>
    case Nested(gs) =>
      assert FieldLeaves(fs[0]) == Leaves(gs);
      assert LeavesIn(net, gs);
      GetMembersOfHolding(net, gs, p[n0].members);
      assert GetMembers(net, gs) == p[n0].members;
  }

  /** `LoadPrototype` then `GetPrototype` gives back the loaded prototype:
      for a model-series instance whose nodes are distinct model values
      with no filter on set, and whose compound members accept the values
      loaded into them, the record read back is the record loaded. */
  lemma LoadThenGetPrototype(d: Decorated, net: PV.Net, fs: seq<Field>, p: map<string, Proto>)
    requires d.hasGetPrototype && d.hasLoadPrototype
    requires PV.Valid(net) && LeavesIn(net, fs) && LeavesDistinct(fs)
    requires forall k :: 0 <= k < |Leaves(fs)| ==> net.models[Leaves(fs)[k]].filterOnSet == PV.DefaultFilter
    requires Fits(fs, p) && p.Keys == Names(fs) && Settled(fs, p)
    ensures LoadPrototype(d, net, fs, p).Ok?
    ensures var net' := LoadPrototype(d, net, fs, p).value.0;
      LeavesIn(net', fs) && GetPrototype(d, net', fs) == Ok(Record(p))
  {
    var w := LoadWrites(fs, p);
    var net' := PV.MultiSets(net, w).0;
    LoadWritesCover(fs, p);
    CoveredHolds(net, fs, p, w);
    GetMembersOfHolding(net', fs, p);
    assert GetMembers(net', fs) == p;
  }

  /** A compound member is written as one value through its own `Set` and
      read back with its own `Get`: loading `v` into it reads back as its
      adjustment of `v`, and its node is notified once. */
  lemma LoadThenGetCompound(d: Decorated, net: PV.Net, n: string, id: PV.NodeId,
                            adjust: Value -> Value, v: Value)
    requires d.hasGetPrototype && d.hasLoadPrototype
    requires PV.Valid(net) && id in net.models && net.models[id].filterOnSet == PV.DefaultFilter
    ensures var fs := [Field(n, Compound(id, adjust))];
      var p := map[n := Scalar(v)];
      Fits(fs, p) && LeavesIn(net, fs) && LoadPrototype(d, net, fs, p).Ok?
      && var loaded := LoadPrototype(d, net, fs, p).value;
      LeavesIn(loaded.0, fs)
      && GetPrototype(d, loaded.0, fs) == Ok(Record(map[n := Scalar(adjust(v))]))
      && loaded.1 == [PV.Notify(loaded.0, id)]
  {
    var fs := [Field(n, Compound(id, adjust))];
    var p := map[n := Scalar(v)];
    assert Leaves(fs) == [id] by {
      assert Leaves(fs[1..]) == [];
    }
    var w := LoadWrites(fs, p);
    assert w == [(id, adjust(v))] by {
      assert LoadWrites(fs[1..], p) == [];
    }
    var net' := PV.MultiSets(net, w).0;
    PV.MultiSetsValue(net, w, 0);
    assert net'.models[id].value == adjust(v);
    assert Names(fs) == {n};
    assert GetMembers(net', fs) == map[n := Scalar(adjust(v))] by {
      assert GetMembers(net', fs[1..]) == map[];
    }
  }

  /** The model series has both methods, the interface series neither. */
  lemma PrototypeMethodsFollowSeries(cache: Cache, prototype: PrototypeClass, maker: Maker, init: bool,
                                     cls: ClassRef, overrides: set<string>)
    ensures TransformModel(prototype, maker, init).Ok? ==>
      var d := Decorate(cache, TransformModel(prototype, maker, init).value, cls, overrides).1;
      d.hasGetPrototype && d.hasLoadPrototype
    ensures TransformInterface(prototype, maker, init).Ok? ==>
      var d := Decorate(cache, TransformInterface(prototype, maker, init).value, cls, overrides).1;
      !d.hasGetPrototype && !d.hasLoadPrototype
  {
  }
}
