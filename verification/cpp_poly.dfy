/** The C++ polymorphic values of `poly_base.h`, `detail/poly_detail.h`
    and `poly_value.h`: a value of one of several derived types behind a
    shared base, written to JSON with a `"type"` key naming the derived
    type and read back by looking that name up.

  A JSON object is a map from keys to (opaque) values. A derived object is
  its type name and its fields; its fields are written under their own
  keys, and reading them back takes every key but `"type"`.
 */
module Polys {
  import opened Wrappers
  import opened Find

  type Json = map<string, string>

  const TypeKey: string := "type"

  /** An object of a derived type: its `fieldsTypeName` and its fields. */
  datatype Instance = Instance(typeName: string, fields: Json)

  /** `PolyUnstructure`: the object's fields with `"type"` set to its type
      name. */
  function PolyUnstructure(obj: Instance): (json: Json)
    ensures TypeKey in json && json[TypeKey] == obj.typeName
    ensures forall k :: k in obj.fields && k != TypeKey ==> k in json && json[k] == obj.fields[k]
    ensures forall k :: k in json ==> k == TypeKey || k in obj.fields
  {
    obj.fields[TypeKey := obj.typeName]
  }

  /** What a derived type's creator reads from the JSON: every key but
      `"type"`. */
  function FieldsOf(json: Json): Json {
    map k | k in json && k != TypeKey :: json[k]
  }

  // ---------------------------------------------------------------------
  // PolyBase: creators registered by type name

  /** `RegisterDerived<Derived>()`: `logic_error` for an empty type name or
      a name already registered; otherwise the name is added. */
  function RegisterDerived(registry: set<string>, typeName: string): (r: Result<set<string>>)
    ensures r.Err? <==> typeName == "" || typeName in registry
    ensures r.Err? ==> r.error == LogicError
    ensures r.Ok? ==> r.value == registry + {typeName}
  {
    if typeName == "" then Err(LogicError)
    else if typeName in registry then Err(LogicError)
    else Ok(registry + {typeName})
  }

  /** `PolyBase::Structure`: `runtime_error` for a type name that is not
      registered; otherwise that name's creator builds the object. The
      `"type"` key is read without a check, so it must be present. */
  function Structure(registry: set<string>, json: Json): (r: Result<Instance>)
    requires TypeKey in json
    ensures r.Err? <==> json[TypeKey] !in registry
    ensures r.Err? ==> r.error == RuntimeError
    ensures r.Ok? ==> r.value.typeName == json[TypeKey] && r.value.fields == FieldsOf(json)
  {
    var typeName := json[TypeKey];
    if typeName !in registry then Err(RuntimeError)
    else Ok(Instance(typeName, FieldsOf(json)))
  }

  /** Writing an object of a registered type and reading it back gives the
      object again, provided it has no field of its own named `"type"`. */
  lemma StructureOfUnstructure(registry: set<string>, obj: Instance)
    requires obj.typeName in registry && TypeKey !in obj.fields
    ensures Structure(registry, PolyUnstructure(obj)) == Ok(obj)
  {
    assert FieldsOf(PolyUnstructure(obj)) == obj.fields;
  }

  /** Registration makes the name readable, and only once. */
  lemma RegisterThenStructure(registry: set<string>, typeName: string, json: Json)
    requires typeName != "" && typeName !in registry
    requires TypeKey in json && json[TypeKey] == typeName
    ensures Structure(RegisterDerived(registry, typeName).value, json).Ok?
    ensures Structure(registry, json).Err?
    ensures RegisterDerived(RegisterDerived(registry, typeName).value, typeName).Err?
  {
  }

  // ---------------------------------------------------------------------
  // Creator_: a fixed pack of derived types

  /** `MakeDerived` over the pack from position `k` on: the fold stops at
      the first type whose name matches. */
  function MakeDerivedFrom(pack: seq<string>, k: nat, typeName: string): (r: Option<nat>)
    requires k <= |pack|
    ensures r.Some? ==> k <= r.value < |pack| && pack[r.value] == typeName
    ensures r.Some? ==> forall j :: k <= j < r.value ==> pack[j] != typeName
    ensures r.None? ==> forall j :: k <= j < |pack| ==> pack[j] != typeName
    decreases |pack| - k
  {
    if k == |pack| then None
    else if pack[k] == typeName then Some(k)
    else MakeDerivedFrom(pack, k + 1, typeName)
  }

  /** `Creator_::Structure`: `runtime_error` without a `"type"` key, and
      again when no type in the pack has that name; otherwise the first
      that has it. */
  function CreatorStructure(pack: seq<string>, json: Json): (r: Result<nat>)
    ensures TypeKey !in json ==> r == Err(RuntimeError)
    ensures TypeKey in json ==> (r.Err? <==> json[TypeKey] !in pack)
    ensures r.Err? ==> r.error == RuntimeError
    ensures r.Ok? ==> TypeKey in json && r.value == FindIndex(pack, json[TypeKey])
  {
    if TypeKey !in json then Err(RuntimeError)
    else
      var made := MakeDerivedFrom(pack, 0, json[TypeKey]);
      if made.None? then Err(RuntimeError)
      else
        FindIndexUnique(pack, json[TypeKey], made.value);
        Ok(made.value)
  }

  // ---------------------------------------------------------------------
  // poly::Value

  /** `poly::Value`: a shared pointer to a base, possibly null. */
  datatype PolyValue = PolyValue(value: Option<Instance>)

  /** The default constructor: empty. */
  function EmptyValue(): (v: PolyValue)
    ensures !IsSet(v)
  {
    PolyValue(None)
  }

  /** `Initialize<Derived>(args...)`: a new object of that type. */
  function Initialize(typeName: string, fields: Json): (v: PolyValue)
    ensures IsSet(v) && v.value.value.typeName == typeName
  {
    PolyValue(Some(Instance(typeName, fields)))
  }

  /** `operator bool`: whether there is an object. */
  predicate IsSet(v: PolyValue) {
    v.value.Some?
  }

  /** `operator==`: false when either side is empty, otherwise the derived
      objects compare. */
  predicate PolyEquals(a: PolyValue, b: PolyValue) {
    a.value.Some? && b.value.Some? && a.value.value == b.value.value
  }

  /** Equality is symmetric, but reflexive only on values that hold an
      object: two empty values are unequal. */
  lemma PolyEqualsOnlyWhenSet(a: PolyValue, b: PolyValue)
    ensures PolyEquals(a, b) == PolyEquals(b, a)
    ensures PolyEquals(a, a) <==> IsSet(a)
    ensures !PolyEquals(EmptyValue(), EmptyValue())
    ensures PolyEquals(a, b) ==> IsSet(a) && IsSet(b) && a == b
  {
  }

  /** `Unstructure`: `logic_error` for an empty value, otherwise the
      object's JSON. */
  function Unstructure(v: PolyValue): (r: Result<Json>)
    ensures r.Err? <==> !IsSet(v)
    ensures r.Err? ==> r.error == LogicError
    ensures r.Ok? ==> TypeKey in r.value && r.value[TypeKey] == v.value.value.typeName
  {
    if v.value.None? then Err(LogicError) else Ok(PolyUnstructure(v.value.value))
  }

  /** `Value::Structure`: the base's `Structure`, wrapped. */
  function ValueStructure(registry: set<string>, json: Json): (r: Result<PolyValue>)
    requires TypeKey in json
    ensures r.Err? <==> json[TypeKey] !in registry
    ensures r.Ok? ==> IsSet(r.value) && r.value.value.value.typeName == json[TypeKey]
  {
    var obj :- Structure(registry, json);
    Ok(PolyValue(Some(obj)))
  }

  /** A set value of a registered type survives the round trip through
      JSON, and compares equal to itself afterwards. */
  lemma ValueRoundTrip(registry: set<string>, v: PolyValue)
    requires IsSet(v) && v.value.value.typeName in registry && TypeKey !in v.value.value.fields
    ensures ValueStructure(registry, Unstructure(v).value) == Ok(v)
    ensures PolyEquals(ValueStructure(registry, Unstructure(v).value).value, v)
  {
    StructureOfUnstructure(registry, v.value.value);
  }

  /** `GetDerived<Derived>()`: the object when it is of that type, else
      null. */
  function GetDerived(v: PolyValue, typeName: string): (r: Option<Instance>)
    ensures r.Some? <==> IsSet(v) && v.value.value.typeName == typeName
    ensures r.Some? ==> r.value == v.value.value
  {
    if v.value.Some? && v.value.value.typeName == typeName then v.value else None
  }

  /** `RequireDerived<Derived>()`: as `GetDerived`, but a mismatch is a
      `PolyError`. */
  function RequireDerived(v: PolyValue, typeName: string): (r: Result<Instance>)
    ensures r.Err? <==> GetDerived(v, typeName).None?
    ensures r.Err? ==> r.error == PolyError
    ensures r.Ok? ==> Some(r.value) == GetDerived(v, typeName)
  {
    var d := GetDerived(v, typeName);
    if d.None? then Err(PolyError) else Ok(d.value)
  }
}
