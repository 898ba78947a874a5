/** The C++ models of polymorphic values: `poly::Model` of `poly_model.h`
    and `ModelWrapperTemplate` of `model_wrapper.h`. Each holds a model
    base made for the derived type of its value and replaces it when a
    value of another derived type arrives, announcing the replacement on
    signals of its own.

  A model base is named by the derived type it was made for. A value fits
  the current base when there is one and it was made for the value's type.
 */
module PolyModels {
  import opened Wrappers
  import opened Polys

  /** The current model base, if any, and the value it holds. */
  datatype PolyModel = PolyModel(base: Option<string>, value: PolyValue)

  datatype PolyEvent =
    | ValueNotified(value: Instance)
    | BaseWillDelete
    | InternalBaseWillDelete
    | InternalBaseCreated
    | BaseCreated

  /** `value.CheckModel(base)`: the base exists and was made for the
      value's type. */
  predicate Fits(m: PolyModel, v: Instance) {
    m.base == Some(v.typeName)
  }

  /** The base always matches the stored value. */
  predicate Valid(m: PolyModel) {
    m.base.None? || (m.value.value.Some? && m.base == Some(m.value.value.value.typeName))
  }

  function NewPolyModel(): (m: PolyModel)
    ensures Valid(m) && m.base.None?
  {
    PolyModel(None, EmptyValue())
  }

  function BaseCreations(events: seq<PolyEvent>): nat {
    if |events| == 0 then 0 else (if events[0] == BaseCreated then 1 else 0) + BaseCreations(events[1..])
  }

  // ---------------------------------------------------------------------
  // poly::Model

  /** `poly::Model::Set`: a value that does not fit gets a new base, which
      takes the value (and notifies it) before `baseCreated` is
      triggered; a value that fits is set on the current base. */
  function ModelSet(m: PolyModel, v: Instance): (r: (PolyModel, seq<PolyEvent>))
    ensures r.0 == PolyModel(Some(v.typeName), PolyValue(Some(v))) && Valid(r.0)
    ensures Fits(m, v) ==> r.1 == [ValueNotified(v)]
    ensures !Fits(m, v) ==> r.1 == [ValueNotified(v), BaseCreated]
  {
    var m' := PolyModel(Some(v.typeName), PolyValue(Some(v)));
    if !Fits(m, v) then (m', [ValueNotified(v), BaseCreated]) else (m', [ValueNotified(v)])
  }

  /** `poly::Model::SetWithoutNotify_`: the same branches without the
      value's notification; a new base is still announced. */
  function ModelSetWithoutNotify(m: PolyModel, v: Instance): (r: (PolyModel, seq<PolyEvent>))
    ensures r.0 == ModelSet(m, v).0
    ensures r.1 == (if Fits(m, v) then [] else [BaseCreated])
  {
    var m' := PolyModel(Some(v.typeName), PolyValue(Some(v)));
    if !Fits(m, v) then (m', [BaseCreated]) else (m', [])
  }

  /** `poly::Model::DoNotify_`: the base notifies its value. */
  function ModelDoNotify(m: PolyModel): (events: seq<PolyEvent>)
    requires m.value.value.Some?
    ensures events == [ValueNotified(m.value.value.value)]
  {
    [ValueNotified(m.value.value.value)]
  }

  /** `Set` is `SetWithoutNotify_` followed by `DoNotify_` on the stored
      value, except for order: `Set` notifies the value before announcing
      a new base, while the pair announces the base first. */
  lemma SetIsSetWithoutNotifyThenNotify(m: PolyModel, v: Instance)
    ensures var (m1, created) := ModelSetWithoutNotify(m, v);
      m1.value.value == Some(v)
      && ModelSet(m, v).0 == m1
      && ModelSet(m, v).1 == ModelDoNotify(m1) + created
      && multiset(ModelSet(m, v).1) == multiset(created + ModelDoNotify(m1))
  {
  }

  /** `RequireDerived<DerivedModel>()`: `PolyError` unless the base is of
      that type; with no base at all the cast fails too. */
  function ModelRequireDerived(m: PolyModel, typeName: string): (r: Result<PolyModel>)
    ensures r.Err? <==> m.base != Some(typeName)
    ensures r.Err? ==> r.error == PolyError
    ensures r.Ok? ==> r.value == m
  {
    if m.base != Some(typeName) then Err(PolyError) else Ok(m)
  }

  /** Setting a value creates a base exactly when the type changes; setting
      another value of the same type afterwards creates none, and the
      value's own notification always comes first. */
  lemma ModelSetCreatesBaseOnTypeChange(m: PolyModel, v: Instance, w: Instance)
    requires w.typeName == v.typeName
    ensures BaseCreations(ModelSet(m, v).1) == (if Fits(m, v) then 0 else 1)
    ensures BaseCreations(ModelSet(ModelSet(m, v).0, w).1) == 0
    ensures ModelSet(m, v).1[0] == ValueNotified(v)
    ensures ModelRequireDerived(ModelSet(m, v).0, v.typeName).Ok?
  {
    var events := ModelSet(m, v).1;
    assert BaseCreations(events[1..]) == (if Fits(m, v) then 0 else 1) by {
      if !Fits(m, v) {
        assert events[1..] == [BaseCreated];
        assert BaseCreations(events[1..][1..]) == 0;
      }
    }
  }

  // ---------------------------------------------------------------------
  // ModelWrapperTemplate

  /** `ModelWrapperTemplate::SetWithoutNotify_`: a value that does not fit
      replaces the base. When there was one, `baseWillDelete` and then
      `internalBaseWillDelete` fire first; after the new base takes the
      value, `internalBaseCreated` and then `baseCreated` fire. A value
      that fits is set with no signal. */
  function WrapperSetWithoutNotify(m: PolyModel, v: Instance): (r: (PolyModel, seq<PolyEvent>))
    ensures r.0 == ModelSet(m, v).0
    ensures Fits(m, v) ==> r.1 == []
    ensures !Fits(m, v) ==>
      r.1 == (if m.base.Some? then [BaseWillDelete, InternalBaseWillDelete] else []) + [InternalBaseCreated, BaseCreated]
  {
    var m' := PolyModel(Some(v.typeName), PolyValue(Some(v)));
    if Fits(m, v) then (m', [])
    else
      var willDelete := if m.base.Some? then [BaseWillDelete, InternalBaseWillDelete] else [];
      (m', willDelete + [InternalBaseCreated, BaseCreated])
  }

  /** `ModelWrapperTemplate::Set`: `SetWithoutNotify_`, then one
      notification of the value. */
  function WrapperSet(m: PolyModel, v: Instance): (r: (PolyModel, seq<PolyEvent>))
    ensures r.0 == ModelSet(m, v).0
    ensures |r.1| > 0 && r.1[|r.1| - 1] == ValueNotified(v)
    ensures r.1[..|r.1| - 1] == WrapperSetWithoutNotify(m, v).1
  {
    var (m', events) := WrapperSetWithoutNotify(m, v);
    var all := events + [ValueNotified(v)];
    assert all[..|all| - 1] == events;
    (m', all)
  }

  /** The wrapper and `poly::Model` end in the same state; the wrapper
      announces a deletion only when a base existed, and always before
      the creation. */
  lemma WrapperSignalsOrdered(m: PolyModel, v: Instance)
    ensures WrapperSet(m, v).0 == ModelSet(m, v).0
    ensures m.base.None? ==> BaseWillDelete !in WrapperSet(m, v).1
    ensures !Fits(m, v) && m.base.Some? ==>
      WrapperSet(m, v).1 == [BaseWillDelete, InternalBaseWillDelete, InternalBaseCreated, BaseCreated, ValueNotified(v)]
    ensures Fits(m, v) ==> WrapperSet(m, v).1 == [ValueNotified(v)]
  {
  }
}
