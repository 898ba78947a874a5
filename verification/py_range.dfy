/** The Python `Range` group: three model values `value`, `minimum` and
    `maximum`, where `RangeModel` keeps the value between the limits.

  The three nodes are held as one record; the log lists the nodes'
  publications in order.
 */
module PyRange {
  import opened PyProxy
  import opened PyValue

  /** The prototype record `Range(value, minimum, maximum)`. */
  datatype Range = Range(value: Value, minimum: Value, maximum: Value)

  /** The state of a `RangeModel`: what its three nodes hold. */
  datatype RangeModel = RangeModel(value: Value, minimum: Value, maximum: Value)

  datatype RangeEvent =
    | ValuePublished(v: Value)
    | MinimumPublished(v: Value)
    | MaximumPublished(v: Value)

  /** The order `RangeModel`'s own operations keep. */
  ghost predicate Valid(r: RangeModel) {
    r.minimum <= r.value <= r.maximum
  }

  function Min(a: Value, b: Value): Value { if a <= b then a else b }
  function Max(a: Value, b: Value): Value { if a >= b then a else b }

  /** `max(minimum, min(v, maximum))`. */
  function Clamp(v: Value, minimum: Value, maximum: Value): (c: Value)
    requires minimum <= maximum
    ensures minimum <= c <= maximum
    ensures minimum <= v <= maximum ==> c == v
    ensures v < minimum ==> c == minimum
    ensures v > maximum ==> c == maximum
  {
    Max(minimum, Min(v, maximum))
  }

  /** The generated `__init__` with a prototype stores its three fields. */
  function FromPrototype(p: Range): (r: RangeModel)
    ensures r.value == p.value && r.minimum == p.minimum && r.maximum == p.maximum
  {
    RangeModel(p.value, p.minimum, p.maximum)
  }

  /** `RangeModel.Create(name, value)`: value, minimum and maximum all
      start at `value`. */
  function Create(v: Value): (r: RangeModel)
    ensures Valid(r) && r.value == v && r.minimum == v && r.maximum == v
  {
    FromPrototype(Range(v, v, v))
  }

  /** `SetWithoutNotify_(v)`: store the clamped value. The clamp is written
      out as the source computes it, so it is only a clamp when the limits
      are ordered. */
  function SetWithoutNotify(r: RangeModel, v: Value): (r': RangeModel)
    ensures r'.minimum == r.minimum && r'.maximum == r.maximum
    ensures r'.value == Max(r.minimum, Min(v, r.maximum))
    ensures Valid(r) ==> Valid(r') && r'.value == Clamp(v, r.minimum, r.maximum)
  {
    r.(value := Max(r.minimum, Min(v, r.maximum)))
  }

  /** `Set(v)`: store the clamped value and publish it once. */
  function Set(r: RangeModel, v: Value): (s: (RangeModel, seq<RangeEvent>))
    ensures s.0 == SetWithoutNotify(r, v)
    ensures s.1 == [ValuePublished(s.0.value)]
  {
    var r' := SetWithoutNotify(r, v);
    (r', [ValuePublished(r'.value)])
  }

  /** `SetMinimum(m)`: the minimum is first capped at the maximum; inside a
      `ValueContext` on the minimum, the value is raised to it (and
      published) when below, and the context then publishes the minimum. */
  function SetMinimum(r: RangeModel, m: Value): (s: (RangeModel, seq<RangeEvent>))
    ensures s.0.minimum == Min(m, r.maximum) && s.0.maximum == r.maximum
    ensures r.value < s.0.minimum ==>
      s.0.value == s.0.minimum && s.1 == [ValuePublished(s.0.minimum), MinimumPublished(s.0.minimum)]
    ensures r.value >= s.0.minimum ==> s.0.value == r.value && s.1 == [MinimumPublished(s.0.minimum)]
    ensures Valid(r) ==> Valid(s.0)
  {
    var minimum := Min(m, r.maximum);
    if r.value < minimum then
      (RangeModel(minimum, minimum, r.maximum), [ValuePublished(minimum), MinimumPublished(minimum)])
    else
      (r.(minimum := minimum), [MinimumPublished(minimum)])
  }

  /** `SetMaximum(M)`, the mirror image of `SetMinimum`. */
  function SetMaximum(r: RangeModel, m: Value): (s: (RangeModel, seq<RangeEvent>))
    ensures s.0.maximum == Max(m, r.minimum) && s.0.minimum == r.minimum
    ensures r.value > s.0.maximum ==>
      s.0.value == s.0.maximum && s.1 == [ValuePublished(s.0.maximum), MaximumPublished(s.0.maximum)]
    ensures r.value <= s.0.maximum ==> s.0.value == r.value && s.1 == [MaximumPublished(s.0.maximum)]
    ensures Valid(r) ==> Valid(s.0)
  {
    var maximum := Max(m, r.minimum);
    if r.value > maximum then
      (RangeModel(maximum, r.minimum, maximum), [ValuePublished(maximum), MaximumPublished(maximum)])
    else
      (r.(maximum := maximum), [MaximumPublished(maximum)])
  }

  /** A value already inside the limits is stored unchanged, and storing
      the result again changes nothing. */
  lemma SetInsideKeepsValue(r: RangeModel, v: Value)
    requires Valid(r)
    ensures r.minimum <= v <= r.maximum ==> Set(r, v).0.value == v
    ensures SetWithoutNotify(SetWithoutNotify(r, v), v) == SetWithoutNotify(r, v)
  {
  }

  /** Within the limits, `SetMinimum` followed by `SetMaximum` yields
      exactly the requested limits when they are ordered and leaves the
      value inside them. */
  lemma SetLimitsInOrder(r: RangeModel, lo: Value, hi: Value)
    requires Valid(r)
    requires lo <= hi && lo <= r.maximum
    ensures var r' := SetMaximum(SetMinimum(r, lo).0, hi).0;
      Valid(r') && r'.minimum == lo && r'.maximum == hi
      && (lo <= r.value <= hi ==> r'.value == r.value)
  {
    var r1 := SetMinimum(r, lo).0;
    assert r1.minimum == lo;
  }

  // ---------------------------------------------------------------------
  // RangeInterface

  /** The filters of a `RangeInterface`: the value node is a filtered
      interface value, the limit nodes are filtered read-only values. */
  datatype RangeFilters = RangeFilters(
    valueOnGet: Filter, valueOnSet: Filter, minimumOnGet: Filter, maximumOnGet: Filter)

  function NoFilters(): RangeFilters {
    RangeFilters(DefaultFilter, DefaultFilter, DefaultFilter, DefaultFilter)
  }

  /** `AttachFilterOnGet(f)` attaches `f` to all three nodes. */
  function AttachFilterOnGet(filters: RangeFilters, f: FilterProxy): (filters': RangeFilters)
    ensures filters'.valueOnGet == filters'.minimumOnGet == filters'.maximumOnGet == Attached(f)
    ensures filters'.valueOnSet == filters.valueOnSet
  {
    filters.(valueOnGet := Attached(f), minimumOnGet := Attached(f), maximumOnGet := Attached(f))
  }

  /** `AttachFilterOnSet(f)` attaches `f` to the value node only. */
  function AttachFilterOnSet(filters: RangeFilters, f: FilterProxy): (filters': RangeFilters)
    ensures filters'.valueOnSet == Attached(f)
    ensures filters'.valueOnGet == filters.valueOnGet
    ensures filters'.minimumOnGet == filters.minimumOnGet && filters'.maximumOnGet == filters.maximumOnGet
  {
    filters.(valueOnSet := Attached(f))
  }

  /** What the interface's three nodes read. */
  function InterfaceGet(r: RangeModel, filters: RangeFilters): (view: Range)
    ensures filters == NoFilters() ==> view == Range(r.value, r.minimum, r.maximum)
  {
    Range(Apply(filters.valueOnGet, r.value), Apply(filters.minimumOnGet, r.minimum),
          Apply(filters.maximumOnGet, r.maximum))
  }

  /** A monotone filter on get, attached by `AttachFilterOnGet`, shows the
      limits in order around the value. */
  lemma MonotoneViewKeepsOrder(r: RangeModel, filters: RangeFilters, f: FilterProxy)
    requires Valid(r)
    requires forall a: Value, b: Value :: a <= b ==> f.callback(a) <= f.callback(b)
    ensures var view := InterfaceGet(r, AttachFilterOnGet(filters, f));
      view.minimum <= view.value <= view.maximum
  {
  }

  /** `Set` on the interface's value node publishes the filtered value on
      the model side, where the plain model value node stores it: the
      `RangeModel` clamp is not on this path. */
  function InterfaceSetValue(r: RangeModel, filters: RangeFilters, v: Value): (s: (RangeModel, seq<RangeEvent>))
    ensures s.0 == r.(value := Apply(filters.valueOnSet, v))
    ensures s.1 == [ValuePublished(Apply(filters.valueOnSet, v))]
  {
    var w := Apply(filters.valueOnSet, v);
    (r.(value := w), [ValuePublished(w)])
  }

  /** An interface write outside the limits is stored as is, unlike a
      model `Set` of the same value. */
  lemma InterfaceSetBypassesClamp()
    ensures var r := Create(0);
      InterfaceSetValue(r, NoFilters(), 5).0.value == 5 && !Valid(InterfaceSetValue(r, NoFilters(), 5).0)
      && Set(r, 5).0.value == 0
  {
  }

  // ---------------------------------------------------------------------
  // RangeFactory

  /** `RangeFactory(value, minimum, maximum)()`. */
  function RangeFactory(value: Value, minimum: Value, maximum: Value): (p: Range)
    ensures FromPrototype(p) == RangeModel(value, minimum, maximum)
  {
    Range(value, minimum, maximum)
  }
}
