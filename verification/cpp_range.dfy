/** The C++ range nodes of `range.h`: a `model::Range` holds a value kept
    between a minimum and a maximum by a `RangeFilter`, and publishes the
    limits as model values of their own.

  The value type is an integer; an optional value type is modelled by
  `Option<int>`, where the empty value passes every step unchanged. The
  published limits and the value filter's limits are separate: `Trim`
  narrows the filter without moving the published limits inward. Each
  notification is recorded as the node it comes from and the value it
  carries; the connections behind each node are left out.
 */
module Ranges {
  import opened Wrappers

  // ---------------------------------------------------------------------
  // Limits

  /** `Limit<integral, fractional, denominator>`. */
  datatype Limit = Limit(integral: int, fractional: nat, denominator: nat)

  /** `Limit::Get` for an integral type: the integral part only. */
  function LimitGetIntegral(l: Limit): int { l.integral }

  /** `Limit::Get` for a floating type: the integral part plus the
      fraction. */
  function LimitGetReal(l: Limit): real
    requires l.denominator > 0
  {
    l.integral as real + l.fractional as real / l.denominator as real
  }

  /** For a proper fraction the integral reading is the real reading with
      the fraction dropped: it lies at most one below it. */
  lemma IntegralPartBelow(l: Limit)
    requires l.denominator > 0 && l.fractional < l.denominator
    ensures LimitGetIntegral(l) as real <= LimitGetReal(l) < LimitGetIntegral(l) as real + 1.0
  {
    assert l.fractional as real / l.denominator as real < 1.0;
  }

  /** The numeric limits of the value type. */
  datatype TypeLimits = TypeLimits(lowest: int, highest: int)

  /** `Minimum` and `Maximum`: the given limit, or the type's lowest or
      largest value when none is given. */
  function DefaultMinimum(given: Option<Limit>, t: TypeLimits): (v: int)
    ensures given.None? ==> v == t.lowest
    ensures given.Some? ==> v == LimitGetIntegral(given.value)
  {
    if given.None? then t.lowest else given.value.integral
  }

  function DefaultMaximum(given: Option<Limit>, t: TypeLimits): (v: int)
    ensures given.None? ==> v == t.highest
    ensures given.Some? ==> v == LimitGetIntegral(given.value)
  {
    if given.None? then t.highest else given.value.integral
  }

  // ---------------------------------------------------------------------
  // RangeFilter and Bounds

  function Min(a: int, b: int): int { if a < b then a else b }
  function Max(a: int, b: int): int { if a < b then b else a }

  datatype RangeFilter = RangeFilter(minimum: int, maximum: int)

  /** `RangeFilter::Set`: `max(minimum, min(value, maximum))`. */
  function FilterSet(f: RangeFilter, v: int): (r: int)
    ensures f.minimum <= f.maximum ==> f.minimum <= r <= f.maximum
    ensures f.minimum <= v <= f.maximum ==> r == v
    ensures f.minimum > f.maximum ==> r == f.minimum
  {
    Max(f.minimum, Min(v, f.maximum))
  }

  /** `RangeFilter::Get` is the identity. */
  function FilterGet(f: RangeFilter, v: int): (r: int)
    ensures r == v
  {
    v
  }

  /** The filter on an optional value: the empty value passes. */
  function FilterSetOptional(f: RangeFilter, v: Option<int>): (r: Option<int>)
    ensures r.None? <==> v.None?
    ensures v.Some? ==> r.value == FilterSet(f, v.value)
  {
    if v.None? then None else Some(FilterSet(f, v.value))
  }

  /** Filtering twice is filtering once, and the setter's output reads
      back unchanged. */
  lemma FilterIdempotent(f: RangeFilter, v: int)
    ensures FilterSet(f, FilterSet(f, v)) == FilterSet(f, v)
    ensures FilterGet(f, FilterSet(f, v)) == FilterSet(f, v)
  {
  }

  datatype Bounds = Bounds(minimum: int, maximum: int)

  /** `Bounds::Constrain`: `min(maximum, max(value, minimum))`. */
  function Constrain(b: Bounds, v: int): (r: int)
    ensures b.minimum <= b.maximum ==> b.minimum <= r <= b.maximum
    ensures b.minimum <= v <= b.maximum ==> r == v
    ensures b.minimum > b.maximum ==> r == b.maximum
  {
    Min(b.maximum, Max(v, b.minimum))
  }

  /** The two clamps agree whenever the limits are ordered, and disagree
      on every value when they are not: the filter favours the minimum,
      `Constrain` the maximum. */
  lemma ClampsAgree(lo: int, hi: int, v: int)
    ensures lo <= hi ==> FilterSet(RangeFilter(lo, hi), v) == Constrain(Bounds(lo, hi), v)
    ensures lo > hi ==> FilterSet(RangeFilter(lo, hi), v) == lo && Constrain(Bounds(lo, hi), v) == hi
  {
  }

  // ---------------------------------------------------------------------
  // model::Range

  datatype RangeModel = RangeModel(
    value: Option<int>,
    filter: RangeFilter,
    minimum: int,
    maximum: int,
    defaultValue: Option<int>)

  /** Which of the range's three model values a notification comes from. */
  datatype RangeEvent = ValueChanged(value: Option<int>) | MinimumChanged(v: int) | MaximumChanged(v: int)

  /** The range's consistency: the filter lies within the published
      limits and the value within the filter. */
  ghost predicate Valid(r: RangeModel) {
    && r.minimum <= r.filter.minimum <= r.filter.maximum <= r.maximum
    && (r.value.Some? ==> r.filter.minimum <= r.value.value <= r.filter.maximum)
  }

  /** The constructors: both limits at their defaults, the filter on them,
      the initial value filtered, and that value remembered as the
      default. `initial` is `Type{}` for the default constructor. */
  function NewRange(initial: Option<int>, lo: int, hi: int): (r: RangeModel)
    ensures r.minimum == lo && r.maximum == hi && r.filter == RangeFilter(lo, hi)
    ensures r.value == FilterSetOptional(RangeFilter(lo, hi), initial) && r.defaultValue == r.value
    ensures lo <= hi ==> Valid(r)
  {
    var value := FilterSetOptional(RangeFilter(lo, hi), initial);
    RangeModel(value, RangeFilter(lo, hi), lo, hi, value)
  }

  /** `Set`: the filtered value is stored and notified, an empty value
      included. */
  function RangeSet(r: RangeModel, v: Option<int>): (out: (RangeModel, seq<RangeEvent>))
    ensures out.0 == r.(value := FilterSetOptional(r.filter, v))
    ensures out.1 == [ValueChanged(out.0.value)]
    ensures v.None? ==> out.0.value.None?
    ensures v.Some? ==> out.0.value == Some(FilterSet(r.filter, v.value))
    ensures Valid(r) ==> Valid(out.0)
  {
    var value := FilterSetOptional(r.filter, v);
    (r.(value := value), [ValueChanged(value)])
  }

  /** `SetLimits`: `invalid_argument` when `maximum < minimum`. Otherwise
      both limits and the filter take the new bounds, a value outside them
      moves to the nearer bound, and the deferred notifications go out as
      their scopes close: the value (only if it moved), then the maximum,
      then the minimum. */
  function SetLimits(r: RangeModel, lo: int, hi: int): (out: Result<(RangeModel, seq<RangeEvent>)>)
    ensures out.Err? <==> hi < lo
    ensures out.Err? ==> out.error == InvalidArgument
    ensures out.Ok? ==> var (r', events) := out.value;
      && r'.minimum == lo && r'.maximum == hi && r'.filter == RangeFilter(lo, hi)
      && Valid(r') && r'.defaultValue == r.defaultValue
      && r'.value == FilterSetOptional(RangeFilter(lo, hi), r.value)
      && events == (if r'.value != r.value then [ValueChanged(r'.value)] else [])
        + [MaximumChanged(hi), MinimumChanged(lo)]
  {
    if hi < lo then Err(InvalidArgument)
    else
      var limited := r.(minimum := lo, maximum := hi, filter := RangeFilter(lo, hi));
      var limits := [MaximumChanged(hi), MinimumChanged(lo)];
      if r.value.None? then Ok((limited, limits))
      else if r.value.value < lo then Ok((limited.(value := Some(lo)), [ValueChanged(Some(lo))] + limits))
      else if r.value.value > hi then Ok((limited.(value := Some(hi)), [ValueChanged(Some(hi))] + limits))
      else Ok((limited, limits))
  }

  /** `SetMinimum`: the new minimum is first lowered to the maximum if
      above it; the filter spans the new limits; a value below the
      minimum is raised to it and notified at once, and the minimum's
      notification follows. */
  function SetMinimum(r: RangeModel, m: int): (out: (RangeModel, seq<RangeEvent>))
    ensures var (r', events) := out;
      && r'.minimum == Min(m, r.maximum) && r'.maximum == r.maximum
      && r'.filter == RangeFilter(r'.minimum, r.maximum)
      && (r.value.Some? && r.value.value < r'.minimum ==> r'.value == Some(r'.minimum))
      && (r.value.None? || r.value.value >= r'.minimum ==> r'.value == r.value)
      && events == (if r'.value != r.value then [ValueChanged(Some(r'.minimum))] else []) + [MinimumChanged(r'.minimum)]
    ensures Valid(r) ==> Valid(out.0)
  {
    var m' := Min(m, r.maximum);
    var limited := r.(minimum := m', filter := RangeFilter(m', r.maximum));
    if r.value.Some? && r.value.value < m' then
      (limited.(value := Some(FilterSet(limited.filter, m'))), [ValueChanged(Some(m')), MinimumChanged(m')])
    else (limited, [MinimumChanged(m')])
  }

  /** `SetMaximum`: the mirror image of `SetMinimum`. */
  function SetMaximum(r: RangeModel, m: int): (out: (RangeModel, seq<RangeEvent>))
    ensures var (r', events) := out;
      && r'.maximum == Max(m, r.minimum) && r'.minimum == r.minimum
      && r'.filter == RangeFilter(r.minimum, r'.maximum)
      && (r.value.Some? && r.value.value > r'.maximum ==> r'.value == Some(r'.maximum))
      && (r.value.None? || r.value.value <= r'.maximum ==> r'.value == r.value)
      && events == (if r'.value != r.value then [ValueChanged(Some(r'.maximum))] else []) + [MaximumChanged(r'.maximum)]
    ensures Valid(r) ==> Valid(out.0)
  {
    var m' := Max(m, r.minimum);
    var limited := r.(maximum := m', filter := RangeFilter(r.minimum, m'));
    if r.value.Some? && r.value.value > m' then
      (limited.(value := Some(FilterSet(limited.filter, m'))), [ValueChanged(Some(m')), MaximumChanged(m')])
    else (limited, [MaximumChanged(m')])
  }

  /** `TrimMinimum`: the value filter's minimum moves to `m`, capped at the
      filter's maximum; the published minimum moves only when `m` lies
      below it, and only then is it notified; a value below `m` is raised
      to it. */
  function TrimMinimum(r: RangeModel, m: int): (out: (RangeModel, seq<RangeEvent>))
    ensures var (r', events) := out;
      var m' := Min(m, r.filter.maximum);
      && r'.filter == RangeFilter(m', r.filter.maximum)
      && r'.minimum == (if m' < r.minimum then m' else r.minimum) && r'.maximum == r.maximum
      && (r.value.Some? && r.value.value < m' ==> r'.value == Some(m'))
      && (r.value.None? || r.value.value >= m' ==> r'.value == r.value)
      && events == (if r'.value != r.value then [ValueChanged(Some(m'))] else [])
        + (if m' < r.minimum then [MinimumChanged(m')] else [])
    ensures Valid(r) ==> Valid(out.0)
  {
    var m' := Min(m, r.filter.maximum);
    var widens := m' < r.minimum;
    var trimmed := r.(minimum := if widens then m' else r.minimum, filter := RangeFilter(m', r.filter.maximum));
    var (r', valueEvents) :=
      if r.value.Some? && r.value.value < m' then
        (trimmed.(value := Some(FilterSet(trimmed.filter, m'))), [ValueChanged(Some(m'))])
      else (trimmed, []);
    (r', valueEvents + (if widens then [MinimumChanged(m')] else []))
  }

  /** `TrimMaximum`: the mirror image of `TrimMinimum`. */
  function TrimMaximum(r: RangeModel, m: int): (out: (RangeModel, seq<RangeEvent>))
    ensures var (r', events) := out;
      var m' := Max(m, r.filter.minimum);
      && r'.filter == RangeFilter(r.filter.minimum, m')
      && r'.maximum == (if m' > r.maximum then m' else r.maximum) && r'.minimum == r.minimum
      && (r.value.Some? && r.value.value > m' ==> r'.value == Some(m'))
      && (r.value.None? || r.value.value <= m' ==> r'.value == r.value)
      && events == (if r'.value != r.value then [ValueChanged(Some(m'))] else [])
        + (if m' > r.maximum then [MaximumChanged(m')] else [])
    ensures Valid(r) ==> Valid(out.0)
  {
    var m' := Max(m, r.filter.minimum);
    var widens := m' > r.maximum;
    var trimmed := r.(maximum := if widens then m' else r.maximum, filter := RangeFilter(r.filter.minimum, m'));
    var (r', valueEvents) :=
      if r.value.Some? && r.value.value > m' then
        (trimmed.(value := Some(FilterSet(trimmed.filter, m'))), [ValueChanged(Some(m'))])
      else (trimmed, []);
    (r', valueEvents + (if widens then [MaximumChanged(m')] else []))
  }

  /** `SetInitial`: store the filtered value without a notification and
      remember the value as given as the default. */
  function SetInitial(r: RangeModel, v: Option<int>): (r': RangeModel)
    ensures r'.value == FilterSetOptional(r.filter, v) && r'.defaultValue == v
    ensures r'.filter == r.filter && r'.minimum == r.minimum && r'.maximum == r.maximum
    ensures Valid(r) ==> Valid(r')
  {
    r.(value := FilterSetOptional(r.filter, v), defaultValue := v)
  }

  /** `OnReset_`: `Set` the default. */
  function OnReset(r: RangeModel): (out: (RangeModel, seq<RangeEvent>))
    ensures out == RangeSet(r, r.defaultValue)
  {
    RangeSet(r, r.defaultValue)
  }

  /** A reset after `SetInitial` restores the initial value, whatever was
      set in between, as long as the filter is the same. */
  lemma ResetRestoresInitial(r: RangeModel, initial: Option<int>, v: Option<int>)
    ensures var r1 := SetInitial(r, initial);
      var r2 := RangeSet(r1, v).0;
      OnReset(r2).0.value == r1.value
      && OnReset(r2).1 == [ValueChanged(r1.value)]
  {
  }

  /** `SetLimits` with the current limits leaves the value alone, and
      applying the same limits twice is applying them once. */
  lemma SetLimitsIdempotent(r: RangeModel, lo: int, hi: int)
    requires lo <= hi
    ensures var r1 := SetLimits(r, lo, hi).value.0;
      var r2 := SetLimits(r1, lo, hi).value;
      r2.0 == r1 && r2.1 == [MaximumChanged(hi), MinimumChanged(lo)]
  {
  }

  // ---------------------------------------------------------------------
  // AddRange

  /** `AddRange::SetLimits`: the same limits and clamp as `Range`, but the
      value's `Defer` is always released, so the value is notified even
      when it did not move. */
  function AddRangeSetLimits(r: RangeModel, lo: int, hi: int): (out: Result<(RangeModel, seq<RangeEvent>)>)
    requires r.value.Some?
    ensures out.Err? <==> hi < lo
    ensures out.Err? ==> out.error == InvalidArgument
    ensures out.Ok? ==> var (r', events) := out.value;
      && r' == SetLimits(r, lo, hi).value.0
      && events == [ValueChanged(r'.value), MaximumChanged(hi), MinimumChanged(lo)]
  {
    var (r', _) :- SetLimits(r, lo, hi);
    Ok((r', [ValueChanged(r'.value), MaximumChanged(hi), MinimumChanged(lo)]))
  }

  // ---------------------------------------------------------------------
  // LinkedRanges

  /** Two ranges where the low value bounds the high one from below and the
      high value bounds the low one from above. */
  datatype Linked = Linked(low: RangeModel, high: RangeModel)

  /** The link: each range's value filter ends at the other's value. */
  ghost predicate LinkValid(l: Linked) {
    && Valid(l.low) && Valid(l.high)
    && l.low.value.Some? && l.high.value.Some?
    && l.low.filter.maximum == l.high.value.value
    && l.high.filter.minimum == l.low.value.value
  }

  /** The constructor: both ranges on the same limits with their default
      values, then low's maximum trimmed to high and high's minimum
      trimmed to low. */
  function NewLinked(lo: int, hi: int, lowValue: int, highValue: int): (l: Linked)
    requires lo <= hi
    ensures LinkValid(l)
    ensures l.low.value.value <= l.high.value.value
  {
    var low := NewRange(Some(lowValue), lo, hi);
    var high := NewRange(Some(highValue), lo, hi);
    var low' := TrimMaximum(low, high.value.value).0;
    var high' := TrimMinimum(high, low'.value.value).0;
    Linked(low', high')
  }

  /** `OnLow_` and `OnHigh_`: a change to one value trims the other range. */
  function OnLow(l: Linked, v: int): (l': Linked)
    ensures l' == l.(high := TrimMinimum(l.high, v).0)
  {
    l.(high := TrimMinimum(l.high, v).0)
  }

  function OnHigh(l: Linked, v: int): (l': Linked)
    ensures l' == l.(low := TrimMaximum(l.low, v).0)
  {
    l.(low := TrimMaximum(l.low, v).0)
  }

  /** Setting the low value: the low range filters it and notifies, which
      trims the high range. */
  function SetLow(l: Linked, v: int): (l': Linked)
  {
    var (low, _) := RangeSet(l.low, Some(v));
    OnLow(l.(low := low), low.value.value)
  }

  function SetHigh(l: Linked, v: int): (l': Linked)
  {
    var (high, _) := RangeSet(l.high, Some(v));
    OnHigh(l.(high := high), high.value.value)
  }

  /** Either set keeps the link, so low never exceeds high, and the trim
      it causes never moves the other value. */
  lemma SetsKeepLink(l: Linked, v: int)
    requires LinkValid(l)
    ensures LinkValid(SetLow(l, v)) && SetLow(l, v).low.value.value <= SetLow(l, v).high.value.value
    ensures SetLow(l, v).high.value == l.high.value
    ensures LinkValid(SetHigh(l, v)) && SetHigh(l, v).low.value.value <= SetHigh(l, v).high.value.value
    ensures SetHigh(l, v).low.value == l.low.value
  {
  }
}
