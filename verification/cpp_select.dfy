/** The C++ `model::Select` of `select.h`: a list of choices, the selected
    index, and the selected value, kept in step.

  The selection is a model value filtered by a `SelectFilter`, which holds
  a copy of the choices taken when the filter was made; only its size
  matters, so the filter is modelled by that size. A change of selection
  reaches `OnSelection_`, which sets the value to the chosen element. Each
  model value's notification is recorded when it starts, so a selection
  change is followed by the value change it causes.
 */
module Selects {
  import opened Wrappers
  import opened Find

  // ---------------------------------------------------------------------
  // SelectFilter

  /** The `SelectFilter` constructor: `invalid_argument` for no choices;
      otherwise a filter over that many choices. */
  function NewSelectFilter<T>(choices: seq<T>): (r: Result<nat>)
    ensures r.Err? <==> |choices| == 0
    ensures r.Err? ==> r.error == InvalidArgument
    ensures r.Ok? ==> r.value == |choices| > 0
  {
    if |choices| == 0 then Err(InvalidArgument) else Ok(|choices|)
  }

  /** `SelectFilter::Get`: an index past the end reads as the last one. */
  function SelectFilterGet(size: nat, index: nat): (r: nat)
    requires size > 0
    ensures r < size
    ensures index < size ==> r == index
    ensures index >= size ==> r == size - 1
  {
    if index >= size then size - 1 else index
  }

  /** `SelectFilter::Set` is `Get`. */
  function SelectFilterSet(size: nat, index: nat): (r: nat)
    requires size > 0
    ensures r == SelectFilterGet(size, index)
  {
    SelectFilterGet(size, index)
  }

  /** The filter is a projection: applying it twice is applying it once,
      and it never moves a valid index. */
  lemma SelectFilterProjects(size: nat, index: nat)
    requires size > 0
    ensures SelectFilterGet(size, SelectFilterSet(size, index)) == SelectFilterSet(size, index)
    ensures (SelectFilterSet(size, index) == index) <==> index < size
  {
  }

  // ---------------------------------------------------------------------
  // model::Select

  datatype Select<T> = Select(value: T, choices: seq<T>, selection: nat, filterSize: nat)

  datatype SelectEvent<T> = SelectionChanged(index: nat) | ValueChanged(value: T) | ChoicesChanged(choices: seq<T>)

  /** The selection indexes the choices and the filter matches them. */
  ghost predicate IndexValid<T>(s: Select<T>) {
    |s.choices| > 0 && s.filterSize == |s.choices| && s.selection < |s.choices|
  }

  /** ... and the value is the selected choice. */
  ghost predicate Valid<T>(s: Select<T>) {
    IndexValid(s) && s.value == s.choices[s.selection]
  }

  /** `Select(value, choices)`: `out_of_range` unless `value` is a choice;
      otherwise its first index is selected. */
  function NewSelect<T(==)>(value: T, choices: seq<T>): (r: Result<Select<T>>)
    ensures r.Err? <==> value !in choices
    ensures r.Err? ==> r.error == OutOfRange
    ensures r.Ok? ==>
      && Valid(r.value) && r.value.value == value && r.value.choices == choices
      && r.value.selection == FindIndex(choices, value)
  {
    var index :- RequireIndex(choices, value);
    Ok(Select(value, choices, index, |choices|))
  }

  /** `Select(choices)` and the default constructor with the choice
      maker's list: the first choice is selected. The value is read from
      the front of the list before the filter can refuse an empty one, so
      the list must not be empty. */
  function NewSelectFromChoices<T>(choices: seq<T>): (r: Select<T>)
    requires |choices| > 0
    ensures Valid(r) && r.choices == choices
    ensures r.selection == 0 && r.value == choices[0]
  {
    Select(choices[0], choices, 0, |choices|)
  }

  /** `Get`: the value, not the index. */
  function SelectGet<T>(s: Select<T>): (v: T)
    requires Valid(s)
    ensures v == s.choices[GetSelectedIndex(s)]
  {
    s.value
  }

  /** `GetSelectedIndex`: the selection read through the filter. */
  function GetSelectedIndex<T>(s: Select<T>): (i: nat)
    requires IndexValid(s)
    ensures i < |s.choices|
    ensures i == s.selection
  {
    SelectFilterGet(s.filterSize, s.selection)
  }

  /** `OnSelection_(index)`: the value becomes the chosen element;
      `choices.at` refuses an index past the end. */
  function OnSelection<T>(s: Select<T>, index: nat): (r: Result<(Select<T>, seq<SelectEvent<T>>)>)
    ensures r.Err? <==> index >= |s.choices|
    ensures r.Err? ==> r.error == OutOfRange
    ensures r.Ok? ==> r.value.0 == s.(value := s.choices[index]) && r.value.1 == [ValueChanged(s.choices[index])]
  {
    if index >= |s.choices| then Err(OutOfRange)
    else Ok((s.(value := s.choices[index]), [ValueChanged(s.choices[index])]))
  }

  /** `SetSelection(index)`: the filtered index is stored and notified,
      and the value follows it. */
  function SetSelection<T>(s: Select<T>, index: nat): (r: (Select<T>, seq<SelectEvent<T>>))
    requires IndexValid(s)
    ensures Valid(r.0) && r.0.choices == s.choices
    ensures r.0.selection == (if index < |s.choices| then index else |s.choices| - 1)
    ensures r.1 == [SelectionChanged(r.0.selection), ValueChanged(r.0.value)]
  {
    var stored := SelectFilterSet(s.filterSize, index);
    var s1 := s.(selection := stored);
    var (s2, events) := OnSelection(s1, GetSelectedIndex(s1)).value;
    (s2, [SelectionChanged(stored)] + events)
  }

  /** `SetValue(value)`: `out_of_range` unless a choice; otherwise its
      first index is selected. */
  function SetValue<T(==)>(s: Select<T>, v: T): (r: Result<(Select<T>, seq<SelectEvent<T>>)>)
    requires IndexValid(s)
    ensures r.Err? <==> v !in s.choices
    ensures r.Err? ==> r.error == OutOfRange
    ensures r.Ok? ==>
      && Valid(r.value.0) && r.value.0.value == v
      && r.value.0.selection == FindIndex(s.choices, v)
      && r.value.1 == [SelectionChanged(FindIndex(s.choices, v)), ValueChanged(v)]
  {
    var index :- RequireIndex(s.choices, v);
    Ok(SetSelection(s, index))
  }

  /** `SetChoices(choices)`: the choices change at once but are published
      last, when the `Defer` ends. A selection still inside the new list is
      kept and the value re-read from it; otherwise the selection returns
      to 0, whose notification sets the value. An empty list fails when
      the value is read from it. The filter then takes the new list. */
  function SetChoices<T>(s: Select<T>, choices: seq<T>): (r: Result<(Select<T>, seq<SelectEvent<T>>)>)
    requires IndexValid(s)
    ensures r.Err? <==> |choices| == 0
    ensures r.Err? ==> r.error == OutOfRange
    ensures r.Ok? ==>
      var (s', events) := r.value;
      && Valid(s') && s'.choices == choices
      && s'.selection == (if s.selection < |choices| then s.selection else 0)
      && s'.value == choices[s'.selection]
      && events == (if s.selection < |choices| then [] else [SelectionChanged(0)])
        + [ValueChanged(s'.value), ChoicesChanged(choices)]
  {
    var deferred := s.(choices := choices);
    var current := GetSelectedIndex(s);
    var (s1, events) :-
      if current >= |choices| then
        var reset := deferred.(selection := SelectFilterSet(s.filterSize, 0));
        var (s2, valueEvents) :- OnSelection(reset, 0);
        Ok((s2, [SelectionChanged(0)] + valueEvents))
      else OnSelection(deferred, current);
    Ok((s1.(filterSize := |choices|), events + [ChoicesChanged(choices)]))
  }

  /** `SetInitial(value)`: a value that is not a choice is ignored;
      otherwise index and value are stored without notification. */
  function SetInitial<T(==)>(s: Select<T>, v: T): (s': Select<T>)
    requires IndexValid(s)
    ensures v !in s.choices ==> s' == s
    ensures v in s.choices ==> s' == s.(selection := FindIndex(s.choices, v), value := v)
    ensures Valid(s) ==> Valid(s')
  {
    if FindIndex(s.choices, v) < 0 then s
    else s.(selection := SelectFilterSet(s.filterSize, FindIndex(s.choices, v)), value := v)
  }

  /** `SetWithoutNotify_(value)`: as `SetInitial`, but a value that is not
      a choice is `out_of_range`. */
  function SetWithoutNotify<T(==)>(s: Select<T>, v: T): (r: Result<Select<T>>)
    requires IndexValid(s)
    ensures r.Err? <==> v !in s.choices
    ensures r.Err? ==> r.error == OutOfRange
    ensures r.Ok? ==> Valid(r.value) && r.value.value == v && r.value.selection == FindIndex(s.choices, v)
  {
    if FindIndex(s.choices, v) < 0 then Err(OutOfRange)
    else Ok(SetInitial(s, v))
  }

  /** `DoNotify_`: the selection is notified again, so the value is set
      from it. */
  function DoNotify<T>(s: Select<T>): (r: (Select<T>, seq<SelectEvent<T>>))
    requires IndexValid(s)
    ensures Valid(r.0) && r.0.selection == s.selection && r.0.choices == s.choices
    ensures Valid(s) ==> r.0 == s
    ensures r.1 == [SelectionChanged(s.selection), ValueChanged(s.choices[s.selection])]
  {
    var (s', events) := OnSelection(s, GetSelectedIndex(s)).value;
    (s', [SelectionChanged(s.selection)] + events)
  }

  // ---------------------------------------------------------------------
  // control::Select

  /** `control::Select::SetWithoutNotify_(value)`: only the upstream's
      selection is written; its value catches up on `DoNotify_`. */
  function ControlSetWithoutNotify<T(==)>(s: Select<T>, v: T): (r: Result<Select<T>>)
    requires IndexValid(s)
    ensures r.Err? <==> v !in s.choices
    ensures r.Err? ==> r.error == OutOfRange
    ensures r.Ok? ==> IndexValid(r.value) && r.value == s.(selection := FindIndex(s.choices, v))
  {
    var index :- RequireIndex(s.choices, v);
    Ok(s.(selection := SelectFilterSet(s.filterSize, index)))
  }

  /** A control's write without notification, then its notification,
      leaves the model as `SetValue` does and announces the same. */
  lemma ControlWriteThenNotifyIsSetValue<T>(s: Select<T>, v: T)
    requires IndexValid(s) && v in s.choices
    ensures DoNotify(ControlSetWithoutNotify(s, v).value) == SetValue(s, v).value
  {
  }

  /** Reading the value back and setting it selects the first index that
      holds it, which is never later than the current one; the value is
      unchanged. */
  lemma SetValueOfGet<T>(s: Select<T>)
    requires Valid(s)
    ensures SetValue(s, SelectGet(s)).Ok?
    ensures SetValue(s, SelectGet(s)).value.0.value == SelectGet(s)
    ensures SetValue(s, SelectGet(s)).value.0.selection <= s.selection
  {
    assert s.choices[s.selection] == s.value;
  }

  /** Selecting an index and reading the value gives the choice at the
      clamped index. */
  lemma SelectThenGet<T>(s: Select<T>, index: nat)
    requires IndexValid(s)
    ensures var s' := SetSelection(s, index).0;
      SelectGet(s') == s.choices[if index < |s.choices| then index else |s.choices| - 1]
  {
  }
}
