/** The Python `Chooser`: a list of choices and the index of the selected
    one, held by two model values (`selection` and `choices`).

  `ChooserModel` keeps the pair consistent: setting a value selects its
  first occurrence (appending it when absent), and replacing the choices
  keeps the selected value when it survives.
 */
module PyChooser {
  import opened Wrappers
  import opened PyProxy
  import opened Find

  /** The prototype record, and the state of a `ChooserModel`. */
  datatype Chooser = Chooser(selection: int, choices: seq<Value>)

  /** What a `ChooserModel` publishes, in order. */
  datatype ChooserEvent =
    | SelectionPublished(index: int)
    | ChoicesPublished(choices: seq<Value>)

  /** `Chooser(value, choices)`: with choices, select the first index of
      `value` (`list.index` raises ValueError when it is absent); without,
      the choices are `[value]`. */
  function NewChooser(value: Value, choices: Option<seq<Value>>): (r: Result<Chooser>)
    ensures r.Err? <==> choices.Some? && value !in choices.value
    ensures r.Err? ==> r.error == ValueError
    ensures choices.None? ==> r == Ok(Chooser(0, [value]))
    ensures r.Ok? && choices.Some? ==>
      r.value.choices == choices.value && 0 <= r.value.selection < |choices.value|
      && choices.value[r.value.selection] == value
      && (forall j :: 0 <= j < r.value.selection ==> choices.value[j] != value)
  {
    match choices
    case None => Ok(Chooser(0, [value]))
    case Some(cs) =>
      var k := FindIndex(cs, value);
      if k < 0 then Err(ValueError) else Ok(Chooser(k, cs))
  }

  /** `ChooserModel.Create(name, value)` uses the value as the only choice. */
  function Create(value: Value): (c: Chooser)
    ensures Get(c) == Ok(value) && |c.choices| == 1
  {
    NewChooser(value, None).value
  }

  /** `Get`: `choices[selection]` with Python's list indexing, where a
      negative index counts from the end and anything else out of range
      raises IndexError. */
  function Get(c: Chooser): (r: Result<Value>)
    ensures r.Err? <==> !(-|c.choices| <= c.selection < |c.choices|)
    ensures r.Err? ==> r.error == IndexError
    ensures r.Ok? && c.selection >= 0 ==> r.value == c.choices[c.selection]
    ensures r.Ok? && c.selection < 0 ==> r.value == c.choices[|c.choices| + c.selection]
  {
    var n := |c.choices|;
    if 0 <= c.selection < n then Ok(c.choices[c.selection])
    else if -n <= c.selection < 0 then Ok(c.choices[n + c.selection])
    else Err(IndexError)
  }

  /** `SetWithoutNotify_(value)`: select the first occurrence of `value`,
      appending it to the choices first when it is absent. */
  function SetWithoutNotify(c: Chooser, value: Value): (c': Chooser)
    ensures Get(c') == Ok(value)
    ensures c'.selection == FindIndex(c'.choices, value)
    ensures value in c.choices ==> c'.choices == c.choices
    ensures value !in c.choices ==> c'.choices == c.choices + [value] && c'.selection == |c.choices|
  {
    if value !in c.choices then
      var choices := c.choices + [value];
      FindIndexAppend(c.choices, value, value);
      Chooser(FindIndex(choices, value), choices)
    else
      Chooser(FindIndex(c.choices, value), c.choices)
  }

  /** `Notify_`: the selection is published before the choices. */
  function Notify(c: Chooser): (log: seq<ChooserEvent>)
    ensures |log| == 2 && log[0].SelectionPublished? && log[1].ChoicesPublished?
    ensures log[0].index == c.selection && log[1].choices == c.choices
  {
    [SelectionPublished(c.selection), ChoicesPublished(c.choices)]
  }

  /** `Set` is `SetWithoutNotify_` followed by `Notify_`. */
  function Set(c: Chooser, value: Value): (r: (Chooser, seq<ChooserEvent>))
    ensures Get(r.0) == Ok(value)
    ensures r.0 == SetWithoutNotify(c, value) && r.1 == Notify(r.0)
  {
    var c' := SetWithoutNotify(c, value);
    (c', Notify(c'))
  }

  /** `SetChoices(choices)`: inside a `ValueContext` on the selection, read
      the current value, select its first index in the new choices (0 when
      absent), and `Set` the choices; the context then publishes the
      selection. When reading the current value raises, the context puts
      the selection back and the exception propagates. */
  function SetChoices(c: Chooser, choices: seq<Value>): (r: Result<(Chooser, seq<ChooserEvent>)>)
    ensures r.Err? <==> Get(c).Err?
    ensures r.Err? ==> r.error == IndexError
    ensures r.Ok? ==> r.value.0.choices == choices
    ensures r.Ok? ==> r.value.1 == [ChoicesPublished(choices), SelectionPublished(r.value.0.selection)]
    ensures r.Ok? && Get(c).value in choices ==> Get(r.value.0) == Ok(Get(c).value)
    ensures r.Ok? && Get(c).value !in choices ==> r.value.0.selection == 0
  {
    var value :- Get(c);
    var selection := if value !in choices then 0 else FindIndex(choices, value);
    Ok((Chooser(selection, choices), [ChoicesPublished(choices), SelectionPublished(selection)]))
  }

  /** The state a `ChooserModel` keeps while only its own operations run:
      the selection indexes the choices. */
  ghost predicate Valid(c: Chooser) {
    0 <= c.selection < |c.choices|
  }

  /** Construction and `Set` keep the selection in range; `SetChoices`
      does too, unless the new choices are empty. */
  lemma ChooserStaysValid(c: Chooser, value: Value, choices: seq<Value>)
    requires Valid(c)
    ensures NewChooser(value, Some(choices)).Ok? ==> Valid(NewChooser(value, Some(choices)).value)
    ensures Valid(SetWithoutNotify(c, value))
    ensures SetChoices(c, choices).Ok?
    ensures |choices| > 0 <==> Valid(SetChoices(c, choices).value.0)
  {
  }

  /** Setting a value twice is the same as once. */
  lemma SetIdempotent(c: Chooser, value: Value)
    ensures SetWithoutNotify(SetWithoutNotify(c, value), value) == SetWithoutNotify(c, value)
  {
  }

  /** Replacing the choices by themselves changes nothing but publishes
      both nodes. */
  lemma SetSameChoices(c: Chooser)
    requires Valid(c)
    requires forall j :: 0 <= j < c.selection ==> c.choices[j] != c.choices[c.selection]
    ensures SetChoices(c, c.choices).Ok? && SetChoices(c, c.choices).value.0 == c
  {
    FindIndexUnique(c.choices, c.choices[c.selection], c.selection);
  }
}
