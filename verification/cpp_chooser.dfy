/** The C++ `model::Chooser` of `chooser.h`: a list of choices and a
    selected index into it, each a model value of its own.

  The choices are changed through a `Reference`, whose documentation
  promises publication when it goes out of scope, but which has no
  destructor: `SetChoices` as written never tells the choices' observers.
  `SetChoices` models the code; `SetChoicesPublished` is the evidently
  intended behaviour, which publishes the new list last.
 */
module Choosers {
  import opened Wrappers
  import opened Find

  datatype Chooser<T> = Chooser(selectedIndex: nat, choices: seq<T>)

  datatype ChooserEvent<T> = IndexChanged(index: nat) | ChoicesChanged(choices: seq<T>)

  /** The selected index names one of the choices. */
  predicate Valid<T>(c: Chooser<T>) {
    c.selectedIndex < |c.choices|
  }

  /** `Chooser(initialValue)`: the one choice, selected. */
  function NewChooserFromValue<T>(v: T): (c: Chooser<T>)
    ensures Valid(c) && c.choices == [v] && GetSelection(c) == v
  {
    Chooser(0, [v])
  }

  /** `Chooser(initialValue, choices)`: the first index holding the value;
      `out_of_range` when it is not a choice. */
  function NewChooser<T(==)>(v: T, choices: seq<T>): (r: Result<Chooser<T>>)
    ensures r.Err? <==> v !in choices
    ensures r.Err? ==> r.error == OutOfRange
    ensures r.Ok? ==>
      && Valid(r.value) && r.value.choices == choices
      && r.value.selectedIndex == FindIndex(choices, v) && GetSelection(r.value) == v
  {
    var index :- RequireIndex(choices, v);
    Ok(Chooser(index, choices))
  }

  /** `Chooser(choices)`: the first choice; `invalid_argument` when there
      are none. */
  function NewChooserFromChoices<T>(choices: seq<T>): (r: Result<Chooser<T>>)
    ensures r.Err? <==> |choices| == 0
    ensures r.Err? ==> r.error == InvalidArgument
    ensures r.Ok? ==> Valid(r.value) && r.value.selectedIndex == 0 && r.value.choices == choices
  {
    if |choices| == 0 then Err(InvalidArgument) else Ok(Chooser(0, choices))
  }

  /** `GetSelection`: the selected choice. The index is not checked, so it
      must name a choice. */
  function GetSelection<T>(c: Chooser<T>): (v: T)
    requires Valid(c)
    ensures v in c.choices && v == c.choices[c.selectedIndex]
  {
    c.choices[c.selectedIndex]
  }

  /** `SetSelectedIndex(index)`: `out_of_range` past the end; otherwise
      stored and notified. */
  function SetSelectedIndex<T>(c: Chooser<T>, index: nat): (r: Result<(Chooser<T>, seq<ChooserEvent<T>>)>)
    ensures r.Err? <==> index >= |c.choices|
    ensures r.Err? ==> r.error == OutOfRange
    ensures r.Ok? ==>
      && Valid(r.value.0) && r.value.0.choices == c.choices
      && GetSelection(r.value.0) == c.choices[index]
      && r.value.1 == [IndexChanged(index)]
  {
    if index >= |c.choices| then Err(OutOfRange)
    else Ok((c.(selectedIndex := index), [IndexChanged(index)]))
  }

  /** `SetChoices(choices)` as written: the list is replaced, an index past
      its end returns to 0 and is notified, and nothing else is. */
  function SetChoices<T>(c: Chooser<T>, choices: seq<T>): (r: (Chooser<T>, seq<ChooserEvent<T>>))
    ensures r.0.choices == choices
    ensures r.0.selectedIndex == (if c.selectedIndex < |choices| then c.selectedIndex else 0)
    ensures r.1 == (if c.selectedIndex < |choices| then [] else [IndexChanged(0)])
    ensures |choices| > 0 ==> Valid(r.0)
  {
    var changed := c.(choices := choices);
    if c.selectedIndex >= |choices| then (changed.(selectedIndex := 0), [IndexChanged(0)])
    else (changed, [])
  }

  /** `SetChoices` with the publication the `Reference` promises: the same
      change, then the new list announced once, last. */
  function SetChoicesPublished<T>(c: Chooser<T>, choices: seq<T>): (r: (Chooser<T>, seq<ChooserEvent<T>>))
    ensures r.0 == SetChoices(c, choices).0
    ensures |r.1| > 0 && r.1[|r.1| - 1] == ChoicesChanged(choices)
    ensures forall i :: 0 <= i < |r.1| - 1 ==> r.1[i].IndexChanged?
  {
    var (c', events) := SetChoices(c, choices);
    (c', events + [ChoicesChanged(choices)])
  }

  /** The discrepancy: with the code as written, no change of choices is
      ever announced, whatever the lists involved. */
  lemma SetChoicesNeverPublishes<T>(c: Chooser<T>, choices: seq<T>)
    ensures forall i :: 0 <= i < |SetChoices(c, choices).1| ==> !SetChoices(c, choices).1[i].ChoicesChanged?
    ensures SetChoicesPublished(c, choices).1 != SetChoices(c, choices).1
  {
  }

  /** The selection and the index determine each other: selecting an
      index reads back its choice, and choosing by the current selection
      keeps it (at the first index holding that value). */
  lemma SelectionFollowsIndex<T>(c: Chooser<T>, index: nat)
    requires Valid(c)
    ensures index < |c.choices| ==>
      SetSelectedIndex(c, index).Ok? && GetSelection(SetSelectedIndex(c, index).value.0) == c.choices[index]
    ensures NewChooser(GetSelection(c), c.choices).Ok?
    ensures GetSelection(NewChooser(GetSelection(c), c.choices).value) == GetSelection(c)
    ensures NewChooser(GetSelection(c), c.choices).value.selectedIndex <= c.selectedIndex
  {
    assert c.choices[c.selectedIndex] == GetSelection(c);
  }

  /** After a change of choices the selection reads the choice at the kept
      index, or the first choice. */
  lemma SetChoicesKeepsSelection<T>(c: Chooser<T>, choices: seq<T>)
    requires |choices| > 0
    ensures var c' := SetChoicesPublished(c, choices).0;
      Valid(c') && GetSelection(c') == choices[if c.selectedIndex < |choices| then c.selectedIndex else 0]
  {
  }
}
