/** The C++ list nodes of `list.h`: a `model::List` owns a count and one
    model value per item, and a `control::List` holds one control per item
    of its upstream model list.

  An item is its value; `None` stands for an item pointer that is null.
  Item values start at the value type's default, 0. Setting an item is
  recorded as that item's notification, in index order.
 */
module Lists {
  import opened Wrappers

  /** `model::List`: the count model value and the items. */
  datatype ModelList = ModelList(count: nat, items: seq<Option<int>>)

  /** Every item pointer is set, as every constructor and resize leaves
      it. */
  predicate AllPresent(l: ModelList) {
    forall i :: 0 <= i < |l.items| ==> l.items[i].Some?
  }

  /** What the model list does that others can observe. */
  datatype ListEvent = CountWillChange | ItemSet(index: nat, value: int)

  /** `count` default items. */
  function DefaultItems(count: nat): (items: seq<Option<int>>)
    ensures |items| == count
    ensures forall i :: 0 <= i < count ==> items[i] == Some(0)
  {
    seq(count, i => Some(0))
  }

  /** The constructor: `initialCount` default items. */
  function NewModelList(initialCount: nat): (l: ModelList)
    ensures l.count == initialCount && |l.items| == initialCount && AllPresent(l)
    ensures ListGet(l) == Ok(seq(initialCount, i => 0))
  {
    var l := ModelList(initialCount, DefaultItems(initialCount));
    assert ListGet(l).value == seq(initialCount, i => 0);
    l
  }

  /** `operator[]`: `out_of_range` past the end, `logic_error` for a null
      item. */
  function ModelListAt(l: ModelList, index: nat): (r: Result<int>)
    ensures r.Err? <==> index >= |l.items| || l.items[index].None?
    ensures r.Err? ==> r.error == (if index >= |l.items| then OutOfRange else LogicError)
    ensures r.Ok? ==> Some(r.value) == l.items[index]
  {
    if index >= |l.items| then Err(OutOfRange)
    else if l.items[index].None? then Err(LogicError)
    else Ok(l.items[index].value)
  }

  /** `Get`: every item's value in order; `logic_error` on a null item. */
  function ListGet(l: ModelList): (r: Result<seq<int>>)
    ensures r.Err? <==> !AllPresent(l)
    ensures r.Err? ==> r.error == LogicError
    ensures r.Ok? ==>
      && |r.value| == |l.items|
      && forall i :: 0 <= i < |l.items| ==> ModelListAt(l, i) == Ok(r.value[i])
  {
    if !AllPresent(l) then Err(LogicError)
    else Ok(seq(|l.items|, i requires 0 <= i < |l.items| => l.items[i].value))
  }

  /** `Set`: `out_of_range` unless there is one value per item; otherwise
      item `i` is set to `values[i]`, in order. Items are dereferenced
      without a check, so they must all be present. */
  function ListSet(l: ModelList, values: seq<int>): (r: Result<(ModelList, seq<ListEvent>)>)
    requires AllPresent(l)
    ensures r.Err? <==> |values| != |l.items|
    ensures r.Err? ==> r.error == OutOfRange
    ensures r.Ok? ==> r.value.0.count == l.count && AllPresent(r.value.0) && ListGet(r.value.0) == Ok(values)
    ensures r.Ok? ==>
      && |r.value.1| == |values|
      && forall i :: 0 <= i < |values| ==> r.value.1[i] == ItemSet(i, values[i])
  {
    if |values| != |l.items| then Err(OutOfRange)
    else
      var l' := l.(items := seq(|values|, i requires 0 <= i < |values| => Some(values[i])));
      assert ListGet(l').value == values;
      Ok((l', seq(|values|, i requires 0 <= i < |values| => ItemSet(i, values[i]))))
  }

  /** `OnCount_`: announce the change, then truncate, or append default
      items, to the new count. */
  function ModelListOnCount(l: ModelList, count: nat): (r: (ModelList, seq<ListEvent>))
    ensures r.1 == [CountWillChange]
    ensures r.0.count == count && |r.0.items| == count
    ensures forall i :: 0 <= i < count ==>
      r.0.items[i] == (if i < |l.items| then l.items[i] else Some(0))
  {
    var items := if count < |l.items| then l.items[..count] else l.items + DefaultItems(count - |l.items|);
    (ModelList(count, items), [CountWillChange])
  }

  /** Growing and then shrinking back gives the original items. */
  lemma GrowThenShrink(l: ModelList, n: nat)
    requires l.count == |l.items|
    ensures ModelListOnCount(ModelListOnCount(l, |l.items| + n).0, |l.items|).0 == l
  {
    var grown := ModelListOnCount(l, |l.items| + n).0;
    var back := ModelListOnCount(grown, |l.items|).0;
    assert back.items == l.items;
  }

  /** Shrinking keeps the values of the items that remain, and a list that
      was readable stays readable. */
  lemma ShrinkKeepsPrefix(l: ModelList, count: nat)
    requires AllPresent(l) && count <= |l.items|
    ensures ListGet(ModelListOnCount(l, count).0).Ok?
    ensures ListGet(ModelListOnCount(l, count).0).value == ListGet(l).value[..count]
  {
  }

  // ---------------------------------------------------------------------
  // control::List

  /** `control::List`: whether it has an upstream, and one control per
      item, each named by the upstream index it was made from. */
  datatype ControlList = ControlList(bound: bool, items: seq<nat>)

  /** The default constructor: no upstream and no items. */
  function DefaultControlList(): (c: ControlList)
    ensures !c.bound && c.items == []
  {
    ControlList(false, [])
  }

  /** One control per upstream item, in order: the controls made from
      `upstream[0 .. count - 1]`. Each `upstream[index]` fails as
      `operator[]` does. */
  function ItemControls(l: ModelList, count: nat): (r: Result<seq<nat>>)
    ensures r.Err? <==> exists i :: 0 <= i < count && ModelListAt(l, i).Err?
    ensures r.Ok? ==> |r.value| == count && forall i :: 0 <= i < count ==> r.value[i] == i
    decreases count
  {
    if count == 0 then Ok([])
    else
      var front :- ItemControls(l, count - 1);
      var _ :- ModelListAt(l, count - 1);
      Ok(front + [count - 1])
  }

  /** The constructor from a model list: one control per item. */
  function NewControlList(l: ModelList): (r: Result<ControlList>)
    ensures r.Err? <==> exists i :: 0 <= i < l.count && ModelListAt(l, i).Err?
    ensures r.Ok? ==>
      && r.value.bound && |r.value.items| == l.count
      && forall i :: 0 <= i < l.count ==> r.value.items[i] == i
  {
    var items :- ItemControls(l, l.count);
    Ok(ControlList(true, items))
  }

  /** `operator[]`: `out_of_range` past the end. */
  function ControlListAt(c: ControlList, index: nat): (r: Result<nat>)
    ensures r.Err? <==> index >= |c.items|
    ensures r.Err? ==> r.error == OutOfRange
    ensures r.Ok? ==> r.value == c.items[index]
  {
    if index >= |c.items| then Err(OutOfRange) else Ok(c.items[index])
  }

  /** `OnCountWillChange_`: every item control goes. */
  function OnCountWillChange(c: ControlList): (c': ControlList)
    ensures c'.items == [] && c'.bound == c.bound
  {
    c.(items := [])
  }

  /** `OnCount_`: `logic_error` while item controls remain; otherwise one
      control per upstream item is made. */
  function ControlListOnCount(c: ControlList, l: ModelList, count: nat): (r: Result<ControlList>)
    ensures c.items != [] ==> r == Err(LogicError)
    ensures c.items == [] ==> r.Ok? == (forall i :: 0 <= i < count ==> ModelListAt(l, i).Ok?)
    ensures r.Ok? ==>
      && r.value.bound == c.bound && |r.value.items| == count
      && forall i :: 0 <= i < count ==> r.value.items[i] == i
  {
    if c.items != [] then Err(LogicError)
    else
      var items :- ItemControls(l, count);
      Ok(c.(items := items))
  }

  /** A count change on the model reaches a control list as
      count-will-change and then the new count: the control list ends with
      one control per model item, whether the list grew or shrank. A
      count that arrives before the controls were cleared is refused. */
  lemma CountChangeRebuildsControls(c: ControlList, l: ModelList, count: nat)
    requires AllPresent(l)
    ensures var l' := ModelListOnCount(l, count).0;
      var rebuilt := ControlListOnCount(OnCountWillChange(c), l', count);
      rebuilt.Ok? && |rebuilt.value.items| == |l'.items|
      && forall i :: 0 <= i < count ==> ControlListAt(rebuilt.value, i) == Ok(i)
    ensures c.items != [] ==> ControlListOnCount(c, ModelListOnCount(l, count).0, count).Err?
  {
    var l' := ModelListOnCount(l, count).0;
    forall i | 0 <= i < count ensures ModelListAt(l', i).Ok? {
      assert l'.items[i].Some?;
    }
  }
}
