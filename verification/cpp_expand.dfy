/** The C++ `Expand` of `expand.h`: one control per member of an aggregate
    model value, each reading and writing only its own member.

  An aggregate is the sequence of its members' values in declaration
  order; a pointer to member is the member's position.
 */
module Expands {

  /** `ExpandFilter(control, member)`. */
  datatype ExpandFilter = ExpandFilter(member: nat)

  /** `ExpandFilter::Get`: the selected member of the aggregate. */
  function ExpandGet<V>(f: ExpandFilter, aggregate: seq<V>): (v: V)
    requires f.member < |aggregate|
    ensures v == aggregate[f.member]
  {
    aggregate[f.member]
  }

  /** `ExpandFilter::Set`: the control's current aggregate with only the
      selected member replaced. */
  function ExpandSet<V>(f: ExpandFilter, current: seq<V>, v: V): (aggregate: seq<V>)
    requires f.member < |current|
    ensures |aggregate| == |current|
    ensures ExpandGet(f, aggregate) == v
    ensures forall i :: 0 <= i < |current| && i != f.member ==> aggregate[i] == current[i]
  {
    current[f.member := v]
  }

  /** A member's value written back is no change. */
  lemma ExpandSetOfGet<V>(f: ExpandFilter, current: seq<V>)
    requires f.member < |current|
    ensures ExpandSet(f, current, ExpandGet(f, current)) == current
  {
  }

  /** `InitializeExpanded`: the expanded fields and the source's fields
      are paired in declaration order, so expanded field `k` gets a filter
      on member `k`. The two field lists have the same length, or the
      pairing does not compile. */
  function InitializeExpanded(fieldCount: nat): (filters: seq<ExpandFilter>)
    ensures |filters| == fieldCount
    ensures forall k :: 0 <= k < fieldCount ==> filters[k].member == k
  {
    seq(fieldCount, (k: nat) => ExpandFilter(k))
  }

  /** Writing `values[k]` through expanded field `k`, for the first `n`
      fields in turn. */
  function SetFields<V>(current: seq<V>, values: seq<V>, n: nat): (aggregate: seq<V>)
    requires |values| == |current| && n <= |current|
    ensures |aggregate| == |current|
    decreases n
  {
    if n == 0 then current
    else ExpandSet(InitializeExpanded(|current|)[n - 1], SetFields(current, values, n - 1), values[n - 1])
  }

  /** After the first `n` fields are written, those members hold the
      written values and the rest are untouched. */
  lemma {:induction false} SetFieldsChangesThoseFields<V>(current: seq<V>, values: seq<V>, n: nat)
    requires |values| == |current| && n <= |current|
    ensures forall i :: 0 <= i < n ==> SetFields(current, values, n)[i] == values[i]
    ensures forall i :: n <= i < |current| ==> SetFields(current, values, n)[i] == current[i]
    decreases n
  {
    if n > 0 {
      SetFieldsChangesThoseFields(current, values, n - 1);
    }
  }

  /** Writing every expanded field gives the model exactly the written
      values. */
  lemma SetEveryFieldSetsModel<V>(current: seq<V>, values: seq<V>)
    requires |values| == |current|
    ensures SetFields(current, values, |current|) == values
  {
    SetFieldsChangesThoseFields(current, values, |current|);
  }
}
