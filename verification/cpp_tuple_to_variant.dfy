/** The type-list computations of `tuple_to_variant.h`: `UniqueTuple`
    drops repeated types, `TupleToVariant` makes a variant over what is
    left, and `FieldsElements` lists the types of a structure's fields.

  A type is named by a string, a type list is a sequence of names, and a
  variant is its list of alternatives.
 */
module TupleToVariants {
  import opened Sequences

  type TypeName = string

  /** `UniqueTuple_<tuple<Ts...>, Us...>`: each `U` in turn is appended to
      `Ts` unless already there. */
  function UniqueTupleFrom(ts: seq<TypeName>, us: seq<TypeName>): (r: seq<TypeName>)
    ensures Distinct(ts) ==> Distinct(r)
    ensures forall x :: x in r <==> x in ts || x in us
    ensures |ts| <= |r| && r[..|ts|] == ts
    decreases |us|
  {
    if |us| == 0 then ts
    else if us[0] in ts then UniqueTupleFrom(ts, us[1..])
    else
      var r := UniqueTupleFrom(ts + [us[0]], us[1..]);
      assert (ts + [us[0]])[..|ts|] == ts;
      assert r[..|ts|] == r[..|ts| + 1][..|ts|];
      r
  }

  /** `UniqueTuple<Ts...>`. */
  function UniqueTuple(ts: seq<TypeName>): (r: seq<TypeName>)
    ensures Distinct(r)
    ensures forall x :: x in r <==> x in ts
    ensures |r| <= |ts|
  {
    UniqueTupleLength(ts);
    UniqueTupleFrom([], ts)
  }

  /** The reference: keep `ts[i]` exactly when it does not occur earlier. */
  function FirstOccurrences(ts: seq<TypeName>): seq<TypeName>
    decreases |ts|
  {
    if |ts| == 0 then []
    else
      var front := ts[..|ts| - 1];
      FirstOccurrences(front) + (if ts[|ts| - 1] in front then [] else [ts[|ts| - 1]])
  }

  lemma {:induction false} FirstOccurrencesMembers(ts: seq<TypeName>)
    ensures forall x :: x in FirstOccurrences(ts) <==> x in ts
    ensures |FirstOccurrences(ts)| <= |ts|
    decreases |ts|
  {
    if |ts| > 0 {
      var front := ts[..|ts| - 1];
      FirstOccurrencesMembers(front);
      assert ts == front + [ts[|ts| - 1]];
    }
  }

  /** The fold from the left agrees with the reference: continuing after a
      prefix is the reference on the whole list. */
  lemma {:induction false} UniqueTupleFromFirstOccurrences(p: seq<TypeName>, us: seq<TypeName>)
    ensures UniqueTupleFrom(FirstOccurrences(p), us) == FirstOccurrences(p + us)
    decreases |us|
  {
    if |us| == 0 {
      assert p + us == p;
    } else {
      var p' := p + [us[0]];
      assert p' + us[1..] == p + us;
      assert us == [us[0]] + us[1..];
      FirstOccurrencesStep(p, us[0], us[1..]);
      UniqueTupleFromFirstOccurrences(p', us[1..]);
    }
  }

  /** One more type on the reference list is one step of the fold. */
  lemma FirstOccurrencesStep(p: seq<TypeName>, u: TypeName, rest: seq<TypeName>)
    ensures FirstOccurrences(p + [u]) == FirstOccurrences(p) + (if u in p then [] else [u])
    ensures UniqueTupleFrom(FirstOccurrences(p), [u] + rest) == UniqueTupleFrom(FirstOccurrences(p + [u]), rest)
  {
    var p' := p + [u];
    assert p'[..|p'| - 1] == p;
    FirstOccurrencesMembers(p);
    assert u in FirstOccurrences(p) <==> u in p;
    assert ([u] + rest)[0] == u && ([u] + rest)[1..] == rest;
    if u in p {
      assert FirstOccurrences(p) + [] == FirstOccurrences(p);
    }
  }

  lemma UniqueTupleLength(ts: seq<TypeName>)
    ensures |UniqueTupleFrom([], ts)| <= |ts|
  {
    UniqueTupleFromFirstOccurrences([], ts);
    assert [] + ts == ts;
    FirstOccurrencesMembers(ts);
  }

  /** `UniqueTuple` keeps the first occurrence of each type, in input
      order. */
  lemma UniqueTupleKeepsFirsts(ts: seq<TypeName>)
    ensures UniqueTuple(ts) == FirstOccurrences(ts)
  {
    UniqueTupleFromFirstOccurrences([], ts);
    assert [] + ts == ts;
  }

  /** A list without repeats comes back unchanged. */
  lemma {:induction false} UniqueTupleOfDistinct(ts: seq<TypeName>)
    requires Distinct(ts)
    ensures UniqueTuple(ts) == ts
  {
    UniqueTupleKeepsFirsts(ts);
    FirstOccurrencesOfDistinct(ts);
  }

  lemma {:induction false} FirstOccurrencesOfDistinct(ts: seq<TypeName>)
    requires Distinct(ts)
    ensures FirstOccurrences(ts) == ts
    decreases |ts|
  {
    if |ts| > 0 {
      var front := ts[..|ts| - 1];
      assert Distinct(front) by {
        forall i, j | 0 <= i < j < |front| ensures front[i] != front[j] {
          assert front[i] == ts[i] && front[j] == ts[j];
        }
      }
      forall j | 0 <= j < |front| ensures front[j] != ts[|ts| - 1] {
        assert front[j] == ts[j];
      }
      FirstOccurrencesOfDistinct(front);
      assert ts == front + [ts[|ts| - 1]];
    }
  }

  /** `TupleToVariant<tuple<Ts...>>`: a variant over the deduplicated
      types. */
  function TupleToVariant(ts: seq<TypeName>): (alternatives: seq<TypeName>)
    ensures Distinct(alternatives) && forall x :: x in alternatives <==> x in ts
  {
    UniqueTuple(ts)
  }

  /** A field: its member's type. */
  datatype Field = Field(name: string, fieldType: TypeName)

  /** `FieldsElements<T>`: the types of the fields, in order. */
  function FieldsElements(fields: seq<Field>): (types: seq<TypeName>)
    ensures |types| == |fields|
    ensures forall i :: 0 <= i < |fields| ==> types[i] == fields[i].fieldType
  {
    seq(|fields|, i requires 0 <= i < |fields| => fields[i].fieldType)
  }

  /** `FieldsElementsVariant<T>`: one alternative per distinct field
      type. */
  function FieldsElementsVariant(fields: seq<Field>): (alternatives: seq<TypeName>)
    ensures Distinct(alternatives)
    ensures forall i :: 0 <= i < |fields| ==> fields[i].fieldType in alternatives
    ensures forall x :: x in alternatives ==> exists i :: 0 <= i < |fields| && fields[i].fieldType == x
  {
    var types := FieldsElements(fields);
    assert forall i :: 0 <= i < |fields| ==> types[i] == fields[i].fieldType;
    TupleToVariant(types)
  }
}
