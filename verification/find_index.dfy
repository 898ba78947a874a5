/** `FindIndex` and `RequireIndex`: the position of the first element equal
    to a value in a random-access container. The same rule is Python's
    `list.index`, which the Python nodes use.
 */
module Find {
  import opened Wrappers

  /** The index of the first element equal to `v`, or -1. */
  function FindIndex<T(==)>(s: seq<T>, v: T): (k: int)
    ensures -1 <= k < |s|
    ensures k >= 0 ==> s[k] == v
    ensures forall j :: 0 <= j < |s| && (k < 0 || j < k) ==> s[j] != v
    ensures k < 0 <==> v !in s
  {
    if |s| == 0 then -1
    else if s[0] == v then 0
    else
      var k := FindIndex(s[1..], v);
      if k < 0 then -1 else k + 1
  }

  /** `RequireIndex`: the same index, or `out_of_range` when absent. */
  function RequireIndex<T(==)>(s: seq<T>, v: T): (r: Result<nat>)
    ensures r.Err? <==> v !in s
    ensures r.Err? ==> r.error == OutOfRange
    ensures r.Ok? ==> r.value == FindIndex(s, v) && r.value < |s| && s[r.value] == v
  {
    var k := FindIndex(s, v);
    if k < 0 then Err(OutOfRange) else Ok(k)
  }

  /** The index is the unique first occurrence: any index holding `v` with
      no earlier occurrence is the one found. */
  lemma FindIndexUnique<T>(s: seq<T>, v: T, i: nat)
    requires i < |s| && s[i] == v
    requires forall j :: 0 <= j < i ==> s[j] != v
    ensures FindIndex(s, v) == i
  {
  }

  /** Appending an element does not move an existing first occurrence, and
      finds the new element at the old length when it was absent. */
  lemma FindIndexAppend<T>(s: seq<T>, w: T, v: T)
    ensures FindIndex(s + [w], v) ==
      (if v in s then FindIndex(s, v) else if w == v then |s| else -1)
  {
    var t := s + [w];
    if v in s {
      FindIndexUnique(t, v, FindIndex(s, v));
    } else if w == v {
      FindIndexUnique(t, v, |s|);
    }
  }
}
