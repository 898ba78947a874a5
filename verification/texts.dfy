/** Joining strings with a separator and splitting them again, as the
    shortcut labels are built and read. */
module Texts {

  /** `s` does not contain `c`. */
  predicate Lacks(s: string, c: char) {
    forall i :: 0 <= i < |s| ==> s[i] != c
  }

  /** The names joined with `sep` between neighbours. */
  function Join(names: seq<string>, sep: char): string
    decreases |names|
  {
    if |names| == 0 then ""
    else if |names| == 1 then names[0]
    else names[0] + [sep] + Join(names[1..], sep)
  }

  /** The text before the first `c` and the text after it. */
  function SplitAt(s: string, c: char): (r: (string, string))
    ensures Lacks(r.0, c)
    ensures (exists i :: 0 <= i < |s| && s[i] == c) ==> s == r.0 + [c] + r.1
    ensures (forall i :: 0 <= i < |s| ==> s[i] != c) ==> r == (s, "")
    decreases |s|
  {
    if |s| == 0 then ("", "")
    else if s[0] == c then ("", s[1..])
    else
      var rest := SplitAt(s[1..], c);
      if exists i :: 0 <= i < |s| && s[i] == c then
        assert exists i :: 0 <= i < |s[1..]| && s[1..][i] == c by {
          var i :| 0 <= i < |s| && s[i] == c;
          assert s[1..][i - 1] == c;
        }
        ([s[0]] + rest.0, rest.1)
      else
        assert forall i :: 0 <= i < |s[1..]| ==> s[1..][i] != c by {
          forall i | 0 <= i < |s[1..]| ensures s[1..][i] != c {
            assert s[1..][i] == s[i + 1];
          }
        }
        assert [s[0]] + s[1..] == s;
        ([s[0]] + rest.0, rest.1)
  }

  lemma {:induction false} SplitAtOf(a: string, c: char, b: string)
    requires Lacks(a, c)
    ensures SplitAt(a + [c] + b, c) == (a, b)
    decreases |a|
  {
    if |a| > 0 {
      assert (a + [c] + b)[1..] == a[1..] + [c] + b;
      SplitAtOf(a[1..], c, b);
      assert [a[0]] + a[1..] == a;
    }
  }

  /** Every piece of `s` between separators; an empty `s` has no pieces. */
  function Pieces(s: string, sep: char): seq<string>
    decreases |s|
  {
    if |s| == 0 then []
    else if Lacks(s, sep) then [s]
    else
      var (head, tail) := SplitAt(s, sep);
      assert |tail| < |s| by {
        assert s == head + [sep] + tail;
      }
      if tail == "" then [head] else [head] + Pieces(tail, sep)
  }

  /** Non-empty names without the separator are read back from their
      join. */
  lemma {:induction false} PiecesOfJoin(names: seq<string>, sep: char)
    requires forall i :: 0 <= i < |names| ==> names[i] != "" && Lacks(names[i], sep)
    ensures Pieces(Join(names, sep), sep) == names
    decreases |names|
  {
    if |names| == 1 {
    } else if |names| > 1 {
      var rest := Join(names[1..], sep);
      assert names[1..][0] == names[1];
      JoinNonEmpty(names[1..], sep);
      PiecesStep(names[0], sep, rest);
      PiecesOfJoin(names[1..], sep);
      assert names == [names[0]] + names[1..];
    }
  }

  /** A piece without the separator, the separator and a non-empty rest:
      the piece comes first, then the pieces of the rest. */
  lemma PiecesStep(head: string, sep: char, tail: string)
    requires Lacks(head, sep) && tail != ""
    ensures Pieces(head + [sep] + tail, sep) == [head] + Pieces(tail, sep)
  {
    var s := head + [sep] + tail;
    assert s[|head|] == sep;
    SplitAtOf(head, sep, tail);
  }

  lemma {:induction false} JoinNonEmpty(names: seq<string>, sep: char)
    requires |names| > 0 && names[0] != ""
    ensures Join(names, sep) != ""
  {
    if |names| > 1 {
      assert Join(names, sep)[0] == names[0][0];
    }
  }

  /** The join is empty exactly when there are no names, given that none
      is empty. */
  lemma JoinEmpty(names: seq<string>, sep: char)
    requires forall i :: 0 <= i < |names| ==> names[i] != ""
    ensures Join(names, sep) == "" <==> |names| == 0
  {
    if |names| > 0 {
      JoinNonEmpty(names, sep);
    }
  }
}
