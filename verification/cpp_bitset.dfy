/** The C++ bitset flags of `bitset.h` and `wx/bitset_check_boxes.h`: one
    boolean control per bit of a bitset model value.

  Both headers define the same `FlagFilter`; the one in `bitset.h` reads
  the current bitset through a control, the one in
  `wx/bitset_check_boxes.h` through a pointer to the model, and either
  way it is the model's value. A bitset of `bitCount` bits is a sequence
  of that many booleans, bit `i` at position `i`.
 */
module Bitsets {

  type Bitset = seq<bool>

  /** `FlagFilter(control, index)`: the bit it stands for. */
  datatype FlagFilter = FlagFilter(index: nat)

  /** `FlagFilter::Get`: bit `index` of the bitset. */
  function FlagGet(f: FlagFilter, bits: Bitset): (b: bool)
    requires f.index < |bits|
    ensures b <==> bits[f.index]
  {
    bits[f.index]
  }

  /** `FlagFilter::Set`: the model's current bitset with only bit `index`
      replaced. */
  function FlagSet(f: FlagFilter, current: Bitset, v: bool): (bits: Bitset)
    requires f.index < |current|
    ensures |bits| == |current|
    ensures FlagGet(f, bits) == v
    ensures forall i :: 0 <= i < |bits| && i != f.index ==> bits[i] == current[i]
  {
    current[f.index := v]
  }

  /** Writing the flag it reads back unchanged is no change, and a second
      write to the same flag overrides the first. */
  lemma FlagSetRoundTrip(f: FlagFilter, current: Bitset, v: bool, w: bool)
    requires f.index < |current|
    ensures FlagSet(f, current, FlagGet(f, current)) == current
    ensures FlagSet(f, FlagSet(f, current, v), w) == FlagSet(f, current, w)
  {
  }

  /** Each flag's write reads the bitset as it is then, so writes through
      two different flags both stick, in either order. */
  lemma FlagWritesCompose(f: FlagFilter, g: FlagFilter, current: Bitset, v: bool, w: bool)
    requires f.index < |current| && g.index < |current| && f.index != g.index
    ensures var bits := FlagSet(g, FlagSet(f, current, v), w);
      FlagGet(f, bits) == v && FlagGet(g, bits) == w
      && bits == FlagSet(f, FlagSet(g, current, w), v)
  {
  }

  /** `BitsetFlagsControl(bitset)`: flag `i` is bound to bit `i`, for
      every bit. */
  function BitsetFlagsControl(bitCount: nat): (flags: seq<FlagFilter>)
    ensures |flags| == bitCount
    ensures forall i :: 0 <= i < bitCount ==> flags[i].index == i
  {
    seq(bitCount, (i: nat) => FlagFilter(i))
  }

  /** Setting flag `i` of the flags control writes bit `i` of the model
      and no other. */
  lemma FlagsControlWritesOwnBit(bits: Bitset, i: nat, v: bool)
    requires i < |bits|
    ensures var flags := BitsetFlagsControl(|bits|);
      var bits' := FlagSet(flags[i], bits, v);
      bits'[i] == v && forall j :: 0 <= j < |bits| && j != i ==> bits'[j] == bits[j]
  {
  }

  // ---------------------------------------------------------------------
  // FlagNames

  /** The decimal digits of `n`, as `%zu` prints them. */
  function Decimal(n: nat): (s: string)
    ensures |s| > 0
    ensures forall k :: 0 <= k < |s| ==> '0' <= s[k] <= '9'
    decreases n
  {
    if n < 10 then [Digit(n)] else Decimal(n / 10) + [Digit(n % 10)]
  }

  function Digit(d: nat): (c: char)
    requires d < 10
    ensures '0' <= c <= '9'
  {
    ('0' as int + d) as char
  }

  /** Reading decimal digits back into a number. */
  function ParseDecimal(s: string): nat
    requires forall k :: 0 <= k < |s| ==> '0' <= s[k] <= '9'
    decreases |s|
  {
    if |s| == 0 then 0
    else ParseDecimal(s[..|s| - 1]) * 10 + (s[|s| - 1] as int - '0' as int)
  }

  lemma {:induction false} DecimalRoundTrip(n: nat)
    ensures ParseDecimal(Decimal(n)) == n
    decreases n
  {
    if n >= 10 {
      var s := Decimal(n);
      assert s[..|s| - 1] == Decimal(n / 10);
      DecimalRoundTrip(n / 10);
    }
  }

  /** `FlagNames::MakeDefault`: flag `i` is named `"bit i"`. */
  function MakeDefaultNames(bitCount: nat): (names: seq<string>)
    ensures |names| == bitCount
    ensures forall i :: 0 <= i < bitCount ==> names[i] == "bit " + Decimal(i)
  {
    seq(bitCount, (i: nat) => "bit " + Decimal(i))
  }

  /** The default names tell the bits apart: the number after `"bit "`
      reads back as the bit's index. */
  lemma DefaultNamesDistinct(bitCount: nat, i: nat, j: nat)
    requires i < bitCount && j < bitCount
    ensures var names := MakeDefaultNames(bitCount);
      ParseDecimal(names[i][4..]) == i
      && (names[i] == names[j] <==> i == j)
  {
    var names := MakeDefaultNames(bitCount);
    assert names[i][4..] == Decimal(i);
    assert names[j][4..] == Decimal(j);
    DecimalRoundTrip(i);
    DecimalRoundTrip(j);
  }
}
