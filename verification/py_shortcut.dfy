/** wx keyboard shortcuts on the Python side: a key code with its display
    name, the modifier description, the menu label and the accelerator
    table entry of a shortcut.

  The wx constants are wxWidgets' values: `ACCEL_ALT` 1, `ACCEL_CMD` 2
  (the control key, command on macOS), `ACCEL_SHIFT` 4, and the `WXK_`
  codes of the special keys listed in `SpecialKeyName`.
 */
module PyShortcut {
  import opened Wrappers
  import opened Texts

  const AccelNormal: int := 0
  const AccelAlt: int := 1
  const AccelCmd: int := 2
  const AccelShift: int := 4

  /** `keyStringByWxDefine`. */
  function SpecialKeyName(code: int): Option<string> {
    if code == 127 then Some("DELETE")
    else if code == 8 then Some("BACK")
    else if code == 322 then Some("INSERT")
    else if code == 13 then Some("RETURN")
    else if code == 366 then Some("PGUP")
    else if code == 367 then Some("PGDN")
    else if code == 314 then Some("LEFT")
    else if code == 316 then Some("RIGHT")
    else if code == 315 then Some("UP")
    else if code == 317 then Some("DOWN")
    else if code == 313 then Some("HOME")
    else if code == 312 then Some("END")
    else if code == 32 then Some("SPACE")
    else if code == 9 then Some("TAB")
    else if code == 27 then Some("ESCAPE")
    else None
  }

  // ---------------------------------------------------------------------
  // Key

  /** What `Key(character)` is given: an int or a str. */
  datatype KeyArg = IntArg(code: int) | StrArg(text: string)

  datatype Key = Key(asciiCode: int)

  /** `Key(character)`: the int itself, or `ord` of a one-character
      string; `ord` of any other string raises TypeError. */
  function NewKey(arg: KeyArg): (r: Result<Key>)
    ensures r.Err? <==> arg.StrArg? && |arg.text| != 1
    ensures r.Err? ==> r.error == TypeError
    ensures r.Ok? && arg.IntArg? ==> KeyCode(r.value) == arg.code
    ensures r.Ok? && arg.StrArg? ==> KeyCode(r.value) == arg.text[0] as int
  {
    match arg
    case IntArg(code) => Ok(Key(code))
    case StrArg(text) => if |text| == 1 then Ok(Key(text[0] as int)) else Err(TypeError)
  }

  /** `int(key)`. */
  function KeyCode(k: Key): int { k.asciiCode }

  /** A code `chr` maps to a character Dafny can hold. */
  predicate IsScalar(code: int) {
    0 <= code < 0xD800 || 0xE000 <= code < 0x11_0000
  }

  /** `repr(key)`: the special key's name, else `chr(code)`, which raises
      ValueError outside the code point range. */
  function KeyRepr(k: Key): (r: Result<string>)
    ensures SpecialKeyName(k.asciiCode).Some? ==> r == Ok(SpecialKeyName(k.asciiCode).value)
    ensures SpecialKeyName(k.asciiCode).None? && IsScalar(k.asciiCode) ==>
      r.Ok? && |r.value| == 1 && r.value[0] as int == k.asciiCode
    ensures r.Err? ==> r.error == ValueError
    ensures r.Err? <==> SpecialKeyName(k.asciiCode).None? && !IsScalar(k.asciiCode)
  {
    match SpecialKeyName(k.asciiCode)
    case Some(name) => Ok(name)
    case None => if IsScalar(k.asciiCode) then Ok([k.asciiCode as char]) else Err(ValueError)
  }

  /** A character key shows as itself and its code is its code point;
      a special key shows its name whichever way it was given. */
  lemma KeyRoundTrip(c: char)
    ensures NewKey(StrArg([c])).Ok? && KeyCode(NewKey(StrArg([c])).value) == c as int
    ensures NewKey(StrArg([c])) == NewKey(IntArg(c as int))
    ensures SpecialKeyName(c as int).None? ==> KeyRepr(NewKey(StrArg([c])).value) == Ok([c])
    ensures SpecialKeyName(c as int).Some? ==>
      KeyRepr(NewKey(StrArg([c])).value) == Ok(SpecialKeyName(c as int).value)
  {
  }

  // ---------------------------------------------------------------------
  // Modifiers

  function Pow2(k: nat): (p: nat)
    ensures p >= 1
  {
    if k == 0 then 1 else 2 * Pow2(k - 1)
  }

  /** Bit `k` of `n` in Python's two's-complement view of ints: Dafny's
      division by a positive divisor rounds down, as `>>` does. */
  predicate HasBit(n: int, k: nat) { (n / Pow2(k)) % 2 == 1 }

  /** `modifierBitfield & modifier` for the single-bit accelerator flags. */
  predicate HasFlag(bits: int, flag: int)
    requires flag == AccelAlt || flag == AccelCmd || flag == AccelShift
  {
    HasBit(bits, if flag == AccelAlt then 0 else if flag == AccelCmd then 1 else 2)
  }

  /** The names, in the order CMD, SHIFT, ALT, of the flags that are set. */
  function ModifierNames(bits: int): (names: seq<string>)
    ensures names in AllModifierNames()
    ensures "CTRL" in names <==> HasFlag(bits, AccelCmd)
    ensures "SHIFT" in names <==> HasFlag(bits, AccelShift)
    ensures "ALT" in names <==> HasFlag(bits, AccelAlt)
  {
    var cmd, shift, alt := HasFlag(bits, AccelCmd), HasFlag(bits, AccelShift), HasFlag(bits, AccelAlt);
    var names := (if cmd then ["CTRL"] else []) + (if shift then ["SHIFT"] else []) + (if alt then ["ALT"] else []);
    assert names == AllModifierNames()[
      if !cmd && !shift && !alt then 0 else if cmd && !shift && !alt then 1
      else if !cmd && shift && !alt then 2 else if !cmd && !shift && alt then 3
      else if cmd && shift && !alt then 4 else if cmd && !shift && alt then 5
      else if !cmd && shift && alt then 6 else 7];
    names
  }

  /** `GetModifierString(modifierBitfield)`. */
  function GetModifierString(bits: int): string {
    Join(ModifierNames(bits), '+')
  }

  /** Only the three flag bits matter; the string is empty exactly when
      none is set, and different flag sets give different strings. */
  lemma ModifierStringDeterminesFlags(a: int, b: int)
    ensures GetModifierString(a) == "" <==>
      !HasFlag(a, AccelCmd) && !HasFlag(a, AccelShift) && !HasFlag(a, AccelAlt)
    ensures GetModifierString(a) == GetModifierString(b) <==>
      (HasFlag(a, AccelCmd) <==> HasFlag(b, AccelCmd))
      && (HasFlag(a, AccelShift) <==> HasFlag(b, AccelShift))
      && (HasFlag(a, AccelAlt) <==> HasFlag(b, AccelAlt))
  {
    var x, y := ModifierNames(a), ModifierNames(b);
    if GetModifierString(a) == GetModifierString(b) {
      ModifierNamesFromString(x);
      ModifierNamesFromString(y);
    }
  }

  /** Each combination of names joins to a different string. */
  lemma ModifierNamesFromString(names: seq<string>)
    requires names in AllModifierNames()
    ensures forall other :: other in AllModifierNames() && Join(other, '+') == Join(names, '+') ==> other == names
  {
  }

  function AllModifierNames(): seq<seq<string>> {
    [[], ["CTRL"], ["SHIFT"], ["ALT"], ["CTRL", "SHIFT"], ["CTRL", "ALT"], ["SHIFT", "ALT"],
     ["CTRL", "SHIFT", "ALT"]]
  }

  // ---------------------------------------------------------------------
  // Shortcuts

  /** `Shortcut`: the signal is left out; `ascii` is the key's text. */
  datatype Shortcut = Shortcut(modifier: int, ascii: string, description: string, longDescription: string)

  /** `ShortcutMethods`, with the control id wx hands out. */
  datatype ShortcutMethods = ShortcutMethods(
    id: int, modifier: int, key: Key, description: string, longDescription: string)

  /** `ShortcutMethods(shortcut)`, given the id of `NewControlId()`. */
  function NewShortcutMethods(s: Shortcut, id: int): (r: Result<ShortcutMethods>)
    ensures r.Err? <==> |s.ascii| != 1
    ensures r.Ok? ==>
      r.value.id == id && r.value.modifier == s.modifier && KeyCode(r.value.key) == s.ascii[0] as int
      && r.value.description == s.description && r.value.longDescription == s.longDescription
  {
    var key :- NewKey(StrArg(s.ascii));
    Ok(ShortcutMethods(id, s.modifier, key, s.description, s.longDescription))
  }

  /** `GetMenuItemLabel`: `desc\tMODS+KEY`, or `desc\tKEY` without
      modifiers. */
  function GetMenuItemLabel(m: ShortcutMethods): (r: Result<string>)
    ensures r.Err? <==> KeyRepr(m.key).Err?
  {
    var key :- KeyRepr(m.key);
    var modifier := GetModifierString(m.modifier);
    if |modifier| > 0 then Ok(m.description + "\t" + modifier + "+" + key)
    else Ok(m.description + "\t" + key)
  }

  /** A tab-free description is read back from the label, and the rest
      names the modifiers before the key exactly when there are any. */
  lemma LabelParts(m: ShortcutMethods)
    requires Lacks(m.description, '\t') && KeyRepr(m.key).Ok?
    ensures var (desc, accel) := SplitAt(GetMenuItemLabel(m).value, '\t');
      desc == m.description
      && accel == (if GetModifierString(m.modifier) == "" then KeyRepr(m.key).value
                   else GetModifierString(m.modifier) + "+" + KeyRepr(m.key).value)
  {
    var key := KeyRepr(m.key).value;
    var modifier := GetModifierString(m.modifier);
    if |modifier| > 0 {
      assert m.description + "\t" + modifier + "+" + key == m.description + "\t" + (modifier + "+" + key);
      SplitAtOf(m.description, '\t', modifier + "+" + key);
    } else {
      SplitAtOf(m.description, '\t', key);
    }
  }

  /** `GetAcceleratorTableEntry`: modifier, key code and id. */
  function GetAcceleratorTableEntry(m: ShortcutMethods): (entry: (int, int, int))
    ensures entry.0 == m.modifier && entry.2 == m.id
    ensures entry.1 == KeyCode(m.key)
  {
    (m.modifier, KeyCode(m.key), m.id)
  }

  /** The accelerator entry of a shortcut carries its modifier and the
      code point of its key character. */
  lemma AcceleratorFromShortcut(s: Shortcut, id: int)
    requires |s.ascii| == 1
    ensures NewShortcutMethods(s, id).Ok?
    ensures GetAcceleratorTableEntry(NewShortcutMethods(s, id).value) == (s.modifier, s.ascii[0] as int, id)
  {
  }
}
