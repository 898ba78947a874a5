/** wx keyboard shortcuts on the C++ side (`wx/shortcut.h` and
    `wx/shortcut.cpp`): the display name of a key, the description of a
    modifier bitfield, the menu label of a shortcut, its accelerator entry
    and the accelerator table of several menus of shortcuts.

  The two files are two versions of `Key` and `GetModifierString`. The
  header keeps the key code as a `char` and keys its name table by `char`,
  and always lists `RAWCTRL` among the modifiers; `shortcut.cpp` keeps the
  code as an `int`, refuses unnamed codes above 127, and lists `RAWCTRL`
  on Apple builds only. Both are modelled; the header versions carry the
  prefix `Header`.

  The wx constants are wxWidgets' values: `wxACCEL_ALT` 1, `wxACCEL_CTRL`
  2, `wxACCEL_SHIFT` 4, and `wxACCEL_RAW_CTRL`, which is 8 on Apple builds
  and the same flag as `wxACCEL_CTRL` elsewhere; the `WXK_` codes are
  those of the special keys below. A `char` is signed and 8 bits wide.
 */
module Shortcuts {
  import opened Wrappers
  import opened Texts
  import opened Sequences
  import Connections
  import Signals

  const AccelNormal: int := 0
  const AccelAlt: int := 1
  const AccelCtrl: int := 2
  const AccelShift: int := 4

  /** Whether the build is for Apple, where `wxACCEL_RAW_CTRL` is a flag of
      its own. */
  datatype Platform = Apple | OtherPlatform

  function AccelRawCtrl(p: Platform): int {
    if p == Apple then 8 else AccelCtrl
  }

  const WxkBack: int := 8
  const WxkTab: int := 9
  const WxkReturn: int := 13
  const WxkEscape: int := 27
  const WxkSpace: int := 32
  const WxkDelete: int := 127
  const WxkEnd: int := 312
  const WxkHome: int := 313
  const WxkLeft: int := 314
  const WxkUp: int := 315
  const WxkRight: int := 316
  const WxkDown: int := 317
  const WxkInsert: int := 322
  const WxkPageUp: int := 366
  const WxkPageDown: int := 367

  /** Entry `i` is the first entry of `table` with that key. */
  predicate FirstWithKey(table: seq<(int, string)>, key: int, i: int) {
    0 <= i < |table| && table[i].0 == key && forall j :: 0 <= j < i ==> table[j].0 != key
  }

  /** A `std::map` built from an initializer list: a key maps to the value
      of its first entry, later entries with the same key being dropped. */
  function LookupFirst(table: seq<(int, string)>, key: int): (r: Option<string>)
    ensures r.None? <==> forall i :: 0 <= i < |table| ==> table[i].0 != key
    ensures r.Some? ==> exists i :: FirstWithKey(table, key, i) && table[i].1 == r.value
    decreases |table|
  {
    if |table| == 0 then None
    else if table[0].0 == key then
      assert FirstWithKey(table, key, 0);
      Some(table[0].1)
    else
      var r := LookupFirst(table[1..], key);
      if r.Some? then
        var i :| FirstWithKey(table[1..], key, i) && table[1..][i].1 == r.value;
        assert table[i + 1] == table[1..][i];
        assert FirstWithKey(table, key, i + 1) by {
          forall j | 0 <= j < i + 1 ensures table[j].0 != key {
            if j > 0 {
              assert table[j] == table[1..][j - 1];
            }
          }
        }
        r
      else
        assert forall i :: 0 <= i < |table| ==> table[i].0 != key by {
          forall i | 0 <= i < |table| ensures table[i].0 != key {
            if i > 0 {
              assert table[i] == table[1..][i - 1];
            }
          }
        }
        r
  }

  /** The lookup finds the value of the first entry with the key. */
  lemma LookupFirstAt(table: seq<(int, string)>, key: int, i: int)
    requires FirstWithKey(table, key, i)
    ensures LookupFirst(table, key) == Some(table[i].1)
  {
    var r := LookupFirst(table, key);
    assert r.Some?;
    var i' :| FirstWithKey(table, key, i') && table[i'].1 == r.value;
    assert i' == i;
  }

  /** `static_cast<char>(n)`: the signed 8-bit value congruent to `n`. */
  function ToChar(n: int): (c: int)
    ensures -128 <= c < 128
    ensures (n - c) % 256 == 0
    ensures -128 <= n < 128 ==> c == n
  {
    (n + 128) % 256 - 128
  }

  /** The byte `std::string(1, c)` holds, as a character. */
  function Byte(c: int): char {
    (c % 256) as char
  }

  // ---------------------------------------------------------------------
  // Key, as `shortcut.cpp` has it

  datatype Key = Key(code: int)

  /** `keyStringByKeyCode_` of `shortcut.cpp`, keyed by `int`. */
  function KeyName(code: int): Option<string> {
    if code == WxkDelete then Some("DELETE")
    else if code == WxkBack then Some("BACK")
    else if code == WxkInsert then Some("INSERT")
    else if code == WxkReturn then Some("RETURN")
    else if code == WxkPageUp then Some("PGUP")
    else if code == WxkPageDown then Some("PGDN")
    else if code == WxkLeft then Some("LEFT")
    else if code == WxkRight then Some("RIGHT")
    else if code == WxkUp then Some("UP")
    else if code == WxkDown then Some("DOWN")
    else if code == WxkHome then Some("HOME")
    else if code == WxkEnd then Some("END")
    else if code == WxkSpace then Some("SPACE")
    else if code == WxkTab then Some("TAB")
    else if code == WxkEscape then Some("ESCAPE")
    else None
  }

  /** `Key::GetString`: the special key's name; else `runtime_error` for a
      code above 127; else the one character of that code. */
  function GetString(k: Key): (r: Result<string>)
    ensures r.Err? <==> KeyName(k.code).None? && k.code > 127
    ensures r.Err? ==> r.error == RuntimeError
    ensures KeyName(k.code).Some? ==> r == Ok(KeyName(k.code).value)
    ensures r.Ok? && KeyName(k.code).None? ==> |r.value| == 1 && r.value[0] as int == k.code % 256
  {
    match KeyName(k.code)
    case Some(name) => Ok(name)
    case None => if k.code > 127 then Err(RuntimeError) else Ok([Byte(k.code)])
  }

  /** `Key::GetInt`: the code as given. */
  function GetInt(k: Key): int {
    k.code
  }

  /** A special name is longer than one character and has no `+`. */
  lemma KeyNameLong(code: int)
    requires KeyName(code).Some?
    ensures |KeyName(code).value| > 1 && Lacks(KeyName(code).value, '+')
  {
  }

  /** No two special codes share a name. */
  lemma KeyNameInjective(a: int, b: int)
    requires KeyName(a).Some? && KeyName(a) == KeyName(b)
    ensures a == b
  {
  }

  /** Two keys with the same display string are the same key: each code
      from -128 on has a string of its own, and the integer is the code
      itself. */
  lemma KeyStringsDistinct(a: Key, b: Key)
    requires a.code >= -128 && b.code >= -128
    requires GetString(a).Ok? && GetString(b).Ok?
    ensures GetString(a) == GetString(b) <==> a == b
    ensures GetInt(a) == GetInt(b) <==> a == b
  {
    if GetString(a) == GetString(b) {
      var na, nb := KeyName(a.code), KeyName(b.code);
      if na.Some? && nb.Some? {
        KeyNameInjective(a.code, b.code);
      } else if na.Some? {
        KeyNameLong(a.code);
      } else if nb.Some? {
        KeyNameLong(b.code);
      } else {
        assert a.code % 256 == b.code % 256;
      }
    }
  }

  // ---------------------------------------------------------------------
  // Key, as `shortcut.h` has it

  datatype HeaderKey = HeaderKey(asciiCode: int)

  /** `Key(keyCode)`: the code cut to a `char`. */
  function NewHeaderKey(keyCode: int): (k: HeaderKey)
    ensures -128 <= k.asciiCode < 128 && (keyCode - k.asciiCode) % 256 == 0
    ensures -128 <= keyCode < 128 ==> k.asciiCode == keyCode
  {
    HeaderKey(ToChar(keyCode))
  }

  /** The header's `keyStringByKeyCode_`: a `std::map<char, std::string>`,
      so each `WXK_` code is cut to a `char` on the way in. No two codes
      collide once cut. */
  function HeaderKeyName(c: int): Option<string> {
    if c == ToChar(WxkDelete) then Some("DELETE")
    else if c == ToChar(WxkBack) then Some("BACK")
    else if c == ToChar(WxkInsert) then Some("INSERT")
    else if c == ToChar(WxkReturn) then Some("RETURN")
    else if c == ToChar(WxkPageUp) then Some("PGUP")
    else if c == ToChar(WxkPageDown) then Some("PGDN")
    else if c == ToChar(WxkLeft) then Some("LEFT")
    else if c == ToChar(WxkRight) then Some("RIGHT")
    else if c == ToChar(WxkUp) then Some("UP")
    else if c == ToChar(WxkDown) then Some("DOWN")
    else if c == ToChar(WxkHome) then Some("HOME")
    else if c == ToChar(WxkEnd) then Some("END")
    else if c == ToChar(WxkSpace) then Some("SPACE")
    else if c == ToChar(WxkTab) then Some("TAB")
    else if c == ToChar(WxkEscape) then Some("ESCAPE")
    else None
  }

  /** The `WXK_` code a header name was entered under. */
  function HeaderCode(c: int): int {
    if c == ToChar(WxkDelete) then WxkDelete
    else if c == ToChar(WxkBack) then WxkBack
    else if c == ToChar(WxkInsert) then WxkInsert
    else if c == ToChar(WxkReturn) then WxkReturn
    else if c == ToChar(WxkPageUp) then WxkPageUp
    else if c == ToChar(WxkPageDown) then WxkPageDown
    else if c == ToChar(WxkLeft) then WxkLeft
    else if c == ToChar(WxkRight) then WxkRight
    else if c == ToChar(WxkUp) then WxkUp
    else if c == ToChar(WxkDown) then WxkDown
    else if c == ToChar(WxkHome) then WxkHome
    else if c == ToChar(WxkEnd) then WxkEnd
    else if c == ToChar(WxkSpace) then WxkSpace
    else if c == ToChar(WxkTab) then WxkTab
    else WxkEscape
  }

  /** Every special code keeps its name once cut to a `char`. */
  lemma HeaderKeyNameOfCode(code: int)
    requires KeyName(code).Some?
    ensures HeaderKeyName(ToChar(code)) == KeyName(code)
  {
  }

  /** Every name the header finds belongs to the special code that was cut
      to that `char`. */
  lemma HeaderKeyNameHasCode(c: int)
    requires HeaderKeyName(c).Some?
    ensures exists code :: KeyName(code) == HeaderKeyName(c) && ToChar(code) == c
  {
    var code := HeaderCode(c);
    assert KeyName(code) == HeaderKeyName(c) && ToChar(code) == c;
  }

  /** The header's `Key::GetString`: the special name looked up by the
      `char`, else the one character. */
  function HeaderGetString(k: HeaderKey): (s: string)
    ensures HeaderKeyName(k.asciiCode).Some? ==> s == HeaderKeyName(k.asciiCode).value
    ensures HeaderKeyName(k.asciiCode).None? ==> |s| == 1 && s[0] as int == k.asciiCode % 256
  {
    match HeaderKeyName(k.asciiCode)
    case Some(name) => name
    case None => [Byte(k.asciiCode)]
  }

  /** The header's `Key::GetInt`: the `char` as an `int`. */
  function HeaderGetInt(k: HeaderKey): int {
    k.asciiCode
  }

  /** The header's key loses the special codes above 127: `WXK_INSERT`
      (322) is stored as `'B'` (66), so the letter B is shown as `INSERT`
      and the accelerator for `WXK_INSERT` is made for B. The int-keyed
      version tells them apart. */
  lemma HeaderKeyConfusesInsert()
    ensures HeaderGetString(NewHeaderKey('B' as int)) == "INSERT"
    ensures HeaderGetString(NewHeaderKey(WxkInsert)) == HeaderGetString(NewHeaderKey('B' as int))
    ensures HeaderGetInt(NewHeaderKey(WxkInsert)) == 'B' as int
    ensures GetString(Key('B' as int)) == Ok("B") && GetString(Key(WxkInsert)) == Ok("INSERT")
    ensures GetInt(Key(WxkInsert)) == WxkInsert
  {
    assert ToChar(WxkInsert) == 66;
  }

  // ---------------------------------------------------------------------
  // Modifiers

  /** `modifierStringByWxAccel`, in the order of its initializer. */
  function ModifierTable(p: Platform): seq<(int, string)> {
    [(AccelNormal, ""), (AccelShift, "SHIFT"), (AccelCtrl, "CTRL"), (AccelAlt, "ALT"),
     (AccelRawCtrl(p), "RAWCTRL")]
  }

  predicate IsModifierFlag(flag: int, p: Platform)
    ensures IsModifierFlag(flag, p) ==> flag > 0
  {
    flag == AccelAlt || flag == AccelCtrl || flag == AccelShift || flag == AccelRawCtrl(p)
  }

  /** `modifierStringByWxAccel.at(flag)`. */
  function ModifierName(p: Platform, flag: int): (name: string)
    requires IsModifierFlag(flag, p)
    ensures Some(name) == LookupFirst(ModifierTable(p), flag)
  {
    var table := ModifierTable(p);
    var i := if flag == AccelShift then 1 else if flag == AccelCtrl then 2 else if flag == AccelAlt then 3 else 4;
    LookupFirstAt(table, flag, i);
    table[i].1
  }

  /** Each flag's name; `wxACCEL_RAW_CTRL` has its own only where it is a
      flag of its own. */
  lemma ModifierNamesOfFlags(p: Platform)
    ensures ModifierName(p, AccelCtrl) == "CTRL"
    ensures ModifierName(p, AccelShift) == "SHIFT"
    ensures ModifierName(p, AccelAlt) == "ALT"
    ensures ModifierName(p, AccelRawCtrl(p)) == if p == Apple then "RAWCTRL" else "CTRL"
  {
  }

  /** `modifierBitfield & flag` is non-zero, for a single-bit flag: Dafny's
      division by a positive divisor rounds down, as a shift does. */
  predicate HasFlag(bits: int, flag: int) {
    flag > 0 && (bits / flag) % 2 == 1
  }

  /** One step of the loop over the flags: the flag's name if it is set
      in `bits`. */
  function NameIfSet(bits: int, flag: int, p: Platform): (names: seq<string>)
    requires IsModifierFlag(flag, p)
    ensures |names| <= 1
  {
    if HasFlag(bits, flag) then [ModifierName(p, flag)] else []
  }

  /** The names `shortcut.cpp` lists, looking at CTRL, SHIFT, ALT, and on
      Apple builds RAWCTRL, in that order: each set flag once. */
  function ModifierNames(bits: int, p: Platform): (names: seq<string>)
    ensures "CTRL" in names <==> HasFlag(bits, AccelCtrl)
    ensures "SHIFT" in names <==> HasFlag(bits, AccelShift)
    ensures "ALT" in names <==> HasFlag(bits, AccelAlt)
    ensures "RAWCTRL" in names <==> p == Apple && HasFlag(bits, AccelRawCtrl(p))
    ensures Distinct(names)
    ensures forall i :: 0 <= i < |names| ==> names[i] != "" && Lacks(names[i], '+')
  {
    ModifierNamesOfFlags(p);
    var raw := p == Apple && HasFlag(bits, AccelRawCtrl(p));
    NamesCombo(HasFlag(bits, AccelCtrl), HasFlag(bits, AccelShift), HasFlag(bits, AccelAlt), raw);
    assert NameIfSet(bits, AccelCtrl, p) == Named(HasFlag(bits, AccelCtrl), "CTRL");
    assert NameIfSet(bits, AccelShift, p) == Named(HasFlag(bits, AccelShift), "SHIFT");
    assert NameIfSet(bits, AccelAlt, p) == Named(HasFlag(bits, AccelAlt), "ALT");
    assert (if p == Apple then NameIfSet(bits, AccelRawCtrl(p), p) else []) == Named(raw, "RAWCTRL");
    NameIfSet(bits, AccelCtrl, p) + NameIfSet(bits, AccelShift, p) + NameIfSet(bits, AccelAlt, p)
      + (if p == Apple then NameIfSet(bits, AccelRawCtrl(p), p) else [])
  }

  function Named(present: bool, name: string): seq<string> {
    if present then [name] else []
  }

  /** Whichever of the four names are present, in this order, each is
      there exactly when wanted, none twice, and none empty or with a
      `+`. */
  lemma NamesCombo(ctrl: bool, shift: bool, alt: bool, raw: bool)
    ensures var names := Named(ctrl, "CTRL") + Named(shift, "SHIFT") + Named(alt, "ALT") + Named(raw, "RAWCTRL");
      ("CTRL" in names <==> ctrl) && ("SHIFT" in names <==> shift) && ("ALT" in names <==> alt)
      && ("RAWCTRL" in names <==> raw) && Distinct(names)
      && forall i :: 0 <= i < |names| ==> names[i] != "" && Lacks(names[i], '+')
  {
  }

  /** The names the header lists, looking at CTRL, SHIFT, ALT and RAWCTRL
      in that order on every build. */
  function HeaderModifierNames(bits: int, p: Platform): (names: seq<string>)
    ensures p == Apple ==> names == ModifierNames(bits, p)
  {
    NameIfSet(bits, AccelCtrl, p) + NameIfSet(bits, AccelShift, p) + NameIfSet(bits, AccelAlt, p)
      + NameIfSet(bits, AccelRawCtrl(p), p)
  }

  /** `GetModifierString` of `shortcut.cpp`: the names joined with `+`. */
  function GetModifierString(bits: int, p: Platform): string {
    Join(ModifierNames(bits, p), '+')
  }

  /** The header's `GetModifierString`. */
  function HeaderGetModifierString(bits: int, p: Platform): string {
    Join(HeaderModifierNames(bits, p), '+')
  }

  /** The string names the set flags and nothing else: it reads back as
      the list of names, it is empty exactly when no flag is set, and two
      bitfields give the same string exactly when they agree on every flag
      the platform lists. */
  lemma ModifierStringDeterminesFlags(a: int, b: int, p: Platform)
    ensures Pieces(GetModifierString(a, p), '+') == ModifierNames(a, p)
    ensures GetModifierString(a, p) == "" <==>
      !HasFlag(a, AccelCtrl) && !HasFlag(a, AccelShift) && !HasFlag(a, AccelAlt)
      && !(p == Apple && HasFlag(a, AccelRawCtrl(p)))
    ensures GetModifierString(a, p) == GetModifierString(b, p) <==>
      (HasFlag(a, AccelCtrl) <==> HasFlag(b, AccelCtrl))
      && (HasFlag(a, AccelShift) <==> HasFlag(b, AccelShift))
      && (HasFlag(a, AccelAlt) <==> HasFlag(b, AccelAlt))
      && (p == Apple ==> (HasFlag(a, AccelRawCtrl(p)) <==> HasFlag(b, AccelRawCtrl(p))))
  {
    var x, y := ModifierNames(a, p), ModifierNames(b, p);
    PiecesOfJoin(x, '+');
    PiecesOfJoin(y, '+');
    JoinEmpty(x, '+');
    if |x| > 0 {
      assert x[0] in x;
    }
  }

  /** On other builds `wxACCEL_RAW_CTRL` is `wxACCEL_CTRL`, so the header,
      which looks at it after CTRL, names the control key twice; its
      table keeps `"CTRL"` for that flag, the first entry. On Apple builds
      the two versions agree. */
  lemma HeaderModifierRepeatsCtrl(bits: int)
    ensures HeaderGetModifierString(AccelCtrl, OtherPlatform) == "CTRL+CTRL"
    ensures GetModifierString(AccelCtrl, OtherPlatform) == "CTRL"
    ensures HeaderGetModifierString(bits, Apple) == GetModifierString(bits, Apple)
  {
    CtrlOnlyNames(OtherPlatform);
    assert HeaderModifierNames(AccelCtrl, OtherPlatform) == ["CTRL", "CTRL"];
    assert ModifierNames(AccelCtrl, OtherPlatform) == ["CTRL"];
  }

  /** With only the CTRL bit set, each step of the loop names CTRL alone. */
  lemma CtrlOnlyNames(p: Platform)
    ensures NameIfSet(AccelCtrl, AccelCtrl, p) == ["CTRL"]
    ensures NameIfSet(AccelCtrl, AccelShift, p) == [] && NameIfSet(AccelCtrl, AccelAlt, p) == []
  {
    assert AccelCtrl / AccelCtrl == 1 && AccelCtrl / AccelShift == 0 && AccelCtrl / AccelAlt == 2;
    ModifierNamesOfFlags(p);
  }

  // ---------------------------------------------------------------------
  // Shortcut

  /** A shortcut: the control id wx handed out, the modifier bitfield, the
      key code as given, and the two descriptions. The signal it triggers
      is passed to `OnEventMenu`. */
  datatype Shortcut = Shortcut(
    id: int, modifier: int, keyCode: int, description: string, longDescription: string)

  /** The label rule both versions share: `desc\tMODS+KEY`, or `desc\tKEY`
      when the modifier string is empty. */
  function MenuItemLabel(description: string, modifier: string, key: string): (text: string)
    ensures modifier == "" ==> text == description + "\t" + key
    ensures modifier != "" ==> text == description + "\t" + modifier + "+" + key
  {
    if modifier != "" then description + "\t" + modifier + "+" + key
    else description + "\t" + key
  }

  /** `Shortcut::GetMenuItemLabel_` of `shortcut.cpp`, which fails where
      the key's `GetString` does. */
  function GetMenuItemLabel(s: Shortcut, p: Platform): (r: Result<string>)
    ensures r.Err? <==> GetString(Key(s.keyCode)).Err?
    ensures r.Err? ==> r.error == RuntimeError
  {
    var key :- GetString(Key(s.keyCode));
    Ok(MenuItemLabel(s.description, GetModifierString(s.modifier, p), key))
  }

  /** The header's `Shortcut::GetMenuItemLabel_`. */
  function HeaderGetMenuItemLabel(s: Shortcut, p: Platform): (text: string)
    ensures text == MenuItemLabel(s.description, HeaderGetModifierString(s.modifier, p),
                                   HeaderGetString(NewHeaderKey(s.keyCode)))
  {
    MenuItemLabel(s.description, HeaderGetModifierString(s.modifier, p), HeaderGetString(NewHeaderKey(s.keyCode)))
  }

  lemma {:induction false} JoinAppend(names: seq<string>, x: string, sep: char)
    ensures Join(names + [x], sep) == if |names| == 0 then x else Join(names, sep) + [sep] + x
    decreases |names|
  {
    if |names| > 0 {
      assert (names + [x])[1..] == names[1..] + [x];
      JoinAppend(names[1..], x, sep);
    }
  }

  /** A label reads back: the text before the tab is the description, and
      the text after it splits at `+` into the modifier names followed by
      the key, provided neither the description holds a tab nor the key a
      `+`. */
  lemma LabelParts(s: Shortcut, p: Platform)
    requires Lacks(s.description, '\t')
    requires GetString(Key(s.keyCode)).Ok? && Lacks(GetString(Key(s.keyCode)).value, '+')
    ensures var (desc, accel) := SplitAt(GetMenuItemLabel(s, p).value, '\t');
      desc == s.description
      && Pieces(accel, '+') == ModifierNames(s.modifier, p) + [GetString(Key(s.keyCode)).value]
  {
    var key := GetString(Key(s.keyCode)).value;
    if KeyName(s.keyCode).Some? {
      KeyNameLong(s.keyCode);
    }
    LabelRoundTrip(s.description, ModifierNames(s.modifier, p), key);
  }

  /** The label rule read back, for any description, names and key. */
  lemma LabelRoundTrip(description: string, names: seq<string>, key: string)
    requires Lacks(description, '\t') && key != "" && Lacks(key, '+')
    requires forall i :: 0 <= i < |names| ==> names[i] != "" && Lacks(names[i], '+')
    ensures var (desc, accel) := SplitAt(MenuItemLabel(description, Join(names, '+'), key), '\t');
      desc == description && Pieces(accel, '+') == names + [key]
  {
    LabelSplitsAtTab(description, Join(names, '+'), key);
    AccelIsJoin(names, key);
    KeyAppendedNamed(names, key);
    PiecesOfJoin(names + [key], '+');
  }

  /** Appending a usable key name keeps every name usable. */
  lemma KeyAppendedNamed(names: seq<string>, key: string)
    requires key != "" && Lacks(key, '+')
    requires forall i :: 0 <= i < |names| ==> names[i] != "" && Lacks(names[i], '+')
    ensures forall i :: 0 <= i < |names + [key]| ==> (names + [key])[i] != "" && Lacks((names + [key])[i], '+')
  {
    forall i | 0 <= i < |names + [key]| ensures (names + [key])[i] != "" && Lacks((names + [key])[i], '+') {
      if i < |names| {
        assert (names + [key])[i] == names[i];
      }
    }
  }

  /** The tab separates the description from the rest of the label. */
  lemma LabelSplitsAtTab(description: string, modifier: string, key: string)
    requires Lacks(description, '\t')
    ensures SplitAt(MenuItemLabel(description, modifier, key), '\t')
      == (description, if modifier != "" then modifier + "+" + key else key)
  {
    var accel := if modifier != "" then modifier + "+" + key else key;
    assert MenuItemLabel(description, modifier, key) == description + "\t" + accel;
    SplitAtOf(description, '\t', accel);
  }

  /** The text after the tab is the names and the key, joined. */
  lemma AccelIsJoin(names: seq<string>, key: string)
    requires forall i :: 0 <= i < |names| ==> names[i] != ""
    ensures Join(names + [key], '+')
      == if Join(names, '+') != "" then Join(names, '+') + "+" + key else key
  {
    JoinAppend(names, key, '+');
    JoinEmpty(names, '+');
  }

  /** `Shortcut::OnEventMenu`: the shortcut's signal is triggered. */
  function OnEventMenu(signal: Signals.ModelSignal): (calls: seq<Signals.Signalled>)
    ensures |calls| == |signal.connections|
  {
    Signals.Trigger(signal)
  }

  /** One menu event reaches each observer once per connection it holds on
      the shortcut's signal. */
  lemma OnEventMenuTriggersOnce(signal: Signals.ModelSignal, o: Connections.Observer)
    ensures Signals.Received(OnEventMenu(signal), o) == Connections.Count(signal.connections, o)
  {
    Signals.TriggerReachesEach(signal.connections, o);
    assert Signals.ModelSignal(signal.connections) == signal;
  }

  // ---------------------------------------------------------------------
  // Accelerator table

  /** A `wxAcceleratorEntry`: flags, key code and command id. */
  datatype AcceleratorEntry = AcceleratorEntry(flags: int, keyCode: int, command: int)

  /** `Shortcut::GetAcceleratorEntry`. */
  function GetAcceleratorEntry(s: Shortcut): (e: AcceleratorEntry)
    ensures e.flags == s.modifier && e.command == s.id
    ensures e.keyCode == GetInt(Key(s.keyCode))
  {
    AcceleratorEntry(s.modifier, GetInt(Key(s.keyCode)), s.id)
  }

  /** One entry per shortcut, in order. */
  function EntriesOf(shortcuts: seq<Shortcut>): (entries: seq<AcceleratorEntry>)
    ensures |entries| == |shortcuts|
    ensures forall i :: 0 <= i < |shortcuts| ==> entries[i] == GetAcceleratorEntry(shortcuts[i])
  {
    seq(|shortcuts|, i requires 0 <= i < |shortcuts| => GetAcceleratorEntry(shortcuts[i]))
  }

  /** `AcceleratorShortcuts::CreateAcceleratorEntries`. */
  method CreateAcceleratorEntries(shortcuts: seq<Shortcut>) returns (entries: seq<AcceleratorEntry>)
    ensures |entries| == |shortcuts|
    ensures forall i :: 0 <= i < |shortcuts| ==> entries[i] == GetAcceleratorEntry(shortcuts[i])
  {
    entries := [];
    var k := 0;
    while k < |shortcuts|
      invariant 0 <= k <= |shortcuts|
      invariant |entries| == k
      invariant forall i :: 0 <= i < k ==> entries[i] == GetAcceleratorEntry(shortcuts[i])
    {
      entries := entries + [GetAcceleratorEntry(shortcuts[k])];
      k := k + 1;
    }
  }

  /** A menu of `ShortcutsByMenu`: its name and its shortcuts, menus in
      the order the map iterates them. */
  datatype Menu = Menu(name: string, shortcuts: seq<Shortcut>)

  /** The shortcuts of all menus, menu after menu. */
  function AllShortcuts(menus: seq<Menu>): seq<Shortcut>
    decreases |menus|
  {
    if |menus| == 0 then [] else AllShortcuts(menus[..|menus| - 1]) + menus[|menus| - 1].shortcuts
  }

  /** The number of shortcuts over all menus. */
  function ShortcutCount(menus: seq<Menu>): nat
    decreases |menus|
  {
    if |menus| == 0 then 0 else ShortcutCount(menus[..|menus| - 1]) + |menus[|menus| - 1].shortcuts|
  }

  function Ids(shortcuts: seq<Shortcut>): (ids: seq<int>)
    ensures |ids| == |shortcuts|
    ensures forall i :: 0 <= i < |shortcuts| ==> ids[i] == shortcuts[i].id
  {
    seq(|shortcuts|, i requires 0 <= i < |shortcuts| => shortcuts[i].id)
  }

  /** One more menu adds its shortcuts at the end. */
  lemma AllShortcutsStep(menus: seq<Menu>, k: nat)
    requires k < |menus|
    ensures AllShortcuts(menus[..k + 1]) == AllShortcuts(menus[..k]) + menus[k].shortcuts
    ensures ShortcutCount(menus[..k + 1]) == ShortcutCount(menus[..k]) + |menus[k].shortcuts|
  {
    assert menus[..k + 1][..k] == menus[..k];
  }

  lemma EntriesAppend(a: seq<Shortcut>, b: seq<Shortcut>)
    ensures EntriesOf(a + b) == EntriesOf(a) + EntriesOf(b)
    ensures Ids(a + b) == Ids(a) + Ids(b)
  {
  }

  /** The `AcceleratorShortcuts` constructor: each menu's entries are made
      and its shortcuts bound, then the entries are concatenated into the
      table. The table has one entry per shortcut of every menu, menu
      after menu, its size is the sum of the menus' shortcut counts (the
      constructor's `assert`), and every shortcut's id is bound, in the
      same order. */
  method NewAcceleratorShortcuts(menus: seq<Menu>) returns (table: seq<AcceleratorEntry>, bound: seq<int>)
    ensures |table| == ShortcutCount(menus)
    ensures table == EntriesOf(AllShortcuts(menus))
    ensures bound == Ids(AllShortcuts(menus))
  {
    var entries: seq<seq<AcceleratorEntry>> := [];
    var entryCount := 0;
    bound := [];
    var k := 0;
    while k < |menus|
      invariant 0 <= k <= |menus|
      invariant |entries| == k
      invariant forall j :: 0 <= j < k ==> entries[j] == EntriesOf(menus[j].shortcuts)
      invariant entryCount == ShortcutCount(menus[..k])
      invariant bound == Ids(AllShortcuts(menus[..k]))
    {
      var shortcutEntries := CreateAcceleratorEntries(menus[k].shortcuts);
      assert shortcutEntries == EntriesOf(menus[k].shortcuts);
      entryCount := entryCount + |shortcutEntries|;
      entries := entries + [shortcutEntries];
      AllShortcutsStep(menus, k);
      EntriesAppend(AllShortcuts(menus[..k]), menus[k].shortcuts);
      bound := bound + Ids(menus[k].shortcuts);
      k := k + 1;
    }
    table := [];
    k := 0;
    while k < |entries|
      invariant 0 <= k <= |entries|
      invariant table == EntriesOf(AllShortcuts(menus[..k]))
      invariant |table| == ShortcutCount(menus[..k])
    {
      AllShortcutsStep(menus, k);
      EntriesAppend(AllShortcuts(menus[..k]), menus[k].shortcuts);
      table := table + entries[k];
      k := k + 1;
    }
    assert menus[..|menus|] == menus;
    assert |table| == entryCount;
  }
}
