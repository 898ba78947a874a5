/** The Python `Choices` group: a value node `<name>.value` and a choices
    node `<name>.choices`, with a converter that renders values as text.

  The default converter is Python's `str` on integers, written out here as
  decimal digits with a leading minus sign for negatives.
 */
module PyChoices {
  import opened Wrappers
  import opened PyProxy
  import PyTube

  // ---------------------------------------------------------------------
  // `str` on integers

  function Digit(d: nat): (c: char)
    requires d < 10
    ensures '0' <= c <= '9'
  {
    "0123456789"[d]
  }

  function DigitValue(c: char): (d: nat)
    requires '0' <= c <= '9'
    ensures d < 10 && Digit(d) == c
  {
    (c as int - '0' as int) as nat
  }

  predicate IsDigits(s: string) {
    forall i :: 0 <= i < |s| ==> '0' <= s[i] <= '9'
  }

  /** Decimal digits of `n`, most significant first, without leading zeros. */
  function NatToString(n: nat): (s: string)
    ensures |s| > 0 && IsDigits(s)
    ensures |s| > 1 ==> s[0] != '0'
    decreases n
  {
    if n < 10 then [Digit(n)] else NatToString(n / 10) + [Digit(n % 10)]
  }

  /** The value of a string of decimal digits. */
  function ParseDigits(s: string): nat
    requires IsDigits(s)
    decreases |s|
  {
    if |s| == 0 then 0 else ParseDigits(s[..|s| - 1]) * 10 + DigitValue(s[|s| - 1])
  }

  /** `DefaultToString`: `str(value)`. */
  function DefaultToString(v: Value): (s: string)
    ensures v < 0 <==> |s| > 0 && s[0] == '-'
  {
    if v < 0 then "-" + NatToString(-v) else NatToString(v)
  }

  /** Reading the digits back gives the number. */
  lemma {:induction false} NatToStringRoundTrip(n: nat)
    ensures ParseDigits(NatToString(n)) == n
    decreases n
  {
    if n >= 10 {
      var s := NatToString(n);
      NatToStringRoundTrip(n / 10);
      assert s[..|s| - 1] == NatToString(n / 10);
    }
  }

  /** `str` is injective on integers: the sign is the leading minus and
      the magnitude reads back from the digits. */
  lemma DefaultToStringInjective(a: Value, b: Value)
    requires DefaultToString(a) == DefaultToString(b)
    ensures a == b
  {
    NatToStringRoundTrip(if a < 0 then -a else a);
    NatToStringRoundTrip(if b < 0 then -b else b);
    if a < 0 {
      assert DefaultToString(a)[1..] == NatToString(-a);
      assert DefaultToString(b)[1..] == NatToString(-b);
    }
  }

  // ---------------------------------------------------------------------
  // The group

  /** The converter a group holds: the default, or a proxy to a callable. */
  datatype Converter =
    | DefaultConverter
    | CustomConverter(reference: Ref, convert: Value -> string)

  function Convert(c: Converter, v: Value): string {
    match c
    case DefaultConverter => DefaultToString(v)
    case CustomConverter(_, f) => f(v)
  }

  datatype ChoicesNode = ChoicesNode(
    valueName: string,
    choicesName: string,
    value: Value,
    choices: seq<Value>,
    valueToString: Converter)

  /** The names of the two nodes of group `name`. */
  function ValueNodeName(name: string): string { name + ".value" }
  function ChoicesNodeName(name: string): string { name + ".choices" }

  /** The two node names of a group differ, and different groups use
      different names, so groups never contend for each other's names. */
  lemma NodeNamesDistinct(a: string, b: string)
    ensures ValueNodeName(a) != ChoicesNodeName(b)
    ensures ValueNodeName(a) == ValueNodeName(b) ==> a == b
    ensures ChoicesNodeName(a) == ChoicesNodeName(b) ==> a == b
  {
    var v, c := ValueNodeName(a), ChoicesNodeName(b);
    assert v[|v| - 1] == 'e' && c[|c| - 1] == 's';
    if ValueNodeName(a) == ValueNodeName(b) {
      assert a == ValueNodeName(a)[..|a|];
    }
    if ChoicesNodeName(a) == ChoicesNodeName(b) {
      assert a == ChoicesNodeName(a)[..|a|];
    }
  }

  /** `Choices.CreateModelNode(name, initialValue, choices, valueToString)`:
      two model nodes; the choices default to `[initialValue]`. When either
      name is taken the constructor raises, and the node created first is
      dropped again, so the registry is as before. */
  function CreateModelNode(reg: PyTube.Registry, name: string, initialValue: Value,
                           choices: Option<seq<Value>>, valueToString: Converter)
    : (r: Result<(PyTube.Registry, ChoicesNode)>)
    ensures r.Err? <==> ValueNodeName(name) in reg.modelNodeNames || ChoicesNodeName(name) in reg.modelNodeNames
    ensures r.Err? ==> r.error == RuntimeError
    ensures r.Ok? ==>
      r.value.0.modelNodeNames == reg.modelNodeNames + {ValueNodeName(name), ChoicesNodeName(name)}
      && r.value.1.value == initialValue
      && r.value.1.choices == (if choices.Some? then choices.value else [initialValue])
  {
    NodeNamesDistinct(name, name);
    var (reg1, _) :- PyTube.Create(reg, ValueNodeName(name), PyTube.ModelNode);
    var (reg2, _) :- PyTube.Create(reg1, ChoicesNodeName(name), PyTube.ModelNode);
    var initialChoices := if choices.Some? then choices.value else [initialValue];
    Ok((reg2, ChoicesNode(ValueNodeName(name), ChoicesNodeName(name), initialValue, initialChoices, valueToString)))
  }

  /** `RestoreDefaultToString_`: the converter's referent died. */
  function ConverterFinalised(node: ChoicesNode, r: Ref): (node': ChoicesNode)
    ensures node'.valueToString.CustomConverter? ==> node'.valueToString.reference != r
    ensures node'.valueToString.DefaultConverter? ==>
      node.valueToString.DefaultConverter? || node.valueToString.reference == r
    ensures node' == node.(valueToString := node'.valueToString)
  {
    if node.valueToString.CustomConverter? && node.valueToString.reference == r
    then node.(valueToString := DefaultConverter)
    else node
  }

  /** `GetInterfaceNode`: the same names and the same converter. */
  function GetInterfaceNode(node: ChoicesNode): (i: ChoicesNode)
    ensures i.valueName == node.valueName && i.choicesName == node.choicesName
    ensures i.valueToString == node.valueToString
    ensures GetChoicesAsStrings(i) == GetChoicesAsStrings(node)
  {
    node
  }

  /** `GetValueAsString`. */
  function GetValueAsString(node: ChoicesNode): string {
    Convert(node.valueToString, node.value)
  }

  /** `GetChoicesAsStrings`: one string per choice, in order. */
  function GetChoicesAsStrings(node: ChoicesNode): (s: seq<string>)
    ensures |s| == |node.choices|
    ensures forall i :: 0 <= i < |s| ==> s[i] == Convert(node.valueToString, node.choices[i])
  {
    seq(|node.choices|, i requires 0 <= i < |node.choices| => Convert(node.valueToString, node.choices[i]))
  }

  /** `GetValueInChoices`. */
  function GetValueInChoices(node: ChoicesNode): bool {
    node.value in node.choices
  }

  /** The value's text is among the choices' texts whenever the value is a
      choice; with the default converter the converse holds too. */
  lemma ValueStringAmongChoiceStrings(node: ChoicesNode)
    ensures GetValueInChoices(node) ==> GetValueAsString(node) in GetChoicesAsStrings(node)
    ensures node.valueToString.DefaultConverter? ==>
      (GetValueAsString(node) in GetChoicesAsStrings(node) ==> GetValueInChoices(node))
  {
    var s := GetChoicesAsStrings(node);
    if GetValueInChoices(node) {
      var i :| 0 <= i < |node.choices| && node.choices[i] == node.value;
      assert s[i] == GetValueAsString(node);
    }
    if node.valueToString.DefaultConverter? && GetValueAsString(node) in s {
      var i :| 0 <= i < |s| && s[i] == GetValueAsString(node);
      DefaultToStringInjective(node.choices[i], node.value);
    }
  }

  /** A freshly created group without explicit choices has its value among
      its choices. */
  lemma CreatedValueInChoices(reg: PyTube.Registry, name: string, initialValue: Value, valueToString: Converter)
    requires CreateModelNode(reg, name, initialValue, None, valueToString).Ok?
    ensures GetValueInChoices(CreateModelNode(reg, name, initialValue, None, valueToString).value.1)
  {
  }
}
