/** Label trees and their XML form, as values (nxrmcmui/src/labelinfo.cpp). */
module LabelXml {
  import opened Wrappers
  import opened Text
  import opened Bits

  // ------------------------------------------------------------------ integer attributes

  function Digit(d: nat): char
    requires d < 10
  {
    ('0' as int + d) as char
  }

  predicate IsDigit(c: char) {
    '0' <= c <= '9'
  }

  function Digits(n: nat): (s: string)
    ensures |s| > 0
  {
    if n < 10 then [Digit(n)] else Digits(n / 10) + [Digit(n % 10)]
  }

  predicate AllDigits(s: string) {
    forall i :: 0 <= i < |s| ==> IsDigit(s[i])
  }

  function DigitsValue(s: string): nat
    requires AllDigits(s)
  {
    if |s| == 0 then 0
    else
      assert IsDigit(s[|s| - 1]);
      10 * DigitsValue(s[..|s| - 1]) + (s[|s| - 1] as int - '0' as int)
  }

  /** The int written in decimal. */
  function FromInt(n: int): string {
    if n < 0 then "-" + Digits(-n) else Digits(n)
  }

  /** The int a text stands for, if it is an optional sign and at least one digit. */
  function ToInt(s: string): Option<int> {
    var digits := Unsigned(s);
    if |digits| == 0 || !AllDigits(digits) then None
    else
      var value: int := DigitsValue(digits);
      Some(if s[0] == '-' then -value else value)
  }

  /** The text without a sign in front. */
  function Unsigned(s: string): string {
    if |s| > 0 && (s[0] == '-' || s[0] == '+') then s[1..] else s
  }

  lemma {:induction false} DigitsRead(n: nat)
    ensures AllDigits(Digits(n)) && DigitsValue(Digits(n)) == n
  {
    if n >= 10 {
      DigitsRead(n / 10);
      var s := Digits(n);
      assert s[..|s| - 1] == Digits(n / 10);
    } else {
      assert DigitsValue(Digits(n)[..0]) == 0;
    }
  }

  /** Reading back what was written gives the same int. */
  lemma IntRoundTrip(n: int)
    ensures ToInt(FromInt(n)) == Some(n)
  {
    DigitsRead(if n < 0 then -n else n);
    assert IsDigit(Digits(if n < 0 then -n else n)[0]);
    if n < 0 {
      assert FromInt(n)[1..] == Digits(-n);
    }
  }

  function Zeros(k: nat): (s: string)
    ensures |s| == k && forall i :: 0 <= i < k ==> s[i] == '0'
  {
    seq(k, _ => '0')
  }

  /** The text is an optional sign, any number of zeros and the digits of n. */
  predicate Numeral(s: string, sign: Option<char>, k: nat, n: nat) {
    if sign == None then s == Zeros(k) + Digits(n)
    else (sign.value == '+' || sign.value == '-') && |s| > 0 && s[0] == sign.value && s[1..] == Zeros(k) + Digits(n)
  }

  lemma {:induction false} ZerosRead(k: nat, n: nat)
    ensures var s := Zeros(k) + Digits(n);
      AllDigits(s) && DigitsValue(s) == n
    decreases n, k
  {
    var s := Zeros(k) + Digits(n);
    DigitsRead(n);
    if n >= 10 {
      ZerosRead(k, n / 10);
      assert s[..|s| - 1] == Zeros(k) + Digits(n / 10);
    } else if k > 0 {
      ZerosRead(k - 1, 0);
      assert s[..k] == Zeros(k - 1) + Digits(0);
    } else {
      assert s == Digits(n);
    }
  }

  lemma OneDigitMore(k: nat, m: nat, d: nat) returns (k': nat)
    requires d < 10
    ensures Zeros(k) + Digits(m) + [Digit(d)] == Zeros(k') + Digits(10 * m + d)
  {
    if m == 0 {
      k' := k + 1;
      assert Zeros(k) + Digits(0) == Zeros(k + 1);
    } else {
      k' := k;
      assert Digits(10 * m + d) == Digits(m) + [Digit(d)];
    }
  }

  /** Every text of digits is zeros and the digits of its value. */
  lemma {:induction false} DigitsAre(s: string) returns (k: nat)
    requires |s| > 0 && AllDigits(s)
    ensures s == Zeros(k) + Digits(DigitsValue(s))
    decreases |s|
  {
    var last := |s| - 1;
    var d := s[last] as int - '0' as int;
    assert IsDigit(s[last]) && s[last] == Digit(d);
    if last == 0 {
      k := 0;
      assert DigitsValue(s[..0]) == 0;
      assert s == [Digit(d)];
    } else {
      k := DigitsAre(s[..last]);
      var m := DigitsValue(s[..last]);
      assert s == s[..last] + [Digit(d)];
      k := OneDigitMore(k, m, d);
    }
  }

  ghost predicate IsNumeral(s: string) {
    exists sign: Option<char>, k: nat, n: nat :: Numeral(s, sign, k, n)
  }

  function Signed(sign: Option<char>, n: nat): int {
    if sign == Some('-') then -(n as int) else n
  }

  /** Digits read as they are, with or without a sign in front. */
  lemma SignedRead(s: string, digits: string)
    requires |digits| > 0 && AllDigits(digits)
    ensures s == digits ==> ToInt(s) == Some(DigitsValue(digits))
    ensures |s| > 0 && s[1..] == digits && s[0] == '+' ==> ToInt(s) == Some(DigitsValue(digits))
    ensures |s| > 0 && s[1..] == digits && s[0] == '-' ==> ToInt(s) == Some(-(DigitsValue(digits) as int))
  {
    assert IsDigit(digits[0]);
  }

  lemma NumeralRead(s: string, sign: Option<char>, k: nat, n: nat)
    requires Numeral(s, sign, k, n)
    ensures ToInt(s) == Some(Signed(sign, n))
  {
    ZerosRead(k, n);
    SignedRead(s, Zeros(k) + Digits(n));
  }
  lemma IntNumeral(s: string) returns (sign: Option<char>, k: nat, n: nat)
    requires ToInt(s).Some?
    ensures Numeral(s, sign, k, n)
  {
    var digits := Unsigned(s);
    k := DigitsAre(digits);
    n := DigitsValue(digits);
    sign := if s[0] == '-' || s[0] == '+' then Some(s[0]) else None;
  }

  /** A text is read as an int exactly if it is an optional sign and at least one digit, and then as the int they
      write, leading zeros or not. */
  lemma ToIntIff(s: string, v: int)
    ensures ToInt(s) == Some(v) <==>
      exists sign: Option<char>, k: nat, n: nat :: Numeral(s, sign, k, n) && v == Signed(sign, n)
  {
    if ToInt(s).Some? {
      var sign, k, n := IntNumeral(s);
      NumeralRead(s, sign, k, n);
    }
    if sign: Option<char>, k: nat, n: nat :| Numeral(s, sign, k, n) && v == Signed(sign, n) {
      NumeralRead(s, sign, k, n);
    }
  }

  // ------------------------------------------------------------------ elements and label trees

  /** An element, or any other kind of node. */
  datatype Node =
    | Element(name: string, attrs: map<string, string>, children: seq<Node>)
    | Other(text: string)

  datatype LabelTree = LabelTree(
    name: string, display: string, description: string, mandatory: bool, multi: bool, defaultValue: int,
    values: seq<ValueTree>)

  datatype ValueTree = ValueTree(value: string, sub: Option<LabelTree>)

  /** Every label in the tree has at least one value. */
  predicate WellFormed(t: LabelTree) {
    |t.values| > 0 && forall i :: 0 <= i < |t.values| ==> ValueFormed(t.values[i])
  }

  predicate ValueFormed(v: ValueTree) {
    v.sub.Some? ==> WellFormed(v.sub.value)
  }

  /** Every default selection names existing values, and no value of a multiple selection has sub-labels. */
  predicate DefaultsOk(t: LabelTree) {
    && ValuesDefaultsOk(t.values)
    && if t.multi then
         && |t.values| <= 31 && 0 <= t.defaultValue < Shift(|t.values|)
         && forall i :: 0 <= i < |t.values| ==> t.values[i].sub == None
       else 0 <= t.defaultValue < |t.values|
  }

  predicate ValuesDefaultsOk(values: seq<ValueTree>) {
    forall i :: 0 <= i < |values| ==> ValueDefaultsOk(values[i])
  }

  predicate ValueDefaultsOk(v: ValueTree) {
    v.sub.Some? ==> DefaultsOk(v.sub.value)
  }

  predicate Named(n: Node, name: string) {
    n.Element? && SameNoCase(n.name, name)
  }

  function ReadMandatory(attrs: map<string, string>): bool {
    !("mandatory" in attrs && SameNoCase(attrs["mandatory"], "false"))
  }

  function ReadMulti(attrs: map<string, string>): bool {
    "multi-select" in attrs && SameNoCase(attrs["multi-select"], "true")
  }

  function ReadDefault(attrs: map<string, string>): int {
    var n := if "default-value" in attrs then ToInt(attrs["default-value"]) else None;
    if n.Some? then n.value else 0
  }

  function ReadDescription(attrs: map<string, string>): string {
    if "description" in attrs then attrs["description"] else ""
  }

  /** A label is mandatory unless told false, a single selection unless told true, and its default is the first
      value unless a number is given. */
  lemma AttributesMeaning(attrs: map<string, string>)
    ensures "mandatory" in attrs ==> (ReadMandatory(attrs) <==> !SameNoCase(attrs["mandatory"], "false"))
    ensures "multi-select" in attrs ==> (ReadMulti(attrs) <==> SameNoCase(attrs["multi-select"], "true"))
    ensures "mandatory" !in attrs ==> ReadMandatory(attrs)
    ensures "multi-select" !in attrs ==> !ReadMulti(attrs)
    ensures forall sign: Option<char>, k: nat, n: nat ::
      "default-value" in attrs && Numeral(attrs["default-value"], sign, k, n) ==> ReadDefault(attrs) == Signed(sign, n)
    ensures "default-value" !in attrs || !IsNumeral(attrs["default-value"]) ==> ReadDefault(attrs) == 0
  {
    if "default-value" in attrs {
      var s := attrs["default-value"];
      forall sign: Option<char>, k: nat, n: nat | Numeral(s, sign, k, n)
        ensures ToInt(s) == Some(Signed(sign, n))
      {
        NumeralRead(s, sign, k, n);
      }
      if ToInt(s).Some? {
        var sign, k, n := IntNumeral(s);
      }
    }
  }

  // ------------------------------------------------------------------ loading

  /** CLabel::Load; None where it returns false. */
  function ParseLabel(n: Node): Option<LabelTree>
    requires n.Element?
    decreases n, 1, 0
  {
    if "name" !in n.attrs || "display-name" !in n.attrs then None
    else
      var values := ParseValues(n, 0);
      if |values| == 0 then None
      else Some(LabelTree(
        n.attrs["name"], n.attrs["display-name"], ReadDescription(n.attrs),
        ReadMandatory(n.attrs), ReadMulti(n.attrs), ReadDefault(n.attrs), values))
  }

  /** The values among the children from the i-th on. */
  function ParseValues(n: Node, i: nat): seq<ValueTree>
    requires n.Element? && i <= |n.children|
    decreases n, 0, |n.children| - i
  {
    if i == |n.children| then []
    else
      var v, rest := if Named(n.children[i], "VALUE") then ParseValue(n.children[i]) else None, ParseValues(n, i + 1);
      if v.Some? then [v.value] + rest else rest
  }

  /** CLabelValue::Load. */
  function ParseValue(n: Node): Option<ValueTree>
    requires n.Element?
    decreases n, 1, 0
  {
    if "value" !in n.attrs then None
    else
      var k := FindChild(n.children, "LABEL", 0);
      Some(ValueTree(n.attrs["value"], if k.Some? then ParseLabel(n.children[k.value]) else None))
  }

  /** XmlUtil::FindChildElement: the first child element of the name, ignoring case. */
  function FindChild(children: seq<Node>, name: string, i: nat): (r: Option<nat>)
    requires i <= |children|
    ensures r.Some? ==> i <= r.value < |children| && Named(children[r.value], name)
    decreases |children| - i
  {
    if i == |children| then None
    else if Named(children[i], name) then Some(i)
    else FindChild(children, name, i + 1)
  }

  /** The child found is the first element of the name, whatever nodes stand before it; none is found only if
      there is none. */
  lemma {:induction false} FindChildIsFirst(children: seq<Node>, name: string, i: nat)
    requires i <= |children|
    ensures var r := FindChild(children, name, i);
      forall j :: i <= j < |children| && Named(children[j], name) ==> r.Some? && r.value <= j
    decreases |children| - i
  {
    if i < |children| {
      FindChildIsFirst(children, name, i + 1);
    }
  }

  /** Child i is a value that loads. */
  predicate IsValue(n: Node, i: nat)
    requires n.Element?
  {
    i < |n.children| && Named(n.children[i], "VALUE") && "value" in n.children[i].attrs
  }

  predicate LoadsAs(n: Node, i: nat, v: ValueTree)
    requires n.Element?
  {
    IsValue(n, i) && ParseValue(n.children[i]) == Some(v)
  }

  /** Child k is the first LABEL element. */
  predicate FirstLabel(n: Node, k: nat)
    requires n.Element?
  {
    k < |n.children| && Named(n.children[k], "LABEL") && forall j :: 0 <= j < k ==> !Named(n.children[j], "LABEL")
  }

  /** Where the children that are values stand, from the i-th on. */
  function ValuesAt(n: Node, i: nat): (at: seq<nat>)
    requires n.Element? && i <= |n.children|
    decreases |n.children| - i
  {
    if i == |n.children| then []
    else if IsValue(n, i) then [i] + ValuesAt(n, i + 1)
    else ValuesAt(n, i + 1)
  }

  lemma {:induction false} ValuesAtListed(n: Node, i: nat)
    requires n.Element? && i <= |n.children|
    ensures Ascending(ValuesAt(n, i))
    ensures forall k: nat :: k in ValuesAt(n, i) <==> i <= k && IsValue(n, k)
    decreases |n.children| - i
  {
    if i < |n.children| {
      ValuesAtListed(n, i + 1);
      AscendingFrom(i, ValuesAt(n, i + 1));
    }
  }

  /** The values loaded are those of the VALUE elements with a value attribute, in document order; any other child
      is passed over. */
  lemma {:induction false} ParsedValues(n: Node, i: nat, k: nat)
    requires n.Element? && i <= |n.children|
    ensures |ParseValues(n, i)| == |ValuesAt(n, i)|
    ensures k < |ParseValues(n, i)| ==> LoadsAs(n, ValuesAt(n, i)[k], ParseValues(n, i)[k])
    decreases |n.children| - i
  {
    if i < |n.children| {
      ParsedValues(n, i + 1, if IsValue(n, i) && k > 0 then k - 1 else k);
    }
  }

  /** A label loads exactly if it has its two names and some child is a value that loads; a value loads exactly if
      it has the attribute, whatever becomes of its sub-label, which is that of its first LABEL element. */
  lemma LoadsIff(n: Node)
    requires n.Element?
    ensures ParseLabel(n).Some? <==>
      "name" in n.attrs && "display-name" in n.attrs && exists i: nat :: IsValue(n, i)
    ensures ParseValue(n).Some? <==> "value" in n.attrs
    ensures forall k: nat :: ParseValue(n).Some? && FirstLabel(n, k) ==>
      ParseValue(n).value.sub == ParseLabel(n.children[k])
    ensures ParseValue(n).Some? && (forall k: nat :: !FirstLabel(n, k)) ==> ParseValue(n).value.sub == None
  {
    var at := ValuesAt(n, 0);
    ValuesAtListed(n, 0);
    ParsedValues(n, 0, 0);
    assert forall i: nat :: IsValue(n, i) ==> i in at;
    assert |at| > 0 ==> at[0] in at;
    FindChildIsFirst(n.children, "LABEL", 0);
    var r := FindChild(n.children, "LABEL", 0);
    assert r.Some? ==> FirstLabel(n, r.value);
  }

  // ------------------------------------------------------------------ printing

  /** CLabel::ToXmlObject. */
  function PrintLabel(t: LabelTree): (n: Node)
    ensures n.Element? && n.name == "LABEL"
  {
    Element("LABEL", LabelAttributes(t), seq(|t.values|, i requires 0 <= i < |t.values| => PrintValue(t.values[i])))
  }

  function LabelAttributes(t: LabelTree): map<string, string> {
    map["default-value" := FromInt(t.defaultValue),
        "mandatory" := if t.mandatory then "true" else "false",
        "multi-select" := if t.multi then "true" else "false",
        "name" := t.name, "display-name" := t.display, "description" := t.description]
  }

  /** CLabelValue::ToXmlObject. */
  function PrintValue(v: ValueTree): (n: Node)
    ensures n.Element? && n.name == "VALUE"
  {
    Element("VALUE", map["value" := v.value], if v.sub.Some? then [PrintLabel(v.sub.value)] else [])
  }

  // ------------------------------------------------------------------ round trips

  lemma AttributesRoundTrip(t: LabelTree)
    ensures var a := LabelAttributes(t);
      && "name" in a && a["name"] == t.name && "display-name" in a && a["display-name"] == t.display
      && ReadDescription(a) == t.description && ReadMandatory(a) == t.mandatory && ReadMulti(a) == t.multi
      && ReadDefault(a) == t.defaultValue
  {
    IntRoundTrip(t.defaultValue);
    assert !SameNoCase("true", "false") && !SameNoCase("false", "true");
  }

  lemma {:induction false} ValueRoundTrip(v: ValueTree)
    requires ValueFormed(v)
    ensures ParseValue(PrintValue(v)) == Some(v)
    decreases v, 0
  {
    if v.sub.Some? {
      LabelRoundTrip(v.sub.value);
    }
  }

  lemma {:induction false} ValuesRoundTrip(t: LabelTree, i: nat)
    requires WellFormed(t) && i <= |t.values|
    ensures ParseValues(PrintLabel(t), i) == t.values[i..]
    decreases t, 0, |t.values| - i
  {
    if i < |t.values| {
      ValueRoundTrip(t.values[i]);
      ValuesRoundTrip(t, i + 1);
    }
  }

  /** Printing then loading a tree gives back the same tree. */
  lemma {:induction false} LabelRoundTrip(t: LabelTree)
    requires WellFormed(t)
    ensures ParseLabel(PrintLabel(t)) == Some(t)
    decreases t, 1
  {
    AttributesRoundTrip(t);
    ValuesRoundTrip(t, 0);
  }

  lemma {:induction false} ParsedWellFormed(n: Node)
    requires n.Element?
    ensures ParseLabel(n).Some? ==> WellFormed(ParseLabel(n).value)
    decreases n, 1, 0
  {
    if "name" in n.attrs && "display-name" in n.attrs {
      ParsedValuesFormed(n, 0);
    }
  }

  lemma {:induction false} ParsedValuesFormed(n: Node, i: nat)
    requires n.Element? && i <= |n.children|
    ensures forall k :: 0 <= k < |ParseValues(n, i)| ==> ValueFormed(ParseValues(n, i)[k])
    decreases n, 0, |n.children| - i
  {
    if i < |n.children| {
      ParsedValuesFormed(n, i + 1);
      var child := n.children[i];
      if Named(child, "VALUE") && "value" in child.attrs {
        var k := FindChild(child.children, "LABEL", 0);
        if k.Some? {
          ParsedWellFormed(child.children[k.value]);
        }
      }
    }
  }

  /** Printing then loading gives back the same tree exactly if every label in it has a value. */
  lemma RoundTripIff(t: LabelTree)
    ensures ParseLabel(PrintLabel(t)) == Some(t) <==> WellFormed(t)
  {
    ParsedWellFormed(PrintLabel(t));
    if WellFormed(t) {
      LabelRoundTrip(t);
    }
  }

  /** Whatever an element loads as, printing and loading it again changes nothing. */
  lemma LoadPrintLoad(n: Node)
    requires n.Element? && ParseLabel(n).Some?
    ensures ParseLabel(PrintLabel(ParseLabel(n).value)) == ParseLabel(n)
  {
    ParsedWellFormed(n);
    LabelRoundTrip(ParseLabel(n).value);
  }
}
