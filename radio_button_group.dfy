/**
 * A labelled group of radio buttons: digit keys pick the k-th child while the
 * group is focused, only RadioButton children are rendered, and the group's
 * class flags follow its focus state and disabled prop.
 */
module RadioButtonGroup {
  import opened Wrappers

  /** A child element of the group: a radio button, or any other element. */
  datatype Child = RadioButton(value: string, labelText: string) | Element(tag: string)

  /** A rendered radio button, with the properties the group injects. */
  datatype RenderedOption = RenderedOption(
    name: string,
    value: string,
    labelText: string,
    checked: bool,
    disabled: bool)

  predicate IsDigit(c: char) {
    '0' <= c <= '9'
  }

  predicate IsSpace(c: char) {
    c == ' ' || c == '\t' || c == '\n' || c == '\r'
  }

  function DigitValue(c: char): nat
    requires IsDigit(c)
  {
    c as int - '0' as int
  }

  function TrimStart(s: string): string {
    if s != [] && IsSpace(s[0]) then TrimStart(s[1..]) else s
  }

  /** The length of the run of decimal digits that `s` starts with. */
  function LeadingDigits(s: string): (n: nat)
    ensures n <= |s|
    ensures forall k :: 0 <= k < n ==> IsDigit(s[k])
    ensures n < |s| ==> !IsDigit(s[n])
  {
    if s != [] && IsDigit(s[0]) then 1 + LeadingDigits(s[1..]) else 0
  }

  function DecimalValue(d: string): nat
    requires forall k :: 0 <= k < |d| ==> IsDigit(d[k])
  {
    if d == [] then 0 else DecimalValue(d[..|d| - 1]) * 10 + DigitValue(d[|d| - 1])
  }

  /**
   * Number.parseInt without a radix, for decimal text: leading white space
   * and one sign are skipped, then the longest run of digits is read. No
   * digits gives NaN, here None.
   */
  function ParseInt(key: string): (r: Option<int>)
    ensures key == [] ==> r == None
    ensures key != [] && (forall k :: 0 <= k < |key| ==> IsDigit(key[k])) ==> r == Some(DecimalValue(key))
  {
    var t := TrimStart(key);
    var negative := |t| > 0 && t[0] == '-';
    var body := if |t| > 0 && (t[0] == '-' || t[0] == '+') then t[1..] else t;
    var n := LeadingDigits(body);
    assert key != [] && (forall k :: 0 <= k < |key| ==> IsDigit(key[k])) ==> body == key && n == |key| && body[..n] == key;
    if n == 0 then None
    else
      var magnitude: int := DecimalValue(body[..n]);
      Some(if negative then -magnitude else magnitude)
  }

  /** A digit key reads as its digit. */
  lemma ParseIntOfDigitKey(c: char)
    requires IsDigit(c)
    ensures ParseInt([c]) == Some(DigitValue(c))
  {
    assert TrimStart([c]) == [c];
    assert [c][1..] == [];
    assert LeadingDigits([c]) == 1;
    assert [c][..1] == [c] && [c][..0] == [];
    assert DecimalValue([c]) == DecimalValue([]) * 10 + DigitValue(c);
  }

  /** A named key (ArrowUp, Enter, a letter, ...) is not a number. */
  lemma ParseIntOfNamedKey(key: string)
    requires key != [] && !IsDigit(key[0]) && !IsSpace(key[0]) && key[0] != '+' && key[0] != '-'
    ensures ParseInt(key) == None
  {
  }

  /**
   * The first child that is a RadioButton and sits at position `pressedKey`
   * (counting from 1), searching from `index` on.
   */
  function FindFrom(children: seq<Child>, pressedKey: int, index: nat): (r: Option<Child>)
    requires index <= |children|
    ensures r.Some? <==> index < pressedKey <= |children| && children[pressedKey - 1].RadioButton?
    ensures r.Some? ==> r.value == children[pressedKey - 1]
    decreases |children| - index
  {
    if index == |children| then None
    else if children[index].RadioButton? && index + 1 == pressedKey then Some(children[index])
    else FindFrom(children, pressedKey, index + 1)
  }

  /** The child a pressed digit key picks: the key-th child, when it is a RadioButton. */
  function Find(children: seq<Child>, pressedKey: int): (r: Option<Child>)
    ensures r.Some? <==> 1 <= pressedKey <= |children| && children[pressedKey - 1].RadioButton?
    ensures r.Some? ==> r.value == children[pressedKey - 1]
  {
    FindFrom(children, pressedKey, 0)
  }

  function OptionFor(id: string, child: Child, selectedValue: string, disabled: bool): RenderedOption
    requires child.RadioButton?
  {
    RenderedOption("options-" + id, child.value, child.labelText, selectedValue == child.value, disabled)
  }

  /**
   * The rendered children: each RadioButton child, in order, named after the
   * group, checked when it holds the selected value and disabled with the
   * group; every other child is dropped.
   */
  function RenderOptions(id: string, children: seq<Child>, selectedValue: string, disabled: bool): (r: seq<RenderedOption>)
    ensures |r| <= |children|
    ensures forall k :: 0 <= k < |r| ==>
      && r[k].name == "options-" + id
      && r[k].disabled == disabled
      && (r[k].checked <==> r[k].value == selectedValue)
    ensures forall k :: 0 <= k < |r| ==> RadioButton(r[k].value, r[k].labelText) in children
    ensures forall c :: c in children && c.RadioButton? ==> OptionFor(id, c, selectedValue, disabled) in r
  {
    if children == [] then []
    else
      var rest := RenderOptions(id, children[1..], selectedValue, disabled);
      assert children == [children[0]] + children[1..];
      if children[0].RadioButton? then [OptionFor(id, children[0], selectedValue, disabled)] + rest
      else rest
  }

  /**
   * When every child is a RadioButton (as in the form, Yes then No), the
   * k-th rendered option is the k-th child.
   */
  lemma {:induction false} RenderOptionsInOrder(id: string, children: seq<Child>, selectedValue: string, disabled: bool)
    requires forall k :: 0 <= k < |children| ==> children[k].RadioButton?
    ensures var r := RenderOptions(id, children, selectedValue, disabled);
      |r| == |children| && forall k :: 0 <= k < |r| ==> r[k] == OptionFor(id, children[k], selectedValue, disabled)
  {
    if children != [] {
      RenderOptionsInOrder(id, children[1..], selectedValue, disabled);
    }
  }

  /** The indices `j` of `children`, from `from` on, that hold a RadioButton. */
  ghost function RadioButtonIndices(children: seq<Child>, from: nat): seq<nat>
    requires from <= |children|
    decreases |children| - from
  {
    if from == |children| then []
    else (if children[from].RadioButton? then [from] else []) + RadioButtonIndices(children, from + 1)
  }

  /**
   * `r` is one option per RadioButton child of `children[from..]`, in order,
   * and `idx` lists those children's indices.
   */
  ghost predicate OptionsAt(id: string, children: seq<Child>, selectedValue: string, disabled: bool,
                            from: nat, r: seq<RenderedOption>, idx: seq<nat>)
  {
    && |idx| == |r|
    && (forall k :: 0 <= k < |idx| ==>
          from <= idx[k] < |children| && children[idx[k]].RadioButton?
          && r[k] == OptionFor(id, children[idx[k]], selectedValue, disabled))
    && (forall k1, k2 :: 0 <= k1 < k2 < |idx| ==> idx[k1] < idx[k2])
    && (forall j :: from <= j < |children| && children[j].RadioButton? ==> j in idx)
  }

  lemma OptionsAtCons(id: string, children: seq<Child>, selectedValue: string, disabled: bool,
                      from: nat, r: seq<RenderedOption>, idx: seq<nat>)
    requires from < |children|
    requires OptionsAt(id, children, selectedValue, disabled, from + 1, r, idx)
    ensures children[from].RadioButton? ==>
      OptionsAt(id, children, selectedValue, disabled, from,
                [OptionFor(id, children[from], selectedValue, disabled)] + r, [from] + idx)
    ensures !children[from].RadioButton? ==> OptionsAt(id, children, selectedValue, disabled, from, r, idx)
  {
    if children[from].RadioButton? {
      var r', idx' := [OptionFor(id, children[from], selectedValue, disabled)] + r, [from] + idx;
      forall k | 0 <= k < |idx'|
        ensures from <= idx'[k] < |children| && children[idx'[k]].RadioButton?
        ensures r'[k] == OptionFor(id, children[idx'[k]], selectedValue, disabled)
      {
        if k > 0 {
          assert idx'[k] == idx[k - 1] && r'[k] == r[k - 1];
        }
      }
      forall j | from <= j < |children| && children[j].RadioButton?
        ensures j in idx'
      {
        if j > from {
          assert j in idx;
        }
      }
    }
  }

  lemma RenderOptionsStep(id: string, cs: seq<Child>, selectedValue: string, disabled: bool)
    requires cs != []
    ensures RenderOptions(id, cs, selectedValue, disabled)
      == (if cs[0].RadioButton? then [OptionFor(id, cs[0], selectedValue, disabled)] else [])
         + RenderOptions(id, cs[1..], selectedValue, disabled)
  {
  }

  lemma {:induction false} RenderOptionsFrom(id: string, children: seq<Child>, selectedValue: string, disabled: bool, from: nat)
    requires from <= |children|
    ensures OptionsAt(id, children, selectedValue, disabled, from,
                      RenderOptions(id, children[from..], selectedValue, disabled), RadioButtonIndices(children, from))
    decreases |children| - from
  {
    if from == |children| {
      assert children[from..] == [];
    } else {
      RenderOptionsFrom(id, children, selectedValue, disabled, from + 1);
      var cs := children[from..];
      assert cs[1..] == children[from + 1..];
      assert cs[0] == children[from];
      var rest := RenderOptions(id, children[from + 1..], selectedValue, disabled);
      var restIdx := RadioButtonIndices(children, from + 1);
      RenderOptionsStep(id, cs, selectedValue, disabled);
      OptionsAtCons(id, children, selectedValue, disabled, from, rest, restIdx);
      if children[from].RadioButton? {
        assert RenderOptions(id, cs, selectedValue, disabled) == [OptionFor(id, children[from], selectedValue, disabled)] + rest;
        assert RadioButtonIndices(children, from) == [from] + restIdx;
      } else {
        assert RenderOptions(id, cs, selectedValue, disabled) == rest;
        assert RadioButtonIndices(children, from) == restIdx;
      }
    }
  }

  /**
   * One option per RadioButton child, in child order: the k-th rendered
   * option is the option for the k-th RadioButton child, and every
   * RadioButton child is rendered.
   */
  lemma RenderOptionsSpec(id: string, children: seq<Child>, selectedValue: string, disabled: bool)
    ensures var r, idx := RenderOptions(id, children, selectedValue, disabled), RadioButtonIndices(children, 0);
      && |idx| == |r|
      && (forall k :: 0 <= k < |idx| ==>
            idx[k] < |children| && children[idx[k]].RadioButton?
            && r[k] == OptionFor(id, children[idx[k]], selectedValue, disabled))
      && (forall k1, k2 :: 0 <= k1 < k2 < |idx| ==> idx[k1] < idx[k2])
      && (forall j :: 0 <= j < |children| && children[j].RadioButton? ==> j in idx)
  {
    RenderOptionsFrom(id, children, selectedValue, disabled, 0);
    assert children[0..] == children;
  }

  /** Rendering a concatenation renders each part in turn. */
  lemma {:induction false} RenderOptionsConcat(id: string, a: seq<Child>, b: seq<Child>, selectedValue: string, disabled: bool)
    ensures RenderOptions(id, a + b, selectedValue, disabled)
      == RenderOptions(id, a, selectedValue, disabled) + RenderOptions(id, b, selectedValue, disabled)
  {
    if a == [] {
      assert a + b == b;
    } else {
      assert (a + b)[1..] == a[1..] + b;
      assert (a + b)[0] == a[0];
      RenderOptionsConcat(id, a[1..], b, selectedValue, disabled);
    }
  }

  /** The group's class names: the base class, then a focus and a disabled modifier. */
  function ClassNames(focused: bool, disabled: bool): (r: seq<string>)
    ensures |r| > 0 && r[0] == "radio-btn-group"
    ensures "radio-btn-group--focus" in r <==> focused
    ensures "radio-btn-group--disabled" in r <==> disabled
    ensures |r| == 1 + (if focused then 1 else 0) + (if disabled then 1 else 0)
    ensures forall c :: c in r ==> c == "radio-btn-group" || c == "radio-btn-group--focus" || c == "radio-btn-group--disabled"
  {
    ["radio-btn-group"]
      + (if focused then ["radio-btn-group--focus"] else [])
      + (if disabled then ["radio-btn-group--disabled"] else [])
  }

  /** What the parent's onChange receives when the selection changes to a value: only non-empty values. */
  function ChangeNotification(selectedValue: string): (r: Option<string>)
    ensures r.Some? <==> selectedValue != ""
    ensures r.Some? ==> r.value == selectedValue
  {
    if selectedValue != "" then Some(selectedValue) else None
  }

  /** The group component's state. */
  class Group {
    var selectedValue: string
    var focused: bool

    constructor ()
      ensures selectedValue == "" && !focused
    {
      selectedValue := "";
      focused := false;
    }

    /** A click on a rendered option. */
    method OnValueChange(value: string)
      modifies this`selectedValue
      ensures selectedValue == value
    {
      selectedValue := value;
    }

    /** The group gains DOM focus; the result is the value passed to the parent's onFocus. */
    method HandleFocus() returns (notified: bool)
      modifies this`focused
      ensures focused && notified
    {
      focused := true;
      notified := true;
    }

    /** The group loses DOM focus; the result is the value passed to the parent's onFocus. */
    method HandleBlur() returns (notified: bool)
      modifies this`focused
      ensures !focused && !notified
    {
      focused := false;
      notified := false;
    }

    /** The effect that copies the `focus` prop into the state. */
    method SyncFocusProp(focus: bool)
      modifies this`focused
      ensures focused == focus
    {
      focused := focus;
    }

    /** The effect that copies the `value` prop into the state. */
    method SyncValueProp(value: string)
      modifies this`selectedValue
      ensures selectedValue == value
    {
      selectedValue := value;
    }

    /**
     * The window key handler: while focused, digit key k in 1 .. |children|
     * selects the k-th child's value if that child is a RadioButton; any
     * other key leaves the selection alone. The disabled prop plays no part.
     */
    method OnKeyPress(children: seq<Child>, key: string)
      modifies this`selectedValue
      ensures var k := ParseInt(key);
        if focused && k.Some? && 1 <= k.value <= |children| && children[k.value - 1].RadioButton?
        then selectedValue == children[k.value - 1].value
        else selectedValue == old(selectedValue)
    {
      var pressedKey := ParseInt(key);
      if focused && pressedKey.Some? && pressedKey.value > 0 && pressedKey.value <= |children| {
        var item := Find(children, pressedKey.value);
        if item.Some? {
          selectedValue := item.value.value;
        }
      }
    }
  }
}
