/**
 * The numeric form control `PrepackValueFormComponent`: the increment and
 * decrement buttons on a nullable integer form value, the leading-zero
 * rewrite, the search for the next visible field when Enter is pressed, the
 * button class string built from the pointer states, and the key filter.
 * The document is given as a map from the number n of each element with id
 * `PrepackValue-n` to its `placeholder` attribute (`None` when absent).
 */
module PrepackValueForm {
  import opened Wrappers
  import opened ComponentStates

  /** The parts of an Angular `FormControl<number | null>` the component uses. */
  class FormControl {
    var value: Option<int>
    var dirty: bool
    /** How many values have been written with `setValue`; each write is pushed to the input's text. */
    var writes: nat

    constructor(initial: Option<int>)
      ensures value == initial && !dirty && writes == 0
    {
      value := initial;
      dirty := false;
      writes := 0;
    }

    method MarkAsDirty()
      modifies this`dirty
      ensures dirty
    {
      dirty := true;
    }

    method SetValue(v: Option<int>)
      modifies this`value, this`writes
      ensures value == v && writes == old(writes) + 1
    {
      value := v;
      writes := writes + 1;
    }
  }

  /** JavaScript truthiness of a `number | null` value: present and not zero. */
  predicate Truthy(v: Option<int>)
  {
    v.Some? && v.value != 0
  }

  /** `(value ? value : 0) + step`. */
  function IncValue(v: Option<int>, step: int): int
  {
    (if Truthy(v) then v.value else 0) + step
  }

  /** `value ? value - step : 0`. */
  function DecValue(v: Option<int>, step: int): int
  {
    if Truthy(v) then v.value - step else 0
  }

  /** `Number(value)`: `null` becomes 0 and a number stays as it is. */
  function NumberOf(v: Option<int>): int
  {
    v.GetOr(0)
  }

  /** Increment adds exactly one step to the value, an empty value counting as 0. */
  lemma IncIsOneStepUp(v: Option<int>, step: int)
    ensures IncValue(v, step) == v.GetOr(0) + step
  {
  }

  /**
   * Decrement of an empty or zero value gives 0, while any other value
   * moves down a full step with no lower clamp: a positive value below the
   * step becomes negative.
   */
  lemma DecEdgeCases(v: Option<int>, step: int)
    ensures v.GetOr(0) == 0 ==> DecValue(v, step) == 0
    ensures v.GetOr(0) != 0 ==> DecValue(v, step) == v.GetOr(0) - step
    ensures 0 < v.GetOr(0) < step ==> DecValue(v, step) < 0
  {
  }

  /**
   * Decrement after increment with the same step gives back the starting
   * value (an empty value as 0), except when the increment landed on 0:
   * then decrement yields 0, which differs from a non-zero start.
   */
  lemma DecAfterInc(v: Option<int>, step: int)
    ensures DecValue(Some(IncValue(v, step)), step)
         == if v.GetOr(0) + step == 0 then 0 else v.GetOr(0)
  {
  }

  /** The token `onComponentState` maps a state to: the button class for hover, else empty. */
  function ButtonToken(s: ComponentState): string
  {
    if s == Hover then ButtonClass else ""
  }

  const ButtonClass: string := "prepack-unit-button"

  /** `states.map(...)` with the token mapping. */
  function Tokens(states: seq<ComponentState>): (ts: seq<string>)
    ensures |ts| == |states|
  {
    if states == [] then [] else [ButtonToken(states[0])] + Tokens(states[1..])
  }

  /** `Array.prototype.join(' ')`: the parts with one space between neighbours. */
  function JoinWithSpace(parts: seq<string>): string
  {
    if |parts| == 0 then ""
    else if |parts| == 1 then parts[0]
    else parts[0] + " " + JoinWithSpace(parts[1..])
  }

  /** The string `onComponentState` assigns to `activeButtonStateClass`. */
  function ButtonStateClass(states: seq<ComponentState>): string
  {
    JoinWithSpace(Tokens(states))
  }

  /** Number of occurrences of `c` in `s`. */
  function Occurrences(c: char, s: string): nat
  {
    if s == [] then 0 else (if s[0] == c then 1 else 0) + Occurrences(c, s[1..])
  }

  lemma {:induction false} OccurrencesAppend(c: char, a: string, b: string)
    ensures Occurrences(c, a + b) == Occurrences(c, a) + Occurrences(c, b)
  {
    if a != [] {
      assert (a + b)[0] == a[0];
      assert (a + b)[1..] == a[1..] + b;
      OccurrencesAppend(c, a[1..], b);
    } else {
      assert a + b == b;
    }
  }

  lemma {:induction false} OccurrencesAbsent(c: char, s: string)
    requires c !in s
    ensures Occurrences(c, s) == 0
  {
    if s != [] {
      assert s[0] in s;
      assert forall x :: x in s[1..] ==> x in s;
      OccurrencesAbsent(c, s[1..]);
    }
  }

  /** `t` occurs in `s` as a contiguous substring. */
  predicate Contains(s: string, t: string)
    decreases |s|
  {
    t <= s || (s != [] && Contains(s[1..], t))
  }

  /** No token holds a space. */
  lemma TokenHasNoSpace(s: ComponentState)
    ensures Occurrences(' ', ButtonToken(s)) == 0
  {
    assert ' ' !in ButtonClass;
    OccurrencesAbsent(' ', ButtonToken(s));
  }

  /** One state gives its token alone; more give the first token, a space and the rest. */
  lemma ButtonStateClassUnfold(states: seq<ComponentState>)
    requires states != []
    ensures |states| == 1 ==> ButtonStateClass(states) == ButtonToken(states[0])
    ensures |states| > 1 ==> ButtonStateClass(states) == ButtonToken(states[0]) + " " + ButtonStateClass(states[1..])
  {
    assert Tokens(states)[1..] == Tokens(states[1..]);
  }

  /**
   * The class string has one token per state and one space between
   * neighbouring tokens: n - 1 spaces for n states, none for no state.
   */
  lemma {:induction false} ButtonStateClassSeparators(states: seq<ComponentState>)
    ensures Occurrences(' ', ButtonStateClass(states)) == if states == [] then 0 else |states| - 1
  {
    if states != [] {
      var t := ButtonToken(states[0]);
      TokenHasNoSpace(states[0]);
      ButtonStateClassUnfold(states);
      if |states| > 1 {
        ButtonStateClassSeparators(states[1..]);
        OccurrencesAppend(' ', t, " ");
        OccurrencesAppend(' ', t + " ", ButtonStateClass(states[1..]));
      }
    }
  }

  /** Without hover in the list, the class string is nothing but spaces. */
  lemma {:induction false} ButtonStateClassBlankWithoutHover(states: seq<ComponentState>)
    requires Hover !in states
    ensures forall i :: 0 <= i < |ButtonStateClass(states)| ==> ButtonStateClass(states)[i] == ' '
  {
    if states != [] {
      ButtonStateClassUnfold(states);
      if |states| > 1 {
        ButtonStateClassBlankWithoutHover(states[1..]);
      }
    }
  }

  lemma {:induction false} BlankHasNoButtonClass(s: string)
    requires forall i :: 0 <= i < |s| ==> s[i] == ' '
    ensures !Contains(s, ButtonClass)
  {
    assert ButtonClass[0] == 'p';
    if s != [] {
      BlankHasNoButtonClass(s[1..]);
    }
  }

  lemma {:induction false} ButtonStateClassHasHover(states: seq<ComponentState>)
    requires Hover in states
    ensures Contains(ButtonStateClass(states), ButtonClass)
  {
    var r := ButtonStateClass(states);
    ButtonStateClassUnfold(states);
    if states[0] == Hover {
      assert r[..|ButtonClass|] == ButtonClass;
    } else {
      assert Hover in states[1..];
      ButtonStateClassHasHover(states[1..]);
      assert r[1..] == ButtonStateClass(states[1..]);
    }
  }

  /** The class string carries the button class exactly when hover is among the states. */
  lemma ButtonStateClassMarksHover(states: seq<ComponentState>)
    ensures Contains(ButtonStateClass(states), ButtonClass) <==> Hover in states
  {
    if Hover in states {
      ButtonStateClassHasHover(states);
    } else {
      ButtonStateClassBlankWithoutHover(states);
      BlankHasNoButtonClass(ButtonStateClass(states));
    }
  }

  /** A keyboard event: its key and whether its default action has been prevented. */
  class KeyEvent {
    const key: string
    var defaultPrevented: bool

    constructor(key: string)
      ensures this.key == key && !defaultPrevented
    {
      this.key := key;
      defaultPrevented := false;
    }

    /** `preventDefault()`: once prevented, the default action stays prevented. */
    method PreventDefault()
      modifies this`defaultPrevented
      ensures defaultPrevented
    {
      defaultPrevented := true;
    }
  }

  /**
   * `preventKeydown`: the '.' key has its default action prevented; any other
   * key leaves the event as it was, and a prevention already made is never undone.
   */
  method PreventKeydown(ev: KeyEvent)
    modifies ev`defaultPrevented
    ensures ev.defaultPrevented == (old(ev.defaultPrevented) || ev.key == ".")
  {
    if ev.key == "." {
      ev.PreventDefault();
    }
  }

  /** The string sent on `scrollToNextSize$` for a focused field: its placeholder when non-empty. */
  function ScrollEmission(doc: map<int, Option<string>>, focused: Option<int>): seq<string>
  {
    if focused.Some? && focused.value in doc && doc[focused.value].GetOr("") != ""
    then [doc[focused.value].GetOr("")]
    else []
  }

  class PrepackValueFormComponent {
    const control: FormControl
    /** The numeric `step` of the `#sizeUnitsInputRef` input, or `None` while that view child is absent. */
    const input: Option<int>
    const tabIndex: int
    const hiddenAcrossSizes: map<string, int>
    /** Values sent on `scrollToNextSize$`, oldest first. */
    var scrolled: seq<string>
    /** Button selectors sent on `clicked$`, oldest first. */
    var clicked: seq<string>
    var activeButtonStateClass: string

    constructor(control: FormControl, input: Option<int>, tabIndex: int, hiddenAcrossSizes: map<string, int>)
      ensures this.control == control && this.input == input
      ensures this.tabIndex == tabIndex && this.hiddenAcrossSizes == hiddenAcrossSizes
      ensures scrolled == [] && clicked == [] && activeButtonStateClass == ""
    {
      this.control := control;
      this.input := input;
      this.tabIndex := tabIndex;
      this.hiddenAcrossSizes := hiddenAcrossSizes;
      scrolled, clicked := [], [];
      activeButtonStateClass := "";
    }

    /** With the input present: mark dirty and write `(value ? value : 0) + step`. */
    method Inc()
      modifies control, this`clicked
      ensures input.None? ==>
                (control.value == old(control.value) && control.dirty == old(control.dirty)
                 && control.writes == old(control.writes) && clicked == old(clicked))
      ensures input.Some? ==>
                (control.dirty && control.value == Some(IncValue(old(control.value), input.value))
                 && control.writes == old(control.writes) + 1 && clicked == old(clicked) + ["button.inc"])
    {
      if input.Some? {
        control.MarkAsDirty();
        control.SetValue(Some(IncValue(control.value, input.value)));
        clicked := clicked + ["button.inc"];
      }
    }

    /** With the input present: mark dirty and write `value ? value - step : 0`. */
    method Dec()
      modifies control, this`clicked
      ensures input.None? ==>
                (control.value == old(control.value) && control.dirty == old(control.dirty)
                 && control.writes == old(control.writes) && clicked == old(clicked))
      ensures input.Some? ==>
                (control.dirty && control.value == Some(DecValue(old(control.value), input.value))
                 && control.writes == old(control.writes) + 1 && clicked == old(clicked) + ["button.dec"])
    {
      if input.Some? {
        control.MarkAsDirty();
        control.SetValue(Some(DecValue(control.value, input.value)));
        clicked := clicked + ["button.dec"];
      }
    }

    /** Element `PrepackValue-i` exists and its placeholder, or '' without one, is not a hidden size. */
    predicate Eligible(doc: map<int, Option<string>>, i: int)
    {
      i in doc && doc[i].GetOr("") !in hiddenAcrossSizes
    }

    /**
     * The `for` loop of `onKeyDownEnter`: the first eligible index among the
     * 99 that follow `tabIndex`, or `None` when none of them is eligible.
     */
    method FindNextField(doc: map<int, Option<string>>) returns (found: Option<int>)
      ensures found.Some? ==> tabIndex < found.value < tabIndex + 100 && Eligible(doc, found.value)
      ensures forall j :: tabIndex < j < (if found.Some? then found.value else tabIndex + 100) ==> !Eligible(doc, j)
    {
      found := None;
      for i := tabIndex + 1 to tabIndex + 100
        invariant forall j :: tabIndex < j < i ==> !Eligible(doc, j)
      {
        if Eligible(doc, i) {
          found := Some(i);
          break;
        }
      }
    }

    /**
     * Enter in the field: focus the next eligible field, if any, and send its
     * placeholder on `scrollToNextSize$` when it has a non-empty one.
     * Returns the number of the field that received focus.
     */
    method OnKeyDownEnter(doc: map<int, Option<string>>) returns (focused: Option<int>)
      modifies this`scrolled
      ensures focused.Some? ==> tabIndex < focused.value < tabIndex + 100 && Eligible(doc, focused.value)
      ensures forall j :: tabIndex < j < (if focused.Some? then focused.value else tabIndex + 100) ==> !Eligible(doc, j)
      ensures scrolled == old(scrolled) + ScrollEmission(doc, focused)
    {
      focused := FindNextField(doc);
      if focused.Some? {
        var placeholder := doc[focused.value];
        if placeholder.Some? && placeholder.value != "" {
          scrolled := scrolled + [placeholder.value];
        }
      }
    }

    /** Tab released in the field: send its placeholder on `scrollToNextSize$` when it is non-empty. */
    method OnKeyUpTab(placeholder: Option<string>)
      modifies this`scrolled
      ensures scrolled == old(scrolled) + (if placeholder.GetOr("") != "" then [placeholder.GetOr("")] else [])
    {
      if placeholder.Some? && placeholder.value != "" {
        scrolled := scrolled + [placeholder.value];
      }
    }

    /** Key-up in the field: rewrite the value as `Number(value)` when the text has a leading zero. */
    method CheckSizeUnitsKeyup(text: string)
      modifies control`value, control`writes
      ensures |text| > 1 && text[0] == '0' ==>
                (control.value == Some(NumberOf(old(control.value))) && control.writes == old(control.writes) + 1)
      ensures !(|text| > 1 && text[0] == '0') ==>
                (control.value == old(control.value) && control.writes == old(control.writes))
    {
      if |text| > 1 && text[0] == '0' {
        control.SetValue(Some(NumberOf(control.value)));
      }
    }

    /** The directive's state list arrives: recompute the button class string. */
    method OnComponentState(states: seq<ComponentState>)
      modifies this`activeButtonStateClass
      ensures activeButtonStateClass == ButtonStateClass(states)
    {
      activeButtonStateClass := ButtonStateClass(states);
    }
  }
}
