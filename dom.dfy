/**
 * The page as the content script sees it. Every control the scanner can meet
 * is a record: what its markup says (tag, attributes, the texts of the
 * elements the label heuristics look at, visibility) and its live state
 * (value, checked, selected option, text content). The document is a
 * sequence of such elements in document order; an element is named by its
 * position in that sequence.
 */
module Dom {
  import opened Wrappers
  import opened Strings

  datatype Tag = InputTag | TextareaTag | SelectTag | OtherTag

  /** An `<option>` of a select: its text content and its value. */
  datatype SelectOption = SelectOption(text: string, value: string)

  /** The fixed part of an element. Attributes that are absent are "". The
      label texts are the text content of the element that the corresponding
      DOM query finds ("" when it finds none):
      - `labelledByTexts`: the elements named by aria-labelledby that exist, in order;
      - `forLabelText`: the first `label[for=id]`;
      - `wrappingLabelText`: the closest enclosing `label`;
      - `legendText`: the first `legend` of the closest enclosing `fieldset`;
      - `containerText`: the closest form-item-like container, or the parent.
      `form` is the enclosing form, if any. `cancelsClick` says that a page
      listener cancels the default action of a click on this element. */
  datatype Control = Control(
    tag: Tag,
    typeAttr: string,
    name: string,
    id: string,
    placeholder: string,
    autocomplete: string,
    contentEditable: Option<string>,
    disabled: bool,
    ariaDisabled: string,
    ariaLabel: string,
    visible: bool,
    form: Option<nat>,
    labelledByTexts: seq<string>,
    forLabelText: string,
    wrappingLabelText: string,
    legendText: string,
    containerText: string,
    options: seq<SelectOption>,
    cancelsClick: bool)

  /** The live state of an element: the `value` property, `checked`,
      `selectedIndex` of a select (-1 when nothing is selected) and
      `textContent`. */
  datatype ControlState = ControlState(value: string, checked: bool, selectedIndex: int, textContent: string)

  datatype Element = Element(control: Control, state: ControlState)

  /** A `<form>` element; only its visibility matters. */
  datatype Form = Form(visible: bool)

  /** `String(getAttribute("type") || "text").toLowerCase()`. */
  function InputType(c: Control): string {
    Lower(if c.typeAttr == [] then "text" else c.typeAttr)
  }

  predicate IsContentEditable(c: Control) {
    c.contentEditable == Some("true") || c.contentEditable == Some("")
  }

  predicate IsCheckbox(c: Control) {
    c.tag == InputTag && InputType(c) == "checkbox"
  }

  predicate IsRadio(c: Control) {
    c.tag == InputTag && InputType(c) == "radio"
  }

  /** Two radios belong to one group: same non-empty name, same form. */
  predicate SameRadioGroup(a: Control, b: Control) {
    IsRadio(a) && IsRadio(b) && a.name != [] && a.name == b.name && a.form == b.form
  }

  /** The effect of a user click on element `i` on the checked states: a
      checkbox toggles, a radio becomes checked and the other radios of its
      group are cleared; a cancelled click changes nothing, and so does a click
      on any other kind of element. */
  function AfterClick(els: seq<Element>, i: nat): (r: seq<Element>)
    requires i < |els|
    ensures |r| == |els|
    ensures forall j :: 0 <= j < |els| ==> r[j].control == els[j].control
    ensures forall j :: 0 <= j < |els| ==>
              && r[j].state.value == els[j].state.value
              && r[j].state.selectedIndex == els[j].state.selectedIndex
              && r[j].state.textContent == els[j].state.textContent
    ensures !els[i].control.cancelsClick && IsCheckbox(els[i].control) ==>
      r[i].state.checked == !els[i].state.checked
    ensures !els[i].control.cancelsClick && IsRadio(els[i].control) ==> r[i].state.checked
    ensures forall j :: 0 <= j < |els| && j != i && !SameRadioGroup(els[i].control, els[j].control) ==>
      r[j] == els[j]
  {
    var c := els[i].control;
    if c.cancelsClick then els
    else if IsCheckbox(c) then
      els[i := els[i].(state := els[i].state.(checked := !els[i].state.checked))]
    else if IsRadio(c) then
      seq(|els|, j requires 0 <= j < |els| =>
        if j == i then els[j].(state := els[j].state.(checked := true))
        else if SameRadioGroup(c, els[j].control) then els[j].(state := els[j].state.(checked := false))
        else els[j])
    else els
  }

  /* ---------- What the scanner produces ---------- */

  datatype FieldKind = Text | Textarea | Select | ContentEditable | File | RadioGroup | CheckboxGroup

  /** The kind as the extension spells it in messages. */
  function KindName(k: FieldKind): (r: string)
    ensures r != []
  {
    match k
    case Text => "text"
    case Textarea => "textarea"
    case Select => "select"
    case ContentEditable => "contenteditable"
    case File => "file"
    case RadioGroup => "radio_group"
    case CheckboxGroup => "checkbox_group"
  }

  /** A field as described to the model. Properties a kind does not carry
      are "" (or no options). */
  datatype FieldDescriptor = FieldDescriptor(
    fieldId: string,
    kind: FieldKind,
    inputType: string,
    labelText: string,
    name: string,
    id: string,
    placeholder: string,
    autocomplete: string,
    options: seq<string>)

  /** One choice of a radio or checkbox group: the element and its texts. */
  datatype RuntimeOption = RuntimeOption(el: nat, labelText: string, value: string)

  /** How a field reaches the page: one element, or the options of a group. */
  datatype RuntimeHandle =
    | Single(fieldId: string, kind: FieldKind, el: nat)
    | Group(fieldId: string, kind: FieldKind, options: seq<RuntimeOption>)

  /** A handle names elements of a page with `n` elements, and a group's
      options are inputs of the group's own type. */
  predicate ValidHandle(h: RuntimeHandle, els: seq<Element>) {
    match h
    case Single(_, _, el) => el < |els|
    case Group(_, kind, options) =>
      && (kind == RadioGroup || kind == CheckboxGroup)
      && forall k :: 0 <= k < |options| ==>
           && options[k].el < |els|
           && (if kind == RadioGroup then IsRadio(els[options[k].el].control)
               else IsCheckbox(els[options[k].el].control))
  }

  /** The same elements, with possibly other states. */
  predicate SameControls(a: seq<Element>, b: seq<Element>) {
    |a| == |b| && forall j :: 0 <= j < |a| ==> a[j].control == b[j].control
  }

  lemma ValidHandleKept(h: RuntimeHandle, a: seq<Element>, b: seq<Element>)
    requires ValidHandle(h, a) && SameControls(a, b)
    ensures ValidHandle(h, b)
  {
  }

  /** The position of the first option whose value is `v`, or -1: the option
      that `select.value = v` selects. */
  function IndexOfValue(options: seq<SelectOption>, v: string): (r: int)
    ensures -1 <= r < |options|
    ensures r >= 0 ==> options[r].value == v && forall k :: 0 <= k < r ==> options[k].value != v
    ensures r == -1 <==> forall k :: 0 <= k < |options| ==> options[k].value != v
  {
    if options == [] then -1
    else if options[0].value == v then 0
    else
      var r := IndexOfValue(options[1..], v);
      assert forall k :: 0 < k < |options| ==> options[k] == options[1..][k - 1];
      if r < 0 then -1 else r + 1
  }

  /** The elements after a write of the `value` property of element `i`. */
  function WithValue(els: seq<Element>, i: nat, v: string): (r: seq<Element>)
    requires i < |els|
    ensures SameControls(els, r)
  {
    els[i := els[i].(state := els[i].state.(value := v))]
  }

  /** The elements after a write of the `textContent` of element `i`. */
  function WithTextContent(els: seq<Element>, i: nat, t: string): (r: seq<Element>)
    requires i < |els|
    ensures SameControls(els, r)
  {
    els[i := els[i].(state := els[i].state.(textContent := t))]
  }

  /** The elements after `select.value = v` on element `i`. */
  function WithSelectValue(els: seq<Element>, i: nat, v: string): (r: seq<Element>)
    requires i < |els|
    ensures SameControls(els, r)
  {
    els[i := els[i].(state := els[i].state.(selectedIndex := IndexOfValue(els[i].control.options, v)))]
  }

  /** The live document. Elements keep their controls; only their states change. */
  class Page {
    const forms: seq<Form>
    var elements: seq<Element>

    constructor (forms: seq<Form>, elements: seq<Element>)
      ensures this.forms == forms && this.elements == elements
    {
      this.forms := forms;
      this.elements := elements;
    }

    /** A click on element `i` (`el.click()`). */
    method Click(i: nat)
      requires i < |elements|
      modifies this
      ensures elements == AfterClick(old(elements), i)
    {
      elements := AfterClick(elements, i);
    }

    /** `el.value = v` on element `i`. */
    method SetValue(i: nat, v: string)
      requires i < |elements|
      modifies this
      ensures elements == WithValue(old(elements), i, v)
    {
      elements := WithValue(elements, i, v);
    }

    /** `el.textContent = t` on element `i`. */
    method SetTextContent(i: nat, t: string)
      requires i < |elements|
      modifies this
      ensures elements == WithTextContent(old(elements), i, t)
    {
      elements := WithTextContent(elements, i, t);
    }

    /** `select.value = v` on element `i`. */
    method SetSelectValue(i: nat, v: string)
      requires i < |elements|
      modifies this
      ensures elements == WithSelectValue(old(elements), i, v)
    {
      elements := WithSelectValue(elements, i, v);
    }
  }
}
