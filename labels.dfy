/**
 * The label heuristics of the content script: which text names a field, a
 * radio/checkbox group and one option of a group. The DOM queries they rely
 * on are already answered in the `Control` record (see `Dom`); what is left
 * is the order in which the candidate texts are tried and how they are
 * normalised.
 */
module Labels {
  import opened Strings
  import opened Dom

  /** Group labels taken from a container are cut to this many characters. */
  const GroupLabelLength: nat := 50

  /** The texts, each normalised. */
  function NormalizeAll(texts: seq<string>): (r: seq<string>)
    ensures |r| == |texts|
    ensures forall i :: 0 <= i < |r| ==> r[i] == NormalizeText(texts[i])
  {
    seq(|texts|, i requires 0 <= i < |texts| => NormalizeText(texts[i]))
  }

  /** The non-empty texts, in order (`filter(Boolean)`). */
  function NonEmptyTexts(texts: seq<string>): (r: seq<string>)
    ensures |r| <= |texts|
    ensures forall i :: 0 <= i < |r| ==> r[i] != [] && r[i] in texts
  {
    if texts == [] then []
    else (if texts[0] != [] then [texts[0]] else []) + NonEmptyTexts(texts[1..])
  }

  /** The texts of the elements named by aria-labelledby, normalised, the
      empty ones dropped, joined by " / ". */
  function LabelledByText(texts: seq<string>): string {
    Join(NonEmptyTexts(NormalizeAll(texts)), " / ")
  }

  /** `getFieldLabel`: the first of aria-label, aria-labelledby, the label
      for the id, the enclosing label, the placeholder and the name that
      yields a text. A non-empty aria-label or placeholder is used even when
      it normalises to nothing; the name is used as it stands. */
  function GetFieldLabel(c: Control): string {
    if c.ariaLabel != [] then NormalizeText(c.ariaLabel)
    else if LabelledByText(c.labelledByTexts) != [] then LabelledByText(c.labelledByTexts)
    else if c.id != [] && NormalizeText(c.forLabelText) != [] then NormalizeText(c.forLabelText)
    else if NormalizeText(c.wrappingLabelText) != [] then NormalizeText(c.wrappingLabelText)
    else if c.placeholder != [] then NormalizeText(c.placeholder)
    else c.name
  }

  /** The label of a field is the raw name or a text without white space at
      its ends; an aria-label always wins. */
  lemma FieldLabelTrimmed(c: Control)
    ensures c.ariaLabel != [] ==> GetFieldLabel(c) == NormalizeText(c.ariaLabel)
    ensures GetFieldLabel(c) == c.name || IsTrimmed(GetFieldLabel(c))
  {
    var texts := NormalizeAll(c.labelledByTexts);
    var parts := NonEmptyTexts(texts);
    forall i | 0 <= i < |parts| ensures IsTrimmed(parts[i]) {
      var k :| 0 <= k < |texts| && texts[k] == parts[i];
    }
    JoinTrimmed(parts, " / ");
  }

  /** A field with a name always gets a label, unless a blank aria-label or
      placeholder hides it: those are used even when they normalise to "". */
  lemma FieldLabelNonEmpty(c: Control)
    requires c.ariaLabel == [] && c.placeholder == [] && c.name != []
    ensures GetFieldLabel(c) != []
  {
  }

  /** `getGroupLabel`: the legend of the enclosing fieldset, normalised;
      else the text of the enclosing form-item-like container, normalised and
      cut to 50 characters. Only the container text is cut. */
  function GetGroupLabel(c: Control): (r: string)
    ensures NormalizeText(c.legendText) != [] ==> r == NormalizeText(c.legendText) && IsTrimmed(r)
    ensures NormalizeText(c.legendText) == [] ==>
      && |r| <= GroupLabelLength
      && StartsWith(NormalizeText(c.containerText), r)
      && (|NormalizeText(c.containerText)| <= GroupLabelLength ==> r == NormalizeText(c.containerText))
      && (|NormalizeText(c.containerText)| > GroupLabelLength ==> |r| == GroupLabelLength)
  {
    var legend := NormalizeText(c.legendText);
    if legend != [] then legend
    else Take(NormalizeText(c.containerText), GroupLabelLength)
  }

  /** `getOptionLabel`: the label for the id, else the enclosing label,
      normalised. */
  function GetOptionLabel(c: Control): (r: string)
    ensures IsTrimmed(r)
    ensures c.id != [] && NormalizeText(c.forLabelText) != [] ==> r == NormalizeText(c.forLabelText)
  {
    if c.id != [] && NormalizeText(c.forLabelText) != [] then NormalizeText(c.forLabelText)
    else NormalizeText(c.wrappingLabelText)
  }
}
