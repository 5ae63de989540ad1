/**
 * The trigger text of the multi-select dropdown
 * (components/MultiSelectDropdown.tsx, `getDisplayText`). Its `toggleOption`
 * is `Seqs.Toggle`, and its `getContrastColor` is `LabelColour.ContrastColor`.
 */
module MultiSelect {
  import opened Text

  /** The `maxDisplay` default. */
  const DefaultMaxDisplay := 3

  /** `s.slice(0, end)`: a negative end counts from the back, and both ends are clamped. */
  function SlicePrefix<T>(s: seq<T>, end: int): seq<T>
  {
    if end >= 0 then (if end <= |s| then s[..end] else s)
    else if |s| + end >= 0 then s[..|s| + end]
    else []
  }

  /**
   * `getDisplayText()`: the placeholder for an empty selection, the
   * selection joined by ", " when it has at most `maxDisplay` items, and
   * otherwise the first `maxDisplay` items followed by " +N more", N being the
   * number of items left out.
   */
  function DisplayText(selected: seq<string>, placeholder: string, maxDisplay: int): string
  {
    if |selected| == 0 then placeholder
    else if |selected| <= maxDisplay then Join(selected, ", ")
    else Join(SlicePrefix(selected, maxDisplay), ", ") + " +" + Decimal(|selected| - maxDisplay) + " more"
  }

  /**
   * Over the limit, the text opens with the first `maxDisplay` names exactly
   * as the full list would show them, then gives the number left out.
   */
  lemma {:induction false} DisplayTextTruncates(selected: seq<string>, placeholder: string, maxDisplay: int)
    requires 0 < maxDisplay < |selected|
    ensures Join(selected, ", ") == Join(selected[..maxDisplay], ", ") + ", " + Join(selected[maxDisplay..], ", ")
    ensures DisplayText(selected, placeholder, maxDisplay)
              == Join(selected[..maxDisplay], ", ") + " +" + Decimal(|selected| - maxDisplay) + " more"
  {
    JoinAt(selected, maxDisplay, ", ");
    OverLimitText(selected, placeholder, maxDisplay);
  }

  /** The count in " +N more", read back, makes up the rest of the selection. */
  lemma {:induction false} OmittedCountReadsBack(selected: seq<string>, maxDisplay: int)
    requires 0 < maxDisplay < |selected|
    ensures DecimalValue(Decimal(|selected| - maxDisplay)) + maxDisplay == |selected|
  {
    DecimalRoundTrip(|selected| - maxDisplay);
  }

  lemma OverLimitText(selected: seq<string>, placeholder: string, maxDisplay: int)
    requires 0 < maxDisplay < |selected|
    ensures DisplayText(selected, placeholder, maxDisplay)
              == Join(selected[..maxDisplay], ", ") + " +" + Decimal(|selected| - maxDisplay) + " more"
  {
    assert SlicePrefix(selected, maxDisplay) == selected[..maxDisplay];
  }

  /** With the default limit, up to three names are listed in full and a fourth turns into " +1 more". */
  lemma DefaultLimitExamples(a: string, b: string, c: string, d: string, placeholder: string)
    ensures DisplayText([], placeholder, DefaultMaxDisplay) == placeholder
    ensures DisplayText([a, b, c], placeholder, DefaultMaxDisplay) == a + ", " + b + ", " + c
    ensures DisplayText([a, b, c, d], placeholder, DefaultMaxDisplay) == a + ", " + b + ", " + c + " +1 more"
  {
    assert [a, b, c, d][..3] == [a, b, c];
    assert [a, b, c][1..] == [b, c] && [b, c][1..] == [c];
    assert Join([b, c], ", ") == b + ", " + c;
    assert Decimal(1) == "1";
  }
}
