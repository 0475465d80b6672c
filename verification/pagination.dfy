/** `updatePagination` and the guards of the prev/next click handlers. */
module Pagination {
  import opened Values
  import opened Text

  /** What the pagination bar shows: the two buttons' `disabled` flags and
      the indicator text. */
  datatype Controls = Controls(prevDisabled: bool, nextDisabled: bool, indicator: string)

  /** `Page {current} of {last}`. */
  function IndicatorText(current: int, last: int): string {
    "Page " + IntToString(current) + " of " + IntToString(last)
  }

  /** Index of the first space in `s`, or `|s|` when there is none. */
  function FirstSpace(s: string): (k: nat)
    ensures k <= |s|
    ensures forall j :: 0 <= j < k ==> s[j] != ' '
    ensures k < |s| ==> s[k] == ' '
    decreases |s|
  {
    if |s| == 0 || s[0] == ' ' then 0 else 1 + FirstSpace(s[1..])
  }

  /** Reads the two page numbers back out of an indicator text. */
  function ParseIndicator(s: string): Option<(int, int)> {
    if |s| < 5 || s[..5] != "Page " then None
    else
      var rest := s[5..];
      var k := FirstSpace(rest);
      var tail := rest[k..];
      if |tail| < 4 || tail[..4] != " of " then None
      else
        match (ParseInt(rest[..k]), ParseInt(tail[4..]))
        case (Some(c), Some(l)) => Some((c, l))
        case _ => None
  }

  /** In a text made of a word without spaces followed by a part that
      starts with a space, the first space ends the word. */
  lemma FirstSpaceAfterWord(a: string, tail: string)
    requires forall j :: 0 <= j < |a| ==> a[j] != ' '
    requires |tail| > 0 && tail[0] == ' '
    ensures FirstSpace(a + tail) == |a|
  {
    var s := a + tail;
    assert s[|a|] == ' ';
    assert forall j :: 0 <= j < |a| ==> s[j] == a[j];
  }

  /** The indicator text determines both page numbers. */
  lemma IndicatorRoundTrip(current: int, last: int)
    ensures ParseIndicator(IndicatorText(current, last)) == Some((current, last))
  {
    var a := IntToString(current);
    var b := IntToString(last);
    var s := IndicatorText(current, last);
    assert s[..5] == "Page ";
    var rest := s[5..];
    assert rest == a + (" of " + b);
    FirstSpaceAfterWord(a, " of " + b);
    assert rest[..|a|] == a;
    assert rest[|a|..] == " of " + b;
    IntRoundTrip(current);
    IntRoundTrip(last);
  }

  /** `updatePagination()`: prev is disabled on the first page, next on the
      last, and the indicator names both pages in their canonical decimal
      text, so it reads back as exactly those two numbers. */
  function UpdatePagination(current: int, last: int): (c: Controls)
    ensures c.prevDisabled <==> current <= 1
    ensures c.nextDisabled <==> current >= last
    ensures c.indicator == IndicatorText(current, last)
    ensures ParseIndicator(c.indicator) == Some((current, last))
    ensures 1 < current < last ==> !c.prevDisabled && !c.nextDisabled
  {
    IndicatorRoundTrip(current, last);
    Controls(current <= 1, current >= last, IndicatorText(current, last))
  }

  /** The bar after a failed load: no text, both buttons disabled. */
  const Cleared := Controls(true, true, "")

  /** The page the prev handler asks for, if any. */
  function PrevTarget(current: int): (p: Option<int>)
    ensures p.Some? <==> current > 1
    ensures p.Some? ==> p.value == current - 1 && p.value >= 1
  {
    if current > 1 then Some(current - 1) else None
  }

  /** The page the next handler asks for, if any. */
  function NextTarget(current: int, last: int): (p: Option<int>)
    ensures p.Some? <==> current < last
    ensures p.Some? ==> p.value == current + 1 && p.value <= last
  {
    if current < last then Some(current + 1) else None
  }

  /** A button is disabled exactly when its handler would request nothing. */
  lemma ButtonsAgreeWithHandlers(current: int, last: int)
    ensures UpdatePagination(current, last).prevDisabled <==> PrevTarget(current).None?
    ensures UpdatePagination(current, last).nextDisabled <==> NextTarget(current, last).None?
  {
  }

  /** From a page within `[1, last]`, navigation only requests pages within
      `[1, last]`. */
  lemma NavigationStaysInRange(current: int, last: int)
    requires 1 <= current <= last
    ensures PrevTarget(current).Some? ==> 1 <= PrevTarget(current).value <= last
    ensures NextTarget(current, last).Some? ==> 1 <= NextTarget(current, last).value <= last
  {
  }
}
