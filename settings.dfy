/**
 * The two small input rules of `main`: the card count (blank means 50, a
 * non-positive number is asked again, an odd one is raised to the next even
 * number) and the output file name (blank means "truth_or_dare.pdf", and
 * ".pdf" is appended when missing). The prompts themselves are left out: an
 * entry is given as the value the program parsed from the typed line.
 */
module Settings {
  import opened Wrappers
  import opened Text
  import Deck

  const DefaultCount: int := 50

  const DefaultFilename: string := "truth_or_dare.pdf"

  const PdfSuffix: string := ".pdf"

  /**
   * Lines 242-253: the count taken from one typed entry; `None` for a blank
   * line, and a result of `None` when the program asks again.
   */
  function CoerceCount(entered: Option<int>): (r: Option<int>)
    ensures r.Some? <==> entered.None? || entered.value > 0
    ensures r.Some? ==> r.value > 0 && r.value % 2 == 0
    ensures entered.None? ==> r == Some(DefaultCount)
    ensures entered.Some? && r.Some? ==> entered.value <= r.value <= entered.value + 1
    ensures entered.Some? && entered.value > 0 && entered.value % 2 == 0 ==> r == entered
  {
    var n := if entered.None? then DefaultCount else entered.value;
    if n <= 0 then None
    else if n % 2 != 0 then Some(n + 1)
    else Some(n)
  }

  /** A count that passes the prompt never makes `generate_cards` reject it; with questions loaded it builds a deck of that size. */
  lemma CoercedCountBuildsDeck(entered: Option<int>, truths: seq<string>, dares: seq<string>, draw: Deck.Draw)
    requires CoerceCount(entered).Some?
    requires |truths| > 0 && |dares| > 0
    requires Deck.DrawFits(draw, CoerceCount(entered).value, truths, dares)
    ensures var total := CoerceCount(entered).value;
            var r := Deck.GenerateCards(total, truths, dares, draw);
            r.Success? && |r.value| == total
  {
  }

  predicate EndsWith(s: string, suffix: string)
  {
    |suffix| <= |s| && s[|s| - |suffix|..] == suffix
  }

  /** Lines 272-276: the output file name from one typed line. */
  function NormalizeFilename(entered: string): (r: string)
    ensures EndsWith(r, PdfSuffix)
    ensures Strip(entered) == "" ==> r == DefaultFilename
    ensures Strip(entered) != "" && EndsWith(Strip(entered), PdfSuffix) ==> r == Strip(entered)
    ensures Strip(entered) != "" && !EndsWith(Strip(entered), PdfSuffix) ==> r == Strip(entered) + PdfSuffix
  {
    var stripped := Strip(entered);
    var name := if stripped == "" then DefaultFilename else stripped;
    if EndsWith(name, PdfSuffix) then name else name + PdfSuffix
  }

  /** A string with no whitespace at either end is its own `strip()`. */
  lemma StripStripped(s: string)
    requires s == [] || (!IsSpace(s[0]) && !IsSpace(s[|s| - 1]))
    ensures Strip(s) == s
  {
    assert LeadingSpace(s) == 0;
    assert s[0..] == s;
    assert TrailingSpace(s) == 0;
  }

  /** Typing back a name the program produced gives the same name. */
  lemma NormalizeFilenameIdempotent(entered: string)
    ensures NormalizeFilename(NormalizeFilename(entered)) == NormalizeFilename(entered)
  {
    var r := NormalizeFilename(entered);
    var name := Strip(entered);
    assert r[|r| - 1] == 'f';
    if name == "" {
      assert r == DefaultFilename;
    } else {
      assert r[0] == name[0];
    }
    StripStripped(r);
  }
}
