/**
 * Image URL correction (`GetCorrectedURL`) and the file extension that
 * `DownloadImage` derives from the corrected URL.
 */
module Urls {
  import opened Strings

  const Jpg := ".jpg"
  const Png := ".png"

  /**
   * Cuts a feed URL such as `/th/xyz.jpg&abc.jpg` after its first `.jpg`,
   * or, when it has no `.jpg`, after its first `.png`. The result is empty
   * for a blank URL, for a URL with neither extension, and when the chosen
   * extension starts the URL.
   */
  function CorrectedUrl(url: string): (r: string)
    ensures r <= url
    ensures r == [] || (|r| > 4 && (r[|r| - 4..] == Jpg || r[|r| - 4..] == Png))
  {
    if IsNullOrWhiteSpace(url) then ""
    else
      var stopAt := if Contains(url, Jpg) then Jpg else if Contains(url, Png) then Png else "";
      var loc := IndexOf(url, stopAt);
      if loc > 0 then
        EmptyAtStart(url);
        CutAfter(url, stopAt, loc);
        url[..loc] + stopAt
      else ""
  }

  /** The extension `DownloadImage` appends to the file name, chosen from the corrected URL. */
  function Extension(corrected: string): string
  {
    if Contains(corrected, Jpg) then Jpg
    else if Contains(corrected, Png) then Png
    else ""
  }

  /** With a `.jpg` anywhere, the URL is cut after its first `.jpg`, unless that starts the URL. */
  lemma CorrectedUrlJpg(url: string, i: int)
    requires OccursAt(url, Jpg, i)
    requires forall j :: 0 <= j < i ==> !OccursAt(url, Jpg, j)
    ensures CorrectedUrl(url) == if i > 0 then url[..i + 4] else ""
  {
    ContainsNotBlank(url, Jpg);
    assert IndexOf(url, Jpg) == i;
  }

  /** Without `.jpg`, a `.png` decides, even where a `.png` comes before everything else. */
  lemma CorrectedUrlPng(url: string, i: int)
    requires forall j :: !OccursAt(url, Jpg, j)
    requires OccursAt(url, Png, i)
    requires forall j :: 0 <= j < i ==> !OccursAt(url, Png, j)
    ensures CorrectedUrl(url) == if i > 0 then url[..i + 4] else ""
  {
    ContainsNotBlank(url, Png);
    assert !OccursAt(url, Jpg, IndexOf(url, Jpg));
    assert !Contains(url, Jpg);
    assert IndexOf(url, Png) == i;
  }

  /** With neither extension the corrected URL is empty. */
  lemma CorrectedUrlNeither(url: string)
    requires forall j :: !OccursAt(url, Jpg, j) && !OccursAt(url, Png, j)
    ensures CorrectedUrl(url) == ""
  {
    assert OccursAt(url, "", 0);
  }

  /** Correcting an already corrected URL changes nothing. */
  lemma CorrectedUrlIdempotent(url: string)
    ensures CorrectedUrl(CorrectedUrl(url)) == CorrectedUrl(url)
  {
    var r := CorrectedUrl(url);
    if r != "" {
      if Contains(url, Jpg) {
        IndexOfInPrefix(url, r, Jpg);
        ContainsNotBlank(r, Jpg);
      } else {
        assert OccursAt(url, "", 0);
        NotContainsPrefix(url, r, Jpg);
        IndexOfInPrefix(url, r, Png);
        ContainsNotBlank(r, Png);
      }
    }
  }

  /** The extension is exactly the last four characters of a non-empty corrected URL, and empty otherwise. */
  lemma ExtensionOfCorrected(url: string)
    ensures var r := CorrectedUrl(url);
            Extension(r) == if r == "" then "" else r[|r| - 4..]
  {
    var r := CorrectedUrl(url);
    if r == "" {
      assert !OccursAt(r, Jpg, IndexOf(r, Jpg)) && !OccursAt(r, Png, IndexOf(r, Png));
    } else if Contains(url, Jpg) {
      IndexOfInPrefix(url, r, Jpg);
    } else {
      assert OccursAt(url, "", 0);
      NotContainsPrefix(url, r, Jpg);
      IndexOfInPrefix(url, r, Png);
    }
  }
}
