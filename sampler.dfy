/**
 * The sampler of pre_analyze.py: the text of the first three pages (with characters lying
 * over an image removed when a page has images), the text-layer tier it gives, and the
 * guarded call to the language detector.
 */
module Sampler {
  import opened Wrappers
  import opened Pdf
  import opened Strings

  /** How many leading pages the sampler reads (`pdf.pages[:3]`). */
  const SamplePages: nat := 3

  const BestThreshold: nat := 2000
  const GoodThreshold: nat := 200
  const PoorThreshold: nat := 20
  const LanguageThreshold: nat := 50

  function Min(a: nat, b: nat): nat
  {
    if a <= b then a else b
  }

  /** The character box strictly intersects at least one of the image boxes. */
  predicate OverlapsAny(b: Box, images: seq<Box>)
  {
    exists j :: 0 <= j < |images| && Intersects(b, images[j])
  }

  /** The texts of all the characters, concatenated in order. */
  function CharsText(chars: seq<Char>): string
  {
    if chars == [] then "" else CharsText(chars[..|chars| - 1]) + chars[|chars| - 1].text
  }

  /** The texts of the characters, in order, of those whose box intersects no image box. */
  function FilteredText(chars: seq<Char>, images: seq<Box>): string
  {
    if chars == [] then ""
    else
      var c := chars[|chars| - 1];
      FilteredText(chars[..|chars| - 1], images) + (if OverlapsAny(c.box, images) then "" else c.text)
  }

  /** The overlap filter of the sampler loop: each character is tested against every image, stopping at the first hit. */
  method FilterChars(chars: seq<Char>, images: seq<Box>) returns (filtered: string)
    ensures filtered == FilteredText(chars, images)
  {
    filtered := "";
    for i := 0 to |chars|
      invariant filtered == FilteredText(chars[..i], images)
    {
      var c := chars[i];
      var overlapping := false;
      var k := 0;
      while k < |images|
        invariant 0 <= k <= |images|
        invariant !overlapping
        invariant forall j :: 0 <= j < k ==> !Intersects(c.box, images[j])
      {
        if Intersects(c.box, images[k]) {
          overlapping := true;
          break;
        }
        k := k + 1;
      }
      assert overlapping == OverlapsAny(c.box, images);
      if !overlapping {
        filtered := filtered + c.text;
      }
      assert chars[..i + 1][..i] == chars[..i];
    }
    assert chars[..|chars|] == chars;
  }

  /** With no character over any image, the filter keeps the whole character text. */
  lemma {:induction false} FilterKeepsAllWhenNoOverlap(chars: seq<Char>, images: seq<Box>)
    requires forall i :: 0 <= i < |chars| ==> !OverlapsAny(chars[i].box, images)
    ensures FilteredText(chars, images) == CharsText(chars)
  {
    if chars != [] {
      FilterKeepsAllWhenNoOverlap(chars[..|chars| - 1], images);
    }
  }

  /** Adding an image can only remove sampled text, never add any. */
  lemma {:induction false} FilterShrinksWithImages(chars: seq<Char>, images: seq<Box>, extra: Box)
    ensures |FilteredText(chars, images + [extra])| <= |FilteredText(chars, images)|
    ensures |FilteredText(chars, images)| <= |CharsText(chars)|
  {
    if chars != [] {
      var c := chars[|chars| - 1];
      FilterShrinksWithImages(chars[..|chars| - 1], images, extra);
      if OverlapsAny(c.box, images) {
        var j :| 0 <= j < |images| && Intersects(c.box, images[j]);
        assert (images + [extra])[j] == images[j];
      }
    }
  }

  /** The text one sampled page contributes (`filtered_text`). */
  function PageSample(p: Page): string
  {
    if |p.images| > 0 then FilteredText(p.chars, p.images) else ExtractedText(p)
  }

  /** `all_text` after the loop over `pages`: each page's sample followed by a newline. */
  function SampleFrom(pages: seq<Page>): string
  {
    if pages == [] then "" else SampleFrom(pages[..|pages| - 1]) + PageSample(pages[|pages| - 1]) + "\n"
  }

  /** `pdf.pages[:3]`: the leading pages a sampler reads, at most three of them. */
  function FirstPages(pages: seq<Page>): (r: seq<Page>)
    ensures r <= pages && |r| == Min(SamplePages, |pages|)
  {
    pages[..Min(SamplePages, |pages|)]
  }

  /** `all_text` for the whole document: only the first three pages are sampled. */
  function SampleText(pages: seq<Page>): string
  {
    SampleFrom(FirstPages(pages))
  }

  /** Pages after the third never influence the sample. */
  lemma SampleReadsThreePages(pages: seq<Page>, more: seq<Page>)
    requires |pages| >= SamplePages
    ensures SampleText(pages + more) == SampleText(pages)
  {
    assert (pages + more)[..SamplePages] == pages[..SamplePages];
  }

  /** The sampler loop: `all_text` and `text_length = len(all_text.strip())`. */
  method SamplePass(pages: seq<Page>) returns (allText: string, textLength: nat)
    ensures allText == SampleText(pages)
    ensures textLength == |Strip(allText)|
  {
    var sample := FirstPages(pages);
    allText := "";
    for i := 0 to |sample|
      invariant allText == SampleFrom(sample[..i])
    {
      var page := sample[i];
      var filtered := "";
      if |page.images| > 0 {
        filtered := FilterChars(page.chars, page.images);
      } else {
        filtered := ExtractedText(page);
      }
      allText := allText + filtered + "\n";
      assert sample[..i + 1][..i] == sample[..i];
    }
    assert sample[..|sample|] == sample;
    textLength := |Strip(allText)|;
  }

  /**
   * The tier chain on `text_length`. As written, fewer than 20 characters is reported as
   * "poor" and 20 to 200 as "none".
   */
  function Tier(textLength: nat): (t: TextLayer)
    ensures t.hasTextLayer <==> textLength > GoodThreshold
    ensures t.quality == QualityBest <==> textLength > BestThreshold
    ensures t.quality == QualityGood <==> GoodThreshold < textLength <= BestThreshold
    ensures t.quality == QualityPoor <==> textLength < PoorThreshold
    ensures t.quality == QualityNone <==> PoorThreshold <= textLength <= GoodThreshold
  {
    if textLength > BestThreshold then TextLayer(QualityBest, true)
    else if textLength > GoodThreshold then TextLayer(QualityGood, true)
    else if textLength < PoorThreshold then TextLayer(QualityPoor, false)
    else TextLayer(QualityNone, false)
  }

  /** A longer sample never loses the text layer nor drops from "best" or "good" to a weaker tier. */
  lemma TierMonotone(a: nat, b: nat)
    requires a <= b
    ensures Tier(a).hasTextLayer ==> Tier(b).hasTextLayer
    ensures Tier(a).quality == QualityBest ==> Tier(b).quality == QualityBest
    ensures Tier(a).quality == QualityGood ==> Tier(b).quality in {QualityGood, QualityBest}
  {
  }

  /**
   * The language detector: None when `langdetect` is not installed; otherwise a function
   * whose None result stands for the exception it raises on unclassifiable text.
   */
  type Detector = Option<string -> Option<string>>

  /** `result["language"]`: the detector runs only on more than 50 sampled characters; any failure gives "unknown". */
  function Language(textLength: nat, allText: string, detect: Detector): (lang: string)
    ensures textLength <= LanguageThreshold || detect.None? ==> lang == "unknown"
    ensures textLength > LanguageThreshold && detect.Some? && detect.value(allText).Some? ==>
              lang == detect.value(allText).value
    ensures textLength > LanguageThreshold && detect.Some? && detect.value(allText).None? ==>
              lang == "unknown"
  {
    if textLength > LanguageThreshold && detect.Some? then
      match detect.value(allText)
      case Some(l) => l
      case None => "unknown"
    else "unknown"
  }
}
