/**
 * extract_text.py: the native text of every page, each preceded by a page marker, joined
 * with newlines, and a text-layer tier from the average text length per page.
 */
module ExtractText {
  import opened Pdf
  import opened Strings

  /** The marker line `--- PAGE n ---` put before the text of page `n`. */
  function Marker(n: nat): string
  {
    "--- PAGE " + NatToString(n) + " ---"
  }

  /** `full_text` after the loop over `pages`: for page `k` (1-based), its marker and then its text. */
  function MarkedLines(pages: seq<Page>): seq<string>
  {
    if pages == [] then []
    else MarkedLines(pages[..|pages| - 1]) + [Marker(|pages|), ExtractedText(pages[|pages| - 1])]
  }

  /** Above this many characters per page on average the text layer is "good". */
  const GoodAverage: real := 50.0

  /** `text_length / max(1, pageCount)`: never a division by zero. */
  function AverageLength(textLength: nat, pageCount: nat): real
  {
    (textLength as real) / (if pageCount >= 1 then pageCount as real else 1.0)
  }

  /** The quality chain on the average: "good" above 50, else "poor"; a text layer whenever the average is positive. */
  function QualityTier(textLength: nat, pageCount: nat): (t: TextLayer)
    ensures t.quality == QualityGood || t.quality == QualityPoor
    ensures t.quality == QualityGood <==> textLength > 50 * (if pageCount >= 1 then pageCount else 1)
    ensures t.hasTextLayer <==> textLength > 0
  {
    var avg := AverageLength(textLength, pageCount);
    AverageScale(textLength, if pageCount >= 1 then pageCount else 1);
    if avg > GoodAverage then TextLayer(QualityGood, true)
    else if avg > 0.0 then TextLayer(QualityPoor, true)
    else TextLayer(QualityPoor, false)
  }

  lemma AverageScale(total: nat, count: nat)
    requires count >= 1
    ensures (total as real) / (count as real) > GoodAverage <==> total > 50 * count
    ensures (total as real) / (count as real) > 0.0 <==> total > 0
  {
    var avg := (total as real) / (count as real);
    assert avg * (count as real) == total as real;
    if total > 50 * count {
      assert avg * (count as real) > GoodAverage * (count as real);
    } else {
      assert avg * (count as real) <= GoodAverage * (count as real);
    }
  }

  /** The result dictionary of `extract_text` on the success path. */
  datatype TextResult = TextResult(text: string, pageCount: nat, hasTextLayer: bool, textQuality: TextQuality)

  /** `extract_text(pdf_path)` once the PDF is open: the page loop, the join and the quality tier. */
  method Extract(pages: seq<Page>) returns (result: TextResult)
    ensures result.text == Join("\n", MarkedLines(pages))
    ensures result.pageCount == |pages|
    ensures TextLayer(result.textQuality, result.hasTextLayer) == QualityTier(|result.text|, |pages|)
  {
    result := TextResult("", 0, false, QualityPoor);
    result := result.(pageCount := |pages|);
    var fullText: seq<string> := [];
    for i := 0 to |pages|
      invariant fullText == MarkedLines(pages[..i])
    {
      var pageText := ExtractedText(pages[i]);
      fullText := fullText + [Marker(i + 1), pageText];
      assert pages[..i + 1][..i] == pages[..i];
    }
    assert pages[..|pages|] == pages;
    result := result.(text := Join("\n", fullText));
    var textLength := |result.text|;
    var avg := AverageLength(textLength, result.pageCount);
    if avg > GoodAverage {
      result := result.(hasTextLayer := true, textQuality := QualityGood);
    } else if avg > 0.0 {
      result := result.(hasTextLayer := true, textQuality := QualityPoor);
    } else {
      result := result.(hasTextLayer := false, textQuality := QualityPoor);
    }
  }

  // ------------------------------------------------------------ properties

  /** Page `k + 1` contributes line `2k`, its marker, and line `2k + 1`, its text. */
  lemma {:induction false} MarkedLinesShape(pages: seq<Page>)
    ensures |MarkedLines(pages)| == 2 * |pages|
    ensures forall k :: 0 <= k < |pages| ==>
              MarkedLines(pages)[2 * k] == Marker(k + 1) && MarkedLines(pages)[2 * k + 1] == ExtractedText(pages[k])
  {
    if pages != [] {
      var init := pages[..|pages| - 1];
      var m, r := MarkedLines(init), MarkedLines(pages);
      MarkedLinesShape(init);
      assert r == m + [Marker(|pages|), ExtractedText(pages[|pages| - 1])];
      forall k | 0 <= k < |pages|
        ensures r[2 * k] == Marker(k + 1) && r[2 * k + 1] == ExtractedText(pages[k])
      {
        if k < |init| {
          assert r[2 * k] == m[2 * k] && r[2 * k + 1] == m[2 * k + 1];
          assert pages[k] == init[k];
        } else {
          assert 2 * k == |m| && k + 1 == |pages|;
          assert r[|m|] == Marker(|pages|) && r[|m| + 1] == ExtractedText(pages[|pages| - 1]);
        }
      }
    }
  }

  /** Different pages get different markers: a marker names its page. */
  lemma MarkerInjective(n: nat, m: nat)
    requires Marker(n) == Marker(m)
    ensures n == m
  {
    var a, b := NatToString(n), NatToString(m);
    assert |a| == |b|;
    assert Marker(n)[9..9 + |a|] == a;
    assert Marker(m)[9..9 + |b|] == b;
    ParseNatToString(n);
    ParseNatToString(m);
  }

  lemma {:induction false} TotalLengthAtLeast(parts: seq<string>, k: nat)
    requires k < |parts|
    ensures TotalLength(parts) >= |parts[k]|
  {
    if k < |parts| - 1 {
      TotalLengthAtLeast(parts[..|parts| - 1], k);
    }
  }

  /** The text is empty exactly when there are no pages: every page at least adds its marker. */
  lemma TextEmptyIffNoPages(pages: seq<Page>)
    ensures Join("\n", MarkedLines(pages)) == "" <==> pages == []
  {
    if pages != [] {
      var lines := MarkedLines(pages);
      MarkedLinesShape(pages);
      JoinLength("\n", lines);
      TotalLengthAtLeast(lines, 0);
      assert lines[2 * 0] == Marker(0 + 1);
    }
  }

  /** Hence a text layer is reported for every document with at least one page, and only "good" or "poor" occur. */
  lemma TextLayerIffPages(pages: seq<Page>)
    ensures QualityTier(|Join("\n", MarkedLines(pages))|, |pages|).hasTextLayer <==> |pages| > 0
  {
    TextEmptyIffNoPages(pages);
  }
}
