/**
 * The per-page measurement and classifier of `analyze_pdf` (pre_analyze.py) and the whole
 * pass. Every page is measured (text length, image coverage of the media box, the in-bounds
 * images of at least 20 x 20 points) and then dropped, added to the pending run of text
 * pages, or emitted as a full page or as two halves; the page loop is proved against the
 * fold `Segments.Assemble`.
 */
module PreAnalyze {
  import opened Wrappers
  import opened Pdf
  import opened Strings
  import opened Sampler
  import opened GapDetection
  import opened Segments

  /** A page with fewer stripped characters than this (and little image cover) is dropped. */
  const DropTextThreshold: nat := 20
  /** Image coverage, in percent, below which a page counts as poorly covered. */
  const CoverThreshold: real := 25.0
  /** Above this many characters a page is text-dominant whatever its images. */
  const DocumentTextThreshold: nat := 2000
  /** Above this many characters a poorly covered page is text-dominant. */
  const MixedTextThreshold: nat := 200
  /** Images narrower or shorter than this many points take no part in the split test. */
  const MinImageSide: real := 20.0
  /** A page needs this many relevant images before a split is tried. */
  const MinRelevantImages: nat := 2

  // ------------------------------------------------------------ measuring one page

  /** The images that pass `is_within_bounds` against the effective box, in order. */
  function InBounds(images: seq<Box>, eff: Box): (r: seq<Box>)
    ensures |r| <= |images|
  {
    if images == [] then []
    else
      var last := images[|images| - 1];
      InBounds(images[..|images| - 1], eff) + (if WithinBounds(last, eff) then [last] else [])
  }

  /** Not `w < 20 or h < 20`. */
  predicate IsRelevant(b: Box)
  {
    b.Width() >= MinImageSide && b.Height() >= MinImageSide
  }

  /** The images that reach `relevant_images_count`, in order. */
  function Relevant(images: seq<Box>): (r: seq<Box>)
    ensures |r| <= |images|
  {
    if images == [] then []
    else
      var last := images[|images| - 1];
      Relevant(images[..|images| - 1]) + (if IsRelevant(last) then [last] else [])
  }

  /** `total_img_area`: the sum of `w * h` over the given images, small ones included. */
  function ImageArea(images: seq<Box>): real
  {
    if images == [] then 0.0
    else
      var last := images[|images| - 1];
      ImageArea(images[..|images| - 1]) + last.Area()
  }

  /** `y_intervals`: the (top, bottom) projections, in order. */
  function YIntervals(images: seq<Box>): (r: seq<Interval>)
    ensures |r| == |images|
    ensures forall k :: 0 <= k < |r| ==> r[k] == Interval(images[k].top, images[k].bottom)
  {
    if images == [] then []
    else YIntervals(images[..|images| - 1]) + [Interval(images[|images| - 1].top, images[|images| - 1].bottom)]
  }

  /** `x_intervals`: the (x0, x1) projections, in order. */
  function XIntervals(images: seq<Box>): (r: seq<Interval>)
    ensures |r| == |images|
    ensures forall k :: 0 <= k < |r| ==> r[k] == Interval(images[k].x0, images[k].x1)
  {
    if images == [] then []
    else XIntervals(images[..|images| - 1]) + [Interval(images[|images| - 1].x0, images[|images| - 1].x1)]
  }

  /** Only images within bounds pass the in-bounds filter, and each is one of the page's images. */
  lemma {:induction false} InBoundsOnly(images: seq<Box>, eff: Box)
    ensures forall b :: b in InBounds(images, eff) ==> b in images && WithinBounds(b, eff)
  {
    if images != [] {
      InBoundsOnly(images[..|images| - 1], eff);
      assert forall b :: b in images[..|images| - 1] ==> b in images;
    }
  }

  /** Only images at least 20 points wide and tall are relevant, and each is one of the given images. */
  lemma {:induction false} RelevantOnly(images: seq<Box>)
    ensures forall b :: b in Relevant(images) ==> b in images && IsRelevant(b)
  {
    if images != [] {
      RelevantOnly(images[..|images| - 1]);
      assert forall b :: b in images[..|images| - 1] ==> b in images;
    }
  }

  lemma InBoundsSnoc(images: seq<Box>, img: Box, eff: Box)
    ensures InBounds(images + [img], eff) == InBounds(images, eff) + (if WithinBounds(img, eff) then [img] else [])
  {
    assert (images + [img])[..|images|] == images;
  }

  lemma RelevantSnoc(images: seq<Box>, img: Box)
    ensures Relevant(images + [img]) == Relevant(images) + (if IsRelevant(img) then [img] else [])
  {
    assert (images + [img])[..|images|] == images;
  }

  lemma ImageAreaSnoc(images: seq<Box>, img: Box)
    ensures ImageArea(images + [img]) == ImageArea(images) + img.Area()
  {
    assert (images + [img])[..|images|] == images;
  }

  lemma IntervalsSnoc(images: seq<Box>, img: Box)
    ensures YIntervals(images + [img]) == YIntervals(images) + [Interval(img.top, img.bottom)]
    ensures XIntervals(images + [img]) == XIntervals(images) + [Interval(img.x0, img.x1)]
  {
    assert (images + [img])[..|images|] == images;
  }

  /** The accumulators of the image loop: `total_img_area`, `relevant_images_count`, `y_intervals` and `x_intervals`. */
  datatype ImageScan = ImageScan(area: real, count: nat, ys: seq<Interval>, xs: seq<Interval>)

  /** One turn of the image loop: skip an image out of bounds, add the area of any other, record a relevant one. */
  function ScanStep(acc: ImageScan, img: Box, eff: Box): ImageScan
  {
    if !WithinBounds(img, eff) then acc
    else if !IsRelevant(img) then acc.(area := acc.area + img.Area())
    else ImageScan(acc.area + img.Area(), acc.count + 1,
                   acc.ys + [Interval(img.top, img.bottom)], acc.xs + [Interval(img.x0, img.x1)])
  }

  /** The image loop as a fold of `ScanStep`. */
  function Scan(images: seq<Box>, eff: Box): ImageScan
  {
    if images == [] then ImageScan(0.0, 0, [], [])
    else ScanStep(Scan(images[..|images| - 1], eff), images[|images| - 1], eff)
  }

  /**
   * What the image loop accumulates: the area of all in-bounds images, and the number and
   * the projections of the relevant ones among them, in order.
   */
  lemma {:induction false} ScanMeaning(images: seq<Box>, eff: Box)
    ensures Scan(images, eff) ==
              ImageScan(ImageArea(InBounds(images, eff)), |Relevant(InBounds(images, eff))|,
                        YIntervals(Relevant(InBounds(images, eff))), XIntervals(Relevant(InBounds(images, eff))))
  {
    if images != [] {
      var init, img := images[..|images| - 1], images[|images| - 1];
      ScanMeaning(init, eff);
      assert Scan(images, eff) == ScanStep(Scan(init, eff), img, eff);
      assert images == init + [img];
      InBoundsSnoc(init, img, eff);
      var inBounds := InBounds(init, eff);
      var relevant := Relevant(inBounds);
      if WithinBounds(img, eff) {
        assert InBounds(images, eff) == inBounds + [img];
        ImageAreaSnoc(inBounds, img);
        RelevantSnoc(inBounds, img);
        if IsRelevant(img) {
          assert Relevant(inBounds + [img]) == relevant + [img];
          IntervalsSnoc(relevant, img);
        } else {
          assert Relevant(inBounds + [img]) == relevant;
        }
      } else {
        assert InBounds(images, eff) == inBounds;
      }
    }
  }

  function MaxReal(a: real, b: real): real
  {
    if a >= b then a else b
  }

  function MinReal(a: real, b: real): real
  {
    if a <= b then a else b
  }

  /** `page_area`: the media-box area, never below 1. */
  function PageArea(p: Page): (a: real)
    ensures a >= 1.0
  {
    MaxReal(p.mediaBox.Area(), 1.0)
  }

  /** `image_cover_perc` without the rounding: capped at 100 from above only. */
  function Coverage(totalArea: real, pageArea: real): (c: real)
    requires pageArea >= 1.0
    ensures c <= 100.0
    ensures totalArea >= 0.0 ==> c >= 0.0
  {
    MinReal(100.0, totalArea / pageArea * 100.0)
  }

  /** What the page loop computes for one page before it decides. */
  datatype PageMeasure = PageMeasure(pLen: nat, cover: real, relevantCount: nat,
                                     yIntervals: seq<Interval>, xIntervals: seq<Interval>,
                                     pageW: real, pageH: real)

  /** The measurements of one page, as functions of the page. */
  function Measure(p: Page): PageMeasure
  {
    var eff := EffectiveBox(p);
    var inBounds := InBounds(p.images, eff);
    var relevant := Relevant(inBounds);
    PageMeasure(|Strip(ExtractedText(p))|, Coverage(ImageArea(inBounds), PageArea(p)), |relevant|,
                YIntervals(relevant), XIntervals(relevant),
                eff.x1 - eff.x0, eff.bottom - eff.top)
  }

  /** The loop over `page.images`, against the effective box `eff`. */
  method ScanImages(images: seq<Box>, eff: Box)
    returns (totalImgArea: real, relevantCount: nat, yIntervals: seq<Interval>, xIntervals: seq<Interval>)
    ensures ImageScan(totalImgArea, relevantCount, yIntervals, xIntervals) == Scan(images, eff)
  {
    yIntervals, xIntervals := [], [];
    relevantCount := 0;
    totalImgArea := 0.0;
    for k := 0 to |images|
      invariant ImageScan(totalImgArea, relevantCount, yIntervals, xIntervals) == Scan(images[..k], eff)
    {
      var img := images[k];
      assert images[..k + 1][..k] == images[..k];
      if !WithinBounds(img, eff) {
        continue;
      }
      var w := img.Width();
      var h := img.Height();
      totalImgArea := totalImgArea + img.Area();
      if w < MinImageSide || h < MinImageSide {
        continue;
      }
      relevantCount := relevantCount + 1;
      yIntervals := yIntervals + [Interval(img.top, img.bottom)];
      xIntervals := xIntervals + [Interval(img.x0, img.x1)];
    }
    assert images[..|images|] == images;
  }

  /** The first half of the page-loop body: text length, page area, effective box and the image loop. */
  method MeasurePage(p: Page) returns (m: PageMeasure)
    ensures m == Measure(p)
  {
    var pLen := |Strip(ExtractedText(p))|;
    var pageArea := MaxReal(p.mediaBox.Area(), 1.0);
    var eff := EffectiveBox(p);
    var pageW := eff.x1 - eff.x0;
    var pageH := eff.bottom - eff.top;
    var totalImgArea, relevantCount, yIntervals, xIntervals := ScanImages(p.images, eff);
    ScanMeaning(p.images, eff);
    assert pageArea == PageArea(p);
    m := PageMeasure(pLen, Coverage(totalImgArea, pageArea), relevantCount, yIntervals, xIntervals, pageW, pageH);
  }

  /** Well-formed images (x0 <= x1, top <= bottom) give a coverage between 0 and 100. */
  lemma {:induction false} CoverageInRange(p: Page)
    requires forall b :: b in p.images ==> b.Width() >= 0.0 && b.Height() >= 0.0
    ensures 0.0 <= Measure(p).cover <= 100.0
  {
    var inBounds := InBounds(p.images, EffectiveBox(p));
    InBoundsOnly(p.images, EffectiveBox(p));
    ImageAreaNonNegative(inBounds);
  }

  lemma {:induction false} ImageAreaNonNegative(images: seq<Box>)
    requires forall b :: b in images ==> b.Width() >= 0.0 && b.Height() >= 0.0
    ensures ImageArea(images) >= 0.0
  {
    if images != [] {
      var last := images[|images| - 1];
      assert last in images;
      ImageAreaNonNegative(images[..|images| - 1]);
    }
  }

  /** The in-bounds test does not check orientation: an image with x1 < x0 inside the page counts with a negative area. */
  lemma NegativeCoverageExample()
    ensures var p := Page(Box(0.0, 0.0, 100.0, 100.0), None, None, [],
                          [Box(50.0, 10.0, 10.0, 90.0)]);
            Measure(p).cover < 0.0
  {
    var p := Page(Box(0.0, 0.0, 100.0, 100.0), None, None, [], [Box(50.0, 10.0, 10.0, 90.0)]);
    var img := Box(50.0, 10.0, 10.0, 90.0);
    assert WithinBounds(img, EffectiveBox(p));
    assert p.images[..0] == [];
    assert InBounds(p.images, EffectiveBox(p)) == [img];
    assert [img][..0] == [];
    assert ImageArea([img]) == -3200.0;
  }

  // ------------------------------------------------------------ classifying one page

  /** `p_len < 20 and image_cover_perc < 25.0`. */
  predicate IsSparse(m: PageMeasure)
  {
    m.pLen < DropTextThreshold && m.cover < CoverThreshold
  }

  /** `p_len > 2000 or (p_len > 200 and image_cover_perc < 25.0)`. */
  predicate IsTextDominant(m: PageMeasure)
  {
    m.pLen > DocumentTextThreshold || (m.pLen > MixedTextThreshold && m.cover < CoverThreshold)
  }

  /** The rules of the page loop, in their order: drop, text run, too few relevant images, vertical split, horizontal split. */
  function Decide(m: PageMeasure): PageVerdict
  {
    if IsSparse(m) then PageVerdict(Dropped, m.cover)
    else if IsTextDominant(m) then PageVerdict(TextDocument, m.cover)
    else if m.relevantCount < MinRelevantImages then PageVerdict(FullPage, m.cover)
    else if GapSpec(m.yIntervals, m.pageH) then PageVerdict(SplitTopBottom, m.cover)
    else if GapSpec(m.xIntervals, m.pageW) then PageVerdict(SplitLeftRight, m.cover)
    else PageVerdict(FullPage, m.cover)
  }

  /** Exactly when each verdict is given: every rule applies only when all earlier rules did not. */
  lemma DecideRules(m: PageMeasure)
    ensures Decide(m).kind == Dropped <==> IsSparse(m)
    ensures Decide(m).kind == TextDocument <==> !IsSparse(m) && IsTextDominant(m)
    ensures Decide(m).kind == SplitTopBottom <==>
              !IsSparse(m) && !IsTextDominant(m) && m.relevantCount >= MinRelevantImages &&
              GapSpec(m.yIntervals, m.pageH)
    ensures Decide(m).kind == SplitLeftRight <==>
              !IsSparse(m) && !IsTextDominant(m) && m.relevantCount >= MinRelevantImages &&
              !GapSpec(m.yIntervals, m.pageH) && GapSpec(m.xIntervals, m.pageW)
    ensures Decide(m).kind == FullPage <==>
              !IsSparse(m) && !IsTextDominant(m) &&
              (m.relevantCount < MinRelevantImages || (!GapSpec(m.yIntervals, m.pageH) && !GapSpec(m.xIntervals, m.pageW)))
  {
  }

  function Classify(p: Page): PageVerdict
  {
    Decide(Measure(p))
  }

  /** The verdict for every page, in page order. */
  function Verdicts(pages: seq<Page>): (vs: seq<PageVerdict>)
    ensures |vs| == |pages|
    ensures forall i :: 0 <= i < |pages| ==> vs[i] == Classify(pages[i])
  {
    seq(|pages|, i requires 0 <= i < |pages| => Classify(pages[i]))
  }

  /** Consequences of the rule order: what each verdict says about the page's text and images. */
  lemma VerdictFacts(m: PageMeasure)
    ensures m.pLen >= DropTextThreshold || m.cover >= CoverThreshold ==> Decide(m).kind != Dropped
    ensures Decide(m).kind == TextDocument ==> m.pLen > MixedTextThreshold
    ensures DropTextThreshold <= m.pLen <= MixedTextThreshold ==> Decide(m).kind != TextDocument
    ensures m.pLen > DocumentTextThreshold ==> Decide(m).kind == TextDocument
    ensures Decide(m).kind in {SplitTopBottom, SplitLeftRight} ==>
              m.relevantCount >= MinRelevantImages && m.pLen <= DocumentTextThreshold
    ensures Decide(m).kind == FullPage ==> m.pLen <= DocumentTextThreshold && !IsSparse(m)
  {
  }

  /** The projections of relevant images always start no later than they end. */
  lemma RelevantIntervalsWellFormed(images: seq<Box>)
    requires forall b :: b in images ==> IsRelevant(b)
    ensures WellFormed(YIntervals(images)) && WellFormed(XIntervals(images))
  {
    forall iv | iv in YIntervals(images) ensures iv.start <= iv.end {
      var k :| 0 <= k < |YIntervals(images)| && YIntervals(images)[k] == iv;
      assert images[k] in images;
    }
    forall iv | iv in XIntervals(images) ensures iv.start <= iv.end {
      var k :| 0 <= k < |XIntervals(images)| && XIntervals(images)[k] == iv;
      assert images[k] in images;
    }
  }

  /**
   * A page is cut into a top and a bottom half only across a horizontal band around
   * `page_h / 2` that is at least 1% of the height and more than 5 points tall, that no
   * relevant image enters, with relevant images above and below it.
   */
  lemma TopBottomSplitHasBand(p: Page) returns (lo: real, hi: real)
    requires Classify(p).kind == SplitTopBottom
    ensures SplitBand(Measure(p).yIntervals, Mid(Measure(p).pageH), MinGap(Measure(p).pageH), lo, hi)
  {
    DecideRules(Measure(p));
    var relevant := Relevant(InBounds(p.images, EffectiveBox(p)));
    RelevantOnly(InBounds(p.images, EffectiveBox(p)));
    RelevantIntervalsWellFormed(relevant);
    lo, hi := GapSound(Measure(p).yIntervals, Measure(p).pageH);
  }

  /** The same for a left and right split, across a vertical band around `page_w / 2`. */
  lemma LeftRightSplitHasBand(p: Page) returns (lo: real, hi: real)
    requires Classify(p).kind == SplitLeftRight
    ensures SplitBand(Measure(p).xIntervals, Mid(Measure(p).pageW), MinGap(Measure(p).pageW), lo, hi)
    ensures forall lo', hi' :: !SplitBand(Measure(p).yIntervals, Mid(Measure(p).pageH), MinGap(Measure(p).pageH), lo', hi')
  {
    DecideRules(Measure(p));
    var relevant := Relevant(InBounds(p.images, EffectiveBox(p)));
    RelevantOnly(InBounds(p.images, EffectiveBox(p)));
    RelevantIntervalsWellFormed(relevant);
    lo, hi := GapSound(Measure(p).xIntervals, Measure(p).pageW);
    forall lo', hi' ensures !SplitBand(Measure(p).yIntervals, Mid(Measure(p).pageH), MinGap(Measure(p).pageH), lo', hi') {
      if SplitBand(Measure(p).yIntervals, Mid(Measure(p).pageH), MinGap(Measure(p).pageH), lo', hi') {
        GapComplete(Measure(p).yIntervals, Measure(p).pageH, lo', hi');
      }
    }
  }

  /** Flushing `current_text_doc_pages`: one "document" segment with the mean coverage, if the run is not empty. */
  method FlushRun(documents: seq<Segment>, pending: seq<nat>, covers: seq<real>) returns (documents': seq<Segment>)
    ensures documents' == documents + Flush(pending, covers)
  {
    documents' := documents;
    if |pending| > 0 {
      documents' := documents' + [Segment(pending, DocumentRun, Average(covers))];
    }
  }

  /** A page that is neither dropped nor text-dominant: a full page, or two halves when a gap is found. */
  method EmitPage(documents: seq<Segment>, m: PageMeasure, pageNum: nat) returns (documents': seq<Segment>)
    requires !IsSparse(m) && !IsTextDominant(m)
    ensures documents' == documents + PageSegments(Decide(m), pageNum)
  {
    if m.relevantCount < MinRelevantImages {
      documents' := documents + [Segment([pageNum], FullPageSegment, m.cover)];
      return;
    }
    var splitY := GetGap(m.yIntervals, m.pageH);
    if splitY {
      documents' := documents + [Segment([pageNum], TopHalf, m.cover)];
      documents' := documents' + [Segment([pageNum], BottomHalf, m.cover)];
    } else {
      var splitX := GetGap(m.xIntervals, m.pageW);
      if splitX {
        documents' := documents + [Segment([pageNum], LeftHalf, m.cover)];
        documents' := documents' + [Segment([pageNum], RightHalf, m.cover)];
      } else {
        documents' := documents + [Segment([pageNum], FullPageSegment, m.cover)];
      }
    }
  }

  /**
   * The second half of the page-loop body: drop the page, add it to the pending run, or
   * flush the run and emit the page.
   */
  method RoutePage(documents: seq<Segment>, pending: seq<nat>, covers: seq<real>, m: PageMeasure, pageNum: nat)
    returns (documents': seq<Segment>, pending': seq<nat>, covers': seq<real>)
    ensures Assembly(pending', covers', documents') == Step(Assembly(pending, covers, documents), Decide(m), pageNum)
  {
    documents', pending', covers' := documents, pending, covers;
    if m.pLen < DropTextThreshold && m.cover < CoverThreshold {
      return;
    }
    if m.pLen > DocumentTextThreshold || (m.pLen > MixedTextThreshold && m.cover < CoverThreshold) {
      pending' := pending' + [pageNum];
      covers' := covers' + [m.cover];
      return;
    }
    documents' := FlushRun(documents', pending', covers');
    pending' := [];
    covers' := [];
    documents' := EmitPage(documents', m, pageNum);
  }

  // ------------------------------------------------------------ the whole pass

  /** The result dictionary of `analyze_pdf` on the success path. */
  datatype AnalysisResult = AnalysisResult(isMultiDocument: bool, documentCount: nat, pageCount: nat,
                                           hasTextLayer: bool, textQuality: TextQuality, language: string,
                                           documents: seq<Segment>)

  /** One turn of the page loop: measure the page, then route it. */
  method PageTurn(p: Page, documents: seq<Segment>, pending: seq<nat>, covers: seq<real>, pageNum: nat)
    returns (documents': seq<Segment>, pending': seq<nat>, covers': seq<real>)
    ensures Assembly(pending', covers', documents') == Step(Assembly(pending, covers, documents), Classify(p), pageNum)
  {
    var m := MeasurePage(p);
    documents', pending', covers' := RoutePage(documents, pending, covers, m, pageNum);
  }

  /**
   * The verdicts of the pages, known only through their elements: the page loop reasons
   * about one page at a time and never unfolds the whole sequence.
   */
  lemma PageVerdicts(pages: seq<Page>) returns (vs: seq<PageVerdict>)
    ensures |vs| == |pages|
    ensures forall j {:trigger Classify(pages[j])} :: 0 <= j < |pages| ==> vs[j] == Classify(pages[j])
  {
    vs := Verdicts(pages);
  }

  /** Any sequence holding each page's verdict at its index is the sequence of verdicts. */
  lemma VerdictsUnique(pages: seq<Page>, vs: seq<PageVerdict>)
    requires |vs| == |pages|
    requires forall j {:trigger Classify(pages[j])} :: 0 <= j < |pages| ==> vs[j] == Classify(pages[j])
    ensures vs == Verdicts(pages)
  {
  }

  /** The page loop and the last flush: the segments of the whole document. */
  method AssemblePages(pages: seq<Page>) returns (documents: seq<Segment>)
    ensures documents == Assemble(Verdicts(pages))
  {
    ghost var vs := PageVerdicts(pages);
    var docs: seq<Segment>, pending: seq<nat>, covers: seq<real> := [], [], [];
    for i := 0 to |pages|
      invariant AssembleFrom(vs, i, Assembly(pending, covers, docs)) == Assemble(vs)
    {
      docs, pending, covers := PageTurn(pages[i], docs, pending, covers, i + 1);
    }
    documents := FlushRun(docs, pending, covers);
    VerdictsUnique(pages, vs);
  }

  /**
   * The part of `analyze_pdf` before the page loop: the sampler, the tier chain and the
   * guarded language detection.
   */
  method DetectTextLayer(pages: seq<Page>, detect: Detector)
    returns (textQuality: TextQuality, hasTextLayer: bool, language: string)
    ensures TextLayer(textQuality, hasTextLayer) == Tier(|Strip(SampleText(pages))|)
    ensures language == Language(|Strip(SampleText(pages))|, SampleText(pages), detect)
  {
    var allText, textLength := SamplePass(pages);
    if textLength > BestThreshold {
      textQuality, hasTextLayer := QualityBest, true;
    } else if textLength > GoodThreshold {
      textQuality, hasTextLayer := QualityGood, true;
    } else if textLength < PoorThreshold {
      textQuality, hasTextLayer := QualityPoor, false;
    } else {
      textQuality, hasTextLayer := QualityNone, false;
    }
    language := DetectLanguage(textLength, allText, detect);
  }

  /** The guarded detector call: "unknown" unless a detector exists, the sample is long enough and detection succeeds. */
  method DetectLanguage(textLength: nat, allText: string, detect: Detector) returns (language: string)
    ensures language == Language(textLength, allText, detect)
  {
    language := "unknown";
    if textLength > LanguageThreshold && detect.Some? {
      match detect.value(allText)
      case Some(lang) => language := lang;
      case None => language := "unknown";
    }
  }

  /**
   * `analyze_pdf` once the PDF is open: the text-layer verdict, the page loop with its
   * pending run of text pages, the last flush and the multi-document verdict.
   */
  method AnalyzePdf(pages: seq<Page>, detect: Detector) returns (result: AnalysisResult)
    ensures result.pageCount == |pages|
    ensures TextLayer(result.textQuality, result.hasTextLayer) == Tier(|Strip(SampleText(pages))|)
    ensures result.language == Language(|Strip(SampleText(pages))|, SampleText(pages), detect)
    ensures result.documents == Assemble(Verdicts(pages))
    ensures result.isMultiDocument <==> |result.documents| > 1
    ensures result.documentCount == DocumentCount(result.documents)
  {
    var textQuality, hasTextLayer, language := DetectTextLayer(pages, detect);
    var documents := AssemblePages(pages);
    var isMulti := |documents| > 1;
    result := AnalysisResult(isMulti, if isMulti then |documents| else 1, |pages|,
                             hasTextLayer, textQuality, language, documents);
  }
}
