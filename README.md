# DocGather document processors, modelled in Dafny

DocGather's Python processors look at a file before the rest of the pipeline handles it.
This project models their decision logic:

- **pre-analysis of a PDF** (`analyze_pdf` in `pre_analyze.py`). It reads a text sample from the first three pages
  and maps the sample to a text-layer tier and a language. It then measures every page: its text length, image
  coverage, and the in-bounds images of at least 20 x 20 points. Each page is then
  - dropped,
  - added to a pending run of text-dominant pages,
  - emitted as a full page, or
  - cut into top and bottom halves, or into left and right halves, when `get_gap` finds a clear gap around the middle.

  The result lists the segments ("documents") in page order.
- **spreadsheet extraction** (`extract_xlsx`). It takes the markdown of each sheet after the pandas step, compresses
  runs of spaces, and builds the lines of each sheet. It trims the longest sheets from the end until the text fits
  in 50000 characters, then prints the sheets in workbook order.
- **the garbage-line heuristic** (`verify_heuristic.py`). It classifies a line by its noise and alphanumeric ratios,
  and makes the two pass/fail checks of `analyze` over the first three pages.
- **native text extraction** (`extract_text`). Each page's text follows a `--- PAGE n ---` marker. The text-layer
  tier comes from the average length per page.

PDF pages are plain values (module `Pdf`): a media box, an optional crop box, the string `extract_text()` returns
(or None), the character boxes with their texts, and the image boxes. Coordinates are real numbers.

Each loop of the source is a Dafny `method` with its loop, proved equal to a specification function. The
properties are lemmas about those functions:

- For well-formed intervals (start <= end), `get_gap` is sound and complete with respect to a geometric "split band".
- Every page that is not dropped is listed once, or twice when it is split; a dropped page is not listed.
- Two text pages share a segment exactly when no page between them is kept on its own.
- Every segment is one the page loop can emit.
- When no sheet is named "", the spreadsheet text fits in its cap.
- The garbage verdict is restated without division.

Modules: `Wrappers` (Option), `Strings` (Python `strip`, `split`, `join` and `str(int)`), `Pdf`, `Sampler`,
`GapDetection`, `Segments`, `PreAnalyze`, `ExtractXlsx`, `VerifyHeuristic` and `ExtractText`.

Behaviour of the code worth noting, which the model follows as written:

- **Tier labels.** The tier chain in `analyze_pdf` labels fewer than 20 sampled characters "poor" and 20 to 200
  characters "none" (`Sampler.Tier`).
- **Dropped pages.** A dropped page leaves the pending run of text pages in place. Text pages on either side of it
  share one segment (`Segments.DroppedPagesKeepRun`, `Segments.TextPagesShareRun`).
- **`documentCount`.** It is 1 unless there are at least two segments, even when there are none
  (`Segments.DocumentCount`).
- **Image coverage.** It is capped at 100 from above only. An in-bounds image with x1 < x0 gives a negative
  coverage (`PreAnalyze.NegativeCoverageExample`).
- **Sampler overlap filter.** It tests characters against every image of the page, not only the in-bounds ones
  (`Sampler.FilteredText`).
- **Split midpoint.** `get_gap` takes the midpoint as half the page width or height measured from coordinate 0,
  not from the origin of the effective box (`GapDetection.Mid`).

## Model

| member | source | states |
|---|---|---|
| Pdf.EffectiveBox | workers/processors/python/pre_analyze.py:17-23 | the box is the media box or the crop box; it differs from the media box exactly when a crop box exists and differs from it |
| Pdf.WithinBounds | workers/processors/python/pre_analyze.py:25-31 | an object is in bounds exactly when it strictly overlaps the page box shrunk by the 2-point tolerance on every side |
| Pdf.InsideIsWithinBounds | workers/processors/python/pre_analyze.py:25-31 | an object inside the page box and more than 4 points wide and tall is in bounds |
| Pdf.DisjointIsOutOfBounds | workers/processors/python/pre_analyze.py:25-31 | an object that does not strictly overlap the page box is never in bounds |
| Sampler.FilterChars | workers/processors/python/pre_analyze.py:64-82 | the character loop keeps exactly the texts, in order, of the characters whose box strictly intersects no image box |
| Sampler.FilterKeepsAllWhenNoOverlap | workers/processors/python/pre_analyze.py:64-82 | when no character overlaps an image, the filter keeps the whole character text |
| Sampler.FilterShrinksWithImages | workers/processors/python/pre_analyze.py:64-82 | one more image never lengthens the filtered text, which is never longer than the full character text |
| Sampler.SamplePass | workers/processors/python/pre_analyze.py:50-90 | `all_text` is each of the first min(3, n) pages' filtered text (or extracted text when the page has no images) followed by a newline, and `text_length` is the length of its stripped form |
| Sampler.FirstPages | workers/processors/python/pre_analyze.py:50 | the sampled pages are a prefix of the document of min(3, n) pages |
| Sampler.SampleReadsThreePages | workers/processors/python/pre_analyze.py:50 | pages after the third never change the sample |
| Sampler.Tier | workers/processors/python/pre_analyze.py:95-106 | each tier holds exactly on its range: best above 2000, good from 201 to 2000, poor below 20, none from 20 to 200; a text layer exactly above 200 |
| Sampler.TierMonotone | workers/processors/python/pre_analyze.py:95-106 | a longer sample never loses the text layer and never drops from best or good to a weaker tier |
| Sampler.Language | workers/processors/python/pre_analyze.py:109-114 | the language is "unknown" unless the sample has more than 50 characters, a detector exists and it succeeds, in which case it is the detector's answer |
| PreAnalyze.DetectLanguage | workers/processors/python/pre_analyze.py:109-114 | the guarded detector call returns the language of `Sampler.Language` |
| PreAnalyze.DetectTextLayer | workers/processors/python/pre_analyze.py:50-114 | the text quality and text-layer flag are the tier of the stripped sample length, and the language follows the guard |
| GapDetection.SortByStart | workers/processors/python/pre_analyze.py:136 | sorting gives a permutation of the intervals ordered by start |
| GapDetection.MergeIntervals | workers/processors/python/pre_analyze.py:144-153 | the `curr_start`/`curr_end` loop builds the merge of the sorted intervals |
| GapDetection.MergeSortedSeparated | workers/processors/python/pre_analyze.py:144-153 | merged intervals are sorted by start and each starts more than 5 points after the previous one ends |
| GapDetection.MergeCovers | workers/processors/python/pre_analyze.py:144-153 | every input interval lies inside some merged interval, and every merged interval contains some input interval |
| GapDetection.AnyStraddles | workers/processors/python/pre_analyze.py:140-142 | the loop reports true exactly when some interval has start < mid < end |
| GapDetection.FindSplit | workers/processors/python/pre_analyze.py:161-169 | true exactly when some merged interval ends at or before mid, some starts at or after it, and an adjacent pair lies on the two sides of mid with a gap of at least `min_gap` |
| GapDetection.GetGap | workers/processors/python/pre_analyze.py:128-169 | the result is the step-by-step condition: non-empty, no sorted interval straddles mid, no merged interval straddles mid, and the adjacent-pair search succeeds |
| GapDetection.GapEmpty | workers/processors/python/pre_analyze.py:133-134 | an empty interval list never splits |
| GapDetection.GapStraddleBlocks | workers/processors/python/pre_analyze.py:136-142 | one interval crossing the midpoint rules out a split, whatever the other intervals are |
| GapDetection.GapSound | workers/processors/python/pre_analyze.py:128-169 | for well-formed intervals, a reported split has a band around mid, at least 1% of the axis and more than 5 points wide, that no interval enters, with intervals on both sides |
| GapDetection.GapComplete | workers/processors/python/pre_analyze.py:128-169 | for well-formed intervals, any such band makes `get_gap` report a split |
| PreAnalyze.ScanImages | workers/processors/python/pre_analyze.py:198-214 | the image loop computes the fold of its per-image step over the page's images |
| PreAnalyze.ScanMeaning | workers/processors/python/pre_analyze.py:198-214 | the image loop sums the area of every in-bounds image, small ones included, and counts and projects the in-bounds images at least 20 points wide and tall, in order |
| PreAnalyze.InBoundsOnly | workers/processors/python/pre_analyze.py:203-204 | only images of the page that pass the in-bounds test reach the area sum |
| PreAnalyze.RelevantOnly | workers/processors/python/pre_analyze.py:211 | only images at least 20 points wide and tall are counted and projected |
| PreAnalyze.MeasurePage | workers/processors/python/pre_analyze.py:180-216 | the first half of the page loop computes the page's measurements as functions of the page |
| PreAnalyze.PageArea | workers/processors/python/pre_analyze.py:184-185 | the page area is never below 1 |
| PreAnalyze.Coverage | workers/processors/python/pre_analyze.py:216 | coverage is at most 100, and non-negative when the image area is |
| PreAnalyze.CoverageInRange | workers/processors/python/pre_analyze.py:198-216 | when every image box is well oriented, the coverage lies between 0 and 100 |
| PreAnalyze.NegativeCoverageExample | workers/processors/python/pre_analyze.py:203-216 | a page with one in-bounds image whose x1 < x0 gets a negative coverage |
| PreAnalyze.DecideRules | workers/processors/python/pre_analyze.py:219-252 | each verdict is given exactly when its rule applies and all earlier rules did not: drop, text run, fewer than 2 relevant images, vertical split, horizontal split, full page |
| PreAnalyze.VerdictFacts | workers/processors/python/pre_analyze.py:219-252 | enough text or cover prevents a drop; a text verdict needs more than 200 characters and more than 2000 forces one; a split needs 2 relevant images |
| PreAnalyze.Verdicts | workers/processors/python/pre_analyze.py:175-252 | every page is classified on its own, in page order |
| PreAnalyze.TopBottomSplitHasBand | workers/processors/python/pre_analyze.py:245-247 | a page cut into top and bottom has a clear horizontal band around `page_h / 2` between its relevant images |
| PreAnalyze.LeftRightSplitHasBand | workers/processors/python/pre_analyze.py:248-250 | a page cut into left and right has a clear vertical band around `page_w / 2`, and no horizontal band exists |
| PreAnalyze.FlushRun | workers/processors/python/pre_analyze.py:229-237 | flushing adds one "document" segment with the pending pages and their mean cover when the run is not empty, and nothing otherwise |
| PreAnalyze.EmitPage | workers/processors/python/pre_analyze.py:240-252 | a page that is neither dropped nor text-dominant emits the segments of its verdict |
| PreAnalyze.RoutePage | workers/processors/python/pre_analyze.py:219-252 | the second half of the page loop performs one `Segments.Step` on the state it carries |
| PreAnalyze.PageTurn | workers/processors/python/pre_analyze.py:175-252 | one turn of the page loop measures the page and performs the step for its verdict |
| PreAnalyze.AssemblePages | workers/processors/python/pre_analyze.py:171-261 | the page loop and the final flush compute the fold of the steps over the pages' verdicts |
| PreAnalyze.AnalyzePdf | workers/processors/python/pre_analyze.py:33-274 | the result holds the page count, the sample's tier and language, the assembled segments, `isMultiDocument` exactly when there are more than one, and the `documentCount` rule |
| Segments.DocumentCount | workers/processors/python/pre_analyze.py:268-274 | the count is the number of segments when above 1, else 1 |
| Segments.AverageBounds | workers/processors/python/pre_analyze.py:230 | the mean of a run's covers lies between their smallest and largest value |
| Segments.SegmentPageCounts | workers/processors/python/pre_analyze.py:171-261 | across all segments a page appears once, twice when it is split, and not at all when it is dropped; no other number appears |
| Segments.SegmentPagesOrdered | workers/processors/python/pre_analyze.py:171-261 | the page numbers of consecutive segments never decrease, and each is a page of the document |
| Segments.SegmentsWellFormed | workers/processors/python/pre_analyze.py:171-261 | a "document" segment lists text-dominant pages in strictly increasing order with only dropped pages between them, with the mean of their covers; any other segment is one page whose verdict matches the segment type, with that page's cover |
| Segments.RunCoverBounds | workers/processors/python/pre_analyze.py:230 | a "document" segment's cover lies within the bounds of its pages' covers |
| Segments.AllTextIsOneSegment | workers/processors/python/pre_analyze.py:255-261 | a document whose pages are all text-dominant is one "document" segment over all its pages, with document count 1 |
| Segments.TextPagesShareRun | workers/processors/python/pre_analyze.py:219-237 | two text-dominant pages lie in one "document" segment exactly when every page between them was dropped or is text-dominant |
| Segments.DroppedPagesKeepRun | workers/processors/python/pre_analyze.py:219-226 | two text-dominant pages with only dropped pages between them always share a "document" segment |
| Segments.NoTwoRunsInARow | workers/processors/python/pre_analyze.py:228-261 | two "document" segments are never neighbours: a run is closed only by a page that emits its own segments |
| Segments.DroppedPageKeepsRun | workers/processors/python/pre_analyze.py:219-226 | text, dropped, text gives one segment over pages 1 and 3 |
| Segments.TwoTextPagesTwoSplitPages | workers/processors/python/pre_analyze.py:223-250 | two text pages and two left/right pages give one run segment and then two pairs of halves |
| Strings.StripEmptyIff | workers/processors/python/verify_heuristic.py:47 | a string strips to nothing exactly when it is all whitespace |
| Strings.JoinSplit | workers/processors/python/extract_xlsx.py:50 | joining the pieces of a split with the separator gives back the string |
| Strings.JoinLength | workers/processors/python/extract_xlsx.py:73 | a join is as long as its parts plus one separator between each neighbouring pair |
| Strings.ParseNatToString | workers/processors/python/extract_text.py:32 | reading back a rendered page number gives the number |
| ExtractXlsx.CompressIsSqueeze | workers/processors/python/extract_xlsx.py:48 | the run-of-spaces rewrite equals dropping every space that another space follows |
| ExtractXlsx.CompressNoDoubleSpace | workers/processors/python/extract_xlsx.py:48 | after compression no two spaces are adjacent |
| ExtractXlsx.CompressKeepsNonSpaces | workers/processors/python/extract_xlsx.py:48 | compression keeps every other character, newlines included, in order |
| ExtractXlsx.CompressNoop | workers/processors/python/extract_xlsx.py:48 | a string without adjacent spaces is left unchanged |
| ExtractXlsx.CompressIdempotent | workers/processors/python/extract_xlsx.py:48 | compressing twice is compressing once |
| ExtractXlsx.SheetLines | workers/processors/python/extract_xlsx.py:27-51 | a sheet contributes lines exactly when it is not empty |
| ExtractXlsx.BuildSheet | workers/processors/python/extract_xlsx.py:48-51 | an empty sheet gives no lines; a kept sheet gives its header, then lines that join back into its compressed table and hold no two adjacent spaces, then a blank line |
| ExtractXlsx.SheetLinesShape | workers/processors/python/extract_xlsx.py:48-51 | every kept sheet's lines have at least three entries: the header naming the sheet, lines whose newline join is the compressed markdown, each without two adjacent spaces, and a final blank line |
| ExtractXlsx.SplitNoDoubleSpace | workers/processors/python/extract_xlsx.py:48-50 | splitting compressed markdown into lines leaves no two adjacent spaces on any line |
| ExtractXlsx.BuildSheetLines | workers/processors/python/extract_xlsx.py:22-53 | the build loop gives each sheet's lines in workbook order, and `total_size` is the size of all of them |
| ExtractXlsx.TotalsUpdate | workers/processors/python/extract_xlsx.py:65-66 | replacing one sheet's lines changes the total size and line count by that sheet's difference alone |
| ExtractXlsx.Longest | workers/processors/python/extract_xlsx.py:57-61 | the chosen sheet is non-empty and has the most lines, and no earlier sheet has as many; there is none exactly when every sheet is empty |
| ExtractXlsx.TrimToBudget | workers/processors/python/extract_xlsx.py:56-66 | the trim loop computes the trim function of the line lists and keeps `total_size` equal to the size of what is left |
| ExtractXlsx.TrimKeepsPrefixes | workers/processors/python/extract_xlsx.py:56-66 | trimming keeps the number of sheets, and each sheet keeps a prefix of its lines |
| ExtractXlsx.TrimWithinBudget | workers/processors/python/extract_xlsx.py:56-66 | when no sheet name is empty, trimming leaves at most 50000 characters |
| ExtractXlsx.AssembleText | workers/processors/python/extract_xlsx.py:68-73 | the printed text joins with newlines the lines of every sheet, in workbook order, and ends with the newline `print` adds |
| ExtractXlsx.TotalSizeConcat | workers/processors/python/extract_xlsx.py:53 | `total_size` counts every printed line with one newline after it |
| ExtractXlsx.OutputWithinSize | workers/processors/python/extract_xlsx.py:73 | the printed text, final newline included, is exactly `total_size` characters long, or a single newline when no line is left |
| ExtractXlsx.ExtractWithinCap | workers/processors/python/extract_xlsx.py:19-73 | when no sheet name is empty, the printed text of the whole workbook, final newline included, is at most 50000 characters |
| ExtractXlsx.ExtractSheets | workers/processors/python/extract_xlsx.py:19-73 | the printed text is the newline join of the trimmed sheet lines in workbook order plus the final newline, and within the cap when no sheet name is empty |
| VerifyHeuristic.CountsPartition | workers/processors/python/verify_heuristic.py:10-15 | alphanumeric, valid punctuation and noise characters add up to the line length, so noise is never negative |
| VerifyHeuristic.GarbageLineIff | workers/processors/python/verify_heuristic.py:6-23 | a line is garbage exactly when its stripped form has at least 3 characters and over 30% of it is noise or under half is alphanumeric |
| VerifyHeuristic.CleanLineRatios | workers/processors/python/verify_heuristic.py:18-23 | a judged line that is not garbage is at most 30% noise and at least half alphanumeric |
| VerifyHeuristic.SampleTexts | workers/processors/python/verify_heuristic.py:28-35 | the sampling loop builds `all_text` and `chars_per_page` for the sampled pages |
| VerifyHeuristic.CharsPerPageBound | workers/processors/python/verify_heuristic.py:35 | a page's stripped character count is at most the length of its text |
| VerifyHeuristic.MinOf | workers/processors/python/verify_heuristic.py:40 | the minimum is an element no larger than any other |
| VerifyHeuristic.CheckConsistency | workers/processors/python/verify_heuristic.py:40-44 | the check fails exactly when more than one page was sampled and one of them has fewer than 50 characters |
| VerifyHeuristic.GarbageOf | workers/processors/python/verify_heuristic.py:47-69 | there is no verdict exactly when there are no text lines; otherwise it reports the bad lines and the total, and passes exactly when at most 20% are bad |
| VerifyHeuristic.CheckGarbage | workers/processors/python/verify_heuristic.py:48-69 | the early return and the division-based ratio test give that verdict |
| VerifyHeuristic.CountBadLines | workers/processors/python/verify_heuristic.py:53-61 | the loop reports the garbage lines in order, and `bad_lines` is their number |
| VerifyHeuristic.BadLinesBound | workers/processors/python/verify_heuristic.py:53-63 | at most all lines are bad, and every reported line is a garbage line of the input |
| VerifyHeuristic.BadLinesComplete | workers/processors/python/verify_heuristic.py:53-61 | every garbage line of the input is reported |
| VerifyHeuristic.Analyze | workers/processors/python/verify_heuristic.py:25-69 | the report holds the per-page counts of the first three pages, the consistency verdict and the garbage verdict over the stripped non-empty lines |
| ExtractText.Extract | workers/processors/python/extract_text.py:24-50 | the text is the newline join of each page's marker and text, the page count is the number of pages, and the tier comes from the average |
| ExtractText.MarkedLinesShape | workers/processors/python/extract_text.py:27-33 | there are two lines per page: page k's marker and then its text |
| ExtractText.MarkerInjective | workers/processors/python/extract_text.py:32 | different pages get different markers |
| ExtractText.QualityTier | workers/processors/python/extract_text.py:38-50 | only good or poor occur; good exactly when the text is longer than 50 per page (dividing by at least 1); a text layer exactly when the text is not empty |
| ExtractText.TextEmptyIffNoPages | workers/processors/python/extract_text.py:27-35 | the text is empty exactly when there are no pages |
| ExtractText.TextLayerIffPages | workers/processors/python/extract_text.py:35-50 | a text layer is reported exactly when the document has a page |

## Left out

- Opening files and reading pages, characters and images through pdfplumber. A page is an input value, and `extract_text()` is a given optional string.
- The difference between `extract_text()` and `extract_text(x_tolerance=3, y_tolerance=3)`. Both read the same string, `Pdf.Page.extracted`.
- `page.page_number` is taken to be the 1-based position of the page.
- `langdetect.detect`. The detector is a parameter: None when it is not installed, and a function whose None answer stands for the exception it raises.
- `round(..., 2)` on the coverage and on the mean cover of a run. Coverages and means are exact reals, so the rule thresholds (`image_cover_perc < 25.0` in the drop and text rules) compare the unrounded coverage: a coverage in [24.995, 25) is below 25 in the model but rounds to 25.0 in the code.
- Floating-point arithmetic in general. All coordinates, areas and ratios are reals.
- The `chars_per_page` list of `analyze_pdf`, which nothing reads.
- The `except Exception` paths and their `error` field, in all three scripts.
- The `__main__` command-line blocks, JSON printing, `print` to stderr and `sys.exit`.
- The pandas steps of `extract_xlsx`: `read_excel`, the `dropna` calls, `round_float`, `fillna` and `to_markdown`. Each sheet is its name and its markdown, or None when it is empty after cleaning.
- Sheets are a sequence in workbook order, standing for the dict `pd.read_excel` returns. Its keys are distinct.
- `VerifyHeuristic.IsAlnum` agrees with Python's `str.isalnum()` only for code points up to U+00FF. It is false above.
- `ExtractXlsx.ExtractWithinCap`: the 50000-character cap is proved only when no sheet is named "". The source's `if not max_sheet: break` stops trimming early on a longest sheet with an empty name, so in that case the cap does not hold.
- `ExtractXlsx.ExtractSheets`: its cap clause has the same condition, for the same reason.
- The orientation detectors, the PDF rasteriser, the e-mail converter, the debugging script and the test-fixture writer are not part of this model.
