/**
 * What the PDF backend (pdfplumber) hands to the processors, as plain values: page boxes,
 * characters with their boxes, image boxes and the `extract_text()` string, plus the two
 * page-geometry helpers of pre_analyze.py (`get_effective_bbox`, `is_within_bounds`).
 */
module Pdf {
  import opened Wrappers

  /** A bounding box in pdfplumber's top-down coordinates: (x0, top, x1, bottom). */
  datatype Box = Box(x0: real, top: real, x1: real, bottom: real)
  {
    function Width(): real { x1 - x0 }
    function Height(): real { bottom - top }
    function Area(): real { Width() * Height() }
  }

  /** One entry of `page.chars`: its box and its literal text. */
  datatype Char = Char(box: Box, text: string)

  /**
   * One entry of `pdf.pages`. `extracted` is the value of `page.extract_text()`, which may be
   * None; `images` holds the boxes of `page.images` in order.
   */
  datatype Page = Page(mediaBox: Box, cropBox: Option<Box>, extracted: Option<string>,
                       chars: seq<Char>, images: seq<Box>)

  /** The text-layer tiers reported as "none", "poor", "good" and "best". */
  datatype TextQuality = QualityNone | QualityPoor | QualityGood | QualityBest

  /** A document-level text-layer verdict: the `textQuality` and `hasTextLayer` fields of a result. */
  datatype TextLayer = TextLayer(quality: TextQuality, hasTextLayer: bool)

  /** `page.extract_text() or ""`. */
  function ExtractedText(p: Page): (s: string)
    ensures p.extracted.Some? ==> s == p.extracted.value
    ensures p.extracted.None? ==> s == ""
  {
    match p.extracted
    case Some(t) => t
    case None => ""
  }

  /** The margin, in points, that an image must reach past each edge of the page box. */
  const BoundsTolerance: real := 2.0

  /** `get_effective_bbox`: the crop box when the page has one that differs from the media box. */
  function EffectiveBox(p: Page): (b: Box)
    ensures b == p.mediaBox || Some(b) == p.cropBox
    ensures b != p.mediaBox <==> p.cropBox.Some? && p.cropBox.value != p.mediaBox
  {
    if p.cropBox.Some? && p.cropBox.value != p.mediaBox then p.cropBox.value else p.mediaBox
  }

  /** Strict overlap of two boxes on both axes: the test the sampler applies to a character and an image. */
  predicate Intersects(a: Box, b: Box)
  {
    a.x0 < b.x1 && a.x1 > b.x0 && a.top < b.bottom && a.bottom > b.top
  }

  /** The box shrunk by `d` on every side. */
  function Inset(b: Box, d: real): Box
  {
    Box(b.x0 + d, b.top + d, b.x1 - d, b.bottom - d)
  }

  /**
   * `is_within_bounds` with its default tolerance of 2 points: the object reaches more than
   * 2 points past every edge of the page box, that is, it strictly overlaps the page box
   * shrunk by 2 points.
   */
  predicate WithinBounds(obj: Box, page: Box)
    ensures WithinBounds(obj, page) <==> Intersects(obj, Inset(page, BoundsTolerance))
  {
    obj.x1 > page.x0 + BoundsTolerance && obj.x0 < page.x1 - BoundsTolerance &&
    obj.bottom > page.top + BoundsTolerance && obj.top < page.bottom - BoundsTolerance
  }

  /** An image that lies inside the page box and is wider and taller than 4 points is within bounds. */
  lemma InsideIsWithinBounds(obj: Box, page: Box)
    requires page.x0 <= obj.x0 && obj.x1 <= page.x1 && page.top <= obj.top && obj.bottom <= page.bottom
    requires obj.Width() > 2.0 * BoundsTolerance && obj.Height() > 2.0 * BoundsTolerance
    ensures WithinBounds(obj, page)
  {
  }

  /** An image that does not even touch the page box's interior is never within bounds. */
  lemma DisjointIsOutOfBounds(obj: Box, page: Box)
    requires !Intersects(obj, page)
    ensures !WithinBounds(obj, page)
  {
  }
}
