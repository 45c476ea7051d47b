/**
 * verify_heuristic.py: the garbage-line classifier and the two checks of `analyze` over the
 * first three pages of a PDF: per-page consistency and the share of garbage lines.
 */
module VerifyHeuristic {
  import opened Pdf
  import opened Strings
  import Sampler

  /** `str.isalnum()` for code points up to U+00FF: ASCII letters and digits and the Latin-1 letters and numerals. */
  predicate IsAlnum(c: char)
  {
    || ('0' <= c <= '9') || ('A' <= c <= 'Z') || ('a' <= c <= 'z')
    || c == '\U{aa}' || c == '\U{b2}' || c == '\U{b3}' || c == '\U{b5}' || c == '\U{b9}' || c == '\U{ba}'
    || ('\U{bc}' <= c <= '\U{be}') || ('\U{c0}' <= c <= '\U{d6}') || ('\U{d8}' <= c <= '\U{f6}')
    || ('\U{f8}' <= c <= '\U{ff}')
  }

  /** The punctuation that does not count as noise, the space included. */
  predicate IsValidPunct(c: char)
  {
    c in ".,:;-'\"?!/@() "
  }

  function AlnumCount(s: string): nat
  {
    if s == [] then 0 else AlnumCount(s[..|s| - 1]) + (if IsAlnum(s[|s| - 1]) then 1 else 0)
  }

  function PunctCount(s: string): nat
  {
    if s == [] then 0 else PunctCount(s[..|s| - 1]) + (if IsValidPunct(s[|s| - 1]) then 1 else 0)
  }

  /** The characters that are neither alphanumeric nor valid punctuation. */
  function NoiseCount(s: string): nat
  {
    if s == [] then 0
    else NoiseCount(s[..|s| - 1]) + (if IsAlnum(s[|s| - 1]) || IsValidPunct(s[|s| - 1]) then 0 else 1)
  }

  /** No valid punctuation mark is alphanumeric. */
  lemma PunctNotAlnum(c: char)
    ensures IsValidPunct(c) ==> !IsAlnum(c)
  {
  }

  /** Every character is exactly one of alphanumeric, valid punctuation or noise, so `noise = total - alnum - valid_punct` is never negative. */
  lemma {:induction false} CountsPartition(s: string)
    ensures AlnumCount(s) + PunctCount(s) + NoiseCount(s) == |s|
  {
    if s != [] {
      CountsPartition(s[..|s| - 1]);
      PunctNotAlnum(s[|s| - 1]);
    }
  }

  /** `part / whole > num / den` in true division. */
  predicate RatioAbove(part: int, whole: nat, num: nat, den: nat)
    requires whole > 0 && den > 0
  {
    (part as real) / (whole as real) > (num as real) / (den as real)
  }

  /** `part / whole < num / den` in true division. */
  predicate RatioBelow(part: int, whole: nat, num: nat, den: nat)
    requires whole > 0 && den > 0
  {
    (part as real) / (whole as real) < (num as real) / (den as real)
  }

  /** A ratio compared with a positive fraction is the cross-multiplied integer comparison. */
  lemma ScaledRatio(n: int, t: nat, num: nat, den: nat)
    requires t > 0 && den > 0
    ensures RatioAbove(n, t, num, den) <==> n * den > num * t
    ensures RatioBelow(n, t, num, den) <==> n * den < num * t
  {
    var x, y := (n as real) / (t as real), (num as real) / (den as real);
    var k := (t as real) * (den as real);
    assert x * (t as real) == n as real;
    assert y * (den as real) == num as real;
    assert x * k == (n * den) as real;
    assert y * k == (num * t) as real;
    assert k > 0.0;
    if x > y {
      assert x * k > y * k;
    } else if x < y {
      assert x * k < y * k;
    }
  }

  /**
   * `is_garbage_line(line)`: lines of fewer than 3 non-blank characters are never garbage;
   * otherwise a line is garbage when more than 30% of it is noise or less than half of it
   * is alphanumeric.
   */
  function IsGarbageLine(line: string): bool
  {
    if line == [] || |Strip(line)| < 3 then false
    else
      var alnum := AlnumCount(line);
      var validPunct := PunctCount(line);
      var total := |line|;
      var noise := total - alnum - validPunct;
      if RatioAbove(noise, total, 3, 10) then true
      else RatioBelow(alnum, total, 1, 2)
  }

  /** The verdict without division: the guard keeps `len(line)` positive, and the ratios become integer comparisons. */
  lemma GarbageLineIff(line: string)
    ensures IsGarbageLine(line) <==>
              |Strip(line)| >= 3 && (10 * NoiseCount(line) > 3 * |line| || 2 * AlnumCount(line) < |line|)
  {
    if line != [] && |Strip(line)| >= 3 {
      var total, alnum := |line|, AlnumCount(line);
      var noise := total - alnum - PunctCount(line);
      assert IsGarbageLine(line) == (RatioAbove(noise, total, 3, 10) || RatioBelow(alnum, total, 1, 2));
      CountsPartition(line);
      assert noise == NoiseCount(line);
      ScaledRatio(noise, total, 3, 10);
      ScaledRatio(alnum, total, 1, 2);
    }
  }

  /** A line that is not garbage is at most 30% noise and at least half alphanumeric (or too short to judge). */
  lemma CleanLineRatios(line: string)
    requires !IsGarbageLine(line) && |Strip(line)| >= 3
    ensures 10 * NoiseCount(line) <= 3 * |line| && 2 * AlnumCount(line) >= |line|
  {
    GarbageLineIff(line);
  }

  // ------------------------------------------------------------ analyze

  /** A sampled page with fewer stripped characters fails the consistency check. */
  const MinPageChars: nat := 50

  /** `chars_per_page`: the stripped length of each sampled page's text. */
  function CharsPerPage(sample: seq<Page>): (cpp: seq<nat>)
    ensures |cpp| == |sample|
  {
    if sample == [] then []
    else CharsPerPage(sample[..|sample| - 1]) + [|Strip(ExtractedText(sample[|sample| - 1]))|]
  }

  /** `all_text`: each sampled page's text followed by a newline. */
  function AllText(sample: seq<Page>): string
  {
    if sample == [] then "" else AllText(sample[..|sample| - 1]) + ExtractedText(sample[|sample| - 1]) + "\n"
  }

  /** `min(xs)` of a non-empty list. */
  function MinOf(xs: seq<nat>): (m: nat)
    requires xs != []
    ensures m in xs
    ensures forall k :: 0 <= k < |xs| ==> m <= xs[k]
  {
    if |xs| == 1 then xs[0]
    else
      var m := MinOf(xs[..|xs| - 1]);
      assert forall k :: 0 <= k < |xs| - 1 ==> xs[..|xs| - 1][k] == xs[k];
      if xs[|xs| - 1] < m then xs[|xs| - 1] else m
  }

  /** `[l.strip() for l in parts if l.strip()]`. */
  function TextLines(parts: seq<string>): (lines: seq<string>)
    ensures forall k :: 0 <= k < |lines| ==> lines[k] != []
  {
    if parts == [] then []
    else
      var l := Strip(parts[|parts| - 1]);
      TextLines(parts[..|parts| - 1]) + (if l != [] then [l] else [])
  }

  /** The lines reported as `[BAD]`, in order. */
  function BadLines(lines: seq<string>): seq<string>
  {
    if lines == [] then []
    else BadLines(lines[..|lines| - 1]) + (if IsGarbageLine(lines[|lines| - 1]) then [lines[|lines| - 1]] else [])
  }

  /** The garbage check: no verdict without text lines; otherwise the bad lines, the line count and pass/fail. */
  datatype GarbageCheck = NoTextLines | GarbageRatio(badLines: seq<string>, totalLines: nat, passed: bool)

  /** What `analyze` prints, as a value. */
  datatype Report = Report(charsPerPage: seq<nat>, consistencyPassed: bool, garbage: GarbageCheck)

  /** `analyze(pdf_path)` once the PDF is open: the sampling loop, then the two checks. */
  method Analyze(pages: seq<Page>) returns (report: Report)
    ensures report.charsPerPage == CharsPerPage(Sampler.FirstPages(pages))
    ensures report.consistencyPassed <==>
              |report.charsPerPage| <= 1 || AllAtLeast(report.charsPerPage, MinPageChars)
    ensures report.garbage == GarbageOf(TextLines(Split(AllText(Sampler.FirstPages(pages)), '\n')))
  {
    var allText, charsPerPage := SampleTexts(Sampler.FirstPages(pages));
    var consistent := CheckConsistency(charsPerPage);
    var garbage := CheckGarbage(TextLines(Split(allText, '\n')));
    report := Report(charsPerPage, consistent, garbage);
  }

  /** The sampling loop: `all_text` and `chars_per_page`. */
  method SampleTexts(sample: seq<Page>) returns (allText: string, charsPerPage: seq<nat>)
    ensures allText == AllText(sample)
    ensures charsPerPage == CharsPerPage(sample)
  {
    allText := "";
    charsPerPage := [];
    for i := 0 to |sample|
      invariant allText == AllText(sample[..i])
      invariant charsPerPage == CharsPerPage(sample[..i])
    {
      var t := ExtractedText(sample[i]);
      SampleSnoc(sample, i);
      allText := allText + t + "\n";
      charsPerPage := charsPerPage + [|Strip(t)|];
    }
    assert sample[..|sample|] == sample;
  }

  lemma SampleSnoc(sample: seq<Page>, i: nat)
    requires i < |sample|
    ensures AllText(sample[..i + 1]) == AllText(sample[..i]) + ExtractedText(sample[i]) + "\n"
    ensures CharsPerPage(sample[..i + 1]) == CharsPerPage(sample[..i]) + [|Strip(ExtractedText(sample[i]))|]
  {
    assert sample[..i + 1][..i] == sample[..i];
  }

  predicate AllAtLeast(xs: seq<nat>, bound: nat)
  {
    forall k :: 0 <= k < |xs| ==> xs[k] >= bound
  }

  /** Check 1: fails exactly when more than one page was sampled and one of them has fewer than 50 characters. */
  method CheckConsistency(charsPerPage: seq<nat>) returns (passed: bool)
    ensures passed <==> |charsPerPage| <= 1 || AllAtLeast(charsPerPage, MinPageChars)
  {
    var minChars := if charsPerPage != [] then MinOf(charsPerPage) else 0;
    passed := !(|charsPerPage| > 1 && minChars < MinPageChars);
  }

  /** The verdict of check 2 on the stripped non-empty lines. */
  function GarbageOf(lines: seq<string>): (g: GarbageCheck)
    ensures g.NoTextLines? <==> lines == []
    ensures g.GarbageRatio? ==> g.badLines == BadLines(lines) && g.totalLines == |lines|
    ensures g.GarbageRatio? ==> (g.passed <==> 5 * |BadLines(lines)| <= |lines|)
  {
    if lines == [] then NoTextLines
    else GarbageRatio(BadLines(lines), |lines|, 5 * |BadLines(lines)| <= |lines|)
  }

  /** Check 2: no verdict without text lines, otherwise it fails when more than 20% of the lines are garbage. */
  method CheckGarbage(lines: seq<string>) returns (garbage: GarbageCheck)
    ensures garbage == GarbageOf(lines)
  {
    if |lines| == 0 {
      return NoTextLines;
    }
    var bad := CountBadLines(lines);
    ScaledRatio(|bad|, |lines|, 1, 5);
    garbage := GarbageRatio(bad, |lines|, !RatioAbove(|bad|, |lines|, 1, 5));
  }

  /** The bad-line loop of `analyze`: `bad_lines` is the length of the list it prints. */
  method CountBadLines(lines: seq<string>) returns (bad: seq<string>)
    ensures bad == BadLines(lines)
  {
    bad := [];
    var badLines := 0;
    for i := 0 to |lines|
      invariant bad == BadLines(lines[..i]) && badLines == |bad|
    {
      if IsGarbageLine(lines[i]) {
        badLines := badLines + 1;
        bad := bad + [lines[i]];
      }
      assert lines[..i + 1][..i] == lines[..i];
    }
    assert lines[..|lines|] == lines;
  }

  // ------------------------------------------------------------ properties

  /** `bad_lines <= total_lines`: the reported lines are garbage lines of the input, at most all of them. */
  lemma {:induction false} BadLinesBound(lines: seq<string>)
    ensures |BadLines(lines)| <= |lines|
    ensures forall k :: 0 <= k < |BadLines(lines)| ==> BadLines(lines)[k] in lines && IsGarbageLine(BadLines(lines)[k])
  {
    if lines != [] {
      var init := lines[..|lines| - 1];
      BadLinesBound(init);
      assert forall l :: l in init ==> l in lines;
    }
  }

  /** Every garbage line of the input is reported. */
  lemma {:induction false} BadLinesComplete(lines: seq<string>, k: nat)
    requires k < |lines| && IsGarbageLine(lines[k])
    ensures lines[k] in BadLines(lines)
  {
    var init := lines[..|lines| - 1];
    if k < |lines| - 1 {
      assert init[k] == lines[k];
      BadLinesComplete(init, k);
    }
  }

  /** The number of stripped characters per sampled page is at most the length of its text. */
  lemma {:induction false} CharsPerPageBound(sample: seq<Page>, k: nat)
    requires k < |sample|
    ensures CharsPerPage(sample)[k] <= |ExtractedText(sample[k])|
  {
    if k < |sample| - 1 {
      CharsPerPageBound(sample[..|sample| - 1], k);
    }
  }
}
