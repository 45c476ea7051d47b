/**
 * extract_xlsx.py after the pandas step: every non-empty sheet becomes a header line, the
 * lines of its space-compressed markdown table and a blank line; while the whole text is
 * over 50000 characters the last line of a longest sheet is dropped; the kept lines of all
 * sheets are printed in workbook order, one per line.
 */
module ExtractXlsx {
  import opened Wrappers
  import opened Strings

  /** One worksheet: its name and `df.to_markdown(index=False)`, or None when the sheet is empty after dropping empty rows and columns. */
  datatype Sheet = Sheet(name: string, markdown: Option<string>)

  /** The hard cap on the printed text, in characters. */
  const SizeCap: nat := 50000

  // ------------------------------------------------------------ space compression

  /** The string without its leading spaces. */
  function SkipSpaces(s: string): (r: string)
    ensures |r| <= |s| && r == s[|s| - |r|..]
    ensures r == [] || r[0] != ' '
  {
    if s != [] && s[0] == ' ' then SkipSpaces(s[1..]) else s
  }

  /** `re.sub(r' {2,}', ' ', s)`: every run of two or more spaces becomes one space. */
  function CompressSpaces(s: string): string
    decreases |s|
  {
    if s == [] then ""
    else if |s| > 1 && s[0] == ' ' && s[1] == ' ' then " " + CompressSpaces(SkipSpaces(s))
    else [s[0]] + CompressSpaces(s[1..])
  }

  /** A reference reading of the same rewrite: drop every space that is followed by another space. */
  function Squeeze(s: string): string
  {
    if s == [] then ""
    else (if |s| > 1 && s[0] == ' ' && s[1] == ' ' then "" else [s[0]]) + Squeeze(s[1..])
  }

  predicate NoDoubleSpace(s: string)
  {
    forall i :: 0 <= i < |s| - 1 ==> !(s[i] == ' ' && s[i + 1] == ' ')
  }

  /** The characters that are not spaces, in order. */
  function NonSpaces(s: string): string
  {
    if s == [] then "" else (if s[0] == ' ' then "" else [s[0]]) + NonSpaces(s[1..])
  }

  lemma {:induction false} SqueezeRun(s: string)
    requires s != [] && s[0] == ' '
    ensures Squeeze(s) == " " + Squeeze(SkipSpaces(s))
    decreases |s|
  {
    if |s| > 1 && s[1] == ' ' {
      SqueezeRun(s[1..]);
    }
  }

  /** The regex rewrite and the reference reading agree on every string. */
  lemma {:induction false} CompressIsSqueeze(s: string)
    ensures CompressSpaces(s) == Squeeze(s)
    decreases |s|
  {
    if s != [] {
      if |s| > 1 && s[0] == ' ' && s[1] == ' ' {
        CompressIsSqueeze(SkipSpaces(s));
        SqueezeRun(s);
      } else {
        CompressIsSqueeze(s[1..]);
      }
    }
  }

  /** A non-empty string compresses to a string that starts with the same character. */
  lemma CompressHead(s: string)
    requires s != []
    ensures CompressSpaces(s) != [] && CompressSpaces(s)[0] == s[0]
  {
  }

  /** After compression no two spaces are adjacent. */
  lemma {:induction false} CompressNoDoubleSpace(s: string)
    ensures NoDoubleSpace(CompressSpaces(s))
    decreases |s|
  {
    if s != [] {
      var r := CompressSpaces(s);
      if |s| > 1 && s[0] == ' ' && s[1] == ' ' {
        var t := SkipSpaces(s);
        CompressNoDoubleSpace(t);
        if t != [] {
          CompressHead(t);
        }
        assert r == " " + CompressSpaces(t);
        forall i | 0 <= i < |r| - 1 ensures !(r[i] == ' ' && r[i + 1] == ' ') {
          if i > 0 {
            assert r[i] == CompressSpaces(t)[i - 1] && r[i + 1] == CompressSpaces(t)[i];
          }
        }
      } else {
        var t := s[1..];
        CompressNoDoubleSpace(t);
        if t != [] {
          CompressHead(t);
        }
        assert r == [s[0]] + CompressSpaces(t);
        forall i | 0 <= i < |r| - 1 ensures !(r[i] == ' ' && r[i + 1] == ' ') {
          if i > 0 {
            assert r[i] == CompressSpaces(t)[i - 1] && r[i + 1] == CompressSpaces(t)[i];
          }
        }
      }
    }
  }

  lemma {:induction false} NonSpacesSkip(s: string)
    ensures NonSpaces(SkipSpaces(s)) == NonSpaces(s)
  {
    if s != [] && s[0] == ' ' {
      NonSpacesSkip(s[1..]);
    }
  }

  /** Compression keeps every other character, newlines included, in order. */
  lemma {:induction false} CompressKeepsNonSpaces(s: string)
    ensures NonSpaces(CompressSpaces(s)) == NonSpaces(s)
    decreases |s|
  {
    if s != [] {
      if |s| > 1 && s[0] == ' ' && s[1] == ' ' {
        var t := SkipSpaces(s);
        CompressKeepsNonSpaces(t);
        NonSpacesSkip(s);
        assert (" " + CompressSpaces(t))[1..] == CompressSpaces(t);
      } else {
        CompressKeepsNonSpaces(s[1..]);
        assert ([s[0]] + CompressSpaces(s[1..]))[1..] == CompressSpaces(s[1..]);
      }
    }
  }

  /** A string without adjacent spaces is left as it is. */
  lemma {:induction false} CompressNoop(s: string)
    requires NoDoubleSpace(s)
    ensures CompressSpaces(s) == s
    decreases |s|
  {
    if s != [] {
      assert NoDoubleSpace(s[1..]) by {
        forall i | 0 <= i < |s[1..]| - 1 ensures !(s[1..][i] == ' ' && s[1..][i + 1] == ' ') {
          assert s[1..][i] == s[i + 1] && s[1..][i + 1] == s[i + 2];
        }
      }
      CompressNoop(s[1..]);
    }
  }

  /** Compressing twice is compressing once. */
  lemma CompressIdempotent(s: string)
    ensures CompressSpaces(CompressSpaces(s)) == CompressSpaces(s)
  {
    CompressNoDoubleSpace(s);
    CompressNoop(CompressSpaces(s));
  }

  // ------------------------------------------------------------ sheet lines and sizes

  /** `sheet_lines[sheet_name]` for a kept sheet; an empty sheet has no entry, which the rest of the code treats like an empty list. */
  function SheetLines(sheet: Sheet): (lines: seq<string>)
    ensures sheet.markdown.None? <==> lines == []
  {
    match sheet.markdown
    case None => []
    case Some(md) => ["## Sheet: " + sheet.name] + Split(CompressSpaces(md), '\n') + [""]
  }

  /** `sum(len(line) + 1 for line in lines)`. */
  function LineSize(lines: seq<string>): nat
  {
    if lines == [] then 0 else LineSize(lines[..|lines| - 1]) + |lines[|lines| - 1]| + 1
  }

  /** The sizes of all sheets together. */
  function TotalSize(ls: seq<seq<string>>): nat
  {
    if ls == [] then 0 else TotalSize(ls[..|ls| - 1]) + LineSize(ls[|ls| - 1])
  }

  /** The number of lines of all sheets together. */
  function LineCount(ls: seq<seq<string>>): nat
  {
    if ls == [] then 0 else LineCount(ls[..|ls| - 1]) + |ls[|ls| - 1]|
  }

  /** Replacing one sheet's lines changes the totals by the difference for that sheet alone. */
  lemma {:induction false} TotalsUpdate(ls: seq<seq<string>>, k: nat, lines: seq<string>)
    requires k < |ls|
    ensures TotalSize(ls[k := lines]) == TotalSize(ls) - LineSize(ls[k]) + LineSize(lines)
    ensures LineCount(ls[k := lines]) == LineCount(ls) - |ls[k]| + |lines|
  {
    var n := |ls| - 1;
    if k < n {
      assert ls[k := lines][..n] == ls[..n][k := lines];
      TotalsUpdate(ls[..n], k, lines);
    } else {
      assert ls[k := lines][..n] == ls[..n];
    }
  }

  /** With no line left in any sheet the size is zero. */
  lemma {:induction false} EmptySheetsSize(ls: seq<seq<string>>)
    requires forall k :: 0 <= k < |ls| ==> ls[k] == []
    ensures TotalSize(ls) == 0
  {
    if ls != [] {
      EmptySheetsSize(ls[..|ls| - 1]);
    }
  }

  lemma SnocTotalSize(ls: seq<seq<string>>, lines: seq<string>)
    ensures TotalSize(ls + [lines]) == TotalSize(ls) + LineSize(lines)
  {
    assert (ls + [lines])[..|ls|] == ls;
  }

  /** The line lists of all sheets, in workbook order. */
  function InitialLines(sheets: seq<Sheet>): (ls: seq<seq<string>>)
    ensures |ls| == |sheets|
    ensures forall k :: 0 <= k < |sheets| ==> ls[k] == SheetLines(sheets[k])
  {
    if sheets == [] then [] else InitialLines(sheets[..|sheets| - 1]) + [SheetLines(sheets[|sheets| - 1])]
  }

  lemma InitialLinesSnoc(sheets: seq<Sheet>, i: nat)
    requires i < |sheets|
    ensures InitialLines(sheets[..i + 1]) == InitialLines(sheets[..i]) + [SheetLines(sheets[i])]
  {
    assert sheets[..i + 1][..i] == sheets[..i];
  }

  function Names(sheets: seq<Sheet>): (names: seq<string>)
    ensures |names| == |sheets|
    ensures forall k :: 0 <= k < |sheets| ==> names[k] == sheets[k].name
  {
    seq(|sheets|, k requires 0 <= k < |sheets| => sheets[k].name)
  }

  /** A string without adjacent spaces keeps none in any prefix. */
  lemma NoDoubleSpacePrefix(p: string, s: string)
    requires p <= s && NoDoubleSpace(s)
    ensures NoDoubleSpace(p)
  {
    forall i | 0 <= i < |p| - 1 ensures !(p[i] == ' ' && p[i + 1] == ' ') {
      assert p[i] == s[i] && p[i + 1] == s[i + 1];
    }
  }

  /** Splitting a string without adjacent spaces gives lines without adjacent spaces. */
  lemma {:induction false} SplitNoDoubleSpace(s: string, sep: char)
    requires NoDoubleSpace(s)
    ensures forall k :: 0 <= k < |Split(s, sep)| ==> NoDoubleSpace(Split(s, sep)[k])
  {
    if s != [] {
      var t := s[1..];
      assert NoDoubleSpace(t) by {
        forall i | 0 <= i < |t| - 1 ensures !(t[i] == ' ' && t[i + 1] == ' ') {
          assert t[i] == s[i + 1] && t[i + 1] == s[i + 2];
        }
      }
      SplitNoDoubleSpace(t, sep);
      var rest := Split(t, sep);
      if s[0] != sep {
        SplitHeadPrefix(t, sep);
        assert [s[0]] + rest[0] <= s by {
          assert s == [s[0]] + t;
        }
        NoDoubleSpacePrefix([s[0]] + rest[0], s);
      }
    }
  }

  /**
   * The lines of a kept sheet: the header naming it, the lines that join back into its
   * compressed table, none of them with two adjacent spaces, and a blank line.
   */
  predicate SheetShape(name: string, md: string, lines: seq<string>)
  {
    && |lines| >= 3
    && lines[0] == "## Sheet: " + name
    && lines[|lines| - 1] == ""
    && Join("\n", lines[1..|lines| - 1]) == CompressSpaces(md)
    && (forall k :: 1 <= k < |lines| - 1 ==> NoDoubleSpace(lines[k]))
  }

  /** Every kept sheet's lines have that shape. */
  lemma SheetLinesShape(sheet: Sheet)
    requires sheet.markdown.Some?
    ensures SheetShape(sheet.name, sheet.markdown.value, SheetLines(sheet))
  {
    var c := CompressSpaces(sheet.markdown.value);
    var body := Split(c, '\n');
    var lines := SheetLines(sheet);
    assert lines == ["## Sheet: " + sheet.name] + body + [""];
    assert lines[1..|lines| - 1] == body;
    JoinSplit(c, '\n');
    CompressNoDoubleSpace(sheet.markdown.value);
    SplitNoDoubleSpace(c, '\n');
    forall k | 1 <= k < |lines| - 1 ensures NoDoubleSpace(lines[k]) {
      assert lines[k] == body[k - 1];
    }
  }

  /** The body of the build loop for one sheet: its header, its table lines and a blank line; nothing for an empty sheet. */
  method BuildSheet(sheet: Sheet) returns (lines: seq<string>)
    ensures lines == SheetLines(sheet)
    ensures sheet.markdown.None? ==> lines == []
    ensures sheet.markdown.Some? ==> SheetShape(sheet.name, sheet.markdown.value, lines)
  {
    lines := [];
    if sheet.markdown.Some? {
      var md := CompressSpaces(sheet.markdown.value);
      lines := ["## Sheet: " + sheet.name] + Split(md, '\n') + [""];
      SheetLinesShape(sheet);
    }
  }

  /** The build loop: `sheet_lines` and `total_size`, which is the size of everything built. */
  method BuildSheetLines(sheets: seq<Sheet>) returns (sheetLines: seq<seq<string>>, totalSize: nat)
    ensures sheetLines == InitialLines(sheets)
    ensures totalSize == TotalSize(sheetLines)
  {
    sheetLines, totalSize := [], 0;
    for i := 0 to |sheets|
      invariant sheetLines == InitialLines(sheets[..i])
      invariant totalSize == TotalSize(sheetLines)
    {
      var lines := BuildSheet(sheets[i]);
      SnocTotalSize(sheetLines, lines);
      InitialLinesSnoc(sheets, i);
      sheetLines := sheetLines + [lines];
      totalSize := totalSize + LineSize(lines);
    }
    assert sheets[..|sheets|] == sheets;
  }

  // ------------------------------------------------------------ the trim loop

  /**
   * `max((s for s in sheet_lines if sheet_lines[s]), key=lambda s: len(sheet_lines[s]), default=None)`:
   * the first non-empty sheet with the most lines, or None when every sheet is empty.
   */
  function Longest(ls: seq<seq<string>>): (r: Option<nat>)
    ensures r.None? <==> forall k :: 0 <= k < |ls| ==> ls[k] == []
    ensures r.Some? ==> r.value < |ls| && ls[r.value] != []
    ensures r.Some? ==> forall k :: 0 <= k < |ls| ==> |ls[k]| <= |ls[r.value]|
    ensures r.Some? ==> forall k :: 0 <= k < r.value ==> |ls[k]| < |ls[r.value]|
  {
    if ls == [] then None
    else
      var n := |ls| - 1;
      var best := Longest(ls[..n]);
      assert forall k :: 0 <= k < n ==> ls[..n][k] == ls[k];
      if best.None? then (if ls[n] != [] then Some(n) else None)
      else if |ls[n]| > |ls[best.value]| then Some(n)
      else best
  }

  /** The loop as a function of the sheet names (which decide `if not max_sheet`) and the line lists. */
  function TrimFrom(names: seq<string>, ls: seq<seq<string>>): seq<seq<string>>
    requires |names| == |ls|
    decreases LineCount(ls)
  {
    if TotalSize(ls) <= SizeCap then ls
    else
      match Longest(ls)
      case None => ls
      case Some(k) =>
        if names[k] == "" then ls
        else
          var popped := ls[k := ls[k][..|ls[k]| - 1]];
          TotalsUpdate(ls, k, ls[k][..|ls[k]| - 1]);
          TrimFrom(names, popped)
  }

  /** The `while total_size > 50000` loop: pops the last line of a longest sheet, and keeps `total_size` in step. */
  method TrimToBudget(names: seq<string>, sheetLines: seq<seq<string>>, totalSize: nat)
    returns (trimmed: seq<seq<string>>, size: nat)
    requires |names| == |sheetLines| && totalSize == TotalSize(sheetLines)
    ensures trimmed == TrimFrom(names, sheetLines)
    ensures size == TotalSize(trimmed)
  {
    trimmed, size := sheetLines, totalSize;
    while size > SizeCap
      invariant |trimmed| == |names| && size == TotalSize(trimmed)
      invariant TrimFrom(names, trimmed) == TrimFrom(names, sheetLines)
      decreases LineCount(trimmed)
    {
      var maxSheet := Longest(trimmed);
      if maxSheet.None? || names[maxSheet.value] == "" {
        break;
      }
      var k := maxSheet.value;
      var popped := trimmed[k][|trimmed[k]| - 1];
      TotalsUpdate(trimmed, k, trimmed[k][..|trimmed[k]| - 1]);
      trimmed := trimmed[k := trimmed[k][..|trimmed[k]| - 1]];
      size := size - (|popped| + 1);
    }
  }

  /** Trimming only ever drops lines from the end of a sheet. */
  lemma {:induction false} TrimKeepsPrefixes(names: seq<string>, ls: seq<seq<string>>)
    requires |names| == |ls|
    ensures |TrimFrom(names, ls)| == |ls|
    ensures forall k :: 0 <= k < |ls| ==> TrimFrom(names, ls)[k] <= ls[k]
    decreases LineCount(ls)
  {
    if TotalSize(ls) > SizeCap && Longest(ls).Some? && names[Longest(ls).value] != "" {
      var k := Longest(ls).value;
      var popped := ls[k := ls[k][..|ls[k]| - 1]];
      TotalsUpdate(ls, k, ls[k][..|ls[k]| - 1]);
      var r := TrimFrom(names, popped);
      assert TrimFrom(names, ls) == r;
      TrimKeepsPrefixes(names, popped);
      forall j | 0 <= j < |ls| ensures r[j] <= ls[j] {
        PrefixTrans(r[j], popped[j], ls[j]);
      }
    } else {
      assert TrimFrom(names, ls) == ls;
    }
  }

  lemma PrefixTrans(a: seq<string>, b: seq<string>, c: seq<string>)
    requires a <= b && b <= c
    ensures a <= c
  {
    assert a == b[..|a|] && b == c[..|b|];
    assert c[..|b|][..|a|] == c[..|a|];
  }

  /** When no sheet is named "", the trimmed sheets fit in the budget. */
  lemma {:induction false} TrimWithinBudget(names: seq<string>, ls: seq<seq<string>>)
    requires |names| == |ls|
    requires forall k :: 0 <= k < |names| ==> names[k] != ""
    ensures TotalSize(TrimFrom(names, ls)) <= SizeCap
    decreases LineCount(ls)
  {
    if TotalSize(ls) > SizeCap {
      match Longest(ls)
      case None =>
        EmptySheetsSize(ls);
      case Some(k) =>
        var popped := ls[k := ls[k][..|ls[k]| - 1]];
        TotalsUpdate(ls, k, ls[k][..|ls[k]| - 1]);
        TrimWithinBudget(names, popped);
    }
  }

  // ------------------------------------------------------------ the printed text

  /** `final_lines`: the lines of every sheet, in workbook order. */
  function Concat(ls: seq<seq<string>>): seq<string>
  {
    if ls == [] then [] else Concat(ls[..|ls| - 1]) + ls[|ls| - 1]
  }

  /** The final loop, the join, and the newline `print` writes after it. */
  method AssembleText(ls: seq<seq<string>>) returns (text: string)
    ensures text == Join("\n", Concat(ls)) + "\n"
  {
    var finalLines: seq<string> := [];
    for i := 0 to |ls|
      invariant finalLines == Concat(ls[..i])
    {
      assert ls[..i + 1][..i] == ls[..i];
      if ls[i] != [] {
        finalLines := finalLines + ls[i];
      }
    }
    assert ls[..|ls|] == ls;
    text := Join("\n", finalLines) + "\n";
  }

  lemma {:induction false} TotalLengthAppend(a: seq<string>, b: seq<string>)
    ensures TotalLength(a + b) == TotalLength(a) + TotalLength(b)
    decreases |b|
  {
    if b != [] {
      assert (a + b)[..|a + b| - 1] == a + b[..|b| - 1];
      TotalLengthAppend(a, b[..|b| - 1]);
    } else {
      assert a + b == a;
    }
  }

  lemma {:induction false} LineSizeLength(lines: seq<string>)
    ensures LineSize(lines) == TotalLength(lines) + |lines|
  {
    if lines != [] {
      LineSizeLength(lines[..|lines| - 1]);
    }
  }

  /** `total_size` counts every printed line with one newline after it. */
  lemma {:induction false} TotalSizeConcat(ls: seq<seq<string>>)
    ensures TotalSize(ls) == TotalLength(Concat(ls)) + |Concat(ls)|
  {
    if ls != [] {
      var n := |ls| - 1;
      TotalSizeConcat(ls[..n]);
      TotalLengthAppend(Concat(ls[..n]), ls[n]);
      LineSizeLength(ls[n]);
    }
  }

  /** The printed text, with its final newline, is exactly `total_size` long, or one newline when no line is left. */
  lemma OutputWithinSize(ls: seq<seq<string>>)
    ensures |Join("\n", Concat(ls)) + "\n"| == if TotalSize(ls) == 0 then 1 else TotalSize(ls)
  {
    TotalSizeConcat(ls);
    if Concat(ls) != [] {
      JoinLength("\n", Concat(ls));
    }
  }

  /** When no sheet is named "", the printed text of the whole workbook, final newline included, fits in 50000 characters. */
  lemma ExtractWithinCap(sheets: seq<Sheet>)
    requires forall k :: 0 <= k < |sheets| ==> sheets[k].name != ""
    ensures |Join("\n", Concat(TrimFrom(Names(sheets), InitialLines(sheets)))) + "\n"| <= SizeCap
  {
    var names, ls := Names(sheets), InitialLines(sheets);
    TrimWithinBudget(names, ls);
    OutputWithinSize(TrimFrom(names, ls));
  }

  /** `extract_xlsx(input_path)` from the markdown of each sheet to the printed text, final newline included. */
  method ExtractSheets(sheets: seq<Sheet>) returns (text: string)
    ensures text == Join("\n", Concat(TrimFrom(Names(sheets), InitialLines(sheets)))) + "\n"
    ensures (forall k :: 0 <= k < |sheets| ==> sheets[k].name != "") ==> |text| <= SizeCap
  {
    var sheetLines, totalSize := BuildSheetLines(sheets);
    var trimmed, size := TrimToBudget(Names(sheets), sheetLines, totalSize);
    text := AssembleText(trimmed);
    if forall k :: 0 <= k < |sheets| ==> sheets[k].name != "" {
      ExtractWithinCap(sheets);
    }
  }
}
