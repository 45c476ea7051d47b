/**
 * The segment assembler of `analyze_pdf` (pre_analyze.py): how the per-page verdicts are
 * turned into the `documents` list. A run of text-dominant pages is accumulated and flushed
 * as one "document" segment when a page of another kind arrives and at the end; any other
 * page that is not dropped emits its own segments at once. `Step` is one turn of the page
 * loop and `AssembleFrom` the loop as a fold; the lemmas below state what the fold
 * guarantees about the segments.
 */
module Segments {

  /** What the page loop decides for a page. */
  datatype PageKind = Dropped | TextDocument | FullPage | SplitTopBottom | SplitLeftRight

  datatype PageVerdict = PageVerdict(kind: PageKind, cover: real)

  datatype SegmentKind = DocumentRun | FullPageSegment | TopHalf | BottomHalf | LeftHalf | RightHalf

  /** One entry of `documents`: its page numbers, its type and its `image_cover` (unrounded). */
  datatype Segment = Segment(pages: seq<nat>, kind: SegmentKind, imageCover: real)

  function Sum(xs: seq<real>): real
  {
    if xs == [] then 0.0 else Sum(xs[..|xs| - 1]) + xs[|xs| - 1]
  }

  /** `sum(covers) / len(covers)`; the assembler only ever averages a non-empty run. */
  function Average(xs: seq<real>): real
  {
    if xs == [] then 0.0 else Sum(xs) / (|xs| as real)
  }

  /** The mean of a run lies between its smallest and its largest coverage. */
  lemma AverageBounds(xs: seq<real>, lo: real, hi: real)
    requires |xs| > 0
    requires forall k :: 0 <= k < |xs| ==> lo <= xs[k] <= hi
    ensures lo <= Average(xs) <= hi
  {
    SumBounds(xs, lo, hi);
    var n := |xs| as real;
    assert lo * n <= Sum(xs) <= hi * n;
  }

  lemma {:induction false} SumBounds(xs: seq<real>, lo: real, hi: real)
    requires forall k :: 0 <= k < |xs| ==> lo <= xs[k] <= hi
    ensures lo * (|xs| as real) <= Sum(xs) <= hi * (|xs| as real)
  {
    if xs != [] {
      SumBounds(xs[..|xs| - 1], lo, hi);
      assert lo <= xs[|xs| - 1] <= hi;
    }
  }

  /** Flushing the pending run: one "document" segment when the run is not empty. */
  function Flush(pending: seq<nat>, covers: seq<real>): seq<Segment>
  {
    if pending == [] then [] else [Segment(pending, DocumentRun, Average(covers))]
  }

  /** The segments a page that is neither dropped nor text-dominant emits at once. */
  function PageSegments(v: PageVerdict, page: nat): seq<Segment>
  {
    match v.kind
    case FullPage => [Segment([page], FullPageSegment, v.cover)]
    case SplitTopBottom => [Segment([page], TopHalf, v.cover), Segment([page], BottomHalf, v.cover)]
    case SplitLeftRight => [Segment([page], LeftHalf, v.cover), Segment([page], RightHalf, v.cover)]
    case _ => []
  }

  /** What the page loop carries: `current_text_doc_pages`, `current_text_doc_covers` and `documents`. */
  datatype Assembly = Assembly(pending: seq<nat>, covers: seq<real>, docs: seq<Segment>)

  /**
   * One turn of the page loop on page `page` with verdict `v`. A dropped page changes
   * nothing, not even the pending run; a text-dominant page joins the run; any other page
   * flushes the run and emits its own segments.
   */
  function Step(st: Assembly, v: PageVerdict, page: nat): Assembly
  {
    match v.kind
    case Dropped => st
    case TextDocument => Assembly(st.pending + [page], st.covers + [v.cover], st.docs)
    case _ => Assembly([], [], st.docs + Flush(st.pending, st.covers) + PageSegments(v, page))
  }

  /** After the loop: the leftover run is flushed. */
  function Finish(st: Assembly): seq<Segment>
  {
    st.docs + Flush(st.pending, st.covers)
  }

  /** The page loop from index `i` on, as a fold of `Step`. */
  function AssembleFrom(vs: seq<PageVerdict>, i: nat, st: Assembly): seq<Segment>
    decreases |vs| - i
  {
    if i >= |vs| then Finish(st) else AssembleFrom(vs, i + 1, Step(st, vs[i], i + 1))
  }

  /** `documents` for a document whose pages got the verdicts `vs`. */
  function Assemble(vs: seq<PageVerdict>): seq<Segment>
  {
    AssembleFrom(vs, 0, Assembly([], [], []))
  }

  /** `documentCount`: only reassigned when there is more than one segment, so 1 otherwise, even for none. */
  function DocumentCount(docs: seq<Segment>): (n: nat)
    ensures n >= 1
    ensures |docs| > 1 ==> n == |docs|
    ensures |docs| <= 1 ==> n == 1
  {
    if |docs| > 1 then |docs| else 1
  }

  // ------------------------------------------------------------ which pages the segments list

  /** All page numbers of the segments, segment after segment. */
  function Flatten(docs: seq<Segment>): seq<nat>
  {
    if docs == [] then [] else Flatten(docs[..|docs| - 1]) + docs[|docs| - 1].pages
  }

  lemma {:induction false} FlattenAppend(a: seq<Segment>, b: seq<Segment>)
    ensures Flatten(a + b) == Flatten(a) + Flatten(b)
    decreases |b|
  {
    if b != [] {
      var init := b[..|b| - 1];
      assert (a + b)[..|a + b| - 1] == a + init;
      FlattenAppend(a, init);
    } else {
      assert a + b == a;
    }
  }

  lemma FlushFlatten(pending: seq<nat>, covers: seq<real>)
    ensures Flatten(Flush(pending, covers)) == pending
  {
    if pending != [] {
      var fl := Flush(pending, covers);
      assert fl[..0] == [];
    }
  }

  /** The page numbers a page contributes: none when dropped, twice when split, else once. */
  function PagesOf(v: PageVerdict, page: nat): seq<nat>
  {
    match v.kind
    case Dropped => []
    case SplitTopBottom => [page, page]
    case SplitLeftRight => [page, page]
    case _ => [page]
  }

  lemma PageSegmentsFlatten(v: PageVerdict, page: nat)
    requires v.kind != Dropped && v.kind != TextDocument
    ensures Flatten(PageSegments(v, page)) == PagesOf(v, page)
  {
    var ps := PageSegments(v, page);
    assert ps[..0] == [];
    match v.kind
    case FullPage =>
    case SplitTopBottom =>
      assert ps[..1] == [ps[0]] && [ps[0]][..0] == [];
      assert Flatten(ps[..1]) == [page];
    case SplitLeftRight =>
      assert ps[..1] == [ps[0]] && [ps[0]][..0] == [];
      assert Flatten(ps[..1]) == [page];
  }

  /** The page numbers of the verdicts from index `i` on. */
  function ExpandFrom(vs: seq<PageVerdict>, i: nat): seq<nat>
    requires i <= |vs|
    decreases |vs| - i
  {
    if i == |vs| then [] else PagesOf(vs[i], i + 1) + ExpandFrom(vs, i + 1)
  }

  /** The pages listed so far: those of the emitted segments, then the pending run. */
  function Listed(st: Assembly): seq<nat>
  {
    Flatten(st.docs) + st.pending
  }

  /** One turn of the loop lists exactly the pages its verdict contributes. */
  lemma StepListed(st: Assembly, v: PageVerdict, page: nat)
        ensures Listed(Step(st, v, page)) == Listed(st) + PagesOf(v, page)
  {
    if v.kind != Dropped && v.kind != TextDocument {
      var fl := Flush(st.pending, st.covers);
      FlattenAppend(st.docs + fl, PageSegments(v, page));
      FlattenAppend(st.docs, fl);
      FlushFlatten(st.pending, st.covers);
      PageSegmentsFlatten(v, page);
    }
  }

  /** One unfolding of the fold: the flattening claim for index `i + 1` gives it for index `i`. */
  lemma FlattenUnfold(vs: seq<PageVerdict>, i: nat, st: Assembly)
    requires i < |vs|
    requires Flatten(AssembleFrom(vs, i + 1, Step(st, vs[i], i + 1))) ==
               Listed(Step(st, vs[i], i + 1)) + ExpandFrom(vs, i + 1)
    ensures Flatten(AssembleFrom(vs, i, st)) == Listed(st) + ExpandFrom(vs, i)
  {
    var st' := Step(st, vs[i], i + 1);
    assert AssembleFrom(vs, i, st) == AssembleFrom(vs, i + 1, st');
    StepListed(st, vs[i], i + 1);
    var l, q, e := Listed(st), PagesOf(vs[i], i + 1), ExpandFrom(vs, i + 1);
    assert ExpandFrom(vs, i) == q + e;
    AppendAssoc(l, q, e);
  }

  lemma AppendAssoc(a: seq<nat>, b: seq<nat>, c: seq<nat>)
    ensures a + b + c == a + (b + c)
  {
  }

  /** The fold's segments list exactly the pages listed so far, then the pages still to come. */
  lemma {:induction false} AssembleFromFlatten(vs: seq<PageVerdict>, i: nat, st: Assembly)
    requires i <= |vs|
    ensures Flatten(AssembleFrom(vs, i, st)) == Listed(st) + ExpandFrom(vs, i)
    decreases |vs| - i
  {
    if i == |vs| {
      FlattenAppend(st.docs, Flush(st.pending, st.covers));
      FlushFlatten(st.pending, st.covers);
    } else {
      AssembleFromFlatten(vs, i + 1, Step(st, vs[i], i + 1));
      FlattenUnfold(vs, i, st);
    }
  }

  /** How many times a page with this verdict is listed in the segments. */
  function Copies(k: PageKind): nat
  {
    match k
    case Dropped => 0
    case SplitTopBottom => 2
    case SplitLeftRight => 2
    case _ => 1
  }

  lemma PagesOfCount(v: PageVerdict, p: nat, page: nat)
    ensures multiset(PagesOf(v, p))[page] == if page == p then Copies(v.kind) else 0
  {
    var ps := PagesOf(v, p);
    if |ps| == 2 {
      assert ps == [p] + [p];
      assert multiset(ps) == multiset{p} + multiset{p};
    } else if |ps| == 1 {
      assert multiset(ps) == multiset{p};
    } else {
      assert multiset(ps) == multiset{};
    }
  }

  /** Every page number from `i + 1` on is counted as often as its verdict says; none before. */
  lemma {:induction false} ExpandFromCount(vs: seq<PageVerdict>, i: nat, page: nat)
    requires i <= |vs|
    ensures multiset(ExpandFrom(vs, i))[page] == if i < page <= |vs| then Copies(vs[page - 1].kind) else 0
    decreases |vs| - i
  {
    if i < |vs| {
      ExpandFromCount(vs, i + 1, page);
      PagesOfCount(vs[i], i + 1, page);
      assert multiset(ExpandFrom(vs, i)) == multiset(PagesOf(vs[i], i + 1)) + multiset(ExpandFrom(vs, i + 1));
    }
  }

  /** The page numbers from `i + 1` on come out in non-decreasing order. */
  lemma {:induction false} ExpandFromOrdered(vs: seq<PageVerdict>, i: nat)
    requires i <= |vs|
    ensures forall a :: 0 <= a < |ExpandFrom(vs, i)| ==> i < ExpandFrom(vs, i)[a] <= |vs|
    ensures forall a, b :: 0 <= a < b < |ExpandFrom(vs, i)| ==> ExpandFrom(vs, i)[a] <= ExpandFrom(vs, i)[b]
    decreases |vs| - i
  {
    if i < |vs| {
      ExpandFromOrdered(vs, i + 1);
      PagesOfConst(vs[i], i + 1);
      ConstThenSorted(PagesOf(vs[i], i + 1), ExpandFrom(vs, i + 1), i + 1, |vs|);
    }
  }

  lemma PagesOfConst(v: PageVerdict, page: nat)
    ensures forall a :: 0 <= a < |PagesOf(v, page)| ==> PagesOf(v, page)[a] == page
  {
  }

  /** Copies of one page number followed by larger, sorted page numbers are sorted. */
  lemma ConstThenSorted(q: seq<nat>, e: seq<nat>, page: nat, hi: nat)
    requires page <= hi
    requires forall a :: 0 <= a < |q| ==> q[a] == page
    requires forall a :: 0 <= a < |e| ==> page < e[a] <= hi
    requires forall a, b :: 0 <= a < b < |e| ==> e[a] <= e[b]
    ensures forall a :: 0 <= a < |q + e| ==> page <= (q + e)[a] <= hi
    ensures forall a, b :: 0 <= a < b < |q + e| ==> (q + e)[a] <= (q + e)[b]
  {
    var r := q + e;
    forall a, b | 0 <= a < b < |r| ensures r[a] <= r[b] {
      if b < |q| {
        assert r[a] == q[a] && r[b] == q[b];
      } else if a < |q| {
        assert r[a] == q[a] && r[b] == e[b - |q|];
      } else {
        assert r[a] == e[a - |q|] && r[b] == e[b - |q|];
      }
    }
    forall a | 0 <= a < |r| ensures page <= r[a] <= hi {
      if a < |q| {
        assert r[a] == q[a];
      } else {
        assert r[a] == e[a - |q|];
      }
    }
  }

  lemma AssembleFlatten(vs: seq<PageVerdict>)
    ensures Flatten(Assemble(vs)) == ExpandFrom(vs, 0)
  {
    var st := Assembly([], [], []);
    AssembleFromFlatten(vs, 0, st);
    assert Listed(st) == [];
  }

  /**
   * Each non-dropped page appears in the segments once, or twice when it was split; a
   * dropped page, or a number that is no page, not at all.
   */
  lemma SegmentPageCounts(vs: seq<PageVerdict>, page: nat)
    ensures multiset(Flatten(Assemble(vs)))[page] == if 1 <= page <= |vs| then Copies(vs[page - 1].kind) else 0
  {
    AssembleFlatten(vs);
    ExpandFromCount(vs, 0, page);
  }

  /** Page numbers never decrease from one segment to the next, and every one is a page of the document. */
  lemma SegmentPagesOrdered(vs: seq<PageVerdict>)
    ensures forall a :: 0 <= a < |Flatten(Assemble(vs))| ==> 1 <= Flatten(Assemble(vs))[a] <= |vs|
    ensures forall a, b :: 0 <= a < b < |Flatten(Assemble(vs))| ==> Flatten(Assemble(vs))[a] <= Flatten(Assemble(vs))[b]
  {
    AssembleFlatten(vs);
    ExpandFromOrdered(vs, 0);
  }

  // ------------------------------------------------------------ what each segment holds

  /** Every page strictly between page `a` and page `b` was dropped. */
  predicate OnlyDroppedBetween(vs: seq<PageVerdict>, a: nat, b: nat)
  {
    forall j :: a <= j < b - 1 && j < |vs| ==> vs[j].kind == Dropped
  }

  /** A run of text pages: strictly increasing page numbers of text-dominant pages, with only dropped pages between them. */
  predicate IsRun(vs: seq<PageVerdict>, ps: seq<nat>)
  {
    && (forall j :: 0 <= j < |ps| ==> 1 <= ps[j] <= |vs| && vs[ps[j] - 1].kind == TextDocument)
    && (forall a, b :: 0 <= a < b < |ps| ==> ps[a] < ps[b])
    && (forall j :: 0 <= j < |ps| - 1 ==> OnlyDroppedBetween(vs, ps[j], ps[j + 1]))
  }

  /** The coverage of each page of a run, in order. */
  function CoversOf(vs: seq<PageVerdict>, ps: seq<nat>): (cs: seq<real>)
    requires forall j :: 0 <= j < |ps| ==> 1 <= ps[j] <= |vs|
    ensures |cs| == |ps|
  {
    if ps == [] then []
    else
      var last := ps[|ps| - 1];
      CoversOf(vs, ps[..|ps| - 1]) + [vs[last - 1].cover]
  }

  /** Entry `j` of the coverages is the coverage of page `ps[j]`. */
  lemma {:induction false} CoversOfAt(vs: seq<PageVerdict>, ps: seq<nat>)
    requires forall j :: 0 <= j < |ps| ==> 1 <= ps[j] <= |vs|
    ensures forall j :: 0 <= j < |ps| ==> CoversOf(vs, ps)[j] == vs[ps[j] - 1].cover
  {
    if ps != [] {
      var init := ps[..|ps| - 1];
      var cs, ci := CoversOf(vs, ps), CoversOf(vs, init);
      CoversOfAt(vs, init);
      assert cs == ci + [vs[ps[|ps| - 1] - 1].cover];
      forall j | 0 <= j < |ps| ensures cs[j] == vs[ps[j] - 1].cover {
        if j < |init| {
          assert init[j] == ps[j] && cs[j] == ci[j];
        } else {
          assert j == |ci|;
        }
      }
    }
  }

  /** A single-page segment whose page got the verdict `kind`, with that page's coverage. */
  predicate SinglePage(vs: seq<PageVerdict>, s: Segment, kind: PageKind)
  {
    |s.pages| == 1 && 1 <= s.pages[0] <= |vs| && vs[s.pages[0] - 1].kind == kind &&
    s.imageCover == vs[s.pages[0] - 1].cover
  }

  /**
   * A segment that the page loop can emit: a text run with the mean coverage of its pages,
   * or one page with its own coverage whose verdict matches the segment type.
   */
  predicate SegmentOk(vs: seq<PageVerdict>, s: Segment)
  {
    match s.kind
    case DocumentRun => |s.pages| > 0 && IsRun(vs, s.pages) && s.imageCover == Average(CoversOf(vs, s.pages))
    case FullPageSegment => SinglePage(vs, s, FullPage)
    case TopHalf => SinglePage(vs, s, SplitTopBottom)
    case BottomHalf => SinglePage(vs, s, SplitTopBottom)
    case LeftHalf => SinglePage(vs, s, SplitLeftRight)
    case RightHalf => SinglePage(vs, s, SplitLeftRight)
  }

  predicate AllOk(vs: seq<PageVerdict>, docs: seq<Segment>)
  {
    forall k :: 0 <= k < |docs| ==> SegmentOk(vs, docs[k])
  }

  /**
   * The state the page loop keeps before page `i + 1`: the pending run is a run of pages up
   * to page `i`, followed by dropped pages only, with their coverages; the segments so far
   * are well formed.
   */
  predicate StateOk(vs: seq<PageVerdict>, i: nat, st: Assembly)
  {
    && PendingOk(vs, i, st.pending)
    && st.covers == CoversOf(vs, st.pending)
    && AllOk(vs, st.docs)
  }

  /** The pending run: a run of pages up to page `i`, followed by dropped pages only. */
  predicate PendingOk(vs: seq<PageVerdict>, i: nat, ps: seq<nat>)
  {
    && IsRun(vs, ps)
    && (forall j :: 0 <= j < |ps| ==> ps[j] <= i)
    && (ps != [] ==> OnlyDroppedBetween(vs, ps[|ps| - 1], i + 1))
  }

  lemma AllOkAppend(vs: seq<PageVerdict>, a: seq<Segment>, b: seq<Segment>)
    requires AllOk(vs, a) && AllOk(vs, b)
    ensures AllOk(vs, a + b)
  {
    forall k | 0 <= k < |a + b| ensures SegmentOk(vs, (a + b)[k]) {
      if k < |a| {
        assert (a + b)[k] == a[k];
      } else {
        assert (a + b)[k] == b[k - |a|];
      }
    }
  }

  lemma CoversOfAppend(vs: seq<PageVerdict>, ps: seq<nat>, page: nat)
    requires forall j :: 0 <= j < |ps| ==> 1 <= ps[j] <= |vs|
    requires 1 <= page <= |vs|
    ensures CoversOf(vs, ps + [page]) == CoversOf(vs, ps) + [vs[page - 1].cover]
  {
    assert (ps + [page])[..|ps|] == ps;
  }

  /** Flushing a pending run emits well-formed segments. */
  lemma FinishOk(vs: seq<PageVerdict>, i: nat, st: Assembly)
    requires StateOk(vs, i, st)
    ensures AllOk(vs, Finish(st))
  {
    AllOkAppend(vs, st.docs, Flush(st.pending, st.covers));
  }

  /** A text page after every page of a run, with only dropped pages since its last one, extends the run. */
  lemma RunExtend(vs: seq<PageVerdict>, ps: seq<nat>, page: nat)
    requires IsRun(vs, ps)
    requires 1 <= page <= |vs| && vs[page - 1].kind == TextDocument
    requires forall j :: 0 <= j < |ps| ==> ps[j] < page
    requires ps != [] ==> OnlyDroppedBetween(vs, ps[|ps| - 1], page)
    ensures IsRun(vs, ps + [page])
  {
    var ps' := ps + [page];
    forall j | 0 <= j < |ps'| - 1 ensures OnlyDroppedBetween(vs, ps'[j], ps'[j + 1]) {
      if j < |ps| - 1 {
        assert ps'[j] == ps[j] && ps'[j + 1] == ps[j + 1];
      }
    }
  }

  lemma BoundedAppend(ps: seq<nat>, page: nat)
    requires forall j :: 0 <= j < |ps| ==> ps[j] < page
    ensures forall j :: 0 <= j < |ps + [page]| ==> (ps + [page])[j] <= page
  {
  }

  /** A text-dominant page extends the pending run and keeps the state well formed. */
  lemma StepOkText(vs: seq<PageVerdict>, i: nat, st: Assembly)
    requires i < |vs| && vs[i].kind == TextDocument && StateOk(vs, i, st)
    ensures StateOk(vs, i + 1, Step(st, vs[i], i + 1))
  {
    assert Step(st, vs[i], i + 1) == Assembly(st.pending + [i + 1], st.covers + [vs[i].cover], st.docs);
    PendingAppendOk(vs, i, st.pending);
    CoversOfAppend(vs, st.pending, i + 1);
  }

  /** A text-dominant page joins the pending run. */
  lemma PendingAppendOk(vs: seq<PageVerdict>, i: nat, pending: seq<nat>)
    requires i < |vs| && vs[i].kind == TextDocument && PendingOk(vs, i, pending)
    ensures PendingOk(vs, i + 1, pending + [i + 1])
  {
    var ps := pending + [i + 1];
    RunExtend(vs, pending, i + 1);
    BoundedAppend(pending, i + 1);
    NothingBetweenNeighbours(vs, i + 1);
    assert ps[|ps| - 1] == i + 1;
  }

  lemma NothingBetweenNeighbours(vs: seq<PageVerdict>, page: nat)
    ensures OnlyDroppedBetween(vs, page, page + 1)
  {
  }

  /** A page that emits its own segments flushes the run and keeps the state well formed. */
  lemma StepOkEmit(vs: seq<PageVerdict>, i: nat, st: Assembly)
    requires i < |vs| && vs[i].kind != TextDocument && vs[i].kind != Dropped
    requires StateOk(vs, i, st)
    ensures StateOk(vs, i + 1, Step(st, vs[i], i + 1))
  {
    var v := vs[i];
    FinishOk(vs, i, st);
    assert AllOk(vs, PageSegments(v, i + 1));
    AllOkAppend(vs, Finish(st), PageSegments(v, i + 1));
  }

  /** A dropped page leaves the state as it is, and the pending run stays followed by dropped pages only. */
  lemma StepOkDropped(vs: seq<PageVerdict>, i: nat, st: Assembly)
    requires i < |vs| && vs[i].kind == Dropped && StateOk(vs, i, st)
    ensures StateOk(vs, i + 1, Step(st, vs[i], i + 1))
  {
    assert Step(st, vs[i], i + 1) == st;
  }

  /** One turn of the loop keeps the state well formed. */
  lemma StepOk(vs: seq<PageVerdict>, i: nat, st: Assembly)
    requires i < |vs| && StateOk(vs, i, st)
    ensures StateOk(vs, i + 1, Step(st, vs[i], i + 1))
  {
    if vs[i].kind == TextDocument {
      StepOkText(vs, i, st);
    } else if vs[i].kind == Dropped {
      StepOkDropped(vs, i, st);
    } else {
      StepOkEmit(vs, i, st);
    }
  }

  /** The fold only ever emits segments the page loop can emit. */
  lemma {:induction false} AssembleFromSegments(vs: seq<PageVerdict>, i: nat, st: Assembly)
    requires i <= |vs| && StateOk(vs, i, st)
    ensures AllOk(vs, AssembleFrom(vs, i, st))
    decreases |vs| - i
  {
    if i == |vs| {
      FinishOk(vs, i, st);
    } else {
      StepOk(vs, i, st);
      AssembleFromSegments(vs, i + 1, Step(st, vs[i], i + 1));
    }
  }

  /**
   * Every segment is well formed: a "document" segment lists text-dominant pages in strictly
   * increasing order with only dropped pages between them, and carries the mean of their
   * coverages; any other segment is one page of the matching verdict with its coverage.
   */
  lemma SegmentsWellFormed(vs: seq<PageVerdict>)
    ensures forall k :: 0 <= k < |Assemble(vs)| ==> SegmentOk(vs, Assemble(vs)[k])
  {
    AssembleFromSegments(vs, 0, Assembly([], [], []));
  }

  /** The coverage of a "document" segment lies between the smallest and largest coverage of its pages. */
  lemma RunCoverBounds(vs: seq<PageVerdict>, s: Segment, lo: real, hi: real)
    requires SegmentOk(vs, s) && s.kind == DocumentRun
    requires forall j :: 0 <= j < |s.pages| ==> lo <= vs[s.pages[j] - 1].cover <= hi
    ensures lo <= s.imageCover <= hi
  {
    CoversOfAt(vs, s.pages);
    AverageBounds(CoversOf(vs, s.pages), lo, hi);
  }

  // ------------------------------------------------------------ where a run is closed

  /** The state of the page loop after its first `j` pages. */
  function StateAfter(vs: seq<PageVerdict>, j: nat): Assembly
    requires j <= |vs|
  {
    if j == 0 then Assembly([], [], []) else Step(StateAfter(vs, j - 1), vs[j - 1], j)
  }

  /** Running the first `j` pages and folding the rest is the whole fold. */
  lemma {:induction false} AssembleAfter(vs: seq<PageVerdict>, j: nat)
    requires j <= |vs|
    ensures AssembleFrom(vs, j, StateAfter(vs, j)) == Assemble(vs)
  {
    if j > 0 {
      AssembleAfter(vs, j - 1);
      assert AssembleFrom(vs, j - 1, StateAfter(vs, j - 1)) == AssembleFrom(vs, j, StateAfter(vs, j));
    }
  }

  /** Every page strictly between page `a` and page `b` was dropped or is text-dominant. */
  predicate NoBreakBetween(vs: seq<PageVerdict>, a: nat, b: nat)
  {
    forall j :: a <= j < b - 1 && j < |vs| ==> vs[j].kind == Dropped || vs[j].kind == TextDocument
  }

  /** A text page stays in the pending run as long as only dropped and text pages follow it. */
  lemma {:induction false} PendingKeepsPage(vs: seq<PageVerdict>, a: nat, j: nat)
    requires 1 <= a <= j <= |vs| && vs[a - 1].kind == TextDocument
    requires NoBreakBetween(vs, a, j + 1)
    ensures a in StateAfter(vs, j).pending
  {
    if j > a {
      PendingKeepsPage(vs, a, j - 1);
      assert vs[j - 1].kind == Dropped || vs[j - 1].kind == TextDocument;
    }
  }

  /** The segments emitted so far are never changed by the rest of the loop. */
  lemma {:induction false} AssembleFromExtends(vs: seq<PageVerdict>, i: nat, st: Assembly)
    ensures st.docs <= AssembleFrom(vs, i, st)
    decreases |vs| - i
  {
    if i < |vs| {
      var st' := Step(st, vs[i], i + 1);
      AssembleFromExtends(vs, i + 1, st');
      SegmentsPrefix(st.docs, st'.docs, AssembleFrom(vs, i + 1, st'));
    } else {
      SegmentsPrefix(st.docs, st.docs, Finish(st));
    }
  }

  lemma SegmentsPrefix(a: seq<Segment>, b: seq<Segment>, c: seq<Segment>)
    requires |a| <= |b| && b[..|a|] == a && b <= c
    ensures a <= c
  {
    assert c[..|a|] == b[..|a|];
  }

  /** Two pages of the pending run end up together in one "document" segment. */
  lemma {:induction false} PendingKeptTogether(vs: seq<PageVerdict>, i: nat, st: Assembly, a: nat, b: nat)
    returns (k: nat)
    requires a in st.pending && b in st.pending
    ensures k < |AssembleFrom(vs, i, st)| && AssembleFrom(vs, i, st)[k].kind == DocumentRun
    ensures a in AssembleFrom(vs, i, st)[k].pages && b in AssembleFrom(vs, i, st)[k].pages
    decreases |vs| - i
  {
    if i >= |vs| {
      k := |st.docs|;
      assert Finish(st)[k] == Segment(st.pending, DocumentRun, Average(st.covers));
    } else {
      var st' := Step(st, vs[i], i + 1);
      if vs[i].kind == Dropped || vs[i].kind == TextDocument {
        assert a in st'.pending && b in st'.pending;
        k := PendingKeptTogether(vs, i + 1, st', a, b);
      } else {
        k := |st.docs|;
        assert st'.docs[k] == Segment(st.pending, DocumentRun, Average(st.covers));
        AssembleFromExtends(vs, i + 1, st');
      }
    }
  }

  /** Between two consecutive pages of a run every page is text-dominant or dropped. */
  lemma {:induction false} RunGapNoBreak(vs: seq<PageVerdict>, ps: seq<nat>, z: nat, y: nat, p: nat)
    requires IsRun(vs, ps) && z < y < |ps| && ps[z] < p < ps[y]
    ensures vs[p - 1].kind == Dropped || vs[p - 1].kind == TextDocument
    decreases y - z
  {
    if p < ps[z + 1] {
      assert OnlyDroppedBetween(vs, ps[z], ps[z + 1]);
    } else if p > ps[z + 1] {
      RunGapNoBreak(vs, ps, z + 1, y, p);
    }
  }

  /** With no page kept on its own between them, two text pages end up in one "document" segment. */
  lemma SharedRunFromNoBreak(vs: seq<PageVerdict>, a: nat, b: nat) returns (k: nat)
    requires 1 <= a < b <= |vs|
    requires vs[a - 1].kind == TextDocument && vs[b - 1].kind == TextDocument
    requires NoBreakBetween(vs, a, b)
    ensures k < |Assemble(vs)| && Assemble(vs)[k].kind == DocumentRun
    ensures a in Assemble(vs)[k].pages && b in Assemble(vs)[k].pages
  {
    PendingKeepsPage(vs, a, b - 1);
    var st := StateAfter(vs, b);
    assert st == Step(StateAfter(vs, b - 1), vs[b - 1], b);
    assert a in st.pending && b in st.pending;
    k := PendingKeptTogether(vs, b, st, a, b);
    AssembleAfter(vs, b);
  }

  /** The pages strictly between two pages of a run are dropped or text-dominant. */
  lemma RunHasNoBreak(vs: seq<PageVerdict>, s: Segment, a: nat, b: nat)
    requires SegmentOk(vs, s) && s.kind == DocumentRun
    requires a < b && a in s.pages && b in s.pages
    ensures NoBreakBetween(vs, a, b)
  {
    var ps := s.pages;
    var x :| 0 <= x < |ps| && ps[x] == a;
    var y :| 0 <= y < |ps| && ps[y] == b;
    assert x < y;
    forall j | a <= j < b - 1 && j < |vs| ensures vs[j].kind == Dropped || vs[j].kind == TextDocument {
      RunGapNoBreak(vs, ps, x, y, j + 1);
    }
  }

  /**
   * Two text-dominant pages share a "document" segment exactly when no page between them is
   * kept on its own: dropped pages never close a run, and every other page does.
   */
  lemma TextPagesShareRun(vs: seq<PageVerdict>, a: nat, b: nat)
    requires 1 <= a < b <= |vs|
    requires vs[a - 1].kind == TextDocument && vs[b - 1].kind == TextDocument
    ensures (exists k :: 0 <= k < |Assemble(vs)| && Assemble(vs)[k].kind == DocumentRun &&
                         a in Assemble(vs)[k].pages && b in Assemble(vs)[k].pages)
            <==> NoBreakBetween(vs, a, b)
  {
    var docs := Assemble(vs);
    if NoBreakBetween(vs, a, b) {
      var k := SharedRunFromNoBreak(vs, a, b);
      assert docs[k].kind == DocumentRun && a in docs[k].pages && b in docs[k].pages;
    }
    forall k | 0 <= k < |docs| && docs[k].kind == DocumentRun && a in docs[k].pages && b in docs[k].pages
      ensures NoBreakBetween(vs, a, b)
    {
      SegmentsWellFormed(vs);
      RunHasNoBreak(vs, docs[k], a, b);
    }
  }

  /** A text page followed by dropped pages only and then a text page: the run goes on. */
  lemma DroppedPagesKeepRun(vs: seq<PageVerdict>, a: nat, b: nat)
    requires 1 <= a < b <= |vs|
    requires vs[a - 1].kind == TextDocument && vs[b - 1].kind == TextDocument
    requires OnlyDroppedBetween(vs, a, b)
    ensures exists k :: 0 <= k < |Assemble(vs)| && Assemble(vs)[k].kind == DocumentRun &&
                        a in Assemble(vs)[k].pages && b in Assemble(vs)[k].pages
  {
    TextPagesShareRun(vs, a, b);
  }

  /** No two neighbouring segments are both "document" segments. */
  predicate NoAdjacentRuns(docs: seq<Segment>)
  {
    forall k :: 0 <= k < |docs| - 1 ==> !(docs[k].kind == DocumentRun && docs[k + 1].kind == DocumentRun)
  }

  predicate EndsOutsideRun(docs: seq<Segment>)
  {
    docs == [] || docs[|docs| - 1].kind != DocumentRun
  }

  lemma NoAdjacentRunsAppend(a: seq<Segment>, b: seq<Segment>)
    requires NoAdjacentRuns(a) && NoAdjacentRuns(b)
    requires EndsOutsideRun(a) || b == [] || b[0].kind != DocumentRun
    ensures NoAdjacentRuns(a + b)
  {
    var r := a + b;
    forall k | 0 <= k < |r| - 1 ensures !(r[k].kind == DocumentRun && r[k + 1].kind == DocumentRun) {
      if k < |a| - 1 {
        assert r[k] == a[k] && r[k + 1] == a[k + 1];
      } else if k == |a| - 1 {
        assert r[k] == a[k] && r[k + 1] == b[0];
      } else {
        assert r[k] == b[k - |a|] && r[k + 1] == b[k + 1 - |a|];
      }
    }
  }

  /** A flush adds at most one segment, and a page emitted on its own never ends in a "document" segment. */
  lemma StepNoAdjacentRuns(st: Assembly, v: PageVerdict, page: nat)
    requires NoAdjacentRuns(st.docs) && EndsOutsideRun(st.docs)
    ensures NoAdjacentRuns(Step(st, v, page).docs) && EndsOutsideRun(Step(st, v, page).docs)
  {
    if v.kind != Dropped && v.kind != TextDocument {
      var f, q := Flush(st.pending, st.covers), PageSegments(v, page);
      NoAdjacentRunsAppend(st.docs, f);
      NoAdjacentRunsAppend(st.docs + f, q);
      assert Step(st, v, page).docs == st.docs + f + q;
    }
  }

  lemma {:induction false} AssembleFromNoAdjacentRuns(vs: seq<PageVerdict>, i: nat, st: Assembly)
    requires NoAdjacentRuns(st.docs) && EndsOutsideRun(st.docs)
    ensures NoAdjacentRuns(AssembleFrom(vs, i, st))
    decreases |vs| - i
  {
    if i < |vs| {
      StepNoAdjacentRuns(st, vs[i], i + 1);
      AssembleFromNoAdjacentRuns(vs, i + 1, Step(st, vs[i], i + 1));
    } else {
      NoAdjacentRunsAppend(st.docs, Flush(st.pending, st.covers));
    }
  }

  /** A run is only ever closed by a page that emits its own segments: two "document" segments are never neighbours. */
  lemma NoTwoRunsInARow(vs: seq<PageVerdict>)
    ensures forall k :: 0 <= k < |Assemble(vs)| - 1 ==>
              !(Assemble(vs)[k].kind == DocumentRun && Assemble(vs)[k + 1].kind == DocumentRun)
  {
    AssembleFromNoAdjacentRuns(vs, 0, Assembly([], [], []));
  }

  // ------------------------------------------------------------ whole runs and examples

  /** The page numbers 1 to `n`. */
  function PageNumbers(n: nat): (r: seq<nat>)
    ensures |r| == n
    ensures forall k :: 0 <= k < n ==> r[k] == k + 1
  {
    seq(n, k requires 0 <= k => (k + 1) as nat)
  }

  /** The coverage of every page, in page order. */
  function AllCovers(vs: seq<PageVerdict>): (r: seq<real>)
    ensures |r| == |vs|
    ensures forall k :: 0 <= k < |vs| ==> r[k] == vs[k].cover
  {
    seq(|vs|, k requires 0 <= k < |vs| => vs[k].cover)
  }

  lemma {:induction false} AllTextFrom(vs: seq<PageVerdict>, i: nat, docs: seq<Segment>)
    requires i <= |vs|
    requires forall j :: 0 <= j < |vs| ==> vs[j].kind == TextDocument
    ensures AssembleFrom(vs, i, Assembly(PageNumbers(|vs|)[..i], AllCovers(vs)[..i], docs)) ==
              docs + Flush(PageNumbers(|vs|), AllCovers(vs))
    decreases |vs| - i
  {
    var ps, cs := PageNumbers(|vs|), AllCovers(vs);
    if i < |vs| {
      assert ps[..i] + [i + 1] == ps[..i + 1];
      assert cs[..i] + [vs[i].cover] == cs[..i + 1];
      AllTextFrom(vs, i + 1, docs);
    } else {
      assert ps[..i] == ps;
      assert cs[..i] == cs;
    }
  }

  /** A document whose pages are all text-dominant is a single "document" segment over all of them. */
  lemma AllTextIsOneSegment(vs: seq<PageVerdict>)
    requires |vs| > 0
    requires forall j :: 0 <= j < |vs| ==> vs[j].kind == TextDocument
    ensures Assemble(vs) == [Segment(PageNumbers(|vs|), DocumentRun, Average(AllCovers(vs)))]
    ensures DocumentCount(Assemble(vs)) == 1
  {
    AllTextFrom(vs, 0, []);
    assert PageNumbers(|vs|)[..0] == [];
    assert AllCovers(vs)[..0] == [];
  }

  /** A dropped page between two text pages does not break their run: pages 1 and 3 form one segment. */
  lemma DroppedPageKeepsRun(a: real, b: real, c: real)
    ensures Assemble([PageVerdict(TextDocument, a), PageVerdict(Dropped, b), PageVerdict(TextDocument, c)]) ==
              [Segment([1, 3], DocumentRun, (a + c) / 2.0)]
  {
    var vs := [PageVerdict(TextDocument, a), PageVerdict(Dropped, b), PageVerdict(TextDocument, c)];
    var s0 := Assembly([], [], []);
    var s1 := Step(s0, vs[0], 1);
    assert s1 == Assembly([1], [a], []);
    var s2 := Step(s1, vs[1], 2);
    assert s2 == s1;
    var s3 := Step(s2, vs[2], 3);
    assert [1] + [3] == [1, 3] && [a] + [c] == [a, c];
    assert s3 == Assembly([1, 3], [a, c], []);
    assert Assemble(vs) == AssembleFrom(vs, 1, s1) == AssembleFrom(vs, 2, s2) == AssembleFrom(vs, 3, s3);
    assert Assemble(vs) == Finish(s3);
    assert [a, c][..1] == [a] && [a][..0] == [];
    assert Sum([a]) == a;
    assert Average([a, c]) == (a + c) / 2.0;
  }

  /** Two text pages followed by two pages cut left and right give five segments. */
  lemma TwoTextPagesTwoSplitPages(a: real, b: real, c: real, d: real)
    ensures Assemble([PageVerdict(TextDocument, a), PageVerdict(TextDocument, b),
                      PageVerdict(SplitLeftRight, c), PageVerdict(SplitLeftRight, d)]) ==
              [Segment([1, 2], DocumentRun, (a + b) / 2.0),
               Segment([3], LeftHalf, c), Segment([3], RightHalf, c),
               Segment([4], LeftHalf, d), Segment([4], RightHalf, d)]
  {
    var vs := [PageVerdict(TextDocument, a), PageVerdict(TextDocument, b),
               PageVerdict(SplitLeftRight, c), PageVerdict(SplitLeftRight, d)];
    var run := Segment([1, 2], DocumentRun, (a + b) / 2.0);
    var left3, right3 := Segment([3], LeftHalf, c), Segment([3], RightHalf, c);
    var left4, right4 := Segment([4], LeftHalf, d), Segment([4], RightHalf, d);
    var s0 := Assembly([], [], []);
    var s1 := Step(s0, vs[0], 1);
    assert s1 == Assembly([1], [a], []);
    var s2 := Step(s1, vs[1], 2);
    assert s2 == Assembly([1, 2], [a, b], []);
    assert [a, b][..1] == [a] && [a][..0] == [];
    assert Sum([a]) == a;
    assert Average([a, b]) == (a + b) / 2.0;
    assert Flush([1, 2], [a, b]) == [run];
    var s3 := Step(s2, vs[2], 3);
    assert s3 == Assembly([], [], [run, left3, right3]);
    var s4 := Step(s3, vs[3], 4);
    assert s4 == Assembly([], [], [run, left3, right3, left4, right4]);
    assert Assemble(vs) == AssembleFrom(vs, 1, s1) == AssembleFrom(vs, 2, s2);
    assert AssembleFrom(vs, 2, s2) == AssembleFrom(vs, 3, s3) == AssembleFrom(vs, 4, s4);
    assert Assemble(vs) == Finish(s4);
  }
}
