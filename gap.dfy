/**
 * `get_gap`, the split test nested in `analyze_pdf`: do the image intervals projected on one
 * axis form two groups separated by a clear gap around the middle of that axis?
 *
 * The intervals are sorted by start, rejected if one crosses the midpoint, merged when they
 * lie within 5 points of each other, rejected again if a merged interval crosses the
 * midpoint, and a split is reported when two adjacent merged intervals sit on either side of
 * the midpoint with a gap of at least 1% of the axis length between them.
 *
 * The main result, GapSound and GapComplete, characterises a split for well-formed
 * intervals: there is a band [lo, hi] around the midpoint, at least 1% of the axis and more
 * than 5 points wide, that no interval enters, with intervals on both sides.
 */
module GapDetection {

  /** A (start, end) projection of an image box on one axis. */
  datatype Interval = Interval(start: real, end: real)

  /** `GAP_TOLERANCE`: intervals closer than this many points are merged. */
  const GapTolerance: real := 5.0
  /** `MIN_GAP_RATIO`: the smallest gap reported, as a fraction of the axis length. */
  const MinGapRatio: real := 0.01

  /** `mid = total_length / 2`, measured from coordinate 0. */
  function Mid(totalLength: real): real
  {
    totalLength / 2.0
  }

  /** `min_gap = total_length * MIN_GAP_RATIO`. */
  function MinGap(totalLength: real): real
  {
    totalLength * MinGapRatio
  }

  function Max(a: real, b: real): real
  {
    if a >= b then a else b
  }

  /** `start < mid and end > mid`. */
  predicate Straddles(iv: Interval, mid: real)
  {
    iv.start < mid && iv.end > mid
  }

  predicate SortedByStart(s: seq<Interval>)
  {
    forall i, j :: 0 <= i < j < |s| ==> s[i].start <= s[j].start
  }

  /** Every interval starts no later than it ends (true of the projections of an image box at least 20 points wide and tall). */
  predicate WellFormed(s: seq<Interval>)
  {
    forall iv :: iv in s ==> iv.start <= iv.end
  }

  // ---------------------------------------------------------------- sorting

  /** Inserts before the first interval that does not start earlier, so that equal starts keep their order. */
  function Insert(x: Interval, s: seq<Interval>): (r: seq<Interval>)
    requires SortedByStart(s)
    ensures |r| == |s| + 1
    ensures r[0] == x || (s != [] && r[0] == s[0])
    ensures SortedByStart(r)
    ensures multiset(r) == multiset(s) + multiset{x}
  {
    if s == [] then [x]
    else if x.start <= s[0].start then
      SortedPrepend(x, s);
      [x] + s
    else
      SortedTail(s);
      var t := Insert(x, s[1..]);
      InsertBehind(x, s, t);
      [s[0]] + t
  }

  lemma SortedTail(s: seq<Interval>)
    requires s != [] && SortedByStart(s)
    ensures SortedByStart(s[1..])
  {
    forall i, j | 0 <= i < j < |s| - 1 ensures s[1..][i].start <= s[1..][j].start {
      assert s[1..][i] == s[i + 1] && s[1..][j] == s[j + 1];
    }
  }

  /** The recursive case of Insert: the head stays in front of the insertion into the tail. */
  lemma InsertBehind(x: Interval, s: seq<Interval>, t: seq<Interval>)
    requires s != [] && SortedByStart(s) && x.start > s[0].start
    requires |t| == |s| && (t[0] == x || (|s| > 1 && t[0] == s[1]))
    requires SortedByStart(t) && multiset(t) == multiset(s[1..]) + multiset{x}
    ensures SortedByStart([s[0]] + t)
    ensures multiset([s[0]] + t) == multiset(s) + multiset{x}
  {
    assert s == [s[0]] + s[1..];
    SortedPrepend(s[0], t);
  }

  /** An interval that starts no later than the head of a sorted list can go in front of it. */
  lemma SortedPrepend(h: Interval, t: seq<Interval>)
    requires SortedByStart(t) && (t == [] || h.start <= t[0].start)
    ensures SortedByStart([h] + t)
  {
    var r := [h] + t;
    forall i, j | 0 <= i < j < |r| ensures r[i].start <= r[j].start {
      assert r[j] == t[j - 1];
      if i > 0 {
        assert r[i] == t[i - 1];
      }
    }
  }

  /** `sorted(intervals, key=lambda x: x[0])`: a permutation of the input, ordered by start. */
  function SortByStart(s: seq<Interval>): (r: seq<Interval>)
    ensures |r| == |s|
    ensures SortedByStart(r)
    ensures multiset(r) == multiset(s)
  {
    if s == [] then []
    else
      assert s == [s[0]] + s[1..];
      Insert(s[0], SortByStart(s[1..]))
  }

  // ---------------------------------------------------------------- merging

  /**
   * The merge loop from the state `curr_start, curr_end = cur` over the remaining sorted
   * intervals: a close interval extends the current one, a distant one closes it.
   */
  function MergeFrom(cur: Interval, rest: seq<Interval>): (r: seq<Interval>)
    ensures 1 <= |r| <= |rest| + 1
    decreases |rest|
  {
    if rest == [] then [cur]
    else if rest[0].start <= cur.end + GapTolerance then
      MergeFrom(Interval(cur.start, Max(cur.end, rest[0].end)), rest[1..])
    else [cur] + MergeFrom(rest[0], rest[1..])
  }

  /** `merged` for sorted intervals. */
  function Merge(s: seq<Interval>): (r: seq<Interval>)
    ensures |r| <= |s|
    ensures s != [] ==> |r| >= 1
  {
    if s == [] then [] else MergeFrom(s[0], s[1..])
  }

  /** Step 2 of `get_gap`: the `curr_start`/`curr_end` loop that builds `merged`. */
  method MergeIntervals(sorted: seq<Interval>) returns (merged: seq<Interval>)
    requires |sorted| > 0
    ensures merged == Merge(sorted)
  {
    merged := [];
    var currStart, currEnd := sorted[0].start, sorted[0].end;
    for i := 1 to |sorted|
      invariant merged + MergeFrom(Interval(currStart, currEnd), sorted[i..]) == Merge(sorted)
    {
      var next := sorted[i];
      assert sorted[i..] == [next] + sorted[i + 1..];
      if next.start <= currEnd + GapTolerance {
        currEnd := Max(currEnd, next.end);
      } else {
        merged := merged + [Interval(currStart, currEnd)];
        currStart, currEnd := next.start, next.end;
      }
    }
    merged := merged + [Interval(currStart, currEnd)];
  }

  /** Consecutive merged intervals are more than the tolerance apart. */
  predicate Separated(m: seq<Interval>)
  {
    forall k :: 0 <= k < |m| - 1 ==> m[k + 1].start > m[k].end + GapTolerance
  }

  predicate Contains(outer: Interval, inner: Interval)
  {
    outer.start <= inner.start && inner.end <= outer.end
  }

  predicate Covered(m: seq<Interval>, iv: Interval)
  {
    exists k :: 0 <= k < |m| && Contains(m[k], iv)
  }

  /** The merge loop's first interval starts with the state and ends no earlier than it. */
  lemma {:induction false} MergeFromHead(cur: Interval, rest: seq<Interval>)
    ensures MergeFrom(cur, rest)[0].start == cur.start && MergeFrom(cur, rest)[0].end >= cur.end
    decreases |rest|
  {
    if rest != [] && rest[0].start <= cur.end + GapTolerance {
      MergeFromHead(Interval(cur.start, Max(cur.end, rest[0].end)), rest[1..]);
    }
  }

  /** From a state that starts before the remaining sorted intervals, the merge is sorted and separated. */
  lemma {:induction false} MergeFromOrdered(cur: Interval, rest: seq<Interval>)
    requires SortedByStart(rest)
    requires forall j :: 0 <= j < |rest| ==> cur.start <= rest[j].start
    ensures SortedByStart(MergeFrom(cur, rest)) && Separated(MergeFrom(cur, rest))
    decreases |rest|
  {
    if rest != [] {
      var tail := rest[1..];
      SortedTail(rest);
      assert forall j :: 0 <= j < |tail| ==> tail[j] == rest[j + 1];
      if rest[0].start <= cur.end + GapTolerance {
        MergeFromOrdered(Interval(cur.start, Max(cur.end, rest[0].end)), tail);
      } else {
        var r' := MergeFrom(rest[0], tail);
        MergeFromOrdered(rest[0], tail);
        MergeFromHead(rest[0], tail);
        assert MergeFrom(cur, rest) == [cur] + r';
        SortedPrepend(cur, r');
        SeparatedPrepend(cur, r');
      }
    }
  }

  /** An interval more than the tolerance before the head of a separated list can go in front of it. */
  lemma SeparatedPrepend(h: Interval, t: seq<Interval>)
    requires Separated(t) && (t == [] || t[0].start > h.end + GapTolerance)
    ensures Separated([h] + t)
  {
    var r := [h] + t;
    forall k | 0 <= k < |r| - 1 ensures r[k + 1].start > r[k].end + GapTolerance {
      assert r[k + 1] == t[k];
      if k > 0 {
        assert r[k] == t[k - 1];
      }
    }
  }

  /** Every interval the merge loop still has to see ends up inside some merged interval. */
  lemma {:induction false} MergeFromCovers(cur: Interval, rest: seq<Interval>)
    requires SortedByStart(rest)
    requires forall j :: 0 <= j < |rest| ==> cur.start <= rest[j].start
    ensures Covered(MergeFrom(cur, rest), cur)
    ensures forall j :: 0 <= j < |rest| ==> Covered(MergeFrom(cur, rest), rest[j])
    decreases |rest|
  {
    var r := MergeFrom(cur, rest);
    MergeFromHead(cur, rest);
    assert Contains(r[0], cur);
    if rest == [] {
    } else if rest[0].start <= cur.end + GapTolerance {
      var cur' := Interval(cur.start, Max(cur.end, rest[0].end));
      var tail := rest[1..];
      MergeFromCovers(cur', tail);
      MergeFromHead(cur', tail);
      assert Contains(r[0], rest[0]);
      forall j | 0 < j < |rest| ensures Covered(r, rest[j]) {
        assert rest[j] == tail[j - 1];
      }
    } else {
      var tail := rest[1..];
      var r' := MergeFrom(rest[0], tail);
      MergeFromCovers(rest[0], tail);
      assert r == [cur] + r';
      forall j | 0 <= j < |rest| ensures Covered(r, rest[j]) {
        var k :| 0 <= k < |r'| && Contains(r'[k], rest[j]) by {
          if j > 0 {
            assert rest[j] == tail[j - 1];
          }
        }
        assert r[k + 1] == r'[k];
      }
    }
  }

  /** Every merged interval contains the state or one of the intervals that followed it. */
  lemma {:induction false} MergeFromWitness(cur: Interval, rest: seq<Interval>)
    ensures forall k :: 0 <= k < |MergeFrom(cur, rest)| ==>
              Contains(MergeFrom(cur, rest)[k], cur) ||
              exists j :: 0 <= j < |rest| && Contains(MergeFrom(cur, rest)[k], rest[j])
    decreases |rest|
  {
    var r := MergeFrom(cur, rest);
    if rest == [] {
    } else if rest[0].start <= cur.end + GapTolerance {
      var cur' := Interval(cur.start, Max(cur.end, rest[0].end));
      var tail := rest[1..];
      MergeFromWitness(cur', tail);
      assert r == MergeFrom(cur', tail);
      forall k | 0 <= k < |r|
        ensures Contains(r[k], cur) || exists j :: 0 <= j < |rest| && Contains(r[k], rest[j])
      {
        if Contains(r[k], cur') {
          assert Contains(r[k], cur);
        } else {
          var j :| 0 <= j < |tail| && Contains(r[k], tail[j]);
          assert rest[j + 1] == tail[j];
        }
      }
    } else {
      var tail := rest[1..];
      var r' := MergeFrom(rest[0], tail);
      MergeFromWitness(rest[0], tail);
      assert r == [cur] + r';
      forall k | 0 < k < |r|
        ensures exists j :: 0 <= j < |rest| && Contains(r[k], rest[j])
      {
        assert r[k] == r'[k - 1];
        if !Contains(r'[k - 1], rest[0]) {
          var j :| 0 <= j < |tail| && Contains(r'[k - 1], tail[j]);
          assert rest[j + 1] == tail[j];
        }
      }
    }
  }

  /** The tolerance merge of sorted intervals is sorted by start and leaves more than 5 points between neighbours. */
  lemma MergeSortedSeparated(s: seq<Interval>)
    requires SortedByStart(s)
    ensures SortedByStart(Merge(s)) && Separated(Merge(s))
  {
    if s != [] {
      MergeFromOrdered(s[0], s[1..]);
    }
  }

  /** Every input interval lies inside some merged interval, and every merged interval contains an input interval. */
  lemma MergeCovers(s: seq<Interval>)
    requires SortedByStart(s)
    ensures forall iv :: iv in s ==> Covered(Merge(s), iv)
    ensures forall k :: 0 <= k < |Merge(s)| ==> exists j :: 0 <= j < |s| && Contains(Merge(s)[k], s[j])
  {
    if s != [] {
      var m := Merge(s);
      assert m == MergeFrom(s[0], s[1..]);
      MergeFromCovers(s[0], s[1..]);
      MergeFromWitness(s[0], s[1..]);
      forall iv | iv in s ensures Covered(m, iv) {
        var j :| 0 <= j < |s| && s[j] == iv;
        if j > 0 {
          assert s[1..][j - 1] == iv;
        }
      }
      forall k | 0 <= k < |Merge(s)| ensures exists j :: 0 <= j < |s| && Contains(Merge(s)[k], s[j]) {
        if Contains(m[k], s[0]) {
          assert 0 < |s| && Contains(m[k], s[0]);
        } else {
          var j :| 0 <= j < |s[1..]| && Contains(m[k], s[1..][j]);
          assert s[j + 1] == s[1..][j];
          assert Contains(m[k], s[j + 1]);
        }
      }
      assert forall k :: 0 <= k < |Merge(s)| ==> exists j :: 0 <= j < |s| && Contains(Merge(s)[k], s[j]);
    } else {
      assert |Merge(s)| == 0;
    }
  }

  /** Merging never extends past the inputs: below `lo` they stay below, at or above `hi` they stay above. */
  lemma {:induction false} MergeFromBounds(cur: Interval, rest: seq<Interval>, lo: real, hi: real)
    ensures (cur.end <= lo && forall j :: 0 <= j < |rest| ==> rest[j].end <= lo) ==>
              forall k :: 0 <= k < |MergeFrom(cur, rest)| ==> MergeFrom(cur, rest)[k].end <= lo
    ensures (cur.start >= hi && forall j :: 0 <= j < |rest| ==> rest[j].start >= hi) ==>
              forall k :: 0 <= k < |MergeFrom(cur, rest)| ==> MergeFrom(cur, rest)[k].start >= hi
    decreases |rest|
  {
    if rest != [] {
      var tail := rest[1..];
      assert forall j :: 0 <= j < |tail| ==> tail[j] == rest[j + 1];
      if rest[0].start <= cur.end + GapTolerance {
        MergeFromBounds(Interval(cur.start, Max(cur.end, rest[0].end)), tail, lo, hi);
      } else {
        MergeFromBounds(rest[0], tail, lo, hi);
      }
    }
  }

  /** A group wholly below `lo` is never merged with a group starting more than 5 points above it. */
  lemma {:induction false} MergeFromAppend(cur: Interval, below: seq<Interval>, above: seq<Interval>, lo: real, hi: real)
    requires cur.end <= lo
    requires forall j :: 0 <= j < |below| ==> below[j].end <= lo
    requires |above| > 0 && forall j :: 0 <= j < |above| ==> above[j].start >= hi
    requires hi - lo > GapTolerance
    ensures MergeFrom(cur, below + above) == MergeFrom(cur, below) + Merge(above)
    decreases |below|
  {
    if below == [] {
      assert below + above == above;
      assert MergeFrom(cur, above) == [cur] + MergeFrom(above[0], above[1..]);
    } else {
      var rest := below + above;
      assert rest[1..] == below[1..] + above;
      assert rest[0] == below[0];
      if below[0].start <= cur.end + GapTolerance {
        var cur' := Interval(cur.start, Max(cur.end, below[0].end));
        assert MergeFrom(cur, rest) == MergeFrom(cur', below[1..] + above);
        MergeFromAppend(cur', below[1..], above, lo, hi);
      } else {
        assert MergeFrom(cur, rest) == [cur] + MergeFrom(below[0], below[1..] + above);
        MergeFromAppend(below[0], below[1..], above, lo, hi);
        IntervalsAssoc([cur], MergeFrom(below[0], below[1..]), Merge(above));
      }
    }
  }

  lemma IntervalsAssoc(a: seq<Interval>, b: seq<Interval>, c: seq<Interval>)
    ensures a + (b + c) == (a + b) + c
  {
  }

  // ---------------------------------------------------------------- the test

  /** The condition of the final loop: `merged[k]` ends at or before `mid`, `merged[k+1]` starts at or after it, far enough apart. */
  predicate AdjacentSplit(m: seq<Interval>, k: nat, mid: real, minGap: real)
    requires k + 1 < |m|
  {
    m[k + 1].start - m[k].end >= minGap && m[k].end <= mid && m[k + 1].start >= mid
  }

  /** No interval of `s` crosses `mid`. */
  predicate NoneStraddle(s: seq<Interval>, mid: real)
  {
    forall i :: 0 <= i < |s| ==> !Straddles(s[i], mid)
  }

  /** `has_before`. */
  predicate SomeEndBy(m: seq<Interval>, mid: real)
  {
    exists k :: 0 <= k < |m| && m[k].end <= mid
  }

  /** `has_after`. */
  predicate SomeStartFrom(m: seq<Interval>, mid: real)
  {
    exists k :: 0 <= k < |m| && m[k].start >= mid
  }

  predicate SomeAdjacentSplit(m: seq<Interval>, mid: real, minGap: real)
  {
    exists k: nat :: k + 1 < |m| && AdjacentSplit(m, k, mid, minGap)
  }

  /** Steps 3 and 4 of `get_gap`, on the merged intervals. */
  predicate MergedSplit(m: seq<Interval>, mid: real, minGap: real)
  {
    NoneStraddle(m, mid) && SomeEndBy(m, mid) && SomeStartFrom(m, mid) && SomeAdjacentSplit(m, mid, minGap)
  }

  /** `get_gap(intervals, total_length)`, step by step as the code takes it. */
  predicate GapSpec(s: seq<Interval>, totalLength: real)
  {
    && |s| > 0
    && NoneStraddle(SortByStart(s), Mid(totalLength))
    && MergedSplit(Merge(SortByStart(s)), Mid(totalLength), MinGap(totalLength))
  }

  /** Steps 1 and 3 of `get_gap`: does some interval cross the midpoint? */
  method AnyStraddles(s: seq<Interval>, mid: real) returns (found: bool)
    ensures found == !NoneStraddle(s, mid)
  {
    for i := 0 to |s|
      invariant forall j :: 0 <= j < i ==> !Straddles(s[j], mid)
    {
      if s[i].start < mid && s[i].end > mid {
        return true;
      }
    }
    return false;
  }

  /** Step 4 of `get_gap`: `has_before`, `has_after` and the search for an adjacent pair around the midpoint. */
  method FindSplit(merged: seq<Interval>, mid: real, minGap: real) returns (split: bool)
    ensures split == (SomeEndBy(merged, mid) && SomeStartFrom(merged, mid) && SomeAdjacentSplit(merged, mid, minGap))
  {
    var hasBefore := exists k :: 0 <= k < |merged| && merged[k].end <= mid;
    var hasAfter := exists k :: 0 <= k < |merged| && merged[k].start >= mid;
    if hasBefore && hasAfter {
      var i := 0;
      while i + 1 < |merged|
        invariant forall j: nat :: j < i && j + 1 < |merged| ==> !AdjacentSplit(merged, j, mid, minGap)
      {
        var gap := merged[i + 1].start - merged[i].end;
        if gap >= minGap && merged[i].end <= mid && merged[i + 1].start >= mid {
          assert AdjacentSplit(merged, i, mid, minGap);
          return true;
        }
        i := i + 1;
      }
    }
    return false;
  }

  /** `get_gap`: the two midpoint checks around the merge, then the search for a gap around the midpoint. */
  method GetGap(intervals: seq<Interval>, totalLength: real) returns (split: bool)
    ensures split == GapSpec(intervals, totalLength)
  {
    if |intervals| == 0 {
      return false;
    }
    var sorted := SortByStart(intervals);
    var mid := Mid(totalLength);
    var straddles := AnyStraddles(sorted, mid);
    if straddles {
      return false;
    }
    var merged := MergeIntervals(sorted);
    straddles := AnyStraddles(merged, mid);
    if straddles {
      return false;
    }
    var minGap := MinGap(totalLength);
    split := FindSplit(merged, mid, minGap);
  }

  /** An empty interval list never splits. */
  lemma GapEmpty(totalLength: real)
    ensures !GapSpec([], totalLength)
  {
  }

  /** One interval crossing the midpoint rules a split out, whatever the other intervals are. */
  lemma GapStraddleBlocks(s: seq<Interval>, totalLength: real, iv: Interval)
    requires iv in s && Straddles(iv, Mid(totalLength))
    ensures !GapSpec(s, totalLength)
  {
    var t := SortByStart(s);
    assert iv in multiset(t);
    var i :| 0 <= i < |t| && t[i] == iv;
  }

  /**
   * The band [lo, hi] contains the midpoint, is at least `minGap` and more than the tolerance
   * wide, no interval enters it, and intervals lie on both sides of it.
   */
  predicate SplitBand(s: seq<Interval>, mid: real, minGap: real, lo: real, hi: real)
  {
    && lo <= mid <= hi
    && hi - lo >= minGap
    && hi - lo > GapTolerance
    && (forall iv :: iv in s ==> iv.end <= lo || iv.start >= hi)
    && (exists iv :: iv in s && iv.end <= lo)
    && (exists iv :: iv in s && iv.start >= hi)
  }

  /** Sorting keeps exactly the same intervals. */
  lemma SortKeepsMembers(s: seq<Interval>)
    ensures forall iv :: iv in SortByStart(s) <==> iv in s
  {
    var t := SortByStart(s);
    forall iv ensures iv in t <==> iv in s {
      assert iv in t <==> iv in multiset(t);
      assert iv in s <==> iv in multiset(s);
    }
  }

  /** Between two merged intervals of sorted input lies more than the tolerance. */
  lemma MergedApart(t: seq<Interval>, a: nat, b: nat)
    requires SortedByStart(t)
    requires a < b < |Merge(t)|
    ensures Merge(t)[a].end + GapTolerance < Merge(t)[b].start
  {
    MergeSortedSeparated(t);
    var m := Merge(t);
    assert m[a + 1].start <= m[b].start;
  }

  /** The merged interval that takes in the input interval `t[i]`. */
  lemma CoveringMerged(t: seq<Interval>, i: nat) returns (j: nat)
    requires SortedByStart(t) && i < |t|
    ensures j < |Merge(t)| && Contains(Merge(t)[j], t[i])
  {
    MergeCovers(t);
    assert t[i] in t;
    j :| 0 <= j < |Merge(t)| && Contains(Merge(t)[j], t[i]);
  }

  /** An input interval that the merged interval `merged[k]` takes in. */
  lemma CoveredInput(t: seq<Interval>, k: nat) returns (j: nat)
    requires SortedByStart(t) && k < |Merge(t)|
    ensures j < |t| && Contains(Merge(t)[k], t[j])
  {
    MergeCovers(t);
    j :| 0 <= j < |t| && Contains(Merge(t)[k], t[j]);
  }

  /** Merged intervals of sorted input come in order of their starts. */
  lemma MergedStartsOrdered(t: seq<Interval>, a: nat, b: nat)
    requires SortedByStart(t) && a <= b < |Merge(t)|
    ensures Merge(t)[a].start <= Merge(t)[b].start
  {
    MergeSortedSeparated(t);
  }

  /** Each merged interval of well-formed sorted input starts no later than it ends. */
  lemma MergedWellFormed(t: seq<Interval>, k: nat)
    requires SortedByStart(t) && WellFormed(t)
    requires k < |Merge(t)|
    ensures Merge(t)[k].start <= Merge(t)[k].end
  {
    var j := CoveredInput(t, k);
    assert t[j] in t;
  }

  /** An input interval lies wholly before the gap after `merged[k]` or wholly after it. */
  lemma MergedSide(t: seq<Interval>, k: nat, i: nat)
    requires SortedByStart(t) && WellFormed(t)
    requires k + 1 < |Merge(t)| && i < |t|
    ensures t[i].end <= Merge(t)[k].end || t[i].start >= Merge(t)[k + 1].start
  {
    var j := CoveringMerged(t, i);
    if j < k {
      MergedApart(t, j, k);
      MergedWellFormed(t, k);
    } else if j > k + 1 {
      MergedStartsOrdered(t, k + 1, j);
    }
  }

  /**
   * On sorted, well-formed input no interval enters the gap between `merged[k]` and
   * `merged[k+1]`, and some interval lies on each side of it.
   */
  lemma SortedSound(t: seq<Interval>, k: nat) returns (below: nat, above: nat)
    requires SortedByStart(t) && WellFormed(t)
    requires k + 1 < |Merge(t)|
    ensures forall i :: 0 <= i < |t| ==> t[i].end <= Merge(t)[k].end || t[i].start >= Merge(t)[k + 1].start
    ensures below < |t| && t[below].end <= Merge(t)[k].end
    ensures above < |t| && t[above].start >= Merge(t)[k + 1].start
  {
    var m := Merge(t);
    below := CoveredInput(t, k);
    above := CoveredInput(t, k + 1);
    forall i | 0 <= i < |t| ensures t[i].end <= m[k].end || t[i].start >= m[k + 1].start {
      MergedSide(t, k, i);
    }
  }

  /** A reported split is a real gap: the band between the two merged intervals of the split. */
  lemma GapSound(s: seq<Interval>, totalLength: real) returns (lo: real, hi: real)
    requires WellFormed(s)
    requires GapSpec(s, totalLength)
    ensures SplitBand(s, Mid(totalLength), MinGap(totalLength), lo, hi)
  {
    var mid := Mid(totalLength);
    var minGap := MinGap(totalLength);
    var t := SortByStart(s);
    SortedWellFormed(s);
    var m := Merge(t);
    var k: nat :| k + 1 < |m| && AdjacentSplit(m, k, mid, minGap);
    lo, hi := m[k].end, m[k + 1].start;
    MergedApart(t, k, k + 1);
    var below, above := SortedSound(t, k);
    forall iv | iv in s ensures iv.end <= lo || iv.start >= hi {
      var i := SortedPosition(s, iv);
    }
    SortedMember(s, below);
    SortedMember(s, above);
  }

  lemma SortedWellFormed(s: seq<Interval>)
    requires WellFormed(s)
    ensures WellFormed(SortByStart(s))
  {
    SortKeepsMembers(s);
  }

  /** Where an input interval sits in the sorted copy. */
  lemma SortedPosition(s: seq<Interval>, iv: Interval) returns (i: nat)
    requires iv in s
    ensures i < |SortByStart(s)| && SortByStart(s)[i] == iv
  {
    SortKeepsMembers(s);
    assert iv in SortByStart(s);
    i :| 0 <= i < |SortByStart(s)| && SortByStart(s)[i] == iv;
  }

  lemma SortedMember(s: seq<Interval>, i: nat)
    requires i < |SortByStart(s)|
    ensures SortByStart(s)[i] in s
  {
    SortKeepsMembers(s);
    assert SortByStart(s)[i] in SortByStart(s);
  }

  /** Intervals below a band followed by intervals above it merge into the merged lower group followed by the merged upper group. */
  lemma BandMerge(t: seq<Interval>, lo: real, hi: real, p: nat) returns (mb: seq<Interval>, ma: seq<Interval>)
    requires hi - lo > GapTolerance
    requires 0 < p < |t|
    requires forall i :: 0 <= i < p ==> t[i].end <= lo
    requires forall i :: p <= i < |t| ==> t[i].start >= hi
    ensures Merge(t) == mb + ma && |mb| >= 1 && |ma| >= 1
    ensures forall k :: 0 <= k < |mb| ==> mb[k].end <= lo
    ensures forall k :: 0 <= k < |ma| ==> ma[k].start >= hi
  {
    var below, above := t[1..p], t[p..];
    assert forall j :: 0 <= j < |below| ==> below[j] == t[j + 1];
    assert forall j :: 0 <= j < |above| ==> above[j] == t[p + j];
    assert t[1..] == below + above;
    MergeFromAppend(t[0], below, above, lo, hi);
    mb, ma := MergeFrom(t[0], below), Merge(above);
    MergeFromBounds(t[0], below, lo, hi);
    MergeFromBounds(above[0], above[1..], lo, hi);
    assert forall j :: 0 <= j < |above[1..]| ==> above[1..][j] == above[j + 1];
  }

  /** On sorted input, a band that no interval enters makes `get_gap` split at it. */
  lemma SortedComplete(t: seq<Interval>, mid: real, minGap: real, lo: real, hi: real, p: nat)
    requires lo <= mid <= hi && hi - lo >= minGap && hi - lo > GapTolerance
    requires 0 < p < |t|
    requires forall i :: 0 <= i < p ==> t[i].end <= lo
    requires forall i :: p <= i < |t| ==> t[i].start >= hi
    ensures NoneStraddle(t, mid)
    ensures MergedSplit(Merge(t), mid, minGap)
  {
    var mb, ma := BandMerge(t, lo, hi, p);
    var m := Merge(t);
    forall k | 0 <= k < |m| ensures !Straddles(m[k], mid) {
      if k >= |mb| {
        assert m[k] == ma[k - |mb|];
      } else {
        assert m[k] == mb[k];
      }
    }
    var k := |mb| - 1;
    assert m[k] == mb[k] && m[k + 1] == ma[0];
    assert AdjacentSplit(m, k, mid, minGap);
    forall i | 0 <= i < |t| ensures !Straddles(t[i], mid) {
      if i < p {
        assert t[i].end <= lo;
      } else {
        assert t[i].start >= hi;
      }
    }
  }

  /** On sorted, well-formed input with intervals on both sides of a band, the ones above it form a proper suffix. */
  lemma FirstAbove(t: seq<Interval>, lo: real, hi: real, a: nat, b: nat) returns (p: nat)
    requires SortedByStart(t) && WellFormed(t) && lo < hi
    requires forall i :: 0 <= i < |t| ==> t[i].end <= lo || t[i].start >= hi
    requires a < |t| && t[a].start >= hi
    requires b < |t| && t[b].end <= lo
    ensures 0 < p < |t|
    ensures forall i :: 0 <= i < p ==> t[i].end <= lo
    ensures forall i :: p <= i < |t| ==> t[i].start >= hi
  {
    p := a;
    while p > 0 && t[p - 1].start >= hi
      invariant 0 <= p < |t| && t[p].start >= hi
      decreases p
    {
      p := p - 1;
    }
    forall i | 0 <= i < p ensures t[i].end <= lo {
      assert t[i].start <= t[p - 1].start;
    }
    forall i | p <= i < |t| ensures t[i].start >= hi {
      assert t[p].start <= t[i].start;
    }
    assert t[b] in t;
    assert b < p;
  }

  /** A band of the input splits its sorted copy into intervals below the band followed by intervals above it. */
  lemma BandSplitsSorted(s: seq<Interval>, mid: real, minGap: real, lo: real, hi: real) returns (p: nat)
    requires WellFormed(s)
    requires SplitBand(s, mid, minGap, lo, hi)
    ensures 0 < p < |SortByStart(s)|
    ensures forall i :: 0 <= i < p ==> SortByStart(s)[i].end <= lo
    ensures forall i :: p <= i < |SortByStart(s)| ==> SortByStart(s)[i].start >= hi
  {
    var t := SortByStart(s);
    SortedWellFormed(s);
    var ivA :| ivA in s && ivA.start >= hi;
    var ivB :| ivB in s && ivB.end <= lo;
    var a := SortedPosition(s, ivA);
    var b := SortedPosition(s, ivB);
    forall i | 0 <= i < |t| ensures t[i].end <= lo || t[i].start >= hi {
      SortedMember(s, i);
    }
    p := FirstAbove(t, lo, hi, a, b);
  }

  /** Conversely, such a band always makes `get_gap` report a split. */
  lemma GapComplete(s: seq<Interval>, totalLength: real, lo: real, hi: real)
    requires WellFormed(s)
    requires SplitBand(s, Mid(totalLength), MinGap(totalLength), lo, hi)
    ensures GapSpec(s, totalLength)
  {
    var p := BandSplitsSorted(s, Mid(totalLength), MinGap(totalLength), lo, hi);
    SortedComplete(SortByStart(s), Mid(totalLength), MinGap(totalLength), lo, hi, p);
  }
}
