/** extend_activity_spans: spans of activity merged over gaps of up to 30 seconds, at most 100 of them. */
module ActivitySpans {

  const SPAN_MERGE_GAP_SECS: int := 30
  const MAX_SPANS_PER_FILE: nat := 100
  const I64_MAX: int := 0x7FFF_FFFF_FFFF_FFFF

  /** A point in time in seconds; the years 0 to 9999 that a stamp can name are far inside. */
  type Instant = t: int | -0x1000_0000_0000_0000 < t < 0x1000_0000_0000_0000 witness 0

  datatype Span = Span(start: Instant, end: Instant)

  // ----- specification -----

  /** Inserts after the spans that start no later: folding it over a list is a stable sort. */
  function Insert(sorted: seq<Span>, x: Span): seq<Span> {
    if sorted == [] then [x]
    else if sorted[|sorted| - 1].start <= x.start then sorted + [x]
    else Insert(sorted[..|sorted| - 1], x) + [sorted[|sorted| - 1]]
  }

  function SortByStart(spans: seq<Span>): seq<Span> {
    if spans == [] then [] else Insert(SortByStart(spans[..|spans| - 1]), spans[|spans| - 1])
  }

  function Later(a: Instant, b: Instant): Instant {
    if b > a then b else a
  }

  /** A span within reach of the last one extends it; any other starts a new one. */
  function Absorb(merged: seq<Span>, x: Span): seq<Span> {
    if merged != [] && x.start - merged[|merged| - 1].end <= SPAN_MERGE_GAP_SECS then
      var last := merged[|merged| - 1];
      merged[|merged| - 1 := Span(last.start, Later(last.end, x.end))]
    else merged + [x]
  }

  /** The first `k` spans merged, from left to right. */
  function MergeSorted(sorted: seq<Span>, k: nat): seq<Span>
    requires k <= |sorted|
  {
    if k == 0 then [] else Absorb(MergeSorted(sorted, k - 1), sorted[k - 1])
  }

  function Merged(spans: seq<Span>, x: Span): seq<Span> {
    var sorted := SortByStart(spans + [x]);
    MergeSorted(sorted, |sorted|)
  }

  function Gap(spans: seq<Span>, i: int): int
    requires 0 <= i < |spans| - 1
  {
    spans[i + 1].start - spans[i].end
  }

  function SmallestBelow(spans: seq<Span>, n: int): (i: int)
    requires 0 < n < |spans|
    ensures 0 <= i < n
    ensures forall j :: 0 <= j < i ==> Gap(spans, i) < Gap(spans, j)
    ensures forall j :: i <= j < n ==> Gap(spans, i) <= Gap(spans, j)
  {
    if n == 1 then 0
    else
      var i := SmallestBelow(spans, n - 1);
      if Gap(spans, n - 1) < Gap(spans, i) then n - 1 else i
  }

  /** Span i takes over the end of its neighbour. */
  function CloseGap(spans: seq<Span>, i: int): seq<Span>
    requires 0 <= i < |spans| - 1
  {
    spans[..i] + [Span(spans[i].start, Later(spans[i].end, spans[i + 1].end))] + spans[i + 2..]
  }

  function Capped(spans: seq<Span>): seq<Span>
    decreases |spans|
  {
    if |spans| <= MAX_SPANS_PER_FILE then spans else Capped(CloseGap(spans, SmallestBelow(spans, |spans| - 1)))
  }

  function Extended(spans: seq<Span>, x: Span): seq<Span> {
    Capped(Merged(spans, x))
  }

  // ----- the code -----

  /** One pass over the sorted spans. */
  method MergeSpans(sorted: seq<Span>) returns (merged: seq<Span>)
    ensures merged == MergeSorted(sorted, |sorted|)
  {
    merged := [];
    for k := 0 to |sorted|
      invariant merged == MergeSorted(sorted, k)
    {
      var span := sorted[k];
      if merged != [] && span.start - merged[|merged| - 1].end <= SPAN_MERGE_GAP_SECS {
        var last := merged[|merged| - 1];
        merged := merged[|merged| - 1 := Span(last.start, if span.end > last.end then span.end else last.end)];
      } else {
        merged := merged + [span];
      }
    }
  }

  method FindSmallestGap(spans: seq<Span>) returns (minIdx: nat)
    requires |spans| > 1
    ensures minIdx == SmallestBelow(spans, |spans| - 1)
  {
    var minGap := I64_MAX;
    minIdx := 0;
    for i := 0 to |spans| - 1
      invariant i == 0 ==> minGap == I64_MAX
      invariant i > 0 ==> minIdx == SmallestBelow(spans, i) && minGap == Gap(spans, minIdx)
    {
      var gap := spans[i + 1].start - spans[i].end;
      if gap < minGap {
        minGap, minIdx := gap, i;
      }
    }
  }

  method RemoveGap(spans: seq<Span>, i: nat) returns (closed: seq<Span>)
    requires i < |spans| - 1
    ensures closed == CloseGap(spans, i)
  {
    closed := spans;
    var nextEnd := spans[i + 1].end;
    if nextEnd > closed[i].end {
      closed := closed[i := Span(closed[i].start, nextEnd)];
    }
    closed := closed[..i + 1] + closed[i + 2..];
  }

  /** Sort, merge, then close the smallest gap until the cap holds. */
  method ExtendActivitySpans(spans: seq<Span>, newStart: Instant, newEnd: Instant) returns (merged: seq<Span>)
    ensures merged == Extended(spans, Span(newStart, newEnd))
  {
    merged := MergeSpans(SortByStart(spans + [Span(newStart, newEnd)]));
    while |merged| > MAX_SPANS_PER_FILE
      invariant Capped(merged) == Extended(spans, Span(newStart, newEnd))
    {
      var minIdx := FindSmallestGap(merged);
      merged := RemoveGap(merged, minIdx);
    }
  }

  // ----- every merge is sound -----

  ghost predicate Upright(spans: seq<Span>) {
    forall i :: 0 <= i < |spans| ==> spans[i].start <= spans[i].end
  }

  /** Sorted, and further apart than the merge gap. */
  ghost predicate Separate(spans: seq<Span>) {
    forall i, j :: 0 <= i < j < |spans| ==> spans[j].start - spans[i].end > 30
  }

  ghost predicate Inside(x: Span, spans: seq<Span>) {
    exists i :: 0 <= i < |spans| && spans[i].start <= x.start && x.end <= spans[i].end
  }

  ghost predicate AllInside(xs: seq<Span>, spans: seq<Span>) {
    forall i {:trigger Inside(xs[i], spans)} :: 0 <= i < |xs| ==> Inside(xs[i], spans)
  }

  ghost predicate Sorted(spans: seq<Span>) {
    forall i, j :: 0 <= i < j < |spans| ==> spans[i].start <= spans[j].start
  }

  lemma {:induction false} InsertPermutes(sorted: seq<Span>, x: Span)
    ensures multiset(Insert(sorted, x)) == multiset(sorted) + multiset{x}
  {
    if sorted != [] {
      var init, last := sorted[..|sorted| - 1], sorted[|sorted| - 1];
      assert sorted == init + [last];
      if last.start > x.start {
        InsertPermutes(init, x);
      }
    }
  }

  lemma {:induction false} InsertSorts(sorted: seq<Span>, x: Span)
    requires Sorted(sorted)
    ensures Sorted(Insert(sorted, x))
  {
    if sorted != [] {
      var init, last := sorted[..|sorted| - 1], sorted[|sorted| - 1];
      if last.start > x.start {
        InsertSorts(init, x);
        forall i | 0 <= i < |Insert(init, x)| ensures Insert(init, x)[i].start <= last.start {
          InsertPermutes(init, x);
          assert Insert(init, x)[i] in multiset(Insert(init, x));
          if Insert(init, x)[i] != x {
            assert Insert(init, x)[i] in init;
          }
        }
      }
    }
  }

  /** The sort keeps every span and orders them by start. */
  lemma {:induction false} SortSorts(spans: seq<Span>)
    ensures Sorted(SortByStart(spans)) && multiset(SortByStart(spans)) == multiset(spans)
  {
    if spans != [] {
      var init := spans[..|spans| - 1];
      assert spans == init + [spans[|spans| - 1]];
      SortSorts(init);
      InsertSorts(SortByStart(init), spans[|spans| - 1]);
      InsertPermutes(SortByStart(init), spans[|spans| - 1]);
    }
  }

  lemma InsideGrows(x: Span, merged: seq<Span>, y: Span)
    requires Inside(x, merged)
    ensures Inside(x, Absorb(merged, y))
  {
    var i :| 0 <= i < |merged| && merged[i].start <= x.start && x.end <= merged[i].end;
    var after := Absorb(merged, y);
    assert after[i].start <= x.start && x.end <= after[i].end;
  }

  lemma AbsorbSound(merged: seq<Span>, x: Span)
    requires Upright(merged) && Separate(merged) && x.start <= x.end
    requires merged != [] ==> merged[|merged| - 1].start <= x.start
    ensures var after := Absorb(merged, x);
            && Upright(after) && Separate(after) && Inside(x, after)
            && after != [] && after[|after| - 1].start <= x.start && |after| <= |merged| + 1
  {
    var after := Absorb(merged, x);
    assert after[|after| - 1].start <= x.start && x.end <= after[|after| - 1].end;
  }

  /** Merging sorted spans gives separate ones. */
  lemma {:induction false} MergeSortedSound(sorted: seq<Span>, k: nat)
    requires Sorted(sorted) && Upright(sorted) && k <= |sorted|
    ensures Upright(MergeSorted(sorted, k)) && Separate(MergeSorted(sorted, k)) && |MergeSorted(sorted, k)| <= k
    ensures k > 0 ==> MergeSorted(sorted, k) != [] &&
                      MergeSorted(sorted, k)[|MergeSorted(sorted, k)| - 1].start <= sorted[k - 1].start
  {
    if k > 0 {
      MergeSortedSound(sorted, k - 1);
      if k > 1 {
        assert sorted[k - 2].start <= sorted[k - 1].start;
      }
      AbsorbSound(MergeSorted(sorted, k - 1), sorted[k - 1]);
    }
  }

  /** And they cover each of them. */
  lemma {:induction false} MergeSortedCovers(sorted: seq<Span>, k: nat, i: nat)
    requires Sorted(sorted) && Upright(sorted) && i < k <= |sorted|
    ensures Inside(sorted[i], MergeSorted(sorted, k))
  {
    if i == k - 1 {
      MergeSortedSound(sorted, k - 1);
      if i > 0 {
        assert sorted[i - 1].start <= sorted[i].start;
      }
      AbsorbSound(MergeSorted(sorted, k - 1), sorted[i]);
    } else {
      MergeSortedCovers(sorted, k - 1, i);
      InsideGrows(sorted[i], MergeSorted(sorted, k - 1), sorted[k - 1]);
    }
  }

  /** Whatever the list was, merging in a span gives sorted spans with gaps over 30 seconds that
      cover every old span and the new one. */
  lemma MergedSound(spans: seq<Span>, x: Span)
    requires Upright(spans) && x.start <= x.end
    ensures Upright(Merged(spans, x)) && Separate(Merged(spans, x)) && AllInside(spans, Merged(spans, x)) &&
              Inside(x, Merged(spans, x))
    ensures |Merged(spans, x)| <= |spans| + 1
  {
    var all := spans + [x];
    var sorted := SortByStart(all);
    SortSorts(all);
    assert |sorted| == |multiset(sorted)| == |multiset(all)| == |all|;
    forall i | 0 <= i < |sorted| ensures sorted[i].start <= sorted[i].end {
      assert sorted[i] in multiset(sorted);
      assert sorted[i] in all;
    }
    MergeSortedSound(sorted, |sorted|);
    forall i | 0 <= i < |all| ensures Inside(all[i], Merged(spans, x)) {
      assert all[i] in multiset(all);
      assert all[i] in multiset(sorted);
      var j :| 0 <= j < |sorted| && sorted[j] == all[i];
      MergeSortedCovers(sorted, |sorted|, j);
    }
    forall i | 0 <= i < |spans| ensures Inside(spans[i], Merged(spans, x)) {
      assert all[i] == spans[i];
    }
    assert all[|spans|] == x;
  }
}
