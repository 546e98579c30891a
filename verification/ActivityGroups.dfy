/** Points of activity recorded one by one give the same spans in whatever order they come: the
    groups of points chained by gaps of at most 30 seconds.
 */
module ActivityGroups {
  import opened ActivitySpans

  ghost predicate Holds(s: Span, p: Instant) {
    s.start <= p <= s.end
  }

  ghost predicate Held(spans: seq<Span>, p: Instant) {
    exists i :: 0 <= i < |spans| && Holds(spans[i], p)
  }

  /** Another of the points follows `p` within the merge gap. */
  ghost predicate Chained(points: set<Instant>, p: Instant) {
    exists q :: q in points && p < q <= p + 30
  }

  /** `spans` are the groups of `points`: from a point to a point, apart from each other, holding
      every point, and without a gap over 30 seconds inside. */
  ghost predicate IsGroups(spans: seq<Span>, points: set<Instant>) {
    && Upright(spans)
    && Separate(spans)
    && (forall i :: 0 <= i < |spans| ==> spans[i].start in points && spans[i].end in points)
    && (forall p {:trigger Held(spans, p)} :: p in points ==> Held(spans, p))
    && (forall i, p {:trigger spans[i], Chained(points, p)} ::
         0 <= i < |spans| && p in points && spans[i].start <= p < spans[i].end ==> Chained(points, p))
  }

  // ----- the groups of a set of points are unique -----

  lemma FirstStart(spans: seq<Span>, points: set<Instant>)
    requires IsGroups(spans, points) && spans != []
    ensures spans[0].start in points && forall p :: p in points ==> spans[0].start <= p
  {
    forall p | p in points ensures spans[0].start <= p {
      assert Held(spans, p);
      var i :| 0 <= i < |spans| && Holds(spans[i], p);
    }
  }

  lemma NothingAfterEnd(spans: seq<Span>, points: set<Instant>, i: nat)
    requires IsGroups(spans, points) && i < |spans|
    ensures !Chained(points, spans[i].end)
  {
    forall q | q in points ensures !(spans[i].end < q <= spans[i].end + SPAN_MERGE_GAP_SECS) {
      assert Held(spans, q);
      var j :| 0 <= j < |spans| && Holds(spans[j], q);
    }
  }

  ghost function After(points: set<Instant>, t: Instant): set<Instant> {
    set p | p in points && p > t
  }

  lemma TailHolds(spans: seq<Span>, points: set<Instant>, p: Instant)
    requires IsGroups(spans, points) && spans != [] && p in After(points, spans[0].end)
    ensures Held(spans[1..], p)
  {
    assert Held(spans, p);
    var i :| 0 <= i < |spans| && Holds(spans[i], p);
    assert Holds(spans[1..][i - 1], p);
  }

  lemma TailChains(spans: seq<Span>, points: set<Instant>, i: nat, p: Instant)
    requires IsGroups(spans, points) && 0 < i < |spans|
    requires p in After(points, spans[0].end) && spans[i].start <= p < spans[i].end
    ensures Chained(After(points, spans[0].end), p)
  {
    assert spans[i] == spans[i] && Chained(points, p);
    var q :| q in points && p < q <= p + SPAN_MERGE_GAP_SECS;
    assert q in After(points, spans[0].end);
  }

  lemma TailHoldsAll(spans: seq<Span>, points: set<Instant>)
    requires IsGroups(spans, points) && spans != []
    ensures forall p {:trigger Held(spans[1..], p)} :: p in After(points, spans[0].end) ==> Held(spans[1..], p)
  {
    forall p | p in After(points, spans[0].end) ensures Held(spans[1..], p) {
      TailHolds(spans, points, p);
    }
  }

  lemma TailChainsAll(spans: seq<Span>, points: set<Instant>)
    requires IsGroups(spans, points) && spans != []
    ensures var tail, rest := spans[1..], After(points, spans[0].end);
            forall i, p {:trigger tail[i], Chained(rest, p)} ::
              0 <= i < |tail| && p in rest && tail[i].start <= p < tail[i].end ==> Chained(rest, p)
  {
    var tail, rest := spans[1..], After(points, spans[0].end);
    forall i, p | 0 <= i < |tail| && p in rest && tail[i].start <= p < tail[i].end ensures Chained(rest, p) {
      TailChains(spans, points, i + 1, p);
    }
  }

  lemma TailGroups(spans: seq<Span>, points: set<Instant>)
    requires IsGroups(spans, points) && spans != []
    ensures IsGroups(spans[1..], After(points, spans[0].end))
  {
    TailHoldsAll(spans, points);
    TailChainsAll(spans, points);
    TailShape(spans, points);
  }

  lemma TailShape(spans: seq<Span>, points: set<Instant>)
    requires spans != [] && Upright(spans) && Separate(spans)
    requires forall i :: 0 <= i < |spans| ==> spans[i].start in points && spans[i].end in points
    ensures var tail, rest := spans[1..], After(points, spans[0].end);
            Upright(tail) && Separate(tail) && forall i :: 0 <= i < |tail| ==>
                tail[i].start in rest && tail[i].end in rest
  {
  }

  lemma FirstEndNoLater(a: seq<Span>, b: seq<Span>, points: set<Instant>)
    requires IsGroups(a, points) && IsGroups(b, points) && a != [] && b != [] && a[0].start == b[0].start
    ensures b[0].end <= a[0].end
  {
    NothingAfterEnd(a, points, 0);
  }

  lemma {:induction false} GroupsUnique(a: seq<Span>, b: seq<Span>, points: set<Instant>)
    requires IsGroups(a, points) && IsGroups(b, points)
    ensures a == b
  {
    if a != [] {
      assert Held(b, a[0].start);
    }
    if b != [] {
      assert Held(a, b[0].start);
    }
    if a != [] {
      FirstStart(a, points);
      FirstStart(b, points);
      FirstEndNoLater(a, b, points);
      FirstEndNoLater(b, a, points);
      assert a[0] == b[0];
      TailGroups(a, points);
      TailGroups(b, points);
      GroupsUnique(a[1..], b[1..], After(points, a[0].end));
      assert a == [a[0]] + a[1..] && b == [b[0]] + b[1..];
    }
  }

  // ----- adding one point -----

  predicate JoinsLeft(spans: seq<Span>, n: nat, t: Instant)
    requires n <= |spans|
  {
    n > 0 && t - spans[n - 1].end <= SPAN_MERGE_GAP_SECS
  }

  function LeftPart(spans: seq<Span>, n: nat, t: Instant): Span
    requires n <= |spans|
  {
    if JoinsLeft(spans, n, t) then Span(spans[n - 1].start, Later(spans[n - 1].end, t)) else Span(t, t)
  }

  predicate JoinsRight(spans: seq<Span>, n: nat, t: Instant)
    requires n <= |spans|
  {
    n < |spans| && spans[n].start - LeftPart(spans, n, t).end <= SPAN_MERGE_GAP_SECS
  }

  function Middle(spans: seq<Span>, n: nat, t: Instant): Span
    requires n <= |spans|
  {
    if JoinsRight(spans, n, t) then Span(LeftPart(spans, n, t).start, spans[n].end) else LeftPart(spans, n, t)
  }

  /** The spans after the point `t` has been added behind the first `n`: up to two neighbours merge with it. */
  function Woven(spans: seq<Span>, n: nat, t: Instant): seq<Span>
    requires n <= |spans|
  {
    Kept(spans, n, t) +
    [Middle(spans, n, t)] +
    (if JoinsRight(spans, n, t) then spans[n + 1..] else spans[n..])
  }

  /** The first `n` spans start no later than `t`, the others later. */
  ghost predicate Splits(spans: seq<Span>, n: nat, t: Instant) {
    && n <= |spans|
    && (forall i :: 0 <= i < n ==> spans[i].start <= t)
    && (forall i :: n <= i < |spans| ==> spans[i].start > t)
  }

  lemma {:induction false} SplitExists(spans: seq<Span>, t: Instant) returns (n: nat)
    requires Upright(spans) && Separate(spans)
    ensures Splits(spans, n, t)
  {
    n := 0;
    while n < |spans| && spans[n].start <= t
      invariant n <= |spans|
      invariant forall i :: 0 <= i < n ==> spans[i].start <= t
    {
      n := n + 1;
    }
    if n < |spans| {
      forall i | n <= i < |spans| ensures spans[i].start > t {
        if i > n {
          assert spans[i].start - spans[n].end > SPAN_MERGE_GAP_SECS;
        }
      }
    }
  }

  lemma {:induction false} InsertAt(spans: seq<Span>, n: nat, x: Span)
    requires Splits(spans, n, x.start)
    ensures Insert(spans, x) == spans[..n] + [x] + spans[n..]
  {
    if n == |spans| {
      if n > 0 {
        assert spans[n - 1].start <= x.start;
      }
    } else {
      var init := spans[..|spans| - 1];
      assert Splits(init, n, x.start);
      InsertAt(init, n, x);
      assert spans[..n] == init[..n] && spans[n..] == init[n..] + [spans[|spans| - 1]];
    }
  }

  lemma {:induction false} SeparateIsSorted(spans: seq<Span>)
    requires Upright(spans) && Separate(spans)
    ensures SortByStart(spans) == spans
  {
    if spans != [] {
      var init, x := spans[..|spans| - 1], spans[|spans| - 1];
      SeparateIsSorted(init);
      if init != [] {
        assert init[|init| - 1] == spans[|init| - 1];
        assert x.start - spans[|init| - 1].end > SPAN_MERGE_GAP_SECS;
      }
      assert init + [x] == spans;
    }
  }

  /** A span out of reach of the last of `merged + tail` is appended. */
  lemma AbsorbAppends(merged: seq<Span>, tail: seq<Span>, x: Span)
    requires tail == [] && merged != [] ==> x.start - merged[|merged| - 1].end > SPAN_MERGE_GAP_SECS
    requires tail != [] ==> x.start - tail[|tail| - 1].end > SPAN_MERGE_GAP_SECS
    ensures Absorb(merged + tail, x) == merged + (tail + [x])
  {
    var all := merged + tail;
    if tail != [] {
      assert all[|all| - 1] == tail[|tail| - 1];
    } else {
      assert all == merged;
    }
    assert all + [x] == merged + (tail + [x]);
  }

  lemma SliceSnoc(s: seq<Span>, j: nat, k: nat)
    requires j < k <= |s|
    ensures s[j..k] == s[j..k - 1] + [s[k - 1]]
    ensures j < k - 1 ==> s[j..k - 1][k - 2 - j] == s[k - 2]
  {
  }

  predicate OutOfReach(spans: seq<Span>, i: int)
    requires 0 < i < |spans|
  {
    spans[i].start - spans[i - 1].end > SPAN_MERGE_GAP_SECS
  }

  /** Spans j to k, apart from each other and from what is merged before them, are appended as they are. */
  lemma {:induction false} MergeAppends(all: seq<Span>, merged: seq<Span>, j: nat, k: nat)
    requires j <= k <= |all| && MergeSorted(all, j) == merged
    requires forall i :: j < i < k ==> OutOfReach(all, i)
    requires merged != [] && j < k ==> all[j].start - merged[|merged| - 1].end > SPAN_MERGE_GAP_SECS
    ensures MergeSorted(all, k) == merged + all[j..k]
  {
    if j == k {
      assert merged + all[j..k] == merged;
    } else {
      MergeAppends(all, merged, j, k - 1);
      assert j < k - 1 ==> OutOfReach(all, k - 1);
      AbsorbAppends(merged, all[j..k - 1], all[k - 1]);
      SliceSnoc(all, j, k);
    }
  }

  /** The spans with the point `t` in its place. */
  function Placed(spans: seq<Span>, n: nat, t: Instant): (all: seq<Span>)
    requires n <= |spans|
    ensures |all| == |spans| + 1 && all[n] == Span(t, t)
    ensures forall i :: 0 <= i < n ==> all[i] == spans[i]
    ensures forall i :: n < i < |all| ==> all[i] == spans[i - 1]
  {
    spans[..n] + [Span(t, t)] + spans[n..]
  }

  function Kept(spans: seq<Span>, n: nat, t: Instant): seq<Span>
    requires n <= |spans|
  {
    if JoinsLeft(spans, n, t) then spans[..n - 1] else spans[..n]
  }

  /** The spans before the point, and the point merged into them. */
  lemma FirstPlacedMerged(spans: seq<Span>, n: nat, t: Instant)
    requires Separate(spans) && n <= |spans|
    ensures MergeSorted(Placed(spans, n, t), n) == spans[..n]
  {
    var all := Placed(spans, n, t);
    forall i | 0 < i < n ensures OutOfReach(all, i) {
      assert spans[i].start - spans[i - 1].end > SPAN_MERGE_GAP_SECS;
    }
    MergeAppends(all, [], 0, n);
    assert [] + all[0..n] == spans[..n];
  }

  lemma LeftMerged(spans: seq<Span>, n: nat, t: Instant)
    requires Separate(spans) && n <= |spans|
    ensures MergeSorted(Placed(spans, n, t), n + 1) == Kept(spans, n, t) + [LeftPart(spans, n, t)]
  {
    FirstPlacedMerged(spans, n, t);
    assert JoinsLeft(spans, n, t) ==> spans[..n] == spans[..n - 1] + [spans[n - 1]];
  }

  lemma LeftEndsBefore(spans: seq<Span>, n: nat, t: Instant)
    requires Upright(spans) && Separate(spans) && Splits(spans, n, t) && n < |spans|
    ensures LeftPart(spans, n, t).end < spans[n].start
  {
    if n > 0 {
      assert spans[n].start - spans[n - 1].end > SPAN_MERGE_GAP_SECS;
    }
  }

  lemma TailReach(all: seq<Span>, spans: seq<Span>, j: nat)
    requires Separate(spans) && j <= |spans|
    requires |all| == |spans| + 1 && all[j + 1..] == spans[j..]
    ensures forall i :: j + 1 < i < |all| ==> OutOfReach(all, i)
  {
    forall i | j + 1 < i < |all| ensures OutOfReach(all, i) {
      assert all[i] == all[j + 1..][i - j - 1] && all[i - 1] == all[j + 1..][i - j - 2];
      assert spans[i - 1].start - spans[i - 2].end > SPAN_MERGE_GAP_SECS;
    }
  }

  /** The spans behind the point stay as they are, but for a first one within reach. */
  lemma TailMerged(all: seq<Span>, spans: seq<Span>, j: nat, merged: seq<Span>)
    requires Separate(spans) && j <= |spans|
    requires |all| == |spans| + 1 && all[j + 1..] == spans[j..]
    requires MergeSorted(all, j + 1) == merged && merged != []
    requires j < |spans| ==> spans[j].start - merged[|merged| - 1].end > SPAN_MERGE_GAP_SECS
    ensures MergeSorted(all, |all|) == merged + spans[j..]
  {
    TailReach(all, spans, j);
    if j < |spans| {
      assert all[j + 1] == all[j + 1..][0];
    }
    MergeAppends(all, merged, j + 1, |all|);
    assert all[j + 1..|all|] == all[j + 1..];
  }

  lemma RightMerged(spans: seq<Span>, n: nat, t: Instant, j: nat, merged: seq<Span>)
    requires Separate(spans) && n <= j <= |spans|
    requires MergeSorted(Placed(spans, n, t), j + 1) == merged && merged != []
    requires j < |spans| ==> spans[j].start - merged[|merged| - 1].end > SPAN_MERGE_GAP_SECS
    ensures MergeSorted(Placed(spans, n, t), |spans| + 1) == merged + spans[j..]
  {
    PlacedTail(spans, n, t, j);
    TailMerged(Placed(spans, n, t), spans, j, merged);
  }

  lemma PlacedTail(spans: seq<Span>, n: nat, t: Instant, j: nat)
    requires n <= j <= |spans|
    ensures Placed(spans, n, t)[j + 1..] == spans[j..]
  {
  }

  /** A first span behind the point and within reach takes the point and what it had joined into it. */
  lemma MiddleMerged(spans: seq<Span>, n: nat, t: Instant)
    requires Upright(spans) && Separate(spans) && Splits(spans, n, t) && JoinsRight(spans, n, t)
    ensures MergeSorted(Placed(spans, n, t), n + 2) == Kept(spans, n, t) + [Middle(spans, n, t)]
  {
    LeftMerged(spans, n, t);
    LeftEndsBefore(spans, n, t);
    assert Placed(spans, n, t)[n + 1] == spans[n];
    var merged := Kept(spans, n, t) + [LeftPart(spans, n, t)];
    assert merged[|merged| - 1 := Middle(spans, n, t)] == Kept(spans, n, t) + [Middle(spans, n, t)];
  }

  lemma PlacedMerges(spans: seq<Span>, n: nat, t: Instant)
    requires Upright(spans) && Separate(spans) && Splits(spans, n, t)
    ensures MergeSorted(Placed(spans, n, t), |spans| + 1) == Woven(spans, n, t)
  {
    var merged := Kept(spans, n, t) + [Middle(spans, n, t)];
    if JoinsRight(spans, n, t) {
      MiddleMerged(spans, n, t);
      if n + 1 < |spans| {
        assert spans[n + 1].start - spans[n].end > SPAN_MERGE_GAP_SECS;
      }
      RightMerged(spans, n, t, n + 1, merged);
    } else {
      LeftMerged(spans, n, t);
      RightMerged(spans, n, t, n, merged);
    }
  }

  /** Merging a point into spans that are apart is weaving it in. */
  lemma MergedIsWoven(spans: seq<Span>, n: nat, t: Instant)
    requires Upright(spans) && Separate(spans) && Splits(spans, n, t)
    ensures Merged(spans, Span(t, t)) == Woven(spans, n, t)
  {
    var x := Span(t, t);
    SeparateIsSorted(spans);
    assert (spans + [x])[..|spans|] == spans;
    InsertAt(spans, n, x);
    PlacedMerges(spans, n, t);
  }

  // ----- weaving a point into the groups gives the groups with the point -----

  lemma {:induction false} LargestOf(points: set<Instant>) returns (top: Instant)
    requires points != {}
    ensures top in points && forall p :: p in points ==> p <= top
  {
    var x :| x in points;
    if points == {x} {
      top := x;
    } else {
      var below := LargestOf(points - {x});
      top := if x > below then x else below;
      forall p | p in points ensures p <= top {
        if p != x {
          assert p in points - {x};
        }
      }
    }
  }

  lemma ChainedStays(points: set<Instant>, t: Instant, p: Instant)
    requires Chained(points, p)
    ensures Chained(points + {t}, p)
  {
    var q :| q in points && p < q <= p + SPAN_MERGE_GAP_SECS;
    assert q in points + {t};
  }

  /** A moment inside a group is followed by a point of the group within the gap. */
  lemma InsideIsChained(spans: seq<Span>, points: set<Instant>, i: nat, t: Instant)
    requires IsGroups(spans, points) && i < |spans| && spans[i].start <= t < spans[i].end
    ensures Chained(points, t)
  {
    var earlier := set p | p in points && spans[i].start <= p <= t;
    assert spans[i].start in earlier;
    var last := LargestOf(earlier);
    assert spans[i] == spans[i] && Chained(points, last);
    var q :| q in points && last < q <= last + SPAN_MERGE_GAP_SECS;
    assert q <= t ==> q in earlier;
  }

  lemma WovenAt(spans: seq<Span>, n: nat, t: Instant, i: nat)
    requires n <= |spans| && i < |Woven(spans, n, t)|
    ensures var left, right := |Kept(spans, n, t)|, if JoinsRight(spans, n, t) then n + 1 else n;
            var woven := Woven(spans, n, t);
            && |woven| == left + 1 + (|spans| - right)
            && (i < left ==> woven[i] == spans[i])
            && (i == left ==> woven[i] == Middle(spans, n, t))
            && (i > left ==> woven[i] == spans[right + (i - left - 1)])
  {
  }

  lemma ApartFromPoint(spans: seq<Span>, n: nat, t: Instant, j: nat)
    requires Upright(spans) && Separate(spans) && Splits(spans, n, t) && j < |spans|
    ensures j < |Kept(spans, n, t)| ==> spans[j].end < t
    ensures j >= n ==> t < spans[j].start
  {
    if j < n - 1 {
      assert spans[n - 1].start - spans[j].end > SPAN_MERGE_GAP_SECS;
    }
  }

  lemma WovenParts(spans: seq<Span>, n: nat, t: Instant, i: nat) returns (j: nat)
    requires Upright(spans) && Separate(spans) && Splits(spans, n, t)
    requires i < |Woven(spans, n, t)|
    ensures Woven(spans, n, t)[i] != Middle(spans, n, t) ==>
              j < |spans| && spans[j] == Woven(spans, n, t)[i] && (t < spans[j].start || spans[j].end < t)
  {
    var left := |Kept(spans, n, t)|;
    WovenAt(spans, n, t, i);
    j := if i < left then i else if i > left then (if JoinsRight(spans, n, t) then n + 1 else n) + (i - left - 1)
        else 0;
    if i != left {
      ApartFromPoint(spans, n, t, j);
    }
  }

  lemma MiddleHoldsPoint(spans: seq<Span>, n: nat, t: Instant)
    requires Upright(spans) && Separate(spans) && Splits(spans, n, t)
    ensures Held(Woven(spans, n, t), t)
  {
    if n < |spans| {
      LeftEndsBefore(spans, n, t);
    }
    WovenAt(spans, n, t, |Kept(spans, n, t)|);
    assert Holds(Woven(spans, n, t)[|Kept(spans, n, t)|], t);
  }

  lemma WovenHolds(spans: seq<Span>, points: set<Instant>, n: nat, t: Instant, p: Instant)
    requires IsGroups(spans, points) && Splits(spans, n, t) && p in points + {t}
    requires AllInside(spans, Woven(spans, n, t))
    ensures Held(Woven(spans, n, t), p)
  {
    if p == t {
      MiddleHoldsPoint(spans, n, t);
    } else {
      assert Held(spans, p);
      var i :| 0 <= i < |spans| && Holds(spans[i], p);
      StillHeld(spans, Woven(spans, n, t), i, p);
    }
  }

  lemma StillHeld(spans: seq<Span>, woven: seq<Span>, i: nat, p: Instant)
    requires i < |spans| && Holds(spans[i], p) && AllInside(spans, woven)
    ensures Held(woven, p)
  {
    assert Inside(spans[i], woven);
    var j :| 0 <= j < |woven| && woven[j].start <= spans[i].start && spans[i].end <= woven[j].end;
    assert Holds(woven[j], p);
  }

  lemma ApartFromMiddle(spans: seq<Span>, n: nat, t: Instant, i: nat, p: Instant)
    requires Upright(spans) && Separate(spans) && Splits(spans, n, t) && i < |spans| && Holds(spans[i], p)
    ensures i < n - 1 ==> p < spans[n - 1].start
    ensures i > n ==> p > spans[n].end
  {
  }

  /** A point of the merged span is one of the groups that were joined. */
  lemma PartOfMiddle(spans: seq<Span>, points: set<Instant>, n: nat, t: Instant, p: Instant)
    requires IsGroups(spans, points) && Splits(spans, n, t) && p in points && Holds(Middle(spans, n, t), p)
    ensures (JoinsLeft(spans, n, t) && Holds(spans[n - 1], p)) || (JoinsRight(spans, n, t) && Holds(spans[n], p)) ||
              p == t
  {
    assert Held(spans, p);
    var i :| 0 <= i < |spans| && Holds(spans[i], p);
    if n < |spans| {
      LeftEndsBefore(spans, n, t);
    }
    ApartFromMiddle(spans, n, t, i, p);
  }

  lemma MiddleChains(spans: seq<Span>, points: set<Instant>, n: nat, t: Instant, p: Instant)
    requires IsGroups(spans, points) && Splits(spans, n, t) && p in points + {t}
    requires Middle(spans, n, t).start <= p < Middle(spans, n, t).end
    ensures Chained(points + {t}, p)
  {
    var all := points + {t};
    var left, right := JoinsLeft(spans, n, t), JoinsRight(spans, n, t);
    if right {
      assert spans[n].start in all;
    }
    if p != t {
      PartOfMiddle(spans, points, n, t, p);
    }
    if left && spans[n - 1].start <= p < spans[n - 1].end {
      InsideIsChained(spans, points, n - 1, p);
      ChainedStays(points, t, p);
    } else if right && spans[n].start <= p < spans[n].end {
      InsideIsChained(spans, points, n, p);
      ChainedStays(points, t, p);
    } else if p == t || t <= p {
      assert right && p < spans[n].start <= p + SPAN_MERGE_GAP_SECS;
    } else {
      assert t in all && p < t <= p + SPAN_MERGE_GAP_SECS;
    }
  }

  lemma WovenChains(spans: seq<Span>, points: set<Instant>, n: nat, t: Instant, i: nat, p: Instant)
    requires IsGroups(spans, points) && Splits(spans, n, t) && p in points + {t}
    requires i < |Woven(spans, n, t)| && Woven(spans, n, t)[i].start <= p < Woven(spans, n, t)[i].end
    ensures Chained(points + {t}, p)
  {
    var j := WovenParts(spans, n, t, i);
    if Woven(spans, n, t)[i] == Middle(spans, n, t) {
      MiddleChains(spans, points, n, t, p);
    } else {
      InsideIsChained(spans, points, j, p);
      ChainedStays(points, t, p);
    }
  }

  lemma WovenEndpoints(spans: seq<Span>, points: set<Instant>, n: nat, t: Instant, i: nat)
    requires IsGroups(spans, points) && Splits(spans, n, t) && i < |Woven(spans, n, t)|
    ensures Woven(spans, n, t)[i].start in points + {t} && Woven(spans, n, t)[i].end in points + {t}
  {
    var j := WovenParts(spans, n, t, i);
  }

  /** Recording a point turns the groups of the points so far into the groups with the point. */
  lemma PointJoinsGroups(spans: seq<Span>, points: set<Instant>, t: Instant)
    requires IsGroups(spans, points)
    ensures IsGroups(Merged(spans, Span(t, t)), points + {t})
  {
    var n := SplitExists(spans, t);
    var woven, all := Woven(spans, n, t), points + {t};
    MergedIsWoven(spans, n, t);
    MergedSound(spans, Span(t, t));
    forall i | 0 <= i < |woven| ensures woven[i].start in all && woven[i].end in all {
      WovenEndpoints(spans, points, n, t, i);
    }
    forall p | p in all ensures Held(woven, p) {
      WovenHolds(spans, points, n, t, p);
    }
    forall i, p | 0 <= i < |woven| && p in all && woven[i].start <= p < woven[i].end ensures Chained(all, p) {
      WovenChains(spans, points, n, t, i, p);
    }
  }

  // ----- order does not matter -----

  /** The spans after recording the points one by one. */
  function Recorded(times: seq<Instant>): seq<Span> {
    if times == [] then [] else Extended(Recorded(times[..|times| - 1]), Span(times[|times| - 1], times[|times| - 1]))
  }

  function PointsOf(times: seq<Instant>): set<Instant> {
    set t | t in times
  }

  /** No call had to close a gap: after each point there were at most 100 spans. */
  predicate CapNotReached(times: seq<Instant>) {
    times == [] || (
    && CapNotReached(times[..|times| - 1])
    && |Merged(Recorded(times[..|times| - 1]), Span(times[|times| - 1], times[|times| - 1]))| <= MAX_SPANS_PER_FILE)
  }

  /** While the cap is not reached, what is recorded is the groups of the points. */
  lemma {:induction false} RecordedIsGroups(times: seq<Instant>)
    requires CapNotReached(times)
    ensures IsGroups(Recorded(times), PointsOf(times))
  {
    if times != [] {
      var init, t := times[..|times| - 1], times[|times| - 1];
      RecordedIsGroups(init);
      PointJoinsGroups(Recorded(init), PointsOf(init), t);
      assert times == init + [t];
      assert PointsOf(times) == PointsOf(init) + {t};
    }
  }

  /** The same points in any order, each any number of times, give the same spans. */
  lemma OrderDoesNotMatter(a: seq<Instant>, b: seq<Instant>)
    requires PointsOf(a) == PointsOf(b) && CapNotReached(a) && CapNotReached(b)
    ensures Recorded(a) == Recorded(b)
  {
    RecordedIsGroups(a);
    RecordedIsGroups(b);
    GroupsUnique(Recorded(a), Recorded(b), PointsOf(a));
  }

  /** Up to 100 points never reach the cap. */
  lemma {:induction false} FewPointsStayBelowCap(times: seq<Instant>)
    requires |times| <= 100
    ensures CapNotReached(times) && |Recorded(times)| <= |times|
  {
    if times != [] {
      var init, t := times[..|times| - 1], times[|times| - 1];
      FewPointsStayBelowCap(init);
      RecordedIsGroups(init);
      MergedSound(Recorded(init), Span(t, t));
    }
  }
}
