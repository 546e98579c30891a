/** The cap on the number of spans: closing the smallest gap again and again leaves at most 100 spans
    and adds as little activity time as any way to leave so few.
 */
module ActivityCap {
  import opened ActivitySpans

  // ----- every way to close gaps -----

  /** The first `n` spans with exactly the gaps in `keep` left open; gap g lies behind span g. */
  ghost function Joined(spans: seq<Span>, keep: set<int>, n: nat): (joined: seq<Span>)
    requires n <= |spans|
    ensures n > 0 ==> joined != []
  {
    if n == 0 then []
    else
      var before := Joined(spans, keep, n - 1);
      if n == 1 || n - 2 in keep then before + [spans[n - 1]]
      else before[|before| - 1 := Span(before[|before| - 1].start, spans[n - 1].end)]
  }

  function Duration(spans: seq<Span>): int {
    if spans == [] then 0 else Duration(spans[..|spans| - 1]) + (spans[|spans| - 1].end - spans[|spans| - 1].start)
  }

  /** How many of the first `n` gaps stay open, and their length. */
  ghost function KeptCount(keep: set<int>, n: nat): nat {
    if n == 0 then 0 else KeptCount(keep, n - 1) + (if n - 1 in keep then 1 else 0)
  }

  ghost function KeptGaps(spans: seq<Span>, keep: set<int>, n: nat): int
    requires n < |spans| || n == 0
  {
    if n == 0 then 0 else KeptGaps(spans, keep, n - 1) + (if n - 1 in keep then Gap(spans, n - 1) else 0)
  }

  lemma {:induction false} JoinedCount(spans: seq<Span>, keep: set<int>, n: nat)
    requires 0 < n <= |spans|
    ensures |Joined(spans, keep, n)| == 1 + KeptCount(keep, n - 1)
  {
    if n > 1 {
      JoinedCount(spans, keep, n - 1);
    }
  }

  lemma DurationGrows(spans: seq<Span>, end: Instant)
    requires spans != []
    ensures var last := spans[|spans| - 1];
            Duration(spans[|spans| - 1 := Span(last.start, end)]) == Duration(spans) + end - last.end
  {
    var last := spans[|spans| - 1];
    var after := spans[|spans| - 1 := Span(last.start, end)];
    assert after[..|after| - 1] == spans[..|spans| - 1];
  }

  lemma {:induction false} JoinedLast(spans: seq<Span>, keep: set<int>, n: nat)
    requires 0 < n <= |spans|
    ensures Joined(spans, keep, n)[|Joined(spans, keep, n)| - 1].end == spans[n - 1].end
  {
  }

  /** The time covered is the whole stretch less the gaps left open. */
  lemma {:induction false} JoinedDuration(spans: seq<Span>, keep: set<int>, n: nat)
    requires 0 < n <= |spans|
    ensures Duration(Joined(spans, keep, n)) == spans[n - 1].end - spans[0].start - KeptGaps(spans, keep, n - 1)
  {
    var joined := Joined(spans, keep, n);
    if n == 1 {
      assert Joined(spans, keep, 0) == [] && joined == [spans[0]];
      assert joined[..0] == [];
    } else {
      var before := Joined(spans, keep, n - 1);
      JoinedDuration(spans, keep, n - 1);
      JoinedLast(spans, keep, n - 1);
      if n - 2 in keep {
        assert joined[..|joined| - 1] == before;
      } else {
        DurationGrows(before, spans[n - 1].end);
      }
    }
  }

  lemma AppendApart(before: seq<Span>, x: Span)
    requires Upright(before) && Separate(before) && x.start <= x.end
    requires before != [] ==> x.start - before[|before| - 1].end > SPAN_MERGE_GAP_SECS
    ensures Upright(before + [x]) && Separate(before + [x])
  {
    forall i | 0 <= i < |before| - 1 ensures x.start - before[i].end > SPAN_MERGE_GAP_SECS {
      assert before[|before| - 1].start - before[i].end > SPAN_MERGE_GAP_SECS;
    }
  }

  lemma ExtendApart(before: seq<Span>, end: Instant)
    requires Upright(before) && Separate(before) && before != [] && end >= before[|before| - 1].end
    ensures var after := before[|before| - 1 := Span(before[|before| - 1].start, end)];
              Upright(after) && Separate(after)
  {
  }

  /** Closing gaps keeps the spans apart. */
  lemma {:induction false} JoinedApart(spans: seq<Span>, keep: set<int>, n: nat)
    requires 0 < n <= |spans| && Upright(spans) && Separate(spans)
    ensures Upright(Joined(spans, keep, n)) && Separate(Joined(spans, keep, n))
  {
    if n > 1 {
      JoinedApart(spans, keep, n - 1);
      JoinedLast(spans, keep, n - 1);
      assert spans[n - 1].start - spans[n - 2].end > SPAN_MERGE_GAP_SECS;
      if n - 2 in keep {
        AppendApart(Joined(spans, keep, n - 1), spans[n - 1]);
      } else {
        ExtendApart(Joined(spans, keep, n - 1), spans[n - 1].end);
      }
    }
  }

  lemma InsideGrown(y: Span, before: seq<Span>, after: seq<Span>)
    requires Inside(y, before) && |after| >= |before|
    requires forall j :: 0 <= j < |before| ==> after[j].start == before[j].start && after[j].end >= before[j].end
    ensures Inside(y, after)
  {
    var j :| 0 <= j < |before| && before[j].start <= y.start && y.end <= before[j].end;
    assert after[j].start <= y.start && y.end <= after[j].end;
  }

  lemma InsideLast(y: Span, spans: seq<Span>)
    requires spans != [] && spans[|spans| - 1].start <= y.start && y.end <= spans[|spans| - 1].end
    ensures Inside(y, spans)
  {
  }

  /** And covers what was covered. */
  lemma {:induction false} JoinedCovers(spans: seq<Span>, keep: set<int>, n: nat, i: nat)
    requires i < n <= |spans| && Upright(spans) && Separate(spans)
    ensures Inside(spans[i], Joined(spans, keep, n))
  {
    if n == 1 {
      assert Joined(spans, keep, 0) == [];
      InsideLast(spans[i], Joined(spans, keep, n));
    } else {
      var before := Joined(spans, keep, n - 1);
      JoinedLast(spans, keep, n - 1);
      assert spans[n - 1].start - spans[n - 2].end > SPAN_MERGE_GAP_SECS;
      if i < n - 1 {
        JoinedCovers(spans, keep, n - 1, i);
        InsideGrown(spans[i], before, Joined(spans, keep, n));
      } else {
        JoinedApart(spans, keep, n - 1);
        assert before[|before| - 1].start <= before[|before| - 1].end;
        InsideLast(spans[i], Joined(spans, keep, n));
      }
    }
  }

  // ----- the loop is one of these ways -----

  /** The gaps open after gap `i` was closed, numbered as before it was closed. */
  ghost function Reopened(keep: set<int>, i: int): set<int> {
    set g | g in keep && g < i :: g
  }

  ghost function Shifted(keep: set<int>, i: int): set<int> {
    Reopened(keep, i) + (set g | g in keep && g >= i :: g + 1)
  }

  lemma ShiftedIn(keep: set<int>, i: int, g: int)
    ensures g in Shifted(keep, i) <==> (g < i && g in keep) || (g > i && g - 1 in keep)
  {
    if g > i && g - 1 in keep {
      assert g == (g - 1) + 1;
    }
  }

  /** `closed` is `spans` with gap `i` closed. */
  ghost predicate LacksGap(closed: seq<Span>, spans: seq<Span>, i: int) {
    && 0 <= i < |spans| - 1 && |closed| == |spans| - 1
    && closed[i] == Span(spans[i].start, spans[i + 1].end)
    && (forall j {:trigger closed[j]} :: 0 <= j < |closed| && j != i ==> closed[j] == spans[if j < i then j else j + 1])
  }

  lemma ClosedLacks(spans: seq<Span>, i: nat)
    requires i < |spans| - 1 && Upright(spans) && Separate(spans)
    ensures LacksGap(CloseGap(spans, i), spans, i)
  {
    assert spans[i + 1].start - spans[i].end > SPAN_MERGE_GAP_SECS;
  }

  lemma {:induction false} PrefixUnclosed(closed: seq<Span>, spans: seq<Span>, i: nat, keep: set<int>, n: nat)
    requires LacksGap(closed, spans, i) && n <= i
    ensures Joined(closed, keep, n) == Joined(spans, Shifted(keep, i), n)
  {
    if n > 0 {
      PrefixUnclosed(closed, spans, i, keep, n - 1);
      ShiftedIn(keep, i, n - 2);
    }
  }

  lemma {:induction false} SuffixClosed(closed: seq<Span>, spans: seq<Span>, i: nat, keep: set<int>, n: nat)
    requires LacksGap(closed, spans, i) && i + 1 < n <= |spans|
    ensures Joined(closed, keep, n - 1) == Joined(spans, Shifted(keep, i), n)
  {
    if n == i + 2 {
      FirstClosed(closed, spans, i, keep);
    } else {
      ShiftedIn(keep, i, n - 2);
      SuffixClosed(closed, spans, i, keep, n - 1);
    }
  }

  lemma AllClosed(closed: seq<Span>, spans: seq<Span>, i: nat, keep: set<int>)
    requires LacksGap(closed, spans, i)
    ensures Joined(closed, keep, |closed|) == Joined(spans, Shifted(keep, i), |spans|)
  {
    SuffixClosed(closed, spans, i, keep, |spans|);
  }

  lemma FirstClosed(closed: seq<Span>, spans: seq<Span>, i: nat, keep: set<int>)
    requires LacksGap(closed, spans, i)
    ensures Joined(closed, keep, i + 1) == Joined(spans, Shifted(keep, i), i + 2)
  {
    PrefixUnclosed(closed, spans, i, keep, i);
    ShiftedIn(keep, i, i);
    ShiftedIn(keep, i, i - 1);
    LastExtended(Joined(spans, Shifted(keep, i), i), spans[i], spans[i + 1].end);
  }

  lemma LastExtended(before: seq<Span>, x: Span, end: Instant)
    ensures (before + [x])[|before| := Span(x.start, end)] == before + [Span(x.start, end)]
    ensures before != [] ==>
              before[|before| - 1 := Span(before[|before| - 1].start,
                  x.end)][|before| - 1 := Span(before[|before| - 1].start, end)]
              == before[|before| - 1 := Span(before[|before| - 1].start, end)]
  {
  }

  ghost predicate AllGapsFrom(spans: seq<Span>, low: int) {
    forall g {:trigger Gap(spans, g)} :: 0 <= g < |spans| - 1 ==> Gap(spans, g) >= low
  }

  /** No gap that is closed is wider than `level`, none that stays open is narrower. */
  ghost predicate ClosesNarrow(spans: seq<Span>, keep: set<int>, level: int) {
    forall g {:trigger Gap(spans, g)} :: 0 <= g < |spans| - 1 ==>
        if g in keep then Gap(spans, g) >= level else Gap(spans, g) <= level
  }

  lemma ClosedGap(closed: seq<Span>, spans: seq<Span>, i: nat, g: nat)
    requires LacksGap(closed, spans, i) && g < |closed| - 1
    ensures Gap(closed, g) == Gap(spans, if g < i then g else g + 1)
  {
  }

  lemma ClosedApart(closed: seq<Span>, spans: seq<Span>, i: nat)
    requires LacksGap(closed, spans, i) && Upright(spans) && Separate(spans)
    ensures Upright(closed) && Separate(closed)
  {
    forall j, k | 0 <= j < k < |closed| ensures closed[k].start - closed[j].end > SPAN_MERGE_GAP_SECS {
      var j', k' := if j < i then j else j + 1, if k <= i then k else k + 1;
      assert spans[k'].start - spans[j'].end > SPAN_MERGE_GAP_SECS;
    }
    assert spans[i + 1].start - spans[i].end > SPAN_MERGE_GAP_SECS;
  }

  lemma NarrowStep(closed: seq<Span>, spans: seq<Span>, i: nat, keep: set<int>, level: int)
    requires LacksGap(closed, spans, i)
    requires ClosesNarrow(closed, keep, level) && Gap(spans, i) <= level
    ensures ClosesNarrow(spans, Shifted(keep, i), level)
  {
    forall g | 0 <= g < |spans| - 1
      ensures if g in Shifted(keep, i) then Gap(spans, g) >= level else Gap(spans, g) <= level
    {
      ShiftedIn(keep, i, g);
      if g != i {
        ClosedGap(closed, spans, i, if g < i then g else g - 1);
      }
    }
  }

  lemma GapsAbove(closed: seq<Span>, spans: seq<Span>, i: nat, low: int)
    requires LacksGap(closed, spans, i) && AllGapsFrom(spans, low)
    ensures AllGapsFrom(closed, low)
  {
    forall g | 0 <= g < |closed| - 1 ensures Gap(closed, g) >= low {
      ClosedGap(closed, spans, i, g);
    }
  }

  ghost function AllBelow(n: nat): (all: set<int>)
    ensures forall g :: g in all <==> 0 <= g < n
  {
    if n == 0 then {} else AllBelow(n - 1) + {n - 1}
  }

  lemma {:induction false} JoinedAll(spans: seq<Span>, keep: set<int>, n: nat)
    requires n <= |spans| && forall g :: 0 <= g < n - 1 ==> g in keep
    ensures Joined(spans, keep, n) == spans[..n]
  {
    if n > 0 {
      JoinedAll(spans, keep, n - 1);
      assert n > 1 ==> n - 2 in keep;
      assert spans[..n] == spans[..n - 1] + [spans[n - 1]];
    }
  }

  /** The cap loop closes gaps and nothing else, down to 100 spans, and no gap it closes is wider than
      any it leaves open. */
  lemma {:induction false} CappedCloses(spans: seq<Span>, low: int) returns (keep: set<int>, level: int)
    requires spans != [] && Upright(spans) && Separate(spans) && AllGapsFrom(spans, low)
    ensures Capped(spans) == Joined(spans, keep, |spans|)
    ensures ClosesNarrow(spans, keep, level) && level >= low
    decreases |spans|
  {
    if |spans| <= MAX_SPANS_PER_FILE {
      keep, level := AllBelow(|spans|), low;
      assert Capped(spans) == spans;
      NothingClosed(spans, low);
    } else {
      var i, closed := ClosingKeepsShape(spans, low);
      var keep', level' := CappedCloses(closed, Gap(spans, i));
      keep, level := Shifted(keep', i), level';
      AllClosed(closed, spans, i, keep');
      NarrowStep(closed, spans, i, keep', level);
    }
  }

  lemma ClosingKeepsShape(spans: seq<Span>, low: int) returns (i: nat, closed: seq<Span>)
    requires |spans| > MAX_SPANS_PER_FILE && Upright(spans) && Separate(spans) && AllGapsFrom(spans, low)
    ensures LacksGap(closed, spans, i) && Gap(spans, i) >= low && Capped(spans) == Capped(closed)
    ensures Upright(closed) && Separate(closed) && AllGapsFrom(closed, Gap(spans, i))
  {
    i := SmallestBelow(spans, |spans| - 1);
    closed := CloseGap(spans, i);
    SmallestIsLow(spans);
    ClosedLacks(spans, i);
    ClosedApart(closed, spans, i);
    GapsAbove(closed, spans, i, Gap(spans, i));
    assert Gap(spans, i) >= low;
  }

  lemma {:induction false} CappedCount(spans: seq<Span>)
    ensures |Capped(spans)| == if |spans| <= 100 then |spans| else 100
    decreases |spans|
  {
    if |spans| > MAX_SPANS_PER_FILE {
      CappedCount(CloseGap(spans, SmallestBelow(spans, |spans| - 1)));
    }
  }

  lemma NothingClosed(spans: seq<Span>, low: int)
    requires AllGapsFrom(spans, low)
    ensures Joined(spans, AllBelow(|spans|), |spans|) == spans && ClosesNarrow(spans, AllBelow(|spans|), low)
  {
    JoinedAll(spans, AllBelow(|spans|), |spans|);
    assert spans[..|spans|] == spans;
  }

  lemma GapsNotNegative(spans: seq<Span>)
    requires Separate(spans)
    ensures AllGapsFrom(spans, 0)
  {
  }

  lemma SmallestIsLow(spans: seq<Span>)
    requires |spans| > 1
    ensures AllGapsFrom(spans, Gap(spans, SmallestBelow(spans, |spans| - 1)))
  {
    var i := SmallestBelow(spans, |spans| - 1);
    forall g | 0 <= g < |spans| - 1 ensures Gap(spans, g) >= Gap(spans, i) {
      if g < i {
        assert Gap(spans, i) < Gap(spans, g);
      }
    }
  }

  // ----- no other way adds less -----

  /** Gap by gap: measured against the level, no choice of open gaps beats the loop's. */
  lemma {:induction false} KeptIsBest(spans: seq<Span>, keep: set<int>, other: set<int>, level: int, n: nat)
    requires n < |spans| && ClosesNarrow(spans, keep, level)
    ensures KeptGaps(spans, other, n) - level * KeptCount(other, n) <=
              KeptGaps(spans, keep, n) - level * KeptCount(keep, n)
  {
    if n > 0 {
      KeptIsBest(spans, keep, other, level, n - 1);
      assert if n - 1 in keep then Gap(spans, n - 1) >= level else Gap(spans, n - 1) <= level;
      Distribute(level, KeptCount(keep, n - 1));
      Distribute(level, KeptCount(other, n - 1));
    }
  }

  lemma Distribute(a: int, b: int)
    ensures a * (b + 1) == a * b + a
  {
  }

  lemma Scales(a: int, b: int, c: int)
    requires a >= 0 && b <= c
    ensures a * b <= a * c
  {
  }

  /** Of all the ways to close gaps that leave at most 100 spans, the loop's adds the least time. */
  lemma CapIsOptimal(spans: seq<Span>, other: set<int>)
    requires spans != [] && Upright(spans) && Separate(spans)
    requires |Joined(spans, other, |spans|)| <= 100
    ensures Duration(Capped(spans)) <= Duration(Joined(spans, other, |spans|))
  {
    var n := |spans|;
    GapsNotNegative(spans);
    var keep, level := CappedCloses(spans, 0);
    CappedCount(spans);
    JoinedCount(spans, keep, n);
    JoinedCount(spans, other, n);
    KeptAtMost(other, n - 1);
    MostGapsKept(spans, keep, other, level);
    JoinedDuration(spans, keep, n);
    JoinedDuration(spans, other, n);
  }

  lemma MostGapsKept(spans: seq<Span>, keep: set<int>, other: set<int>, level: int)
    requires spans != [] && ClosesNarrow(spans, keep, level) && level >= 0
    requires KeptCount(other, |spans| - 1) <= KeptCount(keep, |spans| - 1)
    ensures KeptGaps(spans, other, |spans| - 1) <= KeptGaps(spans, keep, |spans| - 1)
  {
    KeptIsBest(spans, keep, other, level, |spans| - 1);
    Scales(level, KeptCount(other, |spans| - 1), KeptCount(keep, |spans| - 1));
  }

  lemma {:induction false} KeptAtMost(keep: set<int>, n: nat)
    ensures KeptCount(keep, n) <= n
  {
    if n > 0 {
      KeptAtMost(keep, n - 1);
    }
  }

  /** Whatever was recorded before: at most 100 spans, in order, more than 30 seconds apart, covering
      every span there was and the new one. */
  lemma ExtendedSound(spans: seq<Span>, x: Span)
    requires Upright(spans) && x.start <= x.end
    ensures var after := Extended(spans, x);
            |after| <= 100 && Upright(after) && Separate(after) && AllInside(spans, after) &&
                Inside(x, after)
  {
    var merged := Merged(spans, x);
    MergedSound(spans, x);
    assert merged != [];
    var keep, level := CappedCloses(merged, SPAN_MERGE_GAP_SECS);
    JoinedApart(merged, keep, |merged|);
    CappedCount(merged);
    forall y | Inside(y, merged) ensures Inside(y, Capped(merged)) {
      StaysInside(merged, keep, y);
    }
    forall i | 0 <= i < |spans| ensures Inside(spans[i], Capped(merged)) {
      assert Inside(spans[i], merged);
    }
  }

  lemma StaysInside(spans: seq<Span>, keep: set<int>, y: Span)
    requires Upright(spans) && Separate(spans) && Inside(y, spans)
    ensures Inside(y, Joined(spans, keep, |spans|))
  {
    var joined := Joined(spans, keep, |spans|);
    var i :| 0 <= i < |spans| && spans[i].start <= y.start && y.end <= spans[i].end;
    JoinedCovers(spans, keep, |spans|, i);
    var j :| 0 <= j < |joined| && joined[j].start <= spans[i].start && spans[i].end <= joined[j].end;
    assert joined[j].start <= y.start && y.end <= joined[j].end;
  }
}
