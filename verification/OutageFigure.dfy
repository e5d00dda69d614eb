/** What the downtime figure guarantees to its readers, for every list of segments. */
module OutageFigure {
  import opened Options
  import opened OutageWindows

  /** A tick counts if it lies in the window and between the start and the end of some segment, which is the present
      while it has none; the window, too, ends at the present if it has no end. */
  lemma MeasureTells(segments: seq<Segment>, windowStart: Option<int>, windowEnd: Option<int>, now: int, t: int)
    ensures Measure(segments, windowStart, windowEnd, now) == |DownWithin(segments, windowStart, windowEnd, now)|
    ensures t in DownWithin(segments, windowStart, windowEnd, now) <==>
      && (exists s :: s in segments && s.started <= t < if s.ended == None then now else s.ended.value)
      && (windowStart.None? || windowStart.value <= t)
      && (if windowEnd.None? then t < now else t < windowEnd.value)
  {
    InDown(segments, now, t);
    if s :| s in segments && Covers(s, now, t) {
      assert s.started <= t < if s.ended == None then now else s.ended.value;
    }
    if s :| s in segments && s.started <= t < if s.ended == None then now else s.ended.value {
      assert Covers(s, now, t);
    }
  }

  /** By start, and by end where starts are equal. */
  lemma SortedTells(s: seq<Interval>)
    ensures var r := SortPairs(s);
      forall i, j :: 0 <= i < j < |r| ==> r[i].lo < r[j].lo || (r[i].lo == r[j].lo && r[i].hi <= r[j].hi)
  {
    assert forall i, j :: 0 <= i < j < |SortPairs(s)| ==> PairLeq(SortPairs(s)[i], SortPairs(s)[j]);
  }


  lemma InDownWithin(segments: seq<Segment>, windowStart: Option<int>, windowEnd: Option<int>, now: int, t: int)
    ensures t in DownWithin(segments, windowStart, windowEnd, now)
       <==> InWindow(t, windowStart, windowEnd, now) && exists s :: s in segments && Covers(s, now, t)
  {
    InDown(segments, now, t);
  }

  /** A list that holds every segment of another never reports less. */
  lemma MoreSegmentsNeverReportLess(
    a: seq<Segment>, b: seq<Segment>, windowStart: Option<int>, windowEnd: Option<int>, now: int)
    requires forall s :: s in a ==> s in b
    ensures DownWithin(a, windowStart, windowEnd, now) <= DownWithin(b, windowStart, windowEnd, now)
    ensures Measure(a, windowStart, windowEnd, now) <= Measure(b, windowStart, windowEnd, now)
  {
    forall t | t in DownWithin(a, windowStart, windowEnd, now)
      ensures t in DownWithin(b, windowStart, windowEnd, now)
    {
      InDownWithin(a, windowStart, windowEnd, now, t);
      InDownWithin(b, windowStart, windowEnd, now, t);
    }
    SubsetCount(DownWithin(a, windowStart, windowEnd, now), DownWithin(b, windowStart, windowEnd, now));
  }

  /** Order and repetition of segments do not matter. */
  lemma OrderAndRepetitionIgnored(
    a: seq<Segment>, b: seq<Segment>, windowStart: Option<int>, windowEnd: Option<int>, now: int)
    requires forall s :: s in a <==> s in b
    ensures Measure(a, windowStart, windowEnd, now) == Measure(b, windowStart, windowEnd, now)
  {
    MoreSegmentsNeverReportLess(a, b, windowStart, windowEnd, now);
    MoreSegmentsNeverReportLess(b, a, windowStart, windowEnd, now);
  }

  /** Never more than the window is long. */
  lemma AtMostTheWindow(segments: seq<Segment>, windowStart: int, windowEnd: Option<int>, now: int)
    ensures var limit := if windowEnd.Some? then windowEnd.value else now;
      Measure(segments, Some(windowStart), windowEnd, now) <= if windowStart < limit then limit - windowStart else 0
  {
    var limit := if windowEnd.Some? then windowEnd.value else now;
    TicksCount(Interval(windowStart, limit));
    var window := Ticks(Interval(windowStart, limit));
    forall t | t in DownWithin(segments, Some(windowStart), windowEnd, now) ensures t in window {
    }
    SubsetCount(DownWithin(segments, Some(windowStart), windowEnd, now), window);
  }

  /** Two windows side by side report together what the joined window reports. */
  lemma {:induction false} NeighbouringWindowsAddUp(segments: seq<Segment>, a: int, b: int, c: int, now: int)
    requires a <= b <= c
    ensures Measure(segments, Some(a), Some(c), now)
         == Measure(segments, Some(a), Some(b), now) + Measure(segments, Some(b), Some(c), now)
  {
    var left, right := DownWithin(segments, Some(a), Some(b), now), DownWithin(segments, Some(b), Some(c), now);
    forall t | t in left ensures t !in right {
    }
    assert left !! right;
    forall t ensures t in DownWithin(segments, Some(a), Some(c), now) <==> t in left + right {
    }
    assert DownWithin(segments, Some(a), Some(c), now) == left + right;
  }

  ghost predicate Increasing(bounds: seq<int>) {
    forall i, j :: 0 <= i < j < |bounds| ==> bounds[i] <= bounds[j]
  }

  ghost function SumOverWindows(segments: seq<Segment>, bounds: seq<int>, now: int, n: nat): nat
    requires n < |bounds|
  {
    if n == 0 then 0
    else SumOverWindows(segments, bounds, now, n - 1) + Measure(segments, Some(bounds[n - 1]), Some(bounds[n]), now)
  }

  /** Any partition of a window into consecutive days conserves the downtime. */
  lemma {:induction false} DaysAddUp(segments: seq<Segment>, bounds: seq<int>, now: int, n: nat)
    requires n < |bounds| && Increasing(bounds)
    ensures SumOverWindows(segments, bounds, now, n) == Measure(segments, Some(bounds[0]), Some(bounds[n]), now)
  {
    if n == 0 {
      AtMostTheWindow(segments, bounds[0], Some(bounds[0]), now);
    } else {
      DaysAddUp(segments, bounds, now, n - 1);
      NeighbouringWindowsAddUp(segments, bounds[0], bounds[n - 1], bounds[n], now);
    }
  }

  /** Segments that start at or after the end of the window are invisible in it. */
  lemma LaterSegmentsInvisible(
    a: seq<Segment>, later: seq<Segment>, windowStart: Option<int>, windowEnd: int, now: int)
    requires forall s :: s in later ==> windowEnd <= s.started
    ensures Measure(a + later, windowStart, Some(windowEnd), now) == Measure(a, windowStart, Some(windowEnd), now)
  {
    var x := DownWithin(a + later, windowStart, Some(windowEnd), now);
    var y := DownWithin(a, windowStart, Some(windowEnd), now);
    forall t ensures t in x <==> t in y {
      InDownWithin(a + later, windowStart, Some(windowEnd), now, t);
      InDownWithin(a, windowStart, Some(windowEnd), now, t);
      if s :| s in a + later && Covers(s, now, t) {
        assert s in a || s in later;
      }
    }
    assert x == y;
  }

  // ----- merging against plain addition -----

  function ClippedLength(s: Segment, windowStart: Option<int>, endLimit: int, now: int): nat {
    var lo, hi := ClipStart(s, windowStart), ClipEnd(s, endLimit, now);
    if lo < hi then hi - lo else 0
  }

  /** The figure that would come out if the clipped segments were simply added. */
  function PlainSum(segments: seq<Segment>, windowStart: Option<int>, endLimit: int, now: int): nat {
    if segments == [] then 0
    else
      var n := |segments| - 1;
      PlainSum(segments[..n], windowStart, endLimit, now) + ClippedLength(segments[n], windowStart, endLimit, now)
  }

  /** No tick of the window lies in two segments. */
  ghost predicate NoTickTwice(segments: seq<Segment>, windowStart: Option<int>, endLimit: int, now: int) {
    forall i, j, t :: 0 <= i < j < |segments| && Covers(segments[i], now, t) && Covers(segments[j], now, t)
      ==> !InWindow(t, windowStart, Some(endLimit), now)
  }

  lemma CountUnion(a: set<int>, b: set<int>)
    ensures |a + b| <= |a| + |b|
    ensures |a + b| == |a| + |b| <==> a * b == {}
  {
    assert |a + b| == |a| + |b| - |a * b|;
  }

  lemma MeetOne(front: seq<Segment>, last: Segment, windowStart: Option<int>, endLimit: int, now: int)
    requires NoTickTwice(front, windowStart, endLimit, now)
    ensures NoTickTwice(front + [last], windowStart, endLimit, now)
       <==> DownWithin(front, windowStart, Some(endLimit), now)
              * Ticks(Interval(ClipStart(last, windowStart), ClipEnd(last, endLimit, now))) == {}
  {
    var all := front + [last];
    var a := DownWithin(front, windowStart, Some(endLimit), now);
    var p := Interval(ClipStart(last, windowStart), ClipEnd(last, endLimit, now));
    if NoTickTwice(all, windowStart, endLimit, now) {
      forall t | t in a ensures t !in Ticks(p) {
        InDownWithin(front, windowStart, Some(endLimit), now, t);
        var s :| s in front && Covers(s, now, t);
        var i :| 0 <= i < |front| && front[i] == s;
        assert all[i] == s && all[|front|] == last;
        assert !Covers(all[|front|], now, t);
      }
    } else {
      var i, j, t :| 0 <= i < j < |all| && Covers(all[i], now, t) && Covers(all[j], now, t)
        && InWindow(t, windowStart, Some(endLimit), now);
      assert all[i] == front[i] && front[i] in front;
      assert forall k :: 0 <= k < |front| ==> all[k] == front[k];
      assert j == |front|;
      InDownWithin(front, windowStart, Some(endLimit), now, t);
      assert Inside(p, t);
      assert t in a * Ticks(p);
    }
  }

  lemma TwiceStays(front: seq<Segment>, last: Segment, windowStart: Option<int>, endLimit: int, now: int)
    requires !NoTickTwice(front, windowStart, endLimit, now)
    ensures !NoTickTwice(front + [last], windowStart, endLimit, now)
  {
    var all := front + [last];
    var i, j, t :| 0 <= i < j < |front| && Covers(front[i], now, t) && Covers(front[j], now, t)
      && InWindow(t, windowStart, Some(endLimit), now);
    assert Covers(all[i], now, t) && Covers(all[j], now, t);
  }

  /** Adding instead of merging can only inflate the figure, and is right exactly when no tick
      of the window is counted twice. */
  lemma {:induction false} MergingNeverInflates(
    segments: seq<Segment>, windowStart: Option<int>, endLimit: int, now: int)
    ensures Measure(segments, windowStart, Some(endLimit), now) <= PlainSum(segments, windowStart, endLimit, now)
    ensures Measure(segments, windowStart, Some(endLimit), now) == PlainSum(segments, windowStart, endLimit, now)
       <==> NoTickTwice(segments, windowStart, endLimit, now)
  {
    if segments != [] {
      var n := |segments| - 1;
      var front, last := segments[..n], segments[n];
      assert segments == front + [last];
      MergingNeverInflates(front, windowStart, endLimit, now);
      ClipOne(front, last, windowStart, endLimit, now);
      var p := Interval(ClipStart(last, windowStart), ClipEnd(last, endLimit, now));
      TicksCount(p);
      hide DownWithin, Down, Ticks, NoTickTwice, Union;
      CountUnion(DownWithin(front, windowStart, Some(endLimit), now), Ticks(p));
      if NoTickTwice(front, windowStart, endLimit, now) {
        MeetOne(front, last, windowStart, endLimit, now);
      } else {
        TwiceStays(front, last, windowStart, endLimit, now);
      }
    }
  }
}
