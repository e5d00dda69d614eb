/** The downtime figure: `_outage_seconds` in linkmoth_core.py.

    Time is counted in whole ticks. A segment covers the ticks from its start up to,
    but not including, its end; a segment without an end runs up to `now`. What the
    figure should mean is the number of ticks inside the window that at least one
    segment covers, however the segments overlap. */
module OutageWindows {
  import opened Options

  datatype Segment = Segment(started: int, ended: Option<int>)
  datatype Interval = Interval(lo: int, hi: int)

  function EndOf(s: Segment, now: int): int {
    match s.ended
    case Some(e) => e
    case None => now
  }

  function Span(s: Segment, now: int): Interval {
    Interval(s.started, EndOf(s, now))
  }

  ghost predicate Inside(p: Interval, t: int) {
    p.lo <= t < p.hi
  }

  ghost predicate Covers(s: Segment, now: int, t: int) {
    Inside(Span(s, now), t)
  }

  ghost function Ticks(p: Interval): (r: set<int>)
    ensures forall t :: t in r <==> Inside(p, t)
    decreases p.hi - p.lo
  {
    if p.lo < p.hi then Ticks(Interval(p.lo, p.hi - 1)) + {p.hi - 1} else {}
  }

  lemma {:induction false} TicksCount(p: Interval)
    ensures |Ticks(p)| == if p.lo < p.hi then p.hi - p.lo else 0
    decreases p.hi - p.lo
  {
    if p.lo < p.hi {
      TicksCount(Interval(p.lo, p.hi - 1));
    }
  }

  ghost function UnionUpTo(pairs: seq<Interval>, n: nat): set<int>
    requires n <= |pairs|
  {
    if n == 0 then {} else UnionUpTo(pairs, n - 1) + Ticks(pairs[n - 1])
  }

  /** Every tick inside at least one of the intervals. */
  ghost function Union(pairs: seq<Interval>): set<int> {
    UnionUpTo(pairs, |pairs|)
  }

  lemma {:induction false} UnionPrefix(pairs: seq<Interval>, more: seq<Interval>, n: nat)
    requires n <= |pairs|
    ensures UnionUpTo(pairs + more, n) == UnionUpTo(pairs, n)
  {
    if n > 0 {
      UnionPrefix(pairs, more, n - 1);
    }
  }

  lemma UnionSnoc(pairs: seq<Interval>, p: Interval)
    ensures Union(pairs + [p]) == Union(pairs) + Ticks(p)
  {
    UnionPrefix(pairs, [p], |pairs|);
  }

  lemma InUnion(pairs: seq<Interval>, t: int)
    ensures t in Union(pairs) <==> exists p :: p in pairs && Inside(p, t)
  {
    if pairs != [] {
      var front, last := pairs[..|pairs| - 1], pairs[|pairs| - 1];
      UnionSnoc(front, last);
      assert pairs == front + [last];
      InUnion(front, t);
    }
  }

  /** Every tick that some segment covers. */
  ghost function Down(segments: seq<Segment>, now: int): set<int> {
    if segments == [] then {}
    else Down(segments[..|segments| - 1], now) + Ticks(Span(segments[|segments| - 1], now))
  }

  lemma DownSnoc(segments: seq<Segment>, s: Segment, now: int)
    ensures Down(segments + [s], now) == Down(segments, now) + Ticks(Span(s, now))
  {
    assert (segments + [s])[..|segments|] == segments;
  }

  lemma InDown(segments: seq<Segment>, now: int, t: int)
    ensures t in Down(segments, now) <==> exists s :: s in segments && Covers(s, now, t)
  {
    if segments != [] {
      var front, last := segments[..|segments| - 1], segments[|segments| - 1];
      InDown(front, now, t);
      assert segments == front + [last];
      assert last in segments;
      if s :| s in segments && Covers(s, now, t) {
        assert s in front || s == last;
      }
    }
  }

  ghost predicate InWindow(t: int, windowStart: Option<int>, windowEnd: Option<int>, now: int) {
    && (windowStart.Some? ==> windowStart.value <= t)
    && t < (if windowEnd.Some? then windowEnd.value else now)
  }

  ghost function DownWithin(segments: seq<Segment>, windowStart: Option<int>, windowEnd: Option<int>, now: int)
    : set<int>
  {
    set t | t in Down(segments, now) && InWindow(t, windowStart, windowEnd, now)
  }

  /** The meaning of the figure: how many ticks of the window are down. */
  ghost function Measure(segments: seq<Segment>, windowStart: Option<int>, windowEnd: Option<int>, now: int): nat {
    |DownWithin(segments, windowStart, windowEnd, now)|
  }

  lemma SubsetCount<T>(a: set<T>, b: set<T>)
    requires a <= b
    ensures |a| <= |b|
  {
    assert b == a + (b - a);
  }

  // ----- the sort -----

  /** Python's order on pairs. */
  predicate PairLeq(p: Interval, q: Interval) {
    p.lo < q.lo || (p.lo == q.lo && p.hi <= q.hi)
  }

  predicate PairsSorted(s: seq<Interval>) {
    forall i, j :: 0 <= i < j < |s| ==> PairLeq(s[i], s[j])
  }

  function InsertPair(p: Interval, s: seq<Interval>): (r: seq<Interval>)
    ensures multiset(r) == multiset(s) + multiset{p}
  {
    if s == [] then [p]
    else if PairLeq(p, s[0]) then [p] + s
    else
      assert s == [s[0]] + s[1..];
      [s[0]] + InsertPair(p, s[1..])
  }

  lemma InsertKeepsSorted(p: Interval, s: seq<Interval>)
    requires PairsSorted(s)
    ensures PairsSorted(InsertPair(p, s))
  {
    if s != [] && !PairLeq(p, s[0]) {
      InsertKeepsSorted(p, s[1..]);
      var rest := InsertPair(p, s[1..]);
      forall j | 0 <= j < |rest| ensures PairLeq(s[0], rest[j]) {
        assert rest[j] in multiset(rest);
        assert rest[j] == p || rest[j] in s[1..];
      }
    }
  }

  /** `sorted(clipped)`. */
  function SortPairs(s: seq<Interval>): (r: seq<Interval>)
    ensures PairsSorted(r)
    ensures multiset(r) == multiset(s)
  {
    if s == [] then [] else
      var n := |s| - 1;
      assert s == s[..n] + [s[n]];
      InsertKeepsSorted(s[n], SortPairs(s[..n]));
      InsertPair(s[n], SortPairs(s[..n]))
  }

  lemma UnionIgnoresOrder(a: seq<Interval>, b: seq<Interval>)
    requires multiset(a) == multiset(b)
    ensures Union(a) == Union(b)
  {
    UnionIncludes(a, b);
    UnionIncludes(b, a);
  }

  lemma UnionIncludes(a: seq<Interval>, b: seq<Interval>)
    requires multiset(a) == multiset(b)
    ensures Union(a) <= Union(b)
  {
    forall t | t in Union(a) ensures t in Union(b) {
      InUnion(a, t);
      InUnion(b, t);
      var p :| p in a && Inside(p, t);
      assert p in multiset(b);
    }
  }

  // ----- the two loops -----

  function ClipStart(s: Segment, windowStart: Option<int>): int {
    if windowStart.Some? && s.started < windowStart.value then windowStart.value else s.started
  }

  function ClipEnd(s: Segment, endLimit: int, now: int): int {
    if endLimit < EndOf(s, now) then endLimit else EndOf(s, now)
  }

  lemma ClipOne(done: seq<Segment>, s: Segment, windowStart: Option<int>, endLimit: int, now: int)
    ensures DownWithin(done + [s], windowStart, Some(endLimit), now)
         == DownWithin(done, windowStart, Some(endLimit), now)
            + Ticks(Interval(ClipStart(s, windowStart), ClipEnd(s, endLimit, now)))
  {
    DownSnoc(done, s, now);
    var p := Interval(ClipStart(s, windowStart), ClipEnd(s, endLimit, now));
    forall t
      ensures t in DownWithin(done + [s], windowStart, Some(endLimit), now)
         <==> t in DownWithin(done, windowStart, Some(endLimit), now) || t in Ticks(p)
    {
      assert t in Down(done + [s], now) <==> t in Down(done, now) || Inside(Span(s, now), t);
      assert Inside(p, t) <==> Inside(Span(s, now), t) && InWindow(t, windowStart, Some(endLimit), now);
    }
  }

  /** First loop: clip every segment to the window and keep what is not empty. */
  method Clip(segments: seq<Segment>, windowStart: Option<int>, endLimit: int, now: int)
    returns (clipped: seq<Interval>)
    ensures forall p :: p in clipped ==> p.lo < p.hi
    ensures Union(clipped) == DownWithin(segments, windowStart, Some(endLimit), now)
  {
    clipped := [];
    for n := 0 to |segments|
      invariant forall p :: p in clipped ==> p.lo < p.hi
      invariant Union(clipped) == DownWithin(segments[..n], windowStart, Some(endLimit), now)
    {
      var started := ClipStart(segments[n], windowStart);
      var ended := ClipEnd(segments[n], endLimit, now);
      ClipOne(segments[..n], segments[n], windowStart, endLimit, now);
      assert segments[..n + 1] == segments[..n] + [segments[n]];
      if started < ended {
        UnionSnoc(clipped, Interval(started, ended));
        clipped := clipped + [Interval(started, ended)];
      }
    }
    assert segments[..|segments|] == segments;
  }

  /** The sweep has met the ticks `u`; the block [lo, hi) is still open and everything
      before it is already in `total`. */
  ghost predicate SweepState(u: set<int>, total: int, lo: int, hi: int) {
    && lo < hi
    && (forall t :: lo <= t < hi ==> t in u)
    && (forall t :: t in u ==> t < hi)
    && |u| == total + (hi - lo)
  }

  lemma TicksBeyond(u: set<int>, p: Interval)
    requires p.lo < p.hi && forall t :: t in u ==> t < p.lo
    ensures |u + Ticks(p)| == |u| + (p.hi - p.lo)
  {
    TicksCount(p);
    forall t | t in u ensures t !in Ticks(p) {
    }
    assert u !! Ticks(p);
  }

  lemma StartBlock(u: set<int>, total: int, lo: int, hi: int, p: Interval)
    requires SweepState(u, total, lo, hi) && hi < p.lo < p.hi
    ensures SweepState(u + Ticks(p), total + (hi - lo), p.lo, p.hi)
  {
    TicksBeyond(u, p);
  }

  lemma SwallowBlock(u: set<int>, total: int, lo: int, hi: int, p: Interval)
    requires SweepState(u, total, lo, hi) && lo <= p.lo && p.hi <= hi
    ensures SweepState(u + Ticks(p), total, lo, hi)
  {
    forall t | t in Ticks(p) ensures t in u {
    }
    assert u + Ticks(p) == u;
  }

  /** Of an interval that starts inside the block only what lies beyond it is new. */
  lemma OnlyBeyondIsNew(u: set<int>, lo: int, hi: int, p: Interval)
    requires lo <= p.lo <= hi < p.hi && forall t :: lo <= t < hi ==> t in u
    ensures u + Ticks(p) == u + Ticks(Interval(hi, p.hi))
  {
    hide Ticks;
    forall t ensures t in u + Ticks(p) <==> t in u + Ticks(Interval(hi, p.hi)) {
    }
  }

  lemma LongerBlock(u: set<int>, v: set<int>, total: int, lo: int, hi: int, end: int)
    requires SweepState(u, total, lo, hi) && hi < end && |v| == |u| + (end - hi)
    requires forall t :: t in v <==> t in u || hi <= t < end
    ensures SweepState(v, total, lo, end)
  {
  }

  lemma GrowBlock(u: set<int>, total: int, lo: int, hi: int, p: Interval)
    requires SweepState(u, total, lo, hi) && lo <= p.lo <= hi < p.hi
    ensures SweepState(u + Ticks(p), total, lo, p.hi)
  {
    var more := Interval(hi, p.hi);
    OnlyBeyondIsNew(u, lo, hi, p);
    TicksBeyond(u, more);
    hide SweepState, Ticks;
    LongerBlock(u, u + Ticks(more), total, lo, hi, p.hi);
  }

  lemma FirstPair(pairs: seq<Interval>)
    requires pairs != [] && pairs[0].lo < pairs[0].hi
    ensures SweepState(UnionUpTo(pairs, 1), 0, pairs[0].lo, pairs[0].hi)
  {
    TicksCount(pairs[0]);
    assert UnionUpTo(pairs, 1) == Ticks(pairs[0]);
  }

  /** What the next pair does to the open block. */
  lemma NextPair(pairs: seq<Interval>, k: nat, total: int, lo: int, hi: int)
    requires k < |pairs| && SweepState(UnionUpTo(pairs, k), total, lo, hi) && lo <= pairs[k].lo < pairs[k].hi
    ensures var p, u := pairs[k], UnionUpTo(pairs, k + 1);
      if p.lo > hi then SweepState(u, total + (hi - lo), p.lo, p.hi)
      else if hi < p.hi then SweepState(u, total, lo, p.hi)
      else SweepState(u, total, lo, hi)
  {
    var p, u := pairs[k], UnionUpTo(pairs, k);
    assert UnionUpTo(pairs, k + 1) == u + Ticks(p);
    hide SweepState, UnionUpTo, Ticks;
    if p.lo > hi {
      StartBlock(u, total, lo, hi, p);
    } else if hi < p.hi {
      GrowBlock(u, total, lo, hi, p);
    } else {
      SwallowBlock(u, total, lo, hi, p);
    }
  }

  lemma NothingSwept(pairs: seq<Interval>)
    requires pairs == []
    ensures |Union(pairs)| == 0
  {
  }

  lemma AllSwept(pairs: seq<Interval>, total: int, lo: int, hi: int)
    requires SweepState(UnionUpTo(pairs, |pairs|), total, lo, hi)
    ensures |Union(pairs)| == total + (hi - lo)
  {
  }

  lemma Neighbours(pairs: seq<Interval>, k: nat)
    requires PairsSorted(pairs) && k < |pairs| && forall p :: p in pairs ==> p.lo < p.hi
    ensures pairs[k].lo < pairs[k].hi && (k > 0 ==> pairs[k - 1].lo <= pairs[k].lo)
  {
    assert pairs[k] in pairs;
    assert k > 0 ==> PairLeq(pairs[k - 1], pairs[k]);
  }

  /** Second loop: one pass over the sorted pairs, merging what touches or overlaps. */
  method Sweep(pairs: seq<Interval>) returns (total: int)
    requires PairsSorted(pairs)
    requires forall p :: p in pairs ==> p.lo < p.hi
    ensures total == |Union(pairs)|
  {
    total := 0;
    var openStart, openEnd := 0, None;
    hide PairsSorted, UnionUpTo, SweepState;
    for k := 0 to |pairs|
      invariant openEnd.None? ==> k == 0 && total == 0
      invariant openEnd.Some? ==> k > 0 && openStart <= pairs[k - 1].lo
      invariant openEnd.Some? ==> SweepState(UnionUpTo(pairs, k), total, openStart, openEnd.value)
    {
      var p := pairs[k];
      Neighbours(pairs, k);
      if openEnd.Some? {
        NextPair(pairs, k, total, openStart, openEnd.value);
      } else {
        FirstPair(pairs);
      }
      if openEnd.None? || p.lo > openEnd.value {
        if openEnd.Some? {
          total := total + (openEnd.value - openStart);
        }
        openStart, openEnd := p.lo, Some(p.hi);
      } else if openEnd.value < p.hi {
        openEnd := Some(p.hi);
      }
    }
    if openEnd.Some? {
      AllSwept(pairs, total, openStart, openEnd.value);
      total := total + (openEnd.value - openStart);
    } else {
      assert pairs == [];
      NothingSwept(pairs);
    }
  }

  /** `_outage_seconds`: clip, sort, sweep. */
  method OutageSeconds(segments: seq<Segment>, windowStart: Option<int>, windowEnd: Option<int>, now: int)
    returns (total: int)
    ensures total == Measure(segments, windowStart, windowEnd, now)
  {
    var endLimit := if windowEnd.Some? then windowEnd.value else now;
    var clipped := Clip(segments, windowStart, endLimit, now);
    var pairs := SortPairs(clipped);
    UnionIgnoresOrder(pairs, clipped);
    forall p | p in pairs ensures p.lo < p.hi {
      assert p in multiset(pairs);
      assert p in multiset(clipped);
    }
    total := Sweep(pairs);
    assert DownWithin(segments, windowStart, windowEnd, now)
        == DownWithin(segments, windowStart, Some(endLimit), now);
  }
}
