/** The daily connection score in linkmoth_probes.py: `_median`, `_score_one_day` and the per-day loop of
    `connection_score`. Measured values are real numbers. */
module DailyScore {
  import opened Options
  import opened OutageWindows
  import opened OutageFigure

  const MIN_SCORE_SAMPLES := 6
  const MIN_BASELINE_DAYS := 5

  // ----- the median -----

  predicate SortedReals(s: seq<real>) {
    forall i, j :: 0 <= i < j < |s| ==> s[i] <= s[j]
  }

  function InsertReal(x: real, s: seq<real>): (r: seq<real>)
    ensures multiset(r) == multiset(s) + multiset{x}
  {
    if s == [] || x <= s[0] then [x] + s
    else
      assert s == [s[0]] + s[1..];
      [s[0]] + InsertReal(x, s[1..])
  }

  lemma {:induction false} InsertRealSorted(x: real, s: seq<real>)
    requires SortedReals(s)
    ensures SortedReals(InsertReal(x, s))
  {
    if s != [] && !(x <= s[0]) {
      InsertRealSorted(x, s[1..]);
      var rest := InsertReal(x, s[1..]);
      forall j | 0 <= j < |rest| ensures s[0] <= rest[j] {
        assert rest[j] in multiset(rest);
        assert rest[j] == x || rest[j] in s[1..];
      }
    }
  }

  function SortReals(s: seq<real>): (r: seq<real>)
    ensures SortedReals(r) && multiset(r) == multiset(s)
  {
    if s == [] then []
    else
      assert s == [s[0]] + s[1..];
      InsertRealSorted(s[0], SortReals(s[1..]));
      InsertReal(s[0], SortReals(s[1..]))
  }

  lemma SortKeepsLength(s: seq<real>)
    ensures |SortReals(s)| == |s|
  {
    assert |multiset(SortReals(s))| == |multiset(s)|;
  }

  /** `_median`. */
  function Median(values: seq<real>): Option<real> {
    SortKeepsLength(values);
    var s := SortReals(values);
    var mid := |s| / 2;
    if s == [] then None
    else if |s| % 2 == 1 then Some(s[mid])
    else Some((s[mid - 1] + s[mid]) / 2.0)
  }

  /** A median exists unless there are no values, and lies above every lower bound they respect. */
  lemma MedianWithin(values: seq<real>, low: real)
    requires forall v :: v in values ==> low <= v
    ensures Median(values).Some? ==> low <= Median(values).value
    ensures Median(values).None? <==> values == []
  {
    SortKeepsLength(values);
    var s := SortReals(values);
    forall i | 0 <= i < |s| ensures low <= s[i] {
      assert s[i] in multiset(s);
      assert s[i] in values;
    }
  }

  function CountIf(values: seq<real>, p: real -> bool): nat {
    if values == [] then 0 else CountIf(values[1..], p) + if p(values[0]) then 1 else 0
  }

  lemma {:induction false} InsertCounts(x: real, s: seq<real>, p: real -> bool)
    ensures CountIf(InsertReal(x, s), p) == CountIf(s, p) + if p(x) then 1 else 0
  {
    if s == [] || x <= s[0] {
      assert ([x] + s)[1..] == s;
    } else {
      InsertCounts(x, s[1..], p);
      assert ([s[0]] + InsertReal(x, s[1..]))[1..] == InsertReal(x, s[1..]);
    }
  }

  lemma {:induction false} SortCounts(s: seq<real>, p: real -> bool)
    ensures CountIf(SortReals(s), p) == CountIf(s, p)
  {
    if s != [] {
      SortCounts(s[1..], p);
      InsertCounts(s[0], SortReals(s[1..]), p);
    }
  }

  lemma {:induction false} CountAtLeast(s: seq<real>, p: real -> bool, lo: nat, hi: nat)
    requires lo <= hi <= |s| && forall i :: lo <= i < hi ==> p(s[i])
    ensures CountIf(s, p) >= hi - lo
    decreases |s|
  {
    if lo < hi {
      if lo == 0 {
        CountAtLeast(s[1..], p, 0, hi - 1);
      } else {
        CountAtLeast(s[1..], p, lo - 1, hi - 1);
      }
    }
  }

  function AtMost(m: real): real -> bool {
    x => x <= m
  }

  function AtLeast(m: real): real -> bool {
    x => x >= m
  }

  lemma MiddleOfSorted(s: seq<real>, m: real)
    requires SortedReals(s) && s != []
    requires m == if |s| % 2 == 1 then s[|s| / 2] else (s[|s| / 2 - 1] + s[|s| / 2]) / 2.0
    ensures 2 * CountIf(s, AtMost(m)) >= |s| && 2 * CountIf(s, AtLeast(m)) >= |s|
  {
    var n := |s|;
    assert n % 2 == 0 ==> s[n / 2 - 1] <= m <= s[n / 2];
    CountAtLeast(s, AtMost(m), 0, (n + 1) / 2);
    CountAtLeast(s, AtLeast(m), n / 2, n);
  }

  /** What a median is: at least half of the values are not above it and at least half are not below it. */
  lemma MedianHalves(values: seq<real>)
    requires values != []
    ensures var m := Median(values);
      && m.Some?
      && 2 * CountIf(values, AtMost(m.value)) >= |values|
      && 2 * CountIf(values, AtLeast(m.value)) >= |values|
  {
    SortKeepsLength(values);
    hide SortReals, CountIf, SortedReals;
    var m := Median(values).value;
    MiddleOfSorted(SortReals(values), m);
    SortCounts(values, AtMost(m));
    SortCounts(values, AtLeast(m));
  }

  // ----- one day -----

  datatype Sample = Sample(ts: int, latency: Option<real>, jitter: Option<real>, loss: Option<real>)

  datatype Load = Load(ts: int, bloat: real)

  function Present(values: seq<Option<real>>): (r: seq<real>)
    ensures forall v :: v in r <==> Some(v) in values
  {
    if values == [] then []
    else if values[0].Some? then [values[0].value] + Present(values[1..])
    else Present(values[1..])
  }

  function Latencies(samples: seq<Sample>): seq<real> {
    Present(seq(|samples|, i requires 0 <= i < |samples| => samples[i].latency))
  }

  function Jitters(samples: seq<Sample>): seq<real> {
    Present(seq(|samples|, i requires 0 <= i < |samples| => samples[i].jitter))
  }

  function Losses(samples: seq<Sample>): seq<real> {
    seq(|samples|, i requires 0 <= i < |samples| => OrZero(samples[i].loss))
  }

  function OrZero(x: Option<real>): real {
    if x.Some? then x.value else 0.0
  }

  function Min(a: real, b: real): real {
    if a < b then a else b
  }

  function Max(a: real, b: real): real {
    if a < b then b else a
  }

  /** Python's `round`: to the nearest integer, halves to the even one. */
  function Round(x: real): int {
    var f := x.Floor;
    var d := x - f as real;
    if d < 0.5 then f else if d > 0.5 then f + 1 else if f % 2 == 0 then f else f + 1
  }

  lemma RoundMonotone(x: real, y: real)
    requires x <= y
    ensures Round(x) <= Round(y)
  {
    if x.Floor == y.Floor {
      assert x - x.Floor as real <= y - y.Floor as real;
    } else {
      assert x.Floor + 1 <= y.Floor;
    }
  }

  function BloatPenalty(bloat: Option<real>): real {
    if bloat.None? then 0.0
    else if bloat.value < 30.0 then 0.0
    else if bloat.value < 60.0 then 3.0
    else if bloat.value < 120.0 then 7.0
    else if bloat.value < 250.0 then 12.0
    else 18.0
  }

  datatype Penalties = Penalties(latency: real, jitter: real, loss: real, bloat: real, downtime: real)

  function Total(p: Penalties): real {
    p.loss + p.jitter + p.latency + p.bloat + p.downtime
  }

  function DayPenalties(samples: seq<Sample>, bloat: Option<real>, downtime: int, baseline: Option<real>): Penalties {
    var latency := Median(Latencies(samples));
    Penalties(
      if baseline.Some? && baseline.value > 0.0 && latency.Some?
      then Min(25.0, Max(0.0, latency.value - baseline.value) / baseline.value * 40.0) else 0.0,
      Min(15.0, OrZero(Median(Jitters(samples))) / 2.0),
      Min(40.0, OrZero(Median(Losses(samples))) * 8.0),
      BloatPenalty(bloat),
      Min(40.0, downtime as real / 60.0 * 2.0))
  }

  /** `_score_one_day`. */
  function DayScore(samples: seq<Sample>, bloat: Option<real>, downtime: int, baseline: Option<real>): int {
    Round(Max(0.0, 100.0 - Total(DayPenalties(samples, bloat, downtime, baseline))))
  }

  /** Measured values as the probes produce them: never negative. */
  predicate Measured(samples: seq<Sample>) {
    forall s :: s in samples ==>
      && (s.jitter.Some? ==> s.jitter.value >= 0.0)
      && (s.loss.Some? ==> s.loss.value >= 0.0)
  }

  lemma ExcessIsNotNegative(excess: real, baseline: real)
    requires excess >= 0.0 && baseline > 0.0
    ensures excess / baseline * 40.0 >= 0.0
  {
    assert excess / baseline >= 0.0;
  }

  lemma PenaltiesAreNotNegative(samples: seq<Sample>, bloat: Option<real>, downtime: int, baseline: Option<real>)
    requires Measured(samples) && downtime >= 0
    ensures var p := DayPenalties(samples, bloat, downtime, baseline);
      p.latency >= 0.0 && p.jitter >= 0.0 && p.loss >= 0.0 && p.bloat >= 0.0 && p.downtime >= 0.0
  {
    hide Median;
    MedianWithin(Jitters(samples), 0.0);
    MedianWithin(Losses(samples), 0.0);
    var latency := Median(Latencies(samples));
    if baseline.Some? && baseline.value > 0.0 && latency.Some? {
      ExcessIsNotNegative(Max(0.0, latency.value - baseline.value), baseline.value);
    }
  }

  /** A day's score stays within 0 and 100. */
  lemma ScoreWithinBounds(samples: seq<Sample>, bloat: Option<real>, downtime: int, baseline: Option<real>)
    requires Measured(samples) && downtime >= 0
    ensures 0 <= DayScore(samples, bloat, downtime, baseline) <= 100
  {
    PenaltiesAreNotNegative(samples, bloat, downtime, baseline);
    hide DayPenalties;
    var x := Max(0.0, 100.0 - Total(DayPenalties(samples, bloat, downtime, baseline)));
    RoundMonotone(0.0, x);
    RoundMonotone(x, 100.0);
  }

  /** A longer outage never improves the score. */
  lemma MoreDowntimeNeverHelps(samples: seq<Sample>, bloat: Option<real>, a: int, b: int, baseline: Option<real>)
    requires a <= b
    ensures DayScore(samples, bloat, b, baseline) <= DayScore(samples, bloat, a, baseline)
  {
    hide Median, Round;
    var p, q := DayPenalties(samples, bloat, a, baseline), DayPenalties(samples, bloat, b, baseline);
    assert a as real / 60.0 * 2.0 <= b as real / 60.0 * 2.0;
    assert p.downtime <= q.downtime && q == p.(downtime := q.downtime);
    RoundMonotone(Max(0.0, 100.0 - Total(q)), Max(0.0, 100.0 - Total(p)));
  }

  // ----- what a score is made of -----

  /** Rounding goes to the nearest integer, halves to the even one. */
  lemma RoundTells(x: real)
    ensures -0.5 <= x - Round(x) as real <= 0.5
    ensures x - Round(x) as real == 0.5 || x - Round(x) as real == -0.5 ==> Round(x) % 2 == 0
  {
  }

  /** Bufferbloat in milliseconds: nothing below 30, then 3, 7, 12 and from 250 on 18 points. */
  lemma BloatTells(b: real)
    ensures BloatPenalty(None) == 0.0
    ensures b < 30.0 ==> BloatPenalty(Some(b)) == 0.0
    ensures 30.0 <= b < 60.0 ==> BloatPenalty(Some(b)) == 3.0
    ensures 60.0 <= b < 120.0 ==> BloatPenalty(Some(b)) == 7.0
    ensures 120.0 <= b < 250.0 ==> BloatPenalty(Some(b)) == 12.0
    ensures 250.0 <= b ==> BloatPenalty(Some(b)) == 18.0
  {
  }

  /** A point for every thirty seconds of downtime, up to forty for twenty minutes. */
  lemma DowntimeTells(samples: seq<Sample>, bloat: Option<real>, downtime: int, baseline: Option<real>)
    ensures var p := DayPenalties(samples, bloat, downtime, baseline);
      && (downtime >= 1200 ==> p.downtime == 40.0)
      && (downtime < 1200 ==> p.downtime == downtime as real / 30.0)
  {
    hide Median;
    assert downtime as real / 60.0 * 2.0 == downtime as real / 30.0;
  }

  /** Eight points for every percent of median loss, up to forty; a sample without a loss figure counts as lossless. */
  lemma LossTells(samples: seq<Sample>, bloat: Option<real>, downtime: int, baseline: Option<real>, m: real)
    requires Median(seq(|samples|, i requires 0 <= i < |samples| =>
      if samples[i].loss.Some? then samples[i].loss.value else 0.0)) == Some(m)
    ensures var p := DayPenalties(samples, bloat, downtime, baseline);
      p.loss == if m >= 5.0 then 40.0 else 8.0 * m
  {
    assert Losses(samples) == seq(|samples|, i requires 0 <= i < |samples| =>
      if samples[i].loss.Some? then samples[i].loss.value else 0.0);
    hide Median;
  }

  /** Half a point for every millisecond of median jitter, up to fifteen; a sample without a jitter figure does not
      count. */
  lemma JitterTells(samples: seq<Sample>, bloat: Option<real>, downtime: int, baseline: Option<real>)
    ensures var m, p := Median(Jitters(samples)), DayPenalties(samples, bloat, downtime, baseline);
      && (m.None? ==> p.jitter == 0.0)
      && (m.Some? && m.value >= 30.0 ==> p.jitter == 15.0)
      && (m.Some? && m.value < 30.0 ==> p.jitter == m.value / 2.0)
    ensures forall j :: j in Jitters(samples) <==> exists s :: s in samples && s.jitter == Some(j)
  {
    PresentJitters(samples);
    hide Median, Jitters;
  }

  lemma PresentLatencies(samples: seq<Sample>)
    ensures forall j :: j in Latencies(samples) <==> exists s :: s in samples && s.latency == Some(j)
  {
    var all := seq(|samples|, i requires 0 <= i < |samples| => samples[i].latency);
    forall j ensures Some(j) in all <==> exists s :: s in samples && s.latency == Some(j) {
      if Some(j) in all {
        var i :| 0 <= i < |all| && all[i] == Some(j);
        assert samples[i] in samples;
      }
      if s :| s in samples && s.latency == Some(j) {
        var i :| 0 <= i < |samples| && samples[i] == s;
        assert all[i] == Some(j);
      }
    }
  }

  lemma PresentJitters(samples: seq<Sample>)
    ensures forall j :: j in Jitters(samples) <==> exists s :: s in samples && s.jitter == Some(j)
  {
    var all := seq(|samples|, i requires 0 <= i < |samples| => samples[i].jitter);
    forall j ensures Some(j) in all <==> exists s :: s in samples && s.jitter == Some(j) {
      if Some(j) in all {
        var i :| 0 <= i < |all| && all[i] == Some(j);
        assert samples[i] in samples;
      }
      if s :| s in samples && s.jitter == Some(j) {
        var i :| 0 <= i < |samples| && samples[i] == s;
        assert all[i] == Some(j);
      }
    }
  }

  /** Forty points for a median latency twice the baseline, in proportion, up to 25; nothing at or below the baseline or
      without one. */
  lemma LatencyTells(samples: seq<Sample>, bloat: Option<real>, downtime: int, baseline: Option<real>)
    ensures var m, p := Median(Latencies(samples)), DayPenalties(samples, bloat, downtime, baseline);
      && (baseline.None? || m.None? ==> p.latency == 0.0)
      && (baseline.Some? && m.Some? && m.value <= baseline.value ==> p.latency == 0.0)
      && (baseline.Some? && baseline.value > 0.0 && m.Some? && m.value > baseline.value ==>
            if m.value >= 1.625 * baseline.value then p.latency == 25.0
            else p.latency * baseline.value == 40.0 * (m.value - baseline.value))
    ensures forall j :: j in Latencies(samples) <==> exists s :: s in samples && s.latency == Some(j)
  {
    PresentLatencies(samples);
    var m := Median(Latencies(samples));
    hide Median, Latencies;
    if baseline.Some? && baseline.value > 0.0 && m.Some? && m.value > baseline.value {
      LatencyRatio(m.value - baseline.value, baseline.value);
    }
  }

  lemma ScaleReals(q: real, r: real, b: real)
    requires b > 0.0
    ensures q * b >= r * b <==> q >= r
  {
    if q < r {
      assert (r - q) * b > 0.0;
    }
  }

  lemma RatioAtLeast(q: real, excess: real, baseline: real)
    requires baseline > 0.0 && q * baseline == excess
    ensures q * 40.0 >= 25.0 <==> excess >= 0.625 * baseline
    ensures q * 40.0 * baseline == 40.0 * excess
  {
    ScaleReals(q, 0.625, baseline);
    assert q * 40.0 >= 25.0 <==> q >= 0.625;
    assert 0.625 * baseline == baseline * 0.625;
  }

  lemma LatencyRatio(excess: real, baseline: real)
    requires excess > 0.0 && baseline > 0.0
    ensures excess / baseline * 40.0 * baseline == 40.0 * excess
    ensures excess / baseline * 40.0 >= 25.0 <==> excess >= 0.625 * baseline
  {
    var q := excess / baseline;
    assert q * baseline == excess;
    RatioAtLeast(q, excess, baseline);
  }

  /** The five costs are taken off a hundred, and nothing goes below zero. */
  lemma ScoreTells(samples: seq<Sample>, bloat: Option<real>, downtime: int, baseline: Option<real>)
    ensures var p := DayPenalties(samples, bloat, downtime, baseline);
      var cost := p.latency + p.jitter + p.loss + p.bloat + p.downtime;
      && p.bloat == BloatPenalty(bloat)
      && (cost <= 100.0 ==> DayScore(samples, bloat, downtime, baseline) == Round(100.0 - cost))
      && (cost > 100.0 ==> DayScore(samples, bloat, downtime, baseline) == 0)
  {
    hide Median;
  }

  // ----- the days -----

  /** Everything the per-day loop reads. `dayStart` is local midnight, nothing for an unusable time. */
  datatype Inputs = Inputs(
    samples: seq<Sample>,
    loads: seq<Load>,
    segments: seq<Segment>,
    boundaries: seq<int>,
    now: int,
    dayStart: int -> Option<int>)

  datatype Entry = Entry(day: int, samples: nat, score: Option<int>)

  function SamplesOf(samples: seq<Sample>, day: int, dayStart: int -> Option<int>): seq<Sample> {
    if samples == [] then []
    else
      var n := |samples| - 1;
      SamplesOf(samples[..n], day, dayStart) + if dayStart(samples[n].ts) == Some(day) then [samples[n]] else []
  }

  /** The day's latest load test. */
  function BloatOf(loads: seq<Load>, day: int, dayStart: int -> Option<int>): Option<real> {
    if loads == [] then None
    else
      var n := |loads| - 1;
      if dayStart(loads[n].ts) == Some(day) then Some(loads[n].bloat) else BloatOf(loads[..n], day, dayStart)
  }

  ghost function DowntimeOf(segments: seq<Segment>, start: int, end: int, now: int): int {
    Measure(segments, Some(start), Some(if now < end then now else end), now)
  }

  /** What one day contributes, given the medians of the graded days before it. */
  datatype Day = Day(entry: Entry, median: Option<real>)

  function GradeDay(own: seq<Sample>, bloat: Option<real>, downtime: int, day: int, prior: seq<real>): Day {
    if |own| < MIN_SCORE_SAMPLES then Day(Entry(day, |own|, None), None)
    else
      var median := Median(Latencies(own));
      var baseline := if |prior| >= MIN_BASELINE_DAYS then Median(prior) else median;
      Day(Entry(day, |own|, Some(DayScore(own, bloat, downtime, baseline))), median)
  }

  function AddMedian(medians: seq<real>, median: Option<real>): seq<real> {
    if median.Some? then medians + [median.value] else medians
  }

  /** The medians of the first `n` days that were graded, in order. */
  ghost function MediansUpTo(x: Inputs, n: nat): seq<real>
    requires n < |x.boundaries|
    decreases n, 0
  {
    if n == 0 then [] else AddMedian(MediansUpTo(x, n - 1), DayAt(x, n - 1).median)
  }

  ghost function DayAt(x: Inputs, k: nat): Day
    requires k + 1 < |x.boundaries|
    decreases k, 1
  {
    var day := x.boundaries[k];
    GradeDay(SamplesOf(x.samples, day, x.dayStart), BloatOf(x.loads, day, x.dayStart),
             DowntimeOf(x.segments, day, x.boundaries[k + 1], x.now), day, MediansUpTo(x, k))
  }

  /** The loop of `connection_score`. Days come in order, so the medians of the days before are simply those
      collected so far. */
  method History(x: Inputs) returns (history: seq<Entry>)
    requires |x.boundaries| > 0
    ensures |history| == |x.boundaries| - 1
    ensures forall k :: 0 <= k < |history| ==> history[k] == DayAt(x, k).entry
  {
    hide GradeDay, SamplesOf, BloatOf, Median, Measure;
    history := [];
    var medians: seq<real> := [];
    for k := 0 to |x.boundaries| - 1
      invariant |history| == k
      invariant forall j :: 0 <= j < k ==> history[j] == DayAt(x, j).entry
      invariant medians == MediansUpTo(x, k)
    {
      var start, end := x.boundaries[k], x.boundaries[k + 1];
      var own := SamplesOf(x.samples, start, x.dayStart);
      var downtime := OutageSeconds(x.segments, Some(start), Some(if x.now < end then x.now else end), x.now);
      var day := GradeDay(own, BloatOf(x.loads, start, x.dayStart), downtime, start, medians);
      history := history + [day.entry];
      medians := AddMedian(medians, day.median);
    }
  }

  predicate LastOfDay(loads: seq<Load>, k: nat, day: int, dayStart: int -> Option<int>)
    requires k < |loads|
  {
    dayStart(loads[k].ts) == Some(day) && forall i :: k < i < |loads| ==> dayStart(loads[i].ts) != Some(day)
  }

  /** The day's last load test is the one that counts. */
  lemma {:induction false} LatestLoadCounts(loads: seq<Load>, day: int, dayStart: int -> Option<int>)
    ensures BloatOf(loads, day, dayStart).None? <==> forall i :: 0 <= i < |loads| ==> dayStart(loads[i].ts) != Some(day)
    ensures forall k :: 0 <= k < |loads| && LastOfDay(loads, k, day, dayStart) ==>
      BloatOf(loads, day, dayStart) == Some(loads[k].bloat)
  {
    if loads != [] {
      var n := |loads| - 1;
      LatestLoadCounts(loads[..n], day, dayStart);
      forall k | 0 <= k < |loads| && LastOfDay(loads, k, day, dayStart)
        ensures BloatOf(loads, day, dayStart) == Some(loads[k].bloat)
      {
        if k < n {
          assert dayStart(loads[n].ts) != Some(day) && LastOfDay(loads[..n], k, day, dayStart);
        }
      }
    }
  }

  /** A day is graded from six samples on, against the median of the medians before it once there are five of them, and
      against its own median until then; its own median is kept for the days after it exactly if it was graded. */
  lemma GradeTells(own: seq<Sample>, bloat: Option<real>, downtime: int, day: int, prior: seq<real>)
    ensures var g := GradeDay(own, bloat, downtime, day, prior);
      && g.entry.day == day && g.entry.samples == |own|
      && (|own| < 6 ==> g.entry.score == None && g.median == None)
      && (|own| >= 6 ==> g.median == Median(Latencies(own)))
      && (|own| >= 6 && |prior| < 5 ==>
            g.entry.score == Some(DayScore(own, bloat, downtime, Median(Latencies(own)))))
      && (|own| >= 6 && |prior| >= 5 ==> g.entry.score == Some(DayScore(own, bloat, downtime, Median(prior))))
  {
    hide Median, DayScore;
  }

  /** A day's samples are those whose own day it is, in order. */
  lemma {:induction false} OwnDayCounts(samples: seq<Sample>, day: int, dayStart: int -> Option<int>)
    ensures forall s :: s in SamplesOf(samples, day, dayStart) <==> s in samples && dayStart(s.ts) == Some(day)
    ensures |samples| > 0 && dayStart(samples[|samples| - 1].ts) == Some(day) ==>
      SamplesOf(samples, day, dayStart) != [] &&
      SamplesOf(samples, day, dayStart)[|SamplesOf(samples, day, dayStart)| - 1] == samples[|samples| - 1]
  {
    if samples != [] {
      var n := |samples| - 1;
      OwnDayCounts(samples[..n], day, dayStart);
      assert samples == samples[..n] + [samples[n]];
    }
  }

  // ----- a day is not scored against its future -----

  predicate IsOn(ts: int, days: seq<int>, dayStart: int -> Option<int>) {
    dayStart(ts).Some? && dayStart(ts).value in days
  }

  /** The samples of some days, in order. */
  function SamplesOn(samples: seq<Sample>, days: seq<int>, dayStart: int -> Option<int>): seq<Sample> {
    if samples == [] then []
    else
      var n := |samples| - 1;
      var kept := SamplesOn(samples[..n], days, dayStart);
      if IsOn(samples[n].ts, days, dayStart) then kept + [samples[n]] else kept
  }

  function LoadsOn(loads: seq<Load>, days: seq<int>, dayStart: int -> Option<int>): seq<Load> {
    if loads == [] then []
    else
      var n := |loads| - 1;
      var kept := LoadsOn(loads[..n], days, dayStart);
      if IsOn(loads[n].ts, days, dayStart) then kept + [loads[n]] else kept
  }

  /** Down at a tick, as far as the segments know: one that is still open has no end. */
  ghost predicate DownAt(segments: seq<Segment>, t: int) {
    exists s :: s in segments && s.started <= t && (s.ended.Some? ==> t < s.ended.value)
  }

  /** The same ticks are down before `end`: later outages, and how and when one that reaches `end` goes on, may
      differ. */
  ghost predicate SameDownBefore(a: seq<Segment>, b: seq<Segment>, end: int) {
    forall t :: t < end ==> (DownAt(a, t) <==> DownAt(b, t))
  }

  /** Two inputs that recorded the same up to the end of day `k`. They may be read at different times once that
      day is over. */
  ghost predicate AgreeUpTo(x: Inputs, y: Inputs, k: nat) {
    && k + 1 < |x.boundaries| && k + 1 < |y.boundaries|
    && x.boundaries[..k + 2] == y.boundaries[..k + 2] && x.dayStart == y.dayStart
    && (x.now == y.now || (x.boundaries[k + 1] <= x.now && x.boundaries[k + 1] <= y.now))
    && var days := x.boundaries[..k + 1];
    && SamplesOn(x.samples, days, x.dayStart) == SamplesOn(y.samples, days, x.dayStart)
    && LoadsOn(x.loads, days, x.dayStart) == LoadsOn(y.loads, days, x.dayStart)
    && SameDownBefore(x.segments, y.segments, x.boundaries[k + 1])
  }

  lemma SamplesSnoc(kept: seq<Sample>, x: Sample, days: seq<int>, dayStart: int -> Option<int>)
    ensures SamplesOn(kept + [x], days, dayStart) ==
      if IsOn(x.ts, days, dayStart) then SamplesOn(kept, days, dayStart) + [x] else SamplesOn(kept, days, dayStart)
  {
    assert (kept + [x])[..|kept|] == kept;
  }

  lemma LoadsSnoc(kept: seq<Load>, x: Load, days: seq<int>, dayStart: int -> Option<int>)
    ensures LoadsOn(kept + [x], days, dayStart) ==
      if IsOn(x.ts, days, dayStart) then LoadsOn(kept, days, dayStart) + [x] else LoadsOn(kept, days, dayStart)
  {
    assert (kept + [x])[..|kept|] == kept;
  }

  lemma {:induction false} SamplesOfDays(samples: seq<Sample>, days: seq<int>, day: int, dayStart: int -> Option<int>)
    requires day in days
    ensures SamplesOf(SamplesOn(samples, days, dayStart), day, dayStart) == SamplesOf(samples, day, dayStart)
  {
    if samples != [] {
      var n := |samples| - 1;
      SamplesOfDays(samples[..n], days, day, dayStart);
      var kept := SamplesOn(samples[..n], days, dayStart);
      assert (kept + [samples[n]])[..|kept|] == kept;
      assert SamplesOf(samples[..n], day, dayStart) + [] == SamplesOf(samples[..n], day, dayStart);
    }
  }

  lemma {:induction false} LoadsOfDays(loads: seq<Load>, days: seq<int>, day: int, dayStart: int -> Option<int>)
    requires day in days
    ensures BloatOf(LoadsOn(loads, days, dayStart), day, dayStart) == BloatOf(loads, day, dayStart)
  {
    if loads != [] {
      var n := |loads| - 1;
      LoadsOfDays(loads[..n], days, day, dayStart);
      var kept := LoadsOn(loads[..n], days, dayStart);
      assert (kept + [loads[n]])[..|kept|] == kept;
    }
  }

  /** Some of the days can be picked at once or in two steps. */
  lemma {:induction false} SamplesOnFewer(
    samples: seq<Sample>, days: seq<int>, fewer: seq<int>, dayStart: int -> Option<int>)
    requires forall day :: day in fewer ==> day in days
    ensures SamplesOn(SamplesOn(samples, days, dayStart), fewer, dayStart) == SamplesOn(samples, fewer, dayStart)
  {
    if samples != [] {
      var n := |samples| - 1;
      SamplesOnFewer(samples[..n], days, fewer, dayStart);
      SamplesSnoc(SamplesOn(samples[..n], days, dayStart), samples[n], fewer, dayStart);
    }
  }

  lemma {:induction false} LoadsOnFewer(
    loads: seq<Load>, days: seq<int>, fewer: seq<int>, dayStart: int -> Option<int>)
    requires forall day :: day in fewer ==> day in days
    ensures LoadsOn(LoadsOn(loads, days, dayStart), fewer, dayStart) == LoadsOn(loads, fewer, dayStart)
  {
    if loads != [] {
      var n := |loads| - 1;
      LoadsOnFewer(loads[..n], days, fewer, dayStart);
      LoadsSnoc(LoadsOn(loads[..n], days, dayStart), loads[n], fewer, dayStart);
    }
  }

  /** A window's downtime depends only on which ticks before its end are down. */
  lemma DowntimeDependsOn(a: seq<Segment>, b: seq<Segment>, start: int, end: int, now: int, now': int)
    requires SameDownBefore(a, b, end) && (now == now' || (end <= now && end <= now'))
    ensures DowntimeOf(a, start, end, now) == DowntimeOf(b, start, end, now')
  {
    var limit := if now < end then now else end;
    assert limit == if now' < end then now' else end;
    forall t
      ensures t in DownWithin(a, Some(start), Some(limit), now) <==> t in DownWithin(b, Some(start), Some(limit), now')
    {
      TickOfWindow(a, start, limit, now, t);
      TickOfWindow(b, start, limit, now', t);
    }
    assert DownWithin(a, Some(start), Some(limit), now) == DownWithin(b, Some(start), Some(limit), now');
  }

  lemma TickOfWindow(segments: seq<Segment>, start: int, limit: int, now: int, t: int)
    requires limit <= now
    ensures t in DownWithin(segments, Some(start), Some(limit), now) <==> start <= t < limit && DownAt(segments, t)
  {
    InDownWithin(segments, Some(start), Some(limit), now, t);
    if start <= t < limit {
      forall s ensures Covers(s, now, t) <==> s.started <= t && (s.ended.Some? ==> t < s.ended.value) {
      }
    }
  }

  predicate SameBefore(s: Segment, r: Segment, end: int) {
    s.started == r.started && (s.ended == r.ended || (EndsAtOrAfter(s, end) && EndsAtOrAfter(r, end)))
  }

  predicate EndsAtOrAfter(s: Segment, end: int) {
    s.ended.Some? ==> end <= s.ended.value
  }

  ghost predicate MatchedIn(a: seq<Segment>, b: seq<Segment>, end: int) {
    forall s :: s in a && s.started < end ==> exists r :: r in b && SameBefore(s, r, end)
  }

  lemma MatchedDown(a: seq<Segment>, b: seq<Segment>, end: int, t: int)
    requires MatchedIn(a, b, end) && t < end && DownAt(a, t)
    ensures DownAt(b, t)
  {
    var s :| s in a && s.started <= t && (s.ended.Some? ==> t < s.ended.value);
    var r :| r in b && SameBefore(s, r, end);
  }

  /** Segments that began before `end` and differ only in ends that lie at or after it, or are still to come. */
  lemma MatchingSegmentsAgree(a: seq<Segment>, b: seq<Segment>, end: int)
    requires MatchedIn(a, b, end) && MatchedIn(b, a, end)
    ensures SameDownBefore(a, b, end)
  {
    forall t | t < end ensures DownAt(a, t) <==> DownAt(b, t) {
      if DownAt(a, t) {
        MatchedDown(a, b, end, t);
      }
      if DownAt(b, t) {
        MatchedDown(b, a, end, t);
      }
    }
  }

  lemma AgreeUpToBefore(x: Inputs, y: Inputs, k: nat)
    requires k > 0 && AgreeUpTo(x, y, k) && Increasing(x.boundaries)
    ensures AgreeUpTo(x, y, k - 1)
  {
    var days, fewer := x.boundaries[..k + 1], x.boundaries[..k];
    assert x.boundaries[..k + 2][..k + 1] == x.boundaries[..k + 1];
    assert y.boundaries[..k + 2][..k + 1] == y.boundaries[..k + 1];
    SamplesOnFewer(x.samples, days, fewer, x.dayStart);
    SamplesOnFewer(y.samples, days, fewer, x.dayStart);
    LoadsOnFewer(x.loads, days, fewer, x.dayStart);
    LoadsOnFewer(y.loads, days, fewer, x.dayStart);
    hide SamplesOn, LoadsOn;
  }

  /** Nothing that is recorded for later days changes the score of a day: not their samples, load tests and outages, not
      how an outage that outlasts the day goes on, and, once the day is over, not the time it is read at. */
  lemma {:induction false} LaterDaysInvisible(x: Inputs, y: Inputs, k: nat)
    requires AgreeUpTo(x, y, k) && Increasing(x.boundaries)
    ensures DayAt(x, k) == DayAt(y, k)
    ensures MediansUpTo(x, k) == MediansUpTo(y, k)
  {
    hide GradeDay, SamplesOf, BloatOf, SamplesOn, LoadsOn, DowntimeOf, SameDownBefore;
    if k > 0 {
      AgreeUpToBefore(x, y, k);
      LaterDaysInvisible(x, y, k - 1);
    }
    var days := x.boundaries[..k + 1];
    assert x.boundaries[k] in days;
    assert x.boundaries[..k + 2][k] == y.boundaries[..k + 2][k];
    assert x.boundaries[..k + 2][k + 1] == y.boundaries[..k + 2][k + 1];
    SamplesOfDays(x.samples, days, x.boundaries[k], x.dayStart);
    SamplesOfDays(y.samples, days, x.boundaries[k], x.dayStart);
    LoadsOfDays(x.loads, days, x.boundaries[k], x.dayStart);
    LoadsOfDays(y.loads, days, x.boundaries[k], x.dayStart);
    DowntimeDependsOn(x.segments, y.segments, x.boundaries[k], x.boundaries[k + 1], x.now, y.now);
  }

  // ----- the days share the downtime -----

  ghost function DowntimeOfDays(x: Inputs, n: nat): int
    requires n < |x.boundaries|
  {
    if n == 0 then 0
    else DowntimeOfDays(x, n - 1) + DowntimeOf(x.segments, x.boundaries[n - 1], x.boundaries[n], x.now)
  }

  lemma {:induction false} EarlierDays(x: Inputs, n: nat)
    requires n < |x.boundaries| && Increasing(x.boundaries) && x.boundaries[n] <= x.now
    ensures DowntimeOfDays(x, n) == SumOverWindows(x.segments, x.boundaries, x.now, n)
  {
    if n > 0 {
      EarlierDays(x, n - 1);
    }
  }

  /** The downtimes of the days' own windows, graded or not, add up to the downtime of the whole window up to now;
      today, the last day, is the one that contains now. */
  lemma DaysShareTheDowntime(x: Inputs)
    requires |x.boundaries| >= 2 && Increasing(x.boundaries)
    requires var n := |x.boundaries| - 1; x.boundaries[n - 1] <= x.now <= x.boundaries[n]
    ensures DowntimeOfDays(x, |x.boundaries| - 1) == Measure(x.segments, Some(x.boundaries[0]), Some(x.now), x.now)
  {
    var n := |x.boundaries| - 1;
    EarlierDays(x, n - 1);
    DaysAddUp(x.segments, x.boundaries, x.now, n - 1);
    NeighbouringWindowsAddUp(x.segments, x.boundaries[0], x.boundaries[n - 1], x.now, x.now);
  }

  /** Every graded day of the history is scored within 0 and 100. */
  lemma HistoryWithinBounds(x: Inputs, k: nat)
    requires k + 1 < |x.boundaries| && Measured(x.samples)
    ensures DayAt(x, k).entry.score.Some? ==> 0 <= DayAt(x, k).entry.score.value <= 100
  {
    hide DayScore, Median, Measure;
    var own := SamplesOf(x.samples, x.boundaries[k], x.dayStart);
    OwnSamples(x.samples, x.boundaries[k], x.dayStart);
    var downtime := DowntimeOf(x.segments, x.boundaries[k], x.boundaries[k + 1], x.now);
    var bloat := BloatOf(x.loads, x.boundaries[k], x.dayStart);
    forall baseline ensures 0 <= DayScore(own, bloat, downtime, baseline) <= 100 {
      ScoreWithinBounds(own, bloat, downtime, baseline);
    }
  }

  lemma {:induction false} OwnSamples(samples: seq<Sample>, day: int, dayStart: int -> Option<int>)
    ensures forall s :: s in SamplesOf(samples, day, dayStart) ==> s in samples
  {
    if samples != [] {
      OwnSamples(samples[..|samples| - 1], day, dayStart);
    }
  }
}
