/** What the stored segments mean for a history whose times never run backwards: a tick is down
    exactly when the latest observation at that tick was failing. */
module LedgerMeaning {
  import opened Options
  import opened OutageWindows
  import opened OutageFigure
  import opened OutageLedger
  import opened Severities
  import opened LedgerTheorems

  ghost predicate InOrder(started: int, runs: seq<Run>, n: nat)
    requires n <= |runs|
  {
    && (forall i :: 0 <= i < n ==> started <= runs[i].ts)
    && (forall i, j :: 0 <= i < j < n ==> runs[i].ts <= runs[j].ts)
  }

  /** The last of the first `n` runs that had happened by `t`; the first run speaks for the time
      between the trigger and itself. */
  function LatestBy(runs: seq<Run>, n: nat, t: int): (k: nat)
    requires 0 < n <= |runs|
    ensures k < n
  {
    if n == 1 || runs[n - 1].ts <= t then n - 1 else LatestBy(runs, n - 1, t)
  }

  predicate FailingAt(started: int, runs: seq<Run>, n: nat, t: int)
    requires 0 < n <= |runs|
  {
    started <= t && !runs[LatestBy(runs, n, t)].severity.Ok?
  }

  ghost predicate InScan(scan: Scan, now: int, t: int) {
    || (exists s :: s in scan.closed && Covers(s, now, t))
    || (scan.open.Some? && scan.open.value <= t)
  }

  /** Rows end where the next begins or earlier, and none lies beyond the latest run. */
  ghost predicate Sequential(scan: Scan, upTo: int) {
    && (forall i :: 0 <= i < |scan.closed| ==>
          scan.closed[i].ended.Some? && scan.closed[i].started <= scan.closed[i].ended.value <= upTo)
    && (forall i, j :: 0 <= i < j < |scan.closed| ==> scan.closed[i].ended.value <= scan.closed[j].started)
    && (scan.open.Some? ==>
          && scan.open.value <= upTo
          && forall i :: 0 <= i < |scan.closed| ==> scan.closed[i].ended.value <= scan.open.value)
  }

  lemma {:induction false} ScanSequential(started: int, runs: seq<Run>, n: nat)
    requires 0 < n <= |runs| && InOrder(started, runs, n)
    ensures Sequential(OnlineScan(started, runs, n), runs[n - 1].ts)
  {
    if n == 1 {
      assert OnlineScan(started, runs, 0) == Scan([], None);
    } else {
      ScanSequential(started, runs, n - 1);
      OpenAfterFailing(started, runs, n - 1);
    }
  }

  lemma {:induction false} ScanMeaning(started: int, runs: seq<Run>, n: nat, now: int, t: int)
    requires 0 < n <= |runs| && InOrder(started, runs, n)
    ensures InScan(OnlineScan(started, runs, n), now, t) <==> FailingAt(started, runs, n, t)
  {
    var after := OnlineScan(started, runs, n);
    if n == 1 {
      assert OnlineScan(started, runs, 0) == Scan([], None);
    } else {
      var before := OnlineScan(started, runs, n - 1);
      var r := runs[n - 1];
      ScanMeaning(started, runs, n - 1, now, t);
      ScanSequential(started, runs, n - 1);
      OpenAfterFailing(started, runs, n - 1);
      if before.open.Some? && r.severity.Ok? {
        var added := Segment(before.open.value, Some(r.ts));
        assert after.closed == before.closed + [added];
        assert added in after.closed;
        assert forall s :: s in after.closed ==> s in before.closed || s == added;
      }
      assert r.ts <= t ==> forall s :: s in before.closed ==> !Covers(s, now, t);
    }
  }

  function Until(s: State, now: int): int {
    if s.incident.resolved.Some? then s.incident.resolved.value else now
  }

  /** Times as a clock that never steps back records them, up to the close or the present. */
  ghost predicate Orderly(s: State, now: int) {
    && 0 < s.watched <= |s.runs|
    && InOrder(s.incident.started, s.runs, s.watched)
    && s.runs[s.watched - 1].ts <= Until(s, now)
  }

  /** The downtime figure of an incident counts exactly the ticks of the window, up to the close or
      the present, at which the latest observation was failing. */
  lemma DownMeansLatestObservationFailed(
    s: State, windowStart: Option<int>, windowEnd: Option<int>, now: int, t: int)
    requires Reachable(s) && Orderly(s, now)
    ensures t in DownWithin(s.segments, windowStart, windowEnd, now)
       <==> && InWindow(t, windowStart, windowEnd, now)
            && t < Until(s, now)
            && FailingAt(s.incident.started, s.runs, s.watched, t)
  {
    var started, events :| s == After(started, events);
    AlwaysConsistent(started, events);
    var scan := OnlineScan(started, s.runs, s.watched);
    ScanMeaning(started, s.runs, s.watched, now, t);
    ScanSequential(started, s.runs, s.watched);
    InDownWithin(s.segments, windowStart, windowEnd, now, t);
    assert forall g :: g in scan.closed ==> g in s.segments;
    if scan.open.Some? {
      var last := Segment(scan.open.value, s.incident.resolved);
      assert s.segments == scan.closed + [last];
      assert last in s.segments;
      assert forall g :: g in s.segments ==> g in scan.closed || g == last;
      assert Covers(last, now, t) <==> scan.open.value <= t < Until(s, now);
    }
  }

  /** Stored segments are in time order and never overlap, so merging has nothing to merge: the
      figure is the plain sum of the clipped lengths. */
  lemma MergingIsRedundant(s: State, windowStart: Option<int>, endLimit: int, now: int)
    requires Reachable(s) && Orderly(s, now)
    ensures forall i, j :: 0 <= i < j < |s.segments| ==>
              s.segments[i].ended.Some? && s.segments[i].ended.value <= s.segments[j].started
    ensures Measure(s.segments, windowStart, Some(endLimit), now) == PlainSum(s.segments, windowStart, endLimit, now)
  {
    var started, events :| s == After(started, events);
    AlwaysConsistent(started, events);
    ScanSequential(started, s.runs, s.watched);
    MergingNeverInflates(s.segments, windowStart, endLimit, now);
  }

  // ----- histories for which the two forms disagree -----

  /** A clock that steps back across the incident's start before the outage returns. */
  lemma SteppedClockDisagrees()
    ensures var s := After(100, [Observed(100, Bad), Observed(110, Ok), Observed(50, Bad)]);
      && Reachable(s) && s.watched == 3
      && s.segments != Derive(s.incident, s.runs)
  {
    var e0, e1, e2 := Observed(100, Bad), Observed(110, Ok), Observed(50, Bad);
    assert [e0, e1, e2][..2] == [e0, e1] && [e0, e1][..1] == [e0] && [e0][..0] == [];
    assert After(100, []) == Fresh(100);
    var s1 := After(100, [e0]);
    assert s1 == State(Incident(100, None, None, false, "", ""), [Segment(100, None)], [Run(100, Bad)], 1);
    var s2 := After(100, [e0, e1]);
    assert s2.segments == [Segment(100, Some(110))] && s2.runs == [Run(100, Bad), Run(110, Ok)];
    var s := After(100, [e0, e1, e2]);
    assert s.runs == [Run(100, Bad), Run(110, Ok), Run(50, Bad)] && s.watched == 3;
    assert Reopens(s.runs, 2);
    assert s.runs[..3] == s.runs;
    RebuildingAgrees(s);
  }

  /** A recheck that finishes after a manual close: the stored outage ends at the close, the rebuilt
      one at the late run. */
  lemma LateRunDisagrees()
    ensures var s := After(100, [Observed(100, Bad), Closed(105, Dashboard), Observed(107, Ok)]);
      && Reachable(s) && s.watched == 1
      && s.segments == [Segment(100, Some(105))]
      && Derive(s.incident, s.runs) == [Segment(100, Some(107))]
  {
    var e0, e1, e2 := Observed(100, Bad), Closed(105, Dashboard), Observed(107, Ok);
    assert [e0, e1, e2][..2] == [e0, e1] && [e0, e1][..1] == [e0] && [e0][..0] == [];
    assert After(100, []) == Fresh(100);
    var s1 := After(100, [e0]);
    assert s1 == State(Incident(100, None, None, false, "", ""), [Segment(100, None)], [Run(100, Bad)], 1);
    var s2 := After(100, [e0, e1]);
    assert s2.segments == [Segment(100, Some(105))] && s2.runs == [Run(100, Bad)];
    var s := After(100, [e0, e1, e2]);
    assert s.runs == [Run(100, Bad), Run(107, Ok)];
    assert BatchScan(100, s.runs, 1) == Scan([], Some(100));
    assert BatchScan(100, s.runs, 2) == Scan([Segment(100, Some(107))], None);
  }
}
