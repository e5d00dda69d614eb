/** What the outage ledger keeps in every reachable state, and when the rebuilt segments agree
    with the stored ones. */
module LedgerTheorems {
  import opened Options
  import opened OutageWindows
  import opened OutageLedger
  import opened Severities

  // ----- the online form as a scan over the watched runs -----

  function OnlineStep(started: int, scan: Scan, index: nat, run: Run): Scan {
    if !run.severity.Ok? then
      if scan.open.None? then scan.(open := Some(if index == 0 then started else run.ts)) else scan
    else if scan.open.Some? then Scan(scan.closed + [Segment(scan.open.value, Some(run.ts))], None)
    else scan
  }

  function OnlineScan(started: int, runs: seq<Run>, n: nat): Scan
    requires n <= |runs|
  {
    if n == 0 then Scan([], None) else OnlineStep(started, OnlineScan(started, runs, n - 1), n - 1, runs[n - 1])
  }

  /** The segment rows that a scan stands for. */
  function Rows(scan: Scan, lastEnd: Option<int>): seq<Segment> {
    if scan.open.Some? then scan.closed + [Segment(scan.open.value, lastEnd)] else scan.closed
  }

  ghost predicate ChecksHold(closed: seq<Segment>) {
    forall i :: 0 <= i < |closed| ==> closed[i].ended.Some? && closed[i].started <= closed[i].ended.value
  }

  /** `recovered_at` while the incident is unresolved: the time of the first run of the healthy
      block at the end of the history, nothing if the last run failed. */
  function TrailingHealthyStart(runs: seq<Run>, n: nat): Option<int>
    requires n <= |runs|
  {
    if n == 0 || !runs[n - 1].severity.Ok? then None
    else Coalesce(TrailingHealthyStart(runs, n - 1), runs[n - 1].ts)
  }

  ghost predicate Consistent(s: State) {
    && s.watched <= |s.runs|
    && var scan := OnlineScan(s.incident.started, s.runs, s.watched);
    && ChecksHold(scan.closed)
    && s.segments == Rows(scan, s.incident.resolved)
    && (s.incident.resolved.None? ==>
          && s.watched == |s.runs|
          && s.incident.recoveredAt == TrailingHealthyStart(s.runs, s.watched))
    && (s.incident.resolved.Some? && scan.open.Some? ==>
          && scan.open.value <= s.incident.resolved.value
          && (s.incident.recoveredAt.None? || s.incident.recoveredAt == s.incident.resolved))
  }

  lemma {:induction false} ScansOfPrefix(started: int, a: seq<Run>, b: seq<Run>, n: nat)
    requires n <= |a| && a <= b
    ensures OnlineScan(started, a, n) == OnlineScan(started, b, n)
    ensures BatchScan(started, a, n) == BatchScan(started, b, n)
    ensures TrailingHealthyStart(a, n) == TrailingHealthyStart(b, n)
  {
    if n > 0 {
      ScansOfPrefix(started, a, b, n - 1);
    }
  }

  /** Which runs leave a segment open: exactly the failing ones. */
  lemma {:induction false} OpenAfterFailing(started: int, runs: seq<Run>, n: nat)
    requires n <= |runs|
    ensures OnlineScan(started, runs, n).open.Some? <==> n > 0 && !runs[n - 1].severity.Ok?
    ensures BatchScan(started, runs, n).open.Some? <==> n > 0 && !runs[n - 1].severity.Ok?
    ensures |OnlineScan(started, runs, n).closed| == |BatchScan(started, runs, n).closed|
    ensures n == 0 || n == 1 ==> OnlineScan(started, runs, n).closed == []
  {
    if n > 0 {
      OpenAfterFailing(started, runs, n - 1);
    }
  }

  lemma RowsOpenAndClose(scan: Scan, at: int)
    requires ChecksHold(scan.closed)
    ensures HasOpen(Rows(scan, None)) <==> scan.open.Some?
    ensures CloseAllowed(Rows(scan, None), at) <==> (scan.open.Some? ==> scan.open.value <= at)
    ensures CloseOpen(Rows(scan, None), at) == Rows(scan, Some(at))
  {
    var rows := Rows(scan, None);
    if scan.open.Some? {
      assert rows[|scan.closed|] == Segment(scan.open.value, None);
    }
    assert CloseOpen(rows, at) == Rows(scan, Some(at));
  }

  lemma ClosedRowsStay(scan: Scan, end: int, at: int)
    requires ChecksHold(scan.closed)
    ensures CloseAllowed(Rows(scan, Some(end)), at)
    ensures CloseOpen(Rows(scan, Some(end)), at) == Rows(scan, Some(end))
  {
  }

  lemma ObserveKeeps(s: State, ts: int, severity: Severity)
    requires Consistent(s)
    ensures Consistent(Observe(s, ts, severity))
  {
    var r := Observe(s, ts, severity);
    var started := s.incident.started;
    if s.runs <= r.runs {
      ScansOfPrefix(started, s.runs, r.runs, s.watched);
    }
    if s.incident.resolved.None? {
      var scan := OnlineScan(started, s.runs, s.watched);
      RowsOpenAndClose(scan, ts);
      OpenAfterFailing(started, s.runs, s.watched);
    }
  }

  lemma CloseKeeps(s: State, at: int, closer: Closer)
    requires Consistent(s)
    ensures Consistent(Close(s, at, closer))
  {
    var scan := OnlineScan(s.incident.started, s.runs, s.watched);
    OpenAfterFailing(s.incident.started, s.runs, s.watched);
    if s.incident.resolved.None? {
      RowsOpenAndClose(scan, at);
    } else {
      ClosedRowsStay(scan, s.incident.resolved.value, at);
    }
  }

  lemma {:induction false} AlwaysConsistent(started: int, events: seq<Event>)
    ensures Consistent(After(started, events))
    ensures After(started, events).incident.started == started
  {
    if events != [] {
      AlwaysConsistent(started, events[..|events| - 1]);
      var s := After(started, events[..|events| - 1]);
      match events[|events| - 1]
      case Observed(ts, severity) => ObserveKeeps(s, ts, severity);
      case Closed(at, closer) => CloseKeeps(s, at, closer);
    }
  }

  // ----- the shape of the stored rows -----

  lemma ShapeOfRows(scan: Scan, end: Option<int>)
    requires ChecksHold(scan.closed) && (scan.open.Some? && end.Some? ==> scan.open.value <= end.value)
    ensures var rows := Rows(scan, end);
      && (forall i :: 0 <= i < |rows| - 1 ==> rows[i].ended.Some?)
      && (end.Some? ==> forall i :: 0 <= i < |rows| ==> rows[i].ended.Some?)
      && (forall i :: 0 <= i < |rows| && rows[i].ended.Some? ==> rows[i].started <= rows[i].ended.value)
  {
  }

  /** Only the last segment can be open, and none is once the incident is resolved; `recovered_at`
      of an unresolved incident is the start of the healthy block it is in. */
  lemma OnlyTheLastSegmentIsOpen(s: State)
    requires Reachable(s)
    ensures forall i :: 0 <= i < |s.segments| - 1 ==> s.segments[i].ended.Some?
    ensures s.incident.resolved.Some? ==> forall i :: 0 <= i < |s.segments| ==> s.segments[i].ended.Some?
    ensures forall i :: 0 <= i < |s.segments| && s.segments[i].ended.Some?
              ==> s.segments[i].started <= s.segments[i].ended.value
    ensures s.incident.resolved.None? ==> s.incident.recoveredAt == TrailingHealthyStart(s.runs, |s.runs|)
    ensures s.incident.resolved.None? ==> (HasOpen(s.segments) <==> s.runs != [] && !s.runs[|s.runs| - 1].severity.Ok?)
  {
    hide After, OnlineScan, TrailingHealthyStart, ChecksHold, Rows, HasOpen, CloseOpen, CloseAllowed;
    var started, events :| s == After(started, events);
    AlwaysConsistent(started, events);
    var scan := OnlineScan(s.incident.started, s.runs, s.watched);
    ShapeOfRows(scan, s.incident.resolved);
    RowsOpenAndClose(scan, 0);
    OpenAfterFailing(s.incident.started, s.runs, s.watched);
  }

  // ----- the recovery time, over the runs alone -----

  /** Run `k` begins the healthy block at the end. */
  ghost predicate BeginsHealthyEnd(runs: seq<Run>, k: nat) {
    && k < |runs|
    && (forall j :: k <= j < |runs| ==> runs[j].severity == Ok)
    && (k == 0 || runs[k - 1].severity != Ok)
  }

  lemma {:induction false} HealthyEndTells(runs: seq<Run>, n: nat)
    requires n <= |runs|
    ensures TrailingHealthyStart(runs, n).None? <==> n == 0 || runs[n - 1].severity != Ok
    ensures forall k: nat :: BeginsHealthyEnd(runs[..n], k) ==> TrailingHealthyStart(runs, n) == Some(runs[k].ts)
    ensures TrailingHealthyStart(runs, n).Some? ==> exists k: nat :: BeginsHealthyEnd(runs[..n], k)
  {
    if n > 0 {
      HealthyEndTells(runs, n - 1);
      var front, all := runs[..n - 1], runs[..n];
      assert all[n - 1] == runs[n - 1] && forall j :: 0 <= j < n - 1 ==> all[j] == front[j];
      if runs[n - 1].severity == Ok {
        if k: nat :| BeginsHealthyEnd(front, k) {
          assert BeginsHealthyEnd(all, k);
        } else {
          assert BeginsHealthyEnd(all, n - 1);
        }
        forall k: nat | BeginsHealthyEnd(all, k) ensures TrailingHealthyStart(runs, n) == Some(runs[k].ts) {
          if k < n - 1 {
            assert BeginsHealthyEnd(front, k);
          } else {
            assert n > 1 ==> front[n - 2].severity != Ok;
          }
        }
      }
    }
  }

  /** `recovered_at` of an unresolved incident: absent before the first run and after a failing one, and otherwise the
      time of the run that began the healthy block at the end. */
  lemma RecoveredAtTells(s: State)
    requires Reachable(s) && s.incident.resolved.None?
    ensures s.incident.recoveredAt.None? <==> s.runs == [] || s.runs[|s.runs| - 1].severity != Ok
    ensures forall t :: s.incident.recoveredAt == Some(t) <==>
      exists k: nat :: BeginsHealthyEnd(s.runs, k) && t == s.runs[k].ts
  {
    OnlyTheLastSegmentIsOpen(s);
    hide Reachable, BeginsHealthyEnd, TrailingHealthyStart;
    HealthyEndTells(s.runs, |s.runs|);
    assert s.runs[..|s.runs|] == s.runs;
  }

  // ----- what the transactions do to the rows, column by column -----

  /** An observation is stored unless it is a healthy one of an unresolved incident that would end a segment before its
      start; what it changes in the segments and in the incident. */
  lemma ObservationTells(s: State, ts: int, severity: Severity)
    requires Reachable(s)
    ensures var r := Observe(s, ts, severity);
      var refused := severity == Ok && s.incident.resolved.None?
        && exists i :: 0 <= i < |s.segments| && s.segments[i].ended == None && ts < s.segments[i].started;
      && (refused ==> r == s)
      && (!refused ==> r.runs == s.runs + [Run(ts, severity)])
      && (s.incident.resolved.Some? ==> r.segments == s.segments && r.incident == s.incident)
      && (s.incident.resolved.None? && !refused && severity == Ok ==>
            && |r.segments| == |s.segments|
            && (forall i :: 0 <= i < |s.segments| ==>
                  && r.segments[i].started == s.segments[i].started
                  && r.segments[i].ended == (if s.segments[i].ended == None then Some(ts) else s.segments[i].ended))
            && r.incident == s.incident.(recoveredAt :=
                 if s.incident.recoveredAt == None then Some(ts) else s.incident.recoveredAt))
      && (s.incident.resolved.None? && severity != Ok ==>
            && r.incident == s.incident.(recoveredAt := None)
            && (if exists i :: 0 <= i < |s.segments| && s.segments[i].ended == None then r.segments == s.segments
                else r.segments == s.segments +
                       [Segment(if s.segments == [] && s.runs == [] then s.incident.started else ts, None)]))
  {
    hide Reachable;
  }

  /** A close is refused only if it would end a segment before its start. It ends the open segment and writes `resolved`
      once; a loop that confirmed a recovery leaves a recovery time that is already stored alone. */
  lemma CloseTells(s: State, at: int, closer: Closer)
    requires Reachable(s)
    ensures var r := Close(s, at, closer);
      var refused := exists i :: 0 <= i < |s.segments| && s.segments[i].ended == None && at < s.segments[i].started;
      && (refused ==> r == s)
      && (!refused ==>
            && r.runs == s.runs && |r.segments| == |s.segments|
            && (forall i :: 0 <= i < |s.segments| ==>
                  && r.segments[i].started == s.segments[i].started
                  && r.segments[i].ended == (if s.segments[i].ended == None then Some(at) else s.segments[i].ended))
            && r.incident.started == s.incident.started
            && r.incident.falseAlarm == (s.incident.falseAlarm || closer == FalseAlarm)
            && r.incident.resolved == (if s.incident.resolved == None then Some(at) else s.incident.resolved)
            && (if s.incident.resolved == None && s.incident.recoveredAt == None
                   && closer.LoopEnd? && closer.confirmed
                then r.incident.recoveredAt == Some(at)
                else r.incident.recoveredAt == s.incident.recoveredAt))
      && (!refused && closer.LoopEnd? && s.incident.resolved == None ==>
            r.incident.verdictCode == closer.code && r.incident.diagnosisCode == closer.code)
      && (!refused && closer.FalseAlarm? ==>
            r.incident.verdictCode == "all_clear" && r.incident.diagnosisCode == s.incident.diagnosisCode)
      && (!refused && (closer.Dashboard? || (closer.LoopEnd? && s.incident.resolved.Some?)) ==>
            r.incident.verdictCode == s.incident.verdictCode && r.incident.diagnosisCode == s.incident.diagnosisCode)
  {
    hide Reachable;
  }

  /** What is rebuilt for an incident without runs. */
  lemma DerivedWithoutRuns(incident: Incident)
    ensures var blamed := if incident.diagnosisCode != "" then incident.diagnosisCode else incident.verdictCode;
      if incident.falseAlarm || blamed == "" || blamed == "all_clear" then Derive(incident, []) == []
      else
        && |Derive(incident, [])| == 1 && Derive(incident, [])[0].started == incident.started
        && (incident.recoveredAt.None? && incident.resolved.None? ==> Derive(incident, [])[0].ended == None)
        && ((incident.recoveredAt.Some? && incident.recoveredAt.value > 0
             && incident.recoveredAt.value >= incident.started)
            ==> Derive(incident, [])[0].ended == incident.recoveredAt)
        && (((incident.recoveredAt.None? || incident.recoveredAt.value == 0) && incident.resolved.Some?
             && incident.resolved.value >= incident.started)
            ==> Derive(incident, [])[0].ended == incident.resolved)
        && (Derive(incident, [])[0].ended.Some? ==> incident.started <= Derive(incident, [])[0].ended.value)
  {
  }

  // ----- rebuilt against stored -----

  function Starts(scan: Scan): seq<int> {
    seq(|scan.closed|, i requires 0 <= i < |scan.closed| => scan.closed[i].started)
      + (if scan.open.Some? then [scan.open.value] else [])
  }

  /** A failing run after a healthy one opens a new segment at its own time. */
  predicate Reopens(runs: seq<Run>, i: nat)
    requires i < |runs|
  {
    i > 0 && !runs[i].severity.Ok? && runs[i - 1].severity.Ok?
  }

  predicate ReopensInOrder(started: int, runs: seq<Run>, n: nat)
    requires n <= |runs|
  {
    forall i :: 0 <= i < n && Reopens(runs, i) ==> started <= runs[i].ts
  }

  lemma SnocEqual(a: seq<int>, x: int, b: seq<int>, y: int)
    ensures a + [x] == b + [y] <==> a == b && x == y
  {
    if a + [x] == b + [y] {
      assert (a + [x])[..|a|] == a && (b + [y])[..|b|] == b;
      assert (a + [x])[|a|] == x && (b + [y])[|b|] == y;
    }
  }

  /** Both scans add a start at a failing run that finds nothing open, and only there. */
  lemma StartsGrow(started: int, runs: seq<Run>, n: nat)
    requires n < |runs|
    ensures var online, batch := OnlineScan(started, runs, n), BatchScan(started, runs, n);
      && Starts(OnlineScan(started, runs, n + 1)) == Starts(online) +
           (if online.open.None? && !runs[n].severity.Ok?
            then [if n == 0 then started else runs[n].ts] else [])
      && Starts(BatchScan(started, runs, n + 1)) == Starts(batch) +
           (if batch.open.None? && !runs[n].severity.Ok?
            then [if n == 0 then started else Max(started, runs[n].ts)] else [])
  {
    var online, batch := OnlineScan(started, runs, n), BatchScan(started, runs, n);
    assert OnlineScan(started, runs, n + 1) == OnlineStep(started, online, n, runs[n]);
    assert BatchScan(started, runs, n + 1) == BatchStep(started, batch, n, runs[n]);
    hide OnlineScan, BatchScan;
  }

  lemma InOrderStep(started: int, runs: seq<Run>, n: nat)
    requires 0 < n <= |runs|
    ensures ReopensInOrder(started, runs, n) <==>
      ReopensInOrder(started, runs, n - 1) && (Reopens(runs, n - 1) ==> started <= runs[n - 1].ts)
  {
  }

  /** One more run, given the starts before it. */
  lemma StartsStep(started: int, runs: seq<Run>, n: nat)
    requires 0 < n <= |runs|
    requires Starts(OnlineScan(started, runs, n - 1)) == Starts(BatchScan(started, runs, n - 1))
       <==> ReopensInOrder(started, runs, n - 1)
    ensures Starts(OnlineScan(started, runs, n)) == Starts(BatchScan(started, runs, n))
       <==> ReopensInOrder(started, runs, n)
  {
    hide Starts, OnlineScan, BatchScan, ReopensInOrder;
    OpenAfterFailing(started, runs, n - 1);
    StartsGrow(started, runs, n - 1);
    InOrderStep(started, runs, n);
    var online, batch := OnlineScan(started, runs, n - 1), BatchScan(started, runs, n - 1);
    var at := runs[n - 1].ts;
    if online.open.None? && !runs[n - 1].severity.Ok? {
      SnocEqual(Starts(online), if n == 1 then started else at,
                Starts(batch), if n == 1 then started else Max(started, at));
      assert Reopens(runs, n - 1) <==> n > 1;
    } else {
      assert !Reopens(runs, n - 1);
      assert Starts(OnlineScan(started, runs, n)) == Starts(online);
    }
  }

  lemma {:induction false} StartsAgree(started: int, runs: seq<Run>, n: nat)
    requires n <= |runs|
    ensures Starts(OnlineScan(started, runs, n)) == Starts(BatchScan(started, runs, n))
       <==> ReopensInOrder(started, runs, n)
  {
    if n > 0 {
      StartsAgree(started, runs, n - 1);
      StartsStep(started, runs, n);
    }
  }

  lemma {:induction false} OpenStartNotBefore(started: int, runs: seq<Run>, n: nat)
    requires n <= |runs| && ReopensInOrder(started, runs, n)
    ensures OnlineScan(started, runs, n).open.Some? ==> started <= OnlineScan(started, runs, n).open.value
  {
    if n > 0 {
      OpenStartNotBefore(started, runs, n - 1);
      OpenAfterFailing(started, runs, n - 1);
    }
  }

  lemma {:induction false} ScansAgree(started: int, runs: seq<Run>, n: nat)
    requires n <= |runs| && ReopensInOrder(started, runs, n)
    requires ChecksHold(OnlineScan(started, runs, n).closed)
    ensures OnlineScan(started, runs, n) == BatchScan(started, runs, n)
  {
    if n > 0 {
      var before, after := OnlineScan(started, runs, n - 1), OnlineScan(started, runs, n);
      assert before.closed <= after.closed;
      ScansAgree(started, runs, n - 1);
      OpenAfterFailing(started, runs, n - 1);
      OpenStartNotBefore(started, runs, n - 1);
      if |before.closed| < |after.closed| {
        var added := after.closed[|before.closed|];
        assert added.started <= added.ended.value;
      }
    }
  }

  lemma RowsTellStarts(a: Scan, endA: Option<int>, b: Scan, endB: Option<int>)
    requires Rows(a, endA) == Rows(b, endB) && (a.open.Some? <==> b.open.Some?)
    ensures Starts(a) == Starts(b)
  {
    assert |a.closed| == |b.closed|;
    forall i | 0 <= i < |a.closed| ensures a.closed[i] == b.closed[i] {
      assert Rows(a, endA)[i] == Rows(b, endB)[i];
    }
    if a.open.Some? {
      assert Rows(a, endA)[|a.closed|] == Rows(b, endB)[|a.closed|];
    }
  }

  /** Incremental equals batch: rebuilding the segments from the runs that were stored while the
      incident was unresolved gives exactly the stored segments, if and only if no run that
      reopened the outage carries a time before the incident's start. No order of the other
      times is needed, and the incident may be unresolved or closed by anyone. */
  lemma RebuildingAgrees(s: State)
    requires Reachable(s) && s.watched > 0
    ensures s.watched <= |s.runs|
    ensures s.segments == Derive(s.incident, s.runs[..s.watched])
       <==> ReopensInOrder(s.incident.started, s.runs, s.watched)
  {
    var started, events :| s == After(started, events);
    AlwaysConsistent(started, events);
    var n, runs := s.watched, s.runs[..s.watched];
    ScansOfPrefix(started, runs, s.runs, n);
    var online, batch := OnlineScan(started, s.runs, n), BatchScan(started, s.runs, n);
    OpenAfterFailing(started, s.runs, n);
    StartsAgree(started, s.runs, n);
    if batch.open.Some? {
      assert Derive(s.incident, runs) == Rows(batch, LastEnd(s.incident, batch.open.value));
      if ReopensInOrder(started, s.runs, n) {
        ScansAgree(started, s.runs, n);
      } else if s.segments == Derive(s.incident, runs) {
        RowsTellStarts(online, s.incident.resolved, batch, LastEnd(s.incident, batch.open.value));
      }
    } else {
      assert Derive(s.incident, runs) == Rows(batch, None);
      if ReopensInOrder(started, s.runs, n) {
        ScansAgree(started, s.runs, n);
      } else if s.segments == Derive(s.incident, runs) {
        RowsTellStarts(online, s.incident.resolved, batch, None);
      }
    }
  }

  /** Before the first run there is nothing stored; the rebuilt list is empty too unless the
      incident already carries a diagnosis. */
  lemma RebuildingWithoutRuns(s: State)
    requires Reachable(s) && s.watched == 0
    ensures s.segments == []
    ensures s.segments == Derive(s.incident, []) <==> !CountsWithoutRuns(s.incident)
  {
    var started, events :| s == After(started, events);
    AlwaysConsistent(started, events);
  }

  // ----- runs stored after the close -----

  /** A recheck that was already probing when someone closed the incident still stores its run. */
  predicate LateRunsHarmless(incident: Incident, runs: seq<Run>, n: nat)
    requires 0 < n <= |runs|
  {
    var scan := BatchScan(incident.started, runs, n);
    if scan.open.None? then
      forall i :: n <= i < |runs| ==> runs[i].severity.Ok?
    else
      || (forall i :: n <= i < |runs| ==> !runs[i].severity.Ok?)
      || exists k :: n <= k < |runs|
           && (forall i :: n <= i < k ==> !runs[i].severity.Ok?)
           && (forall i :: k <= i < |runs| ==> runs[i].severity.Ok?)
           && LastEnd(incident, scan.open.value) == Some(Max(scan.open.value, Max(incident.started, runs[k].ts)))
  }

  lemma {:induction false} FailingRunsChangeNothing(started: int, runs: seq<Run>, n: nat, m: nat)
    requires 0 < n <= m <= |runs| && BatchScan(started, runs, n).open.Some?
    requires forall i :: n <= i < m ==> !runs[i].severity.Ok?
    ensures BatchScan(started, runs, m) == BatchScan(started, runs, n)
  {
    if n < m {
      FailingRunsChangeNothing(started, runs, n, m - 1);
    }
  }

  lemma {:induction false} HealthyRunsChangeNothing(started: int, runs: seq<Run>, n: nat, m: nat)
    requires 0 < n <= m <= |runs| && BatchScan(started, runs, n).open.None?
    requires forall i :: n <= i < m ==> runs[i].severity.Ok?
    ensures BatchScan(started, runs, m) == BatchScan(started, runs, n)
  {
    if n < m {
      HealthyRunsChangeNothing(started, runs, n, m - 1);
    }
  }

  /** Rows once there stay where they are: later runs only end the open one or add new ones. */
  lemma {:induction false} StartsArePrefix(started: int, runs: seq<Run>, n: nat, m: nat)
    requires n <= m <= |runs|
    ensures Starts(BatchScan(started, runs, n)) <= Starts(BatchScan(started, runs, m))
  {
    if n < m {
      StartsArePrefix(started, runs, n, m - 1);
      var before, after := BatchScan(started, runs, m - 1), BatchScan(started, runs, m);
      assert after == BatchStep(started, before, m - 1, runs[m - 1]);
      hide BatchScan;
      assert Starts(before) <= Starts(after);
    }
  }

  lemma FirstOther(runs: seq<Run>, n: nat, ok: bool) returns (k: nat)
    requires n <= |runs|
    ensures n <= k <= |runs|
    ensures forall i :: n <= i < k ==> runs[i].severity.Ok? == ok
    ensures k < |runs| ==> runs[k].severity.Ok? != ok
  {
    k := n;
    while k < |runs| && runs[k].severity.Ok? == ok
      invariant n <= k <= |runs|
      invariant forall i :: n <= i < k ==> runs[i].severity.Ok? == ok
    {
      k := k + 1;
    }
  }

  lemma AddedRow(started: int, runs: seq<Run>, k: nat)
    requires k < |runs| && BatchScan(started, runs, k).open.None? && !runs[k].severity.Ok?
    ensures |Starts(BatchScan(started, runs, k + 1))| == |Starts(BatchScan(started, runs, k))| + 1
  {
    var before, after := BatchScan(started, runs, k), BatchScan(started, runs, k + 1);
    assert after == BatchStep(started, before, k, runs[k]);
    hide BatchScan;
    assert after.closed == before.closed && after.open.Some?;
  }

  lemma ReopeningAddsARow(started: int, runs: seq<Run>, n: nat, k: nat)
    requires 0 < n <= k < |runs| && BatchScan(started, runs, k).open.None? && !runs[k].severity.Ok?
    ensures |Starts(BatchScan(started, runs, n))| < |Starts(BatchScan(started, runs, |runs|))|
  {
    hide BatchScan, Starts;
    StartsArePrefix(started, runs, n, k);
    AddedRow(started, runs, k);
    StartsArePrefix(started, runs, k + 1, |runs|);
  }

  lemma LateRunsAfterHealthy(incident: Incident, runs: seq<Run>, n: nat)
    requires 0 < n <= |runs| && BatchScan(incident.started, runs, n).open.None?
    ensures Derive(incident, runs) == Derive(incident, runs[..n]) <==> LateRunsHarmless(incident, runs, n)
  {
    var started := incident.started;
    ScansOfPrefix(started, runs[..n], runs, n);
    var k := FirstOther(runs, n, true);
    HealthyRunsChangeNothing(started, runs, n, k);
    if k < |runs| {
      ReopeningAddsARow(started, runs, n, k);
      hide BatchScan;
      assert |Derive(incident, runs)| == |Starts(BatchScan(started, runs, |runs|))|;
      assert |Derive(incident, runs[..n])| == |Starts(BatchScan(started, runs, n))|;
    }
  }

  /** The first late run that ends the open segment, if any, is the only one that can. */
  lemma OnlyFirstHealthyEnds(incident: Incident, runs: seq<Run>, n: nat, k: nat, j: nat)
    requires 0 < n <= k < j <= |runs| && BatchScan(incident.started, runs, n).open.Some?
    requires forall i :: n <= i < k ==> !runs[i].severity.Ok?
    requires forall i :: k <= i < j ==> runs[i].severity.Ok?
    requires j < |runs| ==> !runs[j].severity.Ok?
    ensures LateRunsHarmless(incident, runs, n) <==>
      var open := BatchScan(incident.started, runs, n).open.value;
      j == |runs| && LastEnd(incident, open) == Some(Max(open, Max(incident.started, runs[k].ts)))
  {
    hide BatchScan, LastEnd;
    assert runs[k].severity.Ok?;
  }

  /** The late runs end the open segment once and for all. */
  lemma EndedByLateRuns(incident: Incident, runs: seq<Run>, n: nat, k: nat)
    requires 0 < n <= k < |runs| && BatchScan(incident.started, runs, n).open.Some?
    requires forall i :: n <= i < k ==> !runs[i].severity.Ok?
    requires forall i :: k <= i < |runs| ==> runs[i].severity.Ok?
    ensures var scan := BatchScan(incident.started, runs, n);
      var end := Max(scan.open.value, Max(incident.started, runs[k].ts));
      BatchScan(incident.started, runs, |runs|) ==
        Scan(scan.closed + [Segment(scan.open.value, Some(end))], None)
  {
    FailingRunsChangeNothing(incident.started, runs, n, k);
    assert runs[k].severity.Ok?;
    HealthyRunsChangeNothing(incident.started, runs, k + 1, |runs|);
  }

  lemma LateRunsAfterFailing(incident: Incident, runs: seq<Run>, n: nat)
    requires 0 < n <= |runs| && BatchScan(incident.started, runs, n).open.Some?
    ensures Derive(incident, runs) == Derive(incident, runs[..n]) <==> LateRunsHarmless(incident, runs, n)
  {
    var started := incident.started;
    var early := BatchScan(started, runs, n);
    ScansOfPrefix(started, runs[..n], runs, n);
    var k := FirstOther(runs, n, false);
    FailingRunsChangeNothing(started, runs, n, k);
    assert BatchScan(started, runs[..n], |runs[..n]|) == early;
    if k < |runs| {
      var j := FirstOther(runs, k, true);
      OnlyFirstHealthyEnds(incident, runs, n, k, j);
      if j < |runs| {
        assert BatchScan(started, runs, k + 1).open.None? && runs[k].severity.Ok?;
        HealthyRunsChangeNothing(started, runs, k + 1, j);
        ReopeningAddsARow(started, runs, n, j);
        hide BatchScan, LateRunsHarmless;
        assert |Derive(incident, runs)| == |Starts(BatchScan(started, runs, |runs|))|;
        assert |Derive(incident, runs[..n])| == |Starts(early)|;
      } else {
        EndedByLateRuns(incident, runs, n, k);
        hide BatchScan, LateRunsHarmless;
        var ended := Segment(early.open.value, Some(Max(early.open.value, Max(started, runs[k].ts))));
        assert Derive(incident, runs) == early.closed + [ended];
        assert (early.closed + [ended])[|early.closed|] == ended;
      }
    } else {
      assert LateRunsHarmless(incident, runs, n);
    }
  }

  /** Exactly when runs stored after the close leave the rebuilt segments as they were: all of
      them continue the last verdict, or the outage was open at the close and the first healthy
      late run happens to end it at the recorded end. */
  lemma LateRunsExactly(incident: Incident, runs: seq<Run>, n: nat)
    requires 0 < n <= |runs|
    ensures Derive(incident, runs) == Derive(incident, runs[..n]) <==> LateRunsHarmless(incident, runs, n)
  {
    if BatchScan(incident.started, runs, n).open.None? {
      LateRunsAfterHealthy(incident, runs, n);
    } else {
      LateRunsAfterFailing(incident, runs, n);
    }
  }

  lemma RowsByStarts(a: Scan, endA: Option<int>, b: Scan, endB: Option<int>)
    requires Rows(a, endA) == Rows(b, endB)
    ensures Starts(a) == Starts(b)
  {
    forall i | 0 <= i < |Starts(a)| ensures Starts(a)[i] == Starts(b)[i] {
      assert Rows(a, endA)[i] == Rows(b, endB)[i];
    }
  }

  lemma DeriveIsRows(incident: Incident, runs: seq<Run>) returns (end: Option<int>)
    requires runs != []
    ensures Derive(incident, runs) == Rows(BatchScan(incident.started, runs, |runs|), end)
  {
    var scan := BatchScan(incident.started, runs, |runs|);
    end := if scan.open.Some? then LastEnd(incident, scan.open.value) else None;
  }

  /** Incremental equals batch over everything that is stored: rebuilding from all runs, late ones included, gives
      the stored segments if and only if no watched run that reopened the outage is older than the incident's start
      and the late runs are harmless. */
  lemma RebuildingFromAllRuns(s: State)
    requires Reachable(s) && s.watched > 0
    ensures s.watched <= |s.runs|
    ensures s.segments == Derive(s.incident, s.runs)
       <==> && ReopensInOrder(s.incident.started, s.runs, s.watched)
            && LateRunsHarmless(s.incident, s.runs, s.watched)
  {
    RebuildingAgrees(s);
    var started, events :| s == After(started, events);
    AlwaysConsistent(started, events);
    var n := s.watched;
    LateRunsExactly(s.incident, s.runs, n);
    if s.segments == Derive(s.incident, s.runs) {
      var end := DeriveIsRows(s.incident, s.runs);
      RowsByStarts(OnlineScan(started, s.runs, n), s.incident.resolved, BatchScan(started, s.runs, |s.runs|), end);
      StartsArePrefix(started, s.runs, n, |s.runs|);
      OpenAfterFailing(started, s.runs, n);
      StartsAgree(started, s.runs, n);
    }
  }
}
