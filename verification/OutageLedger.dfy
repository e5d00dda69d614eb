/** The outage ledger of one incident: segments kept up to date observation by observation
    (`_record_incident_observation`, `_close_open_outage_segment`) and segments rebuilt in
    one pass over the stored runs (`_derive_outage_segments`).

    One call of `diagnose_once` stores a run and advances the ledger in the same transaction.
    The table's CHECK(ended IS NULL OR ended >= started) aborts a transaction that would store
    an inverted segment, and an aborted transaction changes nothing. */
module OutageLedger {
  import opened Options
  import opened OutageWindows
  import opened Severities

  datatype Run = Run(ts: int, severity: Severity)

  /** The columns of an incident that the batch form reads. */
  datatype Incident = Incident(
    started: int,
    resolved: Option<int>,
    recoveredAt: Option<int>,
    falseAlarm: bool,
    diagnosisCode: string,
    verdictCode: string)

  function Max(a: int, b: int): int {
    if a < b then b else a
  }

  // ----- the batch form -----

  datatype Scan = Scan(closed: seq<Segment>, open: Option<int>)

  function BatchStep(started: int, scan: Scan, index: nat, run: Run): Scan {
    var observedAt := Max(started, run.ts);
    if !run.severity.Ok? then
      if scan.open.None? then scan.(open := Some(if index == 0 then started else observedAt)) else scan
    else if scan.open.Some? then
      Scan(scan.closed + [Segment(scan.open.value, Some(Max(scan.open.value, observedAt)))], None)
    else scan
  }

  function BatchScan(started: int, runs: seq<Run>, n: nat): Scan
    requires n <= |runs|
  {
    if n == 0 then Scan([], None) else BatchStep(started, BatchScan(started, runs, n - 1), n - 1, runs[n - 1])
  }

  /** Python's `a or b` on nullable numbers: zero counts as absent. */
  function Or(a: Option<int>, b: Option<int>): Option<int> {
    if a.Some? && a.value != 0 then a else b
  }

  function LastEnd(incident: Incident, openStarted: int): Option<int> {
    match Or(incident.recoveredAt, incident.resolved)
    case Some(e) => Some(Max(openStarted, e))
    case None => None
  }

  /** An incident without any run still counts from its diagnosis, unless that is an all clear
      or a false alarm. */
  predicate CountsWithoutRuns(incident: Incident) {
    var code := if incident.diagnosisCode != "" then incident.diagnosisCode else incident.verdictCode;
    !incident.falseAlarm && code != "" && code != "all_clear"
  }

  function Derive(incident: Incident, runs: seq<Run>): seq<Segment> {
    var scan := BatchScan(incident.started, runs, |runs|);
    if scan.open.Some? then
      scan.closed + [Segment(scan.open.value, LastEnd(incident, scan.open.value))]
    else if runs == [] && CountsWithoutRuns(incident) then
      [Segment(incident.started, LastEnd(incident, incident.started))]
    else scan.closed
  }

  /** `_derive_outage_segments` as the loop it is. */
  method DeriveOutageSegments(incident: Incident, runs: seq<Run>) returns (segments: seq<Segment>)
    ensures segments == Derive(incident, runs)
  {
    segments := [];
    var openStarted := None;
    for index := 0 to |runs|
      invariant Scan(segments, openStarted) == BatchScan(incident.started, runs, index)
    {
      var observedAt := Max(incident.started, runs[index].ts);
      if !runs[index].severity.Ok? {
        if openStarted.None? {
          openStarted := Some(if index == 0 then incident.started else observedAt);
        }
      } else if openStarted.Some? {
        segments := segments + [Segment(openStarted.value, Some(Max(openStarted.value, observedAt)))];
        openStarted := None;
      }
    }
    if openStarted.Some? {
      var ended := Or(incident.recoveredAt, incident.resolved);
      segments := segments + [Segment(openStarted.value,
        if ended.Some? then Some(Max(openStarted.value, ended.value)) else None)];
    }
    if segments == [] && runs == [] {
      var code := if incident.diagnosisCode != "" then incident.diagnosisCode else incident.verdictCode;
      if !incident.falseAlarm && code != "" && code != "all_clear" {
        var ended := Or(incident.recoveredAt, incident.resolved);
        segments := [Segment(incident.started,
          if ended.Some? then Some(Max(incident.started, ended.value)) else None)];
      }
    }
  }

  // ----- the online form -----

  /** Stored rows of one incident. `watched` counts the runs that were stored while the incident
      was unresolved; it is no column, only a way to talk about the close. */
  datatype State = State(incident: Incident, segments: seq<Segment>, runs: seq<Run>, watched: nat)

  function HasOpen(segments: seq<Segment>): bool {
    exists i :: 0 <= i < |segments| && segments[i].ended.None?
  }

  /** UPDATE ... SET ended=? WHERE ended IS NULL. */
  function CloseOpen(segments: seq<Segment>, at: int): seq<Segment> {
    seq(|segments|, i requires 0 <= i < |segments| =>
      if segments[i].ended.None? then segments[i].(ended := Some(at)) else segments[i])
  }

  /** The CHECK of the segment table on that update. */
  predicate CloseAllowed(segments: seq<Segment>, at: int) {
    forall i :: 0 <= i < |segments| && segments[i].ended.None? ==> segments[i].started <= at
  }

  function Coalesce(a: Option<int>, b: int): Option<int> {
    if a.Some? then a else Some(b)
  }

  function Observe(s: State, ts: int, severity: Severity): State {
    var runs := s.runs + [Run(ts, severity)];
    if s.incident.resolved.Some? then s.(runs := runs)
    else if severity.Ok? then
      if !CloseAllowed(s.segments, ts) then s
      else State(s.incident.(recoveredAt := Coalesce(s.incident.recoveredAt, ts)),
                 CloseOpen(s.segments, ts), runs, s.watched + 1)
    else
      var start := if s.segments == [] && |runs| == 1 then s.incident.started else ts;
      State(s.incident.(recoveredAt := None),
            if HasOpen(s.segments) then s.segments else s.segments + [Segment(start, None)],
            runs, s.watched + 1)
  }

  /** Who closes: the dashboard, a false-alarm mark, or the recheck loop when it ends. */
  datatype Closer =
    | Dashboard
    | FalseAlarm
    | LoopEnd(confirmed: bool, code: string)

  function Mark(incident: Incident, closer: Closer): Incident {
    if closer.FalseAlarm? then incident.(falseAlarm := true, verdictCode := "all_clear") else incident
  }

  function Resolve(incident: Incident, at: int, closer: Closer): Incident {
    if incident.resolved.Some? then incident
    else match closer
      case LoopEnd(confirmed, code) =>
        incident.(resolved := Some(at), verdictCode := code, diagnosisCode := code,
                  recoveredAt := if confirmed then Coalesce(incident.recoveredAt, at) else incident.recoveredAt)
      case _ => incident.(resolved := Some(at))
  }

  /** One closing transaction: end the open segment, then write `resolved` if it is still null. */
  function Close(s: State, at: int, closer: Closer): State {
    if !CloseAllowed(s.segments, at) then s
    else s.(segments := CloseOpen(s.segments, at), incident := Resolve(Mark(s.incident, closer), at, closer))
  }

  /** The stored rows as objects that the transactions update. */
  class Ledger {
    var incident: Incident
    var segments: seq<Segment>
    var runs: seq<Run>
    ghost var watched: nat

    ghost function Rows(): State
      reads this
    {
      State(incident, segments, runs, watched)
    }

    constructor (started: int)
      ensures Rows() == Fresh(started)
    {
      incident := Incident(started, None, None, false, "", "");
      segments, runs, watched := [], [], 0;
    }

    /** `_close_open_outage_segment`. False when the CHECK aborts the update. */
    method CloseOpenOutageSegment(endedAt: int) returns (ok: bool)
      modifies this`segments
      ensures ok == CloseAllowed(old(segments), endedAt)
      ensures segments == if ok then CloseOpen(old(segments), endedAt) else old(segments)
    {
      var rows := segments;
      for i := 0 to |rows|
        invariant |rows| == |segments|
        invariant forall k :: 0 <= k < i ==> (segments[k].ended.None? ==> segments[k].started <= endedAt)
        invariant forall k :: 0 <= k < i ==> rows[k] == CloseOpen(segments, endedAt)[k]
        invariant forall k :: i <= k < |rows| ==> rows[k] == segments[k]
        invariant segments == old(segments)
      {
        if rows[i].ended.None? {
          if endedAt < rows[i].started {
            return false;
          }
          rows := rows[i := rows[i].(ended := Some(endedAt))];
        }
      }
      assert rows == CloseOpen(segments, endedAt);
      segments := rows;
      return true;
    }

    /** The transaction of `diagnose_once`: store the run, then `_record_incident_observation`. */
    method RecordObservation(ts: int, severity: Severity)
      modifies this
      ensures Rows() == Observe(old(Rows()), ts, severity)
    {
      var before := runs;
      runs := runs + [Run(ts, severity)];
      if incident.resolved.Some? {
        return;
      }
      if severity.Ok? {
        var ok := CloseOpenOutageSegment(ts);
        if !ok {
          runs := before;
          return;
        }
        incident := incident.(recoveredAt := Coalesce(incident.recoveredAt, ts));
        watched := watched + 1;
        return;
      }
      var open := false;
      for i := 0 to |segments|
        invariant open <==> exists k :: 0 <= k < i && segments[k].ended.None?
      {
        if segments[i].ended.None? {
          open := true;
        }
      }
      if !open {
        var segmentStarted := if |segments| == 0 && |runs| == 1 then incident.started else ts;
        segments := segments + [Segment(segmentStarted, None)];
      }
      incident := incident.(recoveredAt := None);
      watched := watched + 1;
    }

    /** The closing transaction of `close_open_incident`, `mark_false_alarm` and `_loop`.
        `won` is the row count of the guarded UPDATE. */
    method CloseIncident(at: int, closer: Closer) returns (won: bool)
      modifies this
      ensures Rows() == Close(old(Rows()), at, closer)
      ensures won == (old(incident.resolved).None? && incident.resolved.Some?)
    {
      var before := incident;
      incident := Mark(incident, closer);
      var ok := CloseOpenOutageSegment(at);
      if !ok {
        incident := before;
        return false;
      }
      won := incident.resolved.None?;
      incident := Resolve(incident, at, closer);
    }
  }

  // ----- runs of the ledger -----

  datatype Event =
    | Observed(ts: int, severity: Severity)
    | Closed(at: int, closer: Closer)

  function Fresh(started: int): State {
    State(Incident(started, None, None, false, "", ""), [], [], 0)
  }

  function Step(s: State, e: Event): State {
    match e
    case Observed(ts, severity) => Observe(s, ts, severity)
    case Closed(at, closer) => Close(s, at, closer)
  }

  function After(started: int, events: seq<Event>): State {
    if events == [] then Fresh(started) else Step(After(started, events[..|events| - 1]), events[|events| - 1])
  }

  ghost predicate Reachable(s: State) {
    exists started, events :: s == After(started, events)
  }
}
