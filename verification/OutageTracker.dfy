/** The outage tracker (linkmoth_outage.py) and the suppressed alerts it summarises (linkmoth_kuma_proxy.py). */
module OutageTracker {
  import opened Options
  import opened Severities

  const RECOVERY_CLEAR_RUNS := 2
  const MAX_SUPPRESSED_ALERTS := 500
  const GLOBAL_OUTAGE_CODES: set<string> := {"pi_link", "router_down", "wan_down"}

  datatype Verdict = Verdict(code: string, severity: Severity)

  datatype Check = Check(id: string, ok: Option<bool>)

  /** The last check with this id, as a dictionary built from the list would have it. */
  function Lookup(checks: seq<Check>, id: string): Option<bool> {
    if checks == [] then None
    else if checks[|checks| - 1].id == id then checks[|checks| - 1].ok
    else Lookup(checks[..|checks| - 1], id)
  }

  /** `is_effective_global_outage`. */
  predicate EffectiveGlobal(v: Verdict, checks: seq<Check>) {
    if v.severity.Ok? || v.code == "all_clear" then false
    else if v.code in GLOBAL_OUTAGE_CODES then true
    else
      && Lookup(checks, "gateway") != Some(false)
      && Lookup(checks, "upstream_dns") == Some(false)
      && Lookup(checks, "raw_ping") == Some(false)
      && Lookup(checks, "https") != Some(true)
  }

  /** The last check of that name says `ok`. */
  ghost predicate LastSays(checks: seq<Check>, id: string, ok: bool) {
    exists k :: 0 <= k < |checks| && checks[k] == Check(id, Some(ok))
      && forall j :: k < j < |checks| ==> checks[j].id != id
  }

  lemma {:induction false} LookupTells(checks: seq<Check>, id: string, ok: bool)
    ensures Lookup(checks, id) == Some(ok) <==> LastSays(checks, id, ok)
  {
    if checks != [] {
      var n := |checks| - 1;
      LookupTells(checks[..n], id, ok);
      if checks[n].id == id {
        if Lookup(checks, id) == Some(ok) {
          assert checks[n] == Check(id, Some(ok));
        }
      } else {
        if LastSays(checks[..n], id, ok) {
          var k :| 0 <= k < n && checks[..n][k] == Check(id, Some(ok))
            && forall j :: k < j < n ==> checks[..n][j].id != id;
          assert checks[k] == Check(id, Some(ok)) && forall j :: k < j < n ==> checks[j].id == checks[..n][j].id;
        }
        if LastSays(checks, id, ok) {
          var k :| 0 <= k < |checks| && checks[k] == Check(id, Some(ok))
            && forall j :: k < j < |checks| ==> checks[j].id != id;
          assert checks[..n][k] == Check(id, Some(ok)) && forall j :: k < j < n ==> checks[..n][j].id == checks[j].id;
        }
      }
    }
  }

  /** What makes a global outage: a verdict that is neither healthy nor an all clear, and either one of the three codes,
      or failing name resolution and ping beyond the router while neither the gateway fails nor HTTPS works. */
  lemma EffectiveGlobalTells(v: Verdict, checks: seq<Check>)
    ensures EffectiveGlobal(v, checks) <==>
      && v.severity != Ok && v.code != "all_clear"
      && (|| v.code == "pi_link" || v.code == "router_down" || v.code == "wan_down"
          || (&& !LastSays(checks, "gateway", false)
              && LastSays(checks, "upstream_dns", false) && LastSays(checks, "raw_ping", false)
              && !LastSays(checks, "https", true)))
  {
    LookupTells(checks, "gateway", false);
    LookupTells(checks, "upstream_dns", false);
    LookupTells(checks, "raw_ping", false);
    LookupTells(checks, "https", true);
    hide Lookup, LastSays;
  }

  /** A suppressed alert. SQLite hands out the largest stored id plus one, so an id can come back once its alert has
      been cleared; `serial` tells the alerts apart. */
  datatype Alert = Alert(id: nat, detail: string, serial: nat)

  /** The active row of network_outage. */
  datatype Episode = Episode(onset: int, code: string, checks: seq<Check>)

  /** One call of the recovery callback. */
  datatype Report = Report(onset: int, code: string, checks: seq<Check>, at: int, digest: set<nat>)

  datatype State = State(
    active: Option<Episode>,
    clears: nat,
    alerts: seq<Alert>,
    arrivals: nat,
    reports: seq<Report>)

  datatype Event =
    | Observed(verdict: Option<Verdict>, checks: seq<Check>, now: int, callback: Callback)
    | Suppressed(detail: string)
    | ClearedElsewhere(ids: set<nat>)
    | Restarted

  /** What can happen to the alerts meanwhile: one comes in, or another recovery path, which does not take the tracker's
      lock, clears the ids it has read. */
  datatype Meanwhile = Came(detail: string) | Cleared(ids: set<nat>)

  /** What happens while the recovery callback runs, and whether it raises. */
  datatype Callback = Callback(meanwhile: seq<Meanwhile>, raises: bool)

  function Start(): State {
    State(None, 0, [], 0, [])
  }

  // ----- suppressed alerts -----

  function Newest(alerts: seq<Alert>): seq<Alert> {
    if |alerts| <= MAX_SUPPRESSED_ALERTS then alerts else alerts[|alerts| - MAX_SUPPRESSED_ALERTS..]
  }

  /** The id of the next alert; ids grow along the table. */
  function NextId(alerts: seq<Alert>): nat {
    if alerts == [] then 1 else alerts[|alerts| - 1].id + 1
  }

  /** `record_suppressed`. */
  function Suppress(s: State, detail: string): State {
    s.(alerts := Newest(s.alerts + [Alert(NextId(s.alerts), detail, s.arrivals)]), arrivals := s.arrivals + 1)
  }

  function Ids(alerts: seq<Alert>): set<nat> {
    set a | a in alerts :: a.id
  }

  /** `clear_suppressed_alerts` with ids. */
  function Clear(alerts: seq<Alert>, ids: set<nat>): (r: seq<Alert>)
    ensures forall a :: a in r <==> a in alerts && a.id !in ids
  {
    if alerts == [] then []
    else if alerts[0].id in ids then Clear(alerts[1..], ids)
    else [alerts[0]] + Clear(alerts[1..], ids)
  }

  function Happen(s: State, m: Meanwhile): State {
    match m
    case Came(detail) => Suppress(s, detail)
    case Cleared(ids) => s.(alerts := Clear(s.alerts, ids))
  }

  function HappenAll(s: State, ms: seq<Meanwhile>): State {
    if ms == [] then s else Happen(HappenAll(s, ms[..|ms| - 1]), ms[|ms| - 1])
  }

  // ----- observing -----

  predicate IsGlobal(e: Event) {
    e.Observed? && e.verdict.Some? && EffectiveGlobal(e.verdict.value, e.checks)
  }

  predicate IsClear(e: Event) {
    e.Observed? && e.verdict.Some? && !EffectiveGlobal(e.verdict.value, e.checks)
  }

  /** `_recover`: read the digest, close the episode, call back, and only then clear what was read. */
  function Recover(s: State, now: int, callback: Callback): State
    requires s.active.Some?
  {
    var e := s.active.value;
    var digest := Ids(s.alerts);
    var told := HappenAll(s.(active := None, reports := s.reports + [Report(e.onset, e.code, e.checks, now, digest)]),
                          callback.meanwhile);
    if callback.raises then told else told.(alerts := Clear(told.alerts, digest), clears := 0)
  }

  function Step(s: State, e: Event): State {
    match e
    case Restarted => s.(clears := 0)
    case Suppressed(detail) => Suppress(s, detail)
    case ClearedElsewhere(ids) => s.(alerts := Clear(s.alerts, ids))
    case Observed(verdict, checks, now, callback) =>
      if verdict.None? then s
      else if EffectiveGlobal(verdict.value, checks) then
        if s.active.None? then
          Suppress(s.(active := Some(Episode(now, verdict.value.code, checks)), clears := 0), verdict.value.code)
        else s.(active := Some(Episode(s.active.value.onset, verdict.value.code, checks)), clears := 0)
      else if s.active.Some? then
        var t := s.(clears := s.clears + 1);
        if t.clears >= RECOVERY_CLEAR_RUNS then Recover(t, now, callback) else t
      else s.(clears := 0)
  }

  /** The tracker as the object it is; `reports` remembers the calls of the recovery callback. */
  class Tracker {
    var active: Option<Episode>
    var clears: nat
    var alerts: seq<Alert>
    var arrivals: nat
    var reports: seq<Report>

    function Now(): State
      reads this
    {
      State(active, clears, alerts, arrivals, reports)
    }

    constructor ()
      ensures Now() == Start()
    {
      active, clears, alerts, arrivals, reports := None, 0, [], 0, [];
    }

    method RecordSuppressed(detail: string)
      modifies this`alerts, this`arrivals
      ensures Now() == Suppress(old(Now()), detail)
    {
      alerts := alerts + [Alert(NextId(alerts), detail, arrivals)];
      arrivals := arrivals + 1;
      if |alerts| > MAX_SUPPRESSED_ALERTS {
        alerts := alerts[|alerts| - MAX_SUPPRESSED_ALERTS..];
      }
    }

    /** The world while the callback runs. */
    method CallBack(report: Report, callback: Callback)
      modifies this`alerts, this`arrivals, this`reports
      ensures Now() == HappenAll(old(Now()).(reports := old(reports) + [report]), callback.meanwhile)
    {
      reports := reports + [report];
      ghost var told := Now();
      for i := 0 to |callback.meanwhile|
        invariant Now() == HappenAll(told, callback.meanwhile[..i])
      {
        assert callback.meanwhile[..i + 1][..i] == callback.meanwhile[..i];
        match callback.meanwhile[i]
        case Came(detail) => RecordSuppressed(detail);
        case Cleared(ids) => alerts := Clear(alerts, ids);
      }
      assert callback.meanwhile[..|callback.meanwhile|] == callback.meanwhile;
    }

    /** `observe`; a raising callback leaves the rest of the call undone. */
    method Observe(verdict: Option<Verdict>, checks: seq<Check>, now: int, callback: Callback)
      modifies this
      ensures Now() == Step(old(Now()), Observed(verdict, checks, now, callback))
    {
      if verdict.None? {
        return;
      }
      var v := verdict.value;
      if EffectiveGlobal(v, checks) {
        clears := 0;
        if active.None? {
          active := Some(Episode(now, v.code, checks));
          RecordSuppressed(v.code);
        } else {
          active := Some(Episode(active.value.onset, v.code, checks));
        }
        return;
      }
      if active.None? {
        clears := 0;
        return;
      }
      clears := clears + 1;
      if clears < RECOVERY_CLEAR_RUNS {
        return;
      }
      var prior, digest := active.value, Ids(alerts);
      active := None;
      CallBack(Report(prior.onset, prior.code, prior.checks, now, digest), callback);
      if callback.raises {
        return;
      }
      alerts := Clear(alerts, digest);
      clears := 0;
    }
  }

  // ----- episodes as the history tells them -----

  function After(h: seq<Event>): State {
    if h == [] then Start() else Step(After(h[..|h| - 1]), h[|h| - 1])
  }

  /** Neither a verdict nor a restart. */
  predicate Neutral(e: Event) {
    !IsGlobal(e) && !IsClear(e) && !e.Restarted?
  }

  /** The last event before `n` that matters to an episode. */
  function LastRelevant(h: seq<Event>, n: nat): (r: Option<nat>)
    requires n <= |h|
    ensures r.Some? ==> r.value < n && !Neutral(h[r.value]) && forall j :: r.value < j < n ==> Neutral(h[j])
    ensures r.None? ==> forall j :: 0 <= j < n ==> Neutral(h[j])
  {
    if n == 0 then None else if !Neutral(h[n - 1]) then Some(n - 1) else LastRelevant(h, n - 1)
  }

  /** An outage is on after `n` events: a global verdict came and no end since. */
  predicate OutageOn(h: seq<Event>, n: nat)
    requires n <= |h|
    decreases n, 1
  {
    n > 0 && (IsGlobal(h[n - 1]) || (OutageOn(h, n - 1) && !EndsAt(h, n - 1)))
  }

  /** Event `k` ends the outage: a clear verdict right after another clear one, with nothing but neutral events
      between them, so neither a global verdict nor a restart. */
  predicate EndsAt(h: seq<Event>, k: nat)
    requires k < |h|
    decreases k, 2
  {
    && IsClear(h[k]) && OutageOn(h, k)
    && var r := LastRelevant(h, k); r.Some? && IsClear(h[r.value])
  }

  lemma {:induction false} PrefixTells(h: seq<Event>, m: nat, n: nat)
    requires n <= m <= |h|
    ensures LastRelevant(h[..m], n) == LastRelevant(h, n)
    ensures OutageOn(h[..m], n) == OutageOn(h, n)
    ensures n < m ==> EndsAt(h[..m], n) == EndsAt(h, n)
  {
    if n > 0 {
      PrefixTells(h, m, n - 1);
    }
  }

  lemma {:induction false} MeanwhileKeepsEpisodes(s: State, ms: seq<Meanwhile>)
    ensures var t := HappenAll(s, ms); t.active == s.active && t.clears == s.clears && t.reports == s.reports
    ensures s.arrivals <= HappenAll(s, ms).arrivals
  {
    if ms != [] {
      MeanwhileKeepsEpisodes(s, ms[..|ms| - 1]);
    }
  }

  /** The tracker's flag and counter against the history: active exactly while an outage is on, and then the
      counter says whether the last relevant verdict was clear. */
  lemma {:induction false} TrackerFollowsHistory(h: seq<Event>)
    ensures After(h).active.Some? <==> OutageOn(h, |h|)
    ensures OutageOn(h, |h|) ==>
      After(h).clears == (var r := LastRelevant(h, |h|); if r.Some? && IsClear(h[r.value]) then 1 else 0)
  {
    if h != [] {
      var n := |h| - 1;
      var front, e := h[..n], h[n];
      TrackerFollowsHistory(front);
      PrefixTells(h, n, n);
      if IsClear(e) && After(front).active.Some? {
        MeanwhileKeepsEpisodes(
          After(front).(clears := After(front).clears + 1, active := None, reports := After(front).reports +
            [Report(After(front).active.value.onset, After(front).active.value.code, After(front).active.value.checks,
                    e.now, Ids(After(front).alerts))]),
          e.callback.meanwhile);
      }
    }
  }

  /** The last global verdict before `n`. */
  function LatestGlobal(h: seq<Event>, n: nat): (r: nat)
    requires n <= |h| && OutageOn(h, n)
    ensures r < n && IsGlobal(h[r]) && forall j :: r < j < n ==> !IsGlobal(h[j])
  {
    if IsGlobal(h[n - 1]) then n - 1 else LatestGlobal(h, n - 1)
  }

  /** The global verdict that started the outage that is on. */
  function OnsetOf(h: seq<Event>, n: nat): (r: nat)
    requires n <= |h| && OutageOn(h, n)
    ensures r < n && IsGlobal(h[r])
    ensures forall j :: r < j <= n ==> OutageOn(h, j)
    ensures forall j :: r < j < n ==> !EndsAt(h, j)
    ensures r == 0 || !OutageOn(h, r) || EndsAt(h, r - 1)
  {
    if OutageOn(h, n - 1) && !EndsAt(h, n - 1) then OnsetOf(h, n - 1) else n - 1
  }

  lemma {:induction false} PrefixOutage(h: seq<Event>, m: nat, n: nat)
    requires n <= m <= |h| && OutageOn(h, n)
    ensures OutageOn(h[..m], n)
    ensures LatestGlobal(h[..m], n) == LatestGlobal(h, n) && OnsetOf(h[..m], n) == OnsetOf(h, n)
  {
    PrefixTells(h, m, n);
    PrefixTells(h, m, n - 1);
    assert h[..m][n - 1] == h[n - 1];
    assert !IsGlobal(h[n - 1]) ==> OutageOn(h, n - 1) && OutageOn(h[..m], n - 1);
    hide OutageOn, EndsAt, IsGlobal, LastRelevant;
    if !IsGlobal(h[n - 1]) || (OutageOn(h, n - 1) && !EndsAt(h, n - 1)) {
      PrefixOutage(h, m, n - 1);
    }
  }

  lemma RecoverTells(s: State, now: int, callback: Callback)
    requires s.active.Some?
    ensures var t, e := Recover(s, now, callback), s.active.value;
      t.active.None? && t.reports == s.reports + [Report(e.onset, e.code, e.checks, now, Ids(s.alerts))]
  {
    var e := s.active.value;
    MeanwhileKeepsEpisodes(
      s.(active := None, reports := s.reports + [Report(e.onset, e.code, e.checks, now, Ids(s.alerts))]),
      callback.meanwhile);
  }

  /** The active row keeps the onset of the outage and its latest broken ladder. */
  lemma {:induction false} RowTellsTheOutage(h: seq<Event>)
    requires OutageOn(h, |h|)
    ensures var g := h[LatestGlobal(h, |h|)];
      After(h).active == Some(Episode(h[OnsetOf(h, |h|)].now, g.verdict.value.code, g.checks))
  {
    hide HappenAll, Clear, Lookup;
    var n := |h| - 1;
    var front := h[..n];
    TrackerFollowsHistory(front);
    PrefixTells(h, n, n);
    TrackerFollowsHistory(h);
    if OutageOn(h, n) && !EndsAt(h, n) {
      RowTellsTheOutage(front);
      PrefixOutage(h, n, n);
    }
  }

  /** The recovery callback runs exactly once per ended outage, at its end, with the onset time, the latest
      broken ladder and the ids of all alerts suppressed so far. */
  lemma OneReportPerOutage(h: seq<Event>, k: nat)
    requires k < |h|
    ensures EndsAt(h, k) ==>
      var g := h[LatestGlobal(h, k)];
      After(h[..k + 1]).reports == After(h[..k]).reports +
        [Report(h[OnsetOf(h, k)].now, g.verdict.value.code, g.checks, h[k].now, Ids(After(h[..k]).alerts))]
    ensures !EndsAt(h, k) ==> After(h[..k + 1]).reports == After(h[..k]).reports
  {
    hide HappenAll, Clear, Lookup, LastRelevant;
    var front, e := h[..k], h[k];
    assert h[..k + 1][..k] == front;
    TrackerFollowsHistory(front);
    PrefixTells(h, k, k);
    if EndsAt(h, k) {
      RowTellsTheOutage(front);
      PrefixOutage(h, k, k);
      RecoverTells(After(front).(clears := 2), e.now, e.callback);
    }
  }

  // ----- restarts -----

  function WithoutRestarts(h: seq<Event>): seq<Event> {
    if h == [] then []
    else
      var n := |h| - 1;
      if h[n].Restarted? then WithoutRestarts(h[..n]) else WithoutRestarts(h[..n]) + [h[n]]
  }

  /** `shaken` is at most as close to the end of the outage as `steady`. */
  ghost predicate NotAhead(steady: State, shaken: State) {
    steady.active.Some? ==> shaken.active.Some? && shaken.clears <= steady.clears < RECOVERY_CLEAR_RUNS
  }

  lemma DelayStep(steady: State, shaken: State, e: Event)
    requires NotAhead(steady, shaken) && !e.Restarted?
    ensures NotAhead(Step(steady, e), Step(shaken, e))
  {
    hide EffectiveGlobal, HappenAll, Suppress, Clear, Recover;
    SuppressKeepsEpisode(steady, e);
    SuppressKeepsEpisode(shaken, e);
    if IsClear(e) && steady.active.Some? && steady.clears + 1 >= RECOVERY_CLEAR_RUNS {
      RecoverTells(steady.(clears := steady.clears + 1), e.now, e.callback);
    }
  }

  /** Recording an alert, on its own or at the onset, leaves the episode alone. */
  lemma SuppressKeepsEpisode(s: State, e: Event)
    ensures e.Suppressed? || e.ClearedElsewhere? ==> Step(s, e).active == s.active && Step(s, e).clears == s.clears
    ensures IsGlobal(e) ==> Step(s, e).active.Some? && Step(s, e).clears == 0
    ensures IsClear(e) && s.active.None? ==> Step(s, e).active.None?
  {
  }

  /** Forgetting the counter in a restart can only delay the end of an outage: whenever the tracker that never
      restarted is still in an outage, so is the one that did. */
  lemma {:induction false} RestartsOnlyDelay(h: seq<Event>)
    ensures After(WithoutRestarts(h)).active.Some? ==>
      && After(h).active.Some?
      && After(h).clears <= After(WithoutRestarts(h)).clears < RECOVERY_CLEAR_RUNS
  {
    if h != [] {
      var n := |h| - 1;
      RestartsOnlyDelay(h[..n]);
      if !h[n].Restarted? {
        assert WithoutRestarts(h)[..|WithoutRestarts(h)| - 1] == WithoutRestarts(h[..n]);
        DelayStep(After(WithoutRestarts(h[..n])), After(h[..n]), h[n]);
        hide Step;
      }
    }
  }

  // ----- the digest -----

  predicate Earlier(a: Alert, b: Alert) {
    a.id < b.id && a.serial < b.serial
  }

  ghost predicate Growing(alerts: seq<Alert>) {
    forall i, j :: 0 <= i < j < |alerts| ==> Earlier(alerts[i], alerts[j])
  }

  /** The table keeps to its cap, and ids and serials grow along it. */
  ghost predicate AlertsOk(s: State) {
    && |s.alerts| <= MAX_SUPPRESSED_ALERTS && Growing(s.alerts)
    && forall a :: a in s.alerts ==> a.serial < s.arrivals
  }

  lemma GrowingCons(a: Alert, rest: seq<Alert>)
    ensures Growing([a] + rest) <==> Growing(rest) && forall b :: b in rest ==> Earlier(a, b)
  {
    var all := [a] + rest;
    assert forall j :: 0 <= j < |rest| ==> all[j + 1] == rest[j];
    if Growing(all) {
      forall i, j | 0 <= i < j < |rest| ensures Earlier(rest[i], rest[j]) {
        assert Earlier(all[i + 1], all[j + 1]);
      }
      forall b | b in rest ensures Earlier(a, b) {
        var k :| 0 <= k < |rest| && rest[k] == b;
        assert Earlier(all[0], all[k + 1]);
      }
    }
  }

  lemma {:induction false} ClearKeepsGrowing(alerts: seq<Alert>, ids: set<nat>)
    requires Growing(alerts)
    ensures Growing(Clear(alerts, ids)) && |Clear(alerts, ids)| <= |alerts|
  {
    if alerts != [] {
      hide Growing, Earlier;
      assert alerts == [alerts[0]] + alerts[1..];
      GrowingCons(alerts[0], alerts[1..]);
      ClearKeepsGrowing(alerts[1..], ids);
      GrowingCons(alerts[0], Clear(alerts[1..], ids));
    }
  }

  lemma ClearingKeepsOk(s: State, ids: set<nat>)
    requires AlertsOk(s)
    ensures AlertsOk(s.(alerts := Clear(s.alerts, ids)))
  {
    ClearKeepsGrowing(s.alerts, ids);
    hide Growing;
  }

  lemma SuppressKeepsOk(s: State, detail: string)
    requires AlertsOk(s)
    ensures AlertsOk(Suppress(s, detail))
  {
  }

  lemma {:induction false} MeanwhileKeepsOk(s: State, ms: seq<Meanwhile>)
    requires AlertsOk(s)
    ensures AlertsOk(HappenAll(s, ms))
    ensures forall a :: a in HappenAll(s, ms).alerts && a.serial < s.arrivals ==> a in s.alerts
  {
    if ms != [] {
      var n := |ms| - 1;
      MeanwhileKeepsOk(s, ms[..n]);
      MeanwhileKeepsEpisodes(s, ms[..n]);
      hide AlertsOk;
      match ms[n]
      case Came(detail) => SuppressKeepsOk(HappenAll(s, ms[..n]), detail);
      case Cleared(ids) => ClearingKeepsOk(HappenAll(s, ms[..n]), ids);
    }
  }

  /** The state in which the callback is called. */
  function Called(s: State, now: int): State
    requires s.active.Some?
  {
    var e := s.active.value;
    s.(active := None, reports := s.reports + [Report(e.onset, e.code, e.checks, now, Ids(s.alerts))])
  }

  lemma {:induction false} AlertsAlwaysOk(h: seq<Event>)
    ensures AlertsOk(After(h))
  {
    if h != [] {
      var n := |h| - 1;
      AlertsAlwaysOk(h[..n]);
      var s := After(h[..n]);
      StepKeepsOk(s, h[n]);
      hide AlertsOk, Step;
    }
  }

  lemma StepKeepsOk(s: State, e: Event)
    requires AlertsOk(s)
    ensures AlertsOk(Step(s, e))
  {
    hide Suppress, Clear, EffectiveGlobal;
    if IsClear(e) && s.active.Some? {
      var t := s.(clears := s.clears + 1);
      MeanwhileKeepsOk(Called(t, e.now), e.callback.meanwhile);
      ClearingKeepsOk(HappenAll(Called(t, e.now), e.callback.meanwhile), Ids(s.alerts));
    } else if e.ClearedElsewhere? {
      ClearingKeepsOk(s, e.ids);
    } else if e.Suppressed? {
      SuppressKeepsOk(s, e.detail);
    } else if IsGlobal(e) && s.active.None? {
      SuppressKeepsOk(s.(active := Some(Episode(e.now, e.verdict.value.code, e.checks)), clears := 0),
                      e.verdict.value.code);
    }
  }

  /** Came in after the recovery had read the digest. */
  /** In every reachable state at most 500 alerts are kept. One more joins at the end, numbered after the last one, and
      pushes out the oldest exactly if there are 500 already. */
  lemma SuppressionTells(h: seq<Event>, detail: string)
    ensures var before, after := After(h).alerts, After(h + [Suppressed(detail)]).alerts;
      && |before| <= 500 && after != []
      && after[|after| - 1].id == (if before == [] then 1 else before[|before| - 1].id + 1)
      && after[|after| - 1].detail == detail
      && after[..|after| - 1] == if |before| == 500 then before[1..] else before
  {
    AlertsAlwaysOk(h);
    assert (h + [Suppressed(detail)])[..|h|] == h;
  }

  /** The onset of an outage is kept as an alert like any other; an observation that neither begins nor ends one leaves
      the alerts alone. */
  lemma OnsetTells(h: seq<Event>, e: Event)
    requires e.Observed?
    ensures IsGlobal(e) && After(h).active.None? ==>
      After(h + [e]).alerts == After(h + [Suppressed(e.verdict.value.code)]).alerts
    ensures After(h + [e]).active.Some? == After(h).active.Some? ==> After(h + [e]).alerts == After(h).alerts
  {
    assert forall x: Event :: (h + [x])[..|h|] == h && (h + [x])[|h|] == x;
    hide EffectiveGlobal;
    if IsClear(e) && After(h).active.Some? && After(h).clears + 1 >= RECOVERY_CLEAR_RUNS {
      RecoverTells(After(h).(clears := After(h).clears + 1), e.now, e.callback);
    }
  }

  predicate Newer(a: Alert, s: State) {
    a.serial >= s.arrivals
  }

  /** The callback's outcome decides what is cleared. If it raises, nothing is. If it returns, every alert read
      beforehand is gone; one that came in meanwhile, and is still stored, is deleted with them exactly when it was
      given an id that had been read, and otherwise waits for the next recovery. */
  lemma RecoveryClearsWhatItRead(h: seq<Event>, now: int, callback: Callback)
    requires After(h).active.Some?
    ensures var s, told := After(h), HappenAll(Called(After(h), now), callback.meanwhile);
      && (callback.raises ==> Recover(s, now, callback).alerts == told.alerts)
      && (!callback.raises ==> forall a :: a in Recover(s, now, callback).alerts ==> Newer(a, s))
      && (!callback.raises ==> forall a :: a in told.alerts && Newer(a, s) ==>
            (a !in Recover(s, now, callback).alerts <==> a.id in Ids(s.alerts)))
  {
    AlertsAlwaysOk(h);
    var s := After(h);
    MeanwhileKeepsOk(Called(s, now), callback.meanwhile);
    hide After, HappenAll;
  }

  /** Nothing but alerts coming in. */
  predicate AllCame(ms: seq<Meanwhile>) {
    forall i :: 0 <= i < |ms| ==> ms[i].Came?
  }

  /** The alerts that come in, numbered from `id`. */
  function Numbered(id: nat, serial: nat, ms: seq<Meanwhile>): seq<Alert>
    requires AllCame(ms)
  {
    seq(|ms|, i requires 0 <= i < |ms| => Alert(id + i, ms[i].detail, serial + i))
  }

  lemma NewestTwice(alerts: seq<Alert>, a: Alert)
    ensures Newest(Newest(alerts) + [a]) == Newest(alerts + [a])
  {
  }

  lemma NumberedSnoc(id: nat, serial: nat, ms: seq<Meanwhile>)
    requires ms != [] && AllCame(ms)
    ensures var n := |ms| - 1;
      && ms[n].Came? && AllCame(ms[..n])
      && Numbered(id, serial, ms) == Numbered(id, serial, ms[..n]) + [Alert(id + n, ms[n].detail, serial + n)]
  {
  }

  lemma ComesLast(t: State, before: seq<Alert>, detail: string)
    requires t.alerts == Newest(before)
    ensures var last := Alert(NextId(t.alerts), detail, t.arrivals);
      && Suppress(t, detail).alerts == Newest(before + [last])
      && NextId(Suppress(t, detail).alerts) == NextId(t.alerts) + 1
      && Suppress(t, detail).arrivals == t.arrivals + 1
  {
    NewestTwice(before, Alert(NextId(t.alerts), detail, t.arrivals));
  }

  /** One more alert behind `b`, all of them behind `a`. */
  lemma ComesBehind(t: State, a: seq<Alert>, b: seq<Alert>, detail: string)
    requires t.alerts == Newest(a + b)
    ensures Suppress(t, detail).alerts == Newest(a + (b + [Alert(NextId(t.alerts), detail, t.arrivals)]))
    ensures NextId(Suppress(t, detail).alerts) == NextId(t.alerts) + 1 && Suppress(t, detail).arrivals == t.arrivals + 1
  {
    hide Suppress, NextId, Newest;
    var last := Alert(NextId(t.alerts), detail, t.arrivals);
    assert a + (b + [last]) == (a + b) + [last];
    ComesLast(t, a + b, detail);
  }

  /** What the table holds after the alerts in `ms` have come in. */
  ghost predicate HoldsNewest(s: State, t: State, ms: seq<Meanwhile>)
    requires AllCame(ms)
  {
    && t.alerts == Newest(s.alerts + Numbered(NextId(s.alerts), s.arrivals, ms))
    && t.arrivals == s.arrivals + |ms|
    && NextId(t.alerts) == NextId(s.alerts) + |ms|
  }

  lemma OneMoreComes(s: State, t: State, ms: seq<Meanwhile>)
    requires ms != [] && AllCame(ms) && AllCame(ms[..|ms| - 1]) && HoldsNewest(s, t, ms[..|ms| - 1])
    ensures HoldsNewest(s, Suppress(t, ms[|ms| - 1].detail), ms)
  {
    hide Numbered, NextId, Newest, Suppress;
    var n := |ms| - 1;
    NumberedSnoc(NextId(s.alerts), s.arrivals, ms);
    ComesBehind(t, s.alerts, Numbered(NextId(s.alerts), s.arrivals, ms[..n]), ms[n].detail);
  }

  lemma {:induction false} CameTogether(s: State, ms: seq<Meanwhile>)
    requires |s.alerts| <= MAX_SUPPRESSED_ALERTS && AllCame(ms)
    ensures HoldsNewest(s, HappenAll(s, ms), ms)
  {
    if ms == [] {
      assert s.alerts + Numbered(NextId(s.alerts), s.arrivals, ms) == s.alerts;
    } else {
      assert AllCame(ms[..|ms| - 1]);
      hide HoldsNewest;
      CameTogether(s, ms[..|ms| - 1]);
      OneMoreComes(s, HappenAll(s, ms[..|ms| - 1]), ms);
    }
  }

  lemma {:induction false} ClearSplits(a: seq<Alert>, b: seq<Alert>, ids: set<nat>)
    requires forall x :: x in a ==> x.id in ids
    requires forall x :: x in b ==> x.id !in ids
    ensures Clear(a + b, ids) == b
  {
    if a != [] {
      assert (a + b)[1..] == a[1..] + b;
      assert a[0] in a;
      ClearSplits(a[1..], b, ids);
    } else {
      assert a + b == b;
      if b != [] {
        assert b[0] in b && b == [b[0]] + b[1..];
        ClearSplits([], b[1..], ids);
        assert [] + b[1..] == b[1..];
      }
    }
  }

  /** Clearing the old part of a table that was cut to its cap leaves the new part, cut to the cap. */
  lemma ClearNewest(a: seq<Alert>, b: seq<Alert>, ids: set<nat>)
    requires forall x :: x in a ==> x.id in ids
    requires forall x :: x in b ==> x.id !in ids
    ensures Clear(Newest(a + b), ids) == Newest(b)
  {
    var skip := |a + b| - |Newest(a + b)|;
    if skip <= |a| {
      assert Newest(a + b) == a[skip..] + b;
      ClearSplits(a[skip..], b, ids);
    } else {
      assert Newest(a + b) == [] + b[skip - |a|..];
      ClearSplits([], b[skip - |a|..], ids);
    }
  }

  /** While no other recovery path clears alerts, a recovery leaves exactly the newest of what came in meanwhile, added
      to everything read if the callback raises. */
  lemma UndisturbedRecovery(h: seq<Event>, now: int, callback: Callback)
    requires After(h).active.Some? && AllCame(callback.meanwhile)
    ensures var s := After(h);
      var incoming := Numbered(NextId(s.alerts), s.arrivals, callback.meanwhile);
      Recover(s, now, callback).alerts == Newest(if callback.raises then s.alerts + incoming else incoming)
  {
    AlertsAlwaysOk(h);
    hide After, HappenAll;
    var s := After(h);
    var incoming := Numbered(NextId(s.alerts), s.arrivals, callback.meanwhile);
    CameTogether(Called(s, now), callback.meanwhile);
    assert forall a :: a in s.alerts ==> a.id < NextId(s.alerts);
    hide Newest;
    ClearNewest(s.alerts, incoming, Ids(s.alerts));
  }

  /** Another path clears the table while the callback of an outage's recovery runs; the alert that comes in next is
      given the id of the outage's own alert again and is deleted unread. */
  lemma AlertLostWithItsId(outage: Event, now: int, detail: string)
    requires IsGlobal(outage)
    ensures var s, callback := After([outage]), Callback([Cleared({1}), Came(detail)], false);
      && s.active.Some? && Ids(s.alerts) == {1}
      && HappenAll(Called(s, now), callback.meanwhile).alerts == [Alert(1, detail, 1)]
      && Recover(s, now, callback).alerts == []
  {
    var s, first := After([outage]), Alert(1, outage.verdict.value.code, 0);
    assert [outage][..0] == [];
    assert After([]) == Start() && s == Step(Start(), outage);
    assert s.alerts == [first] && Ids([first]) == {1} by {
      assert first in [first];
    }
    var ms := [Cleared({1}), Came(detail)];
    assert ms[..1] == [Cleared({1})] && [Cleared({1})][..0] == [];
    assert HappenAll(Called(s, now), []) == Called(s, now);
    ClearOne(first, {1});
    ClearOne(Alert(1, detail, 1), {1});
    assert HappenAll(Called(s, now), ms[..1]).alerts == [];
    assert HappenAll(Called(s, now), ms).alerts == [Alert(1, detail, 1)];
  }

  lemma ClearOne(a: Alert, ids: set<nat>)
    ensures Clear([a], ids) == if a.id in ids then [] else [a]
  {
    assert [a][1..] == [];
  }
}
