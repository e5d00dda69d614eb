/** `Engine._loop`: the recheck loop of one incident, over every sequence of recheck outcomes. */
module RecheckLoop {
  import opened Options
  import opened Severities

  datatype Verdict = Verdict(code: string, severity: Severity)

  /** What one round of the loop meets. `NoVerdict` is a diagnosis that was refused or raised before it gave a
      verdict. A verdict can be followed by a database error that ends the round: while the diagnosis is recorded, or,
      on the way to announcing a recovery, while the fault ladder is looked up. Queueing a webhook event can fail too;
      `_emit_webhook` swallows that error, and the loop never learns of it. */
  datatype Round =
    | ClosedElsewhere
    | NoVerdict
    | Recheck(v: Verdict, databaseFails: bool, emissionFails: bool)

  datatype Event =
    | FaultOpened(v: Verdict)
    | DegradationDetected(v: Verdict)
    | FaultUpdated(v: Verdict)
    | FaultRecovered
    | FaultClosed(code: string)

  /** One call of `_emit_webhook`; a lost one queues nothing. */
  datatype Call = Call(event: Event, lost: bool)

  /** A failing verdict that reaches the announcement, and whether queueing an event for it would fail. */
  datatype Heard = Heard(v: Verdict, lost: bool)

  function SeverityRank(s: Severity): nat {
    match s
    case Ok => 0
    case Warn => 1
    case Bad => 2
  }

  predicate Healthy(r: Round) {
    r.Recheck? && r.v.severity.Ok?
  }

  predicate Failing(r: Round) {
    r.Recheck? && !r.v.severity.Ok?
  }

  // ----- what the rounds so far amount to -----

  /** Healthy verdicts since the last failing one; a resumed recovery counts as one. */
  function HealthyStreak(rounds: seq<Round>, resumed: bool, n: nat): nat
    requires n <= |rounds|
  {
    if n == 0 then if resumed then 1 else 0
    else if Healthy(rounds[n - 1]) then HealthyStreak(rounds, resumed, n - 1) + 1
    else if Failing(rounds[n - 1]) then 0
    else HealthyStreak(rounds, resumed, n - 1)
  }

  /** The latest among the most severe failing verdicts of the first `n` rounds. */
  function Worst(rounds: seq<Round>, n: nat): (r: Option<nat>)
    requires n <= |rounds|
    ensures r.None? ==> forall i :: 0 <= i < n ==> !Failing(rounds[i])
    ensures r.Some? ==> r.value < n && Failing(rounds[r.value])
    ensures r.Some? ==> forall i :: 0 <= i < n && Failing(rounds[i]) ==>
      && SeverityRank(rounds[i].v.severity) <= SeverityRank(rounds[r.value].v.severity)
      && (r.value < i ==> SeverityRank(rounds[i].v.severity) < SeverityRank(rounds[r.value].v.severity))
  {
    if n == 0 then None
    else
      var before := Worst(rounds, n - 1);
      if && Failing(rounds[n - 1])
         && (before.None?
             || SeverityRank(rounds[n - 1].v.severity) >= SeverityRank(rounds[before.value].v.severity))
      then Some(n - 1)
      else before
  }

  /** The failing verdicts that reached the announcement: all but those whose record as the new worst failed. */
  function Announced(rounds: seq<Round>, n: nat): seq<Heard>
    requires n <= |rounds|
  {
    if n == 0 then []
    else
      var r := rounds[n - 1];
      if Failing(r) && !(r.databaseFails && Worst(rounds, n) == Some(n - 1))
      then Announced(rounds, n - 1) + [Heard(r.v, r.emissionFails)]
      else Announced(rounds, n - 1)
  }

  function FirstEvent(v: Verdict): Event {
    if v.severity.Warn? then DegradationDetected(v) else FaultOpened(v)
  }

  /** One call for the first announced verdict and one for every change of (code, severity) after it, lost or not. */
  function FaultCalls(hs: seq<Heard>): seq<Call> {
    if hs == [] then []
    else
      var n := |hs| - 1;
      if n == 0 then [Call(FirstEvent(hs[0].v), hs[0].lost)]
      else if hs[n].v != hs[n - 1].v then FaultCalls(hs[..n]) + [Call(FaultUpdated(hs[n].v), hs[n].lost)]
      else FaultCalls(hs[..n])
  }

  /** Round `i` ends the loop by announcing a recovery. */
  predicate RecoversAt(rounds: seq<Round>, resumed: bool, i: nat)
    requires i < |rounds|
  {
    Healthy(rounds[i]) && HealthyStreak(rounds, resumed, i + 1) >= 2 && !rounds[i].databaseFails
  }

  predicate StopsAt(rounds: seq<Round>, resumed: bool, i: nat)
    requires i < |rounds|
  {
    rounds[i].ClosedElsewhere? || RecoversAt(rounds, resumed, i)
  }

  /** `used` rounds are what the loop takes of `rounds`. */
  predicate Takes(rounds: seq<Round>, resumed: bool, used: nat) {
    && used <= |rounds|
    && (forall i :: 0 <= i < used - 1 ==> !StopsAt(rounds, resumed, i))
    && (used < |rounds| ==> used > 0 && StopsAt(rounds, resumed, used - 1))
  }

  function WorstVerdict(rounds: seq<Round>, n: nat): Option<Verdict>
    requires n <= |rounds|
  {
    var w := Worst(rounds, n);
    if w.Some? then Some(rounds[w.value].v) else None
  }

  /** How the loop ended: someone else had closed the incident, or it finalised the incident itself. */
  datatype Ending =
    | LeftAlone
    | Finalised(recoveryConfirmed: bool, code: string)

  /** The locals that remember what has been announced, and the calls made so far. */
  datatype Notices = Notices(faultNotified: bool, lastEmitted: Option<Verdict>, calls: seq<Call>)

  function NoticesFor(hs: seq<Heard>): Notices {
    Notices(hs != [], if hs == [] then None else Some(hs[|hs| - 1].v), FaultCalls(hs))
  }

  /** The last part of the loop body: announce a failing verdict if it is news. It counts as announced even if the
      event was lost. */
  method Announce(notices: Notices, v: Verdict, lost: bool, ghost hs: seq<Heard>) returns (r: Notices)
    requires notices == NoticesFor(hs)
    ensures r == NoticesFor(hs + [Heard(v, lost)])
  {
    assert (hs + [Heard(v, lost)])[..|hs|] == hs;
    r := notices;
    if !r.faultNotified {
      r := Notices(true, Some(v), r.calls + [Call(FirstEvent(v), lost)]);
    } else if Some(v) != r.lastEmitted {
      r := r.(lastEmitted := Some(v), calls := r.calls + [Call(FaultUpdated(v), lost)]);
    }
  }

  /** The rechecks up to the deadline, a stop, or an external close. */
  method RecheckRounds(rounds: seq<Round>, resumed: bool)
    returns (notices: Notices, consecutiveOk: nat, worst: Option<Verdict>, leftAlone: bool, recovered: bool, used: nat)
    ensures used <= |rounds|
    ensures forall i :: 0 <= i < used - 1 ==> !StopsAt(rounds, resumed, i)
    ensures used < |rounds| ==> leftAlone || recovered
    ensures leftAlone <==> used > 0 && rounds[used - 1].ClosedElsewhere?
    ensures recovered <==> used > 0 && RecoversAt(rounds, resumed, used - 1)
    ensures consecutiveOk == HealthyStreak(rounds, resumed, used)
    ensures worst == WorstVerdict(rounds, used)
    ensures notices == NoticesFor(Announced(rounds, used))
  {
    consecutiveOk := if resumed then 1 else 0;
    worst, notices, used := None, Notices(false, None, []), 0;
    while used < |rounds|
      invariant used <= |rounds|
      invariant forall i :: 0 <= i < used ==> !StopsAt(rounds, resumed, i)
      invariant consecutiveOk == HealthyStreak(rounds, resumed, used)
      invariant worst == WorstVerdict(rounds, used)
      invariant notices == NoticesFor(Announced(rounds, used))
    {
      var round := rounds[used];
      used := used + 1;
      if round.ClosedElsewhere? {
        return notices, consecutiveOk, worst, true, false, used;
      }
      if round.NoVerdict? {
        continue;
      }
      var v := round.v;
      if v.severity.Ok? {
        consecutiveOk := consecutiveOk + 1;
        if consecutiveOk >= 2 && !round.databaseFails {
          return notices, consecutiveOk, worst, false, true, used;
        }
        continue;
      }
      consecutiveOk := 0;
      if worst.None? || SeverityRank(v.severity) >= SeverityRank(worst.value.severity) {
        worst := Some(v);
        if round.databaseFails {
          continue;
        }
      }
      notices := Announce(notices, v, round.emissionFails, Announced(rounds, used - 1));
    }
    assert used > 0 ==> !StopsAt(rounds, resumed, used - 1);
    leftAlone, recovered := false, false;
  }

  /** The call that announces the recovery on which the loop stops, if it does. */
  function RecoveryCall(rounds: seq<Round>, resumed: bool, used: nat): Option<Call>
    requires used <= |rounds|
  {
    if used > 0 && RecoversAt(rounds, resumed, used - 1) then Some(Call(FaultRecovered, rounds[used - 1].emissionFails))
    else None
  }

  /** `_loop`. `rounds` are the rechecks that fit before the deadline; `closeWins` says whether the final
      update found the incident unresolved, `closingLost` whether queueing its event fails; `used` is how many
      rounds the loop took. */
  method Loop(rounds: seq<Round>, resumed: bool, closeWins: bool, closingLost: bool)
    returns (calls: seq<Call>, ending: Ending, used: nat)
    ensures Takes(rounds, resumed, used)
    ensures ending.LeftAlone? <==> used > 0 && rounds[used - 1].ClosedElsewhere?
    ensures ending.Finalised? ==>
      && ending.recoveryConfirmed == (HealthyStreak(rounds, resumed, used) >= 2)
      && ending.code == var w := Worst(rounds, used); if w.Some? then rounds[w.value].v.code else "all_clear"
    ensures calls == History(Announced(rounds, used), RecoveryCall(rounds, resumed, used),
                             if ending.Finalised? && closeWins then Some(Call(FaultClosed(ending.code), closingLost))
                             else None)
  {
    var notices, consecutiveOk, worst, leftAlone, recovered, n := RecheckRounds(rounds, resumed);
    used := n;
    calls := notices.calls;
    if leftAlone {
      return calls, LeftAlone, used;
    }
    if recovered {
      calls := calls + [Call(FaultRecovered, rounds[used - 1].emissionFails)];
    }
    var code := if worst.Some? then worst.value.code else "all_clear";
    ending := Finalised(consecutiveOk >= 2, code);
    if closeWins {
      calls := calls + [Call(FaultClosed(code), closingLost)];
    }
  }

  /** Everything one incident's loop tries to emit, in order. */
  function History(announced: seq<Heard>, recovered: Option<Call>, closed: Option<Call>): seq<Call> {
    FaultCalls(announced)
      + (if recovered.Some? then [recovered.value] else [])
      + (if closed.Some? then [closed.value] else [])
  }

  /** The events that reach the queue. */
  function Queued(calls: seq<Call>): seq<Event> {
    if calls == [] then []
    else
      var n := |calls| - 1;
      if calls[n].lost then Queued(calls[..n]) else Queued(calls[..n]) + [calls[n].event]
  }

  // ----- what a history looks like -----

  predicate Names(e: Event, v: Verdict) {
    (e.FaultOpened? || e.DegradationDetected? || e.FaultUpdated?) && e.v == v
  }

  predicate OfFault(e: Event) {
    e.FaultOpened? || e.DegradationDetected? || e.FaultUpdated?
  }

  /** The grammar of the calls, and no two neighbouring fault calls that say the same. */
  lemma {:induction false} FaultCallsAlternate(hs: seq<Heard>)
    ensures hs == [] <==> FaultCalls(hs) == []
    ensures hs != [] ==> FaultCalls(hs)[0] == Call(FirstEvent(hs[0].v), hs[0].lost)
    ensures hs != [] ==> Names(FaultCalls(hs)[|FaultCalls(hs)| - 1].event, hs[|hs| - 1].v)
    ensures forall i :: 1 <= i < |FaultCalls(hs)| ==> FaultCalls(hs)[i].event.FaultUpdated?
    ensures forall i :: 0 <= i < |FaultCalls(hs)| ==> OfFault(FaultCalls(hs)[i].event)
    ensures forall i :: 0 <= i < |FaultCalls(hs)| - 1 ==> FaultCalls(hs)[i].event.v != FaultCalls(hs)[i + 1].event.v
  {
    if |hs| > 1 {
      FaultCallsAlternate(hs[..|hs| - 1]);
    }
  }

  /** Nothing is announced twice in a row and no change is passed over: between two announced verdicts that
      differ there is a call for the later one, and its event is queued unless it is lost. */
  lemma {:induction false} EveryChangeIsAnnounced(hs: seq<Heard>, i: nat)
    requires 0 < i < |hs| && hs[i].v != hs[i - 1].v
    ensures exists k :: 0 < k < |FaultCalls(hs)| && FaultCalls(hs)[k] == Call(FaultUpdated(hs[i].v), hs[i].lost)
  {
    var n := |hs| - 1;
    FaultCallsAlternate(hs[..n]);
    if i == n {
      assert FaultCalls(hs)[|FaultCalls(hs[..n])|] == Call(FaultUpdated(hs[n].v), hs[n].lost);
    } else {
      EveryChangeIsAnnounced(hs[..n], i);
      var k :| 0 < k < |FaultCalls(hs[..n])|
        && FaultCalls(hs[..n])[k] == Call(FaultUpdated(hs[i].v), hs[i].lost);
      assert FaultCalls(hs)[k] == FaultCalls(hs[..n])[k];
    }
  }

  // ----- which rounds are announced, from the rounds alone -----

  /** A failing verdict whose round the loop gets through: its database call succeeds, or it makes none because a bad
      verdict has come before and this is a warning. */
  predicate MustAnnounce(rounds: seq<Round>, i: nat)
    requires i < |rounds|
  {
    && rounds[i].Recheck? && (rounds[i].v.severity == Warn || rounds[i].v.severity == Bad)
    && (rounds[i].databaseFails ==>
          && rounds[i].v.severity == Warn
          && exists e :: 0 <= e < i && rounds[e].Recheck? && rounds[e].v.severity == Bad)
  }

  /** A bad verdict is never displaced by a warning: the final diagnosis is the latest bad one, and the latest warning
      only if there is no bad one. */
  lemma {:induction false} WorstTells(rounds: seq<Round>, n: nat)
    requires n <= |rounds|
    ensures var w := Worst(rounds, n);
      && (w.Some? ==> w.value < n && rounds[w.value].Recheck? && rounds[w.value].v.severity != Ok)
      && (w.None? ==> forall i :: 0 <= i < n && rounds[i].Recheck? ==> rounds[i].v.severity == Ok)
      && (w.Some? ==> forall i :: w.value < i < n && rounds[i].Recheck? ==>
            && rounds[i].v.severity != Bad
            && (rounds[w.value].v.severity == Warn ==> rounds[i].v.severity == Ok))
      && (w.Some? && rounds[w.value].v.severity == Warn ==>
            forall i :: 0 <= i < n && rounds[i].Recheck? ==> rounds[i].v.severity != Bad)
  {
    if n > 0 {
      WorstTells(rounds, n - 1);
    }
  }

  lemma AnnouncedExactly(rounds: seq<Round>, n: nat)
    requires 0 < n <= |rounds|
    ensures Announced(rounds, n) == Announced(rounds, n - 1) +
      if MustAnnounce(rounds, n - 1) then [Heard(rounds[n - 1].v, rounds[n - 1].emissionFails)] else []
  {
    WorstTells(rounds, n - 1);
    WorstTells(rounds, n);
    var w := Worst(rounds, n);
    hide Announced, Worst;
    AnnouncedUnfolds(rounds, n);
  }

  lemma AnnouncedUnfolds(rounds: seq<Round>, n: nat)
    requires 0 < n <= |rounds|
    ensures var r := rounds[n - 1];
      Announced(rounds, n) ==
        if Failing(r) && !(r.databaseFails && Worst(rounds, n) == Some(n - 1))
        then Announced(rounds, n - 1) + [Heard(r.v, r.emissionFails)]
        else Announced(rounds, n - 1)
    ensures Worst(rounds, n) != Some(n - 1) ==> Worst(rounds, n) == Worst(rounds, n - 1)
  {
  }

  /** Call `j` stems from round `origins[j]`. */
  ghost predicate StemsFrom(calls: seq<Call>, rounds: seq<Round>, n: nat, origins: seq<nat>)
    requires n <= |rounds|
  {
    && |origins| == |calls|
    && (forall j :: 0 <= j < |origins| ==> origins[j] < n && MustAnnounce(rounds, origins[j]))
    && (forall i, j :: 0 <= i < j < |origins| ==> origins[i] < origins[j])
    && (forall j :: 0 <= j < |calls| ==> calls[j].lost == rounds[origins[j]].emissionFails)
    && (calls != [] && rounds[origins[0]].v.severity == Warn ==>
          calls[0].event == DegradationDetected(rounds[origins[0]].v))
    && (calls != [] && rounds[origins[0]].v.severity == Bad ==>
          calls[0].event == FaultOpened(rounds[origins[0]].v))
    && (forall j :: 1 <= j < |calls| ==> calls[j].event == FaultUpdated(rounds[origins[j]].v))
  }

  /** Call `j` is the last one made up to round `i`, and names its verdict. */
  predicate NamedBy(rounds: seq<Round>, n: nat, origins: seq<nat>, i: nat, j: nat)
    requires i < n <= |rounds| && rounds[i].Recheck? && j < |origins|
    requires forall k :: 0 <= k < |origins| ==> origins[k] < n && rounds[origins[k]].Recheck?
  {
    origins[j] <= i && (j + 1 < |origins| ==> i < origins[j + 1]) && rounds[origins[j]].v == rounds[i].v
  }

  /** Round `i` is named by the last fault call made up to then. */
  ghost predicate Named(rounds: seq<Round>, n: nat, origins: seq<nat>, i: nat)
    requires i < n <= |rounds| && forall j :: 0 <= j < |origins| ==> origins[j] < n && rounds[origins[j]].Recheck?
  {
    rounds[i].Recheck? && exists j :: 0 <= j < |origins| && NamedBy(rounds, n, origins, i, j)
  }

  lemma FaultCallsSnoc(hs: seq<Heard>, h: Heard)
    ensures FaultCalls(hs + [h]) ==
      if hs == [] then FaultCalls(hs) + [Call(FirstEvent(h.v), h.lost)]
      else if h.v != hs[|hs| - 1].v then FaultCalls(hs) + [Call(FaultUpdated(h.v), h.lost)]
      else FaultCalls(hs)
  {
    assert (hs + [h])[..|hs|] == hs;
  }

  lemma NamedStays(rounds: seq<Round>, n: nat, origins: seq<nat>, longer: seq<nat>, i: nat)
    requires 0 < n <= |rounds| && i < n - 1
    requires forall j :: 0 <= j < |origins| ==> origins[j] < n - 1 && rounds[origins[j]].Recheck?
    requires longer == origins || (longer == origins + [n - 1] && rounds[n - 1].Recheck?)
    requires Named(rounds, n - 1, origins, i)
    ensures Named(rounds, n, longer, i)
  {
    var j :| 0 <= j < |origins| && NamedBy(rounds, n - 1, origins, i, j);
    assert NamedBy(rounds, n, longer, i, j);
  }

  lemma AnnouncedFails(rounds: seq<Round>, n: nat)
    requires 0 < n <= |rounds|
    ensures forall i :: 0 <= i < n && MustAnnounce(rounds, i) ==>
      rounds[i].Recheck? && (rounds[i].v.severity == Warn || rounds[i].v.severity == Bad)
  {
  }

  lemma StemsStay(calls: seq<Call>, rounds: seq<Round>, n: nat, origins: seq<nat>)
    requires 0 < n <= |rounds| && StemsFrom(calls, rounds, n - 1, origins)
    ensures StemsFrom(calls, rounds, n, origins)
  {
    hide MustAnnounce;
  }

  lemma StemsSnoc(calls: seq<Call>, rounds: seq<Round>, n: nat, origins: seq<nat>, call: Call)
    requires 0 < n <= |rounds| && StemsFrom(calls, rounds, n - 1, origins) && MustAnnounce(rounds, n - 1)
    requires call.lost == rounds[n - 1].emissionFails
    requires calls == [] ==> call.event == FirstEvent(rounds[n - 1].v)
    requires calls != [] ==> call.event == FaultUpdated(rounds[n - 1].v)
    ensures StemsFrom(calls + [call], rounds, n, origins + [n - 1])
  {
    AnnouncedFails(rounds, n);
    hide MustAnnounce;
    var longer := origins + [n - 1];
    forall i, j | 0 <= i < j < |longer| ensures longer[i] < longer[j] {
      if j < |origins| {
        assert origins[i] < origins[j];
      }
    }
  }

  lemma StemsAreRechecks(calls: seq<Call>, rounds: seq<Round>, n: nat, origins: seq<nat>)
    requires n <= |rounds| && StemsFrom(calls, rounds, n, origins)
    ensures forall j :: 0 <= j < |origins| ==> origins[j] < n && rounds[origins[j]].Recheck?
  {
  }

  /** The last call names the last announced verdict. */
  lemma {:induction false} LastOriginNames(hs: seq<Heard>, rounds: seq<Round>, n: nat, origins: seq<nat>)
    requires n <= |rounds| && StemsFrom(FaultCalls(hs), rounds, n, origins) && hs != []
    ensures origins != [] && origins[|origins| - 1] < n && rounds[origins[|origins| - 1]].Recheck?
    ensures rounds[origins[|origins| - 1]].v == hs[|hs| - 1].v
  {
    FaultCallsAlternate(hs);
    StemsAreRechecks(FaultCalls(hs), rounds, n, origins);
    hide MustAnnounce, FaultCalls;
  }

  lemma {:induction false} OneMoreRound(hs: seq<Heard>, h: Heard, rounds: seq<Round>, n: nat, origins: seq<nat>)
    returns (longer: seq<nat>)
    requires 0 < n <= |rounds| && MustAnnounce(rounds, n - 1)
    requires h == Heard(rounds[n - 1].v, rounds[n - 1].emissionFails)
    requires StemsFrom(FaultCalls(hs), rounds, n - 1, origins)
    ensures longer == origins || longer == origins + [n - 1]
    ensures StemsFrom(FaultCalls(hs + [h]), rounds, n, longer)
  {
    FaultCallsSnoc(hs, h);
    NoCallsYet(hs);
    hide MustAnnounce, FaultCalls, StemsFrom, FirstEvent;
    if hs == [] {
      StemsSnoc(FaultCalls(hs), rounds, n, origins, Call(FirstEvent(h.v), h.lost));
      longer := origins + [n - 1];
    } else if h.v != hs[|hs| - 1].v {
      StemsSnoc(FaultCalls(hs), rounds, n, origins, Call(FaultUpdated(h.v), h.lost));
      longer := origins + [n - 1];
    } else {
      StemsStay(FaultCalls(hs), rounds, n, origins);
      longer := origins;
    }
  }

  lemma NoCallsYet(hs: seq<Heard>)
    ensures FaultCalls(hs) == [] <==> hs == []
  {
    FaultCallsAlternate(hs);
  }

  ghost predicate AllNamed(rounds: seq<Round>, n: nat, origins: seq<nat>)
    requires n <= |rounds| && forall j :: 0 <= j < |origins| ==> origins[j] < n && rounds[origins[j]].Recheck?
  {
    forall i :: 0 <= i < n && MustAnnounce(rounds, i) ==> Named(rounds, n, origins, i)
  }

  lemma AllNamedSnoc(rounds: seq<Round>, n: nat, origins: seq<nat>, longer: seq<nat>)
    requires 0 < n <= |rounds|
    requires forall j :: 0 <= j < |origins| ==> origins[j] < n - 1 && rounds[origins[j]].Recheck?
    requires AllNamed(rounds, n - 1, origins)
    requires longer == origins || (longer == origins + [n - 1] && rounds[n - 1].Recheck?)
    requires MustAnnounce(rounds, n - 1) ==> longer != [] && rounds[longer[|longer| - 1]].v == rounds[n - 1].v
    ensures AllNamed(rounds, n, longer)
  {
    AnnouncedFails(rounds, n);
    hide MustAnnounce, Named;
    forall i | 0 <= i < n && MustAnnounce(rounds, i) ensures Named(rounds, n, longer, i) {
      if i < n - 1 {
        NamedStays(rounds, n, origins, longer, i);
      } else {
        NamedByLast(rounds, n, longer);
      }
    }
  }

  lemma NamedByLast(rounds: seq<Round>, n: nat, origins: seq<nat>)
    requires 0 < n <= |rounds| && rounds[n - 1].Recheck? && origins != []
    requires forall j :: 0 <= j < |origins| ==> origins[j] < n && rounds[origins[j]].Recheck?
    requires rounds[origins[|origins| - 1]].v == rounds[n - 1].v
    ensures Named(rounds, n, origins, n - 1)
  {
    assert NamedBy(rounds, n, origins, n - 1, |origins| - 1);
  }

  /** Every failing verdict that must be announced is named by a fault call, the calls come in the order of their
      rounds, each stems from such a round and shares its luck, and the first is a degradation exactly for a warning. */
  lemma {:induction false} CallsFollowRounds(rounds: seq<Round>, n: nat) returns (origins: seq<nat>)
    requires n <= |rounds|
    ensures StemsFrom(FaultCalls(Announced(rounds, n)), rounds, n, origins)
    ensures forall j :: 0 <= j < |origins| ==> origins[j] < n && rounds[origins[j]].Recheck?
    ensures AllNamed(rounds, n, origins)
  {
    if n == 0 {
      origins := [];
    } else {
      AnnouncedExactly(rounds, n);
      AnnouncedFails(rounds, n);
      var before := CallsFollowRounds(rounds, n - 1);
      hide MustAnnounce, Announced, FaultCalls, StemsFrom, AllNamed;
      var hs := Announced(rounds, n - 1);
      if MustAnnounce(rounds, n - 1) {
        origins := OneMoreRound(hs, Heard(rounds[n - 1].v, rounds[n - 1].emissionFails), rounds, n, before);
        LastOriginNames(Announced(rounds, n), rounds, n, origins);
      } else {
        assert hs + [] == hs;
        StemsStay(FaultCalls(hs), rounds, n, before);
        origins := before;
      }
      StemsAreRechecks(FaultCalls(Announced(rounds, n)), rounds, n, origins);
      AllNamedSnoc(rounds, n, before, origins);
    }
  }

  // ----- what reaches the queue -----

  /** Calls `i` and `j` are queued and nothing between them is. */
  predicate QueuedNext(calls: seq<Call>, i: nat, j: nat) {
    i < j < |calls| && !calls[i].lost && !calls[j].lost && forall k :: i < k < j ==> calls[k].lost
  }

  predicate SaySame(d: Event, e: Event) {
    OfFault(d) && OfFault(e) && d.v == e.v
  }

  /** No two queued neighbours say the same. */
  predicate NoRepeat(events: seq<Event>) {
    forall m :: 0 <= m < |events| - 1 ==> !SaySame(events[m], events[m + 1])
  }

  lemma NoRepeatSnoc(events: seq<Event>, e: Event)
    ensures NoRepeat(events + [e]) <==> NoRepeat(events) && (events != [] ==> !SaySame(events[|events| - 1], e))
  {
    var all := events + [e];
    if events != [] {
      assert all[|events| - 1] == events[|events| - 1] && all[|events| - 1 + 1] == e;
    }
    if NoRepeat(all) {
      forall m | 0 <= m < |events| - 1 ensures !SaySame(events[m], events[m + 1]) {
        assert !SaySame(all[m], all[m + 1]);
      }
    }
  }

  /** The last call that is queued. */
  function LastKept(calls: seq<Call>): (r: Option<nat>)
    ensures r.Some? ==> r.value < |calls| && !calls[r.value].lost
    ensures r.Some? ==> forall k :: r.value < k < |calls| ==> calls[k].lost
    ensures r.None? ==> forall k :: 0 <= k < |calls| ==> calls[k].lost
  {
    if calls == [] then None
    else if !calls[|calls| - 1].lost then Some(|calls| - 1)
    else LastKept(calls[..|calls| - 1])
  }

  lemma {:induction false} LastKeptIsQueued(calls: seq<Call>)
    ensures Queued(calls) == [] <==> LastKept(calls).None?
    ensures LastKept(calls).Some? ==> Queued(calls)[|Queued(calls)| - 1] == calls[LastKept(calls).value].event
  {
    if calls != [] {
      LastKeptIsQueued(calls[..|calls| - 1]);
    }
  }

  /** No call is followed, over lost ones only, by one that says the same. */
  ghost predicate NoLossBetweenSame(calls: seq<Call>) {
    forall i: nat, j: nat :: QueuedNext(calls, i, j) ==> !SaySame(calls[i].event, calls[j].event)
  }

  lemma QueuedNextInPrefix(calls: seq<Call>, n: nat)
    requires n + 1 == |calls|
    ensures forall i: nat, j: nat :: QueuedNext(calls[..n], i, j) <==> QueuedNext(calls, i, j) && j < n
  {
  }

  lemma LastKeptIsNext(calls: seq<Call>, n: nat)
    requires n + 1 == |calls|
    ensures forall i: nat :: QueuedNext(calls, i, n) <==> !calls[n].lost && LastKept(calls[..n]) == Some(i)
  {
  }

  lemma NoLossSnoc(calls: seq<Call>, n: nat)
    requires n + 1 == |calls|
    ensures NoLossBetweenSame(calls) <==>
      && NoLossBetweenSame(calls[..n])
      && (!calls[n].lost && LastKept(calls[..n]).Some? ==>
            !SaySame(calls[LastKept(calls[..n]).value].event, calls[n].event))
  {
    QueuedNextInPrefix(calls, n);
    LastKeptIsNext(calls, n);
    hide QueuedNext, SaySame, LastKept;
    if !calls[n].lost && LastKept(calls[..n]).Some? {
      assert QueuedNext(calls, LastKept(calls[..n]).value, n);
    }
  }

  /** Neighbours in the queue differ exactly when no stretch of lost calls lies between two queued ones that say the
      same. */
  lemma {:induction false} QueueRepeatsExactly(calls: seq<Call>)
    ensures NoRepeat(Queued(calls)) <==> NoLossBetweenSame(calls)
  {
    if calls != [] {
      hide SaySame, NoRepeat, LastKept, NoLossBetweenSame;
      var n := |calls| - 1;
      QueueRepeatsExactly(calls[..n]);
      NoLossSnoc(calls, n);
      LastKeptIsQueued(calls[..n]);
      NoRepeatSnoc(Queued(calls[..n]), calls[n].event);
    }
  }

  lemma {:induction false} FirstQueued(calls: seq<Call>)
    requires calls != []
    ensures !calls[0].lost ==> Queued(calls) != [] && Queued(calls)[0] == calls[0].event
    ensures calls[0].lost && Queued(calls) != [] ==>
      exists k :: 1 <= k < |calls| && Queued(calls)[0] == calls[k].event
  {
    var n := |calls| - 1;
    if n > 0 {
      FirstQueued(calls[..n]);
      if calls[0].lost && Queued(calls[..n]) != [] {
        var k :| 1 <= k < n && Queued(calls[..n])[0] == calls[..n][k].event;
        assert calls[k] == calls[..n][k];
      }
    } else {
      assert Queued(calls[..0]) == [];
    }
  }

  /** What the queue sees of a fault begins with its opening exactly when that first event was not lost. */
  lemma QueueOpensExactly(hs: seq<Heard>)
    requires hs != [] && Queued(FaultCalls(hs)) != []
    ensures !Queued(FaultCalls(hs))[0].FaultUpdated? <==> !hs[0].lost
  {
    FaultCallsAlternate(hs);
    FirstQueued(FaultCalls(hs));
  }

  /** Two changes of which the first is lost: the queue sees the same fault twice in a row. */
  lemma SameFaultQueuedTwice()
    ensures var a, b := Verdict("wan_down", Bad), Verdict("dns", Warn);
      Queued(FaultCalls([Heard(a, false), Heard(b, true), Heard(a, false)])) == [FaultOpened(a), FaultUpdated(a)]
  {
    var a, b := Verdict("wan_down", Bad), Verdict("dns", Warn);
    var hs := [Heard(a, false), Heard(b, true), Heard(a, false)];
    assert hs[..2][..1] == hs[..1] && hs[..1] == [Heard(a, false)] && hs[..2] == [Heard(a, false), Heard(b, true)];
    var calls := [Call(FaultOpened(a), false), Call(FaultUpdated(b), true), Call(FaultUpdated(a), false)];
    assert FaultCalls(hs[..2]) == [Call(FaultOpened(a), false), Call(FaultUpdated(b), true)];
    assert FaultCalls(hs) == calls;
    assert calls[..2][..1] == calls[..1] && calls[..1][..0] == [];
    assert Queued(calls[..0]) == [] && Queued(calls[..1]) == [FaultOpened(a)];
    assert calls[..2][1].lost && Queued(calls[..2]) == Queued(calls[..1]);
  }

  /** A recovery stands on two healthy verdicts with no failing one between them, or on one healthy verdict
      that continues a resumed recovery without any failing one before it. */
  lemma {:induction false} RecoveryNeedsTwoHealthy(rounds: seq<Round>, resumed: bool, n: nat)
    requires n <= |rounds| && HealthyStreak(rounds, resumed, n) >= 1
    ensures || (resumed && forall k :: 0 <= k < n ==> !Failing(rounds[k]))
            || exists i :: 0 <= i < n && Healthy(rounds[i]) && forall k :: i < k < n ==> !Failing(rounds[k])
    ensures HealthyStreak(rounds, resumed, n) >= 2 ==>
      || (resumed && (exists i :: 0 <= i < n && Healthy(rounds[i])) && forall k :: 0 <= k < n ==> !Failing(rounds[k]))
      || exists i, j :: 0 <= i < j < n && Healthy(rounds[i]) && Healthy(rounds[j])
           && forall k :: i < k < n ==> !Failing(rounds[k])
  {
    if n > 0 && !(HealthyStreak(rounds, resumed, n) == 1 && Healthy(rounds[n - 1])) {
      RecoveryNeedsTwoHealthy(rounds, resumed, n - 1);
    }
  }

  // ----- confirmed and announced -----

  /** Round `i` is healthy and confirms a recovery: another healthy round, or a resumed recovery, comes before it and no
      failing round has come since; and its look-up of the fault ladder succeeded, so that it goes on to the event. */
  predicate GoesOnToAnnounce(rounds: seq<Round>, resumed: bool, used: nat, i: nat)
    requires i < used <= |rounds|
  {
    && Healthy(rounds[i]) && !rounds[i].databaseFails
    && (forall k :: i < k < used ==> !Failing(rounds[k]))
    && ((exists j :: 0 <= j < i && Healthy(rounds[j]) && forall k :: j < k < i ==> !Failing(rounds[k]))
        || (resumed && forall k :: 0 <= k < i ==> !Failing(rounds[k])))
  }

  /** The first of these rounds. */
  predicate FirstToAnnounce(rounds: seq<Round>, resumed: bool, used: nat, i: nat)
    requires i < used <= |rounds|
  {
    GoesOnToAnnounce(rounds, resumed, used, i) && forall j :: 0 <= j < i ==> !GoesOnToAnnounce(rounds, resumed, used, j)
  }

  /** The streak in terms of the rounds alone. */
  lemma {:induction false} StreakTells(rounds: seq<Round>, resumed: bool, n: nat)
    requires n <= |rounds|
    ensures HealthyStreak(rounds, resumed, n) >= 1 <==>
      || (exists j :: 0 <= j < n && Healthy(rounds[j]) && forall k :: j < k < n ==> !Failing(rounds[k]))
      || (resumed && forall k :: 0 <= k < n ==> !Failing(rounds[k]))
  {
    if n > 0 {
      StreakTells(rounds, resumed, n - 1);
    }
  }

  lemma {:induction false} StreakStays(rounds: seq<Round>, resumed: bool, m: nat, n: nat)
    requires m <= n <= |rounds| && forall k :: m <= k < n ==> !Failing(rounds[k])
    ensures HealthyStreak(rounds, resumed, m) <= HealthyStreak(rounds, resumed, n)
  {
    if m < n {
      StreakStays(rounds, resumed, m, n - 1);
    }
  }

  /** Round `j` is healthy, with another healthy one or a resumed recovery before it, and nothing failed since. */
  ghost predicate SecondHealthy(rounds: seq<Round>, resumed: bool, n: nat, j: nat) {
    && j < n <= |rounds| && rounds[j].Recheck? && rounds[j].v.severity == Ok
    && (forall k :: j < k < n && rounds[k].Recheck? ==> rounds[k].v.severity == Ok)
    && ((exists i :: 0 <= i < j && rounds[i].Recheck? && rounds[i].v.severity == Ok
           && forall k :: i < k < j && rounds[k].Recheck? ==> rounds[k].v.severity == Ok)
        || (resumed && forall k :: 0 <= k < j && rounds[k].Recheck? ==> rounds[k].v.severity == Ok))
  }

  /** When a recovery is confirmed, from the rounds alone. */
  lemma {:induction false} ConfirmedExactly(rounds: seq<Round>, resumed: bool, n: nat)
    requires n <= |rounds|
    ensures HealthyStreak(rounds, resumed, n) >= 2 <==> exists j: nat :: SecondHealthy(rounds, resumed, n, j)
  {
    if j: nat :| SecondHealthy(rounds, resumed, n, j) {
      StreakTells(rounds, resumed, j);
      StreakStays(rounds, resumed, j + 1, n);
    }
    if HealthyStreak(rounds, resumed, n) >= 2 {
      LastHealthyConfirms(rounds, resumed, n);
    }
  }

  lemma {:induction false} LastHealthyConfirms(rounds: seq<Round>, resumed: bool, n: nat)
    requires n <= |rounds| && HealthyStreak(rounds, resumed, n) >= 2
    ensures exists j: nat :: SecondHealthy(rounds, resumed, n, j)
  {
    if Healthy(rounds[n - 1]) {
      StreakTells(rounds, resumed, n - 1);
      assert SecondHealthy(rounds, resumed, n, n - 1);
    } else {
      LastHealthyConfirms(rounds, resumed, n - 1);
      var j: nat :| SecondHealthy(rounds, resumed, n - 1, j);
      assert SecondHealthy(rounds, resumed, n, j);
    }
  }

  lemma {:induction false} InQueue(calls: seq<Call>, e: Event)
    ensures e in Queued(calls) <==> Call(e, false) in calls
  {
    if calls != [] {
      var n := |calls| - 1;
      InQueue(calls[..n], e);
      assert calls == calls[..n] + [calls[n]];
    }
  }

  /** A round that goes on to the event is the one the loop stops at. */
  lemma StopsWhereItAnnounces(rounds: seq<Round>, resumed: bool, used: nat)
    requires Takes(rounds, resumed, used)
    ensures forall i :: 0 <= i < used && GoesOnToAnnounce(rounds, resumed, used, i) ==> i == used - 1
    ensures used > 0 ==> (RecoversAt(rounds, resumed, used - 1) <==> GoesOnToAnnounce(rounds, resumed, used, used - 1))
  {
    forall i | 0 <= i < used ensures GoesOnToAnnounce(rounds, resumed, used, i) ==> StopsAt(rounds, resumed, i) {
      StreakTells(rounds, resumed, i);
    }
    if used > 0 {
      StreakTells(rounds, resumed, used - 1);
    }
  }

  /** A confirmed and finalised recovery has put its event into the queue exactly when the first round of the block at
      the end whose look-up succeeded also had its emission succeed. Otherwise the loop ran into its deadline, or the
      emission of the round it stopped at was lost. */
  lemma ConfirmedIsAnnouncedExactly(rounds: seq<Round>, resumed: bool, used: nat, closed: Option<Call>)
    requires Takes(rounds, resumed, used) && !(used > 0 && rounds[used - 1].ClosedElsewhere?)
    requires HealthyStreak(rounds, resumed, used) >= 2 && (closed.Some? ==> closed.value.event.FaultClosed?)
    ensures var calls := History(Announced(rounds, used), RecoveryCall(rounds, resumed, used), closed);
      && (FaultRecovered in Queued(calls) <==>
            exists i :: 0 <= i < used && FirstToAnnounce(rounds, resumed, used, i) && !rounds[i].emissionFails)
      && (FaultRecovered !in Queued(calls) ==>
            || used == |rounds|
            || (GoesOnToAnnounce(rounds, resumed, used, used - 1) && rounds[used - 1].emissionFails))
  {
    var hs := Announced(rounds, used);
    var calls := History(hs, RecoveryCall(rounds, resumed, used), closed);
    InQueue(calls, FaultRecovered);
    FaultCallsAlternate(hs);
    StopsWhereItAnnounces(rounds, resumed, used);
    hide Queued, FaultCalls, Announced, GoesOnToAnnounce;
    assert Call(FaultRecovered, false) !in FaultCalls(hs);
    if RecoversAt(rounds, resumed, used - 1) {
      assert FirstToAnnounce(rounds, resumed, used, used - 1);
    }
  }

  /** Two healthy rounds whose look-ups fail: the recovery is confirmed and finalised, but its event never tried. */
  lemma ConfirmedUnannounced()
    ensures var ok := Verdict("all_clear", Ok);
      var rounds := [Recheck(ok, true, false), Recheck(ok, true, false)];
      && Takes(rounds, false, 2) && HealthyStreak(rounds, false, 2) == 2 && Worst(rounds, 2) == None
      && RecoveryCall(rounds, false, 2) == None && Announced(rounds, 2) == []
  {
    var rounds := [Recheck(Verdict("all_clear", Ok), true, false), Recheck(Verdict("all_clear", Ok), true, false)];
    assert HealthyStreak(rounds, false, 1) == 1;
    assert Announced(rounds, 1) == [] && Worst(rounds, 1) == None;
  }

  /** Two healthy rounds, the look-up succeeds and queueing the event fails: the loop stops before its deadline, and
      the queue never hears of the recovery. */
  lemma RecoveryLost()
    ensures var ok := Verdict("all_clear", Ok);
      var rounds := [Recheck(ok, false, false), Recheck(ok, false, true), Recheck(ok, false, false)];
      && Takes(rounds, false, 2) && HealthyStreak(rounds, false, 2) == 2
      && Queued(History(Announced(rounds, 2), RecoveryCall(rounds, false, 2), None)) == []
  {
    var ok := Verdict("all_clear", Ok);
    var rounds := [Recheck(ok, false, false), Recheck(ok, false, true), Recheck(ok, false, false)];
    assert HealthyStreak(rounds, false, 1) == 1;
    assert Announced(rounds, 1) == [];
    assert History([], RecoveryCall(rounds, false, 2), None) == [Call(FaultRecovered, true)];
    assert [Call(FaultRecovered, true)][..0] == [];
  }
}
