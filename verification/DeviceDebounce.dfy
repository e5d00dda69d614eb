/** Device monitoring in linkmoth_devices.py: the debounce of `_record_result` between two resets by
    `update_device`. */
module DeviceDebounce {
  import opened Options

  /** What one check of a device finds. */
  datatype Finding = Up | Degraded | Down | ProbeError

  /** `unknown` until enough runs agree. */
  datatype Stable = Unknown | StableUp | StableDegraded | StableDown

  datatype Event = Fault | Recovery

  datatype Run = Run(scheduled: bool, finding: Finding)

  /** What an edit of a device can change; `settings` stands for the checks' own settings. */
  datatype Config = Config(
    name: string, address: string, preset: string, enabled: bool, interval: nat, alerts: string, settings: string)

  datatype State = State(stable: Stable, successStreak: nat, failureStreak: nat)

  predicate Faulty(s: Stable) {
    s.StableDegraded? || s.StableDown?
  }

  /** The device row. */
  class Device {
    var stable: Stable
    var successStreak: nat
    var failureStreak: nat
    var config: Config

    function Row(): State
      reads this
    {
      State(stable, successStreak, failureStreak)
    }

    constructor (config: Config)
      ensures Row() == Reset() && this.config == config
    {
      stable, successStreak, failureStreak := Unknown, 0, 0;
      this.config := config;
    }

    /** `update_device`: a history starts anew unless at most the name and the choice of alerts change. */
    method UpdateDevice(clean: Config)
      modifies this
      ensures config == clean
      ensures Row() == if old(config).(name := clean.name, alerts := clean.alerts) == clean then old(Row())
                       else State(Unknown, 0, 0)
    {
      var monitorChanged :=
        clean.address != config.address || clean.preset != config.preset || clean.settings != config.settings;
      var scheduleChanged := clean.enabled != config.enabled || clean.interval != config.interval;
      if monitorChanged || scheduleChanged {
        stable, successStreak, failureStreak := Unknown, 0, 0;
      }
      config := clean;
    }

    /** The streak part of `_record_result`. */
    method RecordResult(run: Run) returns (event: Option<Event>)
      modifies this`stable, this`successStreak, this`failureStreak
      ensures (Row(), event) == Record(old(Row()), run)
    {
      event := None;
      if run.scheduled {
        if run.finding.Up? {
          successStreak := successStreak + 1;
          failureStreak := 0;
          if successStreak >= 2 {
            if Faulty(stable) {
              event := Some(Recovery);
            }
            stable := StableUp;
          }
        } else if run.finding.Degraded? || run.finding.Down? {
          failureStreak := failureStreak + 1;
          successStreak := 0;
          if failureStreak >= 2 {
            if !Faulty(stable) {
              event := Some(Fault);
            }
            stable := if run.finding.Degraded? then StableDegraded else StableDown;
          }
        } else {
          failureStreak := failureStreak + 1;
          successStreak := 0;
          if failureStreak >= 3 {
            if !Faulty(stable) {
              event := Some(Fault);
            }
            stable := StableDown;
          }
        }
      }
    }
  }

  function Reset(): State {
    State(Unknown, 0, 0)
  }

  /** What a failing finding makes of the stable state once it is believed. */
  function Believed(f: Finding): Stable {
    match f
    case Up => StableUp
    case Degraded => StableDegraded
    case Down => StableDown
    case ProbeError => StableDown
  }

  function Record(s: State, run: Run): (State, Option<Event>) {
    if !run.scheduled then (s, None)
    else if run.finding.Up? then
      var n := s.successStreak + 1;
      if n < 2 then (State(s.stable, n, 0), None)
      else (State(StableUp, n, 0), if Faulty(s.stable) then Some(Recovery) else None)
    else
      var n := s.failureStreak + 1;
      if n < (if run.finding.ProbeError? then 3 else 2) then (State(s.stable, 0, n), None)
      else (State(Believed(run.finding), 0, n), if Faulty(s.stable) then None else Some(Fault))
  }

  // ----- histories since the last reset -----

  function After(runs: seq<Run>): State {
    if runs == [] then Reset() else Record(After(runs[..|runs| - 1]), runs[|runs| - 1]).0
  }

  function EventAt(runs: seq<Run>, k: nat): Option<Event>
    requires k < |runs|
  {
    Record(After(runs[..k]), runs[k]).1
  }

  function Events(runs: seq<Run>): seq<Event> {
    if runs == [] then []
    else
      var n := |runs| - 1;
      Events(runs[..n]) + (match EventAt(runs, n) case Some(e) => [e] case None => [])
  }

  function Scheduled(runs: seq<Run>): (r: seq<Run>)
    ensures forall x :: x in r ==> x.scheduled
  {
    if runs == [] then []
    else
      var n := |runs| - 1;
      Scheduled(runs[..n]) + if runs[n].scheduled then [runs[n]] else []
  }

  /** Manual runs neither change the row nor cause events. */
  lemma {:induction false} ManualRunsAreInvisible(runs: seq<Run>)
    ensures After(Scheduled(runs)) == After(runs)
    ensures Events(Scheduled(runs)) == Events(runs)
  {
    if runs != [] {
      var n := |runs| - 1;
      ManualRunsAreInvisible(runs[..n]);
      if runs[n].scheduled {
        var s := Scheduled(runs);
        assert s[..|s| - 1] == Scheduled(runs[..n]);
      } else {
        assert Scheduled(runs) == Scheduled(runs[..n]);
      }
    }
  }

  /** Length of the block of successes (or of failures) at the end of scheduled runs. */
  function TrailingBlock(runs: seq<Run>, up: bool): nat {
    if runs == [] || runs[|runs| - 1].finding.Up? != up then 0 else 1 + TrailingBlock(runs[..|runs| - 1], up)
  }

  /** The streaks are exactly the trailing blocks. */
  lemma {:induction false} StreaksAreTrailingBlocks(runs: seq<Run>)
    requires forall r :: r in runs ==> r.scheduled
    ensures After(runs).successStreak == TrailingBlock(runs, true)
    ensures After(runs).failureStreak == TrailingBlock(runs, false)
  {
    if runs != [] {
      assert runs[|runs| - 1] in runs;
      StreaksAreTrailingBlocks(runs[..|runs| - 1]);
    }
  }

  /** The latest finding that was believed: an up that ends a block of two, a degraded or down that ends a block
      of two, a probe error that ends a block of three. */
  function Decides(runs: seq<Run>, k: nat): bool
    requires k < |runs|
  {
    match runs[k].finding
    case Up => k >= 1 && runs[k - 1].finding.Up?
    case ProbeError => k >= 2 && !runs[k - 1].finding.Up? && !runs[k - 2].finding.Up?
    case _ => k >= 1 && !runs[k - 1].finding.Up?
  }

  ghost predicate LastDecision(runs: seq<Run>, k: nat) {
    k < |runs| && Decides(runs, k) && forall j :: k < j < |runs| ==> !Decides(runs, j)
  }

  lemma DecidesByStreak(runs: seq<Run>, k: nat)
    requires k < |runs| && forall r :: r in runs ==> r.scheduled
    ensures Decides(runs, k) <==>
      if runs[k].finding.Up? then TrailingBlock(runs[..k], true) + 1 >= 2
      else TrailingBlock(runs[..k], false) + 1 >= if runs[k].finding.ProbeError? then 3 else 2
  {
    if k >= 1 {
      assert runs[..k][..k - 1] == runs[..k - 1];
    }
    if k >= 2 {
      assert runs[..k - 1][..k - 2] == runs[..k - 2];
    }
  }

  lemma DecidesInPrefix(runs: seq<Run>, n: nat, k: nat)
    requires k < n <= |runs|
    ensures Decides(runs[..n], k) == Decides(runs, k)
  {
  }

  /** A run that decides sets the stable state; any other leaves it. */
  lemma DecisionStep(runs: seq<Run>)
    requires runs != [] && forall r :: r in runs ==> r.scheduled
    ensures var n := |runs| - 1;
      After(runs).stable == if Decides(runs, n) then Believed(runs[n].finding) else After(runs[..n]).stable
  {
    var n := |runs| - 1;
    assert runs[n] in runs;
    StreaksAreTrailingBlocks(runs[..n]);
    DecidesByStreak(runs, n);
    assert After(runs) == Record(After(runs[..n]), runs[n]).0;
    hide After, Decides, TrailingBlock;
  }

  /** The stable state is what the last decision believed, and unknown before the first: three failures in a
      row always leave it faulty and two successes always leave it up. */
  lemma {:induction false} StableIsTheLastDecision(runs: seq<Run>)
    requires forall r :: r in runs ==> r.scheduled
    ensures After(runs).stable == Unknown <==> forall k :: 0 <= k < |runs| ==> !Decides(runs, k)
    ensures forall k: nat :: LastDecision(runs, k) ==> After(runs).stable == Believed(runs[k].finding)
    ensures forall k: nat :: LastDecision(runs, k) ==>
      match runs[k].finding
      case Up => After(runs).stable == StableUp
      case Degraded => After(runs).stable == StableDegraded
      case Down => After(runs).stable == StableDown
      case ProbeError => After(runs).stable == StableDown
  {
    if runs != [] {
      var n := |runs| - 1;
      var before := runs[..n];
      StableIsTheLastDecision(before);
      DecisionStep(runs);
      EarlierDecisions(runs);
      hide After, Decides, LastDecision;
      forall k: nat | LastDecision(runs, k) ensures After(runs).stable == Believed(runs[k].finding) {
        assert k == n <==> Decides(runs, n);
      }
    }
  }

  /** The decisions before the last run are those of the runs before it. */
  lemma EarlierDecisions(runs: seq<Run>)
    requires runs != []
    ensures var n := |runs| - 1;
      && (forall k :: 0 <= k < n ==> Decides(runs[..n], k) == Decides(runs, k))
      && (forall k: nat :: LastDecision(runs, k) ==>
            k <= n && (k == n <==> Decides(runs, n)) && (k < n ==> LastDecision(runs[..n], k)))
  {
    var n := |runs| - 1;
    forall k | 0 <= k < n ensures Decides(runs[..n], k) == Decides(runs, k) {
      DecidesInPrefix(runs, n, k);
    }
    hide Decides;
  }

  lemma ThreeFailuresOrTwoSuccesses(runs: seq<Run>)
    requires forall r :: r in runs ==> r.scheduled
    ensures TrailingBlock(runs, false) >= 3 ==>
      After(runs).stable == StableDegraded || After(runs).stable == StableDown
    ensures TrailingBlock(runs, true) >= 2 ==> After(runs).stable == StableUp
  {
    if runs != [] {
      var n := |runs| - 1;
      assert runs[n] in runs;
      StreaksAreTrailingBlocks(runs[..n]);
    }
  }

  /** Fault and recovery strictly alternate, a fault first, and the stable state is faulty exactly between a
      fault and the next recovery. */
  lemma {:induction false} EventsAlternate(runs: seq<Run>)
    ensures forall i :: 0 <= i < |Events(runs)| ==> Events(runs)[i] == if i % 2 == 0 then Fault else Recovery
    ensures After(runs).stable == StableDegraded || After(runs).stable == StableDown <==> |Events(runs)| % 2 == 1
  {
    if runs != [] {
      EventsAlternate(runs[..|runs| - 1]);
    }
  }
}
