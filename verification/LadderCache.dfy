/** `Engine.run_ladder_cached` and `vacuum_database`: a result cache with a time to live, one
    ladder at a time, and no VACUUM beside a ladder. Any number of calls interleave at their lock
    operations; the two locks are `lock` (engine.lock) and `cond` (the cache condition). */
module LadderCache {
  import opened Options

  datatype Kind = NonForced | Forced | Vacuum

  datatype Result =
    | Cached(at: int)
    | Fresh
    | Busy
    | Raised
    | Vacuumed

  /** Where a call is. A name that begins with Want stands in front of a lock. */
  datatype Pc =
    | Start
    | CacheCheck            // holds cond
    | Waiting               // inside cond.wait, not yet notified
    | Woken                 // must take cond again
    | WantLock
    | LockCheck             // holds lock, about to read run_in_progress
    | LockSet               // holds lock, about to set run_in_progress
    | WantStale             // holds lock, a ladder is running, wants cond
    | StaleCheck            // holds lock and cond
    | Running               // the ladder itself, no lock held
    | WantStore
    | Storing               // holds cond
    | Ended(result: Result) // about to clear run_in_progress
    | WantClear(result: Result)
    | Clearing(result: Result) // holds cond
    | Vacuuming             // holds lock
    | Done(result: Result)

  datatype Thread = Thread(kind: Kind, pc: Pc)

  datatype State = State(
    threads: seq<Thread>,
    lock: Option<nat>,
    cond: Option<nat>,
    runInProgress: bool,
    inflight: bool,
    cache: Option<int>,
    now: int,
    ttl: int)

  predicate IsStart(s: State) {
    && (forall i :: 0 <= i < |s.threads| ==> s.threads[i].pc == Start)
    && s.lock.None? && s.cond.None? && !s.runInProgress && !s.inflight && s.cache.None?
  }

  predicate Hit(s: State) {
    s.cache.Some? && s.now - s.cache.value <= s.ttl
  }

  function Goto(s: State, i: nat, pc: Pc): State
    requires i < |s.threads|
  {
    s.(threads := s.threads[i := s.threads[i].(pc := pc)])
  }

  /** `notify_all`: every waiting call has to take the condition again. */
  function NotifyAll(threads: seq<Thread>): seq<Thread> {
    seq(|threads|, i requires 0 <= i < |threads| =>
      if threads[i].pc == Waiting then threads[i].(pc := Woken) else threads[i])
  }

  /** What happens next: call `i` moves on, its ladder raises, its wait times out, or time passes. */
  datatype Action = Proceed(i: nat) | Fail(i: nat) | Timeout(i: nat) | Tick(ticks: nat)

  predicate Enabled(s: State, a: Action) {
    match a
    case Tick(_) => true
    case Timeout(i) => i < |s.threads| && s.threads[i].pc == Waiting
    case Fail(i) => i < |s.threads| && s.threads[i].pc == Running
    case Proceed(i) => i < |s.threads| && CanProceed(s, s.threads[i])
  }

  predicate CanProceed(s: State, t: Thread) {
    match t.pc
    case Start => if t.kind == NonForced then s.cond.None? else s.lock.None?
    case Woken => s.cond.None?
    case WantLock => s.lock.None?
    case WantStale => s.cond.None?
    case WantStore => s.cond.None?
    case WantClear(_) => s.cond.None?
    case Waiting => false
    case Done(_) => false
    case _ => true
  }

  function Apply(s: State, a: Action): State
    requires Enabled(s, a)
  {
    match a
    case Tick(d) => s.(now := s.now + d)
    case Timeout(i) => Goto(s, i, Woken)
    case Fail(i) => Goto(s, i, Ended(Raised))
    case Proceed(i) =>
      var t := s.threads[i];
      match t.pc
      case Start =>
        if t.kind == NonForced then Goto(s, i, CacheCheck).(cond := Some(i))
        else Goto(s, i, LockCheck).(lock := Some(i))
      case Woken => Goto(s, i, CacheCheck).(cond := Some(i))
      case CacheCheck =>
        if Hit(s) then Goto(s, i, Done(Cached(s.cache.value))).(cond := None)
        else if s.inflight then Goto(s, i, Waiting).(cond := None)
        else Goto(s, i, WantLock).(cond := None, inflight := true)
      case WantLock => Goto(s, i, LockCheck).(lock := Some(i))
      case LockCheck =>
        if !s.runInProgress then Goto(s, i, if t.kind == Vacuum then Vacuuming else LockSet)
        else if t.kind == NonForced then Goto(s, i, WantStale)
        else Goto(s, i, Done(Busy)).(lock := None)
      case LockSet => Goto(s, i, Running).(lock := None, runInProgress := true)
      case WantStale => Goto(s, i, StaleCheck).(cond := Some(i))
      case StaleCheck =>
        Goto(s, i, WantClear(if s.cache.Some? then Cached(s.cache.value) else Busy)).(lock := None, cond := None)
      case Running => Goto(s, i, WantStore)
      case WantStore => Goto(s, i, Storing).(cond := Some(i))
      case Storing => Goto(s, i, Ended(Fresh)).(cond := None, cache := Some(s.now))
      case Ended(result) =>
        Goto(s, i, if t.kind == NonForced then WantClear(result) else Done(result)).(runInProgress := false)
      case WantClear(result) => Goto(s, i, Clearing(result)).(cond := Some(i))
      case Clearing(result) =>
        var r := Goto(s, i, Done(result));
        r.(cond := None, inflight := false, threads := NotifyAll(r.threads))
      case Vacuuming => Goto(s, i, Done(Vacuumed)).(lock := None)
      case _ => s
  }

  function Execute(s: State, actions: seq<Action>): Option<State> {
    if actions == [] then Some(s)
    else
      match Execute(s, actions[..|actions| - 1])
      case None => None
      case Some(r) => if Enabled(r, actions[|actions| - 1]) then Some(Apply(r, actions[|actions| - 1])) else None
  }

  ghost predicate Reachable(s: State) {
    exists s0, actions :: IsStart(s0) && Execute(s0, actions) == Some(s)
  }

  // ----- what every step keeps -----

  predicate HoldsLock(pc: Pc) {
    pc.LockCheck? || pc.LockSet? || pc.WantStale? || pc.StaleCheck? || pc.Vacuuming?
  }

  predicate HoldsCond(pc: Pc) {
    pc.CacheCheck? || pc.StaleCheck? || pc.Storing? || pc.Clearing?
  }

  /** Between setting and clearing `run_in_progress`. */
  predicate InLadder(pc: Pc) {
    pc.Running? || pc.WantStore? || pc.Storing? || pc.Ended?
  }

  /** Between setting and clearing `_ladder_inflight`. */
  predicate Owns(t: Thread) {
    t.kind == NonForced && !(t.pc.Start? || t.pc.CacheCheck? || t.pc.Waiting? || t.pc.Woken? || t.pc.Done?)
  }

  predicate KindFits(t: Thread) {
    match t.kind
    case NonForced => !t.pc.Vacuuming?
    case Forced => t.pc.Start? || t.pc.LockCheck? || t.pc.LockSet? || InLadder(t.pc) || t.pc.Done?
    case Vacuum => t.pc.Start? || t.pc.LockCheck? || t.pc.Vacuuming? || t.pc.Done?
  }

  /** Decided on `run_in_progress` being false and still holding the lock. */
  predicate NeedsIdle(pc: Pc) {
    pc.LockSet? || pc.Vacuuming?
  }

  /** `runner` is the call inside a ladder, `owner` the call that set `_ladder_inflight`. */
  ghost predicate Inv(s: State, runner: Option<nat>, owner: Option<nat>) {
    && (forall i: nat :: i < |s.threads| ==> (HoldsLock(s.threads[i].pc) <==> s.lock == Some(i)))
    && (forall i: nat :: i < |s.threads| ==> (HoldsCond(s.threads[i].pc) <==> s.cond == Some(i)))
    && (forall i: nat :: i < |s.threads| ==> (InLadder(s.threads[i].pc) <==> runner == Some(i)))
    && (forall i: nat :: i < |s.threads| ==> (Owns(s.threads[i]) <==> owner == Some(i)))
    && (forall i: nat :: i < |s.threads| ==> KindFits(s.threads[i]))
    && (s.lock.Some? ==> s.lock.value < |s.threads|)
    && (s.cond.Some? ==> s.cond.value < |s.threads|)
    && (runner.Some? ==> runner.value < |s.threads|)
    && (owner.Some? ==> owner.value < |s.threads|)
    && s.runInProgress == runner.Some?
    && s.inflight == owner.Some?
    && (forall i: nat :: i < |s.threads| && NeedsIdle(s.threads[i].pc) ==> !s.runInProgress)
    && (forall i: nat :: i < |s.threads| && s.threads[i].pc.Waiting? ==> s.inflight)
  }

  /** One call changes from `before` to `after` in holding something of which there is one. */
  predicate Handover(i: nat, before: bool, after: bool, holder: Option<nat>, holder': Option<nat>) {
    if after then holder' == Some(i) && (holder.None? || before)
    else if before then holder'.None?
    else holder' == holder
  }

  /** A step of call `i` alone. */
  lemma MoveKeeps(s: State, s': State, i: nat, runner: Option<nat>, owner: Option<nat>,
                  runner': Option<nat>, owner': Option<nat>)
    requires Inv(s, runner, owner)
    requires i < |s.threads| == |s'.threads|
    requires forall j :: 0 <= j < |s.threads| && j != i ==> s'.threads[j] == s.threads[j]
    requires KindFits(s'.threads[i])
    requires Handover(i, HoldsLock(s.threads[i].pc), HoldsLock(s'.threads[i].pc), s.lock, s'.lock)
    requires Handover(i, HoldsCond(s.threads[i].pc), HoldsCond(s'.threads[i].pc), s.cond, s'.cond)
    requires Handover(i, InLadder(s.threads[i].pc), InLadder(s'.threads[i].pc), runner, runner')
    requires Handover(i, Owns(s.threads[i]), Owns(s'.threads[i]), owner, owner')
    requires s'.runInProgress == runner'.Some? && s'.inflight == owner'.Some?
    requires NeedsIdle(s'.threads[i].pc) ==> !s'.runInProgress
    requires runner' == Some(i) ==> s.lock == Some(i) || runner == Some(i)
    requires s'.threads[i].pc.Waiting? ==> s'.inflight
    requires s'.inflight || !s.inflight || forall j :: 0 <= j < |s'.threads| ==> !s'.threads[j].pc.Waiting?
    ensures Inv(s', runner', owner')
  {
    forall j: nat | j < |s.threads| && j != i && NeedsIdle(s.threads[j].pc) ensures !s'.runInProgress {
      assert s.lock == Some(j);
    }
  }

  lemma WakingKeeps(s: State, runner: Option<nat>, owner: Option<nat>)
    requires Inv(s, runner, owner)
    ensures Inv(s.(threads := NotifyAll(s.threads)), runner, owner)
  {
  }

  /** The step of a call that takes a lock and does nothing else. */
  predicate TakesLock(pc: Pc) {
    pc.Start? || pc.Woken? || pc.WantLock? || pc.WantStale? || pc.WantStore? || pc.WantClear?
  }

  lemma FirstTakingKeeps(s: State, i: nat, runner: Option<nat>, owner: Option<nat>)
    requires Inv(s, runner, owner) && Enabled(s, Proceed(i)) && s.threads[i].pc.Start?
    ensures Inv(Apply(s, Proceed(i)), runner, owner)
  {
    MoveKeeps(s, Apply(s, Proceed(i)), i, runner, owner, runner, owner);
  }

  /** On the way into the cache condition, before its ladder or without one. */
  lemma EarlyTakingKeeps(s: State, i: nat, runner: Option<nat>, owner: Option<nat>)
    requires Inv(s, runner, owner) && Enabled(s, Proceed(i))
    requires var pc := s.threads[i].pc; pc.Woken? || pc.WantLock? || pc.WantStale?
    ensures Inv(Apply(s, Proceed(i)), runner, owner)
  {
    MoveKeeps(s, Apply(s, Proceed(i)), i, runner, owner, runner, owner);
  }

  /** Steps that take a lock. */
  lemma TakingKeeps(s: State, i: nat, runner: Option<nat>, owner: Option<nat>)
    requires Inv(s, runner, owner) && Enabled(s, Proceed(i))
    requires TakesLock(s.threads[i].pc)
    ensures Inv(Apply(s, Proceed(i)), runner, owner)
  {
    var pc := s.threads[i].pc;
    if pc.Start? {
      FirstTakingKeeps(s, i, runner, owner);
    } else if pc.Woken? || pc.WantLock? || pc.WantStale? {
      EarlyTakingKeeps(s, i, runner, owner);
    } else {
      MoveKeeps(s, Apply(s, Proceed(i)), i, runner, owner, runner, owner);
    }
  }

  /** Steps under the engine lock. */
  lemma LockedKeeps(s: State, i: nat, runner: Option<nat>, owner: Option<nat>)
    requires Inv(s, runner, owner) && Enabled(s, Proceed(i))
    requires var pc := s.threads[i].pc; pc.LockCheck? || pc.StaleCheck? || pc.Vacuuming?
    ensures Inv(Apply(s, Proceed(i)), runner, owner)
  {
    MoveKeeps(s, Apply(s, Proceed(i)), i, runner, owner, runner, owner);
  }

  /** Steps inside a ladder. */
  lemma LadderKeeps(s: State, i: nat, runner: Option<nat>, owner: Option<nat>)
    requires Inv(s, runner, owner) && Enabled(s, Proceed(i))
    requires var pc := s.threads[i].pc; pc.Running? || pc.Storing?
    ensures Inv(Apply(s, Proceed(i)), runner, owner)
  {
    MoveKeeps(s, Apply(s, Proceed(i)), i, runner, owner, runner, owner);
  }

  lemma StartingKeeps(s: State, i: nat, runner: Option<nat>, owner: Option<nat>)
    requires Inv(s, runner, owner) && i < |s.threads| && s.threads[i].pc.LockSet?
    ensures Inv(Apply(s, Proceed(i)), Some(i), owner)
  {
    MoveKeeps(s, Apply(s, Proceed(i)), i, runner, owner, Some(i), owner);
  }

  lemma EndingKeeps(s: State, i: nat, runner: Option<nat>, owner: Option<nat>)
    requires Inv(s, runner, owner) && i < |s.threads| && s.threads[i].pc.Ended?
    ensures Inv(Apply(s, Proceed(i)), None, owner)
  {
    MoveKeeps(s, Apply(s, Proceed(i)), i, runner, owner, None, owner);
  }

  lemma CheckingKeeps(s: State, i: nat, runner: Option<nat>, owner: Option<nat>)
    requires Inv(s, runner, owner) && i < |s.threads| && s.threads[i].pc.CacheCheck?
    ensures Inv(Apply(s, Proceed(i)), runner, if Hit(s) || s.inflight then owner else Some(i))
  {
    MoveKeeps(s, Apply(s, Proceed(i)), i, runner, owner, runner, if Hit(s) || s.inflight then owner else Some(i));
  }

  lemma ClearingKeeps(s: State, i: nat, runner: Option<nat>, owner: Option<nat>)
    requires Inv(s, runner, owner) && i < |s.threads| && s.threads[i].pc.Clearing?
    ensures Inv(Apply(s, Proceed(i)), runner, None)
  {
    var woken := s.(threads := NotifyAll(s.threads));
    WakingKeeps(s, runner, owner);
    MoveKeeps(woken, Apply(s, Proceed(i)), i, runner, owner, runner, None);
  }

  /** Steps that no call chooses: time passes, a wait times out, a ladder raises. */
  lemma OutsideKeeps(s: State, a: Action, runner: Option<nat>, owner: Option<nat>)
    requires Inv(s, runner, owner) && Enabled(s, a) && !a.Proceed?
    ensures Inv(Apply(s, a), runner, owner)
  {
    if !a.Tick? {
      MoveKeeps(s, Apply(s, a), a.i, runner, owner, runner, owner);
    }
  }

  lemma ProceedKeeps(s: State, i: nat, runner: Option<nat>, owner: Option<nat>)
    returns (runner': Option<nat>, owner': Option<nat>)
    requires Inv(s, runner, owner) && Enabled(s, Proceed(i))
    ensures Inv(Apply(s, Proceed(i)), runner', owner')
  {
    runner', owner' := runner, owner;
    var pc := s.threads[i].pc;
    if pc.CacheCheck? {
      CheckingKeeps(s, i, runner, owner);
      owner' := if Hit(s) || s.inflight then owner else Some(i);
    } else if pc.LockSet? {
      StartingKeeps(s, i, runner, owner);
      runner' := Some(i);
    } else if pc.Ended? {
      EndingKeeps(s, i, runner, owner);
      runner' := None;
    } else if pc.Clearing? {
      ClearingKeeps(s, i, runner, owner);
      owner' := None;
    } else if pc.LockCheck? || pc.StaleCheck? || pc.Vacuuming? {
      LockedKeeps(s, i, runner, owner);
    } else if pc.Running? || pc.Storing? {
      LadderKeeps(s, i, runner, owner);
    } else {
      TakingKeeps(s, i, runner, owner);
    }
  }

  lemma StepKeeps(s: State, a: Action, runner: Option<nat>, owner: Option<nat>)
    returns (runner': Option<nat>, owner': Option<nat>)
    requires Inv(s, runner, owner) && Enabled(s, a)
    ensures Inv(Apply(s, a), runner', owner')
  {
    if a.Proceed? {
      runner', owner' := ProceedKeeps(s, a.i, runner, owner);
    } else {
      runner', owner' := runner, owner;
      OutsideKeeps(s, a, runner, owner);
    }
  }

  lemma {:induction false} RunKeeps(s0: State, actions: seq<Action>, s: State)
    returns (runner: Option<nat>, owner: Option<nat>)
    requires IsStart(s0) && Execute(s0, actions) == Some(s)
    ensures Inv(s, runner, owner)
  {
    if actions == [] {
      runner, owner := None, None;
    } else {
      hide Apply, Enabled;
      var r := Execute(s0, actions[..|actions| - 1]).value;
      runner, owner := RunKeeps(s0, actions[..|actions| - 1], r);
      runner, owner := StepKeeps(r, actions[|actions| - 1], runner, owner);
    }
  }

  // ----- the promises -----

  /** Single flight and vacuum exclusion in every reachable state: at most one call is inside a ladder,
      `run_in_progress` says whether one is, `_ladder_inflight` is set exactly while one non-forced
      call owns it (from setting to clearing, whether its ladder returned or raised), and no VACUUM
      runs beside a ladder. */
  lemma SingleFlight(s: State)
    requires Reachable(s)
    ensures forall i, j :: (0 <= i < |s.threads| && 0 <= j < |s.threads|
                            && InLadder(s.threads[i].pc) && InLadder(s.threads[j].pc)) ==> i == j
    ensures s.runInProgress <==> exists i :: 0 <= i < |s.threads| && InLadder(s.threads[i].pc)
    ensures forall i, j :: (0 <= i < |s.threads| && 0 <= j < |s.threads|
                            && Owns(s.threads[i]) && Owns(s.threads[j])) ==> i == j
    ensures s.inflight <==> exists i :: 0 <= i < |s.threads| && Owns(s.threads[i])
    ensures forall i, j :: (0 <= i < |s.threads| && 0 <= j < |s.threads|
                            && s.threads[i].pc.Vacuuming?) ==> !InLadder(s.threads[j].pc)
  {
    var s0, actions :| IsStart(s0) && Execute(s0, actions) == Some(s);
    var runner, owner := RunKeeps(s0, actions, s);
    if runner.Some? {
      assert InLadder(s.threads[runner.value].pc);
    }
    if owner.Some? {
      assert Owns(s.threads[owner.value]);
    }
  }

  /** No deadlock and no lost wakeup: as long as some call is unfinished, one can move on without
      any wait timing out. */
  lemma SomeCallCanProceed(s: State, k: nat)
    requires Reachable(s) && k < |s.threads| && !s.threads[k].pc.Done?
    ensures exists i :: Enabled(s, Proceed(i))
  {
    var s0, actions :| IsStart(s0) && Execute(s0, actions) == Some(s);
    var runner, owner := RunKeeps(s0, actions, s);
    if s.cond.Some? {
      assert Enabled(s, Proceed(s.cond.value));
    } else if s.lock.Some? {
      assert Enabled(s, Proceed(s.lock.value));
    } else if s.threads[k].pc.Waiting? {
      assert Enabled(s, Proceed(owner.value));
    } else {
      assert Enabled(s, Proceed(k));
    }
  }

  // ----- every call finishes -----

  function Rank(pc: Pc): nat {
    match pc
    case Start => 20
    case Woken => 19
    case CacheCheck => 18
    case Waiting => 17
    case WantLock => 16
    case LockCheck => 15
    case LockSet => 14
    case WantStale => 14
    case StaleCheck => 13
    case Vacuuming => 13
    case Running => 12
    case WantStore => 11
    case Storing => 10
    case Ended(_) => 9
    case WantClear(_) => 8
    case Clearing(_) => 7
    case Done(_) => 0
  }

  /** What call `t` may still cost when there are `n` calls: finishing pays for waking the others. */
  function Cost(t: Thread, n: nat): nat {
    Rank(t.pc) + if t.pc.Done? then 0 else 2 * n
  }

  function TotalCost(threads: seq<Thread>, n: nat): nat {
    if threads == [] then 0 else TotalCost(threads[1..], n) + Cost(threads[0], n)
  }

  lemma {:induction false} CostOfUpdate(threads: seq<Thread>, i: nat, t: Thread, n: nat)
    requires i < |threads|
    ensures TotalCost(threads[i := t], n) == TotalCost(threads, n) - Cost(threads[i], n) + Cost(t, n)
  {
    if i > 0 {
      assert threads[i := t][1..] == threads[1..][i - 1 := t];
      CostOfUpdate(threads[1..], i - 1, t, n);
    }
  }

  lemma {:induction false} CostOfNotify(threads: seq<Thread>, n: nat)
    ensures TotalCost(NotifyAll(threads), n) <= TotalCost(threads, n) + 2 * |threads|
  {
    if threads != [] {
      assert NotifyAll(threads)[1..] == NotifyAll(threads[1..]);
      CostOfNotify(threads[1..], n);
    }
  }

  predicate IsProgress(a: Action) {
    a.Proceed? || a.Fail?
  }

  /** Call `i` alone moved, to a lower rank. */
  predicate OneLowered(s: State, r: State, i: nat) {
    && i < |s.threads| == |r.threads|
    && r.threads == s.threads[i := r.threads[i]]
    && Rank(r.threads[i].pc) < Rank(s.threads[i].pc)
  }

  lemma TakingLowersRank(s: State, i: nat)
    requires Enabled(s, Proceed(i)) && TakesLock(s.threads[i].pc)
    ensures OneLowered(s, Apply(s, Proceed(i)), i)
  {
  }

  lemma OtherLowersRank(s: State, i: nat)
    requires Enabled(s, Proceed(i)) && !TakesLock(s.threads[i].pc) && !s.threads[i].pc.Clearing?
    ensures OneLowered(s, Apply(s, Proceed(i)), i)
  {
  }

  lemma ProgressCosts(s: State, a: Action)
    requires Enabled(s, a) && IsProgress(a)
    ensures |Apply(s, a).threads| == |s.threads|
    ensures TotalCost(Apply(s, a).threads, |s.threads|) < TotalCost(s.threads, |s.threads|)
  {
    var n := |s.threads|;
    if a.Proceed? && s.threads[a.i].pc.Clearing? {
      NotifyingCosts(s, a.i);
    } else {
      if a.Proceed? && TakesLock(s.threads[a.i].pc) {
        TakingLowersRank(s, a.i);
      } else if a.Proceed? {
        OtherLowersRank(s, a.i);
      }
      CostOfUpdate(s.threads, a.i, Apply(s, a).threads[a.i], n);
    }
  }

  lemma NotifyingCosts(s: State, i: nat)
    requires i < |s.threads| && s.threads[i].pc.Clearing?
    ensures |Apply(s, Proceed(i)).threads| == |s.threads|
    ensures TotalCost(Apply(s, Proceed(i)).threads, |s.threads|) < TotalCost(s.threads, |s.threads|)
  {
    var n := |s.threads|;
    var t' := s.threads[i].(pc := Done(s.threads[i].pc.result));
    CostOfUpdate(s.threads, i, t', n);
    CostOfNotify(s.threads[i := t'], n);
  }

  /** Time passes, or a wait times out and its call has to take the condition again. */
  lemma WaitingCosts(s: State, a: Action)
    requires Enabled(s, a) && !IsProgress(a)
    ensures |Apply(s, a).threads| == |s.threads|
    ensures TotalCost(Apply(s, a).threads, |s.threads|)
         <= TotalCost(s.threads, |s.threads|) + if a.Timeout? then 2 else 0
  {
    if a.Timeout? {
      CostOfUpdate(s.threads, a.i, Apply(s, a).threads[a.i], |s.threads|);
    }
  }

  function ProgressIn(actions: seq<Action>): nat {
    if actions == [] then 0
    else ProgressIn(actions[..|actions| - 1]) + if IsProgress(actions[|actions| - 1]) then 1 else 0
  }

  function TimeoutsIn(actions: seq<Action>): nat {
    if actions == [] then 0
    else TimeoutsIn(actions[..|actions| - 1]) + if actions[|actions| - 1].Timeout? then 1 else 0
  }

  /** However the calls interleave, whatever time passes and whichever ladders raise, all calls together make at
      most `TotalCost` steps, and two more for every wait that times out. */
  lemma {:induction false} StepsAreBounded(s: State, actions: seq<Action>)
    requires Execute(s, actions).Some?
    ensures |Execute(s, actions).value.threads| == |s.threads|
    ensures ProgressIn(actions) + TotalCost(Execute(s, actions).value.threads, |s.threads|)
         <= TotalCost(s.threads, |s.threads|) + 2 * TimeoutsIn(actions)
  {
    if actions != [] {
      hide Apply, Enabled;
      var front, last := actions[..|actions| - 1], actions[|actions| - 1];
      StepsAreBounded(s, front);
      if IsProgress(last) {
        ProgressCosts(Execute(s, front).value, last);
      } else {
        WaitingCosts(Execute(s, front).value, last);
      }
    }
  }

  /** The two steps per timeout are needed: a call that waits for a stale result to be replaced can time out, look
      again and go back to waiting, any number of times. */
  lemma WaitingGoesRound(s: State, i: nat)
    requires i < |s.threads| && s.threads[i] == Thread(NonForced, Waiting) && s.cond.None? && s.inflight && !Hit(s)
    ensures Execute(s, [Timeout(i), Proceed(i), Proceed(i)]) == Some(s)
  {
    var a := [Timeout(i), Proceed(i), Proceed(i)];
    var woken := Goto(s, i, Woken);
    var checking := Goto(s, i, CacheCheck).(cond := Some(i));
    assert a[..2][..1] == a[..1] && a[..1][..0] == [] && a[..2] == [Timeout(i), Proceed(i)] && a[..1] == [Timeout(i)];
    assert Execute(s, []) == Some(s);
    assert Apply(s, Timeout(i)) == woken && Execute(s, a[..1]) == Some(woken);
    assert Apply(woken, Proceed(i)) == checking && Execute(s, a[..2]) == Some(checking);
    assert s.threads[i := s.threads[i]] == s.threads;
    assert Apply(checking, Proceed(i)) == s;
  }

  /** A run that cannot go on without a timeout has finished every call. */
  lemma StuckMeansFinished(s: State)
    requires Reachable(s) && forall i: nat :: !Enabled(s, Proceed(i))
    ensures forall k :: 0 <= k < |s.threads| ==> s.threads[k].pc.Done?
  {
    forall k | 0 <= k < |s.threads| ensures s.threads[k].pc.Done? {
      if !s.threads[k].pc.Done? {
        SomeCallCanProceed(s, k);
      }
    }
  }

  lemma OneStepOn(s: State, a: Action)
    requires Reachable(s) && Enabled(s, a)
    ensures Reachable(Apply(s, a))
  {
    hide Apply, Enabled;
    var s0, actions :| IsStart(s0) && Execute(s0, actions) == Some(s);
    assert (actions + [a])[..|actions|] == actions;
    assert Execute(s0, actions + [a]) == Some(Apply(s, a));
  }

  lemma {:induction false} FirstStep(s: State, a: Action, rest: seq<Action>)
    requires Enabled(s, a)
    ensures Execute(s, [a] + rest) == Execute(Apply(s, a), rest)
  {
    hide Apply, Enabled;
    if rest == [] {
      assert [a] + rest == [a] && [a][..0] == [];
      assert Execute(s, []) == Some(s);
    } else {
      var n := |rest| - 1;
      assert ([a] + rest)[..|rest|] == [a] + rest[..n];
      FirstStep(s, a, rest[..n]);
    }
  }

  /** From every reachable state the calls can finish by moving on alone: any of them that can move does, one step
      after the other and without a single timeout, until every call has finished. */
  lemma {:induction false} EveryCallCanFinish(s: State) returns (actions: seq<Action>)
    requires Reachable(s)
    ensures forall j :: 0 <= j < |actions| ==> actions[j].Proceed?
    ensures Execute(s, actions).Some?
    ensures var end := Execute(s, actions).value;
      |end.threads| == |s.threads| && forall k :: 0 <= k < |end.threads| ==> end.threads[k].pc.Done?
    decreases TotalCost(s.threads, |s.threads|)
  {
    hide Apply, Enabled, TotalCost;
    if i: nat :| Enabled(s, Proceed(i)) {
      ProgressCosts(s, Proceed(i));
      OneStepOn(s, Proceed(i));
      var rest := EveryCallCanFinish(Apply(s, Proceed(i)));
      FirstStep(s, Proceed(i), rest);
      actions := [Proceed(i)] + rest;
    } else {
      actions := [];
      assert Execute(s, []) == Some(s);
      StuckMeansFinished(s);
    }
  }

  // ----- freshness -----

  predicate NoForced(s: State) {
    forall i :: 0 <= i < |s.threads| ==> s.threads[i].kind != Forced
  }

  predicate AboutToStart(pc: Pc) {
    pc.WantLock? || pc.LockCheck? || pc.LockSet?
  }

  /** No result is stored, or one that is older than the TTL. */
  predicate Outdated(s: State) {
    s.cache.Some? ==> s.now - s.cache.value > s.ttl
  }

  /** On its way out with what its own ladder gave. */
  predicate OwnResult(pc: Pc) {
    match pc
    case Ended(result) => result.Fresh? || result.Raised?
    case WantClear(result) => result.Fresh? || result.Raised?
    case Clearing(result) => result.Fresh? || result.Raised?
    case _ => !pc.WantStale? && !pc.StaleCheck?
  }

  ghost predicate StaleOwner(s: State) {
    && NoForced(s)
    && (forall i :: 0 <= i < |s.threads| && s.threads[i].kind == NonForced && AboutToStart(s.threads[i].pc) ==>
          Outdated(s))
    && (forall i :: 0 <= i < |s.threads| ==> OwnResult(s.threads[i].pc))
  }

  lemma FreshMoveKeeps(s: State, s': State, i: nat)
    requires StaleOwner(s) && i < |s.threads| == |s'.threads|
    requires forall j :: 0 <= j < |s.threads| && j != i ==> s'.threads[j] == s.threads[j]
    requires s'.threads[i].kind == s.threads[i].kind
    requires Outdated(s) ==> Outdated(s')
    requires s'.threads[i].kind == NonForced && AboutToStart(s'.threads[i].pc) ==> Outdated(s)
    requires OwnResult(s'.threads[i].pc)
    ensures StaleOwner(s')
  {
  }

  /** The call that finds a ladder running would be a second owner. */
  lemma NeverTurnedAway(s: State, i: nat, runner: Option<nat>, owner: Option<nat>)
    requires Inv(s, runner, owner) && NoForced(s)
    requires i < |s.threads| && s.threads[i].pc.LockCheck? && s.threads[i].kind == NonForced
    ensures !s.runInProgress
  {
    assert Owns(s.threads[i]);
    forall j | 0 <= j < |s.threads| ensures !InLadder(s.threads[j].pc) {
      assert s.threads[j].kind != Forced;
      assert j != i ==> !Owns(s.threads[j]);
    }
  }

  lemma StoringKeepsFresh(s: State, i: nat, runner: Option<nat>, owner: Option<nat>)
    requires Inv(s, runner, owner) && StaleOwner(s) && i < |s.threads| && s.threads[i].pc.Storing?
    ensures StaleOwner(Apply(s, Proceed(i)))
  {
    assert InLadder(s.threads[i].pc);
    assert Owns(s.threads[i]);
    forall j | 0 <= j < |s.threads| && s.threads[j].kind == NonForced ensures !AboutToStart(s.threads[j].pc) {
      assert j != i ==> !Owns(s.threads[j]);
    }
  }

  lemma FreshTakingKeeps(s: State, i: nat)
    requires StaleOwner(s) && Enabled(s, Proceed(i)) && TakesLock(s.threads[i].pc)
    ensures StaleOwner(Apply(s, Proceed(i)))
  {
    FreshMoveKeeps(s, Apply(s, Proceed(i)), i);
  }

  lemma FreshNotifyKeeps(s: State, i: nat)
    requires StaleOwner(s) && i < |s.threads| && s.threads[i].pc.Clearing?
    ensures StaleOwner(Apply(s, Proceed(i)))
  {
  }

  /** Steps of a call on its way to its ladder. */
  lemma FreshDecidingKeeps(s: State, i: nat, runner: Option<nat>, owner: Option<nat>)
    requires Inv(s, runner, owner) && StaleOwner(s) && Enabled(s, Proceed(i))
    requires var pc := s.threads[i].pc; pc.CacheCheck? || pc.LockCheck? || pc.LockSet?
    ensures StaleOwner(Apply(s, Proceed(i)))
  {
    if s.threads[i].pc.LockCheck? && s.threads[i].kind == NonForced {
      NeverTurnedAway(s, i, runner, owner);
    }
    hide Inv;
    FreshMoveKeeps(s, Apply(s, Proceed(i)), i);
  }

  lemma FreshProceedKeeps(s: State, i: nat, runner: Option<nat>, owner: Option<nat>)
    requires Inv(s, runner, owner) && StaleOwner(s) && Enabled(s, Proceed(i))
    ensures StaleOwner(Apply(s, Proceed(i)))
  {
    var pc := s.threads[i].pc;
    if pc.Storing? {
      StoringKeepsFresh(s, i, runner, owner);
    } else if pc.Clearing? {
      FreshNotifyKeeps(s, i);
    } else if TakesLock(pc) {
      FreshTakingKeeps(s, i);
    } else if pc.CacheCheck? || pc.LockCheck? || pc.LockSet? {
      FreshDecidingKeeps(s, i, runner, owner);
    } else {
      hide Inv;
      FreshMoveKeeps(s, Apply(s, Proceed(i)), i);
    }
  }

  lemma FreshStepKeeps(s: State, a: Action, runner: Option<nat>, owner: Option<nat>)
    requires Inv(s, runner, owner) && StaleOwner(s) && Enabled(s, a)
    ensures StaleOwner(Apply(s, a))
  {
    if a.Proceed? {
      FreshProceedKeeps(s, a.i, runner, owner);
    } else if !a.Tick? {
      FreshMoveKeeps(s, Apply(s, a), a.i);
    }
  }

  predicate SameKinds(a: seq<Thread>, b: seq<Thread>) {
    |a| == |b| && forall i :: 0 <= i < |a| ==> a[i].kind == b[i].kind
  }

  lemma ProceedKeepsKinds(s: State, i: nat)
    requires Enabled(s, Proceed(i))
    ensures SameKinds(s.threads, Apply(s, Proceed(i)).threads)
  {
    if TakesLock(s.threads[i].pc) {
      TakingLowersRank(s, i);
    } else if !s.threads[i].pc.Clearing? {
      OtherLowersRank(s, i);
    }
    hide Rank;
    var r := Apply(s, Proceed(i));
    assert r.threads[i].kind == s.threads[i].kind;
  }

  lemma StepKeepsKinds(s: State, a: Action)
    requires Enabled(s, a)
    ensures SameKinds(s.threads, Apply(s, a).threads)
  {
    if a.Proceed? {
      ProceedKeepsKinds(s, a.i);
    }
  }

  lemma KindsStay(s: State, a: Action)
    requires Enabled(s, a) && NoForced(Apply(s, a))
    ensures NoForced(s)
  {
    StepKeepsKinds(s, a);
    hide Apply, Enabled;
  }

  lemma {:induction false} RunKeepsStaleOwner(s0: State, actions: seq<Action>, s: State)
    requires IsStart(s0) && Execute(s0, actions) == Some(s) && NoForced(s)
    ensures StaleOwner(s)
  {
    if actions != [] {
      var front, last := actions[..|actions| - 1], actions[|actions| - 1];
      hide Apply, Enabled;
      var r := Execute(s0, front).value;
      KindsStay(r, last);
      RunKeepsStaleOwner(s0, front, r);
      var runner, owner := RunKeeps(s0, front, r);
      FreshStepKeeps(r, last, runner, owner);
    }
  }

  /** Without forced callers a ladder starts only when no stored result is within the TTL. */
  lemma LadderStartsOnlyWhenStale(s: State, i: nat)
    requires Reachable(s) && NoForced(s) && i < |s.threads|
    ensures s.threads[i].pc.LockSet? && s.threads[i].kind == NonForced ==>
      (s.cache.Some? ==> s.now - s.cache.value > s.ttl)
  {
    var s0, actions :| IsStart(s0) && Execute(s0, actions) == Some(s);
    RunKeepsStaleOwner(s0, actions, s);
  }

  /** The other half: a call that looks while a stored result is within the TTL is answered with it at once, and one
      that looks when there is none is not. */
  lemma ServedExactlyWhenCurrent(s: State, i: nat)
    requires i < |s.threads| && s.threads[i] == Thread(NonForced, CacheCheck)
    ensures Enabled(s, Proceed(i)) && i < |Apply(s, Proceed(i)).threads|
    ensures var pc := Apply(s, Proceed(i)).threads[i].pc;
      && (s.cache.Some? && s.now - s.cache.value <= s.ttl ==> pc == Done(Cached(s.cache.value)))
      && (!(s.cache.Some? && s.now - s.cache.value <= s.ttl) ==> pc == if s.inflight then Waiting else WantLock)
  {
  }

  lemma AnswerOf(s: State, r: State, i: nat, result: Result)
    requires i < |s.threads| && s.threads[i].kind == NonForced
    requires OwnResult(s.threads[i].pc) && (s.threads[i].pc.LockCheck? ==> !s.runInProgress)
    requires Enabled(s, Proceed(i)) && r == Apply(s, Proceed(i))
    requires i < |r.threads| && r.threads[i].pc == Done(result)
    ensures result.Cached? ==> s.threads[i].pc.CacheCheck? && s.cache == Some(result.at) && Hit(s)
    ensures result.Cached? || result.Fresh? || result.Raised? || s.threads[i].pc.Vacuuming?
  {
  }

  /** Without forced callers nobody is turned away or served late: the step that ends a call answers it with a
      stored result that is within the TTL at that moment, or with what its own ladder gave. */
  lemma AnswersAreCurrent(s: State, r: State, i: nat, result: Result)
    requires Reachable(s) && NoForced(s) && i < |s.threads| && s.threads[i].kind == NonForced
    requires Enabled(s, Proceed(i)) && r == Apply(s, Proceed(i))
    requires i < |r.threads| && r.threads[i].pc == Done(result)
    ensures || (result.Cached? && s.cache == Some(result.at) && s.now - result.at <= s.ttl)
            || result.Fresh?
            || result.Raised?
  {
    var s0, actions :| IsStart(s0) && Execute(s0, actions) == Some(s);
    RunKeepsStaleOwner(s0, actions, s);
    var runner, owner := RunKeeps(s0, actions, s);
    if s.threads[i].pc.LockCheck? {
      NeverTurnedAway(s, i, runner, owner);
    }
    assert KindFits(s.threads[i]);
    hide Inv, StaleOwner, Execute, Apply, Enabled;
    AnswerOf(s, r, i, result);
  }
}
