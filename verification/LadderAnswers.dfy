/** What non-forced calls are answered beside forced ones: over whole runs, exactly which of them are handed a result
    older than the TTL. */
module LadderAnswers {
  import opened LadderCache
  import opened Options

  // ----- what the history tells -----

  /** The call is about to be turned away by the ladder of a forced one. */
  ghost predicate FacesForced(s: State, i: nat) {
    && i < |s.threads| && s.threads[i].pc.LockCheck?
    && exists j :: 0 <= j < |s.threads| && s.threads[j].kind == Forced && InLadder(s.threads[j].pc)
  }

  ghost predicate TurnedAway(s0: State, actions: seq<Action>, i: nat)
    requires Execute(s0, actions).Some?
  {
    && actions != []
    && var front, last := actions[..|actions| - 1], actions[|actions| - 1];
    || TurnedAway(s0, front, i)
    || (last == Proceed(i) && FacesForced(Execute(s0, front).value, i))
  }

  /** When a ladder last stored its result. */
  function LastStored(s0: State, actions: seq<Action>): Option<int>
    requires Execute(s0, actions).Some?
  {
    if actions == [] then None
    else
      var front, last := actions[..|actions| - 1], actions[|actions| - 1];
      var r := Execute(s0, front).value;
      if last.Proceed? && r.threads[last.i].pc.Storing? then Some(r.now) else LastStored(s0, front)
  }

  /** The answer that a step decides; clearing the flags later only carries it along. */
  function Decided(before: Pc, after: Pc): Option<Result> {
    match after
    case Done(result) => if before.Ended? || before.Clearing? then None else Some(result)
    case WantClear(result) => if before.Ended? then None else Some(result)
    case Ended(result) => Some(result)
    case _ => None
  }

  /** A call's answer, and what the history said at the moment it was decided. */
  datatype Answer = Answer(result: Result, now: int, turnedAway: bool, lastStored: Option<int>)

  ghost function AnswerOf(s0: State, actions: seq<Action>, i: nat): Option<Answer>
    requires Execute(s0, actions).Some?
  {
    if actions == [] then None
    else
      var front, last := actions[..|actions| - 1], actions[|actions| - 1];
      var r, s := Execute(s0, front).value, Execute(s0, actions).value;
      if (last == Proceed(i) || last == Fail(i)) && i < |s.threads|
         && Decided(r.threads[i].pc, s.threads[i].pc).Some? then
        Some(Answer(Decided(r.threads[i].pc, s.threads[i].pc).value, r.now,
                    TurnedAway(s0, front, i), LastStored(s0, front)))
      else AnswerOf(s0, front, i)
  }

  // ----- what the program counter tells -----

  function Held(pc: Pc): Option<Result> {
    match pc
    case Ended(result) => Some(result)
    case WantClear(result) => Some(result)
    case Clearing(result) => Some(result)
    case Done(result) => Some(result)
    case _ => None
  }

  predicate IsTurned(pc: Pc) {
    pc.WantStale? || pc.StaleCheck?
  }

  predicate Stale(a: Answer, ttl: int) {
    a.result.Cached? && a.now - a.result.at > ttl
  }

  predicate ToldStale(a: Answer, ttl: int) {
    a.turnedAway && a.lastStored.Some? && a.now - a.lastStored.value > ttl
  }

  lemma NotifyMoves(threads: seq<Thread>, i: nat)
    requires i < |threads|
    ensures |NotifyAll(threads)| == |threads|
    ensures NotifyAll(threads)[i] == if threads[i].pc == Waiting then threads[i].(pc := Woken) else threads[i]
  {
  }

  /** Another call's step leaves this one where it is, or wakes it. */
  lemma OthersMove(s: State, a: Action, i: nat)
    requires Enabled(s, a) && i < |s.threads| && a != Proceed(i) && a != Fail(i) && a != Timeout(i)
    ensures var r := Apply(s, a);
      |r.threads| == |s.threads| &&
      (r.threads[i] == s.threads[i] || (s.threads[i].pc.Waiting? && r.threads[i] == s.threads[i].(pc := Woken)))
  {
    if a.Proceed? && s.threads[a.i].pc.Clearing? {
      hide NotifyAll;
      NotifyMoves(Goto(s, a.i, Done(s.threads[a.i].pc.result)).threads, i);
    } else if a.Proceed? && TakesLock(s.threads[a.i].pc) {
      TakingLowersRank(s, a.i);
      hide Apply, Enabled;
    } else if a.Proceed? {
      OtherLowersRank(s, a.i);
      hide Apply, Enabled;
    }
  }

  lemma CacheIsStored(s: State, a: Action)
    requires Enabled(s, a)
    ensures Apply(s, a).cache == if a.Proceed? && s.threads[a.i].pc.Storing? then Some(s.now) else s.cache
    ensures Apply(s, a).ttl == s.ttl
  {
    hide NotifyAll, Hit, CanProceed, Goto;
    if !a.Tick? {
      MovingKeepsCache(s, a.i);
    }
  }

  lemma MovingKeepsCache(s: State, i: nat)
    requires i < |s.threads|
    ensures forall pc: Pc :: Goto(s, i, pc).cache == s.cache && Goto(s, i, pc).ttl == s.ttl
  {
  }

  /** Where a non-forced call goes next. */
  function Next(s: State, pc: Pc): Pc {
    match pc
    case Start => CacheCheck
    case Woken => CacheCheck
    case CacheCheck => if Hit(s) then Done(Cached(s.cache.value)) else if s.inflight then Waiting else WantLock
    case WantLock => LockCheck
    case LockCheck => if s.runInProgress then WantStale else LockSet
    case LockSet => Running
    case WantStale => StaleCheck
    case StaleCheck => WantClear(if s.cache.Some? then Cached(s.cache.value) else Busy)
    case Running => WantStore
    case WantStore => Storing
    case Storing => Ended(Fresh)
    case Ended(result) => WantClear(result)
    case WantClear(result) => Clearing(result)
    case Clearing(result) => Done(result)
    case _ => pc
  }

  lemma GoesNext(s: State, i: nat)
    requires Enabled(s, Proceed(i)) && s.threads[i].kind == NonForced && !s.threads[i].pc.Vacuuming?
    ensures var r := Apply(s, Proceed(i));
      |r.threads| == |s.threads| && r.threads[i] == s.threads[i].(pc := Next(s, s.threads[i].pc))
  {
    if s.threads[i].pc.Clearing? {
      hide NotifyAll;
      NotifyMoves(Goto(s, i, Done(s.threads[i].pc.result)).threads, i);
    }
  }

  // ----- the history of one call -----

  /** A non-forced call against its history. */
  predicate Follows(s: State, i: nat, turned: bool, lastStored: Option<int>, answer: Option<Answer>) {
    && i < |s.threads| && s.threads[i].kind == NonForced && !s.threads[i].pc.Vacuuming?
    && s.cache == lastStored
    && (IsTurned(s.threads[i].pc) ==> turned)
    && (turned ==> IsTurned(s.threads[i].pc) || Held(s.threads[i].pc).Some?)
    && (answer.Some? <==> Held(s.threads[i].pc).Some?)
    && (answer.Some? ==> Held(s.threads[i].pc) == Some(answer.value.result))
    && (answer.Some? ==> (Stale(answer.value, s.ttl) <==> ToldStale(answer.value, s.ttl)))
  }

  lemma OwnStepFollows(s: State, i: nat, turned: bool, lastStored: Option<int>, answer: Option<Answer>)
    requires Follows(s, i, turned, lastStored, answer) && Enabled(s, Proceed(i))
    ensures var pc, pc' := s.threads[i].pc, Next(s, s.threads[i].pc);
      && (Held(pc).Some? ==> Held(pc') == Held(pc) && Decided(pc, pc').None?)
      && (Held(pc).None? ==> Decided(pc, pc') == Held(pc'))
      && (IsTurned(pc') ==> turned || (pc.LockCheck? && s.runInProgress))
      && (turned ==> IsTurned(pc') || Held(pc').Some?)
      && (pc.LockCheck? && s.runInProgress ==> pc' == WantStale)
      && (Decided(pc, pc').Some? ==>
            var a := Answer(Decided(pc, pc').value, s.now, turned, lastStored);
            Stale(a, s.ttl) <==> ToldStale(a, s.ttl))
  {
    assert !s.threads[i].pc.Done?;
    hide Enabled;
  }

  /** A non-forced call is turned away only by the ladder of a forced one. */
  lemma TurnedAwayByForced(s: State, i: nat)
    requires Reachable(s) && i < |s.threads| && s.threads[i] == Thread(NonForced, LockCheck) && s.runInProgress
    ensures exists j :: 0 <= j < |s.threads| && s.threads[j].kind == Forced && InLadder(s.threads[j].pc)
  {
    var s0, actions :| IsStart(s0) && Execute(s0, actions) == Some(s);
    var runner, owner := RunKeeps(s0, actions, s);
    assert Owns(s.threads[i]);
    var t := s.threads[runner.value];
    assert InLadder(t.pc) && KindFits(t);
    assert runner.value != i ==> !Owns(t);
  }

  /** A non-forced call finds a ladder running exactly when it faces a forced one. */
  lemma FacingIsRunning(s0: State, actions: seq<Action>, s: State, i: nat)
    requires IsStart(s0) && Execute(s0, actions) == Some(s)
    requires i < |s.threads| && s.threads[i].kind == NonForced && s.threads[i].pc.LockCheck?
    ensures s.runInProgress <==> FacesForced(s, i)
  {
    var runner, owner := RunKeeps(s0, actions, s);
    if s.runInProgress {
      TurnedAwayByForced(s, i);
    }
    if FacesForced(s, i) {
      var j :| 0 <= j < |s.threads| && s.threads[j].kind == Forced && InLadder(s.threads[j].pc);
      assert runner == Some(j);
    }
  }

  ghost predicate FollowsRun(s0: State, actions: seq<Action>, s: State, i: nat)
    requires Execute(s0, actions) == Some(s)
  {
    Follows(s, i, TurnedAway(s0, actions, i), LastStored(s0, actions), AnswerOf(s0, actions, i))
  }

  lemma StepFollows(s0: State, actions: seq<Action>, r: State, a: Action, i: nat)
    requires IsStart(s0) && Execute(s0, actions) == Some(r) && Enabled(r, a) && FollowsRun(s0, actions, r, i)
    ensures Execute(s0, actions + [a]) == Some(Apply(r, a))
    ensures FollowsRun(s0, actions + [a], Apply(r, a), i)
  {
    assert (actions + [a])[..|actions|] == actions;
    CacheIsStored(r, a);
    if a == Proceed(i) {
      OwnStepFollows(r, i, TurnedAway(s0, actions, i), LastStored(s0, actions), AnswerOf(s0, actions, i));
      GoesNext(r, i);
      if r.threads[i].pc.LockCheck? {
        FacingIsRunning(s0, actions, r, i);
      }
      hide Apply, Enabled;
    } else if a == Fail(i) || a == Timeout(i) {
      hide Enabled;
    } else {
      OthersMove(r, a, i);
      hide Apply, Enabled;
    }
  }

  lemma {:induction false} RunFollows(s0: State, actions: seq<Action>, s: State, i: nat)
    requires IsStart(s0) && Execute(s0, actions) == Some(s) && i < |s.threads| && s.threads[i].kind == NonForced
    ensures FollowsRun(s0, actions, s, i)
  {
    if actions != [] {
      var front, last := actions[..|actions| - 1], actions[|actions| - 1];
      var r := Execute(s0, front).value;
      assert actions == front + [last];
      hide Apply, Enabled, FollowsRun;
      StepKeepsKinds(r, last);
      RunFollows(s0, front, r, i);
      StepFollows(s0, front, r, last, i);
    }
  }

  /** Over every run, the answer a finished non-forced call was given was older than the TTL, at the moment it was
      decided, if and only if the call had found the ladder of a forced one running and the last result that any
      ladder had stored by then was older than the TTL. */
  lemma StaleAnswersExactly(s0: State, actions: seq<Action>, s: State, i: nat)
    requires IsStart(s0) && Execute(s0, actions) == Some(s)
    requires i < |s.threads| && s.threads[i].kind == NonForced && s.threads[i].pc.Done?
    ensures AnswerOf(s0, actions, i).Some?
    ensures var a := AnswerOf(s0, actions, i).value;
      && s.threads[i].pc == Done(a.result)
      && (a.result.Cached? && a.now - a.result.at > s.ttl <==>
            a.turnedAway && a.lastStored.Some? && a.now - a.lastStored.value > s.ttl)
  {
    RunFollows(s0, actions, s, i);
  }

  // ----- what a call's own ladder gave -----

  ghost predicate HasStored(s0: State, actions: seq<Action>, i: nat)
    requires Execute(s0, actions).Some?
  {
    && actions != []
    && var front, last := actions[..|actions| - 1], actions[|actions| - 1];
    || HasStored(s0, front, i)
    || (last == Proceed(i) && Execute(s0, front).value.threads[i].pc.Storing?)
  }

  /** A call that has its answer keeps it; the only step that gives a fresh result is that of storing it. */
  lemma OwnStepHolds(s: State, i: nat)
    requires Enabled(s, Proceed(i))
    ensures var r := Apply(s, Proceed(i));
      && |r.threads| == |s.threads|
      && var before, after := Held(s.threads[i].pc), Held(r.threads[i].pc);
        && (before.Some? ==> after == before)
        && (before.None? ==> after != Some(Raised) && (after == Some(Fresh) <==> s.threads[i].pc.Storing?))
  {
    if s.threads[i].pc.Clearing? {
      hide NotifyAll;
      NotifyMoves(Goto(s, i, Done(s.threads[i].pc.result)).threads, i);
    }
  }

  ghost predicate HoldsItsOwn(s0: State, actions: seq<Action>, s: State, i: nat)
    requires Execute(s0, actions) == Some(s)
  {
    && i < |s.threads|
    && (Held(s.threads[i].pc) == Some(Raised) <==> Fail(i) in actions)
    && (Held(s.threads[i].pc) == Some(Fresh) <==> HasStored(s0, actions, i))
  }

  lemma StepHolds(s0: State, actions: seq<Action>, r: State, a: Action, i: nat)
    requires Execute(s0, actions) == Some(r) && Enabled(r, a) && HoldsItsOwn(s0, actions, r, i)
    ensures Execute(s0, actions + [a]) == Some(Apply(r, a))
    ensures HoldsItsOwn(s0, actions + [a], Apply(r, a), i)
  {
    assert (actions + [a])[..|actions|] == actions;
    if a == Proceed(i) {
      OwnStepHolds(r, i);
      hide Apply, Enabled;
    } else if a == Fail(i) || a == Timeout(i) {
      hide CanProceed;
    } else {
      OthersMove(r, a, i);
      hide Apply, Enabled;
    }
  }

  /** In every run a call, of whatever kind, is answered with an error if and only if its own ladder raised, and with a
      fresh result if and only if its own ladder stored one. */
  lemma {:induction false} OwnLadderTells(s0: State, actions: seq<Action>, s: State, i: nat)
    requires IsStart(s0) && Execute(s0, actions) == Some(s) && i < |s.threads|
    ensures Held(s.threads[i].pc) == Some(Raised) <==> Fail(i) in actions
    ensures Held(s.threads[i].pc) == Some(Fresh) <==> HasStored(s0, actions, i)
  {
    if actions != [] {
      var front, last := actions[..|actions| - 1], actions[|actions| - 1];
      var r := Execute(s0, front).value;
      assert actions == front + [last];
      hide Apply, Enabled, HasStored;
      StepKeepsKinds(r, last);
      OwnLadderTells(s0, front, r, i);
      StepHolds(s0, front, r, last, i);
    }
  }

  /** A forced call and a VACUUM are refused if and only if some call is inside its ladder at that moment. */
  lemma RefusedExactly(s: State, i: nat)
    requires Reachable(s) && i < |s.threads| && s.threads[i].pc == LockCheck && s.threads[i].kind != NonForced
    ensures Enabled(s, Proceed(i)) && i < |Apply(s, Proceed(i)).threads|
    ensures Apply(s, Proceed(i)).threads[i].pc ==
      if exists j :: 0 <= j < |s.threads| && InLadder(s.threads[j].pc) then Done(Busy)
      else if s.threads[i].kind == Vacuum then Vacuuming else LockSet
  {
    var s0, actions :| IsStart(s0) && Execute(s0, actions) == Some(s);
    var runner, owner := RunKeeps(s0, actions, s);
    if s.runInProgress {
      assert InLadder(s.threads[runner.value].pc);
    }
  }

  // ----- a stale answer -----

  lemma OneMore(s0: State, actions: seq<Action>, s: State, a: Action)
    requires Execute(s0, actions) == Some(s) && Enabled(s, a)
    ensures Execute(s0, actions + [a]) == Some(Apply(s, a))
  {
    assert (actions + [a])[..|actions|] == actions;
  }

  lemma UpdateTwice(threads: seq<Thread>, i: nat)
    requires i < |threads|
    ensures forall t: Thread, u: Thread {:trigger threads[i := t][i := u]} :: threads[i := t][i := u] == threads[i := u]
  {
  }

  /** A forced call with nobody in its way gets its ladder started. */
  lemma ForcedStarts(s0: State, actions: seq<Action>, s: State, i: nat) returns (longer: seq<Action>)
    requires Execute(s0, actions) == Some(s) && i < |s.threads| && s.threads[i] == Thread(Forced, Start)
    requires s.lock.None? && !s.runInProgress
    ensures Execute(s0, longer) == Some(Goto(s, i, Running).(runInProgress := true))
  {
    UpdateTwice(s.threads, i);
    var s1 := Goto(s, i, LockCheck).(lock := Some(i));
    var s2 := Goto(s, i, LockSet).(lock := Some(i));
    OneMore(s0, actions, s, Proceed(i));
    OneMore(s0, actions + [Proceed(i)], s1, Proceed(i));
    OneMore(s0, actions + [Proceed(i)] + [Proceed(i)], s2, Proceed(i));
    longer := actions + [Proceed(i)] + [Proceed(i)] + [Proceed(i)];
  }

  /** It stores its result and ends. */
  lemma ForcedEnds(s0: State, actions: seq<Action>, s: State, i: nat) returns (longer: seq<Action>)
    requires Execute(s0, actions) == Some(s) && i < |s.threads| && s.threads[i] == Thread(Forced, Running)
    requires s.cond.None?
    ensures Execute(s0, longer) == Some(Goto(s, i, Done(Fresh)).(runInProgress := false, cache := Some(s.now)))
  {
    UpdateTwice(s.threads, i);
    var s1 := Goto(s, i, WantStore);
    var s2 := Goto(s, i, Storing).(cond := Some(i));
    var s3 := Goto(s, i, Ended(Fresh)).(cache := Some(s.now));
    var one := actions + [Proceed(i)];
    OneMore(s0, actions, s, Proceed(i));
    OneMore(s0, one, s1, Proceed(i));
    OneMore(s0, one + [Proceed(i)], s2, Proceed(i));
    OneMore(s0, one + [Proceed(i)] + [Proceed(i)], s3, Proceed(i));
    longer := one + [Proceed(i)] + [Proceed(i)] + [Proceed(i)];
  }

  /** A non-forced call that finds an old result and a ladder running comes to look at the old result. */
  lemma ComesToLook(s0: State, actions: seq<Action>, s: State, i: nat) returns (longer: seq<Action>)
    requires Execute(s0, actions) == Some(s) && i < |s.threads| && s.threads[i] == Thread(NonForced, Start)
    requires s.lock.None? && s.cond.None? && s.runInProgress && !s.inflight && !Hit(s)
    ensures Execute(s0, longer)
         == Some(Goto(s, i, StaleCheck).(inflight := true, lock := Some(i), cond := Some(i)))
  {
    UpdateTwice(s.threads, i);
    var s1 := Goto(s, i, CacheCheck).(cond := Some(i));
    var s2 := Goto(s, i, WantLock).(inflight := true);
    var s3 := Goto(s, i, LockCheck).(inflight := true, lock := Some(i));
    var s4 := Goto(s, i, WantStale).(inflight := true, lock := Some(i));
    var two := actions + [Proceed(i)] + [Proceed(i)];
    OneMore(s0, actions, s, Proceed(i));
    OneMore(s0, actions + [Proceed(i)], s1, Proceed(i));
    OneMore(s0, two, s2, Proceed(i));
    OneMore(s0, two + [Proceed(i)], s3, Proceed(i));
    OneMore(s0, two + [Proceed(i)] + [Proceed(i)], s4, Proceed(i));
    longer := two + [Proceed(i)] + [Proceed(i)] + [Proceed(i)];
  }

  /** The answer of a call that looks. */
  lemma AnsweredNow(s0: State, actions: seq<Action>, s: State, i: nat)
    requires Execute(s0, actions) == Some(s) && i < |s.threads|
    requires s.threads[i] == Thread(NonForced, StaleCheck) && s.cache.Some?
    ensures var r := Apply(s, Proceed(i));
      Execute(s0, actions + [Proceed(i)]) == Some(r) && r.now == s.now && r.ttl == s.ttl
    ensures AnswerOf(s0, actions + [Proceed(i)], i)
         == Some(Answer(Cached(s.cache.value), s.now, TurnedAway(s0, actions, i), LastStored(s0, actions)))
  {
    OneMore(s0, actions, s, Proceed(i));
    assert (actions + [Proceed(i)])[..|actions|] == actions;
  }

  /** A forced call stores a result, the TTL passes, a second forced call starts its ladder, and a non-forced call that
      comes now is handed the first result: eleven ticks old where ten are allowed. */
  lemma AnsweredTooOld() returns (s0: State, actions: seq<Action>)
    ensures IsStart(s0) && s0.ttl == 10 && |s0.threads| == 3 && s0.threads[2].kind == NonForced
    ensures Execute(s0, actions).Some? && AnswerOf(s0, actions, 2).Some?
    ensures AnswerOf(s0, actions, 2).value.result == Cached(0) && AnswerOf(s0, actions, 2).value.now == 11
  {
    hide Execute, Apply, AnswerOf;
    var threads := [Thread(Forced, Start), Thread(Forced, Start), Thread(NonForced, Start)];
    s0 := State(threads, None, None, false, false, None, 0, 10);
    actions := NoStepsYet(s0);
    actions := ForcedStarts(s0, actions, s0, 0);
    var s1 := Goto(s0, 0, Running).(runInProgress := true);
    actions := ForcedEnds(s0, actions, s1, 0);
    var s2 := Goto(s1, 0, Done(Fresh)).(runInProgress := false, cache := Some(0));
    actions := TimePasses(s0, actions, s2, 11);
    var s3 := s2.(now := 11);
    actions := ForcedStarts(s0, actions, s3, 1);
    var s4 := Goto(s3, 1, Running).(runInProgress := true);
    assert s4.threads[2] == Thread(NonForced, Start);
    actions := ComesToLook(s0, actions, s4, 2);
    AnsweredNow(s0, actions, Goto(s4, 2, StaleCheck).(inflight := true, lock := Some(2), cond := Some(2)), 2);
    actions := actions + [Proceed(2)];
  }

  lemma NoStepsYet(s0: State) returns (actions: seq<Action>)
    ensures Execute(s0, actions) == Some(s0)
  {
    actions := [];
  }

  lemma TimePasses(s0: State, actions: seq<Action>, s: State, ticks: nat) returns (longer: seq<Action>)
    requires Execute(s0, actions) == Some(s)
    ensures Execute(s0, longer) == Some(s.(now := s.now + ticks))
  {
    OneMore(s0, actions, s, Tick(ticks));
    longer := actions + [Tick(ticks)];
  }
}
