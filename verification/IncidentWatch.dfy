/** Which open incidents are being rechecked: told from the history of the process, for every run of it. */
module IncidentWatch {
  import opened Options
  import opened IncidentLifecycle

  /** What the history says about the recheck loop of one incident. */
  datatype Story =
    | LeftOpen     // open when the process started, and no trigger or resume has got through to it
    | Opened       // its own trigger has inserted it and is on its way to the loop
    | TriggerDied  // its own trigger raised before it reached the loop
    | Watched      // the last trigger or resume to get through started its loop, or found it alive
    | MetAnother   // the last trigger or resume to get through found a loop alive for another incident
    | LoopDied     // its loop raised: at its start, or in the closing transaction

  /** What one step adds. */
  function Tell(s: State, a: Action, k: nat, before: Story): Story
    requires Enabled(s, a)
  {
    var t := s.threads[a.i];
    if a.Proceed? && t.pc == StartLoop(k) then
      if LoopAlive(s) && s.threads[s.loopThread.value].kind != Loop(k) then MetAnother else Watched
    else if |s.incidents| <= k < |Apply(s, a).incidents| then Opened
    else if a.Abort? && t.pc == StartLoop(k) && before == Opened then TriggerDied
    else if a.Abort? && t.kind == Loop(k) then LoopDied
    else before
  }

  function StoryOf(s0: State, actions: seq<Action>, k: nat): Story
    requires Execute(s0, actions).Some?
  {
    if actions == [] then LeftOpen
    else
      var front, last := actions[..|actions| - 1], actions[|actions| - 1];
      Tell(Execute(s0, front).value, last, k, StoryOf(s0, front, k))
  }

  /** A trigger or a resume of `k` is on its way. */
  ghost predicate Pending(s: State, k: nat) {
    exists i :: 0 <= i < |s.threads| &&
      (s.threads[i].pc == Attach(k) || s.threads[i].pc == StartLoop(k) || s.threads[i].pc == WantLock(k))
  }

  predicate LoopPc(pc: Pc, watched: nat) {
    pc == Start || pc == Watching || pc == Close(watched) || pc == Done || (pc.AnnounceClose? && pc.inc == watched)
  }

  /** Loops stay with the incident they were started for, and only leave it resolved or by raising. */
  predicate Fits(incidents: seq<Incident>, t: Thread) {
    && (t.kind.Loop? ==>
          && t.kind.watched < |incidents| && LoopPc(t.pc, t.kind.watched)
          && (t.pc.AnnounceClose? ==> incidents[t.kind.watched].resolved))
    && (t.pc.StartLoop? || t.pc.Attach? || t.pc.WantLock? ==> t.pc.inc < |incidents|)
  }

  ghost predicate AllFit(s: State) {
    forall i: nat :: i < |s.threads| ==> Fits(s.incidents, s.threads[i])
  }

  predicate WatchedByLoopThread(s: State, k: nat) {
    LoopAlive(s) && s.threads[s.loopThread.value].kind == Loop(k)
  }

  ghost predicate Told(s: State, k: nat, story: Story) {
    k < |s.incidents| && !s.incidents[k].resolved ==>
      && (WatchedByLoopThread(s, k) <==> story == Watched)
      && (story == Opened ==> s.lock.Some? && s.lock.value < |s.threads| && s.threads[s.lock.value].pc == StartLoop(k))
  }

  lemma OnlyLoopThread(s: State, k: nat)
    requires LockInv(s)
    ensures Rechecked(s, k) <==> WatchedByLoopThread(s, k)
  {
    if WatchedByLoopThread(s, k) {
      assert s.threads[s.loopThread.value].pc != Done;
    }
  }

  predicate Grown(a: seq<Incident>, b: seq<Incident>) {
    |a| <= |b| && forall k :: 0 <= k < |a| && a[k].resolved ==> b[k].resolved
  }

  lemma StartFits(s: State, i: nat)
    requires i < |s.threads| && Fits(s.incidents, s.threads[i]) && s.threads[i].pc.Start? && Enabled(s, Proceed(i))
    ensures var r := Apply(s, Proceed(i)); Fits(r.incidents, r.threads[i])
  {
  }

  /** What a step leaves alone. */
  lemma StepFrame(s: State, a: Action)
    requires Enabled(s, a)
    ensures var r := Apply(s, a);
      && Grown(s.incidents, r.incidents) && |s.threads| <= |r.threads| <= |s.threads| + 1
      && r.threads[a.i].kind == s.threads[a.i].kind
      && (forall j :: 0 <= j < |s.threads| && j != a.i ==> r.threads[j] == s.threads[j])
      && (|r.threads| > |s.threads| ==>
            && a.Proceed? && s.threads[a.i].pc.StartLoop?
            && r.threads[|s.threads|] == Thread(Loop(s.threads[a.i].pc.inc), Start))
  {
  }

  lemma MovedFits(s: State, a: Action)
    requires Enabled(s, a) && Fits(s.incidents, s.threads[a.i])
    requires s.threads[a.i].pc.Watching? ==> s.threads[a.i].kind.Loop?
    ensures var r := Apply(s, a); Fits(r.incidents, r.threads[a.i])
  {
    if a.Proceed? && s.threads[a.i].pc.Start? {
      StartFits(s, a.i);
    }
  }

  lemma StepFits(s: State, a: Action)
    requires LockInv(s) && AllFit(s) && Enabled(s, a)
    ensures var r := Apply(s, a);
      && Fits(r.incidents, r.threads[a.i])
      && (forall j :: |s.threads| <= j < |r.threads| ==> Fits(r.incidents, r.threads[j]))
  {
    assert Fits(s.incidents, s.threads[a.i]);
    assert s.threads[a.i].pc.Watching? ==> s.threads[a.i].kind.Loop?;
    hide LockInv, AllFit, Apply, Enabled;
    StepFrame(s, a);
    MovedFits(s, a);
  }

  lemma LoopStepKeeps(s: State, a: Action)
    requires LockInv(s) && AllFit(s) && Enabled(s, a)
    ensures AllFit(Apply(s, a))
  {
    StepFrame(s, a);
    StepFits(s, a);
    hide Apply, LockInv, Enabled;
    var r := Apply(s, a);
    forall j: nat | j < |r.threads| ensures Fits(r.incidents, r.threads[j]) {
      if j < |s.threads| && j != a.i {
        assert Fits(s.incidents, s.threads[j]);
      }
    }
  }

  lemma StartingTells(s: State, i: nat, k: nat, story: Story)
    requires LockInv(s) && AllFit(s) && Told(s, k, story) && Enabled(s, Proceed(i)) && s.threads[i].pc.StartLoop?
    ensures Told(Apply(s, Proceed(i)), k, Tell(s, Proceed(i), k, story))
  {
    assert HoldsLock(s.threads[i].pc) && !s.threads[i].kind.Loop? by {
      assert Fits(s.incidents, s.threads[i]);
    }
    assert LoopAlive(s) ==> s.loopThread.value != i;
    hide AllFit;
  }

  lemma InsertingTells(s: State, i: nat, k: nat, story: Story)
    requires LockInv(s) && AllFit(s) && Told(s, k, story) && Enabled(s, Proceed(i)) && s.threads[i].pc.Insert?
    ensures Told(Apply(s, Proceed(i)), k, Tell(s, Proceed(i), k, story))
  {
    assert s.lock == Some(i) && OpenIncident(s.incidents).None?;
    assert forall j: nat :: j < |s.threads| && s.threads[j].kind.Loop? ==> s.threads[j].kind != Loop(|s.incidents|) by {
      forall j: nat | j < |s.threads| && s.threads[j].kind.Loop? ensures s.threads[j].kind != Loop(|s.incidents|) {
        assert Fits(s.incidents, s.threads[j]);
      }
    }
    hide AllFit;
  }

  /** A step that leaves the loop thread as it was and does not touch a pending start of `k`. */
  lemma QuietTells(s: State, s': State, i: nat, k: nat, story: Story)
    requires Told(s, k, story) && i < |s.threads| == |s'.threads| && s'.loopThread == s.loopThread
    requires forall j :: 0 <= j < |s.threads| && j != i ==> s'.threads[j] == s.threads[j]
    requires s'.threads[i].kind == s.threads[i].kind
    requires s.loopThread == Some(i) ==> (s'.threads[i].pc == Done <==> s.threads[i].pc == Done)
    requires s.lock == Some(i) ==> s.threads[i].pc != StartLoop(k)
    requires s.lock.Some? && s.lock != Some(i) ==> s'.lock == s.lock
    requires |s'.incidents| == |s.incidents|
    requires k < |s.incidents| && s.incidents[k].resolved ==> s'.incidents[k].resolved
    ensures Told(s', k, story)
  {
  }

  /** Facts about one thread that its steps rely on. */
  ghost predicate Settled(s: State, i: nat) {
    && i < |s.threads| && Fits(s.incidents, s.threads[i])
    && (HoldsLock(s.threads[i].pc) <==> s.lock == Some(i))
    && (s.threads[i].kind.Loop? && s.threads[i].pc != Done ==> s.loopThread == Some(i))
    && (s.loopThread == Some(i) ==> s.threads[i].kind.Loop?)
    && !s.threads[i].pc.Reread? && !s.threads[i].pc.InsertPlain?
    && (s.loopThread.Some? ==> s.loopThread.value < |s.threads| && s.threads[s.loopThread.value].kind.Loop?)
  }

  lemma RaisingTells(s: State, i: nat, k: nat, story: Story)
    requires Settled(s, i) && Told(s, k, story) && Enabled(s, Abort(i))
    ensures Told(Apply(s, Abort(i)), k, Tell(s, Abort(i), k, story))
  {
    if s.threads[i].kind != Loop(k) && !s.threads[i].pc.StartLoop? && s.loopThread != Some(i) {
      QuietTells(s, Apply(s, Abort(i)), i, k, story);
    }
  }

  lemma ProceedingTells(s: State, i: nat, k: nat, story: Story)
    requires Settled(s, i) && Told(s, k, story) && Enabled(s, Proceed(i))
    requires !s.threads[i].pc.StartLoop? && !s.threads[i].pc.Insert?
    ensures Told(Apply(s, Proceed(i)), k, story)
  {
    var r := Apply(s, Proceed(i));
    if s.loopThread == Some(i) && r.threads[i].pc == Done {
      assert s.incidents[s.threads[i].kind.watched].resolved;
    } else {
      hide Told;
      QuietTells(s, r, i, k, story);
    }
  }

  lemma LosingTells(s: State, i: nat, k: nat, story: Story)
    requires Settled(s, i) && Told(s, k, story) && Enabled(s, Lose(i))
    ensures Told(Apply(s, Lose(i)), k, story)
  {
    if s.loopThread == Some(i) {
      assert s.incidents[s.threads[i].kind.watched].resolved;
    } else {
      hide Told;
      QuietTells(s, Apply(s, Lose(i)), i, k, story);
    }
  }

  lemma MovingTells(s: State, a: Action, k: nat, story: Story)
    requires LockInv(s) && AllFit(s) && Told(s, k, story) && Enabled(s, a)
    requires a.Proceed? ==> !s.threads[a.i].pc.StartLoop? && !s.threads[a.i].pc.Insert?
    ensures Told(Apply(s, a), k, Tell(s, a, k, story))
  {
    assert Settled(s, a.i);
    hide LockInv, AllFit, Told;
    match a
    case Abort(i) => RaisingTells(s, i, k, story);
    case Proceed(i) => ProceedingTells(s, i, k, story);
    case Finish(i) => QuietTells(s, Apply(s, a), i, k, story);
    case Lose(i) => LosingTells(s, i, k, story);
  }

  lemma TellingKeeps(s: State, a: Action, k: nat, story: Story)
    requires LockInv(s) && AllFit(s) && Told(s, k, story) && Enabled(s, a)
    ensures Told(Apply(s, a), k, Tell(s, a, k, story))
  {
    hide LockInv, AllFit, Told, Tell, Apply;
    if a.Proceed? && s.threads[a.i].pc.StartLoop? {
      StartingTells(s, a.i, k, story);
    } else if a.Proceed? && s.threads[a.i].pc.Insert? {
      InsertingTells(s, a.i, k, story);
    } else {
      MovingTells(s, a, k, story);
    }
  }

  lemma {:induction false} RunTells(s0: State, actions: seq<Action>, s: State, k: nat)
    requires IsStart(s0) && Execute(s0, actions) == Some(s)
    ensures LockInv(s) && AllFit(s) && Told(s, k, StoryOf(s0, actions, k))
  {
    RunKeeps(s0, actions, s);
    if actions != [] {
      var front, last := actions[..|actions| - 1], actions[|actions| - 1];
      hide Apply, Enabled, AllFit, LockInv, Told, Tell;
      var r := Execute(s0, front).value;
      RunKeeps(s0, front, r);
      RunTells(s0, front, r, k);
      LoopStepKeeps(r, last);
      TellingKeeps(r, last, k, StoryOf(s0, front, k));
    }
  }

  /** Why an open incident may have nobody rechecking it. */
  predicate Lost(story: Story) {
    story.LeftOpen? || story.TriggerDied? || story.MetAnother? || story.LoopDied?
  }

  /** In every interleaving, an open incident is rechecked exactly when the last trigger or resume to get through to
      it started its loop or found it alive, and that loop has not raised. When no trigger or resume is on the way, it
      is left without a live loop exactly when the history says one of four things: the process found it open and
      nobody got through to it, its own trigger raised, the last one to get through met a loop for another incident,
      or its loop raised. */
  lemma UnwatchedExactly(s0: State, actions: seq<Action>, s: State, k: nat)
    requires IsStart(s0) && Execute(s0, actions) == Some(s) && k < |s.incidents| && !s.incidents[k].resolved
    ensures Rechecked(s, k) <==> StoryOf(s0, actions, k) == Watched
    ensures !Pending(s, k) ==> (!Rechecked(s, k) <==> Lost(StoryOf(s0, actions, k)))
  {
    RunTells(s0, actions, s, k);
    OnlyLoopThread(s, k);
    if StoryOf(s0, actions, k) == Opened {
      assert s.threads[s.lock.value].pc == StartLoop(k);
    }
    hide LockInv, AllFit, Execute, StoryOf;
  }

  /** Meeting no other loop is not enough: one trigger, whose loop runs to its end and then fails to write the close,
      leaves its incident open and without a loop. */
  lemma LoopCanDie() returns (s: State)
    ensures Reachable(s) && |s.incidents| == 1 && !s.incidents[0].resolved && !Rechecked(s, 0) && !Pending(s, 0)
    ensures s.threads == [Thread(Trigger, Done), Thread(Loop(0), Done)]
  {
    hide Execute, Apply;
    var s0 := State([], [Thread(Trigger, Start)], None, None, []);
    NothingDone(s0);
    var actions := TriggerRuns(s0, [], s0, 0);
    var s1 := Triggered(s0, 0);
    assert s1.threads == [Thread(Trigger, Done), Thread(Loop(0), Start)];
    assert s1.incidents == [Incident(false, false, None)];
    s := Goto(s1, 1, Done);
    LoopDies(s1, 1);
    OneMore(s0, actions, s1, Proceed(1));
    OneMore(s0, actions + [Proceed(1)], Goto(s1, 1, Watching), Finish(1));
    OneMore(s0, actions + [Proceed(1)] + [Finish(1)], Goto(s1, 1, Close(0)), Abort(1));
  }

  /** A loop's way from its start to a closing transaction that raises. */
  lemma LoopDies(s: State, i: nat)
    requires i < |s.threads| && s.threads[i] == Thread(Loop(0), Start)
    ensures Enabled(s, Proceed(i)) && Apply(s, Proceed(i)) == Goto(s, i, Watching)
    ensures Enabled(Goto(s, i, Watching), Finish(i)) && Apply(Goto(s, i, Watching), Finish(i)) == Goto(s, i, Close(0))
    ensures Enabled(Goto(s, i, Close(0)), Abort(i)) && Apply(Goto(s, i, Close(0)), Abort(i)) == Goto(s, i, Done)
  {
  }
}
