/** Opening and closing incidents in one process: `trigger`, `resume_after_startup`, the recheck loop's
    end, `close_open_incident` and `mark_false_alarm`, interleaved at their transactions. Only
    `trigger` and the resume take the engine lock; the closers do not. */
module IncidentLifecycle {
  import opened Options

  /** A row of the incidents table. `closer` remembers which call of this process wrote `resolved`. */
  datatype Incident = Incident(resolved: bool, falseAlarm: bool, closer: Option<nat>)

  datatype Kind =
    | Trigger
    | Resume
    | Dashboard
    | Marker(target: Option<nat>)
    | Loop(watched: nat)

  datatype Pc =
    | Start
    | ReadOpen               // holds the lock
    | Insert                 // holds the lock, saw no open incident
    | Reread                 // holds the lock, the guarded insert inserted nothing
    | InsertPlain            // holds the lock, still none open
    | Attach(inc: nat)       // holds the lock
    | StartLoop(inc: nat)    // holds the lock
    | WantLock(inc: nat)     // the resume has read an open incident
    | Watching               // a recheck loop
    | Close(inc: nat)        // about to run the closing transaction
    | AnnounceMark(inc: nat, won: bool)
    | AnnounceClose(inc: nat, won: bool)
    | Done

  datatype Thread = Thread(kind: Kind, pc: Pc)

  datatype Event = FaultClosed(inc: nat) | FalseAlarmMarked(inc: nat)

  datatype State = State(
    incidents: seq<Incident>,
    threads: seq<Thread>,
    lock: Option<nat>,
    loopThread: Option<nat>,
    events: seq<Event>)

  /** SELECT ... WHERE resolved IS NULL ORDER BY id DESC LIMIT 1. */
  function OpenIncident(incidents: seq<Incident>): (r: Option<nat>)
    ensures r.Some? ==> r.value < |incidents| && !incidents[r.value].resolved
    ensures r.None? ==> forall k :: 0 <= k < |incidents| ==> incidents[k].resolved
  {
    if incidents == [] then None
    else if !incidents[|incidents| - 1].resolved then Some(|incidents| - 1)
    else OpenIncident(incidents[..|incidents| - 1])
  }

  predicate AtMostOneOpen(incidents: seq<Incident>) {
    forall j, k :: 0 <= j < |incidents| && 0 <= k < |incidents|
      ==> incidents[j].resolved || incidents[k].resolved || j == k
  }

  /** A fresh process over a table that an earlier one left, and any calls still to come. */
  predicate IsStart(s: State) {
    && AtMostOneOpen(s.incidents)
    && (forall k :: 0 <= k < |s.incidents| ==> s.incidents[k].closer.None?)
    && (forall i :: 0 <= i < |s.threads| ==> s.threads[i].pc == Start && !s.threads[i].kind.Loop?)
    && s.lock.None? && s.loopThread.None? && s.events == []
  }

  function Goto(s: State, i: nat, pc: Pc): State
    requires i < |s.threads|
  {
    s.(threads := s.threads[i := s.threads[i].(pc := pc)])
  }

  predicate LoopAlive(s: State) {
    s.loopThread.Some? && s.loopThread.value < |s.threads| && s.threads[s.loopThread.value].pc != Done
  }

  /** A call moves on, raises (a transaction aborts, a thread cannot be started, a recheck loop cannot read its
      incident), a recheck loop leaves its loop, or queueing a webhook event fails and the error is swallowed. */
  datatype Action = Proceed(i: nat) | Abort(i: nat) | Finish(i: nat) | Lose(i: nat)

  predicate Enabled(s: State, a: Action) {
    && a.i < |s.threads|
    && var t := s.threads[a.i];
      match a
      case Abort(_) => t.pc.Close? || HoldsLock(t.pc) || (t.pc.Start? && t.kind.Loop?)
      case Finish(_) => t.pc.Watching?
      case Lose(_) => t.pc.AnnounceMark? || (t.pc.AnnounceClose? && t.pc.won)
      case Proceed(_) => t.pc != Done && (t.pc.WantLock? || (t.pc.Start? && t.kind.Trigger?) ==> s.lock.None?)
  }

  /** The closing transaction; `resolved` is written only where it is null. */
  function CloseRow(row: Incident, i: nat, mark: bool): Incident {
    var marked := if mark then row.(falseAlarm := true) else row;
    if row.resolved then marked else marked.(resolved := true, closer := Some(i))
  }

  function Apply(s: State, a: Action): State
    requires Enabled(s, a)
  {
    var i := a.i;
    var t := s.threads[i];
    match a
    case Abort(_) => if HoldsLock(t.pc) then Goto(s, i, Done).(lock := None) else Goto(s, i, Done)
    case Finish(_) => if t.kind.Loop? then Goto(s, i, Close(t.kind.watched)) else s
    case Lose(_) => Goto(s, i, if t.pc.AnnounceMark? then AnnounceClose(t.pc.inc, t.pc.won) else Done)
    case Proceed(_) =>
      match t.pc
      case Start =>
        (match t.kind
         case Trigger => Goto(s, i, ReadOpen).(lock := Some(i))
         case Resume =>
           var open := OpenIncident(s.incidents);
           Goto(s, i, if open.Some? then WantLock(open.value) else Done)
         case Dashboard =>
           var open := OpenIncident(s.incidents);
           Goto(s, i, if open.Some? then Close(open.value) else Done)
         case Marker(target) =>
           var inc := if target.Some? then target else OpenIncident(s.incidents);
           Goto(s, i, if inc.Some? && inc.value < |s.incidents| then Close(inc.value) else Done)
         case Loop(_) => Goto(s, i, Watching))
      case ReadOpen =>
        var open := OpenIncident(s.incidents);
        Goto(s, i, if open.Some? then Attach(open.value) else Insert)
      case Insert =>
        if OpenIncident(s.incidents).None? then InsertRow(s, i) else Goto(s, i, Reread)
      case Reread =>
        var open := OpenIncident(s.incidents);
        Goto(s, i, if open.Some? then Attach(open.value) else InsertPlain)
      case InsertPlain => InsertRow(s, i)
      case Attach(inc) => Goto(s, i, StartLoop(inc))
      case WantLock(inc) => Goto(s, i, StartLoop(inc)).(lock := Some(i))
      case StartLoop(inc) =>
        var r := Goto(s, i, Done).(lock := None);
        if LoopAlive(s) then r
        else r.(threads := r.threads + [Thread(Loop(inc), Start)], loopThread := Some(|s.threads|))
      case Watching =>
        if t.kind.Loop? && t.kind.watched < |s.incidents| && s.incidents[t.kind.watched].resolved then Goto(s, i, Done)
        else s
      case Close(inc) =>
        if inc >= |s.incidents| then Goto(s, i, Done)
        else
          var won := !s.incidents[inc].resolved;
          var r := s.(incidents := s.incidents[inc := CloseRow(s.incidents[inc], i, t.kind.Marker?)]);
          Goto(r, i, if t.kind.Marker? then AnnounceMark(inc, won) else AnnounceClose(inc, won))
      case AnnounceMark(inc, won) =>
        Goto(s, i, AnnounceClose(inc, won)).(events := s.events + [FalseAlarmMarked(inc)])
      case AnnounceClose(inc, won) =>
        Goto(s, i, Done).(events := if won then s.events + [FaultClosed(inc)] else s.events)
      case Done => s
  }

  function InsertRow(s: State, i: nat): State
    requires i < |s.threads|
  {
    Goto(s, i, StartLoop(|s.incidents|)).(incidents := s.incidents + [Incident(false, false, None)])
  }

  function Execute(s: State, actions: seq<Action>): Option<State> {
    if actions == [] then Some(s)
    else
      match Execute(s, actions[..|actions| - 1])
      case None => None
      case Some(r) => if Enabled(r, actions[|actions| - 1]) then Some(Apply(r, actions[|actions| - 1])) else None
  }

  ghost predicate Reachable(s: State) {
    exists s0, actions :: IsStart(s0) && Execute(s0, actions) == Some(s)
  }

  // ----- invariants -----

  predicate HoldsLock(pc: Pc) {
    pc.ReadOpen? || pc.Insert? || pc.Reread? || pc.InsertPlain? || pc.Attach? || pc.StartLoop?
  }

  /** Locks and loops: the holder of the lock is unique, the fallback insert is never reached, and every
      loop but the one `loop_thread` names is dead. */
  ghost predicate LockInv(s: State) {
    && (forall i: nat :: i < |s.threads| ==> (HoldsLock(s.threads[i].pc) <==> s.lock == Some(i)))
    && (s.lock.Some? ==> s.lock.value < |s.threads|)
    && (forall i: nat :: i < |s.threads| ==> !s.threads[i].pc.Reread? && !s.threads[i].pc.InsertPlain?)
    && (forall i: nat :: i < |s.threads| && s.threads[i].pc.Insert? ==> OpenIncident(s.incidents).None?)
    && AtMostOneOpen(s.incidents)
    && (s.loopThread.Some? ==> s.loopThread.value < |s.threads| && s.threads[s.loopThread.value].kind.Loop?)
    && (forall i: nat :: i < |s.threads| && s.threads[i].kind.Loop? && s.threads[i].pc != Done ==>
          s.loopThread == Some(i))
    && (forall i: nat :: i < |s.threads| && s.threads[i].pc.Watching? ==> s.threads[i].kind.Loop?)
  }

  lemma OpenStaysNone(a: seq<Incident>, b: seq<Incident>)
    requires |a| == |b| && OpenIncident(a).None? && forall k :: 0 <= k < |a| && a[k].resolved ==> b[k].resolved
    ensures OpenIncident(b).None?
  {
  }

  predicate Handover(i: nat, before: bool, after: bool, holder: Option<nat>, holder': Option<nat>) {
    if after then holder' == Some(i) && (holder.None? || before)
    else if before then holder'.None?
    else holder' == holder
  }

  /** A step of thread `i` that starts no new thread. */
  lemma MoveKeeps(s: State, s': State, i: nat)
    requires LockInv(s) && i < |s.threads| == |s'.threads|
    requires forall j :: 0 <= j < |s.threads| && j != i ==> s'.threads[j] == s.threads[j]
    requires s'.threads[i].kind == s.threads[i].kind && s'.loopThread == s.loopThread
    requires Handover(i, HoldsLock(s.threads[i].pc), HoldsLock(s'.threads[i].pc), s.lock, s'.lock)
    requires s.threads[i].pc != Done
    requires !s'.threads[i].pc.Reread? && !s'.threads[i].pc.InsertPlain?
    requires s'.threads[i].pc.Insert? ==> OpenIncident(s'.incidents).None?
    requires s.lock == Some(i) || (OpenIncident(s.incidents).None? ==> OpenIncident(s'.incidents).None?)
    requires AtMostOneOpen(s'.incidents)
    requires s'.threads[i].pc.Watching? ==> s.threads[i].kind.Loop?
    ensures LockInv(s')
  {
  }

  lemma StartKeeps(s: State, i: nat)
    requires LockInv(s) && Enabled(s, Proceed(i)) && s.threads[i].pc.Start?
    ensures LockInv(Apply(s, Proceed(i)))
  {
    MoveKeeps(s, Apply(s, Proceed(i)), i);
  }

  lemma InsertKeeps(s: State, i: nat)
    requires LockInv(s) && Enabled(s, Proceed(i)) && s.threads[i].pc.Insert?
    ensures LockInv(Apply(s, Proceed(i)))
  {
    assert forall k :: 0 <= k < |s.incidents| ==> s.incidents[k].resolved;
    MoveKeeps(s, Apply(s, Proceed(i)), i);
  }

  lemma CloseKeeps(s: State, i: nat)
    requires LockInv(s) && Enabled(s, Proceed(i)) && s.threads[i].pc.Close?
    ensures LockInv(Apply(s, Proceed(i)))
  {
    var r := Apply(s, Proceed(i));
    assert |r.incidents| == |s.incidents|;
    assert forall k :: 0 <= k < |s.incidents| && s.incidents[k].resolved ==> r.incidents[k].resolved;
    if OpenIncident(s.incidents).None? {
      OpenStaysNone(s.incidents, r.incidents);
    }
    MoveKeeps(s, r, i);
  }

  lemma LoopStartKeeps(s: State, i: nat)
    requires LockInv(s) && Enabled(s, Proceed(i)) && s.threads[i].pc.StartLoop?
    ensures LockInv(Apply(s, Proceed(i)))
  {
    var moved := Goto(s, i, Done).(lock := None);
    MoveKeeps(s, moved, i);
    if !LoopAlive(s) {
      assert forall j :: 0 <= j < |s.threads| && s.threads[j].kind.Loop? ==> s.threads[j].pc == Done;
    }
  }

  lemma OtherKeeps(s: State, a: Action)
    requires LockInv(s) && Enabled(s, a)
    requires a.Proceed? ==>
      var pc := s.threads[a.i].pc; !pc.Start? && !pc.Insert? && !pc.Close? && !pc.StartLoop? && !pc.Done?
    ensures LockInv(Apply(s, a))
  {
    var r := Apply(s, a);
    if a.Proceed? && s.threads[a.i].pc.Watching? {
      if r != s {
        MoveKeeps(s, r, a.i);
      }
    } else {
      MoveKeeps(s, r, a.i);
    }
  }

  lemma LockStepKeeps(s: State, a: Action)
    requires LockInv(s) && Enabled(s, a)
    ensures LockInv(Apply(s, a))
  {
    if a.Proceed? && s.threads[a.i].pc.Start? {
      StartKeeps(s, a.i);
    } else if a.Proceed? && s.threads[a.i].pc.Insert? {
      InsertKeeps(s, a.i);
    } else if a.Proceed? && s.threads[a.i].pc.Close? {
      CloseKeeps(s, a.i);
    } else if a.Proceed? && s.threads[a.i].pc.StartLoop? {
      LoopStartKeeps(s, a.i);
    } else {
      OtherKeeps(s, a);
    }
  }

  // ----- one closing writer, one announcement -----

  /** How often the close of `k` has been announced: webhook events that reached the queue. */
  function Announced(events: seq<Event>, k: nat): nat {
    if events == [] then 0
    else Announced(events[..|events| - 1], k) + if events[|events| - 1] == FaultClosed(k) then 1 else 0
  }

  /** A call that has won the close of `k` and has not announced it yet. */
  predicate OwesAnnouncement(t: Thread, k: nat) {
    (t.pc.AnnounceMark? || t.pc.AnnounceClose?) && t.pc.inc == k && t.pc.won
  }

  function CloserOf(s: State, k: nat): Option<nat> {
    if k < |s.incidents| then s.incidents[k].closer else None
  }

  /** If this process resolved `k`, the closer either still owes the announcement, or it is out, once, or `lost`;
      nobody else owes one. */
  ghost predicate ClosedOnce(s: State, k: nat, lost: bool) {
    var closer := CloserOf(s, k);
    var settled := closer.Some? && closer.value < |s.threads| && !OwesAnnouncement(s.threads[closer.value], k);
    && (closer.Some? ==> s.incidents[k].resolved && closer.value < |s.threads|)
    && (forall i: nat :: i < |s.threads| && OwesAnnouncement(s.threads[i], k) ==> closer == Some(i))
    && (lost ==> settled)
    && Announced(s.events, k) == if settled && !lost then 1 else 0
  }

  /** Steps of thread `i` that resolve nothing and announce nothing. */
  lemma QuietMoveKeeps(s: State, s': State, i: nat, k: nat, lost: bool)
    requires ClosedOnce(s, k, lost) && i < |s.threads| <= |s'.threads|
    requires forall j :: 0 <= j < |s.threads| && j != i ==> s'.threads[j] == s.threads[j]
    requires forall j :: |s.threads| <= j < |s'.threads| ==> s'.threads[j].pc.Start?
    requires OwesAnnouncement(s'.threads[i], k) == OwesAnnouncement(s.threads[i], k)
    requires CloserOf(s', k) == CloserOf(s, k) && Announced(s'.events, k) == Announced(s.events, k)
    requires CloserOf(s, k).Some? ==> k < |s'.incidents| && s'.incidents[k].resolved
    ensures ClosedOnce(s', k, lost)
  {
  }

  lemma ClosingKeepsOnce(s: State, i: nat, k: nat, lost: bool)
    requires ClosedOnce(s, k, lost) && i < |s.threads| && s.threads[i].pc.Close?
    ensures ClosedOnce(Apply(s, Proceed(i)), k, lost)
  {
    var r := Apply(s, Proceed(i));
    var inc := s.threads[i].pc.inc;
    if inc < |s.incidents| && inc == k && !s.incidents[k].resolved {
      assert CloserOf(s, k).None? && CloserOf(r, k) == Some(i);
      assert OwesAnnouncement(r.threads[i], k);
    } else {
      QuietMoveKeeps(s, r, i, k, lost);
    }
  }

  lemma OneMoreEvent(events: seq<Event>, e: Event, k: nat)
    ensures Announced(events + [e], k) == Announced(events, k) + if e == FaultClosed(k) then 1 else 0
  {
    assert (events + [e])[..|events|] == events;
  }

  /** The winner announces the close it owes. */
  lemma PayingKeepsOnce(s: State, i: nat, k: nat, lost: bool)
    requires ClosedOnce(s, k, lost) && i < |s.threads| && s.threads[i].pc == AnnounceClose(k, true)
    ensures ClosedOnce(Goto(s, i, Done).(events := s.events + [FaultClosed(k)]), k, lost)
  {
    assert OwesAnnouncement(s.threads[i], k);
    OneMoreEvent(s.events, FaultClosed(k), k);
  }

  lemma AnnouncingKeepsOnce(s: State, i: nat, k: nat, lost: bool)
    requires ClosedOnce(s, k, lost) && i < |s.threads|
    requires s.threads[i].pc.AnnounceMark? || s.threads[i].pc.AnnounceClose?
    ensures ClosedOnce(Apply(s, Proceed(i)), k, lost)
  {
    var r := Apply(s, Proceed(i));
    var pc := s.threads[i].pc;
    if pc == AnnounceClose(k, true) {
      PayingKeepsOnce(s, i, k, lost);
      assert r == Goto(s, i, Done).(events := s.events + [FaultClosed(k)]);
    } else {
      OneMoreEvent(s.events, FaultClosed(pc.inc), k);
      OneMoreEvent(s.events, FalseAlarmMarked(pc.inc), k);
      hide ClosedOnce, Announced;
      QuietMoveKeeps(s, r, i, k, lost);
    }
  }

  lemma StartingKeepsOnce(s: State, i: nat, k: nat, lost: bool)
    requires ClosedOnce(s, k, lost) && Enabled(s, Proceed(i)) && s.threads[i].pc.Start?
    ensures ClosedOnce(Apply(s, Proceed(i)), k, lost)
  {
    QuietMoveKeeps(s, Apply(s, Proceed(i)), i, k, lost);
  }

  /** The step at which the winner's announcement of `k` is lost. */
  predicate LosesClose(s: State, a: Action, k: nat)
    requires Enabled(s, a)
  {
    a.Lose? && s.threads[a.i].pc == AnnounceClose(k, true)
  }

  lemma LosingKeepsOnce(s: State, i: nat, k: nat, lost: bool)
    requires ClosedOnce(s, k, lost) && Enabled(s, Lose(i))
    ensures ClosedOnce(Apply(s, Lose(i)), k, lost || LosesClose(s, Lose(i), k))
  {
    if LosesClose(s, Lose(i), k) {
      assert OwesAnnouncement(s.threads[i], k);
    } else {
      QuietMoveKeeps(s, Apply(s, Lose(i)), i, k, lost);
    }
  }

  /** Steps that neither start, close, announce nor lose anything. */
  lemma CalmStepKeepsOnce(s: State, a: Action, k: nat, lost: bool)
    requires ClosedOnce(s, k, lost) && Enabled(s, a) && !a.Lose?
    requires a.Proceed? ==>
      var pc := s.threads[a.i].pc; !pc.Start? && !pc.Close? && !pc.AnnounceMark? && !pc.AnnounceClose?
    ensures ClosedOnce(Apply(s, a), k, lost)
  {
    assert CloserOf(s, k).Some? ==> s.incidents[k].resolved;
    hide ClosedOnce, Announced;
    QuietMoveKeeps(s, Apply(s, a), a.i, k, lost);
  }

  lemma StepKeepsOnce(s: State, a: Action, k: nat, lost: bool)
    requires ClosedOnce(s, k, lost) && Enabled(s, a)
    ensures ClosedOnce(Apply(s, a), k, lost || LosesClose(s, a, k))
  {
    hide ClosedOnce, Apply;
    if a.Proceed? && s.threads[a.i].pc.Start? {
      StartingKeepsOnce(s, a.i, k, lost);
    } else if a.Proceed? && s.threads[a.i].pc.Close? {
      ClosingKeepsOnce(s, a.i, k, lost);
    } else if a.Proceed? && (s.threads[a.i].pc.AnnounceMark? || s.threads[a.i].pc.AnnounceClose?) {
      AnnouncingKeepsOnce(s, a.i, k, lost);
    } else if a.Lose? {
      LosingKeepsOnce(s, a.i, k, lost);
    } else {
      CalmStepKeepsOnce(s, a, k, lost);
    }
  }

  // ----- whole runs -----

  lemma {:induction false} RunKeeps(s0: State, actions: seq<Action>, s: State)
    requires IsStart(s0) && Execute(s0, actions) == Some(s)
    ensures LockInv(s)
  {
    if actions != [] {
      var front, last := actions[..|actions| - 1], actions[|actions| - 1];
      hide Apply, Enabled;
      var r := Execute(s0, front).value;
      RunKeeps(s0, front, r);
      LockStepKeeps(r, last);
    }
  }

  /** The run has lost the announcement of the close of `k`. */
  predicate CloseLost(s0: State, actions: seq<Action>, k: nat)
    requires Execute(s0, actions).Some?
  {
    && actions != []
    && var front, last := actions[..|actions| - 1], actions[|actions| - 1];
      CloseLost(s0, front, k) || LosesClose(Execute(s0, front).value, last, k)
  }

  lemma {:induction false} RunKeepsOnce(s0: State, actions: seq<Action>, s: State, k: nat)
    requires IsStart(s0) && Execute(s0, actions) == Some(s)
    ensures ClosedOnce(s, k, CloseLost(s0, actions, k))
  {
    if actions != [] {
      var front, last := actions[..|actions| - 1], actions[|actions| - 1];
      hide Apply, Enabled, ClosedOnce;
      var r := Execute(s0, front).value;
      RunKeepsOnce(s0, front, r, k);
      StepKeepsOnce(r, last, k, CloseLost(s0, front, k));
    }
  }

  /** In every interleaving at most one incident is unresolved, at most one recheck loop is alive, and the
      unguarded fallback insert is never reached. */
  lemma AtMostOneOpenIncident(s: State)
    requires Reachable(s)
    ensures AtMostOneOpen(s.incidents)
    ensures forall i, j :: (0 <= i < |s.threads| && 0 <= j < |s.threads|
                            && s.threads[i].kind.Loop? && s.threads[j].kind.Loop?
                            && s.threads[i].pc != Done && s.threads[j].pc != Done) ==> i == j
    ensures forall i :: 0 <= i < |s.threads| ==> !s.threads[i].pc.InsertPlain?
  {
    var s0, actions :| IsStart(s0) && Execute(s0, actions) == Some(s);
    RunKeeps(s0, actions, s);
  }

  /** Whoever races to close an incident, in every run its close is announced at most once; once the winner has
      finished it has been announced exactly once if and only if queueing the winner's event did not fail; and an
      incident that is open, or that an earlier process closed, is never announced. */
  lemma ClosedIsAnnouncedOnce(s0: State, actions: seq<Action>, s: State, k: nat)
    requires IsStart(s0) && Execute(s0, actions) == Some(s) && k < |s.incidents|
    ensures Announced(s.events, k) <= 1
    ensures !s.incidents[k].resolved ==> Announced(s.events, k) == 0
    ensures s.incidents[k].closer.None? ==> Announced(s.events, k) == 0
    ensures s.incidents[k].closer.Some? ==> s.incidents[k].closer.value < |s.threads|
    ensures s.incidents[k].closer.Some? && s.threads[s.incidents[k].closer.value].pc == Done ==>
              (Announced(s.events, k) == 1 <==> !CloseLost(s0, actions, k))
  {
    RunKeepsOnce(s0, actions, s, k);
    hide CloseLost;
  }

  /** `resolved` is written at most once: no later step changes who closed an incident or reopens it. */
  lemma StepKeepsResolved(s: State, a: Action, k: nat)
    requires k < |s.incidents| && s.incidents[k].resolved && Enabled(s, a)
    ensures var r := Apply(s, a);
      k < |r.incidents| && r.incidents[k].resolved && r.incidents[k].closer == s.incidents[k].closer
  {
  }

  /** Where a call goes: the dashboard's close, a mark that names no incident and a resume take the one open incident,
      wherever it stands, and end if there is none; a mark that names one takes that. */
  lemma TargetsTell(s: State, i: nat)
    requires Reachable(s) && Enabled(s, Proceed(i)) && s.threads[i].pc == Start
    ensures var kind, after := s.threads[i].kind, Apply(s, Proceed(i));
      && i < |after.threads|
      && (forall k :: 0 <= k < |s.incidents| && !s.incidents[k].resolved ==>
            && (kind == Dashboard || kind == Marker(None) ==> after.threads[i].pc == Close(k))
            && (kind == Resume ==> after.threads[i].pc == WantLock(k)))
      && ((forall k :: 0 <= k < |s.incidents| ==> s.incidents[k].resolved) ==>
            (kind == Dashboard || kind == Marker(None) || kind == Resume ==> after.threads[i].pc == Done))
      && (forall k: nat :: kind == Marker(Some(k)) ==>
            after.threads[i].pc == if k < |s.incidents| then Close(k) else Done)
  {
    AtMostOneOpenIncident(s);
  }

  /** A mark that nothing comes between: the incident is resolved and marked, the mark is announced, and the close
      exactly if the mark was what closed it. */
  lemma MarkRuns(s: State, i: nat, target: Option<nat>, k: nat)
    requires i < |s.threads| && s.threads[i] == Thread(Marker(target), Close(k)) && k < |s.incidents|
    ensures Execute(s, [Proceed(i), Proceed(i), Proceed(i)]).Some?
    ensures var r := Execute(s, [Proceed(i), Proceed(i), Proceed(i)]).value;
      && k < |r.incidents| && r.incidents[k].resolved && r.incidents[k].falseAlarm
      && r.events == s.events + [FalseAlarmMarked(k)] + (if s.incidents[k].resolved then [] else [FaultClosed(k)])
  {
    NothingDone(s);
    hide Execute;
    var s1 := Apply(s, Proceed(i));
    assert s1.threads[i].pc == AnnounceMark(k, !s.incidents[k].resolved);
    var s2 := Apply(s1, Proceed(i));
    assert [] + [Proceed(i)] == [Proceed(i)] && [Proceed(i)] + [Proceed(i)] == [Proceed(i), Proceed(i)];
    assert [Proceed(i), Proceed(i)] + [Proceed(i)] == [Proceed(i), Proceed(i), Proceed(i)];
    OneMore(s, [], s, Proceed(i));
    OneMore(s, [Proceed(i)], s1, Proceed(i));
    OneMore(s, [Proceed(i), Proceed(i)], s2, Proceed(i));
  }

  /** A false-alarm mark is written by the marking call's transaction and by nothing else, resolved or not, and never
      taken back. */
  lemma FalseAlarmTells(s: State, a: Action, k: nat)
    requires k < |s.incidents| && Enabled(s, a)
    ensures var r := Apply(s, a);
      && k < |r.incidents|
      && (r.incidents[k].falseAlarm <==>
            s.incidents[k].falseAlarm || (a.Proceed? && s.threads[a.i].pc == Close(k) && s.threads[a.i].kind.Marker?))
  {
  }

  lemma {:induction false} ResolvedIsWrittenOnce(s: State, actions: seq<Action>, k: nat)
    requires k < |s.incidents| && s.incidents[k].resolved && Execute(s, actions).Some?
    ensures var r := Execute(s, actions).value;
      k < |r.incidents| && r.incidents[k].resolved && r.incidents[k].closer == s.incidents[k].closer
  {
    if actions != [] {
      hide Apply, Enabled;
      ResolvedIsWrittenOnce(s, actions[..|actions| - 1], k);
      StepKeepsResolved(Execute(s, actions[..|actions| - 1]).value, actions[|actions| - 1], k);
    }
  }

  // ----- which incidents are being rechecked -----

  /** A live loop watches `k`. */
  ghost predicate Rechecked(s: State, k: nat) {
    exists i :: 0 <= i < |s.threads| && s.threads[i].kind == Loop(k) && s.threads[i].pc != Done
  }

  /** A trigger (or the resume) leaves its incident with a live loop exactly when no loop thread was alive or
      the one that was alive already watches that incident. */
  lemma TriggerLeavesALoop(s: State, i: nat)
    requires Reachable(s) && i < |s.threads| && s.threads[i].pc.StartLoop? && !s.threads[i].kind.Loop?
    ensures s.loopThread.Some? ==> s.loopThread.value < |s.threads|
    ensures Rechecked(Apply(s, Proceed(i)), s.threads[i].pc.inc)
       <==> !LoopAlive(s) || s.threads[s.loopThread.value].kind == Loop(s.threads[i].pc.inc)
  {
    var s0, actions :| IsStart(s0) && Execute(s0, actions) == Some(s);
    RunKeeps(s0, actions, s);
    var r := Apply(s, Proceed(i));
    var inc := s.threads[i].pc.inc;
    if LoopAlive(s) {
      var j := s.loopThread.value;
      assert r.threads[j] == s.threads[j];
      if k :| 0 <= k < |r.threads| && r.threads[k].kind == Loop(inc) && r.threads[k].pc != Done {
        assert s.threads[k].kind.Loop? && s.threads[k].pc != Done;
      }
    } else {
      assert r.threads[|s.threads|] == Thread(Loop(inc), Start);
    }
  }

  lemma NothingDone(s0: State)
    ensures Execute(s0, []) == Some(s0)
  {
  }

  lemma OneMore(s0: State, actions: seq<Action>, s: State, a: Action)
    requires Execute(s0, actions) == Some(s) && Enabled(s, a)
    ensures Execute(s0, actions + [a]) == Some(Apply(s, a))
  {
    assert (actions + [a])[..|actions|] == actions;
  }

  predicate CanTrigger(r: State, i: nat) {
    && i < |r.threads| && r.threads[i] == Thread(Trigger, Start) && r.loopThread != Some(i)
    && r.lock.None? && OpenIncident(r.incidents).None?
  }

  /** The state after an uncontested trigger: one more incident, and one more loop unless one is alive. */
  function Triggered(r: State, i: nat): State
    requires i < |r.threads|
  {
    var s := InsertRow(r, i);
    var t := Goto(s, i, Done);
    if LoopAlive(s) then t
    else t.(threads := t.threads + [Thread(Loop(|r.incidents|), Start)], loopThread := Some(|r.threads|))
  }

  lemma TriggerReads(r: State, i: nat)
    requires CanTrigger(r, i)
    ensures Enabled(r, Proceed(i)) && Apply(r, Proceed(i)) == Goto(r, i, ReadOpen).(lock := Some(i))
    ensures Enabled(Goto(r, i, ReadOpen).(lock := Some(i)), Proceed(i))
    ensures Apply(Goto(r, i, ReadOpen).(lock := Some(i)), Proceed(i)) == Goto(r, i, Insert).(lock := Some(i))
  {
  }

  lemma TriggerInserts(r: State, i: nat)
    requires CanTrigger(r, i)
    ensures Enabled(Goto(r, i, Insert).(lock := Some(i)), Proceed(i))
    ensures Apply(Goto(r, i, Insert).(lock := Some(i)), Proceed(i)) == InsertRow(r, i).(lock := Some(i))
    ensures Enabled(InsertRow(r, i).(lock := Some(i)), Proceed(i))
    ensures Apply(InsertRow(r, i).(lock := Some(i)), Proceed(i)) == Triggered(r, i)
  {
  }

  /** An uncontested trigger opens exactly one incident and starts a loop unless one is alive. */
  lemma TriggerRuns(s0: State, actions: seq<Action>, r: State, i: nat) returns (longer: seq<Action>)
    requires Execute(s0, actions) == Some(r) && CanTrigger(r, i)
    ensures Execute(s0, longer) == Some(Triggered(r, i))
  {
    TriggerReads(r, i);
    TriggerInserts(r, i);
    OneMore(s0, actions, r, Proceed(i));
    OneMore(s0, actions + [Proceed(i)], Goto(r, i, ReadOpen).(lock := Some(i)), Proceed(i));
    var three := actions + [Proceed(i)] + [Proceed(i)];
    OneMore(s0, three, Goto(r, i, Insert).(lock := Some(i)), Proceed(i));
    OneMore(s0, three + [Proceed(i)], InsertRow(r, i).(lock := Some(i)), Proceed(i));
    longer := three + [Proceed(i)] + [Proceed(i)];
  }

  /** A dashboard close of the only open incident, up to its committed transaction. */
  lemma CloseRuns(s0: State, actions: seq<Action>, r: State, i: nat) returns (longer: seq<Action>)
    requires Execute(s0, actions) == Some(r)
    requires i < |r.threads| && r.threads[i] == Thread(Dashboard, Start)
    requires r.incidents == [Incident(false, false, None)]
    ensures Execute(s0, longer)
         == Some(Goto(r, i, AnnounceClose(0, true)).(incidents := [Incident(true, false, Some(i))]))
  {
    assert OpenIncident(r.incidents) == Some(0);
    OneMore(s0, actions, r, Proceed(i));
    OneMore(s0, actions + [Proceed(i)], Goto(r, i, Close(0)), Proceed(i));
    longer := actions + [Proceed(i)] + [Proceed(i)];
    var closed := Apply(Goto(r, i, Close(0)), Proceed(i));
    assert closed.incidents == [Incident(true, false, Some(i))];
    assert closed.threads == Goto(r, i, AnnounceClose(0, true)).threads;
  }

  /** Not every open incident is rechecked: a trigger, a close from the dashboard and a second trigger, while
      the first loop still sleeps, leave the second incident open without a loop. */
  lemma OpenIncidentWithoutLoop() returns (s: State)
    ensures Reachable(s) && |s.incidents| == 2 && !s.incidents[1].resolved && !Rechecked(s, 1)
    ensures |s.threads| > 2 && s.threads[0] == s.threads[2] == Thread(Trigger, Done)
  {
    hide Execute, Apply;
    var s0 := State([], [Thread(Trigger, Start), Thread(Dashboard, Start), Thread(Trigger, Start)], None, None, []);
    NothingDone(s0);
    var actions := TriggerRuns(s0, [], s0, 0);
    var s1 := Triggered(s0, 0);
    assert s1.threads[3] == Thread(Loop(0), Start) && s1.loopThread == Some(3);
    actions := CloseRuns(s0, actions, s1, 1);
    var s2 := Goto(s1, 1, AnnounceClose(0, true)).(incidents := [Incident(true, false, Some(1))]);
    actions := TriggerRuns(s0, actions, s2, 2);
    s := Triggered(s2, 2);
  }

  /** A close whose event is lost: the incident is resolved, its closer has finished, and nobody ever announces it. */
  lemma CloseCanBeLost() returns (s: State)
    ensures Reachable(s) && s.threads == [Thread(Dashboard, Done)] && s.incidents == [Incident(true, false, Some(0))]
    ensures Announced(s.events, 0) == 0
  {
    hide Execute, Apply;
    var s0 := State([Incident(false, false, None)], [Thread(Dashboard, Start)], None, None, []);
    NothingDone(s0);
    var actions := CloseRuns(s0, [], s0, 0);
    var s1 := Goto(s0, 0, AnnounceClose(0, true)).(incidents := [Incident(true, false, Some(0))]);
    LosesIt(s1, 0);
    OneMore(s0, actions, s1, Lose(0));
    s := Goto(s1, 0, Done);
  }

  lemma LosesIt(s: State, i: nat)
    requires i < |s.threads| && s.threads[i].pc == AnnounceClose(0, true)
    ensures Enabled(s, Lose(i)) && Apply(s, Lose(i)) == Goto(s, i, Done)
  {
  }
}
