/** The webhook tables under every operation on them: what each row's fate can be, who loses rows when the
    queue overflows, and the methods that change the stored rows. */
module WebhookService {
  import opened Options
  import opened WebhookRows
  import opened WebhookQueue

  datatype System = System(hooks: seq<Webhook>, queue: State)

  datatype Operation =
    | EmitEvent(event: EventType, incident: string, now: int)
    | DrainQueue(now: int, sent: seq<Sent>)
    | CreateHook(hook: Webhook)
    | UpdateHook(hook: Webhook)
    | DeleteHook(id: nat)

  function HookIds(hooks: seq<Webhook>): set<nat> {
    set h | h in hooks :: h.id
  }

  function UpdateIn(hooks: seq<Webhook>, hook: Webhook): seq<Webhook> {
    seq(|hooks|, i requires 0 <= i < |hooks| => if hooks[i].id == hook.id then hook else hooks[i])
  }

  ghost predicate SystemOk(y: System) {
    && Valid(y.queue)
    && |y.queue.rows| <= QUEUE_CAP
    && |y.hooks| <= MAX_WEBHOOKS
    && Owners(y.queue.rows) <= HookIds(y.hooks)
  }

  /** An operation whose arguments cannot be met (no such webhook, no free place, no answers for a batch)
      changes nothing. */
  function Perform(y: System, op: Operation): System
    requires SystemOk(y)
  {
    match op
    case EmitEvent(event, incident, now) => y.(queue := Emit(y.queue, y.hooks, event, incident, now))
    case DrainQueue(now, sent) =>
      if |sent| < DRAIN_BATCH || !SentInOrder(now, sent) then y else y.(queue := Drain(y.queue, y.hooks, now, sent))
    case CreateHook(hook) =>
      if |y.hooks| >= MAX_WEBHOOKS || hook.id in HookIds(y.hooks) then y else y.(hooks := y.hooks + [hook])
    case UpdateHook(hook) => y.(hooks := UpdateIn(y.hooks, hook))
    case DeleteHook(id) => System(RemoveFrom(y.hooks, id), DropHook(y.queue, id))
  }

  // ----- rows and owners under each operation -----

  function Owners(rows: seq<Row>): set<nat> {
    set r | r in rows :: r.webhook
  }

  /** A step that leaves no more rows and no new owner behind. */
  predicate NoNewRows(before: seq<Row>, after: seq<Row>) {
    |after| <= |before| && Owners(after) <= Owners(before)
  }

  lemma {:induction false} WithoutShrinks(rows: seq<Row>, ids: set<nat>)
    ensures NoNewRows(rows, Without(rows, ids))
  {
    if rows != [] {
      assert rows[0] in rows && Owners(rows[1..]) <= Owners(rows);
      WithoutShrinks(rows[1..], ids);
    }
  }

  lemma RetryShrinks(s: State, row: Row, attempt: Attempt)
    requires row in s.rows && row.id < |s.ledger|
    ensures NoNewRows(s.rows, Retry(s, row, attempt).rows)
  {
    ReplaceKeepsIds(s.rows, Retried(row, attempt.clock));
  }

  lemma DrainOneAddsNothing(s: State, row: Row, hooks: seq<Webhook>, now: int, sent: Sent)
    requires row in s.rows && row.id < |s.ledger|
    ensures NoNewRows(s.rows, DrainOne(s, row, hooks, now, sent).rows)
  {
    hide Without, NoNewRows, Retry;
    WithoutShrinks(s.rows, {row.id});
    RetryShrinks(s, row, Attempt(now, sent.at));
  }

  lemma {:induction false} DrainFromAddsNothing(
    s: State, due: seq<Row>, hooks: seq<Webhook>, now: int, sent: seq<Sent>, k: nat)
    requires k <= |due| <= |sent| && Valid(s) && IdsIncrease(due) && Pending(due, k, s.rows) && SentInOrder(now, sent)
    requires forall j :: k <= j < |due| ==> due[j].nextAttempt <= now
    ensures NoNewRows(s.rows, DrainFrom(s, due, hooks, now, sent, k).rows)
    decreases |due| - k
  {
    hide DrainOne;
    if k < |due| {
      DrainStepKeeps(s, due, k, hooks, now, sent[k]);
      DrainOneAddsNothing(s, due[k], hooks, now, sent[k]);
      DrainFromAddsNothing(DrainOne(s, due[k], hooks, now, sent[k]), due, hooks, now, sent, k + 1);
    }
  }

  lemma {:induction false} InsertedRowsBelongToTargets(
    s: State, targets: seq<Webhook>, event: EventType, incident: string, now: int, n: nat)
    requires n <= |targets|
    ensures Owners(InsertAll(s, targets, event, incident, now, n).rows) <= Owners(s.rows) + HookIds(targets)
  {
    if n > 0 {
      assert targets[n - 1] in targets;
      InsertedRowsBelongToTargets(s, targets, event, incident, now, n - 1);
    }
  }

  /** The queue right before trimming, with every new row in it. */
  function Filled(y: System, event: EventType, incident: string, now: int): State {
    var targets := Targets(y.hooks, event);
    InsertAll(CancelHeld(y.queue, event, incident, now), targets, event, incident, now, |targets|)
  }

  lemma FilledRows(y: System, event: EventType, incident: string, now: int)
    requires SystemOk(y)
    ensures Valid(Filled(y, event, incident, now))
    ensures |Filled(y, event, incident, now).rows| <= QUEUE_CAP + MAX_WEBHOOKS
    ensures Owners(Filled(y, event, incident, now).rows) <= HookIds(y.hooks)
  {
    hide Valid, IdsIncrease;
    var targets := Targets(y.hooks, event);
    var cancelled := CancelHeld(y.queue, event, incident, now);
    CancelKeeps(y.queue, event, incident, now);
    InsertAllKeeps(cancelled, targets, event, incident, now, |targets|);
    WithoutShrinks(y.queue.rows, HeldIds(y.queue.rows, incident, now));
    InsertedRowsBelongToTargets(cancelled, targets, event, incident, now, |targets|);
    assert HookIds(targets) <= HookIds(y.hooks);
  }

  lemma {:induction false} FewIds(hooks: seq<Webhook>)
    ensures |HookIds(hooks)| <= |hooks|
  {
    if hooks != [] {
      FewIds(hooks[1..]);
      assert HookIds(hooks) == {hooks[0].id} + HookIds(hooks[1..]);
    } else {
      assert HookIds(hooks) == {};
    }
  }

  // ----- every operation -----

  lemma EmittingKeepsOk(y: System, event: EventType, incident: string, now: int)
    requires SystemOk(y)
    ensures SystemOk(Perform(y, EmitEvent(event, incident, now)))
  {
    hide Valid, IdsIncrease, InsertAll;
    FilledRows(y, event, incident, now);
    EmitKeeps(y.queue, y.hooks, event, incident, now);
    var filled := Filled(y, event, incident, now);
    TrimKeeps(filled);
    TrimSubset(filled);
    if Targets(y.hooks, event) == [] {
      UnfilledRows(y, event, incident, now);
    }
  }

  lemma TrimSubset(s: State)
    requires Valid(s)
    ensures Owners(Trim(s).rows) <= Owners(s.rows)
    ensures |Trim(s).rows| <= QUEUE_CAP
  {
    TrimKeeps(s);
  }

  lemma UnfilledRows(y: System, event: EventType, incident: string, now: int)
    requires Targets(y.hooks, event) == []
    ensures |Filled(y, event, incident, now).rows| <= |y.queue.rows|
  {
    WithoutShrinks(y.queue.rows, HeldIds(y.queue.rows, incident, now));
  }

  lemma DrainingKeepsOk(y: System, now: int, sent: seq<Sent>)
    requires SystemOk(y)
    ensures SystemOk(Perform(y, DrainQueue(now, sent)))
  {
    if |sent| >= DRAIN_BATCH && SentInOrder(now, sent) {
      var due := Due(y.queue.rows, now, DRAIN_BATCH);
      DueInOrder(y.queue.rows, now, DRAIN_BATCH);
      DrainKeeps(y.queue, y.hooks, now, sent);
      DrainFromAddsNothing(y.queue, due, y.hooks, now, sent, 0);
      hide Valid, DrainFrom, IdsIncrease;
    }
  }

  lemma HookChangesKeepOk(y: System, op: Operation)
    requires SystemOk(y) && (op.CreateHook? || op.UpdateHook? || op.DeleteHook?)
    ensures SystemOk(Perform(y, op))
  {
    hide Valid, IdsIncrease;
    match op
    case CreateHook(hook) =>
      assert HookIds(y.hooks) <= HookIds(y.hooks + [hook]);
    case UpdateHook(hook) =>
      var after := UpdateIn(y.hooks, hook);
      forall id | id in HookIds(y.hooks) ensures id in HookIds(after) {
        var i :| 0 <= i < |y.hooks| && y.hooks[i].id == id;
        assert after[i] in after;
      }
    case DeleteHook(id) =>
      DropHookKeeps(y.queue, id);
      WithoutShrinks(y.queue.rows, Ids(OwnRows(y.queue.rows, id)));
  }

  lemma OperationsKeepOk(y: System, op: Operation)
    requires SystemOk(y)
    ensures SystemOk(Perform(y, op))
  {
    hide SystemOk, Perform;
    match op
    case EmitEvent(event, incident, now) => EmittingKeepsOk(y, event, incident, now);
    case DrainQueue(now, sent) => DrainingKeepsOk(y, now, sent);
    case _ => HookChangesKeepOk(y, op);
  }

  // ----- whole runs -----

  function Empty(): System {
    System([], State([], []))
  }

  ghost predicate IsRun(states: seq<System>, ops: seq<Operation>) {
    && |states| == |ops| + 1 && states[0] == Empty()
    && forall k :: 0 <= k < |ops| ==> SystemOk(states[k]) && states[k + 1] == Perform(states[k], ops[k])
  }

  ghost predicate Reachable(y: System) {
    exists states, ops :: IsRun(states, ops) && y == states[|ops|]
  }

  lemma ReachableIsOk(y: System)
    requires Reachable(y)
    ensures SystemOk(y)
  {
    var states, ops :| IsRun(states, ops) && y == states[|ops|];
    if ops != [] {
      OperationsKeepOk(states[|ops| - 1], ops[|ops| - 1]);
    }
  }

  /** Every operation is possible in every reachable state, so the runs are all the runs there are. */
  lemma RunsGoOn(y: System, op: Operation)
    requires Reachable(y)
    ensures SystemOk(y) && Reachable(Perform(y, op))
  {
    hide Perform, SystemOk;
    ReachableIsOk(y);
    var states, ops :| IsRun(states, ops) && y == states[|ops|];
    assert IsRun(states + [Perform(y, op)], ops + [op]);
  }

  /** The ledger of every reachable state: a row is stored exactly while its fate is open; it has been attempted
      at most ten times, never before its hold was over nor in a pass more than a day after that, by passes whose clock
      readings are at least the backoff (so at least thirty seconds) apart; it is given up only after ten attempts, or
      three once the endpoint is gone; it expires only more than a day after first becoming due; only untouched fault
      rows are cancelled. */
  lemma EveryRowIsAccountedFor(y: System, id: nat)
    requires Reachable(y) && id < |y.queue.ledger|
    ensures var e := y.queue.ledger[id];
      && (e.fate == Queued <==> id in Ids(y.queue.rows))
      && |e.attempts| <= 10
      && (forall j :: 0 <= j < |e.attempts| ==>
            e.birth.created + e.birth.escalation <= e.attempts[j].clock <= e.attempts[j].at)
      && (forall j :: 0 <= j < |e.attempts| ==>
            e.attempts[j].clock <= e.birth.created + e.birth.escalation + 86400)
      && (forall j :: 0 < j < |e.attempts| ==>
            Backoff(j) >= 30 && e.attempts[j - 1].clock + Backoff(j) <= e.attempts[j].clock)
      && (e.fate.GivenUp? ==>
            || |e.attempts| == 10
            || ((e.fate.status == Some(404) || e.fate.status == Some(410)) && |e.attempts| >= 3))
      && (e.fate.Expired? ==> e.fate.at - (e.birth.created + e.birth.escalation) > 86400)
      && (e.fate == Delivered ==> e.attempts != [])
      && (e.fate == Cancelled ==>
            e.attempts == [] && (e.birth.event == FaultOpened || e.birth.event == DegradationDetected))
    ensures forall i, j :: 0 <= i < j < |y.queue.rows| ==> y.queue.rows[i].id != y.queue.rows[j].id
    ensures |y.queue.rows| <= 500
  {
    ReachableIsOk(y);
    assert EntryOk(y.queue.ledger[id], id);
  }

  // ----- fates are final -----

  predicate EntryKept(a: Entry, b: Entry) {
    b.birth == a.birth && a.attempts <= b.attempts && (a.fate != Queued ==> b == a)
  }

  /** Births and settled entries are never touched again. */
  ghost predicate HistoryKept(a: seq<Entry>, b: seq<Entry>) {
    && |a| <= |b|
    && forall id :: 0 <= id < |a| ==> EntryKept(a[id], b[id])
  }

  lemma HistoryChain(a: seq<Entry>, b: seq<Entry>, c: seq<Entry>)
    requires HistoryKept(a, b) && HistoryKept(b, c)
    ensures HistoryKept(a, c)
  {
  }

  lemma SettlingKeepsHistory(s: State, ids: set<nat>, fate: Fate)
    requires Valid(s) && ids <= Ids(s.rows)
    ensures HistoryKept(s.ledger, Settle(s, ids, fate).ledger)
  {
    forall id | id in Ids(s.rows) ensures s.ledger[id].fate == Queued {
      var r :| r in s.rows && r.id == id;
    }
  }

  lemma AttemptKeepsHistory(s: State, row: Row, attempt: Attempt, fate: Fate)
    requires row.id < |s.ledger| && s.ledger[row.id].fate == Queued
    ensures HistoryKept(s.ledger, Retry(s, row, attempt).ledger)
    ensures HistoryKept(s.ledger, Conclude(s, row, attempt, fate).ledger)
  {
  }

  lemma DrainOneKeepsHistory(s: State, row: Row, hooks: seq<Webhook>, now: int, sent: Sent)
    requires Valid(s) && row in s.rows
    ensures HistoryKept(s.ledger, DrainOne(s, row, hooks, now, sent).ledger)
  {
    hide HistoryKept, Settle, Retry, Conclude, EntryKept;
    assert RowOk(row, s.ledger[row.id]) && row.id in Ids(s.rows);
    hide Valid;
    AttemptKeepsHistory(s, row, Attempt(now, sent.at), Delivered);
    AttemptKeepsHistory(s, row, Attempt(now, sent.at), GivenUp(sent.status));
    SettlingKeepsHistory(s, {row.id}, DroppedWithWebhook);
    SettlingKeepsHistory(s, {row.id}, Expired(now));
  }

  lemma {:induction false} DrainFromKeepsHistory(
    s: State, due: seq<Row>, hooks: seq<Webhook>, now: int, sent: seq<Sent>, k: nat)
    requires k <= |due| <= |sent| && Valid(s) && IdsIncrease(due) && Pending(due, k, s.rows) && SentInOrder(now, sent)
    requires forall j :: k <= j < |due| ==> due[j].nextAttempt <= now
    ensures HistoryKept(s.ledger, DrainFrom(s, due, hooks, now, sent, k).ledger)
    decreases |due| - k
  {
    hide DrainOne;
    if k < |due| {
      var next := DrainOne(s, due[k], hooks, now, sent[k]);
      DrainStepKeeps(s, due, k, hooks, now, sent[k]);
      DrainOneKeepsHistory(s, due[k], hooks, now, sent[k]);
      DrainFromKeepsHistory(next, due, hooks, now, sent, k + 1);
      HistoryChain(s.ledger, next.ledger, DrainFrom(s, due, hooks, now, sent, k).ledger);
    }
  }

  lemma {:induction false} InsertingKeepsHistory(
    s: State, targets: seq<Webhook>, event: EventType, incident: string, now: int, n: nat)
    requires n <= |targets|
    ensures s.ledger <= InsertAll(s, targets, event, incident, now, n).ledger
  {
    if n > 0 {
      InsertingKeepsHistory(s, targets, event, incident, now, n - 1);
    }
  }

  lemma EmittingKeepsHistory(y: System, event: EventType, incident: string, now: int)
    requires SystemOk(y)
    ensures HistoryKept(y.queue.ledger, Emit(y.queue, y.hooks, event, incident, now).ledger)
  {
    var targets := Targets(y.hooks, event);
    var cancelled := CancelHeld(y.queue, event, incident, now);
    SettlingKeepsHistory(y.queue, HeldIds(y.queue.rows, incident, now), Cancelled);
    InsertingKeepsHistory(cancelled, targets, event, incident, now, |targets|);
    hide Valid, InsertAll, IdsIncrease, CancelHeld, Settle;
    var filled := Filled(y, event, incident, now);
    HistoryChain(y.queue.ledger, cancelled.ledger, filled.ledger);
    FilledRows(y, event, incident, now);
    TrimmingKeepsHistory(filled);
    HistoryChain(y.queue.ledger, filled.ledger, Trim(filled).ledger);
  }

  lemma TrimmingKeepsHistory(s: State)
    requires Valid(s)
    ensures HistoryKept(s.ledger, Trim(s).ledger)
  {
    TrimmedIdsAreIds(s.rows);
    SettlingKeepsHistory(s, TrimmedIds(s.rows), Trimmed);
  }

  /** Once a row has met its fate, no later operation changes anything about it: every row meets exactly one. */
  lemma FateIsFinal(y: System, op: Operation)
    requires SystemOk(y)
    ensures HistoryKept(y.queue.ledger, Perform(y, op).queue.ledger)
  {
    match op
    case EmitEvent(event, incident, now) => EmittingKeepsHistory(y, event, incident, now);
    case DrainQueue(now, sent) =>
      if |sent| >= DRAIN_BATCH && SentInOrder(now, sent) {
        DueInOrder(y.queue.rows, now, DRAIN_BATCH);
        DrainFromKeepsHistory(y.queue, Due(y.queue.rows, now, DRAIN_BATCH), y.hooks, now, sent, 0);
      }
    case DeleteHook(id) =>
      OwnRowsAreRows(y.queue.rows, id);
      SettlingKeepsHistory(y.queue, Ids(OwnRows(y.queue.rows, id)), DroppedWithWebhook);
    case _ =>
  }

  // ----- who pays for an overflow -----

  /** When an emission overflows the queue, the webhook with the deepest backlog alone loses rows, its oldest
      ones, down to the cap; every other webhook keeps all of its rows. */
  lemma OverflowIsPaidByTheNoisiest(y: System, event: EventType, incident: string, now: int)
    requires SystemOk(y) && |Filled(y, event, incident, now).rows| > 500
    ensures var filled := Filled(y, event, incident, now).rows;
      var after := Perform(y, EmitEvent(event, incident, now)).queue.rows;
      && |after| == 500
      && |filled| - 500 <= Backlog(filled, Noisiest(filled))
      && OwnRows(after, Noisiest(filled)) == OwnRows(filled, Noisiest(filled))[|filled| - 500..]
      && forall w :: w != Noisiest(filled) ==> OwnRows(after, w) == OwnRows(filled, w)
  {
    hide Valid, InsertAll, CancelHeld, OwnRows, NoisiestOf, TrimmedRows, Trim, IdsIncrease;
    FilledRows(y, event, incident, now);
    FewIds(y.hooks);
    var filled := Filled(y, event, incident, now);
    if Targets(y.hooks, event) == [] {
      UnfilledRows(y, event, incident, now);
    }
    assert Perform(y, EmitEvent(event, incident, now)).queue == Trim(filled);
    hide Filled, Perform, Emit;
    TrimKeeps(filled);
    OnlyTheNoisiestPays(filled.rows, HookIds(y.hooks));
  }
}
