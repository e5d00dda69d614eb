/** What one operation on the webhook queue does to every single delivery, told from the delivery's own ledger
    entry: when it was born, when it was attempted, what became of it. */
module WebhookOutcomes {
  import opened Options
  import opened WebhookRows
  import opened WebhookQueue
  import opened WebhookService

  // ----- draining -----

  /** What an attempt of a due delivery must lead to. */
  function Outcome(e: Entry, hook: Option<Webhook>, now: int, sent: Sent): Entry {
    if hook.None? || !hook.value.enabled then e.(fate := DroppedWithWebhook)
    else if now > DueAt(e.birth) + MAX_AGE_SECONDS then e.(fate := Expired(now))
    else
      var tried := e.(attempts := e.attempts + [Attempt(now, sent.at)]);
      var gone := sent.status == Some(404) || sent.status == Some(410);
      if Succeeded(sent) then tried.(fate := Delivered)
      else if |tried.attempts| >= MAX_ATTEMPTS || (gone && |tried.attempts| >= GONE_MAX_ATTEMPTS)
      then tried.(fate := GivenUp(sent.status))
      else tried
  }

  lemma DrainOneOutcome(s: State, row: Row, hooks: seq<Webhook>, now: int, sent: Sent)
    requires Valid(s) && row in s.rows
    ensures DrainOne(s, row, hooks, now, sent).ledger
         == s.ledger[row.id := Outcome(s.ledger[row.id], FindHook(hooks, row.webhook), now, sent)]
  {
    assert RowOk(row, s.ledger[row.id]);
    hide Valid;
  }

  lemma {:induction false} DrainFromOutcome(
    s: State, due: seq<Row>, hooks: seq<Webhook>, now: int, sent: seq<Sent>, k: nat, id: nat)
    requires k <= |due| <= |sent| && Valid(s) && IdsIncrease(due) && Pending(due, k, s.rows) && id < |s.ledger|
    requires SentInOrder(now, sent)
    requires forall j :: k <= j < |due| ==> due[j].nextAttempt <= now
    ensures id < |DrainFrom(s, due, hooks, now, sent, k).ledger|
    ensures forall j :: k <= j < |due| && due[j].id == id ==>
      DrainFrom(s, due, hooks, now, sent, k).ledger[id]
        == Outcome(s.ledger[id], FindHook(hooks, due[j].webhook), now, sent[j])
    ensures (forall j :: k <= j < |due| ==> due[j].id != id) ==>
      DrainFrom(s, due, hooks, now, sent, k).ledger[id] == s.ledger[id]
    decreases |due| - k
  {
    hide DrainOne, Outcome, Valid;
    if k < |due| {
      DrainStepKeeps(s, due, k, hooks, now, sent[k]);
      DrainOneOutcome(s, due[k], hooks, now, sent[k]);
      DrainFromOutcome(DrainOne(s, due[k], hooks, now, sent[k]), due, hooks, now, sent, k + 1, id);
    }
  }

  /** Every delivery of the batch meets the outcome of its own attempt, once, whatever becomes of the others; a
      delivery outside the batch is not touched. */
  lemma DrainDecidesEachOnItsOwn(y: System, now: int, sent: seq<Sent>, id: nat)
    requires SystemOk(y) && |sent| >= DRAIN_BATCH && SentInOrder(now, sent) && id < |y.queue.ledger|
    ensures var due, before, after := Due(y.queue.rows, now, DRAIN_BATCH), y.queue.ledger,
                                      Perform(y, DrainQueue(now, sent)).queue.ledger;
      && |after| == |before|
      && (forall j :: 0 <= j < |due| && due[j].id == id ==>
            after[id] == Outcome(before[id], FindHook(y.hooks, before[id].birth.webhook), now, sent[j]))
      && (id !in Ids(due) ==> after[id] == before[id])
  {
    var due := Due(y.queue.rows, now, DRAIN_BATCH);
    DueInOrder(y.queue.rows, now, DRAIN_BATCH);
    forall j | 0 <= j < |due| && due[j].id == id ensures y.queue.ledger[id].birth.webhook == due[j].webhook {
      assert RowOk(due[j], y.queue.ledger[id]);
    }
    hide Valid, Outcome, DrainFrom;
    DrainFromOutcome(y.queue, due, y.hooks, now, sent, 0, id);
    DrainFromLedger(y.queue, due, y.hooks, now, sent, 0);
    assert id !in Ids(due) ==> forall j :: 0 <= j < |due| ==> due[j].id != id;
  }

  lemma {:induction false} DrainFromLedger(
    s: State, due: seq<Row>, hooks: seq<Webhook>, now: int, sent: seq<Sent>, k: nat)
    requires k <= |due| <= |sent| && Valid(s) && IdsIncrease(due) && Pending(due, k, s.rows) && SentInOrder(now, sent)
    requires forall j :: k <= j < |due| ==> due[j].nextAttempt <= now
    ensures |DrainFrom(s, due, hooks, now, sent, k).ledger| == |s.ledger|
    decreases |due| - k
  {
    hide DrainOne, Valid;
    if k < |due| {
      DrainStepKeeps(s, due, k, hooks, now, sent[k]);
      DrainFromLedger(DrainOne(s, due[k], hooks, now, sent[k]), due, hooks, now, sent, k + 1);
    }
  }

  /** The batch is the oldest of what is due: a due delivery is left out only when the batch is full of older
      ones. */
  lemma {:induction false} BatchIsTheOldestDue(rows: seq<Row>, now: int, limit: nat, row: Row)
    requires IdsIncrease(rows) && row in rows && row.nextAttempt <= now && row !in Due(rows, now, limit)
    ensures |Due(rows, now, limit)| == limit
    ensures forall x :: x in Due(rows, now, limit) ==> x.id < row.id
  {
    if limit > 0 {
      var first := rows[0].nextAttempt <= now;
      assert row in rows[1..];
      BatchIsTheOldestDue(rows[1..], now, if first then limit - 1 else limit, row);
      var i :| 0 < i < |rows| && rows[i] == row;
    }
  }

  // ----- emitting -----

  /** A delivery that a clearing event of its incident finds still held back. */
  ghost predicate HeldEntry(e: Entry, incident: string, now: int) {
    && e.fate == Queued && e.attempts == [] && now < DueAt(e.birth)
    && Escalatable(e.birth.event) && incident != "" && e.birth.incident == incident
  }

  lemma HeldRowsAreHeldEntries(s: State, incident: string, now: int, id: nat)
    requires Valid(s) && id < |s.ledger|
    ensures id in HeldIds(s.rows, incident, now) <==> HeldEntry(s.ledger[id], incident, now)
  {
    if s.ledger[id].fate == Queued {
      assert id in Ids(s.rows);
      var r :| r in s.rows && r.id == id;
      assert RowOk(r, s.ledger[id]);
    }
    if r :| r in s.rows && Held(r, incident, now) && r.id == id {
      assert RowOk(r, s.ledger[id]);
    }
  }

  /** The entry that subscribing webhook `hook` gets. */
  function Born(id: nat, hook: Webhook, event: EventType, incident: string, now: int): Entry {
    Entry(Row(id, hook.id, event, incident, now, 0, now + Delay(hook, event), Delay(hook, event)), [], Queued)
  }

  lemma {:induction false} InsertedEntries(
    s: State, targets: seq<Webhook>, event: EventType, incident: string, now: int, n: nat)
    requires n <= |targets|
    ensures var r := InsertAll(s, targets, event, incident, now, n);
      && s.ledger <= r.ledger && |r.ledger| == |s.ledger| + n
      && forall k :: 0 <= k < n ==>
           r.ledger[|s.ledger| + k] == Born(|s.ledger| + k, targets[k], event, incident, now)
  {
    if n > 0 {
      InsertedEntries(s, targets, event, incident, now, n - 1);
    }
  }

  /** Kept as it was, or trimmed in an overflow. */
  predicate KeptOrTrimmed(before: Entry, after: Entry, overflow: bool) {
    after == before || (overflow && before.fate == Queued && after == before.(fate := Trimmed))
  }

  lemma TrimOutcome(s: State, id: nat)
    requires Valid(s) && id < |s.ledger|
    ensures |Trim(s).ledger| == |s.ledger|
    ensures KeptOrTrimmed(s.ledger[id], Trim(s).ledger[id], |s.rows| > QUEUE_CAP)
  {
    TrimmedIdsAreIds(s.rows);
    if id in TrimmedIds(s.rows) {
      var r :| r in s.rows && r.id == id;
      assert RowOk(r, s.ledger[id]);
    }
  }

  lemma CancelOutcome(s: State, event: EventType, incident: string, now: int, id: nat)
    requires Valid(s) && id < |s.ledger|
    ensures |CancelHeld(s, event, incident, now).ledger| == |s.ledger|
    ensures CancelHeld(s, event, incident, now).ledger[id] ==
      if ClearsEscalation(event) && HeldEntry(s.ledger[id], incident, now)
      then s.ledger[id].(fate := Cancelled) else s.ledger[id]
  {
    HeldRowsAreHeldEntries(s, incident, now, id);
  }

  lemma FilledOutcome(y: System, event: EventType, incident: string, now: int, id: nat)
    requires SystemOk(y)
    requires id < |y.queue.ledger| + |Targets(y.hooks, event)|
    ensures var before, targets := y.queue.ledger, Targets(y.hooks, event);
      var filled := Filled(y, event, incident, now).ledger;
      && |filled| == |before| + |targets|
      && filled[id] ==
           if id >= |before| then Born(id, targets[id - |before|], event, incident, now)
           else if ClearsEscalation(event) && HeldEntry(before[id], incident, now) then before[id].(fate := Cancelled)
           else before[id]
  {
    hide Valid, InsertAll, CancelHeld, HeldEntry, IdsIncrease, Owners, HookIds;
    var before, targets := y.queue.ledger, Targets(y.hooks, event);
    var cancelled := CancelHeld(y.queue, event, incident, now);
    var filled := Filled(y, event, incident, now).ledger;
    InsertedEntries(cancelled, targets, event, incident, now, |targets|);
    CancelledLedger(y.queue, event, incident, now);
    if id < |before| {
      CancelOutcome(y.queue, event, incident, now, id);
      assert filled[id] == cancelled.ledger[id];
    } else {
      var k := id - |before|;
      assert filled[|before| + k] == Born(|before| + k, targets[k], event, incident, now);
    }
  }

  lemma CancelledLedger(s: State, event: EventType, incident: string, now: int)
    ensures |CancelHeld(s, event, incident, now).ledger| == |s.ledger|
  {
  }

  /** An emission cancels exactly the deliveries of its own incident that are still held back, and only if the event
      clears a fault; each subscribed and enabled webhook gets one new delivery, due after its own delay; every
      other delivery is kept, unless the queue overflows. */
  lemma EmissionDecidesExactly(y: System, event: EventType, incident: string, now: int, id: nat)
    requires SystemOk(y)
    requires id < |y.queue.ledger| + |Targets(y.hooks, event)|
    ensures var before, targets := y.queue.ledger, Targets(y.hooks, event);
      var after := Perform(y, EmitEvent(event, incident, now)).queue.ledger;
      var overflow := |Filled(y, event, incident, now).rows| > QUEUE_CAP;
      && |after| == |before| + |targets|
      && (id >= |before| ==>
            KeptOrTrimmed(Born(id, targets[id - |before|], event, incident, now), after[id], overflow))
      && (id < |before| && ClearsEscalation(event) && HeldEntry(before[id], incident, now) ==>
            after[id] == before[id].(fate := Cancelled))
      && (id < |before| && !(ClearsEscalation(event) && HeldEntry(before[id], incident, now)) ==>
            KeptOrTrimmed(before[id], after[id], overflow))
  {
    FilledRows(y, event, incident, now);
    FilledOutcome(y, event, incident, now, id);
    var filled := Filled(y, event, incident, now);
    TrimOutcome(filled, id);
    assert Perform(y, EmitEvent(event, incident, now)).queue
        == if Targets(y.hooks, event) == [] then filled else Trim(filled);
    hide Valid, Filled, Trim, Perform, HeldEntry, SystemOk, Emit;
  }

  // ----- in the source's own constants -----

  /** A new delivery is due at once, unless it tells of a new fault or degradation: then it is held for the webhook's
      own escalation minutes. */
  lemma NewDeliveryTells(y: System, event: EventType, incident: string, now: int, id: nat)
    requires SystemOk(y) && |y.queue.ledger| <= id < |y.queue.ledger| + |Targets(y.hooks, event)|
    ensures var hook := Targets(y.hooks, event)[id - |y.queue.ledger|];
      var after := Perform(y, EmitEvent(event, incident, now)).queue.ledger;
      && id < |after| && after[id].attempts == []
      && hook in y.hooks && hook.enabled && event in hook.events
      && var birth := after[id].birth;
        && birth.webhook == hook.id && birth.event == event && birth.incident == incident && birth.created == now
        && (event == FaultOpened || event == DegradationDetected ==>
              birth.nextAttempt == now + 60 * hook.escalationMinutes && birth.escalation == 60 * hook.escalationMinutes)
        && (event != FaultOpened && event != DegradationDetected ==> birth.nextAttempt == now && birth.escalation == 0)
  {
    EmissionDecidesExactly(y, event, incident, now, id);
    assert Targets(y.hooks, event)[id - |y.queue.ledger|] in Targets(y.hooks, event);
    hide Perform, SystemOk, Filled, Targets;
  }

  /** Exactly a recovery, a close and a false-alarm mark cancel, and exactly untouched fault and degradation deliveries
      of the same incident that are not due yet. */
  lemma CancellationTells(y: System, event: EventType, incident: string, now: int, id: nat)
    requires SystemOk(y) && id < |y.queue.ledger| && y.queue.ledger[id].fate != Cancelled
    ensures var e, after := y.queue.ledger[id], Perform(y, EmitEvent(event, incident, now)).queue.ledger;
      && id < |after|
      && (after[id].fate == Cancelled <==>
            && (event == FaultRecovered || event == FaultClosed || event == FalseAlarmMarked)
            && e.fate == Queued && e.attempts == [] && now < e.birth.created + e.birth.escalation
            && (e.birth.event == FaultOpened || e.birth.event == DegradationDetected)
            && incident != "" && e.birth.incident == incident)
  {
    EmissionDecidesExactly(y, event, incident, now, id);
    hide Perform, SystemOk, Filled, Targets;
  }

  /** What becomes of a due delivery. */
  lemma OutcomeTells(e: Entry, hook: Option<Webhook>, now: int, sent: Sent)
    ensures var r := Outcome(e, hook, now, sent);
      && r.birth == e.birth
      && (hook.None? || !hook.value.enabled ==> r.fate == DroppedWithWebhook && r.attempts == e.attempts)
      && (hook.Some? && hook.value.enabled && now > e.birth.created + e.birth.escalation + 86400 ==>
            r.fate == Expired(now) && r.attempts == e.attempts)
      && (hook.Some? && hook.value.enabled && now <= e.birth.created + e.birth.escalation + 86400 ==>
            && r.attempts == e.attempts + [Attempt(now, sent.at)]
            && (r.fate == Delivered || r.fate == GivenUp(sent.status) || r.fate == e.fate)
            && (!sent.error && sent.status.Some? && sent.status.value < 400 ==> r.fate == Delivered)
            && (sent.error || sent.status.None? || sent.status.value >= 400 ==>
                  if |e.attempts| >= 9 || (|e.attempts| >= 2 && (sent.status == Some(404) || sent.status == Some(410)))
                  then r.fate == GivenUp(sent.status) else r.fate == e.fate))
  {
  }

  /** When a stored delivery is tried next. */
  lemma ScheduleTells(y: System, row: Row)
    requires SystemOk(y) && row in y.queue.rows
    ensures row.id < |y.queue.ledger| && row.attempts == |y.queue.ledger[row.id].attempts| <= 9
    ensures var e, n := y.queue.ledger[row.id], row.attempts;
      && (n == 0 ==> row.nextAttempt == e.birth.created + e.birth.escalation)
      && (n == 1 ==> row.nextAttempt == e.attempts[0].clock + 30)
      && (n == 2 ==> row.nextAttempt == e.attempts[1].clock + 120)
      && (n == 3 ==> row.nextAttempt == e.attempts[2].clock + 600)
      && (n == 4 ==> row.nextAttempt == e.attempts[3].clock + 1800)
      && (n >= 5 ==> row.nextAttempt == e.attempts[n - 1].clock + 3600)
  {
    assert RowOk(row, y.queue.ledger[row.id]) && EntryOk(y.queue.ledger[row.id], row.id);
  }

  /** Deleting a webhook drops exactly its own queued deliveries. */
  lemma DeletionTells(y: System, webhook: nat, id: nat)
    requires SystemOk(y) && id < |y.queue.ledger|
    ensures var e, after := y.queue.ledger[id], Perform(y, DeleteHook(webhook)).queue.ledger;
      && |after| == |y.queue.ledger|
      && (if e.fate == Queued && e.birth.webhook == webhook then after[id] == e.(fate := DroppedWithWebhook)
          else after[id] == e)
  {
    OwnRowsAreRows(y.queue.rows, webhook);
    var ids := Ids(OwnRows(y.queue.rows, webhook));
    assert id in ids <==> y.queue.ledger[id].fate == Queued && y.queue.ledger[id].birth.webhook == webhook by {
      assert forall r :: r in y.queue.rows ==> RowOk(r, y.queue.ledger[r.id]);
      if y.queue.ledger[id].fate == Queued {
        assert id in Ids(y.queue.rows);
      }
    }
  }
}
