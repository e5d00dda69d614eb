/** The queue operations as they change the stored rows. */
module WebhookTables {
  import opened WebhookRows
  import opened WebhookQueue

  class QueueTables {
    var hooks: seq<Webhook>
    var rows: seq<Row>
    var nextId: nat
    ghost var ledger: seq<Entry>

    ghost function Queue(): State
      reads this
    {
      State(rows, ledger)
    }

    /** Row ids are handed out in order, one per ledger entry. */
    ghost predicate Consistent()
      reads this
    {
      nextId == |ledger| && Valid(Queue())
    }

    constructor ()
      ensures Consistent() && Queue() == State([], []) && hooks == []
    {
      hooks, rows, nextId, ledger := [], [], 0, [];
    }

    /** The cancellation part of `emit_event`: collect the held rows of the incident, then delete them. */
    method CancelHeldRows(incident: string, now: int)
      requires Consistent()
      modifies this`rows, this`ledger
      ensures Consistent() && Queue() == Settle(old(Queue()), HeldIds(old(rows), incident, now), Cancelled)
    {
      var ids: set<nat> := {};
      for i := 0 to |rows|
        invariant ids == HeldIds(rows[..i], incident, now)
      {
        assert rows[..i + 1] == rows[..i] + [rows[i]];
        if Held(rows[i], incident, now) {
          ids := ids + {rows[i].id};
        }
      }
      assert rows[..|rows|] == rows;
      CancelKeeps(Queue(), FaultClosed, incident, now);
      ledger := Settle(Queue(), ids, Cancelled).ledger;
      rows := Without(rows, ids);
    }

    /** One INSERT per subscribed webhook. */
    method InsertRows(targets: seq<Webhook>, event: EventType, incident: string, now: int)
      requires Consistent()
      modifies this`rows, this`nextId, this`ledger
      ensures Consistent() && Queue() == InsertAll(old(Queue()), targets, event, incident, now, |targets|)
    {
      hide Valid;
      for n := 0 to |targets|
        invariant Consistent() && Queue() == InsertAll(old(Queue()), targets, event, incident, now, n)
      {
        var delay := Delay(targets[n], event);
        InsertKeeps(Queue(), targets[n].id, event, incident, now, delay);
        var row := Row(nextId, targets[n].id, event, incident, now, 0, now + delay, delay);
        rows := rows + [row];
        nextId := nextId + 1;
        ledger := ledger + [Entry(row, [], Queued)];
      }
    }

    /** `emit_event`. */
    method EmitEvent(event: EventType, incident: string, now: int) returns (queued: nat)
      requires Consistent()
      modifies this`rows, this`nextId, this`ledger
      ensures Consistent() && Queue() == Emit(old(Queue()), hooks, event, incident, now)
      ensures queued == |Targets(hooks, event)|
    {
      hide Valid, InsertAll, TrimmedRows, TrimmedIds, HeldIds;
      if ClearsEscalation(event) {
        CancelHeldRows(incident, now);
      }
      var targets := Targets(hooks, event);
      InsertRows(targets, event, incident, now);
      queued := |targets|;
      if queued > 0 {
        ghost var before := Queue();
        TrimKeeps(before);
        rows := TrimOverflow(rows);
        ledger := Trim(before).ledger;
      }
    }

    /** One row of `drain_queue_once`; the results say what to count. */
    method DrainRow(row: Row, webhooks: seq<Webhook>, now: int, sent: Sent) returns (delivered: nat, failed: nat)
      requires row.id < |ledger|
      modifies this`rows, this`ledger
      ensures Queue() == DrainOne(old(Queue()), row, webhooks, now, sent)
      ensures (delivered, failed) == Tally(row, webhooks, now, sent)
    {
      DrainOneRows(Queue(), row, webhooks, now, sent);
      hide DrainOne;
      ledger := DrainOne(Queue(), row, webhooks, now, sent).ledger;
      var hook := FindHook(webhooks, row.webhook);
      if hook.None? || !hook.value.enabled {
        rows := Without(rows, {row.id});
        return 0, 0;
      }
      if now - row.created > MAX_AGE_SECONDS + row.escalation {
        rows := Without(rows, {row.id});
        return 0, 1;
      }
      if !sent.error && sent.status.Some? && sent.status.value < 400 {
        rows := Without(rows, {row.id});
        return 1, 0;
      }
      var attempts := row.attempts + 1;
      if GivesUp(attempts, sent) {
        rows := Without(rows, {row.id});
      } else {
        rows := Replace(rows, row.(attempts := attempts, nextAttempt := now + Backoff(attempts)));
      }
      return 0, 1;
    }

    /** The loop of `drain_queue_once` over a snapshot of the due rows. */
    method DrainRows(due: seq<Row>, webhooks: seq<Webhook>, now: int, sent: seq<Sent>)
      returns (delivered: nat, failed: nat)
      requires Valid(Queue()) && |due| <= |sent| && IdsIncrease(due) && Pending(due, 0, rows) && SentInOrder(now, sent)
      requires forall j :: 0 <= j < |due| ==> due[j].nextAttempt <= now && due[j].id < |ledger|
      modifies this`rows, this`ledger
      ensures Valid(Queue()) && |ledger| == |old(ledger)|
      ensures Queue() == DrainFrom(old(Queue()), due, webhooks, now, sent, 0)
      ensures (delivered, failed) == TallyUpTo(due, webhooks, now, sent, |due|)
    {
      hide DrainOne, Valid, Tally, IdsIncrease, DrainFrom;
      ghost var goal := DrainFrom(Queue(), due, webhooks, now, sent, 0);
      delivered, failed := 0, 0;
      for k := 0 to |due|
        invariant Valid(Queue()) && |ledger| == |old(ledger)| && Pending(due, k, rows)
        invariant DrainFrom(Queue(), due, webhooks, now, sent, k) == goal
        invariant (delivered, failed) == TallyUpTo(due, webhooks, now, sent, k)
      {
        DrainStepKeeps(Queue(), due, k, webhooks, now, sent[k]);
        DrainFromStep(Queue(), due, webhooks, now, sent, k);
        var d, f := DrainRow(due[k], webhooks, now, sent[k]);
        delivered, failed := delivered + d, failed + f;
      }
      DrainFromEnd(Queue(), due, webhooks, now, sent);
    }

    /** `drain_queue_once`. */
    method DrainQueueOnce(now: int, sent: seq<Sent>) returns (delivered: nat, failed: nat)
      requires Consistent() && |sent| >= DRAIN_BATCH && SentInOrder(now, sent)
      modifies this`rows, this`ledger
      ensures Consistent() && Queue() == Drain(old(Queue()), hooks, now, sent)
      ensures var due := Due(old(rows), now, DRAIN_BATCH);
        (delivered, failed) == TallyUpTo(due, hooks, now, sent, |due|)
    {
      var due := Due(rows, now, DRAIN_BATCH);
      DueInOrder(rows, now, DRAIN_BATCH);
      DrainFromStart(Queue(), due, hooks, now, sent);
      delivered, failed := DrainRows(due, hooks, now, sent);
    }

    /** The queue part of `delete_webhook`. */
    method DeleteWebhook(id: nat) returns (found: bool)
      requires Consistent()
      modifies this
      ensures Consistent()
      ensures found == FindHook(old(hooks), id).Some?
      ensures found ==> Queue() == DropHook(old(Queue()), id) && hooks == RemoveFrom(old(hooks), id)
      ensures !found ==> Queue() == old(Queue()) && hooks == old(hooks)
    {
      if FindHook(hooks, id).None? {
        return false;
      }
      DropHookKeeps(Queue(), id);
      ledger := DropHook(Queue(), id).ledger;
      rows := Without(rows, Ids(OwnRows(rows, id)));
      hooks := RemoveFrom(hooks, id);
      return true;
    }
  }

  /** The rows after one row has been drained. */
  function RowsAfter(rows: seq<Row>, row: Row, hooks: seq<Webhook>, now: int, sent: Sent): seq<Row> {
    var hook := FindHook(hooks, row.webhook);
    if hook.None? || !hook.value.enabled || TooOld(row, now) || Succeeded(sent) || GivesUp(row.attempts + 1, sent)
    then Without(rows, {row.id})
    else Replace(rows, Retried(row, now))
  }

  lemma DrainOneRows(s: State, row: Row, hooks: seq<Webhook>, now: int, sent: Sent)
    requires row.id < |s.ledger|
    ensures DrainOne(s, row, hooks, now, sent).rows == RowsAfter(s.rows, row, hooks, now, sent)
  {
    hide Without, Replace;
  }

  lemma DrainFromStart(s: State, due: seq<Row>, hooks: seq<Webhook>, now: int, sent: seq<Sent>)
    requires Valid(s) && |sent| >= DRAIN_BATCH && due == Due(s.rows, now, DRAIN_BATCH)
    ensures forall j :: 0 <= j < |due| ==> due[j].id < |s.ledger|
    ensures Drain(s, hooks, now, sent) == DrainFrom(s, due, hooks, now, sent, 0)
  {
  }

  lemma DrainFromStep(s: State, due: seq<Row>, hooks: seq<Webhook>, now: int, sent: seq<Sent>, k: nat)
    requires k < |due| <= |sent|
    requires forall j :: k <= j < |due| ==> due[j].id < |s.ledger|
    requires |DrainOne(s, due[k], hooks, now, sent[k]).ledger| == |s.ledger|
    ensures DrainFrom(s, due, hooks, now, sent, k)
         == DrainFrom(DrainOne(s, due[k], hooks, now, sent[k]), due, hooks, now, sent, k + 1)
  {
    hide DrainOne;
  }

  lemma DrainFromEnd(s: State, due: seq<Row>, hooks: seq<Webhook>, now: int, sent: seq<Sent>)
    requires |due| <= |sent|
    ensures DrainFrom(s, due, hooks, now, sent, |due|) == s
  {
  }

  /** What one drained row adds to the counts (delivered, failed). */
  function Tally(row: Row, hooks: seq<Webhook>, now: int, sent: Sent): (nat, nat) {
    var hook := FindHook(hooks, row.webhook);
    if hook.None? || !hook.value.enabled then (0, 0)
    else if !TooOld(row, now) && Succeeded(sent) then (1, 0)
    else (0, 1)
  }

  function TallyUpTo(due: seq<Row>, hooks: seq<Webhook>, now: int, sent: seq<Sent>, k: nat): (nat, nat)
    requires k <= |due| <= |sent|
  {
    if k == 0 then (0, 0)
    else
      var (d, f) := TallyUpTo(due, hooks, now, sent, k - 1);
      var (d', f') := Tally(due[k - 1], hooks, now, sent[k - 1]);
      (d + d', f + f')
  }

  /** A pass counts a delivery as delivered exactly when it was, and as failed exactly when it was tried in vain or had
      expired; one dropped with its webhook is not counted. */
  lemma TallyTells(row: Row, hooks: seq<Webhook>, now: int, sent: Sent)
    ensures var hook := FindHook(hooks, row.webhook);
      var tried := hook.Some? && hook.value.enabled && now <= row.created + row.escalation + 86400;
      && (hook.None? || !hook.value.enabled ==> Tally(row, hooks, now, sent) == (0, 0))
      && (tried && !sent.error && sent.status.Some? && sent.status.value < 400 ==>
            Tally(row, hooks, now, sent) == (1, 0))
      && (tried && (sent.error || sent.status.None? || sent.status.value >= 400) ==>
            Tally(row, hooks, now, sent) == (0, 1))
      && (hook.Some? && hook.value.enabled && !tried ==> Tally(row, hooks, now, sent) == (0, 1))
  {
  }
}
