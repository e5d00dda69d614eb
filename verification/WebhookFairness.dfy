/** No delivery starves: a due delivery is passed over by a bounded number of drain passes, whatever else happens to
    the queue meanwhile. */
module WebhookFairness {
  import opened Options
  import opened WebhookRows
  import opened WebhookQueue
  import opened WebhookService
  import opened WebhookOutcomes

  /** The attempts a queued delivery still has. */
  function Left(e: Entry): nat {
    if e.fate == Queued && |e.attempts| <= MAX_ATTEMPTS then MAX_ATTEMPTS - |e.attempts| else 0
  }

  /** The attempts that the deliveries before `n` still have. */
  function Load(ledger: seq<Entry>, n: nat): nat
    requires n <= |ledger|
  {
    if n == 0 then 0 else Load(ledger, n - 1) + Left(ledger[n - 1])
  }

  function Below(ids: set<nat>, n: nat): set<nat> {
    set id | id in ids && id < n
  }

  lemma {:induction false} LoadDrops(a: seq<Entry>, b: seq<Entry>, ids: set<nat>, n: nat)
    requires n <= |a| <= |b|
    requires forall id :: 0 <= id < n ==> Left(b[id]) + (if id in ids then 1 else 0) <= Left(a[id])
    ensures Load(b, n) + |Below(ids, n)| <= Load(a, n)
  {
    if n > 0 {
      LoadDrops(a, b, ids, n - 1);
      assert Below(ids, n) == Below(ids, n - 1) + if n - 1 in ids then {n - 1} else {};
    } else {
      assert Below(ids, 0) == {};
    }
  }

  /** No operation gives a delivery new attempts. */
  lemma HistoryDrops(a: seq<Entry>, b: seq<Entry>, n: nat)
    requires HistoryKept(a, b) && n <= |a|
    ensures Load(b, n) <= Load(a, n)
  {
    forall id | 0 <= id < n ensures Left(b[id]) <= Left(a[id]) {
      assert EntryKept(a[id], b[id]);
    }
    LoadDrops(a, b, {}, n);
  }

  lemma {:induction false} IdsCount(rows: seq<Row>)
    requires IdsIncrease(rows)
    ensures |Ids(rows)| == |rows|
  {
    if rows != [] {
      var n := |rows| - 1;
      IdsCount(rows[..n]);
      assert rows == rows[..n] + [rows[n]];
      assert Ids(rows) == Ids(rows[..n]) + {rows[n].id};
      assert rows[n].id !in Ids(rows[..n]);
    } else {
      assert Ids(rows) == {};
    }
  }

  // ----- being passed over -----

  /** A drain pass finds the delivery due and leaves it out of its batch. */
  ghost predicate PassedOver(y: System, op: Operation, id: nat) {
    && op.DrainQueue? && |op.sent| >= DRAIN_BATCH && SentInOrder(op.now, op.sent)
    && id !in Ids(Due(y.queue.rows, op.now, DRAIN_BATCH))
    && exists r :: r in y.queue.rows && r.id == id && r.nextAttempt <= op.now
  }

  lemma OutcomeCosts(e: Entry, hook: Option<Webhook>, now: int, sent: Sent)
    requires e.fate == Queued && |e.attempts| < MAX_ATTEMPTS
    ensures Left(Outcome(e, hook, now, sent)) + 1 <= Left(e)
  {
  }

  /** Every delivery of the batch is settled or loses an attempt. */
  lemma BatchCosts(y: System, now: int, sent: seq<Sent>, id: nat)
    requires SystemOk(y) && |sent| >= DRAIN_BATCH && SentInOrder(now, sent)
    requires id in Ids(Due(y.queue.rows, now, DRAIN_BATCH))
    ensures var after := Perform(y, DrainQueue(now, sent)).queue.ledger;
      id < |y.queue.ledger| <= |after| && Left(after[id]) + 1 <= Left(y.queue.ledger[id])
  {
    var due := Due(y.queue.rows, now, DRAIN_BATCH);
    var r :| r in due && r.id == id;
    var j :| 0 <= j < |due| && due[j] == r;
    assert RowOk(r, y.queue.ledger[id]) && EntryOk(y.queue.ledger[id], id);
    hide SystemOk, Outcome, Left, Perform;
    DrainDecidesEachOnItsOwn(y, now, sent, id);
    OutcomeCosts(y.queue.ledger[id], FindHook(y.hooks, y.queue.ledger[id].birth.webhook), now, sent[j]);
  }

  /** A pass that leaves a due delivery out spends twenty of the attempts of the deliveries before it. */
  lemma PassingOverCosts(y: System, op: Operation, id: nat)
    requires SystemOk(y) && PassedOver(y, op, id) && id < |y.queue.ledger|
    ensures |y.queue.ledger| <= |Perform(y, op).queue.ledger|
    ensures Load(Perform(y, op).queue.ledger, id) + 20 <= Load(y.queue.ledger, id)
  {
    var due := Due(y.queue.rows, op.now, DRAIN_BATCH);
    var row :| row in y.queue.rows && row.id == id && row.nextAttempt <= op.now;
    DueInOrder(y.queue.rows, op.now, DRAIN_BATCH);
    BatchIsTheOldestDue(y.queue.rows, op.now, DRAIN_BATCH, row);
    IdsCount(due);
    FateIsFinal(y, op);
    var before, after := y.queue.ledger, Perform(y, op).queue.ledger;
    hide SystemOk, Perform, Due, Left;
    forall j | 0 <= j < id ensures Left(after[j]) + (if j in Ids(due) then 1 else 0) <= Left(before[j]) {
      if j in Ids(due) {
        BatchCosts(y, op.now, op.sent, j);
      } else {
        assert EntryKept(before[j], after[j]);
        KeptCosts(before[j], after[j]);
      }
    }
    LoadDrops(before, after, Ids(due), id);
    assert Below(Ids(due), id) == Ids(due);
  }

  lemma KeptCosts(a: Entry, b: Entry)
    requires EntryKept(a, b)
    ensures Left(b) <= Left(a)
  {
  }

  // ----- how often that can happen -----

  lemma {:induction false} LoadOfQueued(ledger: seq<Entry>, queued: set<nat>, n: nat)
    requires n <= |ledger| && forall id :: 0 <= id < n && ledger[id].fate == Queued ==> id in queued
    ensures Load(ledger, n) <= MAX_ATTEMPTS * |Below(queued, n)|
  {
    if n > 0 {
      LoadOfQueued(ledger, queued, n - 1);
      assert Below(queued, n) == Below(queued, n - 1) + if n - 1 in queued then {n - 1} else {};
    }
  }

  /** At most 499 deliveries are queued before a queued one. */
  lemma LoadIsBounded(y: System, id: nat)
    requires SystemOk(y) && id < |y.queue.ledger| && y.queue.ledger[id].fate == Queued
    ensures Load(y.queue.ledger, id) <= MAX_ATTEMPTS * (QUEUE_CAP - 1)
  {
    var ids := Ids(y.queue.rows);
    IdsCount(y.queue.rows);
    LoadOfQueued(y.queue.ledger, ids, id);
    assert id in ids && Below(ids, id) <= ids - {id};
    assert ids - {id} == Below(ids, id) + (ids - {id} - Below(ids, id));
  }

  ghost function After(y: System, ops: seq<Operation>): (r: System)
    requires SystemOk(y)
    ensures SystemOk(r)
  {
    if ops == [] then y
    else
      var x := After(y, ops[..|ops| - 1]);
      OperationsKeepOk(x, ops[|ops| - 1]);
      Perform(x, ops[|ops| - 1])
  }

  /** How many of the operations pass the delivery over. */
  ghost function TimesPassedOver(y: System, ops: seq<Operation>, id: nat): nat
    requires SystemOk(y)
  {
    if ops == [] then 0
    else
      TimesPassedOver(y, ops[..|ops| - 1], id)
        + if PassedOver(After(y, ops[..|ops| - 1]), ops[|ops| - 1], id) then 1 else 0
  }

  lemma {:induction false} PassesSpendAttempts(y: System, ops: seq<Operation>, id: nat)
    requires SystemOk(y) && id < |y.queue.ledger|
    ensures id < |After(y, ops).queue.ledger|
    ensures DRAIN_BATCH * TimesPassedOver(y, ops, id) + Load(After(y, ops).queue.ledger, id) <= Load(y.queue.ledger, id)
    ensures y.queue.ledger[id].fate != Queued ==> After(y, ops).queue.ledger[id] == y.queue.ledger[id]
  {
    if ops != [] {
      var front, last := ops[..|ops| - 1], ops[|ops| - 1];
      var x := After(y, front);
      hide Perform, SystemOk, PassedOver;
      PassesSpendAttempts(y, front, id);
      FateIsFinal(x, last);
      assert EntryKept(x.queue.ledger[id], Perform(x, last).queue.ledger[id]);
      if PassedOver(x, last, id) {
        PassingOverCosts(x, last, id);
      } else {
        HistoryDrops(x.queue.ledger, Perform(x, last).queue.ledger, id);
      }
    }
  }

  lemma {:induction false} SettledIsNotPassedOver(y: System, ops: seq<Operation>, id: nat)
    requires SystemOk(y) && id < |y.queue.ledger| && y.queue.ledger[id].fate != Queued
    ensures TimesPassedOver(y, ops, id) == 0
  {
    if ops != [] {
      var front, last := ops[..|ops| - 1], ops[|ops| - 1];
      SettledIsNotPassedOver(y, front, id);
      PassesSpendAttempts(y, front, id);
      var x := After(y, front);
      hide Perform;
      assert forall r :: r in x.queue.rows && r.id == id ==> RowOk(r, x.queue.ledger[id]);
    }
  }

  /** From any state on, over any sequence of emissions, drain passes and changes to the webhooks, a delivery is passed
      over at most 249 times while it is due: the next pass that finds it due takes it. */
  lemma NoDeliveryStarves(y: System, ops: seq<Operation>, id: nat)
    requires SystemOk(y) && id < |y.queue.ledger|
    ensures TimesPassedOver(y, ops, id) <= 249
  {
    if y.queue.ledger[id].fate == Queued {
      LoadIsBounded(y, id);
      PassesSpendAttempts(y, ops, id);
    } else {
      SettledIsNotPassedOver(y, ops, id);
    }
  }
}
