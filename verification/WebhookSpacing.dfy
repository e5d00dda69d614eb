/** How far apart the sends of one delivery really are. A drain pass reads the clock once, sends up to twenty
    deliveries one after the other, and counts the backoff of each from its own clock reading. */
module WebhookSpacing {
  import opened Options
  import opened WebhookRows
  import opened WebhookQueue
  import opened WebhookService
  import opened WebhookOutcomes

  /** The time from attempt `n` to the one after it. */
  function Gap(attempts: seq<Attempt>, n: nat): int
    requires 0 < n < |attempts|
  {
    attempts[n].at - attempts[n - 1].at
  }

  /** How long attempt `n` waited for its turn inside its pass. */
  function Wait(attempts: seq<Attempt>, n: nat): int
    requires 0 < n <= |attempts|
  {
    attempts[n - 1].at - attempts[n - 1].clock
  }

  /** Two sends are at least the backoff apart, less the time the earlier one waited inside its pass. */
  lemma SendsAreSpaced(y: System, id: nat, n: nat)
    requires Reachable(y) && id < |y.queue.ledger| && 0 < n < |y.queue.ledger[id].attempts|
    ensures n < MAX_ATTEMPTS
    ensures Gap(y.queue.ledger[id].attempts, n) >= Backoff(n) - Wait(y.queue.ledger[id].attempts, n)
  {
    EveryRowIsAccountedFor(y, id);
  }

  // ----- every history that is spaced like this happens -----

  function Birth(hook: Webhook, event: EventType, incident: string, created: int): Row {
    Row(0, hook.id, event, incident, created, 0, created + Delay(hook, event), Delay(hook, event))
  }

  /** One webhook and one delivery for it. */
  ghost predicate Lone(y: System, hook: Webhook, e: Entry) {
    Reachable(y) && y.hooks == [hook] && y.queue.ledger == [e]
  }

  lemma FirstDelivery(hook: Webhook, event: EventType, incident: string, created: int) returns (y: System)
    requires hook.enabled && event in hook.events
    ensures Lone(y, hook, Entry(Birth(hook, event, incident, created), [], Queued))
  {
    StartsEmpty();
    RunsGoOn(Empty(), CreateHook(hook));
    var x := Perform(Empty(), CreateHook(hook));
    assert x == System([hook], State([], []));
    RunsGoOn(x, EmitEvent(event, incident, created));
    y := Perform(x, EmitEvent(event, incident, created));
    assert Targets(x.hooks, event) == [hook];
    assert CancelHeld(x.queue, event, incident, created) == x.queue;
    hide Reachable, Valid, Perform, InsertAll, CancelHeld, Emit;
    EmissionDecidesExactly(x, event, incident, created, 0);
  }

  lemma StartsEmpty()
    ensures Reachable(Empty())
  {
    assert IsRun([Empty()], []);
  }

  /** The answers of a pass in which every send begins at `at` and fails. */
  function Failures(at: int): seq<Sent> {
    seq(DRAIN_BATCH, i requires 0 <= i < DRAIN_BATCH => Sent(at, None, true))
  }

  lemma {:induction false} IdsReach(rows: seq<Row>)
    requires IdsIncrease(rows)
    ensures forall i :: 0 <= i < |rows| ==> i <= rows[i].id
  {
    if |rows| > 1 {
      var front := rows[..|rows| - 1];
      IdsReach(front);
      assert rows[|rows| - 2] == front[|front| - 1];
    }
  }

  /** A due delivery that is left out of a batch has at least a whole batch of older ids before it. */
  lemma LeftOutIsYounger(rows: seq<Row>, now: int, row: Row)
    requires IdsIncrease(rows) && row in rows && row.nextAttempt <= now && row !in Due(rows, now, DRAIN_BATCH)
    ensures DRAIN_BATCH <= row.id
  {
    var due := Due(rows, now, DRAIN_BATCH);
    BatchIsTheOldestDue(rows, now, DRAIN_BATCH, row);
    DueInOrder(rows, now, DRAIN_BATCH);
    IdsReach(due);
    assert due[DRAIN_BATCH - 1] in due;
  }

  lemma DueRowIsDrained(y: System, now: int, id: nat) returns (j: nat)
    requires SystemOk(y) && id < |y.queue.ledger| <= DRAIN_BATCH && y.queue.ledger[id].fate == Queued
    requires NextAttempt(y.queue.ledger[id]) <= now
    ensures j < |Due(y.queue.rows, now, DRAIN_BATCH)| && Due(y.queue.rows, now, DRAIN_BATCH)[j].id == id
  {
    assert id in Ids(y.queue.rows);
    var r :| r in y.queue.rows && r.id == id;
    assert RowOk(r, y.queue.ledger[id]);
    var due := Due(y.queue.rows, now, DRAIN_BATCH);
    if r !in due {
      LeftOutIsYounger(y.queue.rows, now, r);
      assert false;
    }
    j :| 0 <= j < |due| && due[j] == r;
  }

  /** When a queued delivery is due next. */
  function NextAttempt(e: Entry): int
    requires |e.attempts| <= MAX_ATTEMPTS
  {
    if e.attempts == [] then DueAt(e.birth) else e.attempts[|e.attempts| - 1].clock + Backoff(|e.attempts|)
  }

  /** A failing pass at a time when the delivery is due and not expired adds exactly its attempt. */
  lemma FailingPass(x: System, hook: Webhook, e: Entry, attempt: Attempt) returns (y: System)
    requires Lone(x, hook, e) && hook.enabled && e.birth.webhook == hook.id && e.fate == Queued
    requires |e.attempts| < MAX_ATTEMPTS && NextAttempt(e) <= attempt.clock <= attempt.at
    requires attempt.clock <= DueAt(e.birth) + MAX_AGE_SECONDS
    ensures |y.queue.ledger| == 1 && y.queue.ledger[0].attempts == e.attempts + [attempt]
    ensures |e.attempts| + 1 < MAX_ATTEMPTS ==> y.queue.ledger[0] == OneMore(e, attempt)
    ensures Lone(y, hook, y.queue.ledger[0])
  {
    var op := DrainQueue(attempt.clock, Failures(attempt.at));
    RunsGoOn(x, op);
    y := Perform(x, op);
    ReachableIsOk(x);
    var j := DueRowIsDrained(x, attempt.clock, 0);
    DrainDecidesEachOnItsOwn(x, attempt.clock, Failures(attempt.at), 0);
    assert FindHook(x.hooks, hook.id) == Some(hook);
    assert y.hooks == x.hooks;
  }

  /** The bounds of `AttemptsSpaced` are exact: every list of attempts that keeps them is the history of a delivery
      that is still queued. */
  lemma {:induction false} EveryHistoryHappens(
    hook: Webhook, event: EventType, incident: string, created: int, attempts: seq<Attempt>) returns (y: System)
    requires hook.enabled && event in hook.events
    requires AttemptsSpaced(Birth(hook, event, incident, created), attempts) && |attempts| < MAX_ATTEMPTS
    ensures Lone(y, hook, Entry(Birth(hook, event, incident, created), attempts, Queued))
  {
    var birth := Birth(hook, event, incident, created);
    if attempts == [] {
      y := FirstDelivery(hook, event, incident, created);
    } else {
      var n := |attempts| - 1;
      var x := EveryHistoryHappens(hook, event, incident, created, attempts[..n]);
      assert attempts == attempts[..n] + [attempts[n]];
      hide Lone;
      y := FailingPass(x, hook, Entry(birth, attempts[..n], Queued), attempts[n]);
    }
  }

  // ----- when the full backoff is guaranteed -----

  /** Clock readings of passes that follow each other as soon as the backoff allows. */
  function Clock(j: nat): (r: int)
    ensures 0 <= r <= 3600 * j
  {
    if j == 0 then 0 else Clock(j - 1) + Backoff(j)
  }

  /** `n` attempts at those readings, the last of which waits inside its pass. */
  function WaitingLast(n: nat, wait: nat): seq<Attempt> {
    seq(n, j requires 0 <= j < n => Attempt(Clock(j), Clock(j) + if j == n - 1 then wait else 0))
  }

  lemma WaitingLastIsSpaced(birth: Row, n: nat, wait: nat)
    requires DueAt(birth) == 0 && n < MAX_ATTEMPTS
    ensures AttemptsSpaced(birth, WaitingLast(n, wait))
  {
  }

  ghost predicate Repeated(y: System, id: nat, n: nat, wait: int) {
    && id < |y.queue.ledger| && 0 < n < |y.queue.ledger[id].attempts|
    && Wait(y.queue.ledger[id].attempts, n) == wait
  }

  /** A wait inside the pass shortens the backoff by all of its length. While the wait is no longer than the backoff
      this needs no clock that steps back: the next pass reads the clock after the earlier send began. */
  lemma ShortestGap(n: nat, wait: nat) returns (y: System)
    requires 0 < n < MAX_ATTEMPTS
    ensures Reachable(y) && Repeated(y, 0, n, wait)
    ensures Gap(y.queue.ledger[0].attempts, n) == Backoff(n) - wait
    ensures wait <= Backoff(n) ==> y.queue.ledger[0].attempts[n - 1].at <= y.queue.ledger[0].attempts[n].clock
  {
    var hook, event := Webhook(0, true, {Other("")}, 0), Other("");
    var birth := Birth(hook, event, "", 0);
    var attempts := WaitingLast(n, wait);
    WaitingLastIsSpaced(birth, n, wait);
    var x := EveryHistoryHappens(hook, event, "", 0, attempts);
    var next := Attempt(Clock(n), Clock(n));
    assert attempts[n - 1] == Attempt(Clock(n - 1), Clock(n - 1) + wait);
    y := FailingPass(x, hook, Entry(birth, attempts, Queued), next);
    assert y.queue.ledger[0].attempts[n - 1] == attempts[n - 1];
  }

  /** The next send of a delivery is guaranteed to come no sooner than the full backoff exactly when the earlier one
      began at its pass's clock reading. */
  lemma FullBackoffExactly(n: nat, wait: nat)
    requires 0 < n < MAX_ATTEMPTS
    ensures (forall y: System, id: nat :: Reachable(y) && Repeated(y, id, n, wait) ==>
              Gap(y.queue.ledger[id].attempts, n) >= Backoff(n)) <==> wait == 0
  {
    forall y: System, id: nat | Reachable(y) && Repeated(y, id, n, wait)
      ensures Gap(y.queue.ledger[id].attempts, n) >= Backoff(n) - wait
    {
      SendsAreSpaced(y, id, n);
    }
    hide Reachable;
    if wait > 0 {
      var y := ShortestGap(n, wait);
      assert Gap(y.queue.ledger[0].attempts, n) < Backoff(n);
    }
  }

  // ----- when the clock never steps back -----

  /** No pass reads the clock before the last send of the pass before it began. */
  ghost predicate NeverBack(attempts: seq<Attempt>) {
    forall j :: 0 < j < |attempts| ==> attempts[j - 1].at <= attempts[j].clock
  }

  function AtLeast(a: int, b: int): int {
    if a < b then b else a
  }

  /** The earliest clock readings that the spacing allows. */
  lemma {:induction false} NoneEarlier(birth: Row, attempts: seq<Attempt>, j: nat)
    requires AttemptsSpaced(birth, attempts) && j < |attempts|
    ensures DueAt(birth) + Clock(j) <= attempts[j].clock
  {
    if j > 0 {
      NoneEarlier(birth, attempts, j - 1);
    }
  }

  /** While the clock never steps back, two sends are at least what is left of the backoff apart, and never in the
      wrong order; and an attempt that waits past the age limit is the last. */
  lemma ForwardSendsAreSpaced(y: System, id: nat, n: nat)
    requires Reachable(y) && id < |y.queue.ledger| && 0 < n < |y.queue.ledger[id].attempts|
    requires NeverBack(y.queue.ledger[id].attempts)
    ensures var attempts := y.queue.ledger[id].attempts;
      && n < MAX_ATTEMPTS
      && Gap(attempts, n) >= AtLeast(0, Backoff(n) - Wait(attempts, n))
      && Wait(attempts, n) <= MAX_AGE_SECONDS - Clock(n - 1)
  {
    ReachableIsOk(y);
    assert EntryOk(y.queue.ledger[id], id);
    NoneEarlier(y.queue.ledger[id].birth, y.queue.ledger[id].attempts, n - 1);
  }

  /** And every such wait has a history, with a clock that never steps back, in which the next send comes exactly that
      early. */
  lemma ShortestForwardGap(n: nat, wait: nat) returns (y: System)
    requires 0 < n < MAX_ATTEMPTS && wait <= MAX_AGE_SECONDS - Clock(n - 1)
    ensures Reachable(y) && Repeated(y, 0, n, wait) && NeverBack(y.queue.ledger[0].attempts)
    ensures Gap(y.queue.ledger[0].attempts, n) == AtLeast(0, Backoff(n) - wait)
  {
    var hook, event := Webhook(0, true, {Other("")}, 0), Other("");
    var birth := Birth(hook, event, "", 0);
    var attempts := WaitingLast(n, wait);
    WaitingLastIsSpaced(birth, n, wait);
    var x := EveryHistoryHappens(hook, event, "", 0, attempts);
    var at := Clock(n - 1) + AtLeast(wait, Backoff(n));
    assert attempts[n - 1] == Attempt(Clock(n - 1), Clock(n - 1) + wait);
    y := FailingPass(x, hook, Entry(birth, attempts, Queued), Attempt(at, at));
    assert y.queue.ledger[0].attempts[n - 1] == attempts[n - 1];
    hide Lone, Reachable;
    forall j | 0 < j <= n ensures y.queue.ledger[0].attempts[j - 1].at <= y.queue.ledger[0].attempts[j].clock {
      if j < n {
        assert y.queue.ledger[0].attempts[j] == attempts[j] && y.queue.ledger[0].attempts[j - 1] == attempts[j - 1];
        assert Clock(j) == Clock(j - 1) + Backoff(j);
      }
    }
  }

  // ----- a history with no pause at all -----

  /** The first webhook's endpoint swallows every request until the timeout; the second one's answers with errors. */
  const SILENT := Webhook(1, true, {Other("silent")}, 0)
  const FAILING := Webhook(2, true, {Other("failing")}, 0)

  lemma TrimNothing(s: State)
    requires |s.rows| <= QUEUE_CAP
    ensures Trim(s) == s
  {
    WithoutNothing(s.rows);
  }

  lemma EmitToOne(y: System, hook: Webhook, event: EventType, now: int)
    requires SystemOk(y) && Targets(y.hooks, event) == [hook] && !ClearsEscalation(event)
    requires |y.queue.rows| < QUEUE_CAP
    ensures Perform(y, EmitEvent(event, "", now))
         == y.(queue := Insert(y.queue, hook.id, event, "", now, Delay(hook, event)))
  {
    var s := Insert(y.queue, hook.id, event, "", now, Delay(hook, event));
    TrimNothing(s);
    assert InsertAll(y.queue, [hook], event, "", now, 0) == y.queue;
    hide Trim, Insert, SystemOk;
    assert InsertAll(y.queue, [hook], event, "", now, 1) == s;
  }

  function FiveRows(t: int): seq<Row> {
    seq(5, i requires 0 <= i < 5 =>
      if i < 4 then Row(i, 1, Other("silent"), "", t, 0, t, 0) else Row(i, 2, Other("failing"), "", t, 0, t, 0))
  }

  function FiveEntries(t: int): seq<Entry> {
    seq(5, i requires 0 <= i < 5 => Entry(FiveRows(t)[i], [], Queued))
  }

  lemma BothHooks() returns (y: System)
    ensures Reachable(y) && y == System([SILENT, FAILING], State([], []))
  {
    StartsEmpty();
    RunsGoOn(Empty(), CreateHook(SILENT));
    var x := Perform(Empty(), CreateHook(SILENT));
    assert x == System([SILENT], State([], []));
    RunsGoOn(x, CreateHook(FAILING));
    y := Perform(x, CreateHook(FAILING));
  }

  lemma OnlyTarget(silent: bool)
    ensures Targets([SILENT, FAILING], if silent then Other("silent") else Other("failing"))
         == [if silent then SILENT else FAILING]
    ensures FindHook([SILENT, FAILING], 2) == Some(FAILING)
    ensures FindHook([SILENT.(enabled := false), FAILING], 2) == Some(FAILING)
  {
    assert [SILENT, FAILING][1..] == [FAILING] && [FAILING][1..] == [];
    assert [SILENT.(enabled := false), FAILING][1..] == [FAILING];
  }

  lemma OneMoreRow(t: int, n: nat)
    requires 0 < n <= 5
    ensures Insert(State(FiveRows(t)[..n - 1], FiveEntries(t)[..n - 1]), if n < 5 then 1 else 2,
                   if n < 5 then Other("silent") else Other("failing"), "", t, 0)
         == State(FiveRows(t)[..n], FiveEntries(t)[..n])
  {
  }

  /** Four deliveries for the first webhook and one for the second, all due. */
  lemma {:induction false} FiveDeliveries(t: int, n: nat) returns (y: System)
    requires n <= 5
    ensures Reachable(y) && y == System([SILENT, FAILING], State(FiveRows(t)[..n], FiveEntries(t)[..n]))
  {
    if n == 0 {
      y := BothHooks();
    } else {
      var x := FiveDeliveries(t, n - 1);
      var event := if n < 5 then Other("silent") else Other("failing");
      var hook := if n < 5 then SILENT else FAILING;
      hide Perform, Reachable, SystemOk, FiveRows, FiveEntries, Insert, Targets;
      ReachableIsOk(x);
      RunsGoOn(x, EmitEvent(event, "", t));
      OnlyTarget(n < 5);
      EmitToOne(x, hook, event, t);
      OneMoreRow(t, n);
      y := Perform(x, EmitEvent(event, "", t));
    }
  }

  lemma {:induction false} AllDue(rows: seq<Row>, now: int, limit: nat)
    requires |rows| <= limit && forall r :: r in rows ==> r.nextAttempt <= now
    ensures Due(rows, now, limit) == rows
  {
    if rows != [] {
      AllDue(rows[1..], now, limit - 1);
    }
  }

  /** Each of the first four sends takes the ten seconds of the timeout. */
  function TenSecondsEach(t: int): seq<Sent> {
    seq(DRAIN_BATCH, j requires 0 <= j < DRAIN_BATCH => Sent(t + if j < 4 then 10 * j else 40, None, true))
  }

  lemma FailedOnce(e: Entry, now: int, sent: Sent)
    requires now <= DueAt(e.birth) + MAX_AGE_SECONDS && |e.attempts| < GONE_MAX_ATTEMPTS - 1 && sent.error
    ensures Outcome(e, Some(FAILING), now, sent) == OneMore(e, Attempt(now, sent.at))
  {
  }

  lemma DrainKeepsHooks(y: System, now: int, sent: seq<Sent>)
    requires SystemOk(y)
    ensures Perform(y, DrainQueue(now, sent)).hooks == y.hooks
  {
  }

  lemma FiveAreDue(t: int)
    ensures |FiveRows(t)| == |FiveEntries(t)| == 5 && FiveEntries(t)[4] == Entry(FiveRows(t)[4], [], Queued)
    ensures FiveRows(t)[4].webhook == 2 && DueAt(FiveRows(t)[4]) == t
    ensures |Due(FiveRows(t), t, DRAIN_BATCH)| == 5 && Due(FiveRows(t), t, DRAIN_BATCH)[4].id == 4
    ensures |TenSecondsEach(t)| == DRAIN_BATCH && TenSecondsEach(t)[4] == Sent(t + 40, None, true)
    ensures SentInOrder(t, TenSecondsEach(t))
  {
    AllDue(FiveRows(t), t, DRAIN_BATCH);
  }

  lemma SlowPass(t: int) returns (y: System)
    ensures Reachable(y) && y.hooks == [SILENT, FAILING] && |y.queue.ledger| == 5
    ensures y.queue.ledger[4] == Entry(FiveRows(t)[4], [Attempt(t, t + 40)], Queued)
  {
    hide Reachable, SystemOk, Outcome, FiveRows, FiveEntries, Due, FindHook, TenSecondsEach, Perform;
    var x := FiveDeliveries(t, 5);
    FiveAreDue(t);
    assert x.queue == State(FiveRows(t), FiveEntries(t));
    ReachableIsOk(x);
    RunsGoOn(x, DrainQueue(t, TenSecondsEach(t)));
    y := Perform(x, DrainQueue(t, TenSecondsEach(t)));
    DrainDecidesEachOnItsOwn(x, t, TenSecondsEach(t), 4);
    OnlyTarget(true);
    FailedOnce(FiveEntries(t)[4], t, TenSecondsEach(t)[4]);
    DrainKeepsHooks(x, t, TenSecondsEach(t));
  }

  /** The fifth delivery of a slow pass is sent forty seconds after its clock reading. The next pass may follow at
      once, and when the first webhook has been disabled meanwhile nothing delays it: the same delivery is sent
      again with no pause. */
  lemma SentAgainAtOnce(t: int) returns (y: System)
    ensures Reachable(y) && |y.queue.ledger| == 5
    ensures y.queue.ledger[4].attempts == [Attempt(t, t + 40), Attempt(t + 40, t + 40)]
    ensures Gap(y.queue.ledger[4].attempts, 1) == 0
  {
    hide Reachable, SystemOk, Outcome;
    var x := SlowPass(t);
    var off := UpdateHook(SILENT.(enabled := false));
    ReachableIsOk(x);
    RunsGoOn(x, off);
    var w := Perform(x, off);
    assert w.hooks == [SILENT.(enabled := false), FAILING] && w.queue == x.queue;
    ReachableIsOk(w);
    RunsGoOn(w, DrainQueue(t + 40, Failures(t + 40)));
    y := Perform(w, DrainQueue(t + 40, Failures(t + 40)));
    hide Perform;
    var j := DueRowIsDrained(w, t + 40, 4);
    DrainDecidesEachOnItsOwn(w, t + 40, Failures(t + 40), 4);
    OnlyTarget(true);
    FailedOnce(w.queue.ledger[4], t + 40, Failures(t + 40)[0]);
  }
}
