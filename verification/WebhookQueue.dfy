/** The delivery queue: `emit_event`, `drain_queue_once` and `delete_webhook` in linkmoth_webhooks.py, each run
    whole. Beside the stored rows the model keeps a ledger with the fate of every row that was ever queued. */
module WebhookQueue {
  import opened Options
  import opened WebhookRows

  datatype Webhook = Webhook(id: nat, enabled: bool, events: set<EventType>, escalationMinutes: nat)

  const MAX_ATTEMPTS := 10
  const GONE_MAX_ATTEMPTS := 3
  const MAX_AGE_SECONDS := 24 * 3600
  const BACKOFF_SECONDS := [30, 120, 600, 1800, 3600]
  const DRAIN_BATCH := 20

  /** The wait after the attempt with this number. */
  function Backoff(attempts: nat): (r: int)
    requires attempts > 0
    ensures r >= 30
  {
    BACKOFF_SECONDS[if attempts - 1 < 4 then attempts - 1 else 4]
  }

  predicate Escalatable(e: EventType) {
    e.FaultOpened? || e.DegradationDetected?
  }

  predicate ClearsEscalation(e: EventType) {
    e.FaultRecovered? || e.FaultClosed? || e.FalseAlarmMarked?
  }

  // ----- the ledger -----

  datatype Fate =
    | Queued
    | Delivered
    | GivenUp(status: Option<int>)
    | Expired(at: int)
    | DroppedWithWebhook
    | Cancelled
    | Trimmed

  /** One attempt: the clock reading of the drain pass it belongs to, and when its own send began. A pass reads
      the clock once and then sends one delivery after the other. */
  datatype Attempt = Attempt(clock: int, at: int)

  /** A queued row as it was inserted, its attempts, and what became of it. */
  datatype Entry = Entry(birth: Row, attempts: seq<Attempt>, fate: Fate)

  /** Row ids are positions in the ledger. */
  datatype State = State(rows: seq<Row>, ledger: seq<Entry>)

  function DueAt(birth: Row): int {
    birth.created + birth.escalation
  }

  /** Attempts never start before the delivery is due nor in a pass more than a day after that, and their passes read
      the clock at least the backoff apart. */
  ghost predicate AttemptsSpaced(birth: Row, attempts: seq<Attempt>) {
    && |attempts| <= MAX_ATTEMPTS
    && (forall j :: 0 <= j < |attempts| ==> DueAt(birth) <= attempts[j].clock <= attempts[j].at)
    && (forall j :: 0 <= j < |attempts| ==> attempts[j].clock <= DueAt(birth) + MAX_AGE_SECONDS)
    && (forall j :: 0 < j < |attempts| ==> attempts[j - 1].clock + Backoff(j) <= attempts[j].clock)
  }

  ghost predicate FateFits(e: Entry) {
    match e.fate
    case Queued => |e.attempts| < MAX_ATTEMPTS
    case Delivered => e.attempts != []
    case GivenUp(status) =>
      || |e.attempts| == MAX_ATTEMPTS
      || ((status == Some(404) || status == Some(410)) && |e.attempts| >= GONE_MAX_ATTEMPTS)
    case Expired(at) => at > DueAt(e.birth) + MAX_AGE_SECONDS
    case DroppedWithWebhook => true
    case Cancelled => e.attempts == [] && Escalatable(e.birth.event)
    case Trimmed => true
  }

  ghost predicate EntryOk(e: Entry, id: nat) {
    && e.birth.id == id && e.birth.escalation >= 0
    && AttemptsSpaced(e.birth, e.attempts)
    && FateFits(e)
  }

  /** A stored row is its birth plus its attempts so far. */
  ghost predicate RowOk(row: Row, e: Entry) {
    && e.fate == Queued
    && row == e.birth.(attempts := |e.attempts|, nextAttempt :=
         if e.attempts == [] then DueAt(e.birth) else e.attempts[|e.attempts| - 1].clock + Backoff(|e.attempts|))
  }

  ghost predicate Valid(s: State) {
    && IdsIncrease(s.rows)
    && (forall r :: r in s.rows ==> r.id < |s.ledger| && RowOk(r, s.ledger[r.id]))
    && (forall id :: 0 <= id < |s.ledger| ==> EntryOk(s.ledger[id], id))
    && (forall id :: 0 <= id < |s.ledger| && s.ledger[id].fate == Queued ==> id in Ids(s.rows))
  }

  // ----- single steps -----

  /** Delete some rows; all of them meet the same fate. */
  function Settle(s: State, ids: set<nat>, fate: Fate): State {
    State(Without(s.rows, ids),
          seq(|s.ledger|, id requires 0 <= id < |s.ledger| =>
            if id in ids then s.ledger[id].(fate := fate) else s.ledger[id]))
  }

  lemma SettleKeeps(s: State, ids: set<nat>, fate: Fate)
    requires Valid(s) && ids <= Ids(s.rows) && fate != Queued
    requires forall r :: r in s.rows && r.id in ids ==> FateFits(s.ledger[r.id].(fate := fate))
    ensures Valid(Settle(s, ids, fate))
  {
    var t := Settle(s, ids, fate);
    WithoutKeepsOrder(s.rows, ids);
    forall id | 0 <= id < |s.ledger| ensures EntryOk(t.ledger[id], id) {
      if id in ids {
        var r :| r in s.rows && r.id == id;
      }
    }
    forall id | 0 <= id < |s.ledger| && t.ledger[id].fate == Queued ensures id in Ids(t.rows) {
      assert id in Ids(s.rows);
      var r :| r in s.rows && r.id == id;
      assert r in t.rows;
    }
  }

  /** INSERT one row. */
  function Insert(s: State, webhook: nat, event: EventType, incident: string, now: int, delay: int): State {
    var row := Row(|s.ledger|, webhook, event, incident, now, 0, now + delay, delay);
    State(s.rows + [row], s.ledger + [Entry(row, [], Queued)])
  }

  lemma InsertKeeps(s: State, webhook: nat, event: EventType, incident: string, now: int, delay: int)
    requires Valid(s) && delay >= 0
    ensures Valid(Insert(s, webhook, event, incident, now, delay))
  {
    var t := Insert(s, webhook, event, incident, now, delay);
    assert t.rows[|s.rows|] in t.rows;
    forall id | 0 <= id < |t.ledger| && t.ledger[id].fate == Queued ensures id in Ids(t.rows) {
      if id < |s.ledger| {
        assert id in Ids(s.rows);
        var r :| r in s.rows && r.id == id;
        assert r in t.rows;
      }
    }
  }

  /** When sending one delivery began, and what it came back with. */
  datatype Sent = Sent(at: int, status: Option<int>, error: bool)

  /** The sends of one pass, none before the clock reading `now` and one after the other. */
  predicate SentInOrder(now: int, sent: seq<Sent>) {
    && (forall j :: 0 <= j < |sent| ==> now <= sent[j].at)
    && (forall i, j :: 0 <= i < j < |sent| ==> sent[i].at <= sent[j].at)
  }

  predicate Succeeded(sent: Sent) {
    !sent.error && sent.status.Some? && sent.status.value < 400
  }

  predicate GivesUp(attempts: nat, sent: Sent) {
    || attempts >= MAX_ATTEMPTS
    || ((sent.status == Some(404) || sent.status == Some(410)) && attempts >= GONE_MAX_ATTEMPTS)
  }

  /** The row leaves the queue after one more attempt. */
  function Conclude(s: State, row: Row, attempt: Attempt, fate: Fate): State
    requires row.id < |s.ledger|
  {
    var e := s.ledger[row.id];
    State(Without(s.rows, {row.id}), s.ledger[row.id := Entry(e.birth, e.attempts + [attempt], fate)])
  }

  /** UPDATE of one row. */
  function Replace(rows: seq<Row>, row: Row): seq<Row> {
    seq(|rows|, i requires 0 <= i < |rows| => if rows[i].id == row.id then row else rows[i])
  }

  function Retried(row: Row, now: int): Row {
    row.(attempts := row.attempts + 1, nextAttempt := now + Backoff(row.attempts + 1))
  }

  function OneMore(e: Entry, attempt: Attempt): Entry {
    e.(attempts := e.attempts + [attempt])
  }

  /** The row stays for another attempt. */
  function Retry(s: State, row: Row, attempt: Attempt): State
    requires row.id < |s.ledger|
  {
    State(Replace(s.rows, Retried(row, attempt.clock)), s.ledger[row.id := OneMore(s.ledger[row.id], attempt)])
  }

  lemma OneMoreAttempt(row: Row, e: Entry, attempt: Attempt)
    requires EntryOk(e, row.id) && RowOk(row, e) && row.nextAttempt <= attempt.clock <= attempt.at
    requires attempt.clock <= DueAt(row) + MAX_AGE_SECONDS
    ensures AttemptsSpaced(e.birth, e.attempts + [attempt])
  {
    var attempts := e.attempts + [attempt];
    if e.attempts != [] {
      assert DueAt(e.birth) <= e.attempts[|e.attempts| - 1].clock;
    }
  }

  lemma ConcludedEntryOk(row: Row, e: Entry, attempt: Attempt, fate: Fate)
    requires EntryOk(e, row.id) && RowOk(row, e) && row.nextAttempt <= attempt.clock <= attempt.at
    requires attempt.clock <= DueAt(row) + MAX_AGE_SECONDS
    requires fate == Delivered || (fate.GivenUp? && GivesUp(row.attempts + 1, Sent(attempt.at, fate.status, true)))
    ensures EntryOk(Entry(e.birth, e.attempts + [attempt], fate), row.id)
  {
    OneMoreAttempt(row, e, attempt);
    hide AttemptsSpaced;
  }

  lemma ConcludeKeeps(s: State, row: Row, attempt: Attempt, fate: Fate)
    requires Valid(s) && row in s.rows && row.nextAttempt <= attempt.clock <= attempt.at
    requires attempt.clock <= DueAt(row) + MAX_AGE_SECONDS
    requires fate == Delivered || (fate.GivenUp? && GivesUp(row.attempts + 1, Sent(attempt.at, fate.status, true)))
    ensures Valid(Conclude(s, row, attempt, fate))
  {
    var t := Conclude(s, row, attempt, fate);
    ConcludedEntryOk(row, s.ledger[row.id], attempt, fate);
    WithoutKeepsOrder(s.rows, {row.id});
    hide EntryOk, RowOk;
    forall id | 0 <= id < |t.ledger| && t.ledger[id].fate == Queued ensures id in Ids(t.rows) {
      assert id in Ids(s.rows);
      var r :| r in s.rows && r.id == id;
      assert r in t.rows;
    }
  }

  lemma ReplaceKeepsIds(rows: seq<Row>, row: Row)
    ensures |Replace(rows, row)| == |rows|
    ensures forall i :: 0 <= i < |rows| ==> Replace(rows, row)[i].id == rows[i].id
    ensures Ids(rows) <= Ids(Replace(rows, row))
    ensures forall r :: r in Replace(rows, row) ==> r == row || (r in rows && r.id != row.id)
    ensures forall r :: r in rows && r.id != row.id ==> r in Replace(rows, row)
  {
    var after := Replace(rows, row);
    forall id | id in Ids(rows) ensures id in Ids(after) {
      var i :| 0 <= i < |rows| && rows[i].id == id;
      assert after[i] in after;
    }
    forall r | r in rows && r.id != row.id ensures r in after {
      var i :| 0 <= i < |rows| && rows[i] == r;
      assert after[i] == r;
    }
  }

  /** One row and its entry change together; everything else stays. */
  lemma OneEntryChanges(s: State, t: State, row: Row, e: Entry)
    requires Valid(s) && row.id < |s.ledger| && t.ledger == s.ledger[row.id := e]
    requires IdsIncrease(t.rows) && Ids(s.rows) <= Ids(t.rows)
    requires forall r :: r in t.rows ==> r == row || (r in s.rows && r.id != row.id)
    requires RowOk(row, e) && EntryOk(e, row.id) && row.id in Ids(t.rows)
    ensures Valid(t)
  {
    forall r | r in t.rows ensures r.id < |t.ledger| && RowOk(r, t.ledger[r.id]) {
    }
    forall id | 0 <= id < |t.ledger| && t.ledger[id].fate == Queued ensures id in Ids(t.rows) {
    }
  }

  lemma RetriedRowOk(row: Row, e: Entry, attempt: Attempt)
    requires EntryOk(e, row.id) && RowOk(row, e) && row.nextAttempt <= attempt.clock <= attempt.at
    requires row.attempts + 1 < MAX_ATTEMPTS && attempt.clock <= DueAt(row) + MAX_AGE_SECONDS
    ensures RowOk(Retried(row, attempt.clock), OneMore(e, attempt)) && EntryOk(OneMore(e, attempt), row.id)
  {
    OneMoreAttempt(row, e, attempt);
  }

  lemma RetryKeeps(s: State, row: Row, attempt: Attempt)
    requires Valid(s) && row in s.rows && row.nextAttempt <= attempt.clock <= attempt.at
    requires attempt.clock <= DueAt(row) + MAX_AGE_SECONDS
    requires row.attempts + 1 < MAX_ATTEMPTS
    ensures Valid(Retry(s, row, attempt))
  {
    RetriedRowOk(row, s.ledger[row.id], attempt);
    ReplaceKeepsIds(s.rows, Retried(row, attempt.clock));
    OneEntryChanges(s, Retry(s, row, attempt), Retried(row, attempt.clock), OneMore(s.ledger[row.id], attempt));
  }

  // ----- draining -----

  function FindHook(hooks: seq<Webhook>, id: nat): (r: Option<Webhook>)
    ensures r.Some? ==> r.value in hooks && r.value.id == id
    ensures r.None? ==> forall h :: h in hooks ==> h.id != id
  {
    if hooks == [] then None else if hooks[0].id == id then Some(hooks[0]) else FindHook(hooks[1..], id)
  }

  predicate TooOld(row: Row, now: int) {
    now - row.created > MAX_AGE_SECONDS + row.escalation
  }

  /** One due row. */
  function DrainOne(s: State, row: Row, hooks: seq<Webhook>, now: int, sent: Sent): State
    requires row.id < |s.ledger|
  {
    var hook := FindHook(hooks, row.webhook);
    if hook.None? || !hook.value.enabled then Settle(s, {row.id}, DroppedWithWebhook)
    else if TooOld(row, now) then Settle(s, {row.id}, Expired(now))
    else if Succeeded(sent) then Conclude(s, row, Attempt(now, sent.at), Delivered)
    else if GivesUp(row.attempts + 1, sent) then Conclude(s, row, Attempt(now, sent.at), GivenUp(sent.status))
    else Retry(s, row, Attempt(now, sent.at))
  }

  lemma DrainOneKeeps(s: State, row: Row, hooks: seq<Webhook>, now: int, sent: Sent)
    requires Valid(s) && row in s.rows && row.nextAttempt <= now <= sent.at
    ensures Valid(DrainOne(s, row, hooks, now, sent))
    ensures |DrainOne(s, row, hooks, now, sent).ledger| == |s.ledger|
    ensures forall r :: r in s.rows && r.id != row.id ==> r in DrainOne(s, row, hooks, now, sent).rows
  {
    var hook := FindHook(hooks, row.webhook);
    assert forall r :: r in s.rows && r.id == row.id ==> r == row;
    if hook.None? || !hook.value.enabled {
      SettleKeeps(s, {row.id}, DroppedWithWebhook);
    } else if TooOld(row, now) {
      SettleKeeps(s, {row.id}, Expired(now));
    } else if Succeeded(sent) {
      ConcludeKeeps(s, row, Attempt(now, sent.at), Delivered);
    } else if GivesUp(row.attempts + 1, sent) {
      ConcludeKeeps(s, row, Attempt(now, sent.at), GivenUp(sent.status));
    } else {
      RetryKeeps(s, row, Attempt(now, sent.at));
      ReplaceKeepsIds(s.rows, Retried(row, now));
    }
  }

  /** WHERE next_attempt<=? ORDER BY id LIMIT ?. */
  function Due(rows: seq<Row>, now: int, limit: nat): (r: seq<Row>)
    ensures |r| <= limit
    ensures forall x :: x in r ==> x in rows && x.nextAttempt <= now
  {
    if rows == [] || limit == 0 then []
    else if rows[0].nextAttempt <= now then [rows[0]] + Due(rows[1..], now, limit - 1)
    else Due(rows[1..], now, limit)
  }

  lemma {:induction false} DueInOrder(rows: seq<Row>, now: int, limit: nat)
    requires IdsIncrease(rows)
    ensures IdsIncrease(Due(rows, now, limit))
  {
    if rows != [] && limit > 0 {
      DueInOrder(rows[1..], now, if rows[0].nextAttempt <= now then limit - 1 else limit);
      var rest := Due(rows[1..], now, limit - 1);
      forall j | 0 <= j < |rest| ensures rows[0].id < rest[j].id {
        assert rest[j] in rest;
        var k :| 0 <= k < |rows[1..]| && rows[1..][k] == rest[j];
      }
    }
  }

  /** The rows of the snapshot from `k` on are still stored as they were. */
  ghost predicate Pending(due: seq<Row>, k: nat, rows: seq<Row>) {
    forall j :: k <= j < |due| ==> due[j] in rows
  }

  lemma DrainStepKeeps(s: State, due: seq<Row>, k: nat, hooks: seq<Webhook>, now: int, sent: Sent)
    requires Valid(s) && IdsIncrease(due) && k < |due| && Pending(due, k, s.rows)
    requires due[k].nextAttempt <= now <= sent.at
    ensures due[k].id < |s.ledger|
    ensures Valid(DrainOne(s, due[k], hooks, now, sent))
    ensures |DrainOne(s, due[k], hooks, now, sent).ledger| == |s.ledger|
    ensures Pending(due, k + 1, DrainOne(s, due[k], hooks, now, sent).rows)
  {
    DrainOneKeeps(s, due[k], hooks, now, sent);
    forall j | k + 1 <= j < |due| ensures due[j] in DrainOne(s, due[k], hooks, now, sent).rows {
      assert due[j] in s.rows && due[k].id < due[j].id;
    }
  }

  /** The due rows from `k` on, one after the other; `sent[k]` is what sending row `k` would give. */
  function DrainFrom(s: State, due: seq<Row>, hooks: seq<Webhook>, now: int, sent: seq<Sent>, k: nat): State
    requires k <= |due| <= |sent|
    requires forall j :: k <= j < |due| ==> due[j].id < |s.ledger|
    decreases |due| - k
  {
    if k == |due| then s else DrainFrom(DrainOne(s, due[k], hooks, now, sent[k]), due, hooks, now, sent, k + 1)
  }

  lemma {:induction false} DrainFromKeeps(
    s: State, due: seq<Row>, hooks: seq<Webhook>, now: int, sent: seq<Sent>, k: nat)
    requires k <= |due| <= |sent| && Valid(s) && IdsIncrease(due) && Pending(due, k, s.rows) && SentInOrder(now, sent)
    requires forall j :: k <= j < |due| ==> due[j].nextAttempt <= now
    ensures Valid(DrainFrom(s, due, hooks, now, sent, k))
    decreases |due| - k
  {
    hide DrainOne;
    if k < |due| {
      DrainStepKeeps(s, due, k, hooks, now, sent[k]);
      DrainFromKeeps(DrainOne(s, due[k], hooks, now, sent[k]), due, hooks, now, sent, k + 1);
    }
  }

  /** `drain_queue_once`. */
  function Drain(s: State, hooks: seq<Webhook>, now: int, sent: seq<Sent>): State
    requires |sent| >= DRAIN_BATCH
    requires forall r :: r in s.rows ==> r.id < |s.ledger|
  {
    DrainFrom(s, Due(s.rows, now, DRAIN_BATCH), hooks, now, sent, 0)
  }

  lemma DrainKeeps(s: State, hooks: seq<Webhook>, now: int, sent: seq<Sent>)
    requires Valid(s) && |sent| >= DRAIN_BATCH && SentInOrder(now, sent)
    ensures Valid(Drain(s, hooks, now, sent))
  {
    hide DrainOne;
    DueInOrder(s.rows, now, DRAIN_BATCH);
    DrainFromKeeps(s, Due(s.rows, now, DRAIN_BATCH), hooks, now, sent, 0);
  }

  // ----- emitting -----

  predicate Held(row: Row, incident: string, now: int) {
    row.attempts == 0 && row.nextAttempt > now && Escalatable(row.event) && incident != "" && row.incident == incident
  }

  function HeldIds(rows: seq<Row>, incident: string, now: int): set<nat> {
    set r | r in rows && Held(r, incident, now) :: r.id
  }

  function CancelHeld(s: State, event: EventType, incident: string, now: int): State {
    if ClearsEscalation(event) then Settle(s, HeldIds(s.rows, incident, now), Cancelled) else s
  }

  lemma CancelKeeps(s: State, event: EventType, incident: string, now: int)
    requires Valid(s)
    ensures Valid(CancelHeld(s, event, incident, now))
  {
    var ids := HeldIds(s.rows, incident, now);
    forall r | r in s.rows && r.id in ids ensures FateFits(s.ledger[r.id].(fate := Cancelled)) {
      var x :| x in s.rows && Held(x, incident, now) && x.id == r.id;
      assert RowOk(x, s.ledger[x.id]);
    }
    SettleKeeps(s, ids, Cancelled);
  }

  function Targets(hooks: seq<Webhook>, event: EventType): (r: seq<Webhook>)
    ensures |r| <= |hooks|
    ensures forall h :: h in r <==> h in hooks && h.enabled && event in h.events
  {
    if hooks == [] then []
    else if hooks[0].enabled && event in hooks[0].events then [hooks[0]] + Targets(hooks[1..], event)
    else Targets(hooks[1..], event)
  }

  function Delay(hook: Webhook, event: EventType): nat {
    if Escalatable(event) then hook.escalationMinutes * 60 else 0
  }

  function InsertAll(s: State, targets: seq<Webhook>, event: EventType, incident: string, now: int, n: nat): (r: State)
    requires n <= |targets|
    ensures |r.rows| == |s.rows| + n && |r.ledger| == |s.ledger| + n
  {
    if n == 0 then s
    else Insert(InsertAll(s, targets, event, incident, now, n - 1), targets[n - 1].id, event, incident, now,
                Delay(targets[n - 1], event))
  }

  lemma {:induction false} InsertAllKeeps(
    s: State, targets: seq<Webhook>, event: EventType, incident: string, now: int, n: nat)
    requires n <= |targets| && Valid(s)
    ensures Valid(InsertAll(s, targets, event, incident, now, n))
  {
    if n > 0 {
      InsertAllKeeps(s, targets, event, incident, now, n - 1);
      InsertKeeps(InsertAll(s, targets, event, incident, now, n - 1), targets[n - 1].id, event, incident, now,
                  Delay(targets[n - 1], event));
    }
  }

  function Trim(s: State): State {
    Settle(s, TrimmedIds(s.rows), Trimmed)
  }

  lemma {:induction false} TrimmedIdsAreIds(rows: seq<Row>)
    requires IdsIncrease(rows)
    ensures TrimmedIds(rows) <= Ids(rows)
    decreases |rows|
  {
    if |rows| > QUEUE_CAP {
      var ids := OldestIds(rows, Noisiest(rows), RoundSize(rows));
      OldestIdsAreIds(rows, Noisiest(rows), RoundSize(rows));
      DroppingIsDeletingIds(rows, Noisiest(rows), RoundSize(rows));
      WithoutKeepsOrder(rows, ids);
      TrimmedIdsAreIds(TrimOnce(rows));
      assert Ids(TrimOnce(rows)) <= Ids(rows);
    }
  }

  lemma TrimKeeps(s: State)
    requires Valid(s)
    ensures Valid(Trim(s)) && Trim(s).rows == TrimmedRows(s.rows)
  {
    hide TrimmedIds, Without, TrimmedRows;
    TrimmingKeepsNewest(s.rows);
    TrimmedIdsAreIds(s.rows);
    SettleKeeps(s, TrimmedIds(s.rows), Trimmed);
  }

  /** `emit_event`. */
  function Emit(s: State, hooks: seq<Webhook>, event: EventType, incident: string, now: int): State {
    var targets := Targets(hooks, event);
    var filled := InsertAll(CancelHeld(s, event, incident, now), targets, event, incident, now, |targets|);
    if targets == [] then filled else Trim(filled)
  }

  lemma EmitKeeps(s: State, hooks: seq<Webhook>, event: EventType, incident: string, now: int)
    requires Valid(s)
    ensures Valid(Emit(s, hooks, event, incident, now))
  {
    var targets := Targets(hooks, event);
    CancelKeeps(s, event, incident, now);
    InsertAllKeeps(CancelHeld(s, event, incident, now), targets, event, incident, now, |targets|);
    TrimKeeps(InsertAll(CancelHeld(s, event, incident, now), targets, event, incident, now, |targets|));
  }

  function RemoveFrom(hooks: seq<Webhook>, id: nat): (r: seq<Webhook>)
    ensures |r| <= |hooks|
    ensures forall h :: h in r <==> h in hooks && h.id != id
  {
    if hooks == [] then []
    else if hooks[0].id == id then RemoveFrom(hooks[1..], id)
    else [hooks[0]] + RemoveFrom(hooks[1..], id)
  }

  /** `delete_webhook`, as far as the queue is concerned. */
  function DropHook(s: State, webhook: nat): State {
    Settle(s, Ids(OwnRows(s.rows, webhook)), DroppedWithWebhook)
  }

  lemma {:induction false} OwnRowsAreRows(rows: seq<Row>, webhook: nat)
    ensures forall r :: r in OwnRows(rows, webhook) <==> r in rows && r.webhook == webhook
  {
    if rows != [] {
      OwnRowsAreRows(rows[1..], webhook);
    }
  }

  lemma DropHookKeeps(s: State, webhook: nat)
    requires Valid(s)
    ensures Valid(DropHook(s, webhook))
    ensures forall r :: r in DropHook(s, webhook).rows ==> r in s.rows && r.webhook != webhook
  {
    OwnRowsAreRows(s.rows, webhook);
    SettleKeeps(s, Ids(OwnRows(s.rows, webhook)), DroppedWithWebhook);
  }
}
