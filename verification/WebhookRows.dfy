/** The rows of the webhook queue and the trimming of an overfull queue (`emit_event` in
    linkmoth_webhooks.py). Rows are kept in the order of their ids. */
module WebhookRows {
  datatype EventType =
    | FaultOpened
    | DegradationDetected
    | FaultRecovered
    | FaultClosed
    | FalseAlarmMarked
    | Other(name: string)

  datatype Row = Row(
    id: nat,
    webhook: nat,
    event: EventType,
    incident: string,
    created: int,
    attempts: nat,
    nextAttempt: int,
    escalation: int)

  const QUEUE_CAP := 500
  const MAX_WEBHOOKS := 20

  predicate IdsIncrease(rows: seq<Row>) {
    forall i, j :: 0 <= i < j < |rows| ==> rows[i].id < rows[j].id
  }

  /** The rows of one webhook, oldest first. */
  function OwnRows(rows: seq<Row>, webhook: nat): seq<Row> {
    if rows == [] then []
    else if rows[0].webhook == webhook then [rows[0]] + OwnRows(rows[1..], webhook)
    else OwnRows(rows[1..], webhook)
  }

  function Backlog(rows: seq<Row>, webhook: nat): nat {
    |OwnRows(rows, webhook)|
  }

  /** The rows whose ids are not in the set. */
  function Without(rows: seq<Row>, ids: set<nat>): (r: seq<Row>)
    ensures forall x :: x in r <==> x in rows && x.id !in ids
  {
    if rows == [] then []
    else if rows[0].id in ids then Without(rows[1..], ids)
    else [rows[0]] + Without(rows[1..], ids)
  }

  lemma {:induction false} WithoutKeepsOrder(rows: seq<Row>, ids: set<nat>)
    requires IdsIncrease(rows)
    ensures IdsIncrease(Without(rows, ids))
  {
    if rows != [] {
      WithoutKeepsOrder(rows[1..], ids);
      var rest := Without(rows[1..], ids);
      forall j | 0 <= j < |rest| ensures rows[0].id < rest[j].id {
        assert rest[j] in rest;
        var k :| 0 <= k < |rows[1..]| && rows[1..][k] == rest[j];
      }
    }
  }

  /** DELETE of the `k` oldest rows of one webhook. */
  function DropOldest(rows: seq<Row>, webhook: nat, k: nat): seq<Row> {
    if rows == [] || k == 0 then rows
    else if rows[0].webhook == webhook then DropOldest(rows[1..], webhook, k - 1)
    else [rows[0]] + DropOldest(rows[1..], webhook, k)
  }

  /** The ids that this deletes. */
  function OldestIds(rows: seq<Row>, webhook: nat, k: nat): set<nat> {
    if rows == [] || k == 0 then {}
    else if rows[0].webhook == webhook then {rows[0].id} + OldestIds(rows[1..], webhook, k - 1)
    else OldestIds(rows[1..], webhook, k)
  }

  lemma {:induction false} DroppedRows(rows: seq<Row>, webhook: nat, k: nat)
    requires k <= Backlog(rows, webhook)
    ensures |DropOldest(rows, webhook, k)| == |rows| - k
    ensures OwnRows(DropOldest(rows, webhook, k), webhook) == OwnRows(rows, webhook)[k..]
    ensures forall v :: v != webhook ==> OwnRows(DropOldest(rows, webhook, k), v) == OwnRows(rows, v)
  {
    if rows != [] && k > 0 {
      DroppedRows(rows[1..], webhook, if rows[0].webhook == webhook then k - 1 else k);
    }
  }

  function Ids(rows: seq<Row>): set<nat> {
    set r | r in rows :: r.id
  }

  lemma {:induction false} OldestIdsAreIds(rows: seq<Row>, webhook: nat, k: nat)
    ensures OldestIds(rows, webhook, k) <= Ids(rows)
  {
    if rows != [] && k > 0 {
      OldestIdsAreIds(rows[1..], webhook, if rows[0].webhook == webhook then k - 1 else k);
      assert rows[0] in rows;
      assert Ids(rows[1..]) <= Ids(rows);
    }
  }

  lemma {:induction false} WithoutOthers(rows: seq<Row>, ids: set<nat>, id: nat)
    requires id !in Ids(rows)
    ensures Without(rows, ids + {id}) == Without(rows, ids)
  {
    if rows != [] {
      assert rows[0] in rows && Ids(rows[1..]) <= Ids(rows);
      WithoutOthers(rows[1..], ids, id);
    }
  }

  lemma {:induction false} DroppingIsDeletingIds(rows: seq<Row>, webhook: nat, k: nat)
    requires IdsIncrease(rows)
    ensures DropOldest(rows, webhook, k) == Without(rows, OldestIds(rows, webhook, k))
  {
    if rows == [] || k == 0 {
      WithoutNothing(rows);
    } else {
      var k' := if rows[0].webhook == webhook then k - 1 else k;
      DroppingIsDeletingIds(rows[1..], webhook, k');
      OldestIdsAreIds(rows[1..], webhook, k');
      assert rows[0].id !in Ids(rows[1..]);
      if rows[0].webhook == webhook {
        var ids := OldestIds(rows[1..], webhook, k');
        WithoutOthers(rows[1..], ids, rows[0].id);
        assert OldestIds(rows, webhook, k) == ids + {rows[0].id};
      } else {
        assert rows[0].id !in OldestIds(rows, webhook, k);
      }
    }
  }

  lemma {:induction false} WithoutNothing(rows: seq<Row>)
    ensures Without(rows, {}) == rows
  {
    if rows != [] {
      WithoutNothing(rows[1..]);
    }
  }

  // ----- the deepest backlog -----

  /** GROUP BY webhook ORDER BY count DESC, MIN(id) ASC LIMIT 1, over the first `n` rows' webhooks. */
  function NoisiestOf(rows: seq<Row>, n: nat): (w: nat)
    requires 0 < n <= |rows|
    ensures forall i :: 0 <= i < n ==> Backlog(rows, rows[i].webhook) <= Backlog(rows, w)
    ensures exists i :: 0 <= i < n && rows[i].webhook == w
  {
    if n == 1 then rows[0].webhook
    else
      var w := NoisiestOf(rows, n - 1);
      if Backlog(rows, rows[n - 1].webhook) > Backlog(rows, w) then rows[n - 1].webhook else w
  }

  function Noisiest(rows: seq<Row>): (w: nat)
    requires rows != []
    ensures forall i :: 0 <= i < |rows| ==> Backlog(rows, rows[i].webhook) <= Backlog(rows, w)
    ensures exists i :: 0 <= i < |rows| && rows[i].webhook == w
  {
    NoisiestOf(rows, |rows|)
  }

  lemma {:induction false} OwnersHaveBacklog(rows: seq<Row>, i: nat)
    requires i < |rows|
    ensures Backlog(rows, rows[i].webhook) > 0
  {
    if i > 0 {
      OwnersHaveBacklog(rows[1..], i - 1);
    }
  }

  /** Among tied backlogs the one with the oldest row loses first. */
  lemma {:induction false} NoisiestHasTheOldestRow(rows: seq<Row>, n: nat, i: nat)
    requires 0 < n <= |rows| && i < n && Backlog(rows, rows[i].webhook) == Backlog(rows, NoisiestOf(rows, n))
    ensures exists j :: 0 <= j <= i && rows[j].webhook == NoisiestOf(rows, n)
  {
    if n > 1 && NoisiestOf(rows, n) == NoisiestOf(rows, n - 1) && i < n - 1 {
      NoisiestHasTheOldestRow(rows, n - 1, i);
    }
  }

  // ----- trimming -----

  predicate IsSuffix(short: seq<Row>, long: seq<Row>) {
    |short| <= |long| && short == long[|long| - |short|..]
  }

  /** Every webhook keeps a newest-first suffix of its own rows. */
  ghost predicate KeepsNewest(before: seq<Row>, after: seq<Row>) {
    forall w :: IsSuffix(OwnRows(after, w), OwnRows(before, w))
  }

  lemma {:induction false} WithoutTwice(rows: seq<Row>, a: set<nat>, b: set<nat>)
    ensures Without(Without(rows, a), b) == Without(rows, a + b)
  {
    if rows != [] {
      WithoutTwice(rows[1..], a, b);
    }
  }

  lemma DroppingKeepsNewest(before: seq<Row>, rows: seq<Row>, w: nat, k: nat)
    requires KeepsNewest(before, rows) && k <= Backlog(rows, w)
    ensures KeepsNewest(before, DropOldest(rows, w, k))
  {
    DroppedRows(rows, w, k);
    var after := DropOldest(rows, w, k);
    forall v ensures IsSuffix(OwnRows(after, v), OwnRows(before, v)) {
      assert IsSuffix(OwnRows(rows, v), OwnRows(before, v));
      assert v != w ==> OwnRows(after, v) == OwnRows(rows, v);
    }
  }

  lemma NoisiestHasBacklog(rows: seq<Row>)
    requires rows != []
    ensures Backlog(rows, Noisiest(rows)) > 0
  {
    var i :| 0 <= i < |rows| && rows[i].webhook == Noisiest(rows);
    OwnersHaveBacklog(rows, i);
  }

  /** How many rows one round of the trimming loop deletes. */
  function RoundSize(rows: seq<Row>): (n: nat)
    requires |rows| > QUEUE_CAP
    ensures 0 < n <= |rows| - QUEUE_CAP && n <= Backlog(rows, Noisiest(rows))
  {
    NoisiestHasBacklog(rows);
    var overflow := |rows| - QUEUE_CAP;
    if overflow < Backlog(rows, Noisiest(rows)) then overflow else Backlog(rows, Noisiest(rows))
  }

  function TrimOnce(rows: seq<Row>): (r: seq<Row>)
    requires |rows| > QUEUE_CAP
    ensures |r| == |rows| - RoundSize(rows)
  {
    DroppedRows(rows, Noisiest(rows), RoundSize(rows));
    DropOldest(rows, Noisiest(rows), RoundSize(rows))
  }

  /** What the trimming loop leaves. */
  function TrimmedRows(rows: seq<Row>): (r: seq<Row>)
    ensures |r| == if |rows| <= 500 then |rows| else 500
    decreases |rows|
  {
    if |rows| <= QUEUE_CAP then rows else TrimmedRows(TrimOnce(rows))
  }

  /** The ids it deletes. */
  function TrimmedIds(rows: seq<Row>): set<nat>
    decreases |rows|
  {
    if |rows| <= QUEUE_CAP then {}
    else OldestIds(rows, Noisiest(rows), RoundSize(rows)) + TrimmedIds(TrimOnce(rows))
  }

  /** The trimming loop of `emit_event`. */
  method TrimOverflow(before: seq<Row>) returns (rows: seq<Row>)
    ensures rows == TrimmedRows(before)
  {
    rows := before;
    var overflow := |rows| - QUEUE_CAP;
    while overflow > 0
      invariant overflow == |rows| - QUEUE_CAP
      invariant TrimmedRows(rows) == TrimmedRows(before)
    {
      var noisiest := Noisiest(rows);
      var n := Backlog(rows, noisiest);
      var deleted := if overflow < n then overflow else n;
      assert deleted == RoundSize(rows);
      rows := DropOldest(rows, noisiest, deleted);
      overflow := overflow - deleted;
    }
  }

  /** Trimming deletes whole rows and nothing else, and every webhook keeps its newest. */
  lemma {:induction false} TrimmingKeepsNewest(rows: seq<Row>)
    requires IdsIncrease(rows)
    ensures TrimmedRows(rows) == Without(rows, TrimmedIds(rows))
    ensures KeepsNewest(rows, TrimmedRows(rows))
    decreases |rows|
  {
    WithoutNothing(rows);
    if |rows| > QUEUE_CAP {
      var once, ids := TrimOnce(rows), OldestIds(rows, Noisiest(rows), RoundSize(rows));
      DroppingIsDeletingIds(rows, Noisiest(rows), RoundSize(rows));
      WithoutKeepsOrder(rows, ids);
      DroppingKeepsNewest(rows, rows, Noisiest(rows), RoundSize(rows));
      TrimmingKeepsNewest(once);
      WithoutTwice(rows, ids, TrimmedIds(once));
      forall w ensures IsSuffix(OwnRows(TrimmedRows(rows), w), OwnRows(rows, w)) {
        assert IsSuffix(OwnRows(TrimmedRows(once), w), OwnRows(once, w));
        assert IsSuffix(OwnRows(once, w), OwnRows(rows, w));
      }
    }
  }

  // ----- who loses rows -----

  function NotOwnedBy(rows: seq<Row>, w: nat): (r: seq<Row>)
    ensures forall x :: x in r <==> x in rows && x.webhook != w
    ensures |r| + Backlog(rows, w) == |rows|
  {
    if rows == [] then []
    else if rows[0].webhook == w then NotOwnedBy(rows[1..], w)
    else [rows[0]] + NotOwnedBy(rows[1..], w)
  }

  lemma {:induction false} BacklogOfOthers(rows: seq<Row>, w: nat, v: nat)
    requires v != w
    ensures Backlog(NotOwnedBy(rows, w), v) == Backlog(rows, v)
  {
    if rows != [] {
      BacklogOfOthers(rows[1..], w, v);
    }
  }

  /** Pigeonhole: a queue of few owners has a deep backlog. */
  lemma {:induction false} Pigeonhole(rows: seq<Row>, owners: set<nat>, most: nat)
    requires forall r :: r in rows ==> r.webhook in owners
    requires forall w :: w in owners ==> Backlog(rows, w) <= most
    ensures |rows| <= |owners| * most
    decreases owners
  {
    hide OwnRows, NotOwnedBy;
    if rows != [] {
      assert rows[0] in rows;
      var w := rows[0].webhook;
      var rest := NotOwnedBy(rows, w);
      forall v | v in owners - {w} ensures Backlog(rest, v) <= most {
        BacklogOfOthers(rows, w, v);
      }
      Pigeonhole(rest, owners - {w}, most);
      OneMoreHole(|owners|, most);
    }
  }

  lemma FewHoles(holes: int, most: nat)
    requires 0 <= holes <= MAX_WEBHOOKS && most <= QUEUE_CAP / MAX_WEBHOOKS
    ensures holes * most <= QUEUE_CAP
  {
  }

  lemma OneMoreHole(holes: int, most: int)
    ensures (holes - 1) * most + most == holes * most
  {
  }

  lemma DeepBacklog(rows: seq<Row>, owners: set<nat>)
    requires |owners| <= MAX_WEBHOOKS && forall r :: r in rows ==> r.webhook in owners
    requires |rows| > QUEUE_CAP
    ensures Backlog(rows, Noisiest(rows)) > QUEUE_CAP / MAX_WEBHOOKS
  {
    hide OwnRows, NoisiestOf;
    var most := Backlog(rows, Noisiest(rows));
    forall v | v in owners ensures Backlog(rows, v) <= most {
      if Backlog(rows, v) > 0 {
        OwnRowsAreOwn(rows, v);
      }
    }
    Pigeonhole(rows, owners, most);
    if most <= QUEUE_CAP / MAX_WEBHOOKS {
      FewHoles(|owners|, most);
    }
  }

  lemma OneRoundIsEnough(rows: seq<Row>)
    requires 0 < |rows| - QUEUE_CAP <= Backlog(rows, Noisiest(rows))
    ensures TrimmedRows(rows) == DropOldest(rows, Noisiest(rows), |rows| - QUEUE_CAP)
  {
    assert RoundSize(rows) == |rows| - QUEUE_CAP;
    assert TrimmedRows(TrimOnce(rows)) == TrimOnce(rows);
  }

  /** When at most twenty webhooks own a queue that was within its cap before each of them got one more row,
      the webhook with the deepest backlog alone pays for the overflow, with its oldest rows. */
  lemma OnlyTheNoisiestPays(rows: seq<Row>, owners: set<nat>)
    requires |owners| <= 20 && forall r :: r in rows ==> r.webhook in owners
    requires 500 < |rows| <= 520
    ensures forall v :: v != Noisiest(rows) ==> OwnRows(TrimmedRows(rows), v) == OwnRows(rows, v)
    ensures |rows| - 500 <= Backlog(rows, Noisiest(rows))
    ensures OwnRows(TrimmedRows(rows), Noisiest(rows)) == OwnRows(rows, Noisiest(rows))[|rows| - 500..]
  {
    hide OwnRows, NoisiestOf, TrimmedRows, DropOldest;
    DeepBacklog(rows, owners);
    OneRoundIsEnough(rows);
    DroppedRows(rows, Noisiest(rows), |rows| - QUEUE_CAP);
  }

  lemma {:induction false} OwnRowsAreOwn(rows: seq<Row>, w: nat)
    requires Backlog(rows, w) > 0
    ensures exists i :: 0 <= i < |rows| && rows[i].webhook == w
  {
    if rows[0].webhook != w {
      OwnRowsAreOwn(rows[1..], w);
      var i :| 0 <= i < |rows[1..]| && rows[1..][i].webhook == w;
      assert rows[i + 1].webhook == w;
    }
  }
}
