/**
 * The exact-replay ledger of the pack store (`findPackCatalogReplay`, `storePackCatalogReceipt`):
 * one receipt per state-changing operation, which fences its operation id and idempotency key for good.
 */
module PackLedger {
  import opened Prelude

  const REPLAY_LIFETIME: nat := 2_592_000_000

  /** `digest` stands for the request body; `scope` for the caller's authorization. */
  datatype Request = Request(operationId: Key, idempotencyKey: Key, kind: int, scope: Key, entity: Key, digest: Key)

  /** A stored operation; `receipt` is the receipt it answered with. */
  datatype Row = Row(request: Request, completedAt: Time, receipt: Key)

  datatype Answer =
    Stored(receipt: Key) | Executed(receipt: Key) | AuthorizationRefused | OperationExpired | ActivationConflict

  function ByOperation(rows: seq<Row>, id: Key): Option<Row> {
    if rows == [] then None
    else if rows[|rows| - 1].request.operationId == id then Some(rows[|rows| - 1])
    else ByOperation(rows[..|rows| - 1], id)
  }

  function ByKey(rows: seq<Row>, key: Key): Option<Row> {
    if rows == [] then None
    else if rows[|rows| - 1].request.idempotencyKey == key then Some(rows[|rows| - 1])
    else ByKey(rows[..|rows| - 1], key)
  }

  /** `findPackCatalogReplay`: the answer a stored row forces, or none when the request is new. */
  function Replay(rows: seq<Row>, q: Request, now: Time): Option<Answer> {
    var byId, byKey := ByOperation(rows, q.operationId), ByKey(rows, q.idempotencyKey);
    var found := if byId.Some? then byId else byKey;
    if found.None? then None
    else
      var row := found.value;
      if row.request.scope != q.scope || row.request.entity != q.entity then Some(AuthorizationRefused)
      else if now >= row.completedAt + REPLAY_LIFETIME then Some(OperationExpired)
      else if row.request.digest != q.digest then Some(ActivationConflict)
      else if byId == Some(row) && byKey == Some(row) && row.request.kind == q.kind then Some(Stored(row.receipt))
      else Some(ActivationConflict)
  }

  /** One request: the ledger first, then the handler, whose receipt `produced` is stored. */
  function Step(rows: seq<Row>, q: Request, now: Time, produced: Key): (seq<Row>, Answer) {
    var replay := Replay(rows, q, now);
    if replay.Some? then (rows, replay.value) else (rows + [Row(q, now, produced)], Executed(produced))
  }

  /** No two rows share an operation id or an idempotency key: no lookup meets two. */
  ghost predicate Unique(rows: seq<Row>) {
    forall i, j :: 0 <= i < j < |rows| ==>
                     && rows[i].request.operationId != rows[j].request.operationId
                     && rows[i].request.idempotencyKey != rows[j].request.idempotencyKey
  }

  lemma {:induction false} LookupsAreExact(rows: seq<Row>, q: Request)
    ensures ByOperation(rows, q.operationId).None? <==> forall r :: r in rows ==> r.request.operationId != q.operationId
    ensures ByKey(rows, q.idempotencyKey).None? <==>
            forall r :: r in rows ==> r.request.idempotencyKey != q.idempotencyKey
    ensures ByOperation(rows, q.operationId).Some? ==>
              && ByOperation(rows, q.operationId).value in rows
              && ByOperation(rows, q.operationId).value.request.operationId == q.operationId
    ensures ByKey(rows, q.idempotencyKey).Some? ==>
              && ByKey(rows, q.idempotencyKey).value in rows
              && ByKey(rows, q.idempotencyKey).value.request.idempotencyKey == q.idempotencyKey
  {
    if rows != [] {
      LookupsAreExact(rows[..|rows| - 1], q);
      assert rows == rows[..|rows| - 1] + [rows[|rows| - 1]];
    }
  }

  lemma StepKeepsUnique(rows: seq<Row>, q: Request, now: Time, produced: Key)
    requires Unique(rows)
    ensures Unique(Step(rows, q, now, produced).0)
  {
    LookupsAreExact(rows, q);
  }

  lemma OneRow(rows: seq<Row>, a: Row, b: Row)
    requires Unique(rows) && a in rows && b in rows
    requires a.request.operationId == b.request.operationId || a.request.idempotencyKey == b.request.idempotencyKey
    ensures a == b
  {
    var i :| 0 <= i < |rows| && rows[i] == a;
    var j :| 0 <= j < |rows| && rows[j] == b;
  }

  datatype Call = Call(request: Request, now: Time, produced: Key)

  /** The rows after the first `n` calls. */
  function Run(rows: seq<Row>, calls: seq<Call>, n: nat): seq<Row>
    requires n <= |calls|
  {
    if n == 0 then rows
    else Step(Run(rows, calls, n - 1), calls[n - 1].request, calls[n - 1].now, calls[n - 1].produced).0
  }

  lemma {:induction false} RunKeepsUnique(calls: seq<Call>, n: nat)
    requires n <= |calls|
    ensures Unique(Run([], calls, n))
  {
    if n > 0 {
      RunKeepsUnique(calls, n - 1);
      StepKeepsUnique(Run([], calls, n - 1), calls[n - 1].request, calls[n - 1].now, calls[n - 1].produced);
    }
  }

  /**
   * After every run, what a stored row does to later requests. A request under its operation id gets
   * its receipt exactly if it is the same request, for thirty days; then it only learns that the
   * operation expired; any other bytes conflict. A request that reuses the idempotency key under a new
   * operation id always conflicts. Another scope or entity learns nothing but that it may not use the
   * identity. Nothing is ever executed again.
   */
  lemma StoredRowAnswersForGood(calls: seq<Call>, n: nat, row: Row, q: Request, now: Time, produced: Key)
    requires n <= |calls| && row in Run([], calls, n)
    ensures var rows := Run([], calls, n);
            q.operationId == row.request.operationId || q.idempotencyKey == row.request.idempotencyKey ==>
              Step(rows, q, now, produced).0 == rows && !Step(rows, q, now, produced).1.Executed?
    ensures q.operationId == row.request.operationId ==>
              Step(Run([], calls, n), q, now, produced).1 ==
              if q.scope != row.request.scope || q.entity != row.request.entity then AuthorizationRefused
              else if now >= row.completedAt + 2_592_000_000 then OperationExpired
              else if q == row.request then Stored(row.receipt)
              else ActivationConflict
    ensures q.idempotencyKey == row.request.idempotencyKey
            && (forall r :: r in Run([], calls, n) ==> r.request.operationId != q.operationId) ==>
              Step(Run([], calls, n), q, now, produced).1 ==
              if q.scope != row.request.scope || q.entity != row.request.entity then AuthorizationRefused
              else if now >= row.completedAt + 2_592_000_000 then OperationExpired
              else ActivationConflict
  {
    var rows := Run([], calls, n);
    RunKeepsUnique(calls, n);
    LookupsAreExact(rows, q);
    if q.operationId == row.request.operationId {
      OneRow(rows, row, ByOperation(rows, q.operationId).value);
    }
    if q.idempotencyKey == row.request.idempotencyKey {
      OneRow(rows, row, ByKey(rows, q.idempotencyKey).value);
    }
  }

  predicate Executes(rows: seq<Row>, calls: seq<Call>, k: nat)
    requires k < |calls|
  {
    Replay(Run(rows, calls, k), calls[k].request, calls[k].now).None?
  }

  lemma {:induction false} RowsPersist(rows: seq<Row>, calls: seq<Call>, i: nat, j: nat)
    requires i < j <= |calls| && Executes(rows, calls, i)
    ensures Row(calls[i].request, calls[i].now, calls[i].produced) in Run(rows, calls, j)
  {
    if i < j - 1 {
      RowsPersist(rows, calls, i, j - 1);
    }
  }

  /** Over every run, two executed operations share neither operation id nor idempotency key. */
  lemma HandlersRunOnce(rows: seq<Row>, calls: seq<Call>, i: nat, j: nat)
    requires i < j < |calls| && Executes(rows, calls, i) && Executes(rows, calls, j)
    ensures calls[i].request.operationId != calls[j].request.operationId
    ensures calls[i].request.idempotencyKey != calls[j].request.idempotencyKey
  {
    RowsPersist(rows, calls, i, j);
    LookupsAreExact(Run(rows, calls, j), calls[j].request);
  }

  class Ledger {
    var rows: seq<Row>

    constructor ()
      ensures rows == []
    {
      rows := [];
    }

    /** Answers from the ledger, or stores what the handler produced. */
    method Handle(q: Request, now: Time, produced: Key) returns (answer: Answer)
      modifies this
      ensures (rows, answer) == Step(old(rows), q, now, produced)
    {
      var replay := Replay(rows, q, now);
      if replay.Some? {
        return replay.value;
      }
      rows := rows + [Row(q, now, produced)];
      return Executed(produced);
    }
  }
}
