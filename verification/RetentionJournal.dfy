/**
 * The journal of retention receipts and the generation that fences retention requests:
 * exact replay, bounded pruning and the one increment per executed request.
 */
module RetentionJournal {
  import opened Prelude

  const MAX_RECEIPTS: nat := 128
  const PRUNE_DOCUMENTS: nat := 10
  const RECEIPT_LIFETIME: nat := 604_800_000

  /** `digest` stands for the request body; it determines phase, platform and generation too. */
  datatype Request = Request(operationId: Key, kind: int, idempotencyKey: Key, digest: Key, expectedGeneration: nat)

  /** One receipt row; `expiresAt` is always `completedAt` plus the lifetime. */
  datatype Row = Row(request: Request, resultGeneration: nat, completedAt: Time)

  /** Rows in the order of both indexes, by completion and by expiry. */
  datatype World = World(rows: seq<Row>, generation: nat)

  datatype Outcome =
    Replayed(row: Row) | OperationConflict | PredecessorConflict | Executed(deleted: nat, hasMore: bool)

  predicate Ordered(rows: seq<Row>) {
    forall i, j :: 0 <= i < j < |rows| ==> rows[i].completedAt <= rows[j].completedAt
  }

  predicate Expired(r: Row, now: Time) {
    r.completedAt + RECEIPT_LIFETIME <= now
  }

  // ----- Pruning -----

  /** In index order the expired rows come first. */
  function ExpiredCount(rows: seq<Row>, now: Time): (n: nat)
    ensures n <= |rows|
  {
    if rows == [] then 0
    else if Expired(rows[|rows| - 1], now) then |rows|
    else ExpiredCount(rows[..|rows| - 1], now)
  }

  lemma {:induction false} ExpiredComeFirst(rows: seq<Row>, now: Time)
    requires Ordered(rows)
    ensures forall i :: 0 <= i < |rows| ==> (Expired(rows[i], now) <==> i < ExpiredCount(rows, now))
  {
    if rows != [] && !Expired(rows[|rows| - 1], now) {
      ExpiredComeFirst(rows[..|rows| - 1], now);
    }
  }

  function Max(a: int, b: int): int {
    if a > b then a else b
  }

  function Min(a: int, b: int): int {
    if a < b then a else b
  }

  /** How many rows one prune deletes: all expired, or the overflow, but never more than its page. */
  function PruneSize(rows: seq<Row>, now: Time): (n: nat)
    ensures n <= |rows| && n <= PRUNE_DOCUMENTS
  {
    Min(PRUNE_DOCUMENTS, Max(ExpiredCount(rows, now), |rows| - (MAX_RECEIPTS - 1)))
  }

  function Surviving(rows: seq<Row>, now: Time): seq<Row> {
    rows[PruneSize(rows, now)..]
  }

  /** Whether another prune is due: an expired row is left, or there is no room for one more receipt. */
  function PruneAgain(rows: seq<Row>, now: Time): bool {
    ExpiredCount(Surviving(rows, now), now) > 0 || |Surviving(rows, now)| >= MAX_RECEIPTS
  }

  // ----- Replay -----

  predicate SameOperation(r: Row, q: Request) {
    r.request.operationId == q.operationId
  }

  predicate SameKey(r: Row, q: Request) {
    r.request.kind == q.kind && r.request.idempotencyKey == q.idempotencyKey
  }

  function Find(rows: seq<Row>, q: Request): (r: Option<Row>)
    ensures r.Some? ==> r.value in rows && (SameOperation(r.value, q) || SameKey(r.value, q))
    ensures r.None? ==> forall row :: row in rows ==> !SameOperation(row, q) && !SameKey(row, q)
  {
    if rows == [] then None
    else
      assert rows == rows[..|rows| - 1] + [rows[|rows| - 1]];
      var last := rows[|rows| - 1];
      if SameOperation(last, q) || SameKey(last, q) then Some(last) else Find(rows[..|rows| - 1], q)
  }

  /** At most one row per operation id and one per kind and idempotency key: no lookup meets two. */
  ghost predicate UniqueRows(rows: seq<Row>) {
    forall i, j ::
      0 <= i < j < |rows| ==> !SameOperation(rows[i], rows[j].request) && !SameKey(rows[i], rows[j].request)
  }

  // ----- One request -----

  /** Where a receipt completed at `at` goes in index order. */
  function Insert(rows: seq<Row>, r: Row): seq<Row> {
    if rows == [] || rows[|rows| - 1].completedAt <= r.completedAt then rows + [r]
    else Insert(rows[..|rows| - 1], r) + [rows[|rows| - 1]]
  }

  function Step(w: World, q: Request, now: Time): (World, Outcome) {
    var found := Find(w.rows, q);
    if found.Some? then (w, if found.value.request == q then Replayed(found.value) else OperationConflict)
    else if w.generation != q.expectedGeneration then (w, PredecessorConflict)
    else
      (World(Insert(Surviving(w.rows, now), Row(q, w.generation + 1, now)), w.generation + 1),
       Executed(PruneSize(w.rows, now), PruneAgain(w.rows, now)))
  }

  datatype Call = Call(request: Request, now: Time)

  /** The world after the first `n` calls. */
  function Run(w: World, calls: seq<Call>, n: nat): World
    requires n <= |calls|
  {
    if n == 0 then w else Step(Run(w, calls, n - 1), calls[n - 1].request, calls[n - 1].now).0
  }

  // ----- What every step keeps -----

  lemma {:induction false} InsertKeeps(rows: seq<Row>, r: Row)
    requires Ordered(rows)
    ensures Ordered(Insert(rows, r)) && |Insert(rows, r)| == |rows| + 1
    ensures multiset(Insert(rows, r)) == multiset(rows) + multiset{r}
    ensures forall x :: x in Insert(rows, r) <==> x in rows || x == r
  {
    if rows != [] {
      var init, last := rows[..|rows| - 1], rows[|rows| - 1];
      assert rows == init + [last];
      if last.completedAt > r.completedAt {
        InsertKeeps(init, r);
        forall x | x in Insert(init, r) ensures x.completedAt <= last.completedAt {
          assert x in init ==> exists i :: 0 <= i < |init| && init[i] == x && rows[i] == x;
        }
        forall i | 0 <= i < |Insert(init, r)| ensures Insert(init, r)[i].completedAt <= last.completedAt {
          assert Insert(init, r)[i] in Insert(init, r);
        }
      }
    }
  }

  lemma AppendKeepsUnique(rows: seq<Row>, last: Row)
    requires UniqueRows(rows) && forall x :: x in rows ==> !SameOperation(x, last.request) && !SameKey(x, last.request)
    ensures UniqueRows(rows + [last])
  {
  }

  lemma {:induction false} InsertKeepsUnique(rows: seq<Row>, r: Row)
    requires Ordered(rows) && UniqueRows(rows)
    requires forall x :: x in rows ==> !SameOperation(x, r.request) && !SameKey(x, r.request)
    ensures UniqueRows(Insert(rows, r))
  {
    if rows != [] && rows[|rows| - 1].completedAt > r.completedAt {
      var init, last := rows[..|rows| - 1], rows[|rows| - 1];
      assert rows == init + [last];
      InsertKeepsUnique(init, r);
      InsertKeeps(init, r);
      assert last in rows;
      forall x | x in Insert(init, r) ensures !SameOperation(x, last.request) && !SameKey(x, last.request) {
        if x != r {
          var k :| 0 <= k < |init| && init[k] == x;
          assert rows[k] == x;
        }
      }
      AppendKeepsUnique(Insert(init, r), last);
    }
  }

  ghost predicate Inv(w: World) {
    Ordered(w.rows) && UniqueRows(w.rows) && forall r :: r in w.rows ==> r.request.expectedGeneration < w.generation
  }

  lemma SurvivingKeeps(rows: seq<Row>, now: Time)
    requires Ordered(rows) && UniqueRows(rows)
    ensures Ordered(Surviving(rows, now)) && UniqueRows(Surviving(rows, now))
    ensures forall x :: x in Surviving(rows, now) ==> x in rows
  {
  }

  lemma StepKeepsInv(w: World, q: Request, now: Time)
    requires Inv(w)
    ensures Inv(Step(w, q, now).0)
  {
    if Step(w, q, now).1.Executed? {
      SurvivingKeeps(w.rows, now);
      InsertKeeps(Surviving(w.rows, now), Row(q, w.generation + 1, now));
      InsertKeepsUnique(Surviving(w.rows, now), Row(q, w.generation + 1, now));
    }
  }

  lemma {:induction false} RunKeepsInv(w: World, calls: seq<Call>, n: nat)
    requires Inv(w) && n <= |calls|
    ensures Inv(Run(w, calls, n))
  {
    if n > 0 {
      RunKeepsInv(w, calls, n - 1);
      StepKeepsInv(Run(w, calls, n - 1), calls[n - 1].request, calls[n - 1].now);
    }
  }

  lemma StepIsBounded(w: World, q: Request, now: Time)
    requires Ordered(w.rows) && |w.rows| <= MAX_RECEIPTS
    ensures |Step(w, q, now).0.rows| <= MAX_RECEIPTS
  {
    InsertKeeps(Surviving(w.rows, now), Row(q, w.generation + 1, now));
  }

  /** The journal holds at most its maximum after every step of a run that starts within it. */
  lemma {:induction false} JournalIsBounded(w: World, calls: seq<Call>, n: nat)
    requires Inv(w) && |w.rows| <= MAX_RECEIPTS && n <= |calls|
    ensures |Run(w, calls, n).rows| <= MAX_RECEIPTS
  {
    if n > 0 {
      JournalIsBounded(w, calls, n - 1);
      RunKeepsInv(w, calls, n - 1);
      StepIsBounded(Run(w, calls, n - 1), calls[n - 1].request, calls[n - 1].now);
    }
  }

  /** A journal left too long by older code shrinks by nine rows a request until it fits. */
  lemma OverlongJournalShrinks(w: World, q: Request, now: Time)
    requires Inv(w) && |w.rows| > MAX_RECEIPTS && Step(w, q, now).1.Executed?
    ensures |Step(w, q, now).0.rows| <= Max(MAX_RECEIPTS, |w.rows| - (PRUNE_DOCUMENTS - 1))
  {
    InsertKeeps(Surviving(w.rows, now), Row(q, w.generation + 1, now));
  }

  // ----- Replay and re-execution -----

  /**
   * While its receipt is kept, the exact request returns it with nothing changed; any other use of either
   * identity conflicts.
   */
  lemma ExactReplayReturnsTheReceipt(w: World, q: Request, now: Time, r: Row)
    requires Inv(w) && r in w.rows
    ensures r.request == q ==> Step(w, q, now) == (w, Replayed(r))
    ensures r.request != q && (SameOperation(r, q) || SameKey(r, q)) ==>
              Step(w, q, now).0 == w && (Step(w, q, now).1.OperationConflict? || Step(w, q, now).1.Replayed?)
  {
    if r.request == q {
      OneMatch(w.rows, r, Find(w.rows, q).value);
    }
  }

  lemma OneMatch(rows: seq<Row>, a: Row, b: Row)
    requires UniqueRows(rows) && a in rows && b in rows && (SameOperation(b, a.request) || SameKey(b, a.request))
    ensures a == b
  {
    var i :| 0 <= i < |rows| && rows[i] == a;
    var j :| 0 <= j < |rows| && rows[j] == b;
  }

  predicate Executes(w: World, calls: seq<Call>, k: nat)
    requires k < |calls|
  {
    Step(Run(w, calls, k), calls[k].request, calls[k].now).1.Executed?
  }

  lemma StepGeneration(w: World, q: Request, now: Time)
    ensures Step(w, q, now).0.generation == w.generation + if Step(w, q, now).1.Executed? then 1 else 0
    ensures Step(w, q, now).1.Executed? ==> w.generation == q.expectedGeneration
  {
  }

  lemma {:induction false} GenerationNeverFalls(w: World, calls: seq<Call>, i: nat, j: nat)
    requires i <= j <= |calls|
    ensures Run(w, calls, i).generation <= Run(w, calls, j).generation
  {
    if i < j {
      GenerationNeverFalls(w, calls, i, j - 1);
      StepGeneration(Run(w, calls, j - 1), calls[j - 1].request, calls[j - 1].now);
    }
  }

  /**
   * No retention request executes twice, even once its receipt has been pruned: a later execution
   * names a strictly later generation.
   */
  lemma NoRequestExecutesTwice(w: World, calls: seq<Call>, i: nat, j: nat)
    requires i < j < |calls| && Executes(w, calls, i) && Executes(w, calls, j)
    ensures calls[i].request.expectedGeneration < calls[j].request.expectedGeneration
  {
    GenerationNeverFalls(w, calls, i + 1, j);
    StepGeneration(Run(w, calls, i), calls[i].request, calls[i].now);
    StepGeneration(Run(w, calls, j), calls[j].request, calls[j].now);
  }

  // ----- The mutations -----

  class Journal {
    var rows: seq<Row>
    var generation: nat

    function Rows(): World
      reads this
    {
      World(rows, generation)
    }

    constructor ()
      ensures Rows() == World([], 0)
    {
      rows, generation := [], 0;
    }

    /** Selects the expired rows, then the oldest overflow, up to one page; both selections start at the oldest row. */
    method Select(now: Time) returns (selected: nat)
      requires Ordered(rows)
      ensures selected == PruneSize(rows, now)
    {
      ExpiredComeFirst(rows, now);
      selected := 0;
      while selected < |rows| && Expired(rows[selected], now) && selected < PRUNE_DOCUMENTS
        invariant selected <= ExpiredCount(rows, now) && selected <= PRUNE_DOCUMENTS
      {
        selected := selected + 1;
      }
      assert selected == Min(PRUNE_DOCUMENTS, ExpiredCount(rows, now));
      if selected < PRUNE_DOCUMENTS {
        var read := Min(|rows|, MAX_RECEIPTS + PRUNE_DOCUMENTS);
        var overflow := Max(0, read - (MAX_RECEIPTS - 1));
        while selected < overflow && selected < PRUNE_DOCUMENTS
          invariant ExpiredCount(rows, now) <= selected <= PRUNE_DOCUMENTS
          invariant selected <= Max(ExpiredCount(rows, now), overflow)
        {
          selected := selected + 1;
        }
      }
    }

    /** `pruneCatalogRetentionOperations`. */
    method Prune(now: Time) returns (deleted: nat, hasMore: bool)
      requires Ordered(rows)
      modifies this`rows
      ensures rows == Surviving(old(rows), now)
      ensures deleted == PruneSize(old(rows), now) && hasMore == PruneAgain(old(rows), now)
    {
      deleted := Select(now);
      rows := rows[deleted..];
      ExpiredComeFirst(rows, now);
      hasMore := (rows != [] && Expired(rows[0], now)) || |rows| >= MAX_RECEIPTS;
    }

    /** Replay, then the generation check: what a request is answered with before it does anything. */
    method Admit(q: Request) returns (answer: Option<Outcome>)
      ensures answer.Some? ==>
                !answer.value.Executed? && forall now: Time :: Step(Rows(), q, now) == (Rows(), answer.value)
      ensures answer.None? ==> forall now: Time :: Step(Rows(), q, now).1.Executed?
    {
      var found := Find(rows, q);
      if found.Some? {
        return Some(if found.value.request == q then Replayed(found.value) else OperationConflict);
      }
      return if generation != q.expectedGeneration then Some(PredecessorConflict) else None;
    }

    /** What an admitted request ends with: prune, advance the generation, store the receipt. */
    method Record(q: Request, now: Time) returns (outcome: Outcome)
      requires Ordered(rows) && Step(Rows(), q, now).1.Executed?
      modifies this
      ensures (Rows(), outcome) == Step(old(Rows()), q, now)
    {
      var deleted, hasMore := Prune(now);
      generation := generation + 1;
      rows := Insert(rows, Row(q, generation, now));
      return Executed(deleted, hasMore);
    }
  }
}
