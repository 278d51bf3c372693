/** The judge-evaluator daemon: each worker fetches its share of the
    `updated_dids` queue, re-evaluates every (scope, name, action) of a batch at
    most once, deletes what is done and commits the batch.

    `re_evaluate_did` is an oracle (`evaluate(n)(i)` is the outcome of calling it
    for item `i` of poll `n`), the database's hash of a name is an uninterpreted
    `hash`, and the stop flag is a `StopSchedule` saying at which check it is
    first seen set. */
module Evaluator {
  import opened Errors

  // ---------------------------------------------------------------------------
  // Queue rows
  // ---------------------------------------------------------------------------

  datatype Action = Attach | Detach

  /** A row of `updated_dids`; `id` is its primary key. */
  datatype UpdatedDid = UpdatedDid(id: nat, scope: string, name: string, action: Action, createdAt: int)

  function Min(a: int, b: int): int {
    if a <= b then a else b
  }

  // ---------------------------------------------------------------------------
  // Worker identity
  // ---------------------------------------------------------------------------

  function WorkerNumber(process: int, threadsPerProcess: int, thread: int): int {
    process * threadsPerProcess + thread
  }

  function TotalWorkers(totalProcesses: int, threadsPerProcess: int): int {
    totalProcesses * threadsPerProcess - 1
  }

  /** A thread of a process of the deployment gets a number in [0, total_workers]. */
  lemma WorkerNumberInRange(process: int, totalProcesses: int, thread: int, threadsPerProcess: int)
    requires 0 <= process < totalProcesses && 0 <= thread < threadsPerProcess
    ensures 0 <= WorkerNumber(process, threadsPerProcess, thread) <= TotalWorkers(totalProcesses, threadsPerProcess)
  {
    MulMonotone(0, process, threadsPerProcess);
    MulMonotone(process, totalProcesses - 1, threadsPerProcess);
  }

  /** Distinct (process, thread) pairs get distinct worker numbers. */
  lemma WorkerNumberInjective(p1: int, t1: int, p2: int, t2: int, threadsPerProcess: int)
    requires 0 <= t1 < threadsPerProcess && 0 <= t2 < threadsPerProcess
    requires WorkerNumber(p1, threadsPerProcess, t1) == WorkerNumber(p2, threadsPerProcess, t2)
    ensures p1 == p2 && t1 == t2
  {
    if p1 < p2 {
      MulMonotone(p1 + 1, p2, threadsPerProcess);
      assert false;
    } else if p2 < p1 {
      MulMonotone(p2 + 1, p1, threadsPerProcess);
      assert false;
    }
  }

  lemma {:induction false} MulMonotone(a: int, b: int, c: nat)
    requires a <= b
    ensures a * c <= b * c
    ensures (a + 1) * c == a * c + c
  {
    if c > 0 {
      MulMonotone(a, b, c - 1);
      assert a * c == a * (c - 1) + a;
      assert b * c == b * (c - 1) + b;
    }
  }

  // ---------------------------------------------------------------------------
  // The partition filter
  // ---------------------------------------------------------------------------

  datatype Dialect = Oracle | MySql | PostgreSql | OtherDialect

  /** `ORA_HASH(name, max_bucket)`: a bucket in [0, max_bucket]. */
  function OraHash(hash: string -> nat, name: string, maxBucket: nat): nat {
    hash(name) % (maxBucket + 1)
  }

  /** Whether the query of worker `workerNumber` returns a row with this `name`.
      Only the name is hashed; with a single worker, or a dialect none of the
      three branches names, no filter is added. */
  predicate InPartition(dialect: Dialect, hash: string -> nat, workerNumber: int, totalWorkers: int, name: string)
    ensures totalWorkers <= 0 || dialect == OtherDialect ==> InPartition(dialect, hash, workerNumber, totalWorkers, name)
  {
    if totalWorkers > 0 then
      match dialect
      case Oracle => OraHash(hash, name, totalWorkers) == workerNumber
      case MySql => hash(name) % totalWorkers == workerNumber
      case PostgreSql => hash(name) % totalWorkers == workerNumber
      case OtherDialect => true
    else true
  }

  /** The residue a name is sent to, for the dialects that filter. */
  function Residue(dialect: Dialect, hash: string -> nat, totalWorkers: int, name: string): (r: int)
    requires totalWorkers > 0 && dialect != OtherDialect
    ensures 0 <= r <= totalWorkers
    ensures dialect != Oracle ==> r <= totalWorkers - 1
    ensures forall w :: InPartition(dialect, hash, w, totalWorkers, name) <==> w == r
  {
    if dialect == Oracle then OraHash(hash, name, totalWorkers) else hash(name) % totalWorkers
  }

  /** On MySQL and PostgreSQL the modulus is total_workers itself, so the
      worker numbered total_workers is sent no row at all. */
  lemma LastWorkerIdleOnModDialects(dialect: Dialect, hash: string -> nat, totalWorkers: int, name: string)
    requires totalWorkers > 0 && (dialect == MySql || dialect == PostgreSql)
    ensures !InPartition(dialect, hash, totalWorkers, totalWorkers, name)
  {
  }

  /** On Oracle every bucket in [0, total_workers] is reachable: a name whose
      hash is w goes to worker w. */
  lemma EveryOracleBucketUsed(hash: string -> nat, totalWorkers: int, name: string)
    requires 0 <= hash(name) <= totalWorkers
    ensures InPartition(Oracle, hash, hash(name), totalWorkers, name)
  {
  }

  // ---------------------------------------------------------------------------
  // The fetch
  // ---------------------------------------------------------------------------

  const BatchLimit: nat := 1000

  ghost predicate SortedByCreation(q: seq<UpdatedDid>) {
    forall i, j :: 0 <= i < j < |q| ==> q[i].createdAt <= q[j].createdAt
  }

  /** The rows of `queue` (in the index's `created_at` order) that pass the
      partition filter. */
  function Owned(queue: seq<UpdatedDid>, dialect: Dialect, hash: string -> nat, workerNumber: int, totalWorkers: int): (r: seq<UpdatedDid>)
    ensures |r| <= |queue|
    ensures forall d :: d in r <==> d in queue && InPartition(dialect, hash, workerNumber, totalWorkers, d.name)
  {
    if queue == [] then []
    else
      var rest := Owned(queue[1..], dialect, hash, workerNumber, totalWorkers);
      assert forall d :: d in queue <==> d == queue[0] || d in queue[1..];
      if InPartition(dialect, hash, workerNumber, totalWorkers, queue[0].name) then [queue[0]] + rest else rest
  }

  /** Filtering keeps the `created_at` order. */
  lemma {:induction false} OwnedKeepsOrder(queue: seq<UpdatedDid>, dialect: Dialect, hash: string -> nat, workerNumber: int, totalWorkers: int)
    requires SortedByCreation(queue)
    ensures SortedByCreation(Owned(queue, dialect, hash, workerNumber, totalWorkers))
  {
    if queue != [] {
      var tail := queue[1..];
      assert SortedByCreation(tail);
      OwnedKeepsOrder(tail, dialect, hash, workerNumber, totalWorkers);
      var rest := Owned(tail, dialect, hash, workerNumber, totalWorkers);
      forall d | d in rest ensures queue[0].createdAt <= d.createdAt {
        var k :| 0 <= k < |tail| && tail[k] == d;
        assert queue[k + 1] == d;
      }
    }
  }

  /** `query.limit(1000).all()`: the oldest owned rows, at most 1000 of them. */
  function Fetch(queue: seq<UpdatedDid>, dialect: Dialect, hash: string -> nat, workerNumber: int, totalWorkers: int): (r: seq<UpdatedDid>)
    ensures |r| <= BatchLimit
    ensures r <= Owned(queue, dialect, hash, workerNumber, totalWorkers)
    ensures |r| < BatchLimit ==> r == Owned(queue, dialect, hash, workerNumber, totalWorkers)
    ensures forall d :: d in r ==> d in queue && InPartition(dialect, hash, workerNumber, totalWorkers, d.name)
  {
    var owned := Owned(queue, dialect, hash, workerNumber, totalWorkers);
    owned[..Min(|owned|, BatchLimit)]
  }

  /** A fetch from a queue in `created_at` order is in `created_at` order. */
  lemma FetchInCreationOrder(queue: seq<UpdatedDid>, dialect: Dialect, hash: string -> nat, workerNumber: int, totalWorkers: int)
    requires SortedByCreation(queue)
    ensures SortedByCreation(Fetch(queue, dialect, hash, workerNumber, totalWorkers))
  {
    OwnedKeepsOrder(queue, dialect, hash, workerNumber, totalWorkers);
  }

  /** With a single worker the filter is skipped: the fetch is the oldest
      1000 rows of the whole queue. */
  lemma SingleWorkerUnfiltered(queue: seq<UpdatedDid>, dialect: Dialect, hash: string -> nat, workerNumber: int, totalWorkers: int)
    requires totalWorkers <= 0
    ensures Fetch(queue, dialect, hash, workerNumber, totalWorkers) == queue[..Min(|queue|, BatchLimit)]
  {
    OwnedAll(queue, dialect, hash, workerNumber, totalWorkers);
  }

  lemma {:induction false} OwnedAll(queue: seq<UpdatedDid>, dialect: Dialect, hash: string -> nat, workerNumber: int, totalWorkers: int)
    requires totalWorkers <= 0
    ensures Owned(queue, dialect, hash, workerNumber, totalWorkers) == queue
  {
    if queue != [] {
      OwnedAll(queue[1..], dialect, hash, workerNumber, totalWorkers);
      assert [queue[0]] + queue[1..] == queue;
    }
  }

  // ---------------------------------------------------------------------------
  // The in-batch dedup key
  // ---------------------------------------------------------------------------

  /** `'%s:%s' % (did.scope, did.name)` */
  function Key(d: UpdatedDid): string {
    d.scope + ":" + d.name
  }

  /** The key identifies (scope, name) as long as scopes hold no colon. */
  lemma KeyInjective(a: UpdatedDid, b: UpdatedDid)
    requires ':' !in a.scope && ':' !in b.scope
    requires Key(a) == Key(b)
    ensures a.scope == b.scope && a.name == b.name
  {
    var ka, kb := Key(a), Key(b);
    KeyColon(a);
    KeyColon(b);
    assert |a.scope| == |b.scope|;
    assert ka == a.scope + (":" + a.name) && kb == b.scope + (":" + b.name);
    assert a.scope == ka[..|a.scope|] && b.scope == kb[..|b.scope|];
    assert a.name == ka[|a.scope| + 1..] && b.name == kb[|b.scope| + 1..];
  }

  /** The first colon of a key ends its scope. */
  lemma KeyColon(d: UpdatedDid)
    requires ':' !in d.scope
    ensures |d.scope| < |Key(d)| && Key(d)[|d.scope|] == ':'
    ensures forall i :: 0 <= i < |d.scope| ==> Key(d)[i] != ':'
  {
    forall i | 0 <= i < |d.scope| ensures Key(d)[i] != ':' {
      assert Key(d)[i] == d.scope[i];
    }
  }

  /** A colon in a scope lets two different DIDs share a key. */
  lemma KeyCollidesWithColonInScope(id1: nat, id2: nat, action: Action, t1: int, t2: int)
    ensures Key(UpdatedDid(id1, "user:a", "b", action, t1)) == Key(UpdatedDid(id2, "user", "a:b", action, t2))
  {
  }

  // ---------------------------------------------------------------------------
  // One batch
  // ---------------------------------------------------------------------------

  /** What the `except` clauses around `re_evaluate_did` do with its outcome. */
  datatype Handling = Delete | Keep | Abort

  function Classify(h: Hierarchy, o: Outcome<()>): (r: Handling)
    ensures r == Delete <==> o.Return? || o.error.cls == DataIdentifierNotFound
    ensures r == Keep <==> o.Raise? && (o.error.cls == DatabaseException || IsDatabaseError(h, o.error.cls))
    ensures o.Raise? && o.error.cls == OperationalError && h == SqlAlchemy ==> r == Keep
  {
    match o
    case Return(_) => Delete
    case Raise(e) =>
      if e.cls == DataIdentifierNotFound then Delete
      else if e.cls == DatabaseException || IsDatabaseError(h, e.cls) then Keep
      else Abort
  }

  /** (key, action) was seen among the first `n` rows of the batch. */
  ghost predicate HandledIn(dids: seq<UpdatedDid>, n: int, key: string, a: Action) {
    exists j :: 0 <= j < n && j < |dids| && Key(dids[j]) == key && dids[j].action == a
  }

  /** Row `i` repeats the (key, action) of an earlier row of the batch. */
  ghost predicate IsDuplicate(dids: seq<UpdatedDid>, i: int)
    requires 0 <= i < |dids|
  {
    HandledIn(dids, i, Key(dids[i]), dids[i].action)
  }

  ghost predicate Aborts(h: Hierarchy, dids: seq<UpdatedDid>, evaluate: nat -> Outcome<()>, i: nat)
    requires i < |dids|
  {
    !IsDuplicate(dids, i) && Classify(h, evaluate(i)) == Abort
  }

  ghost predicate Deletes(h: Hierarchy, dids: seq<UpdatedDid>, evaluate: nat -> Outcome<()>, i: nat)
    requires i < |dids|
  {
    IsDuplicate(dids, i) || Classify(h, evaluate(i)) == Delete
  }

  ghost predicate Increasing(s: seq<nat>) {
    forall p, q :: 0 <= p < q < |s| ==> s[p] < s[q]
  }

  /** How far a batch got (`processed` rows were looked at), the rows passed
      to `re_evaluate_did` in call order, the rows deleted, and whether an
      unexpected exception abandoned the batch (and so its commit). */
  datatype BatchResult = BatchResult(processed: nat, evaluated: seq<nat>, deleted: set<nat>, aborted: bool) {
    predicate Committed() {
      !aborted
    }
  }

  /** The batch loop's contract.  `stopAt` is the first item index at which
      the stop flag is seen set. */
  ghost predicate BatchOutcome(h: Hierarchy, dids: seq<UpdatedDid>, evaluate: nat -> Outcome<()>, stopAt: nat, r: BatchResult) {
    && r.processed <= |dids| && r.processed <= stopAt
    && (forall j: nat :: j + 1 < r.processed ==> !Aborts(h, dids, evaluate, j))
    && (r.aborted <==> 0 < r.processed && Aborts(h, dids, evaluate, r.processed - 1))
    && (!r.aborted ==> r.processed == Min(|dids|, stopAt))
    && (forall j: nat :: j in r.evaluated <==> j < r.processed && !IsDuplicate(dids, j))
    && Increasing(r.evaluated)
    && (forall j: nat :: j in r.deleted <==> j < r.processed && Deletes(h, dids, evaluate, j))
  }

  lemma HandledStep(dids: seq<UpdatedDid>, n: nat, key: string, a: Action)
    requires n < |dids|
    ensures HandledIn(dids, n + 1, key, a) <==> HandledIn(dids, n, key, a) || (Key(dids[n]) == key && dids[n].action == a)
  {
  }

  /** The batch loop's invariant after `i` rows: `done` maps each key seen to
      the actions seen with it, and the other results describe rows `0..i`. */
  ghost predicate BatchInv(h: Hierarchy, dids: seq<UpdatedDid>, evaluate: nat -> Outcome<()>, stopAt: nat,
                           i: nat, done: map<string, seq<Action>>, evaluated: seq<nat>, deleted: set<nat>, aborted: bool) {
    && i <= |dids| && i <= stopAt
    && (forall key, a :: (key in done && a in done[key]) <==> HandledIn(dids, i, key, a))
    && (forall j: nat :: j in evaluated <==> j < i && !IsDuplicate(dids, j))
    && Increasing(evaluated) && (forall k :: 0 <= k < |evaluated| ==> evaluated[k] < i)
    && (forall j: nat :: j in deleted <==> j < i && Deletes(h, dids, evaluate, j))
    && (forall j: nat :: j + 1 < i ==> !Aborts(h, dids, evaluate, j))
    && (aborted <==> 0 < i && Aborts(h, dids, evaluate, i - 1))
  }

  /** A row whose (key, action) is already in `done` is deleted unevaluated. */
  lemma DuplicateStep(h: Hierarchy, dids: seq<UpdatedDid>, evaluate: nat -> Outcome<()>, stopAt: nat,
                      i: nat, done: map<string, seq<Action>>, evaluated: seq<nat>, deleted: set<nat>)
    requires BatchInv(h, dids, evaluate, stopAt, i, done, evaluated, deleted, false)
    requires i < |dids| && i < stopAt
    requires Key(dids[i]) in done && dids[i].action in done[Key(dids[i])]
    ensures BatchInv(h, dids, evaluate, stopAt, i + 1, done, evaluated, deleted + {i}, false)
  {
    assert IsDuplicate(dids, i);
    forall k, a ensures (k in done && a in done[k]) <==> HandledIn(dids, i + 1, k, a) {
      HandledStep(dids, i, k, a);
    }
  }

  /** Any other row is recorded in `done`, evaluated, and deleted or kept
      according to how the evaluation ended. */
  lemma FreshStep(h: Hierarchy, dids: seq<UpdatedDid>, evaluate: nat -> Outcome<()>, stopAt: nat,
                  i: nat, done: map<string, seq<Action>>, evaluated: seq<nat>, deleted: set<nat>)
    requires BatchInv(h, dids, evaluate, stopAt, i, done, evaluated, deleted, false)
    requires i < |dids| && i < stopAt
    requires !(Key(dids[i]) in done && dids[i].action in done[Key(dids[i])])
    ensures var key := Key(dids[i]);
      var prior := if key in done then done[key] else [];
      var handling := Classify(h, evaluate(i));
      BatchInv(h, dids, evaluate, stopAt, i + 1, done[key := prior + [dids[i].action]], evaluated + [i],
               if handling == Delete then deleted + {i} else deleted, handling == Abort)
  {
    var key := Key(dids[i]);
    var prior := if key in done then done[key] else [];
    var done' := done[key := prior + [dids[i].action]];
    assert !IsDuplicate(dids, i);
    assert forall a :: a in prior <==> HandledIn(dids, i, key, a);
    var next := i + 1;
    forall k, a ensures (k in done' && a in done'[k]) <==> HandledIn(dids, next, k, a) {
      HandledStep(dids, i, k, a);
      if k == key {
        assert a in done'[k] <==> a in prior || a == dids[i].action;
      }
    }
    var evaluated' := evaluated + [i];
    forall j: nat ensures j in evaluated' <==> j < i + 1 && !IsDuplicate(dids, j) {
      assert j in evaluated' <==> j in evaluated || j == i;
    }
  }

  /** Where the loop stops, the invariant is the batch's contract. */
  lemma BatchInvOutcome(h: Hierarchy, dids: seq<UpdatedDid>, evaluate: nat -> Outcome<()>, stopAt: nat,
                        i: nat, done: map<string, seq<Action>>, evaluated: seq<nat>, deleted: set<nat>, aborted: bool)
    requires BatchInv(h, dids, evaluate, stopAt, i, done, evaluated, deleted, aborted)
    requires aborted || i == |dids| || i == stopAt
    ensures BatchOutcome(h, dids, evaluate, stopAt, BatchResult(i, evaluated, deleted, aborted))
  {
  }

  /** The `for did in dids` loop and the commit after it. */
  method ProcessBatch(h: Hierarchy, dids: seq<UpdatedDid>, evaluate: nat -> Outcome<()>, stopAt: nat) returns (r: BatchResult)
    ensures BatchOutcome(h, dids, evaluate, stopAt, r)
  {
    var done: map<string, seq<Action>> := map[];
    var evaluated: seq<nat> := [];
    var deleted: set<nat> := {};
    var aborted := false;
    var i: nat := 0;
    while i < |dids| && !aborted
      invariant BatchInv(h, dids, evaluate, stopAt, i, done, evaluated, deleted, aborted)
    {
      if i >= stopAt {
        break;  // graceful_stop.is_set()
      }
      var did := dids[i];
      var key := did.scope + ":" + did.name;
      assert key == Key(dids[i]);
      ghost var orig := done;
      if key in done {
        if did.action in done[key] {
          DuplicateStep(h, dids, evaluate, stopAt, i, done, evaluated, deleted);
          deleted := deleted + {i};
          i := i + 1;
          continue;
        }
      } else {
        done := done[key := []];
      }
      done := done[key := done[key] + [did.action]];
      FreshStep(h, dids, evaluate, stopAt, i, orig, evaluated, deleted);
      evaluated := evaluated + [i];
      var handling := Classify(h, evaluate(i));
      aborted := handling == Abort;
      if handling == Delete {
        deleted := deleted + {i};
      }
      i := i + 1;
    }
    BatchInvOutcome(h, dids, evaluate, stopAt, i, done, evaluated, deleted, aborted);
    r := BatchResult(i, evaluated, deleted, aborted);
  }

  /** `re_evaluate_did` is called at most once per (key, action) in a batch. */
  lemma EvaluatedAtMostOncePerPair(h: Hierarchy, dids: seq<UpdatedDid>, evaluate: nat -> Outcome<()>, stopAt: nat, r: BatchResult)
    requires BatchOutcome(h, dids, evaluate, stopAt, r)
    ensures forall i: nat, j: nat :: i in r.evaluated && j in r.evaluated && i < j ==>
      j < |dids| && (Key(dids[i]) != Key(dids[j]) || dids[i].action != dids[j].action)
  {
    forall i: nat, j: nat | i in r.evaluated && j in r.evaluated && i < j
      ensures j < |dids| && (Key(dids[i]) != Key(dids[j]) || dids[i].action != dids[j].action)
    {
      assert !IsDuplicate(dids, j);
    }
  }

  lemma HeadIsLeast(s: seq<nat>)
    requires Increasing(s) && s != []
    ensures forall x :: x in s ==> s[0] <= x
    ensures forall x :: x in s[1..] ==> s[0] < x
  {
    forall x | x in s[1..] ensures s[0] < x {
      var k :| 0 <= k < |s| - 1 && s[1..][k] == x;
      assert s[k + 1] == x;
    }
  }

  lemma {:induction false} IncreasingDetermined(s: seq<nat>, t: seq<nat>)
    requires Increasing(s) && Increasing(t)
    requires forall x: nat :: x in s <==> x in t
    ensures s == t
  {
    if t != [] {
      assert t[0] in s;
    }
    if s != [] {
      assert s[0] in t;
      HeadIsLeast(s);
      HeadIsLeast(t);
      assert s[0] in t && t[0] in s;
      assert s == [s[0]] + s[1..] && t == [t[0]] + t[1..];
      forall x: nat ensures x in s[1..] <==> x in t[1..] {
        assert x in s[1..] ==> x in s;
        assert x in t[1..] ==> x in t;
      }
      IncreasingDetermined(s[1..], t[1..]);
      assert s == [s[0]] + s[1..] && t == [t[0]] + t[1..];
    }
  }

  /** The contract determines the batch's result. */
  lemma BatchOutcomeUnique(h: Hierarchy, dids: seq<UpdatedDid>, evaluate: nat -> Outcome<()>, stopAt: nat, r1: BatchResult, r2: BatchResult)
    requires BatchOutcome(h, dids, evaluate, stopAt, r1) && BatchOutcome(h, dids, evaluate, stopAt, r2)
    ensures r1 == r2
  {
    IncreasingDetermined(r1.evaluated, r2.evaluated);
    assert r1.deleted == r2.deleted;
  }

  /** Rows (A,X,attach), (A,X,attach), (B,Y,detach) with every evaluation
      succeeding: two evaluations, rows 0 and 2, and three deletions. */
  lemma DuplicateScenario(h: Hierarchy, evaluate: nat -> Outcome<()>, stopAt: nat, r: BatchResult,
                          t1: int, t2: int, t3: int)
    requires stopAt >= 3
    requires forall i :: evaluate(i).Return?
    requires BatchOutcome(h, [UpdatedDid(1, "A", "X", Attach, t1), UpdatedDid(2, "A", "X", Attach, t2),
                              UpdatedDid(3, "B", "Y", Detach, t3)], evaluate, stopAt, r)
    ensures r.evaluated == [0, 2] && r.deleted == {0, 1, 2} && r.Committed()
  {
    var dids := [UpdatedDid(1, "A", "X", Attach, t1), UpdatedDid(2, "A", "X", Attach, t2),
                 UpdatedDid(3, "B", "Y", Detach, t3)];
    assert Key(dids[0]) == "A:X" && Key(dids[2]) == "B:Y";
    assert !IsDuplicate(dids, 0);
    assert IsDuplicate(dids, 1);
    assert !IsDuplicate(dids, 2) by {
      assert Key(dids[0]) != Key(dids[2]) by { assert Key(dids[0])[0] != Key(dids[2])[0]; }
    }
    assert r.processed == 3;
    IncreasingDetermined(r.evaluated, [0, 2]);
  }

  /** A stop seen before item 2 of 5: items 2 to 4 are neither evaluated nor
      deleted, and the batch still commits. */
  lemma StopMidBatch(h: Hierarchy, dids: seq<UpdatedDid>, evaluate: nat -> Outcome<()>, r: BatchResult)
    requires |dids| == 5
    requires forall i :: evaluate(i).Return?
    requires BatchOutcome(h, dids, evaluate, 2, r)
    ensures r.processed == 2 && r.Committed()
    ensures forall j: nat :: 2 <= j < 5 ==> j !in r.evaluated && j !in r.deleted
    ensures 0 in r.deleted && 1 in r.deleted
  {
  }

  /** A row whose evaluation raises a database error is kept and the batch
      goes on; one whose evaluation succeeds or finds no DID is deleted. */
  lemma HandlingOfEvaluatedRow(h: Hierarchy, dids: seq<UpdatedDid>, evaluate: nat -> Outcome<()>, stopAt: nat, r: BatchResult, j: nat)
    requires BatchOutcome(h, dids, evaluate, stopAt, r)
    requires j < r.processed && !IsDuplicate(dids, j)
    ensures j in r.evaluated
    ensures Classify(h, evaluate(j)) == Keep ==> j !in r.deleted && (r.aborted ==> j + 1 < r.processed)
    ensures Classify(h, evaluate(j)) == Delete ==> j in r.deleted
  {
  }

  // ---------------------------------------------------------------------------
  // The worker loop
  // ---------------------------------------------------------------------------

  /** When the stop flag is first seen set: at the head of poll `iteration`,
      or at the check before item `item` of poll `iteration` (and then at the
      head of every later poll).  The flag is never cleared. */
  datatype StopSchedule = Never | AtHead(iteration: nat) | AtItem(iteration: nat, item: nat)

  predicate StopSeenAtHead(s: StopSchedule, n: nat) {
    match s
    case Never => false
    case AtHead(m) => m <= n
    case AtItem(m, _) => m < n
  }

  /** The first item index of poll `n` at which the flag is seen set
      (`size` when it is not seen during that batch). */
  function StopItem(s: StopSchedule, n: nat, size: nat): nat {
    if s.AtItem? && s.iteration == n then s.item else size
  }

  /** What one poll did. */
  datatype Poll = Slept | Handled(fetched: seq<UpdatedDid>, result: BatchResult)

  /** The rows of `queue` whose key is not among `ids`. */
  function RemoveRows(queue: seq<UpdatedDid>, ids: set<nat>): (r: seq<UpdatedDid>)
    ensures forall d :: d in r <==> d in queue && d.id !in ids
  {
    if queue == [] then []
    else
      var rest := RemoveRows(queue[1..], ids);
      assert forall d :: d in queue <==> d == queue[0] || d in queue[1..];
      if queue[0].id in ids then rest else [queue[0]] + rest
  }

  function DeletedIds(fetched: seq<UpdatedDid>, deleted: set<nat>): set<nat> {
    set j | j in deleted && j < |fetched| :: fetched[j].id
  }

  /** One pass of the `while not graceful_stop.is_set()` body on `queue`. */
  ghost predicate PollStep(h: Hierarchy, dialect: Dialect, hash: string -> nat, once: bool, workerNumber: int, totalWorkers: int,
                           evaluate: nat -> Outcome<()>, stop: StopSchedule, n: nat,
                           queue: seq<UpdatedDid>, p: Poll, after: seq<UpdatedDid>) {
    var fetched := Fetch(queue, dialect, hash, workerNumber, totalWorkers);
    if fetched == [] && !once then
      p == Slept && after == queue
    else
      && p.Handled? && p.fetched == fetched
      && BatchOutcome(h, fetched, evaluate, StopItem(stop, n, |fetched|), p.result)
      && after == if p.result.Committed() then RemoveRows(queue, DeletedIds(fetched, p.result.deleted)) else queue
  }

  /** One pass of the loop body: fetch, then sleep or handle the batch and,
      if it was not abandoned, commit its deletions. */
  method PollOnce(h: Hierarchy, dialect: Dialect, hash: string -> nat, once: bool, workerNumber: int, totalWorkers: int,
                  evaluate: nat -> Outcome<()>, stop: StopSchedule, n: nat, queue: seq<UpdatedDid>)
    returns (poll: Poll, next: seq<UpdatedDid>)
    ensures PollStep(h, dialect, hash, once, workerNumber, totalWorkers, evaluate, stop, n, queue, poll, next)
  {
    var fetched := Fetch(queue, dialect, hash, workerNumber, totalWorkers);
    next := queue;
    if fetched == [] && !once {
      poll := Slept;  // time.sleep(10)
    } else {
      var result := ProcessBatch(h, fetched, evaluate, StopItem(stop, n, |fetched|));
      poll := Handled(fetched, result);
      if result.Committed() {
        // session.flush(); session.commit(); session.remove()
        next := RemoveRows(queue, DeletedIds(fetched, result.deleted));
      }
    }
  }

  /** `re_evaluator`, for at most `maxPolls` polls.  `polls[n]` says what poll
      `n` did and `queues[n]` is the queue it saw; deletions reach the queue
      only through a commit. */
  method ReEvaluator(h: Hierarchy, dialect: Dialect, hash: string -> nat, once: bool,
                     process: int, totalProcesses: int, thread: int, threadsPerProcess: int,
                     queue0: seq<UpdatedDid>, evaluate: nat -> nat -> Outcome<()>, stop: StopSchedule, maxPolls: nat)
    returns (polls: seq<Poll>, queues: seq<seq<UpdatedDid>>)
    ensures |queues| == |polls| + 1 && queues[0] == queue0
    ensures |polls| <= maxPolls
    ensures once ==> |polls| <= 1
    ensures forall n :: 0 <= n < |polls| ==> !StopSeenAtHead(stop, n)
    ensures |polls| < maxPolls ==> StopSeenAtHead(stop, |polls|) || (once && |polls| == 1)
    ensures forall n :: 0 <= n < |polls| ==>
      PollStep(h, dialect, hash, once, WorkerNumber(process, threadsPerProcess, thread),
               TotalWorkers(totalProcesses, threadsPerProcess), evaluate(n), stop, n, queues[n], polls[n], queues[n + 1])
  {
    var workerNumber := WorkerNumber(process, threadsPerProcess, thread);
    var totalWorkers := TotalWorkers(totalProcesses, threadsPerProcess);
    polls, queues := [], [queue0];
    var queue := queue0;
    var n: nat := 0;
    while n < maxPolls && !StopSeenAtHead(stop, n)
      invariant n == |polls| && |queues| == n + 1 && queues[0] == queue0 && queues[n] == queue
      invariant n <= maxPolls
      invariant once ==> n == 0
      invariant forall k :: 0 <= k < n ==> !StopSeenAtHead(stop, k)
      invariant forall k :: 0 <= k < n ==>
        PollStep(h, dialect, hash, once, workerNumber, totalWorkers, evaluate(k), stop, k, queues[k], polls[k], queues[k + 1])
    {
      var poll, next := PollOnce(h, dialect, hash, once, workerNumber, totalWorkers, evaluate(n), stop, n, queue);
      ghost var polls0, queues0 := polls, queues;
      polls, queues, queue := polls + [poll], queues + [next], next;
      forall k | 0 <= k <= n
        ensures PollStep(h, dialect, hash, once, workerNumber, totalWorkers, evaluate(k), stop, k, queues[k], polls[k], queues[k + 1])
      {
        if k < n {
          assert polls[k] == polls0[k] && queues[k] == queues0[k] && queues[k + 1] == queues0[k + 1];
        }
      }
      n := n + 1;
      if once {
        break;
      }
    }
  }

  // ---------------------------------------------------------------------------
  // Properties of one poll
  // ---------------------------------------------------------------------------

  ghost predicate UniqueIds(q: seq<UpdatedDid>) {
    forall i, j :: 0 <= i < j < |q| ==> q[i].id != q[j].id
  }

  /** A poll that finds no work while not running once evaluates and deletes
      nothing and sleeps; an empty queue gives such a poll. */
  lemma EmptyQueueSleeps(h: Hierarchy, dialect: Dialect, hash: string -> nat, workerNumber: int, totalWorkers: int,
                         evaluate: nat -> Outcome<()>, stop: StopSchedule, n: nat, p: Poll, after: seq<UpdatedDid>)
    requires PollStep(h, dialect, hash, false, workerNumber, totalWorkers, evaluate, stop, n, [], p, after)
    ensures p == Slept && after == []
  {
  }

  /** After a committed poll a deleted row is gone from the queue, and a
      fetched row that was not deleted (its evaluation raised a database error,
      or the batch stopped before it) is still there. */
  lemma CommittedPollEffect(h: Hierarchy, dialect: Dialect, hash: string -> nat, once: bool, workerNumber: int, totalWorkers: int,
                            evaluate: nat -> Outcome<()>, stop: StopSchedule, n: nat,
                            queue: seq<UpdatedDid>, p: Poll, after: seq<UpdatedDid>, j: nat)
    requires UniqueIds(queue)
    requires PollStep(h, dialect, hash, once, workerNumber, totalWorkers, evaluate, stop, n, queue, p, after)
    requires p.Handled? && p.result.Committed() && j < |p.fetched|
    ensures j in p.result.deleted ==> p.fetched[j] !in after
    ensures j !in p.result.deleted ==> p.fetched[j] in after
  {
    var fetched := Fetch(queue, dialect, hash, workerNumber, totalWorkers);
    assert p.fetched == fetched;
    assert after == RemoveRows(queue, DeletedIds(fetched, p.result.deleted));
    FetchUniqueIds(queue, dialect, hash, workerNumber, totalWorkers);
    DeletedIdsExact(fetched, p.result.deleted, j);
    assert fetched[j] in fetched;
  }

  /** With unique ids, a fetched row's id is marked deleted exactly when its index is. */
  lemma DeletedIdsExact(fetched: seq<UpdatedDid>, deleted: set<nat>, j: nat)
    requires UniqueIds(fetched) && j < |fetched|
    ensures fetched[j].id in DeletedIds(fetched, deleted) <==> j in deleted
  {
    if fetched[j].id in DeletedIds(fetched, deleted) {
      var k :| k in deleted && k < |fetched| && fetched[k].id == fetched[j].id;
      assert !(k < j || j < k);
    }
  }

  /** A fetch from a queue with unique ids has unique ids. */
  lemma FetchUniqueIds(queue: seq<UpdatedDid>, dialect: Dialect, hash: string -> nat, workerNumber: int, totalWorkers: int)
    requires UniqueIds(queue)
    ensures UniqueIds(Fetch(queue, dialect, hash, workerNumber, totalWorkers))
  {
    OwnedUniqueIds(queue, dialect, hash, workerNumber, totalWorkers);
    var owned := Owned(queue, dialect, hash, workerNumber, totalWorkers);
    var r := Fetch(queue, dialect, hash, workerNumber, totalWorkers);
    forall a, b | 0 <= a < b < |r| ensures r[a].id != r[b].id {
      assert r[a] == owned[a] && r[b] == owned[b];
    }
  }

  /** Filtering a queue with unique keys gives distinct rows. */
  lemma {:induction false} OwnedUniqueIds(queue: seq<UpdatedDid>, dialect: Dialect, hash: string -> nat, workerNumber: int, totalWorkers: int)
    requires UniqueIds(queue)
    ensures UniqueIds(Owned(queue, dialect, hash, workerNumber, totalWorkers))
  {
    if queue != [] {
      var tail := queue[1..];
      assert UniqueIds(tail);
      OwnedUniqueIds(tail, dialect, hash, workerNumber, totalWorkers);
      var rest := Owned(tail, dialect, hash, workerNumber, totalWorkers);
      forall d | d in rest ensures d.id != queue[0].id {
        var k :| 0 <= k < |tail| && tail[k] == d;
        assert queue[k + 1] == d;
      }
    }
  }

  /** Removing committed rows keeps the rest in `created_at` order. */
  lemma {:induction false} RemoveRowsKeepsOrder(queue: seq<UpdatedDid>, ids: set<nat>)
    requires SortedByCreation(queue)
    ensures SortedByCreation(RemoveRows(queue, ids))
  {
    if queue != [] {
      var tail := queue[1..];
      assert SortedByCreation(tail);
      RemoveRowsKeepsOrder(tail, ids);
      var rest := RemoveRows(tail, ids);
      forall d | d in rest ensures queue[0].createdAt <= d.createdAt {
        var k :| 0 <= k < |tail| && tail[k] == d;
        assert queue[k + 1] == d;
      }
    }
  }

  /** Removing rows keeps the ids of the rest unique. */
  lemma {:induction false} RemoveRowsKeepsUniqueIds(queue: seq<UpdatedDid>, ids: set<nat>)
    requires UniqueIds(queue)
    ensures UniqueIds(RemoveRows(queue, ids))
  {
    if queue != [] {
      var tail := queue[1..];
      assert UniqueIds(tail);
      RemoveRowsKeepsUniqueIds(tail, ids);
      var rest := RemoveRows(tail, ids);
      forall d | d in rest ensures d.id != queue[0].id {
        var k :| 0 <= k < |tail| && tail[k] == d;
        assert queue[k + 1] == d;
      }
    }
  }

  /** A poll keeps the table in index order with unique ids, and what it
      fetched is the oldest owned rows first, each once. */
  lemma PollKeepsQueueShape(h: Hierarchy, dialect: Dialect, hash: string -> nat, once: bool, workerNumber: int, totalWorkers: int,
                            evaluate: nat -> Outcome<()>, stop: StopSchedule, n: nat,
                            queue: seq<UpdatedDid>, p: Poll, after: seq<UpdatedDid>)
    requires SortedByCreation(queue) && UniqueIds(queue)
    requires PollStep(h, dialect, hash, once, workerNumber, totalWorkers, evaluate, stop, n, queue, p, after)
    ensures SortedByCreation(after) && UniqueIds(after)
    ensures p.Handled? ==> SortedByCreation(p.fetched) && UniqueIds(p.fetched)
  {
    FetchInCreationOrder(queue, dialect, hash, workerNumber, totalWorkers);
    FetchUniqueIds(queue, dialect, hash, workerNumber, totalWorkers);
    if p.Handled? && p.result.Committed() {
      var fetched := Fetch(queue, dialect, hash, workerNumber, totalWorkers);
      RemoveRowsKeepsOrder(queue, DeletedIds(fetched, p.result.deleted));
      RemoveRowsKeepsUniqueIds(queue, DeletedIds(fetched, p.result.deleted));
    }
  }

  /** Over a whole run of `re_evaluator` on a table in index order with unique
      ids, every poll sees such a table (and so, by `PollKeepsQueueShape`,
      fetches its rows oldest first). */
  lemma {:induction false} RunKeepsQueueShape(h: Hierarchy, dialect: Dialect, hash: string -> nat, once: bool,
                                              workerNumber: int, totalWorkers: int, evaluate: nat -> nat -> Outcome<()>,
                                              stop: StopSchedule, polls: seq<Poll>, queues: seq<seq<UpdatedDid>>, n: nat)
    requires |queues| == |polls| + 1 && SortedByCreation(queues[0]) && UniqueIds(queues[0])
    requires forall k :: 0 <= k < |polls| ==>
      PollStep(h, dialect, hash, once, workerNumber, totalWorkers, evaluate(k), stop, k, queues[k], polls[k], queues[k + 1])
    requires n < |queues|
    ensures SortedByCreation(queues[n]) && UniqueIds(queues[n])
  {
    if n > 0 {
      var m := n - 1;
      RunKeepsQueueShape(h, dialect, hash, once, workerNumber, totalWorkers, evaluate, stop, polls, queues, m);
      assert PollStep(h, dialect, hash, once, workerNumber, totalWorkers, evaluate(m), stop, m, queues[m], polls[m], queues[m + 1]);
      PollKeepsQueueShape(h, dialect, hash, once, workerNumber, totalWorkers, evaluate(m), stop, m,
                          queues[m], polls[m], queues[m + 1]);
    }
  }

  // ---------------------------------------------------------------------------
  // run and stop
  // ---------------------------------------------------------------------------

  /** The arguments `re_evaluator` is called with. */
  datatype WorkerArgs = WorkerArgs(once: bool, process: int, totalProcesses: int, thread: int, threadsPerProcess: int)

  /** What `run` does: one inline iteration, a thread per worker, or, when
      it starts no thread, the IndexError raised by `threads[0]`. */
  datatype RunPlan = Inline(worker: WorkerArgs) | Threads(workers: seq<WorkerArgs>) | RaisesIndexError

  function Run(once: bool, process: int, totalProcesses: int, threadsPerProcess: int): (r: RunPlan)
    ensures once <==> r.Inline?
    ensures once ==> r.worker.once && r.worker.totalProcesses == 1 && r.worker.threadsPerProcess == 1
    ensures r == RaisesIndexError <==> !once && threadsPerProcess <= 0
    ensures r.Threads? ==>
      && |r.workers| == threadsPerProcess
      && forall i :: 0 <= i < |r.workers| ==>
           r.workers[i] == WorkerArgs(false, process, totalProcesses, i, threadsPerProcess)
  {
    if once then Inline(WorkerArgs(true, 0, 1, 0, 1))
    else if threadsPerProcess <= 0 then RaisesIndexError
    else Threads(seq(threadsPerProcess, i => WorkerArgs(false, process, totalProcesses, i, threadsPerProcess)))
  }

  /** The one-shot path calls `re_evaluator` with the defaults: a single
      worker, so the queue is not filtered. */
  lemma RunOnceUnfiltered(process: int, totalProcesses: int, threadsPerProcess: int, dialect: Dialect, hash: string -> nat, name: string)
    ensures var w := Run(true, process, totalProcesses, threadsPerProcess).worker;
      && w.once
      && TotalWorkers(w.totalProcesses, w.threadsPerProcess) == 0
      && InPartition(dialect, hash, WorkerNumber(w.process, w.threadsPerProcess, w.thread),
                     TotalWorkers(w.totalProcesses, w.threadsPerProcess), name)
  {
  }

  /** The threads `run` starts in process `process` have distinct worker
      numbers, all in [0, total_workers]. */
  lemma RunThreadsPartitionWorkers(process: int, totalProcesses: int, threadsPerProcess: int)
    requires 0 <= process < totalProcesses && threadsPerProcess > 0
    ensures Run(false, process, totalProcesses, threadsPerProcess).Threads?
    ensures var ws := Run(false, process, totalProcesses, threadsPerProcess).workers;
      && |ws| == threadsPerProcess
      && (forall i :: 0 <= i < |ws| ==>
            0 <= WorkerNumber(ws[i].process, ws[i].threadsPerProcess, ws[i].thread) <= TotalWorkers(totalProcesses, threadsPerProcess))
      && (forall i, j :: 0 <= i < j < |ws| ==>
            WorkerNumber(ws[i].process, ws[i].threadsPerProcess, ws[i].thread) != WorkerNumber(ws[j].process, ws[j].threadsPerProcess, ws[j].thread))
  {
    var ws := Run(false, process, totalProcesses, threadsPerProcess).workers;
    forall i | 0 <= i < |ws|
      ensures 0 <= WorkerNumber(ws[i].process, ws[i].threadsPerProcess, ws[i].thread) <= TotalWorkers(totalProcesses, threadsPerProcess)
    {
      WorkerNumberInRange(process, totalProcesses, i, threadsPerProcess);
    }
    forall i, j | 0 <= i < j < |ws|
      ensures WorkerNumber(ws[i].process, ws[i].threadsPerProcess, ws[i].thread) != WorkerNumber(ws[j].process, ws[j].threadsPerProcess, ws[j].thread)
    {
      if WorkerNumber(process, threadsPerProcess, i) == WorkerNumber(process, threadsPerProcess, j) {
        WorkerNumberInjective(process, i, process, j, threadsPerProcess);
      }
    }
  }

  /** The `graceful_stop` event. */
  class GracefulStop {
    var isSet: bool

    constructor ()
      ensures !isSet
    {
      isSet := false;
    }

    /** `stop()`: sets the flag; setting it again changes nothing. */
    method Stop()
      modifies this
      ensures isSet
    {
      isSet := true;
    }
  }
}
