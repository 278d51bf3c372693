/** The database session layer: connection-error classification, the MySQL
    checkout probe, the bounded retry wrapper around `connect`, the lazily
    created engine and scoped session, and the three decorators that run a unit
    of work inside a session.

    The wrapped callables (the unit of work, `connect`) are oracles: the outcome
    of their n-th call is given as a function of n. */
module Session {
  import opened Errors

  // ---------------------------------------------------------------------------
  // Substring search and connection-error classification
  // ---------------------------------------------------------------------------

  /** `sub` occurs in `s` starting at index `i`. */
  predicate OccursAt(s: string, sub: string, i: int) {
    0 <= i && i + |sub| <= |s| && s[i..i + |sub|] == sub
  }

  ghost predicate Contains(s: string, sub: string) {
    exists i :: OccursAt(s, sub, i)
  }

  lemma OccursShift(s: string, sub: string, i: int)
    requires |s| > 0 && 0 <= i
    ensures OccursAt(s, sub, i + 1) <==> OccursAt(s[1..], sub, i)
  {
    if 0 <= i && i + 1 + |sub| <= |s| {
      assert s[1..][i..i + |sub|] == s[i + 1..i + 1 + |sub|];
    }
  }

  /** Python's `str.find`: the lowest index at which `sub` occurs in `s`, or -1. */
  function Find(s: string, sub: string): (r: int)
    ensures r == -1 <==> !Contains(s, sub)
    ensures r != -1 ==> OccursAt(s, sub, r) && forall i :: 0 <= i < r ==> !OccursAt(s, sub, i)
    decreases |s|
  {
    if |s| < |sub| then
      assert forall i :: !OccursAt(s, sub, i);
      -1
    else if s[..|sub|] == sub then
      assert OccursAt(s, sub, 0);
      0
    else
      var k := Find(s[1..], sub);
      assert forall i | 0 <= i :: OccursAt(s, sub, i + 1) <==> OccursAt(s[1..], sub, i) by {
        forall i | 0 <= i ensures OccursAt(s, sub, i + 1) <==> OccursAt(s[1..], sub, i) {
          OccursShift(s, sub, i);
        }
      }
      assert !OccursAt(s, sub, 0);
      assert forall i :: OccursAt(s, sub, i) ==> i >= 1 && OccursAt(s[1..], sub, i - 1);
      if k == -1 then -1 else k + 1
  }

  /** The MySQL and Oracle error codes that mean the connection is gone. */
  const ConnErrCodes: seq<string> :=
    ["2002", "2003", "2006",
     "ORA-00028", "ORA-01012", "ORA-03113", "ORA-03114", "ORA-03135", "ORA-25408"]

  /** The loop over the codes with its early return: true at the first code found. */
  function AnyCodeFound(codes: seq<string>, msg: string): bool {
    if codes == [] then false
    else if Find(msg, codes[0]) != -1 then true
    else AnyCodeFound(codes[1..], msg)
  }

  /** The loop finds a code exactly when one of the codes occurs in the message. */
  lemma {:induction false} AnyCodeFoundMeaning(codes: seq<string>, msg: string)
    ensures AnyCodeFound(codes, msg) <==> exists k :: 0 <= k < |codes| && Contains(msg, codes[k])
  {
    if codes != [] {
      AnyCodeFoundMeaning(codes[1..], msg);
      assert forall k :: 1 <= k < |codes| ==> codes[k] == codes[1..][k - 1];
    }
  }

  /** `is_db_connection_error(msg)` */
  function IsDbConnectionError(msg: string): bool {
    AnyCodeFound(ConnErrCodes, msg)
  }

  /** A message reports a lost connection exactly when one of the codes occurs in it. */
  lemma IsDbConnectionErrorMeaning(msg: string)
    ensures IsDbConnectionError(msg) <==> exists k :: 0 <= k < |ConnErrCodes| && Contains(msg, ConnErrCodes[k])
  {
    AnyCodeFoundMeaning(ConnErrCodes, msg);
  }

  /** Any message with one of the codes anywhere in it is a connection error,
      whatever surrounds the code. */
  lemma CodeAnywhereIsConnectionError(pre: string, k: nat, post: string)
    requires k < |ConnErrCodes|
    ensures IsDbConnectionError(pre + ConnErrCodes[k] + post)
  {
    var code := ConnErrCodes[k];
    var msg := pre + code + post;
    assert msg[|pre|..|pre| + |code|] == code;
    assert OccursAt(msg, code, |pre|);
    IsDbConnectionErrorMeaning(msg);
  }

  // ---------------------------------------------------------------------------
  // The MySQL checkout probe
  // ---------------------------------------------------------------------------

  /** What `select 1` on a checked-out connection does: succeeds, or raises a
      driver exception (an `OperationalError` of the driver carrying a code, or
      any other exception). */
  datatype Probe =
    | Alive
    | Failed(operational: bool, code: int, text: string)

  /** What the checkout listener does with the probe's result. */
  datatype PingResult =
    | NoEffect
    | RaiseDisconnection(msg: string)
    | Propagate(failure: Probe)

  /** The MySQL error codes meaning "server has gone away" or "lost connection". */
  const GoneAwayCodes: set<int> := {2006, 2013, 2014, 2045, 2055}

  const GoneAwayPrefix := "Got mysql server has gone away: "

  function MysqlPingListener(p: Probe): (r: PingResult)
    ensures p.Alive? <==> r == NoEffect
    ensures r.RaiseDisconnection? <==> p.Failed? && p.operational && p.code in GoneAwayCodes
    ensures r.RaiseDisconnection? ==> GoneAwayPrefix <= r.msg && r.msg[|GoneAwayPrefix|..] == p.text
    ensures r.Propagate? ==> r.failure == p
  {
    match p
    case Alive => NoEffect
    case Failed(operational, code, text) =>
      if operational && code in GoneAwayCodes then RaiseDisconnection(GoneAwayPrefix + text)
      else Propagate(p)
  }

  // ---------------------------------------------------------------------------
  // The bounded retry wrapper
  // ---------------------------------------------------------------------------

  /** A failure the retry loop retries: an `OperationalError` whose message
      `conn` classifies as a lost connection. */
  predicate RetryableBy<T>(conn: string -> bool, a: Outcome<T>) {
    a.Raise? && a.error.cls == OperationalError && conn(a.error.msg)
  }

  /** The failures `wrap_db_error` retries: `conn` is `is_db_connection_error`. */
  predicate Retryable<T>(a: Outcome<T>) {
    RetryableBy(IsDbConnectionError, a)
  }

  /** The result of a wrapped call and how many times the wrapped function was called. */
  datatype WrapRun<T> = WrapRun(result: Outcome<T>, calls: nat)

  const RetryAttempts: nat := 10

  /** The retry loop from call number `k` on, `remaining` being the counter
      after its decrement for this call; `conn` is the message test. */
  function RetryFrom<T>(f: nat -> Outcome<T>, conn: string -> bool, k: nat, remaining: nat): (r: WrapRun<T>)
    ensures k + 1 <= r.calls <= k + remaining + 1
    ensures r.result == f(r.calls - 1)
    decreases remaining
  {
    var a := f(k);
    if a.Raise? && a.error.cls == OperationalError then
      if remaining == 0 || !conn(a.error.msg) then WrapRun(a, k + 1)
      else RetryFrom(f, conn, k + 1, remaining - 1)
    else
      // a return, a DBAPIError re-raised, or any other exception propagating
      WrapRun(a, k + 1)
  }

  /** `wrap_db_error(f)()` with the `except` clauses in their order. */
  function WrapDbErrorRun<T>(h: Hierarchy, f: nat -> Outcome<T>): (r: WrapRun<T>)
    ensures 1 <= r.calls <= RetryAttempts + 1
  {
    var a := f(0);
    if a.Return? then WrapRun(a, 1)
    else if IsDatabaseError(h, a.error.cls) then WrapRun(Raise(Error(RucioException, a.error.msg)), 1)
    else if a.error.cls == OperationalError then
      if !IsDbConnectionError(a.error.msg) then WrapRun(a, 1)
      else RetryFrom(f, IsDbConnectionError, 1, RetryAttempts - 1)
    else WrapRun(a, 1)
  }

  /** The retry loop makes at most `remaining + 1` calls, goes on exactly while
      calls fail retryably and the counter lasts, and ends with the outcome of
      its last call. */
  lemma {:induction false} RetryFromStops<T>(f: nat -> Outcome<T>, conn: string -> bool, k: nat, remaining: nat)
    ensures var w := RetryFrom(f, conn, k, remaining);
      && k + 1 <= w.calls <= k + remaining + 1
      && w.result == f(w.calls - 1)
      && (forall j :: k <= j < w.calls - 1 ==> RetryableBy(conn, f(j)))
      && (w.calls == k + remaining + 1 || !RetryableBy(conn, f(w.calls - 1)))
    decreases remaining
  {
    if RetryableBy(conn, f(k)) && remaining > 0 {
      RetryFromStops(f, conn, k + 1, remaining - 1);
    }
  }

  /** One turn of the retry loop. */
  lemma RetryStep<T>(f: nat -> Outcome<T>, conn: string -> bool, k: nat, remaining: nat)
    ensures RetryFrom(f, conn, k, remaining) ==
      if RetryableBy(conn, f(k)) && remaining > 0 then RetryFrom(f, conn, k + 1, remaining - 1) else WrapRun(f(k), k + 1)
  {
  }

  /** f is called between 1 and 11 times, and more than once only after a
      connection-class `OperationalError` that the `DatabaseError` clause does not catch. */
  lemma WrapCallsBounded<T>(h: Hierarchy, f: nat -> Outcome<T>)
    ensures 1 <= WrapDbErrorRun(h, f).calls <= RetryAttempts + 1
    ensures WrapDbErrorRun(h, f).calls > 1 ==> Retryable(f(0)) && !h.operationalIsDatabase
  {
    if Retryable(f(0)) && !h.operationalIsDatabase {
      RetryFromStops(f, IsDbConnectionError, 1, RetryAttempts - 1);
    }
  }

  /** With SQLAlchemy's hierarchy `OperationalError` is a `DatabaseError`, so the
      first clause turns every `OperationalError` into a `RucioException` and
      the retry loop is never reached. */
  lemma SqlAlchemyNeverRetries<T>(f: nat -> Outcome<T>)
    ensures WrapDbErrorRun(SqlAlchemy, f).calls == 1
    ensures f(0).Raise? && f(0).error.cls == OperationalError ==>
      WrapDbErrorRun(SqlAlchemy, f).result == Raise(Error(RucioException, f(0).error.msg))
  {
  }

  /** A first call that is not a retryable failure is the only call. */
  lemma FirstCallDecides<T>(h: Hierarchy, f: nat -> Outcome<T>)
    requires !Retryable(f(0))
    ensures WrapDbErrorRun(h, f).calls == 1
    ensures f(0).Return? ==> WrapDbErrorRun(h, f).result == f(0)
    ensures f(0).Raise? && IsDatabaseError(h, f(0).error.cls) ==>
      WrapDbErrorRun(h, f).result == Raise(Error(RucioException, f(0).error.msg))
    ensures f(0).Raise? && !IsDatabaseError(h, f(0).error.cls) ==> WrapDbErrorRun(h, f).result == f(0)
  {
  }

  /** After a retryable first failure (and a hierarchy that lets it reach the
      retry clause) the result is that of the first call that is not a retryable
      failure, or of the eleventh call. */
  lemma RetriedOutcome<T>(h: Hierarchy, f: nat -> Outcome<T>)
    requires Retryable(f(0)) && !h.operationalIsDatabase
    ensures var w := WrapDbErrorRun(h, f);
      && 2 <= w.calls <= RetryAttempts + 1
      && w.result == f(w.calls - 1)
      && (forall j :: 0 <= j < w.calls - 1 ==> Retryable(f(j)))
      && (w.calls == RetryAttempts + 1 || !Retryable(f(w.calls - 1)))
  {
    RetryFromStops(f, IsDbConnectionError, 1, RetryAttempts - 1);
  }

  /** Two connection failures, then a success: three calls and the success's result. */
  lemma TwoFailuresThenSuccess<T>(h: Hierarchy, f: nat -> Outcome<T>)
    requires !h.operationalIsDatabase
    requires Retryable(f(0)) && Retryable(f(1)) && f(2).Return?
    ensures WrapDbErrorRun(h, f) == WrapRun(f(2), 3)
  {
    RetriedOutcome(h, f);
  }

  /** Eleven connection failures: the error of the eleventh call propagates. */
  lemma RetriesExhausted<T>(h: Hierarchy, f: nat -> Outcome<T>)
    requires !h.operationalIsDatabase
    requires forall j :: 0 <= j <= RetryAttempts ==> Retryable(f(j))
    ensures WrapDbErrorRun(h, f) == WrapRun(f(RetryAttempts), RetryAttempts + 1)
  {
    RetriedOutcome(h, f);
  }

  /** The `while True` retry loop of `wrap_db_error`, entered after the first
      call failed with a connection error; `conn` is the message test. */
  method RetryLoop<T>(f: nat -> Outcome<T>, conn: string -> bool) returns (r: Outcome<T>, calls: nat, sleeps: nat)
    ensures WrapRun(r, calls) == RetryFrom(f, conn, 1, RetryAttempts - 1)
    ensures sleeps + 1 == calls
  {
    ghost var run := RetryFrom(f, conn, 1, RetryAttempts - 1);
    calls, sleeps := 1, 0;
    var remaining := RetryAttempts;
    while true
      invariant 1 <= remaining <= RetryAttempts
      invariant calls + remaining == RetryAttempts + 1 && sleeps + 1 == calls
      invariant RetryFrom(f, conn, calls, remaining - 1) == run
      decreases remaining
    {
      remaining := remaining - 1;
      sleeps := sleeps + 1;
      var a := f(calls);
      RetryStep(f, conn, calls, remaining);
      calls := calls + 1;
      if a.Return? {
        return a, calls, sleeps;
      }
      if a.error.cls == OperationalError {
        if remaining == 0 || !conn(a.error.msg) {
          return a, calls, sleeps;
        }
      } else {
        return a, calls, sleeps;
      }
    }
  }

  /** `wrap_db_error(f)()`: calls `f` (the n-th call returns `f(n)`), counting
      the calls and the `sleep(0.5)` that precedes every retry. */
  method WrapDbError<T>(h: Hierarchy, f: nat -> Outcome<T>) returns (r: Outcome<T>, calls: nat, sleeps: nat)
    ensures WrapRun(r, calls) == WrapDbErrorRun(h, f)
    ensures sleeps + 1 == calls
  {
    calls, sleeps := 1, 0;
    var a := f(0);
    if a.Return? {
      return a, calls, sleeps;
    }
    var e := a.error;
    if IsDatabaseError(h, e.cls) {
      return Raise(Error(RucioException, e.msg)), calls, sleeps;
    }
    if e.cls != OperationalError {
      // `except DBAPIError: raise`, or an exception no clause catches
      return a, calls, sleeps;
    }
    if !IsDbConnectionError(e.msg) {
      return a, calls, sleeps;
    }
    r, calls, sleeps := RetryLoop(f, IsDbConnectionError);
  }

  // ---------------------------------------------------------------------------
  // The session decorators
  // ---------------------------------------------------------------------------

  /** The calls a decorator makes on the session it obtained. */
  datatype SessionEvent = Begin | Rollback | Commit | Remove | Close

  /** The calls made on the session, in order, and how the decorated call ends. */
  datatype Wrapped<T> = Wrapped(events: seq<SessionEvent>, result: Outcome<T>)

  /** No call is made twice on the session. */
  predicate Distinct(events: seq<SessionEvent>) {
    forall i, j :: 0 <= i < j < |events| ==> events[i] != events[j]
  }

  /** `raise DatabaseException(str(e))` */
  function AsDatabaseException(e: Error): Error {
    Error(DatabaseException, e.msg)
  }

  /** `read_session` around a unit of work that ends with `unit`, when no
      session was passed in. */
  function ReadSessionRun<T>(h: Hierarchy, unit: Outcome<T>): (w: Wrapped<T>)
    ensures Distinct(w.events) && |w.events| > 0 && w.events[|w.events| - 1] == Remove
    ensures Commit !in w.events && Begin !in w.events && Close !in w.events
    ensures Rollback in w.events <==> unit.Raise?
    ensures unit.Return? ==> w.result == unit
    ensures unit.Raise? ==> w.result.Raise?
    ensures unit.Raise? && (unit.error.cls == SqlTimeoutError || IsDatabaseError(h, unit.error.cls)) ==>
      w.result.error == Error(DatabaseException, unit.error.msg)
    ensures unit.Raise? && unit.error.cls != SqlTimeoutError && !IsDatabaseError(h, unit.error.cls) ==>
      w.result == unit
  {
    match unit
    case Return(_) => Wrapped([Remove], unit)
    case Raise(e) =>
      if e.cls == SqlTimeoutError then Wrapped([Rollback, Remove], Raise(AsDatabaseException(e)))
      else if IsDatabaseError(h, e.cls) then Wrapped([Rollback, Remove], Raise(AsDatabaseException(e)))
      else Wrapped([Rollback, Remove], unit)
  }

  /** `transactional_session` around a unit of work that ends with `unit`,
      when no session was passed in. */
  function TransactionalSessionRun<T>(h: Hierarchy, unit: Outcome<T>): (w: Wrapped<T>)
    ensures Distinct(w.events) && |w.events| > 0 && w.events[|w.events| - 1] == Remove
    ensures Begin !in w.events && Close !in w.events
    ensures Commit in w.events <==> unit.Return?
    ensures Rollback in w.events <==> unit.Raise?
    ensures unit.Return? ==> w.result == unit
    ensures unit.Raise? ==> w.result.Raise?
    ensures unit.Raise? && (unit.error.cls == SqlTimeoutError || IsDatabaseError(h, unit.error.cls)) ==>
      w.result.error == Error(DatabaseException, unit.error.msg)
    ensures unit.Raise? && unit.error.cls != SqlTimeoutError && !IsDatabaseError(h, unit.error.cls) ==>
      w.result == unit
  {
    match unit
    case Return(_) => Wrapped([Commit, Remove], unit)
    case Raise(e) =>
      if e.cls == SqlTimeoutError then Wrapped([Rollback, Remove], Raise(AsDatabaseException(e)))
      else if IsDatabaseError(h, e.cls) then Wrapped([Rollback, Remove], Raise(AsDatabaseException(e)))
      else Wrapped([Rollback, Remove], unit)
  }

  /** `in_transaction(nested)` around a unit of work that ends with `unit`,
      when no session was passed in. */
  function InTransactionRun<T>(nested: bool, unit: Outcome<T>): (w: Wrapped<T>)
    ensures Distinct(w.events) && |w.events| > 0 && w.events[|w.events| - 1] == Close
    ensures Begin in w.events <==> nested
    ensures nested ==> w.events[0] == Begin
    ensures Commit in w.events <==> unit.Return?
    ensures Rollback in w.events <==> unit.Raise?
    ensures Remove !in w.events
    ensures unit.Return? ==> w.result == unit
    ensures unit.Raise? && unit.error.cls == SqlTimeoutError ==>
      w.result == Raise(Error(DatabaseException, unit.error.msg))
    ensures unit.Raise? && unit.error.cls != SqlTimeoutError ==> w.result == unit
  {
    var begin := if nested then [Begin] else [];
    var finish := if unit.Return? then Commit else Rollback;
    var result := if unit.Raise? && unit.error.cls == SqlTimeoutError then Raise(AsDatabaseException(unit.error)) else unit;
    Wrapped(begin + [finish, Close], result)
  }

  // ---------------------------------------------------------------------------
  // The lazily created engine and scoped session
  // ---------------------------------------------------------------------------

  /** The scoped session; `log` records the calls made on it. */
  class ScopedSession {
    var log: seq<SessionEvent>

    constructor ()
      ensures log == []
    {
      log := [];
    }

    method Record(e: SessionEvent)
      modifies this
      ensures log == old(log) + [e]
    {
      log := log + [e];
    }
  }

  /** The engine (connection pool). */
  class Engine {
    constructor () {}
  }

  /** The module globals `_ENGINE` and `_SESSION`. */
  class Database {
    var engine: Engine?
    var session: ScopedSession?

    /** A session exists only over an engine. */
    ghost predicate Valid()
      reads this
    {
      session != null ==> engine != null
    }

    constructor ()
      ensures Valid() && engine == null && session == null
    {
      engine, session := null, null;
    }

    /** `get_engine`: creates the engine on the first call and connects through
        `wrap_db_error`, `connect(n)` being the outcome of the n-th connection
        attempt.  The engine is stored before connecting, so it stays even when
        connecting fails. */
    method GetEngine(h: Hierarchy, connect: nat -> Outcome<()>) returns (r: Outcome<Engine>)
      requires Valid()
      modifies this`engine
      ensures Valid() && engine != null
      ensures old(engine) != null ==> engine == old(engine) && r == Return(engine)
      ensures old(engine) == null ==> fresh(engine)
      ensures old(engine) == null ==>
        match WrapDbErrorRun(h, connect).result
        case Return(_) => r == Return(engine)
        case Raise(e) => r == Raise(e)
    {
      if engine == null {
        var e := new Engine();
        engine := e;
        var c, calls, sleeps := WrapDbError(h, connect);
        if c.Raise? {
          return Raise(c.error);
        }
      }
      r := Return(engine);
    }

    /** `_get_session`: creates the scoped session unless it exists. */
    method InitSession()
      requires Valid() && engine != null
      modifies this`session
      ensures Valid() && session != null
      ensures old(session) != null ==> session == old(session)
      ensures old(session) == null ==> fresh(session) && session.log == []
    {
      if session == null {
        var s := new ScopedSession();
        session := s;
      }
    }

    /** `get_session`: creates the engine and the session on first use and
        returns the same session ever after. */
    method GetSession(h: Hierarchy, connect: nat -> Outcome<()>) returns (r: Outcome<ScopedSession>)
      requires Valid()
      modifies this`engine, this`session
      ensures Valid()
      ensures old(engine) != null ==> engine == old(engine)
      ensures old(session) != null ==> session == old(session) && r == Return(session)
      ensures old(session) == null ==> (session == null <==> r.Raise?) && (session != null ==> fresh(session))
      ensures r.Return? ==> session != null && r.value == session && engine != null
      ensures old(session) == null && old(engine) != null ==> r.Return? && session.log == []
      ensures old(engine) == null ==> engine != null && fresh(engine)
      ensures old(engine) == null ==>
        match WrapDbErrorRun(h, connect).result
        case Return(_) => r.Return? && session.log == []
        case Raise(e) => r == Raise(e) && session == null
    {
      if session == null {
        var e := GetEngine(h, connect);
        if e.Raise? {
          return Raise(e.error);
        }
        InitSession();
      }
      r := Return(session);
    }

    /** `read_session`: with a session passed in (`supplied`), runs the unit of
        work on it and touches nothing; otherwise obtains the global session and
        drives it as `ReadSessionRun` says. */
    method ReadSession<T>(h: Hierarchy, connect: nat -> Outcome<()>, supplied: ScopedSession?, unit: Outcome<T>)
      returns (r: Outcome<T>)
      requires Valid()
      modifies this, session
      ensures Valid()
      ensures supplied != null ==> r == unit && unchanged(this) && (old(session) != null ==> unchanged(old(session)))
      ensures supplied == null && old(session) != null ==>
        session == old(session) && session.log == old(session.log) + ReadSessionRun(h, unit).events &&
        r == ReadSessionRun(h, unit).result
      ensures supplied == null && old(session) == null && old(engine) != null ==>
        session != null && fresh(session) && session.log == ReadSessionRun(h, unit).events &&
        r == ReadSessionRun(h, unit).result
      ensures supplied == null && old(session) == null && old(engine) == null ==>
        match WrapDbErrorRun(h, connect).result
        case Return(_) =>
          session != null && fresh(session) && session.log == ReadSessionRun(h, unit).events &&
          r == ReadSessionRun(h, unit).result
        case Raise(e) => r == Raise(e) && session == null
    {
      if supplied != null {
        return unit;
      }
      var got := GetSession(h, connect);
      if got.Raise? {
        return Raise(got.error);
      }
      r := ReadOn(got.value, h, unit);
    }

    /** `transactional_session`: as `ReadSession`, with `TransactionalSessionRun`. */
    method TransactionalSession<T>(h: Hierarchy, connect: nat -> Outcome<()>, supplied: ScopedSession?, unit: Outcome<T>)
      returns (r: Outcome<T>)
      requires Valid()
      modifies this, session
      ensures Valid()
      ensures supplied != null ==> r == unit && unchanged(this) && (old(session) != null ==> unchanged(old(session)))
      ensures supplied == null && old(session) != null ==>
        session == old(session) && session.log == old(session.log) + TransactionalSessionRun(h, unit).events &&
        r == TransactionalSessionRun(h, unit).result
      ensures supplied == null && old(session) == null && old(engine) != null ==>
        session != null && fresh(session) && session.log == TransactionalSessionRun(h, unit).events &&
        r == TransactionalSessionRun(h, unit).result
      ensures supplied == null && old(session) == null && old(engine) == null ==>
        match WrapDbErrorRun(h, connect).result
        case Return(_) =>
          session != null && fresh(session) && session.log == TransactionalSessionRun(h, unit).events &&
          r == TransactionalSessionRun(h, unit).result
        case Raise(e) => r == Raise(e) && session == null
    {
      if supplied != null {
        return unit;
      }
      var got := GetSession(h, connect);
      if got.Raise? {
        return Raise(got.error);
      }
      r := TransactOn(got.value, h, unit);
    }

    /** `in_transaction(nested)`: as `ReadSession`, with `InTransactionRun`. */
    method InTransaction<T>(nested: bool, h: Hierarchy, connect: nat -> Outcome<()>, supplied: ScopedSession?, unit: Outcome<T>)
      returns (r: Outcome<T>)
      requires Valid()
      modifies this, session
      ensures Valid()
      ensures supplied != null ==> r == unit && unchanged(this) && (old(session) != null ==> unchanged(old(session)))
      ensures supplied == null && old(session) != null ==>
        session == old(session) && session.log == old(session.log) + InTransactionRun(nested, unit).events &&
        r == InTransactionRun(nested, unit).result
      ensures supplied == null && old(session) == null && old(engine) != null ==>
        session != null && fresh(session) && session.log == InTransactionRun(nested, unit).events &&
        r == InTransactionRun(nested, unit).result
      ensures supplied == null && old(session) == null && old(engine) == null ==>
        match WrapDbErrorRun(h, connect).result
        case Return(_) =>
          session != null && fresh(session) && session.log == InTransactionRun(nested, unit).events &&
          r == InTransactionRun(nested, unit).result
        case Raise(e) => r == Raise(e) && session == null
    {
      if supplied != null {
        return unit;
      }
      var got := GetSession(h, connect);
      if got.Raise? {
        return Raise(got.error);
      }
      r := InTransactionOn(got.value, nested, unit);
    }
  }

  /** The body of `read_session` once it holds the session `s`. */
  method ReadOn<T>(s: ScopedSession, h: Hierarchy, unit: Outcome<T>) returns (r: Outcome<T>)
    modifies s
    ensures s.log == old(s.log) + ReadSessionRun(h, unit).events
    ensures r == ReadSessionRun(h, unit).result
  {
    match unit {
      case Return(_) =>
        r := unit;
      case Raise(e) =>
        if e.cls == SqlTimeoutError {
          s.Record(Rollback);
          r := Raise(AsDatabaseException(e));
        } else if IsDatabaseError(h, e.cls) {
          s.Record(Rollback);
          r := Raise(AsDatabaseException(e));
        } else {
          s.Record(Rollback);
          r := unit;
        }
    }
    s.Record(Remove);
  }

  /** The body of `transactional_session` once it holds the session `s`. */
  method TransactOn<T>(s: ScopedSession, h: Hierarchy, unit: Outcome<T>) returns (r: Outcome<T>)
    modifies s
    ensures s.log == old(s.log) + TransactionalSessionRun(h, unit).events
    ensures r == TransactionalSessionRun(h, unit).result
  {
    match unit {
      case Return(_) =>
        r := unit;
        s.Record(Commit);
      case Raise(e) =>
        if e.cls == SqlTimeoutError {
          s.Record(Rollback);
          r := Raise(AsDatabaseException(e));
        } else if IsDatabaseError(h, e.cls) {
          s.Record(Rollback);
          r := Raise(AsDatabaseException(e));
        } else {
          s.Record(Rollback);
          r := unit;
        }
    }
    s.Record(Remove);
  }

  /** The body of `in_transaction(nested)` once it holds the session `s`. */
  method InTransactionOn<T>(s: ScopedSession, nested: bool, unit: Outcome<T>) returns (r: Outcome<T>)
    modifies s
    ensures s.log == old(s.log) + InTransactionRun(nested, unit).events
    ensures r == InTransactionRun(nested, unit).result
  {
    if nested {
      s.Record(Begin);
    }
    r := FinishTransaction(s, unit);
  }

  /** The `try`/`except`/`else`/`finally` of `in_transaction`. */
  method FinishTransaction<T>(s: ScopedSession, unit: Outcome<T>) returns (r: Outcome<T>)
    modifies s
    ensures s.log == old(s.log) + [if unit.Return? then Commit else Rollback, Close]
    ensures r == InTransactionRun(false, unit).result
  {
    match unit {
      case Return(_) =>
        r := unit;
        s.Record(Commit);
      case Raise(e) =>
        if e.cls == SqlTimeoutError {
          s.Record(Rollback);
          r := Raise(AsDatabaseException(e));
        } else {
          s.Record(Rollback);
          r := unit;
        }
    }
    s.Record(Close);
  }

}
