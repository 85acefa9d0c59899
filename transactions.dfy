/**
 * The transaction helper (src/database/transactions.ts): connect, begin, run the
 * work, commit or roll back, and release in every case once the transaction began.
 *
 * The database is a `Driver`: whether a call throws, and what a query answers, are
 * decided by the sequence of calls made so far (the call itself last).
 */
module Transactions {
  import opened Wrappers

  /** A SQL text with its bound parameters. */
  datatype Statement = Statement(query: string, parameters: Option<seq<string>>)

  /** The calls made on a query runner. */
  datatype Call = Connect | StartTransaction | Query(statement: Statement) | CommitTransaction | RollbackTransaction | Release

  /** What a failing call throws. */
  datatype DbError = DbError(message: string)

  datatype Driver<T> = Driver(fails: seq<Call> -> Option<DbError>, answer: seq<Call> -> T)

  /** The calls made and what came of them. */
  datatype Outcome<T> = Outcome(calls: seq<Call>, result: Result<T, DbError>)

  const Opened: seq<Call> := [Connect, StartTransaction]

  /** The query runner TypeORM hands out: it remembers every call made on it. */
  class QueryRunner<T> {
    const driver: Driver<T>
    var calls: seq<Call>

    constructor (driver: Driver<T>)
      ensures this.driver == driver && calls == []
    {
      this.driver := driver;
      calls := [];
    }

    /** Makes call `c`; the error it threw, if any. */
    method Perform(c: Call) returns (e: Option<DbError>)
      modifies this
      ensures calls == old(calls) + [c]
      ensures e == driver.fails(calls)
    {
      calls := calls + [c];
      e := driver.fails(calls);
    }

    /** `query(query, parameters)`: the answer, or the error it threw. */
    method Query(s: Statement) returns (r: Result<T, DbError>)
      modifies this
      ensures calls == old(calls) + [Call.Query(s)]
      ensures r == match driver.fails(calls) case Some(e) => Failure(e) case None => Success(driver.answer(calls))
    {
      calls := calls + [Call.Query(s)];
      match driver.fails(calls)
      case Some(e) => r := Failure(e);
      case None => r := Success(driver.answer(calls));
    }
  }

  /**
   * Running `batch` one statement after another after the calls `trace`: the first
   * error ends the batch; otherwise every answer is collected in order.
   */
  function RunBatch<T>(d: Driver<T>, trace: seq<Call>, batch: seq<Statement>): (o: Outcome<seq<T>>)
    ensures o.result.Success? ==> |o.result.value| == |batch| && |o.calls| == |trace| + |batch|
    decreases |batch|
  {
    if batch == [] then Outcome(trace, Success([]))
    else
      var prev := RunBatch(d, trace, batch[..|batch| - 1]);
      if prev.result.Failure? then prev
      else
        var t := prev.calls + [Query(batch[|batch| - 1])];
        match d.fails(t)
        case Some(e) => Outcome(t, Failure(e))
        case None => Outcome(t, Success(prev.result.value + [d.answer(t)]))
  }

  /**
   * A batch run extends `trace` with the statements in order, each call but the
   * last having gone through. It fails exactly at its last call, with that call's
   * error; on success it ran every statement and the i-th answer is the one the
   * database gave to the i-th query.
   */
  lemma {:induction false} RunBatchShape<T>(d: Driver<T>, trace: seq<Call>, batch: seq<Statement>)
    ensures var o := RunBatch(d, trace, batch);
      && (|trace| < |o.calls| <= |trace| + |batch| || o.calls == trace)
      && o.calls[..|trace|] == trace
      && (forall i :: |trace| <= i < |o.calls| ==> o.calls[i] == Query(batch[i - |trace|]))
      && (forall n :: |trace| < n < |o.calls| ==> d.fails(o.calls[..n]).None?)
      && (o.result.Failure? ==> |trace| < |o.calls| && d.fails(o.calls) == Some(o.result.error))
      && (o.result.Success? ==>
           && |o.calls| == |trace| + |batch|
           && (forall n :: |trace| < n <= |o.calls| ==> d.fails(o.calls[..n]).None?)
           && (forall i :: 0 <= i < |batch| ==> o.result.value[i] == d.answer(o.calls[..|trace| + i + 1])))
    decreases |batch|
  {
    if batch != [] {
      var prev := RunBatch(d, trace, batch[..|batch| - 1]);
      RunBatchShape(d, trace, batch[..|batch| - 1]);
      if prev.result.Success? {
        var t := prev.calls + [Query(batch[|batch| - 1])];
        assert forall i :: 0 <= i <= |prev.calls| ==> t[..i] == prev.calls[..i];
        assert t[..|t|] == t;
      }
    }
  }

  /** Once a batch has failed, the statements after it are never run. */
  lemma {:induction false} FailureEndsBatch<T>(d: Driver<T>, trace: seq<Call>, batch: seq<Statement>, k: nat, m: nat)
    requires k <= m <= |batch|
    requires RunBatch(d, trace, batch[..k]).result.Failure?
    ensures RunBatch(d, trace, batch[..m]) == RunBatch(d, trace, batch[..k])
    decreases m
  {
    if m > k {
      FailureEndsBatch(d, trace, batch, k, m - 1);
      assert batch[..m][..m - 1] == batch[..m - 1];
    }
  }

  /** Both opening calls went through. */
  predicate Started<T>(d: Driver<T>) {
    d.fails([Connect]).None? && d.fails(Opened).None?
  }

  /**
   * `processTransaction` whose work is the batch: connect and begin outside the
   * `try`; in the `try`, the batch and the commit; in the `catch`, a rollback whose
   * own error, if any, replaces the one caught; in the `finally`, a release whose
   * own error, if any, replaces the outcome.
   */
  function Transaction<T>(d: Driver<T>, batch: seq<Statement>): (o: Outcome<seq<T>>)
    ensures |o.calls| >= 1 && o.calls[0] == Connect
    // release is called iff connect and begin went through
    ensures Release in o.calls <==> Started(d)
    ensures o.result.Success? ==> Started(d) && |o.result.value| == |batch|
  {
    if d.fails([Connect]).Some? then Outcome([Connect], Failure(d.fails([Connect]).value))
    else if d.fails(Opened).Some? then Outcome(Opened, Failure(d.fails(Opened).value))
    else
      var body := RunBatch(d, Opened, batch);
      RunBatchShape(d, Opened, batch);
      var tried :=
        match body.result
        case Failure(e) => RollBack(d, body.calls, e)
        case Success(v) =>
          var t := body.calls + [CommitTransaction];
          match d.fails(t)
          case Some(e) => RollBack(d, t, e)
          case None => Outcome(t, Success(v));
      var t := tried.calls + [Release];
      match d.fails(t)
      case Some(e) => Outcome(t, Failure(e))
      case None => Outcome(t, tried.result)
  }

  /**
   * The `catch` block after the calls `trace`, having caught `caught`: it rethrows
   * what it caught, unless the rollback itself throws, whose error then propagates.
   */
  function RollBack<T>(d: Driver<T>, trace: seq<Call>, caught: DbError): (o: Outcome<seq<T>>)
    ensures o.calls == trace + [RollbackTransaction] && o.result.Failure?
    ensures d.fails(o.calls).None? ==> o.result.error == caught
    ensures d.fails(o.calls).Some? ==> o.result.error == d.fails(o.calls).value
  {
    var t := trace + [RollbackTransaction];
    Outcome(t, Failure(if d.fails(t).Some? then d.fails(t).value else caught))
  }

  /** When connect or begin throws, the error propagates and nothing else is called, not even release. */
  lemma OpeningFailurePropagates<T>(d: Driver<T>, batch: seq<Statement>)
    requires !Started(d)
    ensures var o := Transaction(d, batch);
      && o.result.Failure? && Release !in o.calls && o.calls[0] == Connect && |o.calls| <= 2
      && d.fails(o.calls) == Some(o.result.error)
  {
  }

  /**
   * Once begun, the calls are: connect, begin, the statements run, then commit or
   * rollback or both (a failed commit is rolled back), then release exactly once, last.
   */
  lemma CallShape<T>(d: Driver<T>, batch: seq<Statement>)
    requires Started(d)
    ensures var o := Transaction(d, batch);
      var body := RunBatch(d, Opened, batch);
      && o.calls[..|body.calls|] == body.calls
      && o.calls[|o.calls| - 1] == Release
      && (forall i :: 0 <= i < |o.calls| - 1 ==> o.calls[i] != Release)
      && (o.calls[|body.calls|..] == [CommitTransaction, Release]
          || o.calls[|body.calls|..] == [RollbackTransaction, Release]
          || o.calls[|body.calls|..] == [CommitTransaction, RollbackTransaction, Release])
  {
    var o := Transaction(d, batch);
    var body := RunBatch(d, Opened, batch);
    var tail := ClosingCalls(d, batch);
    assert o.calls[|body.calls|..] == tail;
    NoReleaseInBatch(d, Opened, batch);
    forall i | 0 <= i < |o.calls| - 1 ensures o.calls[i] != Release {
      if i < |body.calls| {
        assert o.calls[i] == body.calls[i];
      }
    }
  }

  /** The calls after the statements, once begun: commit, rollback or both, then release. */
  function ClosingCalls<T>(d: Driver<T>, batch: seq<Statement>): (tail: seq<Call>)
    requires Started(d)
    ensures Transaction(d, batch).calls == RunBatch(d, Opened, batch).calls + tail
  {
    var body := RunBatch(d, Opened, batch);
    if body.result.Failure? then [RollbackTransaction, Release]
    else if d.fails(body.calls + [CommitTransaction]).Some? then [CommitTransaction, RollbackTransaction, Release]
    else [CommitTransaction, Release]
  }

  lemma {:induction false} NoReleaseInBatch<T>(d: Driver<T>, trace: seq<Call>, batch: seq<Statement>)
    requires forall i :: 0 <= i < |trace| ==> trace[i] != Release
    ensures forall i :: 0 <= i < |RunBatch(d, trace, batch).calls| ==> RunBatch(d, trace, batch).calls[i] != Release
    decreases |batch|
  {
    if batch != [] {
      NoReleaseInBatch(d, trace, batch[..|batch| - 1]);
    }
  }


  /** A successful transaction committed, never rolled back, and answered every statement in order. */
  lemma SuccessCommits<T>(d: Driver<T>, batch: seq<Statement>)
    requires Transaction(d, batch).result.Success?
    ensures var o := Transaction(d, batch);
      && Started(d)
      && o.calls == RunBatch(d, Opened, batch).calls + [CommitTransaction, Release]
      && |o.result.value| == |batch|
      && (forall i :: 0 <= i < |batch| ==> o.calls[i + 2] == Query(batch[i]))
      && (forall i :: 0 <= i < |batch| ==> o.result.value[i] == d.answer(o.calls[..i + 3]))
  {
    var o := Transaction(d, batch);
    var body := RunBatch(d, Opened, batch);
    RunBatchShape(d, Opened, batch);
    assert o.calls == body.calls + [CommitTransaction, Release];
    forall i | 0 <= i < |batch|
      ensures o.calls[i + 2] == Query(batch[i])
      ensures o.result.value[i] == d.answer(o.calls[..i + 3])
    {
      assert o.calls[..i + 3] == body.calls[..i + 3];
    }
  }

  /**
   * When a statement throws, the batch stops there (its last call is the one that
   * threw) and the next call is the rollback, then the release; nothing is committed.
   */
  lemma FailureRollsBack<T>(d: Driver<T>, batch: seq<Statement>)
    requires Started(d)
    requires RunBatch(d, Opened, batch).result.Failure?
    ensures Transaction(d, batch).calls == RunBatch(d, Opened, batch).calls + [RollbackTransaction, Release]
    ensures d.fails(RunBatch(d, Opened, batch).calls).Some?
    ensures Transaction(d, batch).result.Failure?
  {
    RunBatchShape(d, Opened, batch);
  }

  /** When rollback and release both go through, the statement's own error is what the caller sees. */
  lemma StatementErrorRethrown<T>(d: Driver<T>, batch: seq<Statement>)
    requires Started(d)
    requires RunBatch(d, Opened, batch).result.Failure?
    requires d.fails(RunBatch(d, Opened, batch).calls + [RollbackTransaction]).None?
    requires d.fails(RunBatch(d, Opened, batch).calls + [RollbackTransaction, Release]).None?
    ensures Transaction(d, batch).result == RunBatch(d, Opened, batch).result
  {
    var body := RunBatch(d, Opened, batch);
    assert body.calls + [RollbackTransaction] + [Release] == body.calls + [RollbackTransaction, Release];
  }

  /** A commit that throws is rolled back, and when rollback and release go through its error is what the caller sees. */
  lemma CommitErrorRethrown<T>(d: Driver<T>, batch: seq<Statement>)
    requires Started(d)
    requires RunBatch(d, Opened, batch).result.Success?
    requires d.fails(RunBatch(d, Opened, batch).calls + [CommitTransaction]).Some?
    requires d.fails(RunBatch(d, Opened, batch).calls + [CommitTransaction, RollbackTransaction]).None?
    requires d.fails(RunBatch(d, Opened, batch).calls + [CommitTransaction, RollbackTransaction, Release]).None?
    ensures Transaction(d, batch).calls
            == RunBatch(d, Opened, batch).calls + [CommitTransaction, RollbackTransaction, Release]
    ensures Transaction(d, batch).result == Failure(d.fails(RunBatch(d, Opened, batch).calls + [CommitTransaction]).value)
  {
    var body := RunBatch(d, Opened, batch);
    assert body.calls + [CommitTransaction] + [RollbackTransaction] == body.calls + [CommitTransaction, RollbackTransaction];
    assert body.calls + [CommitTransaction, RollbackTransaction] + [Release]
           == body.calls + [CommitTransaction, RollbackTransaction, Release];
  }

  /**
   * When the rollback after a failed statement throws and release goes through,
   * the caller sees the rollback's error, not the statement's.
   */
  lemma RollbackErrorReplaces<T>(d: Driver<T>, batch: seq<Statement>)
    requires Started(d)
    requires RunBatch(d, Opened, batch).result.Failure?
    requires d.fails(RunBatch(d, Opened, batch).calls + [RollbackTransaction]).Some?
    requires d.fails(RunBatch(d, Opened, batch).calls + [RollbackTransaction, Release]).None?
    ensures Transaction(d, batch).calls == RunBatch(d, Opened, batch).calls + [RollbackTransaction, Release]
    ensures Transaction(d, batch).result
            == Failure(d.fails(RunBatch(d, Opened, batch).calls + [RollbackTransaction]).value)
  {
    var body := RunBatch(d, Opened, batch);
    assert body.calls + [RollbackTransaction] + [Release] == body.calls + [RollbackTransaction, Release];
  }

  /** A release that throws decides the outcome, whatever came before. */
  lemma ReleaseErrorPrevails<T>(d: Driver<T>, batch: seq<Statement>)
    requires Started(d)
    requires d.fails(Transaction(d, batch).calls).Some?
    ensures Transaction(d, batch).result == Failure(d.fails(Transaction(d, batch).calls).value)
  {
  }

  /** The calls of a batch that runs to the end. */
  function QueryCalls(batch: seq<Statement>): (r: seq<Call>)
    ensures |r| == |batch| && forall i :: 0 <= i < |batch| ==> r[i] == Query(batch[i])
  {
    if batch == [] then [] else [Query(batch[0])] + QueryCalls(batch[1..])
  }

  /** Against a database where nothing throws, the transaction commits every statement and releases. */
  lemma NothingThrows<T>(d: Driver<T>, batch: seq<Statement>)
    requires forall t :: d.fails(t).None?
    ensures Transaction(d, batch).calls == Opened + QueryCalls(batch) + [CommitTransaction, Release]
    ensures Transaction(d, batch).result.Success?
  {
    var body := RunBatch(d, Opened, batch);
    RunBatchShape(d, Opened, batch);
    assert body.calls == Opened + QueryCalls(batch) by {
      assert body.calls[..2] == Opened;
    }
  }

  /**
   * The callback of `executeMultipleQueriesInTransaction`: each statement in turn,
   * collecting its answer; an error propagates at once.
   */
  method RunStatements<T>(runner: QueryRunner<T>, batch: seq<Statement>) returns (r: Result<seq<T>, DbError>)
    modifies runner
    ensures Outcome(runner.calls, r) == RunBatch(runner.driver, old(runner.calls), batch)
  {
    ghost var start := runner.calls;
    var results: seq<T> := [];
    var i := 0;
    while i < |batch|
      invariant 0 <= i <= |batch|
      invariant Outcome(runner.calls, Success(results)) == RunBatch(runner.driver, start, batch[..i])
    {
      assert batch[..i + 1][..i] == batch[..i];
      var q := runner.Query(batch[i]);
      if q.Failure? {
        FailureEndsBatch(runner.driver, start, batch, i + 1, |batch|);
        assert batch[..|batch|] == batch;
        return Failure(q.error);
      }
      results := results + [q.value];
      i := i + 1;
    }
    assert batch[..i] == batch;
    r := Success(results);
  }

  /** `processTransaction(dataSource, work)` on a runner fresh from `createQueryRunner()`, with `batch` as the work. */
  method ProcessTransaction<T>(runner: QueryRunner<T>, batch: seq<Statement>) returns (r: Result<seq<T>, DbError>)
    requires runner.calls == []
    modifies runner
    ensures Outcome(runner.calls, r) == Transaction(runner.driver, batch)
  {
    var e := runner.Perform(Connect);
    assert runner.calls == [Connect];
    if e.Some? {
      return Failure(e.value);
    }
    e := runner.Perform(StartTransaction);
    assert runner.calls == Opened;
    if e.Some? {
      return Failure(e.value);
    }
    var caught: Option<DbError> := None;
    var result := RunStatements(runner, batch);
    if result.Failure? {
      caught := Some(result.error);
    } else {
      e := runner.Perform(CommitTransaction);
      if e.Some? {
        caught := e;
      }
    }
    if caught.Some? {
      e := runner.Perform(RollbackTransaction);
      result := Failure(if e.Some? then e.value else caught.value);
    }
    e := runner.Perform(Release);
    if e.Some? {
      result := Failure(e.value);
    }
    r := result;
  }

  /** `executeQueryInTransaction(dataSource, query, parameters)`: a transaction around one statement. */
  method ExecuteQueryInTransaction<T>(runner: QueryRunner<T>, statement: Statement) returns (r: Result<T, DbError>)
    requires runner.calls == []
    modifies runner
    ensures r == match Transaction(runner.driver, [statement]).result
                 case Success(v) => Success(v[0])
                 case Failure(e) => Failure(e)
    ensures runner.calls == Transaction(runner.driver, [statement]).calls
    ensures r.Success? ==> r.value == runner.driver.answer([Connect, StartTransaction, Query(statement)])
  {
    var all := ProcessTransaction(runner, [statement]);
    match all
    case Success(v) =>
      SuccessCommits(runner.driver, [statement]);
      assert runner.calls[..3] == [Connect, StartTransaction, Query(statement)];
      r := Success(v[0]);
    case Failure(e) => r := Failure(e);
  }

  /** `executeMultipleQueriesInTransaction(dataSource, queries)`: one transaction around all the statements. */
  method ExecuteMultipleQueriesInTransaction<T>(runner: QueryRunner<T>, queries: seq<Statement>)
    returns (r: Result<seq<T>, DbError>)
    requires runner.calls == []
    modifies runner
    ensures Outcome(runner.calls, r) == Transaction(runner.driver, queries)
    ensures r.Success? ==> |r.value| == |queries|
  {
    r := ProcessTransaction(runner, queries);
    if r.Success? {
      SuccessCommits(runner.driver, queries);
    }
  }
}
