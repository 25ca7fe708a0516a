/** The unit-of-work side of lib/connector.js: the module-level pool slot and session-script
    lists, connection acquisition with its buildup scripts, execution, release with its
    teardown scripts, the `id` copy on returned rows, and the reply `run` hands to Waterline.
    The driver is outside the model: every answer it gives (a pool, a connection, the outcome
    of each statement, a result set) is a parameter, and what the code asks of the connection
    is returned as a trace of events. */
module Connector {
  import opened JsValues

  /** A driver pool and a pooled connection, known only by identity. */
  datatype Pool = Pool(id: nat)
  datatype Connection = Connection(id: nat)

  /** A statement as `addBuildupSql`/`addTeardownSql` receive it; None stands for a falsy
      `binds` or `options`. */
  datatype ScriptRequest = ScriptRequest(sql: string, binds: Option<Obj>, options: Option<Obj>)

  /** A statement as the lists store it. */
  datatype Script = Script(sql: string, binds: Obj, options: Obj)

  /** `{sql, binds: binds || {}, options: options || {}}`. */
  function Stored(request: ScriptRequest): Script {
    Script(request.sql, request.binds.GetOr([]), request.options.GetOr([]))
  }

  /** What the code asks of a connection, in order. */
  datatype Event = Executed(sql: string, binds: Obj, options: Obj) | Released

  function Executions(scripts: seq<Script>): (es: seq<Event>)
    ensures |es| == |scripts|
    ensures forall i :: 0 <= i < |scripts| ==> es[i] == Executed(scripts[i].sql, scripts[i].binds, scripts[i].options)
  {
    seq(|scripts|, i requires 0 <= i < |scripts| => Executed(scripts[i].sql, scripts[i].binds, scripts[i].options))
  }

  /** How many times the connection is released in a trace. */
  function Releases(events: seq<Event>): nat {
    if events == [] then 0
    else Releases(events[..|events| - 1]) + (if events[|events| - 1] == Released then 1 else 0)
  }

  lemma {:induction false} ReleasesAppend(a: seq<Event>, b: seq<Event>)
    ensures Releases(a + b) == Releases(a) + Releases(b)
    decreases |b|
  {
    if b == [] {
      assert a + b == a;
    } else {
      assert (a + b)[..|a + b| - 1] == a + b[..|b| - 1];
      ReleasesAppend(a, b[..|b| - 1]);
    }
  }

  lemma {:induction false} ReleasesOfExecutions(scripts: seq<Script>)
    ensures Releases(Executions(scripts)) == 0
    decreases |scripts|
  {
    if scripts != [] {
      var n := |scripts| - 1;
      assert Executions(scripts)[..n] == Executions(scripts[..n]);
      ReleasesOfExecutions(scripts[..n]);
    }
  }

  // ---------------------------------------------------------------- async.eachSeries

  /** The scripts that ran, and the error that ended the series, if one did. */
  datatype Series = Series(ran: seq<Script>, failure: Option<Error>)

  /** `async.eachSeries` over statements whose outcomes are given (None: success): each runs
      after the previous one succeeded, and the first error ends the series. */
  function RunSeries(scripts: seq<Script>, outcomes: seq<Option<Error>>): Series
    requires |outcomes| == |scripts|
  {
    if scripts == [] then Series([], None)
    else
      var n := |scripts| - 1;
      var before := RunSeries(scripts[..n], outcomes[..n]);
      if before.failure.Some? then before else Series(before.ran + [scripts[n]], outcomes[n])
  }

  /** The index of the first failing outcome, or the length when none fails. */
  function FirstFailure(outcomes: seq<Option<Error>>): (k: nat)
    ensures k <= |outcomes|
    ensures forall i :: 0 <= i < k ==> outcomes[i].None?
    ensures k < |outcomes| ==> outcomes[k].Some?
  {
    if outcomes == [] || outcomes[0].Some? then 0 else 1 + FirstFailure(outcomes[1..])
  }

  /** The series, stated without recursion: every script up to and including the first failing
      one ran, in order, and that failure is the series' error. */
  lemma {:induction false} RunSeriesStopsAtFirstFailure(scripts: seq<Script>, outcomes: seq<Option<Error>>)
    requires |outcomes| == |scripts|
    ensures var k := FirstFailure(outcomes);
      RunSeries(scripts, outcomes)
      == if k < |scripts| then Series(scripts[..k + 1], outcomes[k]) else Series(scripts, None)
    decreases |scripts|
  {
    if scripts != [] {
      var n := |scripts| - 1;
      var k := FirstFailure(outcomes);
      FirstFailureOfPrefix(outcomes);
      RunSeriesStopsAtFirstFailure(scripts[..n], outcomes[..n]);
      var before := RunSeries(scripts[..n], outcomes[..n]);
      if k < n {
        assert scripts[..n][..k + 1] == scripts[..k + 1];
        assert outcomes[..n][k] == outcomes[k];
        assert before == Series(scripts[..k + 1], outcomes[k]);
      } else {
        assert before == Series(scripts[..n], None);
        assert scripts[..n] + [scripts[n]] == scripts;
        assert RunSeries(scripts, outcomes) == Series(scripts, outcomes[n]);
      }
    }
  }

  /** Dropping the last outcome moves the first failure only when the last one was it. */
  lemma FirstFailureOfPrefix(outcomes: seq<Option<Error>>)
    requires outcomes != []
    ensures var n := |outcomes| - 1;
      FirstFailure(outcomes[..n]) == if FirstFailure(outcomes) < n then FirstFailure(outcomes) else n
  {
    var n := |outcomes| - 1;
    var k := FirstFailure(outcomes);
    var k' := FirstFailure(outcomes[..n]);
    assert forall i :: 0 <= i < n ==> outcomes[..n][i] == outcomes[i];
    if k' < n {
      assert outcomes[k'].Some?;
    }
  }

  /** Once the series has failed, later scripts make no difference. */
  lemma {:induction false} RunSeriesKeepsFailure(scripts: seq<Script>, outcomes: seq<Option<Error>>, i: nat)
    requires |outcomes| == |scripts| && i <= |scripts|
    requires RunSeries(scripts[..i], outcomes[..i]).failure.Some?
    ensures RunSeries(scripts, outcomes) == RunSeries(scripts[..i], outcomes[..i])
    decreases |scripts| - i
  {
    if i < |scripts| {
      assert scripts[..i + 1][..i] == scripts[..i];
      assert outcomes[..i + 1][..i] == outcomes[..i];
      RunSeriesKeepsFailure(scripts, outcomes, i + 1);
    } else {
      assert scripts[..i] == scripts && outcomes[..i] == outcomes;
    }
  }

  /** The series, one statement at a time. */
  method EachSeries(scripts: seq<Script>, outcomes: seq<Option<Error>>) returns (ran: seq<Script>, failure: Option<Error>)
    requires |outcomes| == |scripts|
    ensures Series(ran, failure) == RunSeries(scripts, outcomes)
  {
    ran := [];
    failure := None;
    var i := 0;
    while i < |scripts| && failure.None?
      invariant 0 <= i <= |scripts|
      invariant Series(ran, failure) == RunSeries(scripts[..i], outcomes[..i])
    {
      assert scripts[..i + 1][..i] == scripts[..i];
      assert outcomes[..i + 1][..i] == outcomes[..i];
      ran := ran + [scripts[i]];
      failure := outcomes[i];
      i := i + 1;
    }
    if failure.Some? {
      RunSeriesKeepsFailure(scripts, outcomes, i);
    } else {
      assert scripts[..i] == scripts && outcomes[..i] == outcomes;
    }
  }

  // ---------------------------------------------------------------- acquisition and release

  const GetConnectionOnUndefined := TypeError("Cannot read properties of undefined (reading 'getConnection')")

  /** How `getConnection` settles, and what it asked of the connection. */
  datatype Acquisition = Acquisition(connection: Result<Connection>, events: seq<Event>)

  /** `getConnection` (lib/connector.js): no pool is a TypeError; a pool error is passed on;
      otherwise the buildup series runs and the connection is handed out only if it succeeded,
      a failed series rejecting without releasing the connection. */
  function Acquire(pool: Option<Pool>, acquired: Result<Connection>, scripts: seq<Script>, outcomes: seq<Option<Error>>): Acquisition
    requires |outcomes| == |scripts|
  {
    if pool.None? then Acquisition(Err(GetConnectionOnUndefined), [])
    else if acquired.Err? then Acquisition(Err(acquired.error), [])
    else
      var s := RunSeries(scripts, outcomes);
      Acquisition(if s.failure.Some? then Err(s.failure.value) else Ok(acquired.value), Executions(s.ran))
  }

  /** Acquisition runs the buildup scripts in insertion order up to and including the first
      failing one, resolves only when none failed, and never releases the connection. */
  lemma AcquireInOrder(pool: Option<Pool>, acquired: Result<Connection>, scripts: seq<Script>, outcomes: seq<Option<Error>>)
    requires |outcomes| == |scripts|
    ensures var a := Acquire(pool, acquired, scripts, outcomes);
      var k := FirstFailure(outcomes);
      && Releases(a.events) == 0
      && (a.connection.Ok? <==> pool.Some? && acquired.Ok? && forall i :: 0 <= i < |outcomes| ==> outcomes[i].None?)
      && (a.connection.Ok? ==> a.connection.value == acquired.value && a.events == Executions(scripts))
      && (pool.Some? && acquired.Ok? && k < |scripts| ==>
            a.connection == Err(outcomes[k].value) && a.events == Executions(scripts[..k + 1]))
  {
    var a := Acquire(pool, acquired, scripts, outcomes);
    RunSeriesStopsAtFirstFailure(scripts, outcomes);
    ReleasesOfExecutions(RunSeries(scripts, outcomes).ran);
  }

  /** How `releaseConnection` ends: the trace and the errors it logged. */
  datatype ReleaseTrace = ReleaseTrace(events: seq<Event>, logged: seq<Error>)

  /** `releaseConnection` (lib/connector.js): the teardown series, whose error is only logged,
      then one `release`, whose error is logged as well. */
  function Teardown(scripts: seq<Script>, outcomes: seq<Option<Error>>, releaseError: Option<Error>): ReleaseTrace
    requires |outcomes| == |scripts|
  {
    var s := RunSeries(scripts, outcomes);
    ReleaseTrace(Executions(s.ran) + [Released],
                 (if s.failure.Some? then [s.failure.value] else []) + (if releaseError.Some? then [releaseError.value] else []))
  }

  /** Release runs the teardown scripts in order up to the first failing one and then releases
      the connection exactly once, as its last event, whatever failed; it logs the first
      teardown error, if any, followed by the release error, if any. */
  lemma TeardownReleasesOnce(scripts: seq<Script>, outcomes: seq<Option<Error>>, releaseError: Option<Error>)
    requires |outcomes| == |scripts|
    ensures var t := Teardown(scripts, outcomes, releaseError);
      var k := FirstFailure(outcomes);
      && Releases(t.events) == 1
      && t.events[|t.events| - 1] == Released
      && t.events[..|t.events| - 1] == Executions(if k < |scripts| then scripts[..k + 1] else scripts)
      && t.logged == (if k < |scripts| then [outcomes[k].value] else [])
                     + (if releaseError.Some? then [releaseError.value] else [])
  {
    var s := RunSeries(scripts, outcomes);
    RunSeriesStopsAtFirstFailure(scripts, outcomes);
    ReleasesOfExecutions(s.ran);
    ReleasesAppend(Executions(s.ran), [Released]);
    assert [Released][..0] == [];
    var t := Teardown(scripts, outcomes, releaseError);
    assert t.events[..|t.events| - 1] == Executions(s.ran);
  }

  // ---------------------------------------------------------------- results

  /** A driver result: its `rows` (None when missing or null) and its other fields. */
  datatype DbResult = DbResult(rows: Option<seq<Obj>>, rest: Obj)

  /** `execute` (lib/connector.js): an error is passed on; a result without rows gets an empty
      list; anything else is returned as the driver gave it. */
  function Execute(outcome: Result<DbResult>): (r: Result<DbResult>)
    ensures outcome.Err? ==> r == outcome
    ensures outcome.Ok? ==> r.Ok? && r.value.rest == outcome.value.rest && r.value.rows.Some?
    ensures outcome.Ok? && outcome.value.rows.Some? ==> r == outcome
    ensures outcome.Ok? && outcome.value.rows.None? ==> r.value.rows == Some([])
  {
    match outcome
    case Err(_) => outcome
    case Ok(d) => if d.rows.None? then Ok(DbResult(Some([]), d.rest)) else outcome
  }

  /** Defaulting the rows twice is defaulting them once. */
  lemma ExecuteIdempotent(outcome: Result<DbResult>)
    ensures Execute(Execute(outcome)) == Execute(outcome)
  {
  }

  /** One row of `setIdOnReturnedObjects`: `id` takes the value of `ID` when `ID` is truthy and
      `id` is not; every other field keeps its value. */
  function SetIdRow(o: Obj): Obj {
    if Truthy(Get(o, "ID")) && !Truthy(Get(o, "id")) then Put(o, "id", Get(o, "ID")) else o
  }

  /** What normalising does to a row: `id` takes the value of `ID` exactly when `ID` is truthy
      and `id` is not, every other field keeps its value, and the keys stay in their order, with
      `id` appended when it was missing. */
  lemma SetIdRowFields(o: Obj)
    ensures Get(SetIdRow(o), "id")
         == if Truthy(Get(o, "ID")) && !Truthy(Get(o, "id")) then Get(o, "ID") else Get(o, "id")
    ensures forall k :: k != "id" ==> Get(SetIdRow(o), k) == Get(o, k)
    ensures Keys(SetIdRow(o)) == Keys(o) || Keys(SetIdRow(o)) == Keys(o) + ["id"]
  {
  }

  /** Normalising a row twice is normalising it once. */
  lemma SetIdRowIdempotent(o: Obj)
    ensures SetIdRow(SetIdRow(o)) == SetIdRow(o)
  {
    SetIdRowFields(o);
  }

  /** Every row normalised, same count, same order. */
  function SetIdRows(rows: seq<Obj>): (r: seq<Obj>)
    ensures |r| == |rows|
    ensures forall i :: 0 <= i < |rows| ==> r[i] == SetIdRow(rows[i])
  {
    seq(|rows|, i requires 0 <= i < |rows| => SetIdRow(rows[i]))
  }

  /** Normalising a result set twice is normalising it once. */
  lemma SetIdRowsIdempotent(rows: seq<Obj>)
    ensures SetIdRows(SetIdRows(rows)) == SetIdRows(rows)
  {
    forall i | 0 <= i < |rows| ensures SetIdRows(SetIdRows(rows))[i] == SetIdRows(rows)[i] {
      SetIdRowIdempotent(rows[i]);
    }
  }

  /** `setIdOnReturnedObjects` (lib/connector.js) on the row objects, updated in place. */
  method SetIdOnReturnedObjects(rows: array<Obj>)
    modifies rows
    ensures rows[..] == SetIdRows(old(rows[..]))
  {
    ghost var before := rows[..];
    var i := 0;
    while i < rows.Length
      invariant 0 <= i <= rows.Length
      invariant rows[..i] == SetIdRows(before[..i])
      invariant rows[i..] == before[i..]
    {
      var row := SetIdRow(rows[i]);
      rows[i] := row;
      assert SetIdRows(before[..i + 1]) == SetIdRows(before[..i]) + [row];
      i := i + 1;
    }
    assert rows[..] == rows[..i];
    assert before[..i] == before;
  }

  /** The same on a result: only a result with rows is touched. */
  function SetIdOnResult(result: DbResult): DbResult {
    if result.rows.Some? then DbResult(Some(SetIdRows(result.rows.value)), result.rest) else result
  }

  /** A model instance, `new model._model(row, {})`. */
  datatype Instance = Instance(values: Obj)

  /** The callback `run` makes: `cb()`, `cb(null, records)` or `cb(err)`. */
  datatype Reply = Bare | Delivered(records: seq<Instance>) | Failed(error: Error)

  /** `run` (lib/connector.js) once `simpleExecute` has settled: an error is passed on, a result
      without rows gives a bare callback, and rows are wrapped one instance per row, in order
      (no rows giving the empty list). */
  function Run(outcome: Result<DbResult>): (reply: Reply)
    ensures outcome.Err? <==> reply.Failed?
    ensures outcome.Err? ==> reply.error == outcome.error
    ensures (outcome.Ok? && outcome.value.rows.None?) <==> reply.Bare?
    ensures reply.Delivered? ==>
      && |reply.records| == |outcome.value.rows.value|
      && forall i :: 0 <= i < |reply.records| ==> reply.records[i].values == outcome.value.rows.value[i]
  {
    match outcome
    case Err(e) => Failed(e)
    case Ok(d) =>
      if d.rows.None? then Bare
      else Delivered(seq(|d.rows.value|, i requires 0 <= i < |d.rows.value| => Instance(d.rows.value[i])))
  }

  /** What `simpleExecute` resolves with always has rows, so `run` never answers a successful
      query with a bare callback: it delivers one instance per normalised row. */
  lemma RunAfterExecute(d: DbResult)
    ensures var reply := Run(Ok(SetIdOnResult(Execute(Ok(d)).value)));
      && reply.Delivered?
      && |reply.records| == |d.rows.GetOr([])|
      && forall i :: 0 <= i < |reply.records| ==> reply.records[i].values == SetIdRow(d.rows.GetOr([])[i])
  {
  }

  // ---------------------------------------------------------------- the module state

  /** The module-level `pool`, `buildupScripts` and `teardownScripts` of lib/connector.js. */
  class Connector {
    var pool: Option<Pool>
    var buildupScripts: seq<Script>
    var teardownScripts: seq<Script>

    /** The state at load time: no pool, no scripts. */
    constructor ()
      ensures pool == None && buildupScripts == [] && teardownScripts == []
    {
      pool := None;
      buildupScripts := [];
      teardownScripts := [];
    }

    /** `createPool`: a created pool replaces whatever the slot held; an error leaves it. */
    method CreatePool(created: Result<Pool>) returns (r: Result<Pool>)
      modifies this
      ensures r == created
      ensures pool == if created.Ok? then Some(created.value) else old(pool)
      ensures buildupScripts == old(buildupScripts) && teardownScripts == old(teardownScripts)
    {
      if created.Err? {
        return created;
      }
      pool := Some(created.value);
      r := Ok(created.value);
    }

    /** `terminatePool`: terminates the pool in the slot, if any, and passes on its error; the
        slot keeps the terminated pool (the method changes nothing). */
    method TerminatePool(terminated: Option<Error>) returns (called: bool, r: Option<Error>)
      ensures called <==> pool.Some?
      ensures r == if pool.Some? then terminated else None
    {
      if pool.Some? {
        return true, terminated;
      }
      return false, None;
    }

    /** `addBuildupSql`: one stored statement more at the end of the buildup list. */
    method AddBuildupSql(statement: ScriptRequest)
      modifies this
      ensures buildupScripts == old(buildupScripts) + [Stored(statement)]
      ensures pool == old(pool) && teardownScripts == old(teardownScripts)
    {
      var stmt := Script(statement.sql, statement.binds.GetOr([]), statement.options.GetOr([]));
      buildupScripts := buildupScripts + [stmt];
    }

    /** `addTeardownSql`: one stored statement more at the end of the teardown list. */
    method AddTeardownSql(statement: ScriptRequest)
      modifies this
      ensures teardownScripts == old(teardownScripts) + [Stored(statement)]
      ensures pool == old(pool) && buildupScripts == old(buildupScripts)
    {
      var stmt := Script(statement.sql, statement.binds.GetOr([]), statement.options.GetOr([]));
      teardownScripts := teardownScripts + [stmt];
    }

    /** `getConnection`, given what the pool and each buildup statement answer. */
    method GetConnection(acquired: Result<Connection>, outcomes: seq<Option<Error>>)
      returns (r: Result<Connection>, events: seq<Event>)
      requires |outcomes| == |buildupScripts|
      ensures Acquisition(r, events) == Acquire(pool, acquired, buildupScripts, outcomes)
    {
      if pool.None? {
        return Err(GetConnectionOnUndefined), [];
      }
      if acquired.Err? {
        return Err(acquired.error), [];
      }
      var ran, failure := EachSeries(buildupScripts, outcomes);
      events := Executions(ran);
      if failure.Some? {
        return Err(failure.value), events;
      }
      r := Ok(acquired.value);
    }

    /** `releaseConnection`, given what each teardown statement and the release answer. */
    method ReleaseConnection(outcomes: seq<Option<Error>>, releaseError: Option<Error>)
      returns (events: seq<Event>, logged: seq<Error>)
      requires |outcomes| == |teardownScripts|
      ensures ReleaseTrace(events, logged) == Teardown(teardownScripts, outcomes, releaseError)
    {
      var ran, failure := EachSeries(teardownScripts, outcomes);
      logged := if failure.Some? then [failure.value] else [];
      events := Executions(ran) + [Released];
      if releaseError.Some? {
        logged := logged + [releaseError.value];
      }
    }

    /** `simpleExecute`: marks the options auto-commit, acquires a connection, executes the
        statement, normalises the rows and only then, on success, releases the connection; a
        failure of acquisition or of the statement rejects and never releases. */
    method SimpleExecute(sql: string, binds: Obj, options: Obj,
                         acquired: Result<Connection>, buildupOutcomes: seq<Option<Error>>,
                         executed: Result<DbResult>,
                         teardownOutcomes: seq<Option<Error>>, releaseError: Option<Error>)
      returns (r: Result<DbResult>, sent: Obj, events: seq<Event>)
      requires |buildupOutcomes| == |buildupScripts| && |teardownOutcomes| == |teardownScripts|
      ensures sent == Put(options, "isAutoCommit", Bool(true))
      ensures var a := Acquire(pool, acquired, buildupScripts, buildupOutcomes);
        && (a.connection.Err? ==> r == Err(a.connection.error) && events == a.events)
        && (a.connection.Ok? && executed.Err? ==>
              r == Err(executed.error) && events == a.events + [Executed(sql, binds, sent)])
        && (a.connection.Ok? && executed.Ok? ==>
              && r == Ok(SetIdOnResult(Execute(executed).value))
              && events == a.events + [Executed(sql, binds, sent)]
                           + Teardown(teardownScripts, teardownOutcomes, releaseError).events)
      ensures Releases(events) == if r.Ok? then 1 else 0
    {
      sent := Put(options, "isAutoCommit", Bool(true));
      var connection, acquiring := GetConnection(acquired, buildupOutcomes);
      AcquireInOrder(pool, acquired, buildupScripts, buildupOutcomes);
      if connection.Err? {
        return Err(connection.error), sent, acquiring;
      }
      events := acquiring + [Executed(sql, binds, sent)];
      ReleasesAppend(acquiring, [Executed(sql, binds, sent)]);
      assert Releases([Executed(sql, binds, sent)]) == 0 by {
        assert [Executed(sql, binds, sent)][..0] == [];
      }
      var result := Execute(executed);
      if result.Err? {
        return Err(result.error), sent, events;
      }
      var rows := result.value.rows.value;
      var objects := new Obj[|rows|](i requires 0 <= i < |rows| => rows[i]);
      assert objects[..] == rows;
      SetIdOnReturnedObjects(objects);
      r := Ok(DbResult(Some(objects[..]), result.value.rest));
      var released, logged := ReleaseConnection(teardownOutcomes, releaseError);
      TeardownReleasesOnce(teardownScripts, teardownOutcomes, releaseError);
      ReleasesAppend(events, released);
      events := events + released;
    }
  }
}
