/** The older Sails adapter in sails-oracle-master/index.js: its collection registry with
    primary-key resolution, the aggregate check of `find`, the success check of `update`, the
    connection settings it hands the driver, and the connect / alter session / logic / close
    sequence every operation runs in. */
module SailsOracle {
  import opened JsValues

  // ---------------------------------------------------------------- registerCollection

  /** The value of one attribute in a model definition: an attribute object, or a shorthand
      such as a type name (any other value). */
  datatype AttributeDef = Props(props: Obj) | Plain(value: JsValue)

  type Attributes = seq<(string, AttributeDef)>

  /** A collection as Waterline registers it: identity, attribute definitions (None when
      falsy) and every other property. */
  datatype Collection = Collection(identity: JsValue, definition: Option<Attributes>, rest: Obj)

  /** What `dbs` stores: the cloned collection with its resolved `primaryKey`. */
  datatype Registered = Registered(collection: Collection, primaryKey: string)

  /** `attr.hasOwnProperty('primaryKey')` on undefined or null. */
  function NoProperties(v: JsValue): Error {
    TypeError("Cannot read properties of " + ToStr(v) + " (reading 'hasOwnProperty')")
  }

  /** An attribute carries an own, truthy `primaryKey`. */
  predicate Flagged(a: AttributeDef) {
    a.Props? && "primaryKey" in Keys(a.props) && Truthy(Get(a.props, "primaryKey"))
  }

  /** An attribute whose value is undefined or null, on which `hasOwnProperty` throws. */
  predicate Unreadable(a: AttributeDef) {
    a.Plain? && (a.value == Undefined || a.value == Null)
  }

  /** The `for ... in` over the attributes: starting from `'id'`, each flagged attribute
      becomes the primary key, and an undefined or null attribute ends the loop with a TypeError. */
  function ResolvePrimaryKey(attrs: Attributes): Result<string> {
    if attrs == [] then Ok("id")
    else
      var n := |attrs| - 1;
      match ResolvePrimaryKey(attrs[..n])
      case Err(e) => Err(e)
      case Ok(pk) =>
        if Unreadable(attrs[n].1) then Err(NoProperties(attrs[n].1.value))
        else if Flagged(attrs[n].1) then Ok(attrs[n].0)
        else Ok(pk)
  }

  /** One readable attribute more, after a successful prefix. */
  lemma ResolveStep(attrs: Attributes)
    requires attrs != []
    requires ResolvePrimaryKey(attrs[..|attrs| - 1]).Ok? && !Unreadable(attrs[|attrs| - 1].1)
    ensures ResolvePrimaryKey(attrs)
         == if Flagged(attrs[|attrs| - 1].1) then Ok(attrs[|attrs| - 1].0) else ResolvePrimaryKey(attrs[..|attrs| - 1])
  {
  }

  /** With readable attributes the resolution succeeds, with `'id'` when no attribute is
      flagged. */
  lemma {:induction false} PrimaryKeyDefault(attrs: Attributes)
    requires forall i :: 0 <= i < |attrs| ==> !Unreadable(attrs[i].1)
    ensures ResolvePrimaryKey(attrs).Ok?
    ensures (forall i :: 0 <= i < |attrs| ==> !Flagged(attrs[i].1)) ==> ResolvePrimaryKey(attrs) == Ok("id")
    decreases |attrs|
  {
    if attrs != [] {
      var n := |attrs| - 1;
      assert forall i :: 0 <= i < n ==> attrs[..n][i] == attrs[i];
      PrimaryKeyDefault(attrs[..n]);
      ResolveStep(attrs);
    }
  }

  /** With readable attributes the primary key is the last flagged attribute. */
  lemma {:induction false} PrimaryKeyIsLastFlagged(attrs: Attributes, i: nat)
    requires forall j :: 0 <= j < |attrs| ==> !Unreadable(attrs[j].1)
    requires i < |attrs| && Flagged(attrs[i].1)
    requires forall j :: i < j < |attrs| ==> !Flagged(attrs[j].1)
    ensures ResolvePrimaryKey(attrs) == Ok(attrs[i].0)
    decreases |attrs|
  {
    var n := |attrs| - 1;
    var front := attrs[..n];
    assert forall j :: 0 <= j < n ==> front[j] == attrs[j];
    PrimaryKeyDefault(front);
    ResolveStep(attrs);
    if i < n {
      PrimaryKeyIsLastFlagged(front, i);
    }
  }

  /** An undefined or null attribute makes the resolution fail with the first such value. */
  lemma {:induction false} PrimaryKeyFailsOnUnreadable(attrs: Attributes, i: nat)
    requires i < |attrs| && Unreadable(attrs[i].1)
    requires forall j :: 0 <= j < i ==> !Unreadable(attrs[j].1)
    ensures ResolvePrimaryKey(attrs) == Err(NoProperties(attrs[i].1.value))
    decreases |attrs|
  {
    var n := |attrs| - 1;
    if i < n {
      assert attrs[..n][i] == attrs[i];
      assert forall j :: 0 <= j < i ==> attrs[..n][j] == attrs[j];
      PrimaryKeyFailsOnUnreadable(attrs[..n], i);
    } else {
      assert forall j :: 0 <= j < n ==> attrs[..n][j] == attrs[j];
      PrimaryKeyDefault(attrs[..n]);
    }
  }

  /** `key.toString()` on an undefined or null identity. */
  function NoToString(v: JsValue): Error {
    TypeError("Cannot read properties of " + ToStr(v) + " (reading 'toString')")
  }

  // ---------------------------------------------------------------- find and update checks

  /** The aggregate options of a `find`. */
  predicate Calculates(options: Obj) {
    Truthy(Get(options, "sum")) || Truthy(Get(options, "average"))
    || Truthy(Get(options, "min")) || Truthy(Get(options, "max"))
  }

  const GroupByWithoutCalculation := Failure("Cannot groupBy without a calculation")

  /** The aggregate-option test at the top of `find`'s logic. */
  function AggregateCheck(options: Obj): (r: Option<Error>)
    ensures r.Some? <==> Truthy(Get(options, "groupBy")) && !Calculates(options)
    ensures r.Some? ==> r.value == GroupByWithoutCalculation
  {
    if Truthy(Get(options, "groupBy")) || Truthy(Get(options, "sum")) || Truthy(Get(options, "average"))
       || Truthy(Get(options, "min")) || Truthy(Get(options, "max")) then
      if !Truthy(Get(options, "sum")) && !Truthy(Get(options, "average"))
         && !Truthy(Get(options, "min")) && !Truthy(Get(options, "max")) then
        Some(GroupByWithoutCalculation)
      else None
    else None
  }

  const UpdateFailed := ErrorRecord("Ocorreu um erro ao atualizar o registro.")

  /** What `update` does once the UPDATE statement has run: a driver error is passed on, an
      `updateCount` that is undefined or parses to a number at most 0 is refused, and otherwise
      `find` runs again with the same options.  A count that does not parse (NaN) is not
      refused, as `NaN <= 0` is false. */
  function AfterUpdate(executed: Result<JsValue>, options: Obj): (r: Result<Obj>)
    ensures executed.Err? ==> r == Err(executed.error)
    ensures r.Ok? ==> r.value == options
  {
    match executed
    case Err(e) => Err(e)
    case Ok(count) =>
      if count == Undefined || (ParseInt(count).Some? && ParseInt(count).value <= 0) then Err(UpdateFailed)
      else Ok(options)
  }

  /** For a numeric count the `updateCount` test accepts exactly the positive ones; an undefined count is
      refused; null and other non-numeric counts are accepted. */
  lemma UpdateCountAccepted(count: JsValue, options: Obj)
    ensures forall n :: count == Num(n) ==> (AfterUpdate(Ok(count), options).Ok? <==> n > 0)
    ensures count == Undefined ==> AfterUpdate(Ok(count), options) == Err(UpdateFailed)
    ensures count == Null ==> AfterUpdate(Ok(count), options) == Ok(options)
  {
    if count.Num? {
      ParseIntOfIntToString(count.n);
    }
  }

  // ---------------------------------------------------------------- connections

  /** `marshalConfig`: the driver settings, exactly `tns`, `user` and `password`. */
  function MarshalConfig(config: Obj): Obj {
    [("tns", Get(config, "tns")), ("user", Get(config, "user")), ("password", Get(config, "password"))]
  }

  /** The settings hold exactly the keys `tns`, `user` and `password`, in that order, each with
      the configuration's value, present or not. */
  lemma MarshalConfigKeeps(config: Obj)
    ensures Keys(MarshalConfig(config)) == ["tns", "user", "password"]
    ensures Get(MarshalConfig(config), "tns") == Get(config, "tns")
    ensures Get(MarshalConfig(config), "user") == Get(config, "user")
    ensures Get(MarshalConfig(config), "password") == Get(config, "password")
  {
    var r := MarshalConfig(config);
    assert Get(r, "password") == Get(r[1..], "password") == Get(r[1..][1..], "password");
    assert r[1..][1..] == [("password", Get(config, "password"))];
    assert Keys(r[1..][1..][1..]) == [];
    assert "tns" != "user" && "tns" != "password" && "user" != "password" by {
      assert "tns"[0] != "user"[0] && "user"[0] != "password"[0] && "tns"[0] != "password"[0];
    }
  }

  /** What `oracle.connect` answers: a connection, or an error, possibly with a connection. */
  datatype Connect = Connected | ConnectFailed(error: Error, withConnection: bool)

  /** What `spawnConnection` does, in order. */
  datatype SpawnEvent =
    | AlterSession                          // the ALTER SESSION statement
    | Logic                                 // the operation's logic runs on the connection
    | Close                                 // connection.close()
    | Callback(error: Option<Error>, result: Option<JsValue>)

  const AlterSessionSql := "ALTER SESSION SET nls_date_Format = 'YYYY-MM-DD:HH24:MI:SS'"

  /** `spawnConnection`, given what the driver and the logic answer (the outcome of the ALTER
      SESSION statement is ignored by the code and so is not an input).  It returns the settings
      passed to `oracle.connect` and the trace. */
  method SpawnConnection(config: Obj, connect: Connect, logicOutcome: Result<JsValue>)
    returns (settings: Obj, events: seq<SpawnEvent>)
    ensures settings == MarshalConfig(config)
    ensures connect.ConnectFailed? ==> Logic !in events && AlterSession !in events
    ensures connect.ConnectFailed? ==>
      events == (if connect.withConnection then [Close] else []) + [Callback(Some(connect.error), None)]
    ensures connect.Connected? ==> multiset(events)[Close] == 1 && multiset(events)[Logic] == 1
    ensures connect.Connected? && logicOutcome.Err? ==>
      events == [AlterSession, Logic, Callback(Some(logicOutcome.error), Some(Num(1))), Close]
    ensures connect.Connected? && logicOutcome.Ok? ==>
      events == [AlterSession, Logic, Close, Callback(None, Some(logicOutcome.value))]
  {
    settings := MarshalConfig(config);
    if connect.ConnectFailed? {
      if connect.withConnection {
        events := [Close, Callback(Some(connect.error), None)];
      } else {
        events := [Callback(Some(connect.error), None)];
      }
    } else if logicOutcome.Err? {
      events := [AlterSession, Logic, Callback(Some(logicOutcome.error), Some(Num(1))), Close];
    } else {
      events := [AlterSession, Logic, Close, Callback(None, Some(logicOutcome.value))];
    }
  }

  // ---------------------------------------------------------------- the registry

  /** The module-level `dbs` object. */
  class Registry {
    var dbs: map<string, Registered>

    constructor ()
      ensures dbs == map[]
    {
      dbs := map[];
    }

    /** `registerCollection`: resolves the primary key, then stores the definition under its
        identity unless one is stored there already, in which case it still succeeds and keeps
        the first definition; an undefined or null identity fails on `toString`. */
    method RegisterCollection(collection: Collection) returns (r: Option<Error>)
      modifies this
      ensures var key := ToStr(collection.identity);
        var pk := ResolvePrimaryKey(collection.definition.GetOr([]));
        && (pk.Err? ==> r == Some(pk.error) && dbs == old(dbs))
        && (pk.Ok? && key in old(dbs) ==> r == None && dbs == old(dbs))
        && (pk.Ok? && key !in old(dbs) && (collection.identity == Undefined || collection.identity == Null) ==>
              r == Some(NoToString(collection.identity)) && dbs == old(dbs))
        && (pk.Ok? && key !in old(dbs) && collection.identity != Undefined && collection.identity != Null ==>
              r == None && dbs == old(dbs)[key := Registered(collection, pk.value)])
    {
      var definition := collection.definition.GetOr([]);
      var pkName := "id";
      var i := 0;
      while i < |definition|
        invariant 0 <= i <= |definition|
        invariant ResolvePrimaryKey(definition[..i]) == Ok(pkName)
      {
        assert definition[..i + 1][..i] == definition[..i];
        var attribute := definition[i];
        if Unreadable(attribute.1) {
          PrimaryKeyFailsAfter(definition, i);
          return Some(NoProperties(attribute.1.value));
        }
        if Flagged(attribute.1) {
          pkName := attribute.0;
        }
        i := i + 1;
      }
      assert definition[..i] == definition;
      var key := ToStr(collection.identity);
      if key in dbs {
        return None;
      }
      if collection.identity == Undefined || collection.identity == Null {
        return Some(NoToString(collection.identity));
      }
      dbs := dbs[key := Registered(collection, pkName)];
      r := None;
    }
  }

  /** Once the loop has met an undefined or null attribute the resolution has failed with it. */
  lemma {:induction false} PrimaryKeyFailsAfter(attrs: Attributes, i: nat)
    requires i < |attrs| && Unreadable(attrs[i].1)
    requires ResolvePrimaryKey(attrs[..i]).Ok?
    ensures ResolvePrimaryKey(attrs) == Err(NoProperties(attrs[i].1.value))
    decreases |attrs|
  {
    var n := |attrs| - 1;
    if i < n {
      assert attrs[..n][..i] == attrs[..i];
      assert attrs[..n][i] == attrs[i];
      PrimaryKeyFailsAfter(attrs[..n], i);
    } else {
      assert attrs[..n] == attrs[..i];
    }
  }

  /** Registering two collections under the same identity keeps the one stored first: the
      second call succeeds whenever its primary key resolves, and changes nothing. */
  method FirstRegistrationWins(reg: Registry, first: Collection, second: Collection)
    returns (r1: Option<Error>, r2: Option<Error>)
    requires ToStr(first.identity) == ToStr(second.identity)
    requires first.identity != Undefined && first.identity != Null
    requires ResolvePrimaryKey(first.definition.GetOr([])).Ok?
    modifies reg
    ensures var key := ToStr(first.identity);
      && key in reg.dbs
      && reg.dbs[key].collection == (if key in old(reg.dbs) then old(reg.dbs)[key].collection else first)
      && reg.dbs == (if key in old(reg.dbs) then old(reg.dbs)
                     else old(reg.dbs)[key := Registered(first, ResolvePrimaryKey(first.definition.GetOr([])).value)])
      && (key !in old(reg.dbs) ==> r1 == None)
      && (ResolvePrimaryKey(second.definition.GetOr([])).Ok? ==> r2 == None)
  {
    r1 := reg.RegisterCollection(first);
    r2 := reg.RegisterCollection(second);
  }
}
