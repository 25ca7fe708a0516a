/** lib/adapter.js: the registry of connections and collections the Waterline adapter keeps
    in two module-level objects, and the CRUD entry points, which translate with the older
    translator of lib/utils.js and hand the query to the first registered connection. */
module WaterlineAdapter {
  import opened JsValues
  import opened SqlBuilder
  import LegacyUtils

  /** A connection configuration as Waterline registers it: its identity and its settings. */
  datatype ConnectionConfig = ConnectionConfig(identity: JsValue, settings: Obj)

  /** A collection (model) definition, kept as given. */
  datatype CollectionDef = CollectionDef(attributes: Obj)

  /** The `connections` object: identity keys in insertion order. */
  type Connections = seq<(string, ConnectionConfig)>

  /** No identity is registered twice. */
  predicate DistinctIdentities(cs: Connections) {
    forall i, j :: 0 <= i < j < |cs| ==> cs[i].0 != cs[j].0
  }

  /** `connections[key]`, over own entries only. */
  function Lookup(cs: Connections, key: string): (c: Option<ConnectionConfig>)
    ensures c.None? <==> key !in Keys(cs)
  {
    if cs == [] then None else if cs[0].0 == key then Some(cs[0].1) else Lookup(cs[1..], key)
  }

  /** `connections[Object.keys(connections)[0]]`: the earliest registered connection, if any. */
  function First(cs: Connections): Option<ConnectionConfig> {
    if cs == [] then None else Some(cs[0].1)
  }

  /** `delete connections[key]`. */
  function Without(cs: Connections, key: string): Connections {
    if cs == [] then []
    else if cs[0].0 == key then Without(cs[1..], key)
    else [cs[0]] + Without(cs[1..], key)
  }

  /** Deleting an identity removes it and nothing else: every other identity keeps its
      connection and the identities keep their order. */
  lemma {:induction false} WithoutRemovesOnly(cs: Connections, key: string)
    ensures forall k :: Lookup(Without(cs, key), k) == if k == key then None else Lookup(cs, k)
    ensures Keys(Without(cs, key)) == RemoveAll(Keys(cs), key)
  {
    if cs != [] {
      WithoutRemovesOnly(cs[1..], key);
      assert Keys(cs) == [cs[0].0] + Keys(cs[1..]);
      if cs[0].0 != key {
        var rest := Without(cs[1..], key);
        assert Keys([cs[0]] + rest) == [cs[0].0] + Keys(rest);
      }
    }
  }

  /** A list of identities without one of them, order kept. */
  function RemoveAll(ids: seq<string>, key: string): seq<string> {
    if ids == [] then []
    else if ids[0] == key then RemoveAll(ids[1..], key)
    else [ids[0]] + RemoveAll(ids[1..], key)
  }

  /** Deleting an unknown identity changes nothing. */
  lemma {:induction false} WithoutAbsent(cs: Connections, key: string)
    requires key !in Keys(cs)
    ensures Without(cs, key) == cs
  {
    if cs != [] {
      assert Keys(cs) == [cs[0].0] + Keys(cs[1..]);
      WithoutAbsent(cs[1..], key);
    }
  }

  /** Deleting keeps the identities distinct. */
  lemma {:induction false} WithoutKeepsDistinct(cs: Connections, key: string)
    requires DistinctIdentities(cs)
    ensures DistinctIdentities(Without(cs, key))
  {
    if cs != [] {
      WithoutKeepsDistinct(cs[1..], key);
      WithoutRemovesOnly(cs[1..], key);
      if cs[0].0 != key {
        var rest := Without(cs[1..], key);
        assert cs[0].0 !in Keys(cs[1..]) by {
          forall i | 0 <= i < |cs| - 1 ensures Keys(cs[1..])[i] != cs[0].0 {
            assert cs[1..][i] == cs[i + 1];
          }
        }
        assert Lookup(rest, cs[0].0).None?;
        forall j | 0 <= j < |rest| ensures rest[j].0 != cs[0].0 {
          assert Keys(rest)[j] == rest[j].0;
        }
      }
    }
  }

  /** The `_collections` writes of one registration, one key after the other. */
  function Assign(m: map<string, CollectionDef>, given: seq<(string, CollectionDef)>): map<string, CollectionDef> {
    if given == [] then m
    else Assign(m, given[..|given| - 1])[given[|given| - 1].0 := given[|given| - 1].1]
  }

  /** The value written last under a key. */
  function LastWritten(given: seq<(string, CollectionDef)>, k: string): CollectionDef
    requires k in Keys(given)
  {
    var n := |given| - 1;
    if given[n].0 == k then given[n].1
    else
      assert k in Keys(given[..n]) by {
        var i :| 0 <= i < |given| && Keys(given)[i] == k;
        assert Keys(given[..n])[i] == k;
      }
      LastWritten(given[..n], k)
  }

  /** After the writes, a written key holds the value written last under it, and every other
      key is present and valued exactly as before. */
  lemma {:induction false} AssignEffect(m: map<string, CollectionDef>, given: seq<(string, CollectionDef)>, k: string)
    ensures k in Assign(m, given) <==> k in m || k in Keys(given)
    ensures k in Keys(given) ==> Assign(m, given)[k] == LastWritten(given, k)
    ensures k !in Keys(given) && k in m ==> Assign(m, given)[k] == m[k]
    decreases |given|
  {
    if given != [] {
      var n := |given| - 1;
      AssignEffect(m, given[..n], k);
      assert Keys(given) == Keys(given[..n]) + [given[n].0];
    }
  }

  /** The keys of an object are distinct, so each written key holds exactly its own value. */
  lemma {:induction false} AssignDistinct(m: map<string, CollectionDef>, given: seq<(string, CollectionDef)>, i: nat)
    requires forall a, b :: 0 <= a < b < |given| ==> given[a].0 != given[b].0
    requires i < |given|
    ensures given[i].0 in Assign(m, given) && Assign(m, given)[given[i].0] == given[i].1
    decreases |given|
  {
    var n := |given| - 1;
    if i < n {
      var front := given[..n];
      assert front[i] == given[i];
      forall a, b | 0 <= a < b < |front| ensures front[a].0 != front[b].0 {
        assert front[a] == given[a] && front[b] == given[b];
      }
      AssignDistinct(m, front, i);
      assert given[n].0 != given[i].0;
    }
  }

  /** The call `execute` receives: the connection, the query text and the collection. */
  datatype ExecuteCall = ExecuteCall(connection: Option<ConnectionConfig>, query: string, model: Option<CollectionDef>)

  /** `execute(first connection, buildQuery(...), _collections[collection], cb)`: the arguments
      are evaluated in order, so a translation error is thrown before `execute` is reached. */
  function Dispatch(connection: Option<ConnectionConfig>, query: Result<string>, model: Option<CollectionDef>): (call: Result<ExecuteCall>)
    ensures call.Err? <==> query.Err?
    ensures call.Err? ==> call.error == query.error
    ensures call.Ok? ==> call.value == ExecuteCall(connection, query.value, model)
  {
    match query
    case Err(e) => Err(e)
    case Ok(text) => Ok(ExecuteCall(connection, text, model))
  }

  const MissingIdentity := Failure("Connection is missing an identity.")
  const AlreadyRegistered := Failure("Connection is already registered.")

  /** The module-level `connections` and `_collections` of lib/adapter.js. */
  class Adapter {
    var connections: Connections
    var collections: map<string, CollectionDef>

    predicate Valid()
      reads this
    {
      DistinctIdentities(connections)
    }

    /** The state at load time: both objects empty. */
    constructor ()
      ensures Valid()
      ensures connections == [] && collections == map[]
    {
      connections := [];
      collections := map[];
    }

    /** `_collections[collection]`, over own entries only. */
    function Model(collection: string): Option<CollectionDef>
      reads this
    {
      if collection in collections then Some(collections[collection]) else None
    }

    /** `registerConnection`: a falsy identity or one already registered is refused and changes
        nothing; otherwise every given collection is written into `_collections` and the
        connection is stored last under its identity. */
    method RegisterConnection(connection: ConnectionConfig, given: seq<(string, CollectionDef)>) returns (r: Option<Error>)
      requires Valid()
      modifies this
      ensures Valid()
      ensures !Truthy(connection.identity) ==>
        r == Some(MissingIdentity) && connections == old(connections) && collections == old(collections)
      ensures Truthy(connection.identity) && ToStr(connection.identity) in Keys(old(connections)) ==>
        r == Some(AlreadyRegistered) && connections == old(connections) && collections == old(collections)
      ensures Truthy(connection.identity) && ToStr(connection.identity) !in Keys(old(connections)) ==>
        && r == None
        && connections == old(connections) + [(ToStr(connection.identity), connection)]
        && collections == Assign(old(collections), given)
      ensures old(connections) != [] ==> First(connections) == First(old(connections))
    {
      if !Truthy(connection.identity) {
        return Some(MissingIdentity);
      }
      var key := ToStr(connection.identity);
      if Lookup(connections, key).Some? {
        return Some(AlreadyRegistered);
      }
      var i := 0;
      ghost var before := collections;
      while i < |given|
        invariant 0 <= i <= |given|
        invariant collections == Assign(before, given[..i])
        invariant connections == old(connections)
      {
        assert given[..i + 1][..i] == given[..i];
        collections := collections[given[i].0 := given[i].1];
        i := i + 1;
      }
      assert given[..i] == given;
      connections := connections + [(key, connection)];
      r := None;
    }

    /** `teardown`: without an identity (including the one-callback form, whose missing
        identity arrives as undefined) every connection is forgotten; with one, only that
        identity is, and an unknown one changes nothing.  `_collections` is never touched. */
    method Teardown(conn: JsValue)
      requires Valid()
      modifies this
      ensures Valid()
      ensures !Truthy(conn) ==> connections == []
      ensures Truthy(conn) ==> connections == Without(old(connections), ToStr(conn))
      ensures Truthy(conn) && ToStr(conn) !in Keys(old(connections)) ==> connections == old(connections)
      ensures collections == old(collections)
    {
      if !Truthy(conn) {
        connections := [];
        return;
      }
      var key := ToStr(conn);
      if Lookup(connections, key).None? {
        WithoutAbsent(connections, key);
        return;
      }
      WithoutKeepsDistinct(connections, key);
      connections := Without(connections, key);
    }

    /** `find`: FIND with a null entity, on the first connection, whatever `connection` says. */
    method Find(connection: JsValue, collection: string, options: Option<Options>, render: Renderer)
      returns (call: Result<ExecuteCall>)
      ensures call == Dispatch(First(connections), LegacyUtils.QueryText(render, FIND, collection, None, options), Model(collection))
    {
      var query := LegacyUtils.BuildQuery(render, FIND, collection, None, options);
      call := Dispatch(First(connections), query, Model(collection));
    }

    /** `create`: INSERT with the values as entity and null options. */
    method Create(connection: JsValue, collection: string, values: Option<Obj>, render: Renderer)
      returns (call: Result<ExecuteCall>)
      ensures call == Dispatch(First(connections), LegacyUtils.QueryText(render, INSERT, collection, values, None), Model(collection))
      ensures call == Err(LegacyUtils.WhereOfNull)
    {
      var query := LegacyUtils.BuildQuery(render, INSERT, collection, values, None);
      LegacyUtils.NullOptionsQuery(render, INSERT, collection, values);
      call := Dispatch(First(connections), query, Model(collection));
    }

    /** `update`: UPDATE with the values as entity and the options. */
    method Update(connection: JsValue, collection: string, options: Option<Options>, values: Option<Obj>, render: Renderer)
      returns (call: Result<ExecuteCall>)
      ensures call == Dispatch(First(connections), LegacyUtils.QueryText(render, UPDATE, collection, values, options), Model(collection))
    {
      var query := LegacyUtils.BuildQuery(render, UPDATE, collection, values, options);
      call := Dispatch(First(connections), query, Model(collection));
    }

    /** `destroy`: DELETE with the values as entity and the options. */
    method Destroy(connection: JsValue, collection: string, options: Option<Options>, values: Option<Obj>, render: Renderer)
      returns (call: Result<ExecuteCall>)
      ensures call == Dispatch(First(connections), LegacyUtils.QueryText(render, DELETE, collection, values, options), Model(collection))
    {
      var query := LegacyUtils.BuildQuery(render, DELETE, collection, values, options);
      call := Dispatch(First(connections), query, Model(collection));
    }
  }

  /** Two connections registered one after the other on an empty adapter: the second is
      refused when its identity is the first's, and `find` goes to the first connection even
      when the call names the second. */
  method FindAfterTwoRegistrations(adapter: Adapter, a: ConnectionConfig, b: ConnectionConfig,
                                   collection: string, options: Option<Options>, render: Renderer)
    returns (ra: Option<Error>, rb: Option<Error>, call: Result<ExecuteCall>)
    requires adapter.Valid() && adapter.connections == []
    requires Truthy(a.identity) && Truthy(b.identity)
    modifies adapter
    ensures ra == None
    ensures rb == if ToStr(b.identity) == ToStr(a.identity) then Some(AlreadyRegistered) else None
    ensures Keys(adapter.connections)
         == if rb == None then [ToStr(a.identity), ToStr(b.identity)] else [ToStr(a.identity)]
    ensures call == Dispatch(Some(a), LegacyUtils.QueryText(render, FIND, collection, None, options), adapter.Model(collection))
  {
    ra := adapter.RegisterConnection(a, []);
    rb := adapter.RegisterConnection(b, []);
    call := adapter.Find(b.identity, collection, options, render);
  }

  /** An update through the adapter carries the values as given and no condition: the where
      object of the options never reaches the statement, so every row is updated. */
  lemma UpdateHasNoCondition(render: Renderer, first: Option<ConnectionConfig>, model: Option<CollectionDef>,
                             collection: string, options: Options, values: Obj)
    requires DistinctKeys(values)
    ensures Dispatch(first, LegacyUtils.QueryText(render, UPDATE, collection, Some(values), Some(options)), model)
         == Ok(ExecuteCall(first, render(Update(collection, values, [])), model))
  {
    LegacyUtils.InsertAndUpdateQuery(render, UPDATE, collection, values, options);
  }
}
