/** The older translator of lib/utils.js, which lib/adapter.js still calls.  It shares the
    builder and the rownum wrapper with the connector's translator, but its wrapper caps the
    row number for every truthy limit, its entity values reach `set` untransformed, its WHERE
    string is built and then dropped, and it reads `options.where` even when `options` is null. */
module LegacyUtils {
  import opened JsValues
  import opened SqlBuilder
  import opened OracleSql
  import ConnectorQuery

  /** `options.where` read on the null options that `create` passes. */
  const WhereOfNull := TypeError("Cannot read properties of null (reading 'where')")

  // ---------------------------------------------------------------- the rownum wrapper

  /** The wrapper's bounds: above a truthy offset, below any truthy limit. */
  function BoundFilters(skip: Option<int>, limit: Option<int>): seq<Filter> {
    (if Active(skip) then [OrdinalAbove(skip.value)] else [])
    + (if Active(limit) then [OrdinalBelow(limit.value)] else [])
  }

  /** The bounds, then one equality per where key in key order. */
  function PageFilters(skip: Option<int>, limit: Option<int>, where: Option<Obj>): seq<Filter> {
    BoundFilters(skip, limit) + (if where.Some? then EqualityFilters(where.value) else [])
  }

  /** The text `_createOracleSpecificQuery` (lib/utils.js) returns. */
  function PageQuery(table: string, skip: Option<int>, limit: Option<int>, where: Option<Obj>): string {
    ConnectorQuery.PageText(table, PageFilters(skip, limit, where))
  }

  /** The rows this wrapper selects: numbered above a truthy offset, below every truthy limit
      (so a limit of 1 selects no row, row numbers starting at 1), and matching every where
      equality. */
  lemma PageWindow(skip: Option<int>, limit: Option<int>, where: Option<Obj>, ordinal: int, row: Row)
    ensures AdmitsAll(PageFilters(skip, limit, where), ordinal, row) <==>
      && (Active(skip) ==> ordinal > skip.value)
      && (Active(limit) ==> ordinal < limit.value)
      && (where.Some? ==> MatchesWhere(where.value, row))
  {
    var a: seq<Filter> := if Active(skip) then [OrdinalAbove(skip.value)] else [];
    var b: seq<Filter> := if Active(limit) then [OrdinalBelow(limit.value)] else [];
    var c: seq<Filter> := if where.Some? then EqualityFilters(where.value) else [];
    AdmitsAllAppend(a + b, c, ordinal, row);
    AdmitsAllAppend(a, b, ordinal, row);
    assert AdmitsAll(a, ordinal, row) <==> (Active(skip) ==> ordinal > skip.value) by {
      if Active(skip) { assert a[0] == OrdinalAbove(skip.value); }
    }
    assert AdmitsAll(b, ordinal, row) <==> (Active(limit) ==> ordinal < limit.value) by {
      if Active(limit) { assert b[0] == OrdinalBelow(limit.value); }
    }
    if where.Some? {
      EqualityFiltersAdmit(where.value, ordinal, row);
    }
  }

  /** The two wrappers print the same text exactly when the limit is not 1: the connector's
      treats a limit of 1 as no limit, this one adds `and a.pseudo_column < 1`. */
  lemma PageQueryAgreesWithConnector(table: string, skip: Option<int>, limit: Option<int>, where: Option<Obj>)
    ensures PageQuery(table, skip, limit, where) == ConnectorQuery.PageQuery(table, skip, limit, where)
        <==> limit != Some(1)
  {
    var a: seq<Filter> := if Active(skip) then [OrdinalAbove(skip.value)] else [];
    var c: seq<Filter> := if where.Some? then EqualityFilters(where.value) else [];
    if limit == Some(1) {
      var below := OrdinalBelow(1);
      assert PageFilters(skip, limit, where) == (a + [below]) + c;
      assert ConnectorQuery.PageFilters(skip, limit, where) == a + c;
      FiltersTextAppend(a + [below], c);
      FiltersTextSnoc(a, below);
      FiltersTextAppend(a, c);
      assert |FilterText(below)| > 0;
      assert |FiltersText(PageFilters(skip, limit, where))| > |FiltersText(ConnectorQuery.PageFilters(skip, limit, where))|;
    } else {
      assert PageFilters(skip, limit, where) == ConnectorQuery.PageFilters(skip, limit, where);
    }
  }

  /** The wrapper and its two bounds, as the first statements of `_createOracleSpecificQuery` build it. */
  method PageBounds(table: string, offset: Option<int>, limit: Option<int>) returns (query: string)
    ensures query == ConnectorQuery.PageText(table, BoundFilters(offset, limit))
  {
    query := "select * from (select " + table + ".*, rownum as pseudo_column from " + table + " order by rowid) a where (1=1) ";
    var head: seq<Filter> := [];
    ConnectorQuery.PageTextEmpty(table);
    if Active(offset) {
      var bound := " and a.pseudo_column > " + IntToString(offset.value) + " ";
      ConnectorQuery.PageTextSnoc(table, head, OrdinalAbove(offset.value));
      query := query + bound;
      head := head + [OrdinalAbove(offset.value)];
    }
    if Active(limit) {
      var bound := " and a.pseudo_column < " + IntToString(limit.value) + " ";
      ConnectorQuery.PageTextSnoc(table, head, OrdinalBelow(limit.value));
      query := query + bound;
      head := head + [OrdinalBelow(limit.value)];
    }
    assert head == BoundFilters(offset, limit);
  }

  /** `_createOracleSpecificQuery` (lib/utils.js), string by string; its where loop is the
      connector's. */
  method CreateOracleSpecificQuery(table: string, offset: Option<int>, limit: Option<int>, whereClause: Option<Obj>)
    returns (query: string)
    ensures query == PageQuery(table, offset, limit, whereClause)
  {
    query := PageBounds(table, offset, limit);
    if whereClause.Some? {
      query := ConnectorQuery.AppendWhere(table, BoundFilters(offset, limit), query, whereClause.value);
    } else {
      assert BoundFilters(offset, limit) + [] == BoundFilters(offset, limit);
    }
  }

  // ---------------------------------------------------------------- setting the entity's fields

  /** One `query.set(field, value)` with the value as given. */
  function SetEntry(q: Option<Statement>, entry: (string, JsValue)): Result<Option<Statement>> {
    if q.None? then Err(SetOnUndefined)
    else
      match SetField(q.value, entry.0, entry.1)
      case Err(e) => Err(e)
      case Ok(q') => Ok(Some(q'))
  }

  /** The `forEach` over the entity's keys: the first failing call ends it. */
  function SetFields(q: Option<Statement>, entity: Obj): Result<Option<Statement>> {
    if entity == [] then Ok(q)
    else
      match SetFields(q, entity[..|entity| - 1])
      case Err(e) => Err(e)
      case Ok(q') => SetEntry(q', entity[|entity| - 1])
  }

  /** On an INSERT or UPDATE builder the calls never fail and the builder keeps its kind and
      table, whatever the entity holds. */
  lemma {:induction false} SetFieldsKeepsKind(s: Statement, entity: Obj)
    requires s.Insert? || s.Update?
    ensures SetFields(Some(s), entity).Ok?
    ensures SetFields(Some(s), entity).value.Some?
    ensures Kind(SetFields(Some(s), entity).value.value) == Kind(s)
    decreases |entity|
  {
    if entity != [] {
      SetFieldsKeepsKind(s, entity[..|entity| - 1]);
    }
  }

  /** On an INSERT or UPDATE builder with no fields yet, an entity with distinct keys sets
      exactly its own entries, values untouched, in key order. */
  lemma {:induction false} SetFieldsOnSetter(s: Statement, entity: Obj)
    requires (s.Insert? || s.Update?) && FieldsOf(s) == []
    requires DistinctKeys(entity)
    ensures SetFields(Some(s), entity) == Ok(Some(ConnectorQuery.WithFields(s, entity)))
    decreases |entity|
  {
    if entity != [] {
      var front, e := entity[..|entity| - 1], entity[|entity| - 1];
      assert entity == front + [e];
      LastKeyIsNew(entity);
      SetFieldsOnSetter(s, front);
      SetFieldsAppends(s, front, e);
    }
  }

  /** The inductive step of `SetFieldsOnSetter`: one more key's `set` appends its entry. */
  lemma SetFieldsAppends(s: Statement, front: Obj, e: (string, JsValue))
    requires s.Insert? || s.Update?
    requires SetFields(Some(s), front) == Ok(Some(ConnectorQuery.WithFields(s, front)))
    requires e.0 !in Keys(front)
    ensures SetFields(Some(s), front + [e]) == Ok(Some(ConnectorQuery.WithFields(s, front + [e])))
  {
    assert (front + [e])[..|front|] == front;
    SetEntryAppends(s, front, e);
  }

  /** Setting a new key on a builder appends the entry, value untouched, to its SET list. */
  lemma SetEntryAppends(s: Statement, fs: Obj, entry: (string, JsValue))
    requires s.Insert? || s.Update?
    requires entry.0 !in Keys(fs)
    ensures SetEntry(Some(ConnectorQuery.WithFields(s, fs)), entry) == Ok(Some(ConnectorQuery.WithFields(s, fs + [entry])))
  {
    PutNewKey(fs, entry.0, entry.1);
  }

  /** One key more: its `set` call runs on what the earlier ones left, unless they failed. */
  lemma SetFieldsSnoc(q: Option<Statement>, fields: Obj, i: nat)
    requires i < |fields|
    ensures SetFields(q, fields[..i + 1])
         == match SetFields(q, fields[..i]) case Err(e) => Err(e) case Ok(q') => SetEntry(q', fields[i])
  {
    assert fields[..i + 1][..i] == fields[..i];
  }

  /** On a SELECT or DELETE builder the first key already fails, as neither has `set`. */
  lemma {:induction false} SetFieldsWithoutSetter(s: Statement, entity: Obj)
    requires s.Select? || s.Delete?
    requires entity != []
    ensures SetFields(Some(s), entity) == Err(SetNotAFunction)
    decreases |entity|
  {
    if |entity| > 1 {
      SetFieldsWithoutSetter(s, entity[..|entity| - 1]);
    }
  }

  /** Without a builder the first key fails on reading `set` of undefined. */
  lemma {:induction false} SetFieldsWithoutBuilder(entity: Obj)
    requires entity != []
    ensures SetFields(None, entity) == Err(SetOnUndefined)
    decreases |entity|
  {
    if |entity| > 1 {
      SetFieldsWithoutBuilder(entity[..|entity| - 1]);
    }
  }

  // ---------------------------------------------------------------- buildQuery

  /** `buildQuery` (lib/utils.js): the wrapper for a paginated FIND; otherwise the entity is
      set on the builder, `options.where` is read (failing on null options), and the builder is
      printed with no condition, since the WHERE string never reaches it. */
  function QueryText(render: Renderer, op: int, table: string, entity: Option<Obj>, options: Option<Options>): Result<string> {
    if ConnectorQuery.Paginated(op, options) then
      Ok(PageQuery(table, options.value.skip, options.value.limit, options.value.where))
    else
      var started := Begin(op, table);
      match (if entity.Some? then SetFields(started, entity.value) else Ok(started))
      case Err(e) => Err(e)
      case Ok(q) =>
        if options.None? then Err(WhereOfNull)
        else if q.None? then Err(ToStringOnUndefined)
        else Ok(render(q.value))
  }

  /** `s[key]` on a string, as string concatenation prints it: the character at a canonical
      index, the length for `length`, and `undefined` for every other key (the members of
      `String.prototype` aside). */
  function StringProperty(s: string, key: string): string {
    if key == "length" then IntToString(|s|)
    else
      match ParseIntText(key)
      case Some(n) => if 0 <= n < |s| && IntToString(n) == key then [s[n]] else "undefined"
      case None => "undefined"
  }

  /** The `forEach` of `query.set` calls, one key at a time, stopping at the first failure. */
  method SetAll(start: Option<Statement>, fields: Obj) returns (r: Result<Option<Statement>>)
    ensures r == SetFields(start, fields)
  {
    var query := start;
    var i := 0;
    while i < |fields|
      invariant 0 <= i <= |fields|
      invariant SetFields(start, fields[..i]) == Ok(query)
    {
      SetFieldsSnoc(start, fields, i);
      var step := SetEntry(query, fields[i]);
      if step.Err? {
        SetFieldsStopsAtError(start, fields, i + 1);
        return Err(step.error);
      }
      query := step.value;
      i := i + 1;
    }
    assert fields[..i] == fields;
    r := Ok(query);
  }

  /** Once a call has failed, the later keys do not change the outcome. */
  lemma {:induction false} SetFieldsStopsAtError(q: Option<Statement>, entity: Obj, i: nat)
    requires i <= |entity| && SetFields(q, entity[..i]).Err?
    ensures SetFields(q, entity) == SetFields(q, entity[..i])
    decreases |entity| - i
  {
    if i < |entity| {
      assert entity[..i + 1][..i] == entity[..i];
      SetFieldsStopsAtError(q, entity, i + 1);
    } else {
      assert entity[..i] == entity;
    }
  }

  /** The WHERE string lib/utils.js builds and drops: each key appends `and k ='x' `, where `x`
      is the property `k` of the string built so far, not the where value. */
  function DroppedWhereText(w: Obj): string {
    if w == [] then "(1=1) " else DroppedTerm(DroppedWhereText(w[..|w| - 1]), w[|w| - 1].0)
  }

  /** The string after one more key: the term reads property `key` of the string so far. */
  function DroppedTerm(prev: string, key: string): string {
    prev + " and " + key + " ='" + StringProperty(prev, key) + "' "
  }

  /** The dropped WHERE string depends on the keys of the where object alone: its values never
      reach it. */
  lemma {:induction false} DroppedWhereTextIgnoresValues(v: Obj, w: Obj)
    requires Keys(v) == Keys(w)
    ensures DroppedWhereText(v) == DroppedWhereText(w)
    decreases |w|
  {
    if w != [] {
      var n := |w| - 1;
      SameKeysFront(v, w);
      DroppedWhereTextIgnoresValues(v[..n], w[..n]);
    }
  }

  /** Objects with the same keys have the same last key and the same keys before it. */
  lemma SameKeysFront(v: Obj, w: Obj)
    requires Keys(v) == Keys(w) && w != []
    ensures |v| == |w|
    ensures Keys(v[..|v| - 1]) == Keys(w[..|w| - 1])
    ensures v[|v| - 1].0 == w[|w| - 1].0
  {
    var n := |w| - 1;
    assert |v| == |Keys(v)| == |Keys(w)| == |w|;
    var kv, kw := Keys(v[..n]), Keys(w[..n]);
    forall i | 0 <= i < n ensures kv[i] == kw[i] {
      assert kv[i] == v[..n][i].0 == v[i].0 == Keys(v)[i];
      assert kw[i] == w[..n][i].0 == w[i].0 == Keys(w)[i];
    }
    assert |kv| == |kw| == n;
    assert kv == kw;
    assert v[n].0 == Keys(v)[n] == Keys(w)[n] == w[n].0;
  }

  /** The loop of lib/utils.js that builds the WHERE string its caller then drops. */
  method BuildDroppedWhere(w: Obj) returns (where: string)
    ensures where == DroppedWhereText(w)
  {
    where := "(1=1) ";
    var i := 0;
    while i < |w|
      invariant 0 <= i <= |w|
      invariant where == DroppedWhereText(w[..i])
    {
      assert w[..i + 1][..i] == w[..i];
      assert DroppedWhereText(w[..i + 1]) == DroppedTerm(where, w[i].0);
      where := where + " and " + w[i].0 + " ='" + StringProperty(where, w[i].0) + "' ";
      i := i + 1;
    }
    assert w[..i] == w;
  }

  /** `buildQuery` (lib/utils.js) step by step, including the loop that builds a WHERE string
      from the characters of that same string and then lets it go. */
  method BuildQuery(render: Renderer, op: int, table: string, entity: Option<Obj>, options: Option<Options>)
    returns (r: Result<string>)
    ensures r == QueryText(render, op, table, entity, options)
  {
    var opts := options.GetOr(NoOptions);
    var query: Option<Statement> := None;
    if op == INSERT {
      query := Some(Insert(table, []));
    } else if op == FIND {
      if Active(opts.limit) || Active(opts.skip) {
        var text := CreateOracleSpecificQuery(table, opts.skip, opts.limit, options.value.where);
        return Ok(text);
      }
      query := Some(Select(table, []));
    } else if op == DELETE {
      query := Some(Delete(table, []));
    } else if op == UPDATE {
      query := Some(Update(table, [], []));
    }
    assert query == Begin(op, table);
    if entity.Some? {
      var withFields := SetAll(query, entity.value);
      if withFields.Err? {
        return Err(withFields.error);
      }
      query := withFields.value;
    }
    if options.None? {
      return Err(WhereOfNull);
    }
    if options.value.where.Some? {
      var where := BuildDroppedWhere(options.value.where.value);
    }
    if query.None? {
      return Err(ToStringOnUndefined);
    }
    r := Ok(render(query.value));
  }

  // ---------------------------------------------------------------- what buildQuery produces

  /** A FIND with a truthy limit or skip is answered by the wrapper alone: the entity and the
      printer play no part. */
  lemma PaginatedQuery(render: Renderer, table: string, entity: Option<Obj>, options: Options)
    requires Active(options.limit) || Active(options.skip)
    ensures QueryText(render, FIND, table, entity, Some(options))
         == Ok(PagePrefix(table) + FiltersText(PageFilters(options.skip, options.limit, options.where)))
  {
  }

  /** Off the paginated path the where object makes no difference to the result. */
  lemma UnpaginatedIgnoresWhere(render: Renderer, op: int, table: string, entity: Option<Obj>,
                                options: Options, where: Option<Obj>)
    requires !ConnectorQuery.Paginated(op, Some(options))
    ensures QueryText(render, op, table, entity, Some(options))
         == QueryText(render, op, table, entity, Some(Options(where, options.limit, options.skip)))
  {
  }

  /** Null options fail on reading `where` unless a `set` call fails first; for INSERT and UPDATE,
      whose builders have `set`, that is always the outcome, so `create` never yields text. */
  lemma NullOptionsQuery(render: Renderer, op: int, table: string, entity: Option<Obj>)
    ensures QueryText(render, op, table, entity, None).Err?
    ensures op == INSERT || op == UPDATE ==> QueryText(render, op, table, entity, None) == Err(WhereOfNull)
    ensures entity.None? || entity == Some([]) ==> QueryText(render, op, table, entity, None) == Err(WhereOfNull)
  {
    if (op == INSERT || op == UPDATE) && entity.Some? {
      SetFieldsKeepsKind(Begin(op, table).value, entity.value);
    }
  }

  /** INSERT and UPDATE with options print the entity exactly as given, with no date transform
      and, for UPDATE, with no condition at all. */
  lemma InsertAndUpdateQuery(render: Renderer, op: int, table: string, entity: Obj, options: Options)
    requires op == INSERT || op == UPDATE
    requires DistinctKeys(entity)
    ensures QueryText(render, op, table, Some(entity), Some(options))
         == Ok(render(if op == INSERT then Insert(table, entity) else Update(table, entity, [])))
  {
    SetFieldsOnSetter(Begin(op, table).value, entity);
  }

  /** An unpaginated FIND and a DELETE print their builder with no condition when there is no
      entity or an empty one, and fail on the first entity key otherwise, as neither builder
      has `set`. */
  lemma FindAndDeleteQuery(render: Renderer, op: int, table: string, entity: Option<Obj>, options: Options)
    requires op == FIND || op == DELETE
    requires !ConnectorQuery.Paginated(op, Some(options))
    ensures entity.None? || entity == Some([]) ==>
      QueryText(render, op, table, entity, Some(options))
      == Ok(render(if op == FIND then Select(table, []) else Delete(table, [])))
    ensures entity.Some? && entity.value != [] ==>
      QueryText(render, op, table, entity, Some(options)) == Err(SetNotAFunction)
  {
    if entity.Some? && entity.value != [] {
      SetFieldsWithoutSetter(Begin(op, table).value, entity.value);
    }
  }

  /** An operation code outside 1..4 never yields text. */
  lemma UnknownOperationQuery(render: Renderer, op: int, table: string, entity: Option<Obj>, options: Option<Options>)
    requires op !in {INSERT, FIND, DELETE, UPDATE}
    ensures QueryText(render, op, table, entity, options)
         == Err(if entity.Some? && entity.value != [] then SetOnUndefined
                else if options.None? then WhereOfNull
                else ToStringOnUndefined)
  {
    if entity.Some? && entity.value != [] {
      SetFieldsWithoutBuilder(entity.value);
    }
  }
}
