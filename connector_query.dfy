/** The SQL text translator of lib/connector.js: `buildQuery` with its date transform and its
    WHERE string, and `_createOracleSpecificQuery`, the rownum wrapper that stands in for
    LIMIT/OFFSET.  The squel printer is the `render` parameter. */
module ConnectorQuery {
  import opened JsValues
  import opened TextOps
  import opened SqlBuilder
  import opened OracleSql

  // ---------------------------------------------------------------- the date transform

  /** What Date.prototype.toISOString throws for an Invalid Date. */
  const InvalidDate := RangeError("Invalid time value")

  predicate IsInvalidDate(v: JsValue) {
    v.Date? && v.time.None?
  }

  /** `_transformNonSupportedTypeToString`: a Date becomes the text of an Oracle TO_DATE call,
      every other value is passed on as it is. */
  function TransformNonSupportedType(v: JsValue): (r: Result<JsValue>)
    ensures r.Err? <==> IsInvalidDate(v)
    ensures r.Err? ==> r.error == InvalidDate
    ensures !v.Date? ==> r == Ok(v)
    ensures r.Ok? ==> !r.value.Date?
  {
    match v
    case Date(time, _) =>
      if time.Some? then Ok(Str(DateLiteral(time.value))) else Err(InvalidDate)
    case _ => Ok(v)
  }

  /** The text a valid Date is turned into, written the way the source spells it out. */
  lemma TransformedDateText(d: DateTime, shown: string)
    ensures TransformNonSupportedType(Date(Some(d), shown))
         == Ok(Str("TO_DATE('" + IsoString(d)[..10] + " " + IsoString(d)[11..19] + "', 'yyyy-mm-dd hh24:mi:ss')"))
  {
    IsoStringChars(d);
    var date, time := IsoString(d)[..10], IsoString(d)[11..19];
    CallWithDateMask(date + " " + time);
    assert "TO_DATE('" + (date + " " + time) == "TO_DATE('" + date + " " + time;
  }

  /** The value a field is set to, for a value the transform accepts. */
  function Transformed(v: JsValue): JsValue
    requires !IsInvalidDate(v)
  {
    TransformNonSupportedType(v).value
  }

  predicate NoInvalidDate(o: Obj) {
    forall i :: 0 <= i < |o| ==> !IsInvalidDate(o[i].1)
  }

  /** The entries of an entity with every value transformed, in the same order. */
  function TransformedEntries(o: Obj): (r: Obj)
    requires NoInvalidDate(o)
    ensures |r| == |o|
    ensures forall i :: 0 <= i < |o| ==> r[i] == (o[i].0, Transformed(o[i].1))
  {
    if o == [] then []
    else
      NoInvalidDateSnoc(o);
      TransformedEntries(o[..|o| - 1]) + [(o[|o| - 1].0, Transformed(o[|o| - 1].1))]
  }

  // ---------------------------------------------------------------- setting the entity's fields

  /** One `query.set(field, transform(value))`: the property read on an undefined query fails
      before the value is transformed, and the transform fails before the missing method is called. */
  function SetEntry(q: Option<Statement>, entry: (string, JsValue)): Result<Option<Statement>> {
    if q.None? then Err(SetOnUndefined)
    else
      match TransformNonSupportedType(entry.1)
      case Err(e) => Err(e)
      case Ok(v) =>
        match SetField(q.value, entry.0, v)
        case Err(e) => Err(e)
        case Ok(q') => Ok(Some(q'))
  }

  /** The `forEach` over the entity's keys: the first failing call ends it. */
  function SetFields(q: Option<Statement>, entity: Obj): Result<Option<Statement>> {
    if entity == [] then Ok(q)
    else
      match SetFields(q, entity[..|entity| - 1])
      case Err(e) => Err(e)
      case Ok(q') => SetEntry(q', entity[|entity| - 1])
  }

  /** A builder for INSERT or UPDATE with its SET list replaced. */
  function WithFields(s: Statement, fields: Obj): Statement
    requires s.Insert? || s.Update?
  {
    match s
    case Insert(t, _) => Insert(t, fields)
    case Update(t, _, cs) => Update(t, fields, cs)
  }

  /** Once a call has failed, the later keys do not change the outcome. */
  lemma {:induction false} SetFieldsKeepsError(q: Option<Statement>, entity: Obj, i: nat)
    requires i <= |entity| && SetFields(q, entity[..i]).Err?
    ensures SetFields(q, entity) == SetFields(q, entity[..i])
    decreases |entity| - i
  {
    if i < |entity| {
      assert entity[..i + 1][..i] == entity[..i];
      SetFieldsKeepsError(q, entity, i + 1);
    } else {
      assert entity[..i] == entity;
    }
  }

  /** One key more: the outcome so far, followed by the call for that key. */
  lemma SetFieldsSnoc(q: Option<Statement>, fields: Obj, i: nat)
    requires i < |fields|
    ensures SetFields(q, fields[..i + 1])
         == match SetFields(q, fields[..i]) case Err(e) => Err(e) case Ok(q') => SetEntry(q', fields[i])
  {
    assert fields[..i + 1][..i] == fields[..i];
  }

  /** On an INSERT or UPDATE builder with no fields yet, an entity with distinct keys and no
      invalid date sets exactly its own keys, in its order, to the transformed values. */
  lemma {:induction false} SetFieldsOnSetter(s: Statement, entity: Obj)
    requires (s.Insert? || s.Update?) && FieldsOf(s) == []
    requires DistinctKeys(entity) && NoInvalidDate(entity)
    ensures SetFields(Some(s), entity) == Ok(Some(WithFields(s, TransformedEntries(entity))))
    decreases |entity|
  {
    if entity != [] {
      var front := entity[..|entity| - 1];
      LastKeyIsNew(entity);
      NoInvalidDateSnoc(entity);
      SetFieldsOnSetter(s, front);
      SetFieldsOnSetterStep(s, entity);
    }
  }

  /** The step of the induction above, given its hypothesis for all keys but the last. */
  lemma SetFieldsOnSetterStep(s: Statement, entity: Obj)
    requires (s.Insert? || s.Update?) && entity != []
    requires DistinctKeys(entity) && NoInvalidDate(entity) && NoInvalidDate(entity[..|entity| - 1])
    requires SetFields(Some(s), entity[..|entity| - 1])
          == Ok(Some(WithFields(s, TransformedEntries(entity[..|entity| - 1]))))
    ensures SetFields(Some(s), entity) == Ok(Some(WithFields(s, TransformedEntries(entity))))
  {
    var n := |entity| - 1;
    var front := entity[..n];
    var fs := TransformedEntries(front);
    LastKeyIsNew(entity);
    KeysOfTransformed(front);
    SetFieldsAppends(s, fs, entity);
  }

  /** The step of the induction above: a new key's entry is appended after the earlier ones. */
  lemma SetFieldsAppends(s: Statement, fs: Obj, entity: Obj)
    requires (s.Insert? || s.Update?) && entity != []
    requires SetFields(Some(s), entity[..|entity| - 1]) == Ok(Some(WithFields(s, fs)))
    requires entity[|entity| - 1].0 !in Keys(fs) && !IsInvalidDate(entity[|entity| - 1].1)
    ensures SetFields(Some(s), entity)
         == Ok(Some(WithFields(s, fs + [(entity[|entity| - 1].0, Transformed(entity[|entity| - 1].1))])))
  {
    SetEntryAppends(s, fs, entity[|entity| - 1]);
  }

  /** Transforming the values keeps the keys. */
  lemma KeysOfTransformed(o: Obj)
    requires NoInvalidDate(o)
    ensures Keys(TransformedEntries(o)) == Keys(o)
  {
  }

  /** Setting a new key on a builder appends the transformed entry to its SET list. */
  lemma SetEntryAppends(s: Statement, fs: Obj, entry: (string, JsValue))
    requires s.Insert? || s.Update?
    requires entry.0 !in Keys(fs) && !IsInvalidDate(entry.1)
    ensures SetEntry(Some(WithFields(s, fs)), entry) == Ok(Some(WithFields(s, fs + [(entry.0, Transformed(entry.1))])))
  {
    PutNewKey(fs, entry.0, Transformed(entry.1));
  }

  /** An INSERT or UPDATE builder stays one of the two while its fields are set. */
  predicate SetterResult(r: Result<Option<Statement>>) {
    r.Ok? ==> r.value.Some? && (r.value.value.Insert? || r.value.value.Update?)
  }

  lemma {:induction false} SetFieldsKeepsSetter(s: Statement, entity: Obj)
    requires s.Insert? || s.Update?
    ensures SetterResult(SetFields(Some(s), entity))
    decreases |entity|
  {
    if entity != [] {
      SetFieldsKeepsSetter(s, entity[..|entity| - 1]);
    }
  }

  lemma NoInvalidDateSnoc(o: Obj)
    requires o != []
    ensures NoInvalidDate(o) <==> NoInvalidDate(o[..|o| - 1]) && !IsInvalidDate(o[|o| - 1].1)
  {
    var n := |o| - 1;
    if NoInvalidDate(o[..n]) && !IsInvalidDate(o[n].1) {
      forall i | 0 <= i < |o| ensures !IsInvalidDate(o[i].1) {
        if i < n { assert o[i] == o[..n][i]; }
      }
    }
    if !NoInvalidDate(o[..n]) {
      var i :| 0 <= i < n && IsInvalidDate(o[..n][i].1);
      assert o[i] == o[..n][i];
    }
  }

  lemma SetEntryOnSetter(s: Statement, entry: (string, JsValue))
    requires s.Insert? || s.Update?
    ensures SetEntry(Some(s), entry).Err? <==> IsInvalidDate(entry.1)
    ensures SetEntry(Some(s), entry).Err? ==> SetEntry(Some(s), entry).error == InvalidDate
  {
  }

  /** On an INSERT or UPDATE builder, setting the fields fails exactly when the entity holds an
      invalid date, and then with the transform's RangeError. */
  lemma {:induction false} SetFieldsFailsOnInvalidDate(s: Statement, entity: Obj)
    requires s.Insert? || s.Update?
    ensures SetFields(Some(s), entity).Err? <==> !NoInvalidDate(entity)
    ensures SetFields(Some(s), entity).Err? ==> SetFields(Some(s), entity).error == InvalidDate
    decreases |entity|
  {
    if entity != [] {
      var n := |entity| - 1;
      var front := entity[..n];
      SetFieldsFailsOnInvalidDate(s, front);
      SetFieldsKeepsSetter(s, front);
      var r := SetFields(Some(s), front);
      if r.Ok? {
        SetEntryOnSetter(r.value.value, entity[n]);
        assert SetFields(Some(s), entity) == SetEntry(r.value, entity[n]);
      } else {
        assert SetFields(Some(s), entity) == r;
      }
      NoInvalidDateSnoc(entity);
    }
  }

  /** A SELECT or DELETE builder has no `set`: a non-empty entity fails on its first key, with
      the transform's error when its value is an invalid date and a TypeError otherwise. */
  lemma {:induction false} SetFieldsWithoutSetter(s: Statement, entity: Obj)
    requires s.Select? || s.Delete?
    requires entity != []
    ensures SetFields(Some(s), entity) == Err(if IsInvalidDate(entity[0].1) then InvalidDate else SetNotAFunction)
    decreases |entity|
  {
    if |entity| > 1 {
      SetFieldsWithoutSetter(s, entity[..|entity| - 1]);
    } else {
      assert entity[..0] == [];
    }
  }

  /** Without a builder the first key fails on reading `set`. */
  lemma {:induction false} SetFieldsWithoutBuilder(entity: Obj)
    requires entity != []
    ensures SetFields(None, entity) == Err(SetOnUndefined)
    decreases |entity|
  {
    if |entity| > 1 {
      SetFieldsWithoutBuilder(entity[..|entity| - 1]);
    } else {
      assert entity[..0] == [];
    }
  }

  // ---------------------------------------------------------------- the WHERE string

  /** One equality of the WHERE string. */
  function WhereTerm(key: string, value: JsValue): string {
    "and " + key + " ='" + ToStr(value) + "' "
  }

  /** The equalities of a where object, one per key in key order. */
  function WhereTerms(w: Obj): (ts: seq<string>)
    ensures |ts| == |w|
    ensures forall i :: 0 <= i < |w| ==> ts[i] == WhereTerm(w[i].0, w[i].1)
  {
    seq(|w|, i requires 0 <= i < |w| => WhereTerm(w[i].0, w[i].1))
  }

  /** The condition the translator attaches: `(1=1) ` then the equalities. */
  function WhereText(w: Obj): string {
    "(1=1) " + Concat(WhereTerms(w))
  }

  /** The WHERE string grows by one term per key, in key order. */
  lemma WhereTextSnoc(w: Obj, i: nat)
    requires i < |w|
    ensures WhereText(w[..i + 1]) == WhereText(w[..i]) + WhereTerm(w[i].0, w[i].1)
  {
    var t := WhereTerm(w[i].0, w[i].1);
    assert WhereTerms(w[..i + 1]) == WhereTerms(w[..i]) + [t];
    ConcatAppend(WhereTerms(w[..i]), [t]);
    ConcatOne(t);
  }

  /** The WHERE string of a where object split in two is the first part's string followed by
      the second part's terms. */
  lemma WhereTextSplit(v: Obj, w: Obj)
    ensures WhereText(v + w) == WhereText(v) + Concat(WhereTerms(w))
  {
    assert WhereTerms(v + w) == WhereTerms(v) + WhereTerms(w);
    ConcatAppend(WhereTerms(v), WhereTerms(w));
  }

  // ---------------------------------------------------------------- the pagination wrapper

  /** The bounds `_createOracleSpecificQuery` appends: the lower one when the offset is truthy,
      the upper one when the limit is truthy and not 1. */
  function BoundFilters(skip: Option<int>, limit: Option<int>): seq<Filter> {
    (if Active(skip) then [OrdinalAbove(skip.value)] else [])
    + (if Active(limit) && limit.value != 1 then [OrdinalBelow(limit.value)] else [])
  }

  /** All the conditions of the wrapper, in order: the bounds, then one equality per where key. */
  function PageFilters(skip: Option<int>, limit: Option<int>, where: Option<Obj>): seq<Filter> {
    BoundFilters(skip, limit) + (if where.Some? then EqualityFilters(where.value) else [])
  }

  /** The wrapper's text for a list of conditions. */
  function PageText(table: string, fs: seq<Filter>): string {
    PagePrefix(table) + FiltersText(fs)
  }

  /** The text of the wrapper. */
  function PageQuery(table: string, skip: Option<int>, limit: Option<int>, where: Option<Obj>): string {
    PageText(table, PageFilters(skip, limit, where))
  }

  /** The rows the wrapper selects: numbered above a truthy offset, below a truthy limit other
      than 1, and matching every where equality; a limit of 1 sets no upper bound at all. */
  lemma PageWindow(skip: Option<int>, limit: Option<int>, where: Option<Obj>, ordinal: int, row: Row)
    ensures AdmitsAll(PageFilters(skip, limit, where), ordinal, row) <==>
      && (Active(skip) ==> ordinal > skip.value)
      && (Active(limit) && limit.value != 1 ==> ordinal < limit.value)
      && (where.Some? ==> MatchesWhere(where.value, row))
  {
    var a: seq<Filter> := if Active(skip) then [OrdinalAbove(skip.value)] else [];
    var b: seq<Filter> := if Active(limit) && limit.value != 1 then [OrdinalBelow(limit.value)] else [];
    var c: seq<Filter> := if where.Some? then EqualityFilters(where.value) else [];
    AdmitsAllAppend(a + b, c, ordinal, row);
    AdmitsAllAppend(a, b, ordinal, row);
    assert AdmitsAll(a, ordinal, row) <==> (Active(skip) ==> ordinal > skip.value) by {
      if Active(skip) { assert a[0] == OrdinalAbove(skip.value); }
    }
    assert AdmitsAll(b, ordinal, row) <==> (Active(limit) && limit.value != 1 ==> ordinal < limit.value) by {
      if Active(limit) && limit.value != 1 { assert b[0] == OrdinalBelow(limit.value); }
    }
    if where.Some? {
      EqualityFiltersAdmit(where.value, ordinal, row);
    }
  }

  /** The wrapper with no condition yet is its fixed prefix. */
  lemma PageTextEmpty(table: string)
    ensures PageText(table, []) == PagePrefix(table)
  {
    assert FilterTexts([]) == [];
  }

  /** One condition more appends its text. */
  lemma PageTextSnoc(table: string, fs: seq<Filter>, f: Filter)
    ensures PageText(table, fs + [f]) == PageText(table, fs) + FilterText(f)
  {
    FiltersTextSnoc(fs, f);
  }

  /** One where equality more appends `and <key> ='<value>'` with its spaces. */
  lemma PageTextWhereStep(table: string, head: seq<Filter>, w: Obj, i: nat)
    requires i < |w|
    ensures PageText(table, head + EqualityFilters(w[..i + 1]))
         == PageText(table, head + EqualityFilters(w[..i])) + (" and " + w[i].0 + " ='" + ToStr(w[i].1) + "' ")
  {
    var f := ColumnEquals(w[i].0, ToStr(w[i].1));
    assert head + EqualityFilters(w[..i + 1]) == (head + EqualityFilters(w[..i])) + [f];
    PageTextSnoc(table, head + EqualityFilters(w[..i]), f);
  }

  /** The wrapper and its two bounds, as the first statements of `_createOracleSpecificQuery` build it. */
  method PageBounds(table: string, offset: Option<int>, limit: Option<int>) returns (query: string)
    ensures query == PageText(table, BoundFilters(offset, limit))
  {
    query := "select * from (select " + table + ".*, rownum as pseudo_column from " + table + " order by rowid) a where (1=1) ";
    var head: seq<Filter> := [];
    PageTextEmpty(table);
    if Active(offset) {
      var bound := " and a.pseudo_column > " + IntToString(offset.value) + " ";
      PageTextSnoc(table, head, OrdinalAbove(offset.value));
      query := query + bound;
      head := head + [OrdinalAbove(offset.value)];
    }
    if Active(limit) && limit.value != 1 {
      var bound := " and a.pseudo_column < " + IntToString(limit.value) + " ";
      PageTextSnoc(table, head, OrdinalBelow(limit.value));
      query := query + bound;
      head := head + [OrdinalBelow(limit.value)];
    }
    assert head == BoundFilters(offset, limit);
  }

  /** The `forEach` over the where keys of `_createOracleSpecificQuery`: one equality each. */
  method AppendWhere(table: string, head: seq<Filter>, start: string, w: Obj) returns (query: string)
    requires start == PageText(table, head)
    ensures query == PageText(table, head + EqualityFilters(w))
  {
    query := start;
    assert head + EqualityFilters(w[..0]) == head;
    var i := 0;
    while i < |w|
      invariant 0 <= i <= |w|
      invariant query == PageText(table, head + EqualityFilters(w[..i]))
    {
      var term := " and " + w[i].0 + " ='" + ToStr(w[i].1) + "' ";
      PageTextWhereStep(table, head, w, i);
      query := query + term;
      i := i + 1;
    }
    assert w[..i] == w;
  }

  /** `_createOracleSpecificQuery` (lib/connector.js), string by string. */
  method CreateOracleSpecificQuery(table: string, offset: Option<int>, limit: Option<int>, whereClause: Option<Obj>)
    returns (query: string)
    ensures query == PageQuery(table, offset, limit, whereClause)
  {
    query := PageBounds(table, offset, limit);
    if whereClause.Some? {
      query := AppendWhere(table, BoundFilters(offset, limit), query, whereClause.value);
    } else {
      assert BoundFilters(offset, limit) + [] == BoundFilters(offset, limit);
    }
  }

  // ---------------------------------------------------------------- buildQuery

  predicate Paginated(op: int, options: Option<Options>) {
    op == FIND && options.Some? && (Active(options.value.limit) || Active(options.value.skip))
  }

  /** The builder after the `switch`, the `set` calls and the `where` call of the
      non-paginated path. */
  function BuildStatement(op: int, table: string, entity: Option<Obj>, options: Option<Options>): Result<Option<Statement>> {
    var started := Begin(op, table);
    var withFields := if entity.Some? && op != DELETE then SetFields(started, entity.value) else Ok(started);
    match withFields
    case Err(e) => Err(e)
    case Ok(q) =>
      if options.Some? && options.value.where.Some? then
        match AddWhere(q, WhereText(options.value.where.value))
        case Err(e) => Err(e)
        case Ok(s) => Ok(Some(s))
      else Ok(q)
  }

  /** `buildQuery` (lib/connector.js): the wrapper for a paginated FIND, otherwise the printed
      builder with the quotes around TO_DATE calls removed. */
  function QueryText(render: Renderer, op: int, table: string, entity: Option<Obj>, options: Option<Options>): Result<string> {
    if Paginated(op, options) then
      Ok(PageQuery(table, options.value.skip, options.value.limit, options.value.where))
    else
      match BuildStatement(op, table, entity, options)
      case Err(e) => Err(e)
      case Ok(None) => Err(ToStringOnUndefined)
      case Ok(Some(s)) => Ok(Fixup(render(s)))
  }

  /** The `forEach` of `query.set` calls, one key at a time, stopping at the first failure. */
  method SetAll(start: Option<Statement>, fields: Obj) returns (r: Result<Option<Statement>>)
    ensures r == SetFields(start, fields)
  {
    var query := start;
    var i := 0;
    while i < |fields|
      invariant 0 <= i <= |fields|
      invariant SetFields(start, fields[..i]) == Ok(query)
    {
      SetFieldsSnoc(start, fields, i);
      var step := SetEntry(query, fields[i]);
      if step.Err? {
        SetFieldsKeepsError(start, fields, i + 1);
        return Err(step.error);
      }
      query := step.value;
      i := i + 1;
    }
    assert fields[..i] == fields;
    r := Ok(query);
  }

  /** The `forEach` that accumulates the WHERE string. */
  method BuildWhere(w: Obj) returns (where: string)
    ensures where == WhereText(w)
  {
    where := "(1=1) ";
    var i := 0;
    while i < |w|
      invariant 0 <= i <= |w|
      invariant where == WhereText(w[..i])
    {
      var term := "and " + w[i].0 + " ='" + ToStr(w[i].1) + "' ";
      WhereTextSnoc(w, i);
      where := where + term;
      i := i + 1;
    }
    assert w[..i] == w;
  }

  /** `buildQuery` (lib/connector.js) step by step: the `switch`, the `set` calls, the WHERE
      string and the final fix-up. */
  method BuildQuery(render: Renderer, op: int, table: string, entity: Option<Obj>, options: Option<Options>)
    returns (r: Result<string>)
    ensures r == QueryText(render, op, table, entity, options)
  {
    var opts := options.GetOr(NoOptions);
    var query: Option<Statement> := None;
    if op == INSERT {
      query := Some(Insert(table, []));
    } else if op == FIND {
      if Active(opts.limit) || Active(opts.skip) {
        var text := CreateOracleSpecificQuery(table, opts.skip, opts.limit, options.value.where);
        return Ok(text);
      }
      query := Some(Select(table, []));
    } else if op == DELETE {
      query := Some(Delete(table, []));
    } else if op == UPDATE {
      query := Some(Update(table, [], []));
    }
    assert query == Begin(op, table);
    if entity.Some? && op != DELETE {
      var withFields := SetAll(query, entity.value);
      if withFields.Err? {
        return Err(withFields.error);
      }
      query := withFields.value;
    }
    if options.Some? && options.value.where.Some? {
      var where := BuildWhere(options.value.where.value);
      var attached := AddWhere(query, where);
      if attached.Err? {
        return Err(attached.error);
      }
      query := Some(attached.value);
    }
    if query.None? {
      return Err(ToStringOnUndefined);
    }
    r := Ok(Fixup(render(query.value)));
  }

  // ---------------------------------------------------------------- what buildQuery produces

  /** A FIND with a truthy limit or skip is answered by the wrapper alone: neither the entity nor
      the printer plays a part. */
  lemma PaginatedQuery(render: Renderer, table: string, entity: Option<Obj>, options: Options)
    requires Active(options.limit) || Active(options.skip)
    ensures QueryText(render, FIND, table, entity, Some(options))
         == Ok(PagePrefix(table) + FiltersText(PageFilters(options.skip, options.limit, options.where)))
  {
  }

  /** Any other call prints a builder: limit and skip play no part in it. */
  lemma UnpaginatedIgnoresLimitAndSkip(render: Renderer, op: int, table: string, entity: Option<Obj>, options: Options)
    requires op != FIND
    ensures QueryText(render, op, table, entity, Some(options))
         == QueryText(render, op, table, entity, Some(Options(options.where, None, None)))
  {
  }

  /** The condition attached to a builder, if any. */
  function Conditions(options: Option<Options>): seq<string> {
    if options.Some? && options.value.where.Some? then [WhereText(options.value.where.value)] else []
  }

  /** INSERT and UPDATE set every key of the entity to its transformed value, in key order;
      UPDATE also gets the WHERE string, and an INSERT that is given one fails, as an INSERT
      builder has no `where`. */
  lemma InsertAndUpdateQuery(render: Renderer, op: int, table: string, entity: Obj, options: Option<Options>)
    requires op == INSERT || op == UPDATE
    requires DistinctKeys(entity) && NoInvalidDate(entity)
    ensures op == INSERT && Conditions(options) != [] ==>
      QueryText(render, op, table, Some(entity), options) == Err(WhereNotAFunction)
    ensures op == INSERT && Conditions(options) == [] ==>
      QueryText(render, op, table, Some(entity), options) == Ok(Fixup(render(Insert(table, TransformedEntries(entity)))))
    ensures op == UPDATE ==>
      QueryText(render, op, table, Some(entity), options)
      == Ok(Fixup(render(Update(table, TransformedEntries(entity), Conditions(options)))))
  {
    SetFieldsOnSetter(Begin(op, table).value, entity);
    assert forall c: string :: [] + [c] == [c];
  }

  /** An invalid date in the entity of an INSERT or UPDATE makes the call fail with the
      transform's RangeError. */
  lemma InvalidDateQuery(render: Renderer, op: int, table: string, entity: Obj, options: Option<Options>)
    requires op == INSERT || op == UPDATE
    requires !NoInvalidDate(entity)
    ensures QueryText(render, op, table, Some(entity), options) == Err(InvalidDate)
  {
    SetFieldsFailsOnInvalidDate(Begin(op, table).value, entity);
  }

  /** DELETE ignores the entity altogether. */
  lemma DeleteQuery(render: Renderer, table: string, entity: Option<Obj>, options: Option<Options>)
    ensures QueryText(render, DELETE, table, entity, options) == Ok(Fixup(render(Delete(table, Conditions(options)))))
  {
    assert forall c: string :: [] + [c] == [c];
  }

  /** A FIND that is not paginated prints a SELECT with the WHERE string when there is no
      entity or an empty one, and fails on the first entity key otherwise, as a SELECT builder has
      no `set`. */
  lemma FindQuery(render: Renderer, table: string, entity: Option<Obj>, options: Option<Options>)
    requires !Paginated(FIND, options)
    ensures entity.None? || entity == Some([]) ==>
      QueryText(render, FIND, table, entity, options) == Ok(Fixup(render(Select(table, Conditions(options)))))
    ensures entity.Some? && entity.value != [] ==>
      QueryText(render, FIND, table, entity, options)
      == Err(if IsInvalidDate(entity.value[0].1) then InvalidDate else SetNotAFunction)
  {
    if entity.Some? && entity.value != [] {
      SetFieldsWithoutSetter(Select(table, []), entity.value);
    }
    assert forall c: string :: [] + [c] == [c];
  }

  /** An operation code outside 1..4 never yields text: it fails with a TypeError on the first
      method it calls on the undefined query. */
  lemma UnknownOperationQuery(render: Renderer, op: int, table: string, entity: Option<Obj>, options: Option<Options>)
    requires op !in {INSERT, FIND, DELETE, UPDATE}
    ensures QueryText(render, op, table, entity, options)
         == Err(if entity.Some? && entity.value != [] then SetOnUndefined
                else if Conditions(options) != [] then WhereOnUndefined
                else ToStringOnUndefined)
  {
    if entity.Some? && entity.value != [] {
      SetFieldsWithoutBuilder(entity.value);
    }
  }
}
