/** The operation codes and the query options shared by both translators, and the state of
    the squel query builder they drive.  squel itself is a library: what it prints for a
    statement is not modelled, and every translator takes the printer as a parameter. */
module SqlBuilder {
  import opened JsValues

  const INSERT: int := 1
  const FIND: int := 2
  const DELETE: int := 3
  const UPDATE: int := 4

  /** The recognised fields of an options object: equality filters, row cap and offset.
      An absent or zero limit/skip is falsy. */
  datatype Options = Options(where: Option<Obj>, limit: Option<int>, skip: Option<int>)

  const NoOptions := Options(None, None, None)

  /** Truthiness of an optional integer option. */
  predicate Active(x: Option<int>) {
    x.Some? && x.value != 0
  }

  /** What a squel builder has recorded: the statement kind, its table, the SET fields in the
      order they were set and the WHERE conditions in the order they were added. */
  datatype Statement =
    | Insert(into: string, fields: Obj)
    | Select(from: string, conditions: seq<string>)
    | Update(table: string, fields: Obj, conditions: seq<string>)
    | Delete(from: string, conditions: seq<string>)

  /** squel's `toString()`. */
  type Renderer = Statement -> string

  /** The `switch (operation)` that starts a builder; None is the `undefined` query an unknown
      operation code leaves behind. */
  function Begin(op: int, table: string): (q: Option<Statement>)
    ensures q.None? <==> op !in {INSERT, FIND, DELETE, UPDATE}
  {
    if op == INSERT then Some(Insert(table, []))
    else if op == FIND then Some(Select(table, []))
    else if op == DELETE then Some(Delete(table, []))
    else if op == UPDATE then Some(Update(table, [], []))
    else None
  }

  const SetOnUndefined := TypeError("Cannot read properties of undefined (reading 'set')")
  const SetNotAFunction := TypeError("query.set is not a function")
  const WhereOnUndefined := TypeError("Cannot read properties of undefined (reading 'where')")
  const WhereNotAFunction := TypeError("query.where is not a function")
  const ToStringOnUndefined := TypeError("Cannot read properties of undefined (reading 'toString')")

  /** `query.set(field, value)`: only INSERT and UPDATE builders have it; setting a field
      again overwrites its value in place.  squel's own check of the value's type is not part of
      this model: every value is taken as accepted. */
  function SetField(q: Statement, field: string, value: JsValue): Result<Statement> {
    match q
    case Insert(t, fs) => Ok(Insert(t, Put(fs, field, value)))
    case Update(t, fs, cs) => Ok(Update(t, Put(fs, field, value), cs))
    case _ => Err(SetNotAFunction)
  }

  /** `query.where(condition)`: every builder but INSERT has it. */
  function AddWhere(q: Option<Statement>, condition: string): Result<Statement> {
    match q
    case None => Err(WhereOnUndefined)
    case Some(Insert(_, _)) => Err(WhereNotAFunction)
    case Some(Select(t, cs)) => Ok(Select(t, cs + [condition]))
    case Some(Update(t, fs, cs)) => Ok(Update(t, fs, cs + [condition]))
    case Some(Delete(t, cs)) => Ok(Delete(t, cs + [condition]))
  }

  /** The SET fields a builder holds (none for SELECT and DELETE). */
  function FieldsOf(q: Statement): Obj {
    match q
    case Insert(_, fs) => fs
    case Update(_, fs, _) => fs
    case _ => []
  }

  /** The WHERE conditions a builder holds (none for INSERT). */
  function ConditionsOf(q: Statement): seq<string> {
    match q
    case Insert(_, _) => []
    case Select(_, cs) => cs
    case Update(_, _, cs) => cs
    case Delete(_, cs) => cs
  }

  /** The statement kind and table a builder was started with. */
  function Kind(q: Statement): (int, string) {
    match q
    case Insert(t, _) => (INSERT, t)
    case Select(t, _) => (FIND, t)
    case Delete(t, _) => (DELETE, t)
    case Update(t, _, _) => (UPDATE, t)
  }
}
