/**
 Filters of the table tools (crates/summer-mcp/src/table_tools/query_builder.rs:13-62,
 132-345, 487-635; schema.rs:89-98, 712-741): which condition and which parameters a
 filter stands for, which filters are refused, and what a filter means by itself.
 */
module FilterSpec {
  import opened Wrappers
  import opened SqlConditions

  // A JSON value; numbers, arrays and objects are held by their JSON text.
  datatype Json = JNull | JBool(b: bool) | JNumber(text: string) | JString(text: string) | JNested(text: string)

  datatype FilterOp = Eq | Ne | Gt | Gte | Lt | Lte | Like | ILike | In | NotIn | Between | IsNull | IsNotNull

  datatype TableFilter = TableFilter(column: string, op: FilterOp, value: Option<Json>, values: Option<seq<Json>>)

  datatype Items = Missing | Given(list: seq<Filter>)

  // A shorthand is held by what its text parses to.
  datatype Filter =
    | Structured(filter: TableFilter)
    | Group(conj: Items, disj: Items)
    | Shorthand(parsed: Option<TableFilter>)

  datatype ColumnSchema = ColumnSchema(
    name: string,
    pgType: string,
    primaryKey: bool,
    hiddenOnRead: bool,
    writableOnUpdate: bool)

  type TableSchema = seq<ColumnSchema>

  datatype BuildError =
    | InvalidIdentifier(name: string)
    | UnknownColumn(name: string)
    | HiddenColumn(name: string)
    | NotWritable(name: string)
    | BadShorthand
    | BothAndOr
    | NeitherAndOr
    | EmptyGroup
    | ValueRequired
    | ValuesRequired
    | ValuesEmpty
    | NullInValues
    | BetweenNeedsTwo
    | NullInBetween
    | NullOperand
    | PatternNotText
    | NoValues
    | NoPrimaryKey
    | KeyFields
    | KeyMissing(name: string)
    | KeyNull(name: string)

  // A condition with the parameters it adds.
  datatype Built = Built(cond: Cond, params: seq<string>)
  datatype BuiltList = BuiltList(conds: seq<Cond>, params: seq<string>)

  predicate IsIdentStart(c: char) { 'a' <= c <= 'z' || 'A' <= c <= 'Z' || c == '_' }

  predicate IsIdentifier(s: string) {
    && s != "" && IsIdentStart(s[0])
    && forall i :: 1 <= i < |s| ==> IsIdentStart(s[i]) || '0' <= s[i] <= '9'
  }

  function ColumnOf(schema: TableSchema, name: string): (c: Option<ColumnSchema>)
    ensures c.Some? ==> c.value in schema && c.value.name == name
    ensures c.None? ==> forall column :: column in schema ==> column.name != name
  {
    if schema == [] then None
    else if schema[0].name == name then Some(schema[0])
    else ColumnOf(schema[1..], name)
  }

  // The text bound for a value; null is bound as nothing.
  function BoundText(value: Json): Option<string> {
    match value
    case JNull => None
    case JBool(b) => Some(if b then "true" else "false")
    case JNumber(text) => Some(text)
    case JString(text) => Some(text)
    case JNested(text) => Some(text)
  }

  function TextOf(value: Json): string {
    if BoundText(value).Some? then BoundText(value).value else ""
  }

  // ----- the condition a filter stands for, numbering parameters from n + 1 -----

  function Single(filter: TableFilter): Result<Json, BuildError> {
    if filter.value.None? then Err(ValueRequired) else Ok(filter.value.value)
  }

  function Several(filter: TableFilter): Result<seq<Json>, BuildError> {
    if filter.values.None? then Err(ValuesRequired)
    else if filter.values.value == [] then Err(ValuesEmpty)
    else Ok(filter.values.value)
  }

  function Texts(values: seq<Json>): seq<string> {
    seq(|values|, i requires 0 <= i < |values| => TextOf(values[i]))
  }

  function CastParams(column: ColumnSchema, n: nat, count: nat): seq<Operand> {
    seq(count, i requires 0 <= i < count => CastParam(n + i + 1, column.pgType))
  }

  function BuildCompare(column: ColumnSchema, op: CmpOp, value: Json, n: nat): Built {
    Built(Atom(Compare(Column(column.name), op, CastParam(n + 1, column.pgType))), [TextOf(value)])
  }

  function BuildComparison(column: ColumnSchema, op: CmpOp, filter: TableFilter, n: nat): Result<Built, BuildError> {
    var value := Single(filter);
    if value.Err? then Err(value.error)
    else if value.value.JNull? then Err(NullOperand)
    else Ok(BuildCompare(column, op, value.value, n))
  }

  function BuildEquality(column: ColumnSchema, negated: bool, filter: TableFilter, n: nat): Result<Built, BuildError> {
    var value := Single(filter);
    if value.Err? then Err(value.error)
    else if value.value.JNull? then Ok(Built(Atom(NullTest(Column(column.name), negated)), []))
    else Ok(BuildCompare(column, if negated then NotEqual else Equal, value.value, n))
  }

  function BuildPattern(column: ColumnSchema, op: CmpOp, filter: TableFilter, n: nat): Result<Built, BuildError> {
    var value := Single(filter);
    if value.Err? then Err(value.error)
    else if !value.value.JString? then Err(PatternNotText)
    else Ok(Built(Atom(Compare(CastColumn(column.name, "text"), op, Param(n + 1))), [value.value.text]))
  }

  function BuildMembership(
      column: ColumnSchema, negated: bool, filter: TableFilter, n: nat): Result<Built, BuildError>
  {
    var values := Several(filter);
    if values.Err? then Err(values.error)
    else if JNull in values.value then Err(NullInValues)
    else Ok(Built(Atom(InList(Column(column.name), negated, CastParams(column, n, |values.value|))),
        Texts(values.value)))
  }

  function BuildRange(column: ColumnSchema, filter: TableFilter, n: nat): Result<Built, BuildError> {
    var values := Several(filter);
    if values.Err? then Err(values.error)
    else if |values.value| != 2 then Err(BetweenNeedsTwo)
    else if JNull in values.value then Err(NullInBetween)
    else Ok(Built(Atom(SqlConditions.Between(Column(column.name), CastParam(n + 1, column.pgType),
        CastParam(n + 2, column.pgType))),
                  Texts(values.value)))
  }

  function BuildOn(column: ColumnSchema, filter: TableFilter, n: nat): Result<Built, BuildError> {
    match filter.op
    case Eq => BuildEquality(column, false, filter, n)
    case Ne => BuildEquality(column, true, filter, n)
    case Gt => BuildComparison(column, Greater, filter, n)
    case Gte => BuildComparison(column, GreaterEqual, filter, n)
    case Lt => BuildComparison(column, Less, filter, n)
    case Lte => BuildComparison(column, LessEqual, filter, n)
    case Like => BuildPattern(column, Matches, filter, n)
    case ILike => BuildPattern(column, MatchesNoCase, filter, n)
    case In => BuildMembership(column, false, filter, n)
    case NotIn => BuildMembership(column, true, filter, n)
    case Between => BuildRange(column, filter, n)
    case IsNull => Ok(Built(Atom(NullTest(Column(column.name), false)), []))
    case IsNotNull => Ok(Built(Atom(NullTest(Column(column.name), true)), []))
  }

  function FilterColumn(schema: TableSchema, name: string): Result<ColumnSchema, BuildError> {
    if !IsIdentifier(name) then Err(InvalidIdentifier(name))
    else
      var column := ColumnOf(schema, name);
      if column.None? then Err(UnknownColumn(name))
      else if column.value.hiddenOnRead then Err(HiddenColumn(name))
      else Ok(column.value)
  }

  function BuildSingle(schema: TableSchema, filter: TableFilter, n: nat): Result<Built, BuildError> {
    var column := FilterColumn(schema, filter.column);
    if column.Err? then Err(column.error) else BuildOn(column.value, filter, n)
  }

  function Build(schema: TableSchema, filter: Filter, n: nat): Result<Built, BuildError>
    decreases filter, 0
  {
    match filter
    case Structured(f) => BuildSingle(schema, f, n)
    case Shorthand(parsed) => if parsed.None? then Err(BadShorthand) else BuildSingle(schema, parsed.value, n)
    case Group(conj, disj) =>
      if conj.Given? && disj.Given? then Err(BothAndOr)
      else if conj.Given? then BuildGroup(schema, conj.list, true, n)
      else if disj.Given? then BuildGroup(schema, disj.list, false, n)
      else Err(NeitherAndOr)
  }

  // A group of one item is that item.
  function BuildGroup(schema: TableSchema, items: seq<Filter>, conjunction: bool, n: nat): Result<Built, BuildError>
    decreases items, 1
  {
    if items == [] then Err(EmptyGroup)
    else
      var parts := BuildList(schema, items, n);
      if parts.Err? then Err(parts.error)
      else Ok(Built(if conjunction then AllOf(parts.value.conds) else AnyOf(parts.value.conds), parts.value.params))
  }

  function BuildList(schema: TableSchema, items: seq<Filter>, n: nat): (r: Result<BuiltList, BuildError>)
    ensures r.Ok? ==> |r.value.conds| == |items|
    decreases items, 0
  {
    if items == [] then Ok(BuiltList([], []))
    else
      var first := Build(schema, items[0], n);
      if first.Err? then Err(first.error)
      else
        var others := BuildList(schema, items[1..], n + |first.value.params|);
        if others.Err? then others
        else Ok(BuiltList([first.value.cond] + others.value.conds, first.value.params + others.value.params))
  }

  // ----- which filters are accepted -----

  predicate AcceptableOn(filter: TableFilter) {
    match filter.op
    case IsNull => true
    case IsNotNull => true
    case Eq => filter.value.Some?
    case Ne => filter.value.Some?
    case Like => filter.value.Some? && filter.value.value.JString?
    case ILike => filter.value.Some? && filter.value.value.JString?
    case In => filter.values.Some? && filter.values.value != [] && JNull !in filter.values.value
    case NotIn => filter.values.Some? && filter.values.value != [] && JNull !in filter.values.value
    case Between => filter.values.Some? && |filter.values.value| == 2 && JNull !in filter.values.value
    case _ => filter.value.Some? && !filter.value.value.JNull?
  }

  // ASCII letters, digits and underscores, not starting with a digit.
  ghost predicate IsPlainName(name: string) {
    && name != "" && !('0' <= name[0] <= '9')
    && forall c :: c in name ==> 'a' <= c <= 'z' || 'A' <= c <= 'Z' || '0' <= c <= '9' || c == '_'
  }

  lemma IdentifierIff(name: string)
    ensures IsIdentifier(name) <==> IsPlainName(name)
  {
    assert forall i :: 0 <= i < |name| ==> name[i] in name;
  }

  ghost predicate AcceptableSingle(schema: TableSchema, filter: TableFilter) {
    && IsPlainName(filter.column)
    && ColumnOf(schema, filter.column).Some?
    && !ColumnOf(schema, filter.column).value.hiddenOnRead
    && AcceptableOn(filter)
  }

  ghost predicate Acceptable(schema: TableSchema, filter: Filter)
    decreases filter
  {
    match filter
    case Structured(f) => AcceptableSingle(schema, f)
    case Shorthand(parsed) => parsed.Some? && AcceptableSingle(schema, parsed.value)
    case Group(conj, disj) =>
      && conj.Given? != disj.Given?
      && var list := if conj.Given? then conj.list else disj.list;
      list != [] && forall item :: item in list ==> Acceptable(schema, item)
  }

  // ----- what a filter means, without any SQL -----

  // A comparison with an absent cell is neither true nor false.
  ghost function OnCell(cell: Option<Val>, p: Val -> bool): Truth {
    if cell.None? then Unknown else FromBool(p(cell.value))
  }

  // A JSON value written as a plain text; null has none.
  ghost function PlainText(value: Json): string {
    match value
    case JNull => ""
    case JBool(true) => "true"
    case JBool(false) => "false"
    case JNumber(digits) => digits
    case JString(text) => text
    case JNested(json) => json
  }

  ghost function Constant(db: Db, column: ColumnSchema, value: Json): Val {
    db.cast(column.pgType, db.plain(PlainText(value)))
  }

  // All of them, and any of them, with unknown between false and true.
  ghost function Every(ts: seq<Truth>): Truth {
    if ts == [] then True
    else if ts[0] == True then Every(ts[1..])
    else if Every(ts[1..]) == False then False
    else ts[0]
  }

  ghost function Either(ts: seq<Truth>): Truth {
    if ts == [] then False
    else if ts[0] == False then Either(ts[1..])
    else if Either(ts[1..]) == True then True
    else ts[0]
  }

  ghost function MeaningOn(db: Db, column: ColumnSchema, filter: TableFilter, row: Row): Truth
    requires AcceptableOn(filter)
  {
    var cell := row(column.name);
    match filter.op
    case IsNull => FromBool(cell.None?)
    case IsNotNull => FromBool(cell.Some?)
    case Eq =>
      var v := filter.value.value;
      if v.JNull? then FromBool(cell.None?) else OnCell(cell, x => db.equal(x, Constant(db, column, v)))
    case Ne =>
      var v := filter.value.value;
      if v.JNull? then FromBool(cell.Some?) else OnCell(cell, x => !db.equal(x, Constant(db, column, v)))
    case Gt => OnCell(cell, x => db.less(Constant(db, column, filter.value.value), x))
    case Gte => OnCell(cell, x => !db.less(x, Constant(db, column, filter.value.value)))
    case Lt => OnCell(cell, x => db.less(x, Constant(db, column, filter.value.value)))
    case Lte => OnCell(cell, x => !db.less(Constant(db, column, filter.value.value), x))
    case Like => OnCell(cell, x => db.like(db.cast("text", x), db.plain(filter.value.value.text)))
    case ILike => OnCell(cell, x => db.ilike(db.cast("text", x), db.plain(filter.value.value.text)))
    case In => OnCell(cell, x => exists v :: v in filter.values.value && db.equal(x, Constant(db, column, v)))
    case NotIn => OnCell(cell, x => forall v :: v in filter.values.value ==> !db.equal(x, Constant(db, column, v)))
    case Between =>
      var vs := filter.values.value;
      OnCell(cell, x => !db.less(x, Constant(db, column, vs[0])) && !db.less(Constant(db, column, vs[1]), x))
  }

  ghost function MeaningSingle(db: Db, schema: TableSchema, filter: TableFilter, row: Row): Truth
    requires AcceptableSingle(schema, filter)
  {
    MeaningOn(db, ColumnOf(schema, filter.column).value, filter, row)
  }

  ghost function Meaning(db: Db, schema: TableSchema, filter: Filter, row: Row): Truth
    requires Acceptable(schema, filter)
    decreases filter
  {
    match filter
    case Structured(f) => MeaningSingle(db, schema, f, row)
    case Shorthand(parsed) => MeaningSingle(db, schema, parsed.value, row)
    case Group(conj, disj) =>
      var list := if conj.Given? then conj.list else disj.list;
      var meanings := seq(|list|, i requires 0 <= i < |list| => Meaning(db, schema, list[i], row));
      if conj.Given? then Every(meanings) else Either(meanings)
  }
}
