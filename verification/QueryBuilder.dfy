/**
 The query builder itself (crates/summer-mcp/src/table_tools/query_builder.rs:132-345,
 487-635; schema.rs:712-741): clauses built left to right while parameters are pushed
 onto a shared vector. A clause is its list of tokens.
 */
module QueryBuilder {
  import opened Wrappers
  import opened SqlConditions
  import opened FilterSpec
  import opened UpdateSpec

  type Clause = Result<seq<Tok>, BuildError>

  // The parameter vector that the builders share.
  class Params {
    var values: seq<string>

    constructor ()
      ensures values == []
    {
      values := [];
    }

    method Push(value: string)
      modifies this
      ensures values == old(values) + [value]
    {
      values := values + [value];
    }
  }

  function Joined(clauses: seq<seq<Tok>>, joiner: Tok): seq<Tok> {
    if clauses == [] then []
    else if |clauses| == 1 then clauses[0]
    else clauses[0] + ([joiner] + Joined(clauses[1..], joiner))
  }

  function Printed(conds: seq<Cond>): seq<seq<Tok>> {
    seq(|conds|, i requires 0 <= i < |conds| => PrintCond(conds[i]))
  }

  lemma {:induction false} JoinedConds(conds: seq<Cond>, joiner: Tok)
    ensures Joined(Printed(conds), joiner) == PrintJoined(conds, joiner)
  {
    hide PrintCond;
    if |conds| > 1 {
      JoinedConds(conds[1..], joiner);
      assert Printed(conds)[1..] == Printed(conds[1..]);
    }
  }

  lemma {:induction false} JoinedOperands(expressions: seq<seq<Tok>>, items: seq<Operand>)
    requires |expressions| == |items|
    requires forall i :: 0 <= i < |items| ==> expressions[i] == PrintOperand(items[i])
    ensures Joined(expressions, Comma) == PrintOperands(items)
  {
    hide PrintOperand;
    if |items| > 1 {
      JoinedOperands(expressions[1..], items[1..]);
    }
  }

  // The emitted clause prints the specified condition and the vector grew by its parameters.
  predicate Emitted(clause: Clause, before: seq<string>, after: seq<string>, spec: Result<Built, BuildError>) {
    if spec.Err? then clause == Err(spec.error)
    else clause == Ok(PrintCond(spec.value.cond)) && after == before + spec.value.params
  }

  method BindCastValue(index: nat, column: ColumnSchema, value: Json, params: Params) returns (expression: seq<Tok>)
    modifies params
    ensures expression == PrintOperand(if value.JNull? then NullLiteral else CastParam(index, column.pgType))
    ensures params.values == old(params.values) +
              match value
              case JNull => []
              case JBool(true) => ["true"]
              case JBool(false) => ["false"]
              case JNumber(digits) => [digits]
              case JString(text) => [text]
              case JNested(json) => [json]
  {
    var bound := BoundText(value);
    if bound.None? {
      return [NullKw];
    }
    params.Push(bound.value);
    return [CastKw, LParen, Placeholder(index), AsKw, TypeName(column.pgType), RParen];
  }

  // The Eq and Ne branches.
  method EqualityClause(column: ColumnSchema, op: CmpOp, filter: TableFilter, params: Params) returns (clause: Clause)
    requires op == Equal || op == NotEqual
    modifies params
    ensures Emitted(clause, old(params.values), params.values,
              BuildEquality(column, op == NotEqual, filter, |old(params.values)|))
  {
    var value :- Single(filter);
    if value.JNull? {
      return Ok([Name(column.name)] + (if op == NotEqual then [IsKw, NotKw, NullKw] else [IsKw, NullKw]));
    }
    var placeholder := BindCastValue(|params.values| + 1, column, value, params);
    return Ok([Name(column.name)] + ([Op(op)] + placeholder));
  }

  method CompareClause(column: ColumnSchema, op: CmpOp, filter: TableFilter, params: Params) returns (clause: Clause)
    modifies params
    ensures Emitted(clause, old(params.values), params.values,
              BuildComparison(column, op, filter, |old(params.values)|))
  {
    var value :- Single(filter);
    if value.JNull? {
      return Err(NullOperand);
    }
    var placeholder := BindCastValue(|params.values| + 1, column, value, params);
    return Ok([Name(column.name)] + ([Op(op)] + placeholder));
  }

  method PatternClause(column: ColumnSchema, op: CmpOp, filter: TableFilter, params: Params) returns (clause: Clause)
    modifies params
    ensures Emitted(clause, old(params.values), params.values,
              BuildPattern(column, op, filter, |old(params.values)|))
  {
    var value :- Single(filter);
    if !value.JString? {
      return Err(PatternNotText);
    }
    params.Push(value.text);
    return Ok([CastKw, LParen, Name(column.name), AsKw, TypeName("text"), RParen]
        + ([Op(op)] + [Placeholder(|params.values|)]));
  }

  method BuildMultiValueExpressions(column: ColumnSchema, filter: TableFilter, params: Params)
    returns (expressions: Result<seq<seq<Tok>>, BuildError>)
    modifies params
    ensures var values := Several(filter);
            if values.Err? then expressions == Err(values.error)
            else if JNull in values.value then expressions == Err(NullInValues)
            else
              && expressions.Ok? && |expressions.value| == |values.value|
              && (forall i :: 0 <= i < |values.value| ==>
                    expressions.value[i] == PrintOperand(CastParams(column, |old(params.values)|, |values.value|)[i]))
              && params.values == old(params.values) + Texts(values.value)
  {
    var values :- Several(filter);
    var done: seq<seq<Tok>> := [];
    for i := 0 to |values|
      invariant JNull !in values[..i]
      invariant |done| == i
      invariant forall k :: 0 <= k < i ==>
                  done[k] == PrintOperand(CastParam(|old(params.values)| + k + 1, column.pgType))
      invariant params.values == old(params.values) + Texts(values[..i])
    {
      if values[i].JNull? {
        return Err(NullInValues);
      }
      var expression := BindCastValue(|params.values| + 1, column, values[i], params);
      done := done + [expression];
      assert Texts(values[..i + 1]) == Texts(values[..i]) + [TextOf(values[i])];
    }
    assert values[..|values|] == values;
    return Ok(done);
  }

  method MembershipClause(
      column: ColumnSchema, negated: bool, filter: TableFilter, params: Params) returns (clause: Clause)
    modifies params
    ensures Emitted(clause, old(params.values), params.values,
              BuildMembership(column, negated, filter, |old(params.values)|))
  {
    hide PrintOperands, CastParams, Texts;
    ghost var n := |params.values|;
    var expressions :- BuildMultiValueExpressions(column, filter, params);
    ghost var items := CastParams(column, n, |filter.values.value|);
    assert |items| == |filter.values.value| by { CastParamsLength(column, n, |filter.values.value|); }
    JoinedOperands(expressions, items);
    return Ok([Name(column.name)] + ((if negated then [NotKw, InKw, LParen] else [InKw, LParen])
                + (Joined(expressions, Comma) + [RParen])));
  }

  lemma CastParamsLength(column: ColumnSchema, n: nat, count: nat)
    ensures |CastParams(column, n, count)| == count
  {
  }

  method BetweenClause(column: ColumnSchema, filter: TableFilter, params: Params) returns (clause: Clause)
    modifies params
    ensures Emitted(clause, old(params.values), params.values, BuildRange(column, filter, |old(params.values)|))
  {
    var values :- Several(filter);
    if |values| != 2 {
      return Err(BetweenNeedsTwo);
    }
    if JNull in values {
      return Err(NullInBetween);
    }
    var low := BindCastValue(|params.values| + 1, column, values[0], params);
    var high := BindCastValue(|params.values| + 1, column, values[1], params);
    assert Texts(values) == [TextOf(values[0])] + [TextOf(values[1])];
    return Ok([Name(column.name)] + ([BetweenKw] + (low + ([AndKw] + high))));
  }

  method BuildFilterClause(column: ColumnSchema, filter: TableFilter, params: Params) returns (clause: Clause)
    modifies params
    ensures Emitted(clause, old(params.values), params.values, BuildOn(column, filter, |old(params.values)|))
  {
    hide BuildEquality, BuildComparison, BuildPattern, BuildMembership, BuildRange;
    match filter.op
    case Eq => clause := EqualityClause(column, Equal, filter, params);
    case Ne => clause := EqualityClause(column, NotEqual, filter, params);
    case Gt => clause := CompareClause(column, Greater, filter, params);
    case Gte => clause := CompareClause(column, GreaterEqual, filter, params);
    case Lt => clause := CompareClause(column, Less, filter, params);
    case Lte => clause := CompareClause(column, LessEqual, filter, params);
    case Like => clause := PatternClause(column, Matches, filter, params);
    case ILike => clause := PatternClause(column, MatchesNoCase, filter, params);
    case In => clause := MembershipClause(column, false, filter, params);
    case NotIn => clause := MembershipClause(column, true, filter, params);
    case Between => clause := BetweenClause(column, filter, params);
    case IsNull => clause := Ok([Name(column.name)] + [IsKw, NullKw]);
    case IsNotNull => clause := Ok([Name(column.name)] + [IsKw, NotKw, NullKw]);
  }

  method BuildSingleFilterClause(schema: TableSchema, filter: TableFilter, params: Params) returns (clause: Clause)
    modifies params
    ensures Emitted(clause, old(params.values), params.values, BuildSingle(schema, filter, |old(params.values)|))
  {
    hide BuildOn, IsIdentifier;
    if !IsIdentifier(filter.column) {
      return Err(InvalidIdentifier(filter.column));
    }
    var column := ColumnOf(schema, filter.column);
    if column.None? {
      return Err(UnknownColumn(filter.column));
    }
    if column.value.hiddenOnRead {
      return Err(HiddenColumn(filter.column));
    }
    clause := BuildFilterClause(column.value, filter, params);
  }

  method BuildFilterInputClause(schema: TableSchema, filter: Filter, params: Params) returns (clause: Clause)
    modifies params
    ensures Emitted(clause, old(params.values), params.values, Build(schema, filter, |old(params.values)|))
    decreases filter, 0
  {
    hide BuildSingle, BuildGroup;
    match filter
    case Structured(f) => clause := BuildSingleFilterClause(schema, f, params);
    case Shorthand(parsed) =>
      if parsed.None? {
        return Err(BadShorthand);
      }
      clause := BuildSingleFilterClause(schema, parsed.value, params);
    case Group(conj, disj) =>
      if conj.Given? && disj.Given? {
        return Err(BothAndOr);
      } else if conj.Given? {
        clause := BuildFilterGroupItems(schema, conj.list, true, params);
      } else if disj.Given? {
        clause := BuildFilterGroupItems(schema, disj.list, false, params);
      } else {
        return Err(NeitherAndOr);
      }
  }

  method BuildFilterGroupItems(schema: TableSchema, items: seq<Filter>, conjunction: bool, params: Params)
    returns (clause: Clause)
    modifies params
    ensures Emitted(clause, old(params.values), params.values,
            BuildGroup(schema, items, conjunction, |old(params.values)|))
    decreases items, 1
  {
    hide BuildList, Printed;
    if items == [] {
      return Err(EmptyGroup);
    }
    var clauses :- BuildEach(schema, items, params);
    ghost var conds := BuildList(schema, items, |old(params.values)|).value.conds;
    var joiner := if conjunction then AndKw else OrKw;
    assert |Printed(conds)| == |conds| && |conds| == |items| by { PrintedLength(conds); }
    JoinedConds(conds, joiner);
    if |clauses| == 1 {
      OnePrinted(conds);
      return Ok(clauses[0]);
    } else {
      return Ok([LParen] + (Joined(clauses, joiner) + [RParen]));
    }
  }

  lemma PrintedLength(conds: seq<Cond>)
    ensures |Printed(conds)| == |conds|
  {
  }

  lemma OnePrinted(conds: seq<Cond>)
    requires |conds| == 1
    ensures Printed(conds)[0] == PrintCond(conds[0])
  {
  }

  // The clauses of a list of filters, in order; the loop of the group builder and of the top level.
  method BuildEach(schema: TableSchema, items: seq<Filter>, params: Params)
    returns (clauses: Result<seq<seq<Tok>>, BuildError>)
    modifies params
    ensures var spec := BuildList(schema, items, |old(params.values)|);
            if spec.Err? then clauses == Err(spec.error)
            else clauses == Ok(Printed(spec.value.conds)) && params.values == old(params.values) + spec.value.params
    decreases items, 0
  {
    hide Build, PrintCond;
    var done: seq<seq<Tok>> := [];
    ghost var n, built := |params.values|, BuiltList([], []);
    AppendNothing(BuildList(schema, items, n));
    var i := 0;
    assert items[0..] == items;
    while i < |items|
      invariant 0 <= i <= |items|
      invariant done == Printed(built.conds)
      invariant params.values == old(params.values) + built.params
      invariant BuildList(schema, items, n) == Append(built, BuildList(schema, items[i..], n + |built.params|))
    {
      ghost var before := n + |built.params|;
      ghost var first := Build(schema, items[i], before);
      assert items[i..][0] == items[i] && items[i..][1..] == items[i + 1..];
      var clause :- BuildFilterInputClause(schema, items[i], params);
      done := done + [clause];
      AppendStep(built, first.value, BuildList(schema, items[i + 1..], before + |first.value.params|));
      PrintedStep(built.conds, first.value.cond);
      built := BuiltList(built.conds + [first.value.cond], built.params + first.value.params);
      i := i + 1;
    }
    assert items[i..] == [];
    AppendEmpty(built);
    return Ok(done);
  }

  ghost function Append(done: BuiltList, rest: Result<BuiltList, BuildError>): Result<BuiltList, BuildError> {
    if rest.Err? then rest
    else Ok(BuiltList(done.conds + rest.value.conds, done.params + rest.value.params))
  }

  lemma AppendNothing(rest: Result<BuiltList, BuildError>)
    ensures Append(BuiltList([], []), rest) == rest
  {
    if rest.Ok? {
      assert [] + rest.value.conds == rest.value.conds && [] + rest.value.params == rest.value.params;
    }
  }

  lemma AppendEmpty(done: BuiltList)
    ensures Append(done, Ok(BuiltList([], []))) == Ok(done)
  {
    assert done.conds + [] == done.conds && done.params + [] == done.params;
  }

  lemma AppendStep(done: BuiltList, first: Built, others: Result<BuiltList, BuildError>)
    ensures Append(done, if others.Err? then others
                   else Ok(BuiltList([first.cond] + others.value.conds, first.params + others.value.params))) ==
            Append(BuiltList(done.conds + [first.cond], done.params + first.params), others)
  {
    if others.Ok? {
      assert done.conds + ([first.cond] + others.value.conds) == done.conds + [first.cond] + others.value.conds;
      assert done.params + (first.params + others.value.params) == done.params + first.params + others.value.params;
    }
  }

  lemma PrintedStep(conds: seq<Cond>, cond: Cond)
    ensures Printed(conds + [cond]) == Printed(conds) + [PrintCond(cond)]
  {
  }

  // The WHERE clause of a query: nothing for no filters, else the clauses joined by AND.
  method BuildFiltersClause(schema: TableSchema, filters: Option<seq<Filter>>)
    returns (result: Result<(Option<seq<Tok>>, seq<string>), BuildError>)
    ensures var list := if filters.None? then [] else filters.value;
            var spec := BuildList(schema, list, 0);
            if spec.Err? then result == Err(spec.error)
            else result == Ok((if list == [] then None else Some(PrintJoined(spec.value.conds, AndKw)),
                spec.value.params))
  {
    if filters.None? {
      return Ok((None, []));
    }
    hide BuildList, Printed;
    var params := new Params();
    var clauses :- BuildEach(schema, filters.value, params);
    ghost var conds := BuildList(schema, filters.value, 0).value.conds;
    PrintedLength(conds);
    JoinedConds(conds, AndKw);
    assert params.values == BuildList(schema, filters.value, 0).value.params;
    if clauses == [] {
      return Ok((None, params.values));
    }
    return Ok((Some(Joined(clauses, AndKw)), params.values));
  }

  // ----- updates -----

  function PrintedAssignments(list: seq<Assignment>): seq<seq<Tok>> {
    seq(|list|, i requires 0 <= i < |list| => PrintAssignment(list[i]))
  }

  lemma {:induction false} JoinedAssignments(list: seq<Assignment>)
    ensures Joined(PrintedAssignments(list), Comma) == PrintAssignments(list)
  {
    hide PrintAssignment;
    if |list| > 1 {
      JoinedAssignments(list[1..]);
      assert PrintedAssignments(list)[1..] == PrintedAssignments(list[1..]);
    }
  }

  ghost function AppendAssignments(
      done: Assignments, rest: Result<Assignments, BuildError>): Result<Assignments, BuildError>
  {
    if rest.Err? then rest
    else Ok(Assignments(done.list + rest.value.list, done.params + rest.value.params))
  }

  lemma AssignmentsStep(
      done: Assignments, first: Assignment, params: seq<string>, others: Result<Assignments, BuildError>)
    ensures AppendAssignments(done, if others.Err? then others
                              else Ok(Assignments([first] + others.value.list, params + others.value.params))) ==
            AppendAssignments(Assignments(done.list + [first], done.params + params), others)
    ensures PrintedAssignments(done.list + [first]) == PrintedAssignments(done.list) + [PrintAssignment(first)]
  {
    if others.Ok? {
      assert done.list + ([first] + others.value.list) == done.list + [first] + others.value.list;
      assert done.params + (params + others.value.params) == done.params + params + others.value.params;
    }
  }

  lemma AssignmentsEnds(done: Assignments, rest: Result<Assignments, BuildError>)
    ensures AppendAssignments(done, Ok(Assignments([], []))) == Ok(done)
    ensures AppendAssignments(Assignments([], []), rest) == rest
  {
    assert done.list + [] == done.list && done.params + [] == done.params;
    if rest.Ok? {
      assert [] + rest.value.list == rest.value.list && [] + rest.value.params == rest.value.params;
    }
  }

  lemma BoundTexts(value: Json)
    ensures BoundParams(value) ==
              match value
              case JNull => []
              case JBool(true) => ["true"]
              case JBool(false) => ["false"]
              case JNumber(digits) => [digits]
              case JString(text) => [text]
              case JNested(json) => [json]
  {
  }

  method BuildUpdateAssignments(schema: TableSchema, values: JsonMap) returns (clause: Clause, params: Params)
    ensures fresh(params)
    ensures var spec := BuildUpdate(schema, values);
            if spec.Err? then clause == Err(spec.error)
            else clause == Ok(PrintAssignments(spec.value.list)) && params.values == spec.value.params
  {
    hide IsIdentifier, ColumnOf, PrintAssignment, PrintAssignments, Bound, BoundParams, PrintedAssignments,
        BuildAssignments;
    params := new Params();
    if values == [] {
      return Err(NoValues), params;
    }
    var assignments: seq<seq<Tok>> := [];
    ghost var built := Assignments([], []);
    AssignmentsEnds(built, BuildAssignments(schema, values, 0));
    assert PrintedAssignments([]) == [] by { NoAssignments(); }
    assert values[0..] == values;
    for i := 0 to |values|
      invariant assignments == PrintedAssignments(built.list)
      invariant params.values == built.params
      invariant BuildAssignments(schema, values, 0) ==
                AppendAssignments(built, BuildAssignments(schema, values[i..], |built.params|))
    {
      AssignmentStep(schema, values, i, |built.params|);
      var name := values[i].name;
      if !IsIdentifier(name) {
        return Err(InvalidIdentifier(name)), params;
      }
      var column := ColumnOf(schema, name);
      if column.None? {
        return Err(UnknownColumn(name)), params;
      }
      if !column.value.writableOnUpdate {
        return Err(NotWritable(name)), params;
      }
      var placeholder := BindCastValue(|params.values| + 1, column.value, values[i].value, params);
      ghost var first := Assignment(column.value.name, Bound(column.value, values[i].value, |built.params|));
      ghost var bound := BoundParams(values[i].value);
      BoundTexts(values[i].value);
      AssignmentsStep(built, first, bound, BuildAssignments(schema, values[i + 1..], |built.params| + |bound|));
      PrintsAssignment(column.value.name, column.value, values[i].value, |built.params|);
      assignments := assignments + [[Name(column.value.name), Op(Equal)] + placeholder];
      built := Assignments(built.list + [first], built.params + bound);
    }
    assert values[|values|..] == [];
    NothingAssigned(schema, |built.params|);
    AssignmentsEnds(built, Ok(built));
    JoinedAssignments(built.list);
    return Ok(Joined(assignments, Comma)), params;
  }

  lemma NothingAssigned(schema: TableSchema, n: nat)
    ensures BuildAssignments(schema, [], n) == Ok(Assignments([], []))
  {
  }

  lemma AssignmentStep(schema: TableSchema, values: JsonMap, i: nat, n: nat)
    requires i < |values|
    ensures BuildAssignments(schema, values[i..], n) ==
            var column := UpdateColumn(schema, values[i].name);
            if column.Err? then Err(column.error)
            else
              var params := BoundParams(values[i].value);
              var others := BuildAssignments(schema, values[i + 1..], n + |params|);
              if others.Err? then others
              else Ok(Assignments([Assignment(column.value.name, Bound(column.value, values[i].value, n))]
                  + others.value.list,
                                  params + others.value.params))
  {
    hide UpdateColumn, Bound, BoundParams;
    assert values[i..][0] == values[i] && values[i..][1..] == values[i + 1..];
  }

  lemma NoAssignments()
    ensures PrintedAssignments([]) == []
  {
  }

  lemma PrintsAssignment(name: string, column: ColumnSchema, value: Json, n: nat)
    ensures PrintAssignment(Assignment(name, Bound(column, value, n))) ==
            [Name(name), Op(Equal)]
            + PrintOperand(if value.JNull? then NullLiteral else CastParam(n + 1, column.pgType))
  {
  }

  method BuildKeyClause(schema: TableSchema, key: JsonMap, params: Params) returns (clause: Clause)
    modifies params
    ensures var spec := BuildKey(schema, key, |old(params.values)|);
            if spec.Err? then clause == Err(spec.error)
            else
              && clause == Ok(PrintJoined(spec.value.conds, AndKw))
              && params.values == old(params.values) + spec.value.params
  {
    hide PrimaryKey, Get, Printed, PrintCond, PrintJoined, BuildKeyParts, BuildCompare;
    var columns := PrimaryKey(schema);
    if columns == [] {
      return Err(NoPrimaryKey);
    }
    if |key| != |columns| {
      return Err(KeyFields);
    }
    var clauses: seq<seq<Tok>> := [];
    ghost var n, built := |params.values|, BuiltList([], []);
    AppendNothing(BuildKeyParts(columns, key, n));
    assert Printed([]) == [] by { PrintedLength([]); }
    assert columns[0..] == columns;
    for i := 0 to |columns|
      invariant clauses == Printed(built.conds)
      invariant |built.params| == i
      invariant params.values == old(params.values) + built.params
      invariant BuildKeyParts(columns, key, n) == Append(built, BuildKeyParts(columns[i..], key, n + i))
    {
      var column := columns[i];
      KeyStep(columns, i, key, n + i);
      var value := Get(key, column.name);
      if value.None? {
        return Err(KeyMissing(column.name));
      }
      if value.value.JNull? {
        return Err(KeyNull(column.name));
      }
      var placeholder := BindCastValue(|params.values| + 1, column, value.value, params);
      ghost var first := BuildCompare(column, Equal, value.value, n + i);
      AppendStep(built, first, BuildKeyParts(columns[i + 1..], key, n + i + 1));
      PrintedStep(built.conds, first.cond);
      PrintsKeyPart(column, value.value, n + i);
      clauses := clauses + [[Name(column.name)] + ([Op(Equal)] + placeholder)];
      built := BuiltList(built.conds + [first.cond], built.params + first.params);
    }
    assert columns[|columns|..] == [];
    NoKeyParts(key, n + |columns|);
    AppendEmpty(built);
    JoinedConds(built.conds, AndKw);
    return Ok(Joined(clauses, AndKw));
  }

  lemma NoKeyParts(key: JsonMap, n: nat)
    ensures BuildKeyParts([], key, n) == Ok(BuiltList([], []))
  {
  }

  lemma KeyStep(columns: seq<ColumnSchema>, i: nat, key: JsonMap, n: nat)
    requires i < |columns|
    ensures BuildKeyParts(columns[i..], key, n) ==
            var value := Get(key, columns[i].name);
            if value.None? then Err(KeyMissing(columns[i].name))
            else if value.value.JNull? then Err(KeyNull(columns[i].name))
            else
              var first := BuildCompare(columns[i], Equal, value.value, n);
              var others := BuildKeyParts(columns[i + 1..], key, n + 1);
              if others.Err? then others
              else Ok(BuiltList([first.cond] + others.value.conds, first.params + others.value.params))
    ensures forall value :: |BuildCompare(columns[i], Equal, value, n).params| == 1
  {
    hide Get, BuildCompare;
    assert columns[i..][0] == columns[i] && columns[i..][1..] == columns[i + 1..];
    assert forall value :: |BuildCompare(columns[i], Equal, value, n).params| == 1 by {
      ComparesBindOne(columns[i], n);
    }
  }

  lemma ComparesBindOne(column: ColumnSchema, n: nat)
    ensures forall value :: |BuildCompare(column, Equal, value, n).params| == 1
  {
  }

  lemma PrintsKeyPart(column: ColumnSchema, value: Json, n: nat)
    requires !value.JNull?
    ensures PrintCond(BuildCompare(column, Equal, value, n).cond) ==
            [Name(column.name)] + ([Op(Equal)] + PrintOperand(Bound(column, value, n)))
    ensures BuildCompare(column, Equal, value, n).params == BoundParams(value)
  {
  }
}
