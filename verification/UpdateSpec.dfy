/**
 Updates of the table tools (crates/summer-mcp/src/table_tools/query_builder.rs:132-229):
 assignments followed by a key clause that continues the numbering of the parameters.
 */
module UpdateSpec {
  import opened Counting
  import opened Wrappers
  import opened SqlConditions
  import opened FilterSpec
  import opened FilterLaws

  // A JSON object, in the order of its keys.
  datatype Entry = Entry(name: string, value: Json)
  type JsonMap = seq<Entry>

  datatype Assignment = Assignment(column: string, value: Operand)
  datatype Assignments = Assignments(list: seq<Assignment>, params: seq<string>)

  function Get(entries: JsonMap, name: string): (value: Option<Json>)
    ensures value.Some? ==> Entry(name, value.value) in entries
    ensures value.None? ==> forall entry :: entry in entries ==> entry.name != name
  {
    if entries == [] then None
    else if entries[0].name == name then Some(entries[0].value)
    else Get(entries[1..], name)
  }

  function PrimaryKey(schema: TableSchema): (columns: seq<ColumnSchema>)
    ensures forall column :: column in columns <==> column in schema && column.primaryKey
  {
    if schema == [] then []
    else (if schema[0].primaryKey then [schema[0]] else []) + PrimaryKey(schema[1..])
  }

  function PrintAssignment(a: Assignment): seq<Tok> { [Name(a.column), Op(Equal)] + PrintOperand(a.value) }

  function PrintAssignments(list: seq<Assignment>): seq<Tok> {
    if list == [] then []
    else if |list| == 1 then PrintAssignment(list[0])
    else PrintAssignment(list[0]) + ([Comma] + PrintAssignments(list[1..]))
  }

  function UpdateColumn(schema: TableSchema, name: string): Result<ColumnSchema, BuildError> {
    if !IsIdentifier(name) then Err(InvalidIdentifier(name))
    else
      var column := ColumnOf(schema, name);
      if column.None? then Err(UnknownColumn(name))
      else if !column.value.writableOnUpdate then Err(NotWritable(name))
      else Ok(column.value)
  }

  // The expression and the parameters that a value is bound to.
  function Bound(column: ColumnSchema, value: Json, n: nat): Operand {
    if value.JNull? then NullLiteral else CastParam(n + 1, column.pgType)
  }

  function BoundParams(value: Json): seq<string> { if value.JNull? then [] else [TextOf(value)] }

  function BuildAssignments(schema: TableSchema, values: JsonMap, n: nat): Result<Assignments, BuildError> {
    if values == [] then Ok(Assignments([], []))
    else
      var column := UpdateColumn(schema, values[0].name);
      if column.Err? then Err(column.error)
      else
        var params := BoundParams(values[0].value);
        var others := BuildAssignments(schema, values[1..], n + |params|);
        if others.Err? then others
        else Ok(Assignments([Assignment(column.value.name, Bound(column.value, values[0].value, n))]
            + others.value.list,
                            params + others.value.params))
  }

  function BuildUpdate(schema: TableSchema, values: JsonMap): Result<Assignments, BuildError> {
    if values == [] then Err(NoValues) else BuildAssignments(schema, values, 0)
  }

  function KeyValue(column: ColumnSchema, key: JsonMap): Result<Json, BuildError> {
    var value := Get(key, column.name);
    if value.None? then Err(KeyMissing(column.name))
    else if value.value.JNull? then Err(KeyNull(column.name))
    else Ok(value.value)
  }

  function BuildKeyParts(columns: seq<ColumnSchema>, key: JsonMap, n: nat): (r: Result<BuiltList, BuildError>)
    ensures r.Ok? ==> |r.value.conds| == |r.value.params| == |columns|
  {
    if columns == [] then Ok(BuiltList([], []))
    else
      var value := KeyValue(columns[0], key);
      if value.Err? then Err(value.error)
      else
        var first := BuildCompare(columns[0], Equal, value.value, n);
        var others := BuildKeyParts(columns[1..], key, n + 1);
        if others.Err? then others
        else Ok(BuiltList([first.cond] + others.value.conds, first.params + others.value.params))
  }

  function BuildKey(schema: TableSchema, key: JsonMap, n: nat): Result<BuiltList, BuildError> {
    var columns := PrimaryKey(schema);
    if columns == [] then Err(NoPrimaryKey)
    else if |key| != |columns| then Err(KeyFields)
    else BuildKeyParts(columns, key, n)
  }

  // ----- which updates are accepted -----

  ghost predicate Writable(schema: TableSchema, name: string) {
    IsPlainName(name) && ColumnOf(schema, name).Some? && ColumnOf(schema, name).value.writableOnUpdate
  }

  lemma {:induction false} UpdateAcceptedIff(schema: TableSchema, values: JsonMap, n: nat)
    ensures BuildAssignments(schema, values, n).Ok? <==>
            forall entry :: entry in values ==> Writable(schema, entry.name)
    ensures BuildUpdate(schema, values).Ok? <==>
            values != [] && forall entry :: entry in values ==> Writable(schema, entry.name)
    decreases |values|
  {
    hide IsIdentifier, IsPlainName, ColumnOf, Bound, BoundParams;
    if values != [] {
      IdentifierIff(values[0].name);
      UpdateAcceptedIff(schema, values[1..], n + |BoundParams(values[0].value)|);
      UpdateAcceptedIff(schema, values[1..], |BoundParams(values[0].value)|);
      assert values == [values[0]] + values[1..];
    }
  }

  // The first entry that may not be written.
  ghost predicate IsFirstBad(schema: TableSchema, values: JsonMap, name: string) {
    exists i :: 0 <= i < |values| && values[i].name == name && !Writable(schema, name)
                && forall j :: 0 <= j < i ==> Writable(schema, values[j].name)
  }

  lemma IsFirstBadLater(schema: TableSchema, values: JsonMap, name: string)
    requires values != [] && Writable(schema, values[0].name) && IsFirstBad(schema, values[1..], name)
    ensures IsFirstBad(schema, values, name)
  {
    hide Writable;
    var i :| 0 <= i < |values[1..]| && values[1..][i].name == name && !Writable(schema, name)
      && forall j :: 0 <= j < i ==> Writable(schema, values[1..][j].name);
    assert values[i + 1].name == name;
    assert forall j :: 0 < j < i + 1 ==> values[j] == values[1..][j - 1];
  }

  // A refused update names its first entry that may not be written, and why.
  lemma {:induction false} WhyAssignmentsRefused(schema: TableSchema, values: JsonMap, n: nat)
    ensures match BuildAssignments(schema, values, n)
            case Ok(_) => true
            case Err(InvalidIdentifier(name)) => IsFirstBad(schema, values, name) && !IsPlainName(name)
            case Err(UnknownColumn(name)) =>
              IsFirstBad(schema, values, name) && forall column :: column in schema ==> column.name != name
            case Err(NotWritable(name)) =>
              && IsFirstBad(schema, values, name)
              && exists column :: column in schema && column.name == name && !column.writableOnUpdate
            case Err(_) => false
    ensures BuildUpdate(schema, values) == (if values == [] then Err(NoValues) else BuildAssignments(schema, values, 0))
    decreases |values|
  {
    if values != [] {
      var name, later := values[0].name, n + |BoundParams(values[0].value)|;
      IdentifierIff(name);
      hide IsIdentifier, IsPlainName, BoundParams;
      WhyAssignmentsRefused(schema, values[1..], later);
      if Writable(schema, name) {
        var rest := BuildAssignments(schema, values[1..], later);
        if rest.Err? {
          var bad := match rest.error
            case InvalidIdentifier(other) => other
            case UnknownColumn(other) => other
            case NotWritable(other) => other
            case _ => "";
          IsFirstBadLater(schema, values, bad);
        }
      } else {
        assert values[0].name == name;
      }
    }
  }

  predicate KeyGives(columns: seq<ColumnSchema>, key: JsonMap) {
    forall column :: column in columns ==> Get(key, column.name).Some? && !Get(key, column.name).value.JNull?
  }

  lemma {:induction false} KeyPartsAcceptedIff(columns: seq<ColumnSchema>, key: JsonMap, n: nat)
    ensures BuildKeyParts(columns, key, n).Ok? <==> KeyGives(columns, key)
  {
    hide Get;
    if columns != [] {
      KeyPartsAcceptedIff(columns[1..], key, n + 1);
      assert columns == [columns[0]] + columns[1..];
    }
  }

  lemma KeyAcceptedIff(schema: TableSchema, key: JsonMap, n: nat)
    ensures BuildKey(schema, key, n).Ok? <==>
            PrimaryKey(schema) != [] && |key| == |PrimaryKey(schema)| && KeyGives(PrimaryKey(schema), key)
  {
    KeyPartsAcceptedIff(PrimaryKey(schema), key, n);
  }

  lemma {:induction false} WhyKeyPartsRefused(columns: seq<ColumnSchema>, key: JsonMap, n: nat)
    ensures match BuildKeyParts(columns, key, n)
            case Ok(_) => true
            case Err(KeyMissing(name)) => name in ColumnNames(columns) && name !in NamesOf(key)
            case Err(KeyNull(name)) => name in ColumnNames(columns) && Entry(name, JNull) in key
            case Err(_) => false
  {
    hide Get;
    if columns != [] {
      WhyKeyPartsRefused(columns[1..], key, n + 1);
      assert ColumnNames(columns) == [columns[0].name] + ColumnNames(columns[1..]);
      assert forall name :: name in NamesOf(key) ==> exists i :: 0 <= i < |key| && key[i].name == name;
    }
  }

  // A refused key: the table has no primary key, the sizes differ, or the named column is missing or null.
  lemma WhyKeyRefused(schema: TableSchema, key: JsonMap, n: nat)
    ensures var columns := PrimaryKey(schema);
            match BuildKey(schema, key, n)
            case Ok(_) => true
            case Err(NoPrimaryKey) => forall column :: column in schema ==> !column.primaryKey
            case Err(KeyFields) => |key| != |columns|
            case Err(KeyMissing(name)) => name in ColumnNames(columns) && name !in NamesOf(key)
            case Err(KeyNull(name)) => name in ColumnNames(columns) && Entry(name, JNull) in key
            case Err(_) => false
  {
    WhyKeyPartsRefused(PrimaryKey(schema), key, n);
    hide BuildKeyParts, ColumnNames, NamesOf;
  }

  function NamesOf(key: JsonMap): seq<string> { seq(|key|, i requires 0 <= i < |key| => key[i].name) }

  function ColumnNames(columns: seq<ColumnSchema>): seq<string> {
    seq(|columns|, i requires 0 <= i < |columns| => columns[i].name)
  }

  lemma KeyColumnIsGiven(columns: seq<ColumnSchema>, key: JsonMap, name: string)
    requires KeyGives(columns, key) && name in ColumnNames(columns)
    ensures name in NamesOf(key)
  {
    hide Get;
    var i :| 0 <= i < |columns| && ColumnNames(columns)[i] == name;
    assert columns[i] in columns;
    var j :| 0 <= j < |key| && key[j] == Entry(name, Get(key, name).value);
    assert NamesOf(key)[j] == name;
  }

  // An accepted key names the primary key columns and nothing else.
  lemma KeyNamesExactly(schema: TableSchema, key: JsonMap, n: nat, name: string)
    requires BuildKey(schema, key, n).Ok?
    requires Distinct(NamesOf(key)) && Distinct(ColumnNames(PrimaryKey(schema)))
    ensures name in NamesOf(key) <==> name in ColumnNames(PrimaryKey(schema))
  {
    hide BuildKey, KeyGives, PrimaryKey, Distinct;
    var columns := PrimaryKey(schema);
    KeyAcceptedIff(schema, key, n);
    var given := set x | x in NamesOf(key);
    var wanted := set x | x in ColumnNames(columns);
    DistinctCount(NamesOf(key), given);
    DistinctCount(ColumnNames(columns), wanted);
    forall x | x in wanted
      ensures x in given
    {
      KeyColumnIsGiven(columns, key, x);
    }
    SubsetOfSameSize(wanted, given);
    assert name in given <==> name in wanted;
  }

  // ----- numbering -----

  lemma CountNothing(first: nat)
    ensures CountFrom(first, 0) == []
  {
  }

  lemma OneAssignmentNumbers(name: string, column: ColumnSchema, value: Json, n: nat)
    ensures Placeholders(PrintAssignment(Assignment(name, Bound(column, value, n))))
            == CountFrom(n + 1, |BoundParams(value)|)
  {
    hide Placeholders;
    var bound := Bound(column, value, n);
    SilentBefore([Name(name), Op(Equal)], PrintOperand(bound));
    OperandPlaceholders(bound);
    assert CountFrom(n + 1, 1) == [n + 1];
  }

  lemma {:induction false} AssignmentNumbers(schema: TableSchema, values: JsonMap, n: nat)
    requires BuildAssignments(schema, values, n).Ok?
    ensures var b := BuildAssignments(schema, values, n).value;
            Placeholders(PrintAssignments(b.list)) == CountFrom(n + 1, |b.params|)
    decreases |values|
  {
    hide Placeholders, UpdateColumn, PrintAssignment, BoundParams, CountFrom;
    if values == [] {
      Silent([]);
      assert CountFrom(n + 1, 0) == [] by { CountNothing(n + 1); }
      assert PrintAssignments([]) == [];
      assert BuildAssignments(schema, [], n) == Ok(Assignments([], []));
    } else {
      var params := BoundParams(values[0].value);
      var b := BuildAssignments(schema, values, n).value;
      var others := BuildAssignments(schema, values[1..], n + |params|).value;
      AssignmentNumbers(schema, values[1..], n + |params|);
      var first := b.list[0];
      OneAssignmentNumbers(first.column, UpdateColumn(schema, values[0].name).value, values[0].value, n);
      assert b.list[1..] == others.list;
      CountAppend(n + 1, |params|, |others.params|);
      if |b.list| == 1 {
        assert others.list == [] && PrintAssignments(others.list) == [];
        Silent([]);
        assert CountFrom(n + 1 + |params|, |others.params|) == [];
      } else {
        PlaceholdersAppend(PrintAssignment(first), [Comma] + PrintAssignments(others.list));
        SilentBefore([Comma], PrintAssignments(others.list));
      }
    }
  }

  lemma {:induction false} KeyNumbers(columns: seq<ColumnSchema>, key: JsonMap, n: nat)
    requires BuildKeyParts(columns, key, n).Ok?
    ensures var b := BuildKeyParts(columns, key, n).value;
            Placeholders(PrintJoined(b.conds, AndKw)) == CountFrom(n + 1, |b.params|)
  {
    hide Placeholders, KeyValue, PrintPred;
    if columns == [] {
      Silent([]);
    } else {
      var b := BuildKeyParts(columns, key, n).value;
      var others := BuildKeyParts(columns[1..], key, n + 1).value;
      KeyNumbers(columns[1..], key, n + 1);
      ComparePlaceholders(Column(columns[0].name), Equal, CastParam(n + 1, columns[0].pgType));
      assert b.conds[1..] == others.conds;
      CountAppend(n + 1, 1, |others.params|);
      assert CountFrom(n + 1, 1) == [n + 1];
      if |b.conds| == 1 {
        assert others.conds == [] && PrintJoined(others.conds, AndKw) == [];
      } else {
        PlaceholdersAppend(PrintCond(b.conds[0]), [AndKw] + PrintJoined(others.conds, AndKw));
        SilentBefore([AndKw], PrintJoined(others.conds, AndKw));
      }
    }
  }

  // ----- meaning -----

  // The value an entry asks for.
  ghost function Wanted(db: Db, schema: TableSchema, entry: Entry): Option<Val>
    requires ColumnOf(schema, entry.name).Some?
  {
    if entry.value.JNull? then None else Some(Constant(db, ColumnOf(schema, entry.name).value, entry.value))
  }

  lemma {:induction false} AssignmentsMean(
      db: Db, schema: TableSchema, values: JsonMap, n: nat, row: Row, params: seq<string>, i: nat)
    requires BuildAssignments(schema, values, n).Ok? && i < |values|
    requires Supplies(params, n, BuildAssignments(schema, values, n).value.params)
    ensures |BuildAssignments(schema, values, n).value.list| == |values|
    ensures ColumnOf(schema, values[i].name).Some?
    ensures var a := BuildAssignments(schema, values, n).value.list[i];
            a.column == values[i].name && EvalOperand(db, a.value, row, params) == Wanted(db, schema, values[i])
    decreases |values|
  {
    hide ColumnOf, IsIdentifier, Supplies;
    AssignmentsLength(schema, values, n);
    var bound := BoundParams(values[0].value);
    var others := BuildAssignments(schema, values[1..], n + |bound|).value;
    SuppliesBoth(params, n, bound, others.params);
    if i > 0 {
      AssignmentsMean(db, schema, values[1..], n + |bound|, row, params, i - 1);
    } else if !values[0].value.JNull? {
      SuppliesAt(params, n, bound, 0);
      assert n < |params| by { assert Supplies(params, n, bound); SuppliesLength(params, n, bound); }
    }
  }

  lemma SuppliesLength(params: seq<string>, n: nat, ps: seq<string>)
    requires Supplies(params, n, ps)
    ensures n + |ps| <= |params|
  {
  }

  lemma {:induction false} AssignmentsLength(schema: TableSchema, values: JsonMap, n: nat)
    requires BuildAssignments(schema, values, n).Ok?
    ensures |BuildAssignments(schema, values, n).value.list| == |values|
    decreases |values|
  {
    hide UpdateColumn;
    if values != [] {
      AssignmentsLength(schema, values[1..], n + |BoundParams(values[0].value)|);
    }
  }

  // A row carries the key.
  ghost predicate HasKey(db: Db, columns: seq<ColumnSchema>, key: JsonMap, row: Row)
    requires KeyGives(columns, key)
  {
    forall column :: column in columns ==>
      row(column.name).Some? && db.equal(row(column.name).value, Constant(db, column, Get(key, column.name).value))
  }

  lemma NothingHolds()
    ensures Every([]) == True
  {
  }

  lemma ConjunctionSplits(first: Truth, others: seq<Truth>)
    ensures Every([first] + others) == True <==> first == True && Every(others) == True
  {
    assert ([first] + others)[1..] == others;
  }

  lemma {:induction false} KeyPartsMean(
      db: Db, columns: seq<ColumnSchema>, key: JsonMap, n: nat, row: Row, params: seq<string>)
    requires BuildKeyParts(columns, key, n).Ok? && KeyGives(columns, key)
    requires Supplies(params, n, BuildKeyParts(columns, key, n).value.params)
    ensures Every(EvalAll(db, BuildKeyParts(columns, key, n).value.conds, row, params)) == True
            <==> HasKey(db, columns, key, row)
  {
    hide Supplies, Constant, Get, Eval, Every;
    if columns == [] {
      assert Every([]) == True by { NothingHolds(); }
    } else {
      var b := BuildKeyParts(columns, key, n).value;
      var value := Get(key, columns[0].name).value;
      assert columns[0] in columns;
      var others := BuildKeyParts(columns[1..], key, n + 1).value;
      SuppliesBoth(params, n, [TextOf(value)], others.params);
      CompareMeans(db, columns[0], Equal, value, n, row, params);
      KeyPartsMean(db, columns[1..], key, n + 1, row, params);
      assert columns == [columns[0]] + columns[1..];
      assert b.conds[1..] == others.conds;
      ConjunctionSplits(Eval(db, b.conds[0], row, params), EvalAll(db, others.conds, row, params));
      assert EvalAll(db, b.conds, row, params) == [Eval(db, b.conds[0], row, params)]
          + EvalAll(db, others.conds, row, params);
    }
  }

  lemma {:induction false} KeyPartsCanonical(columns: seq<ColumnSchema>, key: JsonMap, n: nat)
    requires BuildKeyParts(columns, key, n).Ok?
    ensures forall cond :: cond in BuildKeyParts(columns, key, n).value.conds ==> Canonical(cond)
  {
    hide KeyValue;
    if columns != [] {
      KeyPartsCanonical(columns[1..], key, n + 1);
    }
  }

  // An accepted update binds $1..$n in reading order across its assignments and its key
  // clause, gives every column the value its entry asks for, and reaches exactly the rows
  // that carry the key.
  lemma UpdateKeepsMeaning(db: Db, schema: TableSchema, values: JsonMap, key: JsonMap, row: Row)
    requires BuildUpdate(schema, values).Ok?
    requires BuildKey(schema, key, |BuildUpdate(schema, values).value.params|).Ok?
    ensures var written := BuildUpdate(schema, values).value;
            var picked := BuildKey(schema, key, |written.params|).value;
            var params := written.params + picked.params;
            var condition := PrintJoined(picked.conds, AndKw);
            && Placeholders(PrintAssignments(written.list)) + Placeholders(condition) == CountFrom(1, |params|)
            && |written.list| == |values|
            && (forall i :: 0 <= i < |values| ==>
                  && ColumnOf(schema, values[i].name).Some?
                  && written.list[i].column == values[i].name
                  && EvalOperand(db, written.list[i].value, row, params) == Wanted(db, schema, values[i]))
            && KeyGives(PrimaryKey(schema), key)
            && Parse(condition).Some?
            && (Eval(db, Parse(condition).value, row, params) == True <==> HasKey(db, PrimaryKey(schema), key, row))
  {
    hide BuildAssignments, BuildKeyParts, Placeholders, PrintJoined, PrintAssignments, Parse, Eval, Every, HasKey,
      KeyGives, Canonical, ColumnOf, Wanted, EvalOperand, CountFrom, AllOf;
    var written := BuildUpdate(schema, values).value;
    var n := |written.params|;
    var columns := PrimaryKey(schema);
    var picked := BuildKey(schema, key, n).value;
    var params := written.params + picked.params;
    AssignmentNumbers(schema, values, 0);
    KeyNumbers(columns, key, n);
    CountAppend(1, n, |picked.params|);
    AssignmentsLength(schema, values, 0);
    assert Supplies(params, 0, written.params) && Supplies(params, n, picked.params);
    forall i | 0 <= i < |values|
      ensures ColumnOf(schema, values[i].name).Some? && written.list[i].column == values[i].name
      ensures EvalOperand(db, written.list[i].value, row, params) == Wanted(db, schema, values[i])
    {
      AssignmentsMean(db, schema, values, 0, row, params, i);
    }
    KeyPartsAcceptedIff(columns, key, n);
    KeyPartsCanonical(columns, key, n);
    ClausesParse(picked.conds);
    GroupValue(db, picked.conds, row, params);
    KeyPartsMean(db, columns, key, n, row, params);
  }
}
