/**
 The filter compiler preserves meaning: the emitted clause reads back as the
 filter tree, its value on every row is the filter's own meaning, and its
 placeholders are $1, $2, ... in reading order.
 */
module FilterLaws {
  import opened Wrappers
  import opened SqlConditions
  import opened FilterSpec

  // ----- which filters are accepted -----

  lemma SingleAcceptedIff(schema: TableSchema, filter: TableFilter, n: nat)
    ensures BuildSingle(schema, filter, n).Ok? <==> AcceptableSingle(schema, filter)
  {
    IdentifierIff(filter.column);
    hide ColumnOf, IsIdentifier, IsPlainName, Texts, CastParams, BuildCompare;
  }

  // Each refusal of a single filter names what is wrong with it.
  lemma WhyRefused(schema: TableSchema, filter: TableFilter, n: nat)
    ensures var value, values := filter.value, filter.values;
            match BuildSingle(schema, filter, n)
            case Ok(_) => true
            case Err(InvalidIdentifier(name)) => name == filter.column && !IsPlainName(name)
            case Err(UnknownColumn(name)) =>
              name == filter.column && forall column :: column in schema ==> column.name != name
            case Err(HiddenColumn(name)) =>
              name == filter.column && exists column :: column in schema && column.name == name && column.hiddenOnRead
            case Err(ValueRequired) => value.None?
            case Err(NullOperand) =>
              value == Some(JNull) && (filter.op.Gt? || filter.op.Gte? || filter.op.Lt? || filter.op.Lte?)
            case Err(PatternNotText) => value.Some? && !value.value.JString? && (filter.op.Like? || filter.op.ILike?)
            case Err(ValuesRequired) => values.None?
            case Err(ValuesEmpty) => values == Some([])
            case Err(NullInValues) => values.Some? && JNull in values.value && (filter.op.In? || filter.op.NotIn?)
            case Err(BetweenNeedsTwo) => values.Some? && values.value != [] && |values.value| != 2 && filter.op.Between?
            case Err(NullInBetween) =>
              values.Some? && |values.value| == 2 && JNull in values.value && filter.op.Between?
            case Err(_) => false
  {
    IdentifierIff(filter.column);
    hide ColumnOf, IsIdentifier, IsPlainName, Texts, CastParams, BuildCompare;
  }

  // A filter that is no single one is refused for its shape, or as its items are.
  lemma WhyGroupRefused(schema: TableSchema, filter: Filter, n: nat)
    requires !filter.Structured?
    ensures filter == Shorthand(None) ==> Build(schema, filter, n) == Err(BadShorthand)
    ensures filter.Group? ==>
              var conj, disj, built := filter.conj, filter.disj, Build(schema, filter, n);
              if conj.Given? && disj.Given? then built == Err(BothAndOr)
              else if conj.Given? then SameOutcome(built, BuildList(schema, conj.list, n), conj.list)
              else if disj.Given? then SameOutcome(built, BuildList(schema, disj.list, n), disj.list)
              else built == Err(NeitherAndOr)
  {
    hide BuildList;
  }

  predicate SameOutcome(group: Result<Built, BuildError>, items: Result<BuiltList, BuildError>, list: seq<Filter>) {
    if list == [] then group == Err(EmptyGroup)
    else if items.Err? then group == Err(items.error)
    else group.Ok? && group.value.params == items.value.params
  }

  lemma {:induction false} AcceptedIff(schema: TableSchema, filter: Filter, n: nat)
    ensures Build(schema, filter, n).Ok? <==> Acceptable(schema, filter)
    decreases filter, 1
  {
    hide BuildSingle, AcceptableSingle, BuildList;
    match filter
    case Structured(f) => SingleAcceptedIff(schema, f, n);
    case Shorthand(parsed) => if parsed.Some? { SingleAcceptedIff(schema, parsed.value, n); }
    case Group(conj, disj) =>
      if conj.Given? { ListAcceptedIff(schema, conj.list, n); }
      if disj.Given? { ListAcceptedIff(schema, disj.list, n); }
  }

  lemma {:induction false} ListAcceptedIff(schema: TableSchema, items: seq<Filter>, n: nat)
    ensures BuildList(schema, items, n).Ok? <==> forall item :: item in items ==> Acceptable(schema, item)
    decreases items, 0
  {
    hide Build, Acceptable;
    if items != [] {
      AcceptedIff(schema, items[0], n);
      assert items == [items[0]] + items[1..];
      var first := Build(schema, items[0], n);
      if first.Ok? {
        ListAcceptedIff(schema, items[1..], n + |first.value.params|);
      }
    }
  }

  // ----- the text reads back as the tree -----

  lemma {:induction false} BuildIsCanonical(schema: TableSchema, filter: Filter, n: nat)
    requires Build(schema, filter, n).Ok?
    ensures Canonical(Build(schema, filter, n).value.cond)
    decreases filter, 1
  {
    hide BuildList, ColumnOf, IsIdentifier;
    match filter
    case Structured(f) =>
    case Shorthand(parsed) =>
    case Group(conj, disj) => ListIsCanonical(schema, if conj.Given? then conj.list else disj.list, n);
  }

  lemma {:induction false} ListIsCanonical(schema: TableSchema, items: seq<Filter>, n: nat)
    requires BuildList(schema, items, n).Ok?
    ensures forall cond :: cond in BuildList(schema, items, n).value.conds ==> Canonical(cond)
    decreases items, 0
  {
    hide Build, Canonical;
    if items != [] {
      BuildIsCanonical(schema, items[0], n);
      ListIsCanonical(schema, items[1..], n + |Build(schema, items[0], n).value.params|);
    }
  }

  // ----- the value on a row is the filter's own meaning -----

  // From position n on, the parameter vector holds ps.
  predicate Supplies(params: seq<string>, n: nat, ps: seq<string>) {
    n + |ps| <= |params| && params[n..n + |ps|] == ps
  }

  lemma SuppliesBoth(params: seq<string>, n: nat, a: seq<string>, b: seq<string>)
    requires Supplies(params, n, a + b)
    ensures Supplies(params, n, a) && Supplies(params, n + |a|, b)
  {
    assert params[n..n + |a|] == params[n..n + |a + b|][..|a|];
    assert params[n + |a|..n + |a| + |b|] == params[n..n + |a + b|][|a|..];
  }

  lemma SuppliesAt(params: seq<string>, n: nat, ps: seq<string>, i: nat)
    requires Supplies(params, n, ps) && i < |ps|
    ensures params[n + i] == ps[i]
  {
    assert params[n + i] == params[n..n + |ps|][i];
  }

  // What is pushed for a value is its plain text.
  lemma TextIsPlain(value: Json)
    ensures TextOf(value) == PlainText(value)
  {
  }

  lemma CompareMeans(db: Db, column: ColumnSchema, op: CmpOp, value: Json, n: nat, row: Row, params: seq<string>)
    requires Supplies(params, n, [TextOf(value)])
    ensures Eval(db, BuildCompare(column, op, value, n).cond, row, params) ==
            OnCell(row(column.name), x => Holds(db, op, x, Constant(db, column, value)))
  {
    hide Holds, TextOf, PlainText;
    TextIsPlain(value);
    SuppliesAt(params, n, [TextOf(value)], 0);
  }

  lemma PatternMeans(db: Db, column: ColumnSchema, op: CmpOp, text: string, n: nat, row: Row, params: seq<string>)
    requires Supplies(params, n, [text])
    ensures Eval(db, Atom(Compare(CastColumn(column.name, "text"), op, Param(n + 1))), row, params) ==
            OnCell(row(column.name), x => Holds(db, op, db.cast("text", x), db.plain(text)))
  {
    hide Holds;
    SuppliesAt(params, n, [text], 0);
  }

  lemma MemberMeans(
      db: Db, column: ColumnSchema, negated: bool, values: seq<Json>, n: nat, row: Row, params: seq<string>)
    requires Supplies(params, n, Texts(values)) && values != []
    ensures Eval(db, Atom(InList(Column(column.name), negated, CastParams(column, n, |values|))), row, params) ==
            if negated
            then OnCell(row(column.name), x => forall v :: v in values ==> !db.equal(x, Constant(db, column, v)))
            else OnCell(row(column.name), x => exists v :: v in values && db.equal(x, Constant(db, column, v)))
  {
    var items := CastParams(column, n, |values|);
    var cell := row(column.name);
    var ts := seq(|items|, i requires 0 <= i < |items| =>
      EvalCompare(db, Equal, cell, EvalOperand(db, items[i], row, params)));
    forall i | 0 <= i < |values|
      ensures ts[i] == if cell.None? then Unknown else FromBool(db.equal(cell.value, Constant(db, column, values[i])))
    {
      TextIsPlain(values[i]);
      SuppliesAt(params, n, Texts(values), i);
    }
    if cell.None? {
      assert ts[0] == Unknown && Unknown in ts;
      assert True !in ts;
    } else {
      assert Unknown !in ts;
      assert (True in ts) == exists v :: v in values && db.equal(cell.value, Constant(db, column, v)) by {
        if v :| v in values && db.equal(cell.value, Constant(db, column, v)) {
          var i :| 0 <= i < |values| && values[i] == v;
          assert ts[i] == True;
        }
      }
    }
    assert Eval(db, Atom(InList(Column(column.name), negated, items)), row, params) ==
           if negated then Not(Disjunction(ts)) else Disjunction(ts);
  }

  lemma Both(a: Truth, b: Truth)
    ensures Conjunction([a, b]) ==
            if a == False || b == False then False else if a == Unknown || b == Unknown then Unknown else True
  {
    assert forall t :: t in [a, b] <==> t == a || t == b;
  }

  lemma RangeMeans(db: Db, column: ColumnSchema, values: seq<Json>, n: nat, row: Row, params: seq<string>)
    requires |values| == 2 && Supplies(params, n, Texts(values))
    ensures var low, high := CastParam(n + 1, column.pgType), CastParam(n + 2, column.pgType);
            Eval(db, Atom(SqlConditions.Between(Column(column.name), low, high)), row, params) ==
            OnCell(
              row(column.name),
              x => !db.less(x, Constant(db, column, values[0])) && !db.less(Constant(db, column, values[1]), x))
  {
    TextIsPlain(values[0]);
    TextIsPlain(values[1]);
    SuppliesAt(params, n, Texts(values), 0);
    SuppliesAt(params, n, Texts(values), 1);
    var cell := row(column.name);
    var low := EvalCompare(db, GreaterEqual, cell, EvalOperand(db, CastParam(n + 1, column.pgType), row, params));
    var high := EvalCompare(db, LessEqual, cell, EvalOperand(db, CastParam(n + 2, column.pgType), row, params));
    var lowest, highest := Constant(db, column, values[0]), Constant(db, column, values[1]);
    assert low == OnCell(cell, x => !db.less(x, lowest));
    assert high == OnCell(cell, x => !db.less(highest, x));
    Both(low, high);
  }

  lemma OnColumnMeans(db: Db, column: ColumnSchema, filter: TableFilter, n: nat, row: Row, params: seq<string>)
    requires AcceptableOn(filter) && BuildOn(column, filter, n).Ok?
    requires Supplies(params, n, BuildOn(column, filter, n).value.params)
    ensures Eval(db, BuildOn(column, filter, n).value.cond, row, params) == MeaningOn(db, column, filter, row)
  {
    hide Constant, CastParams, Texts, BuildCompare, Supplies;
    match filter.op
    case IsNull =>
    case IsNotNull =>
    case Eq => EqualityMeans(db, column, false, filter, n, row, params);
    case Ne => EqualityMeans(db, column, true, filter, n, row, params);
    case Gt => ComparisonMeans(db, column, Greater, filter, n, row, params);
    case Gte => ComparisonMeans(db, column, GreaterEqual, filter, n, row, params);
    case Lt => ComparisonMeans(db, column, Less, filter, n, row, params);
    case Lte => ComparisonMeans(db, column, LessEqual, filter, n, row, params);
    case Like => PatternMeans(db, column, Matches, filter.value.value.text, n, row, params);
    case ILike => PatternMeans(db, column, MatchesNoCase, filter.value.value.text, n, row, params);
    case In => MemberMeans(db, column, false, filter.values.value, n, row, params);
    case NotIn => MemberMeans(db, column, true, filter.values.value, n, row, params);
    case Between => RangeMeans(db, column, filter.values.value, n, row, params);
  }

  lemma EqualityMeans(
      db: Db, column: ColumnSchema, negated: bool, filter: TableFilter, n: nat, row: Row, params: seq<string>)
    requires BuildEquality(column, negated, filter, n).Ok?
    requires Supplies(params, n, BuildEquality(column, negated, filter, n).value.params)
    ensures var v := filter.value.value;
            Eval(db, BuildEquality(column, negated, filter, n).value.cond, row, params) ==
            if v.JNull? then FromBool(row(column.name).None? != negated)
            else OnCell(row(column.name), x => db.equal(x, Constant(db, column, v)) != negated)
  {
    hide Constant, Supplies;
    var v := filter.value.value;
    if !v.JNull? {
      CompareMeans(db, column, if negated then NotEqual else Equal, v, n, row, params);
    }
  }

  lemma ComparisonMeans(
      db: Db, column: ColumnSchema, op: CmpOp, filter: TableFilter, n: nat, row: Row, params: seq<string>)
    requires BuildComparison(column, op, filter, n).Ok?
    requires Supplies(params, n, BuildComparison(column, op, filter, n).value.params)
    ensures Eval(db, BuildComparison(column, op, filter, n).value.cond, row, params) ==
            OnCell(row(column.name), x => Holds(db, op, x, Constant(db, column, filter.value.value)))
  {
    hide Constant, Supplies, Holds;
    CompareMeans(db, column, op, filter.value.value, n, row, params);
  }

  lemma {:induction false} ConjunctionIsEvery(ts: seq<Truth>)
    ensures Conjunction(ts) == Every(ts) && Disjunction(ts) == Either(ts)
  {
    if ts != [] {
      ConjunctionIsEvery(ts[1..]);
      assert ts == [ts[0]] + ts[1..];
    }
  }

  lemma GroupValue(db: Db, parts: seq<Cond>, row: Row, params: seq<string>)
    requires parts != []
    ensures Eval(db, AllOf(parts), row, params) == Every(EvalAll(db, parts, row, params))
    ensures Eval(db, AnyOf(parts), row, params) == Either(EvalAll(db, parts, row, params))
  {
    hide EvalPred;
    var ts := EvalAll(db, parts, row, params);
    ConjunctionIsEvery(ts);
    if |parts| == 1 {
      assert ts == [ts[0]];
    }
  }

  lemma {:induction false} FilterMeans(
      db: Db, schema: TableSchema, filter: Filter, n: nat, row: Row, params: seq<string>)
    requires Acceptable(schema, filter) && Build(schema, filter, n).Ok?
    requires Supplies(params, n, Build(schema, filter, n).value.params)
    ensures Eval(db, Build(schema, filter, n).value.cond, row, params) == Meaning(db, schema, filter, row)
    decreases filter, 1
  {
    hide BuildOn, MeaningOn, Supplies, Eval, BuildList, AcceptableOn, IsIdentifier, ColumnOf;
    match filter
    case Structured(f) => OnColumnMeans(db, ColumnOf(schema, f.column).value, f, n, row, params);
    case Shorthand(parsed) =>
      OnColumnMeans(db, ColumnOf(schema, parsed.value.column).value, parsed.value, n, row, params);
    case Group(conj, disj) =>
      var list := if conj.Given? then conj.list else disj.list;
      ListMeans(db, schema, list, n, row, params);
      GroupValue(db, BuildList(schema, list, n).value.conds, row, params);
      assert EvalAll(db, BuildList(schema, list, n).value.conds, row, params) ==
             seq(|list|, i requires 0 <= i < |list| => Meaning(db, schema, list[i], row));
  }

  lemma {:induction false} ListMeans(
      db: Db, schema: TableSchema, items: seq<Filter>, n: nat, row: Row, params: seq<string>)
    requires forall item :: item in items ==> Acceptable(schema, item)
    requires BuildList(schema, items, n).Ok?
    requires Supplies(params, n, BuildList(schema, items, n).value.params)
    ensures var ts := EvalAll(db, BuildList(schema, items, n).value.conds, row, params);
            |ts| == |items| && forall i :: 0 <= i < |items| ==> ts[i] == Meaning(db, schema, items[i], row)
    decreases items, 0
  {
    hide Build, Acceptable, Meaning, Eval, Supplies;
    if items != [] {
      var first := Build(schema, items[0], n).value;
      var others := BuildList(schema, items[1..], n + |first.params|).value;
      SuppliesBoth(params, n, first.params, others.params);
      FilterMeans(db, schema, items[0], n, row, params);
      ListMeans(db, schema, items[1..], n + |first.params|, row, params);
      assert ([first.cond] + others.conds)[1..] == others.conds;
    }
  }

  // ----- placeholders in reading order -----

  function Placeholders(t: seq<Tok>): seq<nat> {
    if t == [] then []
    else (if t[0].Placeholder? then [t[0].index] else []) + Placeholders(t[1..])
  }

  function CountFrom(first: nat, count: nat): seq<nat> {
    seq(count, i requires 0 <= i < count => first + i)
  }

  lemma {:induction false} PlaceholdersAppend(a: seq<Tok>, b: seq<Tok>)
    ensures Placeholders(a + b) == Placeholders(a) + Placeholders(b)
  {
    if a == [] {
      assert a + b == b;
    } else {
      PlaceholdersAppend(a[1..], b);
      assert (a + b)[1..] == a[1..] + b;
    }
  }

  lemma CountAppend(first: nat, a: nat, b: nat)
    ensures CountFrom(first, a + b) == CountFrom(first, a) + CountFrom(first + a, b)
  {
  }

  lemma OperandPlaceholders(o: Operand)
    ensures Placeholders(PrintOperand(o)) == if o.Param? || o.CastParam? then [o.index] else []
  {
    match o
    case CastParam(index, pgType) => CastPlaceholders(Placeholder(index), pgType);
    case CastColumn(name, pgType) => CastPlaceholders(Name(name), pgType);
    case Column(name) =>
    case Param(index) =>
    case NullLiteral =>
  }

  lemma CastPlaceholders(tok: Tok, pgType: string)
    ensures Placeholders([CastKw, LParen, tok, AsKw, TypeName(pgType), RParen]) == Placeholders([tok])
  {
    PlaceholdersAppend([CastKw, LParen], [tok] + [AsKw, TypeName(pgType), RParen]);
    PlaceholdersAppend([tok], [AsKw, TypeName(pgType), RParen]);
    Silent([CastKw, LParen]);
    Silent([AsKw, TypeName(pgType), RParen]);
    assert [CastKw, LParen, tok, AsKw, TypeName(pgType), RParen]
        == [CastKw, LParen] + ([tok] + [AsKw, TypeName(pgType), RParen]);
  }

  lemma {:induction false} Silent(t: seq<Tok>)
    requires forall tok :: tok in t ==> !tok.Placeholder?
    ensures Placeholders(t) == []
  {
    if t != [] {
      assert t[0] in t;
      Silent(t[1..]);
    }
  }

  // Tokens without placeholders before t.
  lemma SilentBefore(silent: seq<Tok>, t: seq<Tok>)
    requires forall tok :: tok in silent ==> !tok.Placeholder?
    ensures Placeholders(silent + t) == Placeholders(t)
  {
    PlaceholdersAppend(silent, t);
    Silent(silent);
  }

  lemma SilentAfter(t: seq<Tok>, silent: seq<Tok>)
    requires forall tok :: tok in silent ==> !tok.Placeholder?
    ensures Placeholders(t + silent) == Placeholders(t)
  {
    PlaceholdersAppend(t, silent);
    Silent(silent);
  }

  lemma {:induction false} ListPlaceholders(column: ColumnSchema, n: nat, count: nat)
    ensures Placeholders(PrintOperands(CastParams(column, n, count))) == CountFrom(n + 1, count)
    decreases count
  {
    hide PrintOperand, Placeholders;
    var items := CastParams(column, n, count);
    if count == 0 {
      Silent([]);
    } else {
      OperandPlaceholders(items[0]);
      assert items[1..] == CastParams(column, n + 1, count - 1);
      if count == 1 {
        assert CountFrom(n + 1, 1) == [n + 1];
      } else {
        ListPlaceholders(column, n + 1, count - 1);
        PlaceholdersAppend(PrintOperand(items[0]), [Comma] + PrintOperands(items[1..]));
        SilentBefore([Comma], PrintOperands(items[1..]));
        assert CountFrom(n + 1, count) == [n + 1] + CountFrom(n + 2, count - 1);
      }
    }
  }

  lemma ComparePlaceholders(left: Operand, op: CmpOp, right: Operand)
    requires left.Column? || left.CastColumn?
    requires right.Param? || right.CastParam?
    ensures Placeholders(PrintPred(Compare(left, op, right))) == [right.index]
  {
    hide PrintOperand, Placeholders;
    OperandPlaceholders(left);
    OperandPlaceholders(right);
    PlaceholdersAppend(PrintOperand(left), [Op(op)] + PrintOperand(right));
    SilentBefore([Op(op)], PrintOperand(right));
  }

  lemma InListPlaceholders(column: ColumnSchema, negated: bool, n: nat, count: nat)
    ensures Placeholders(PrintPred(InList(Column(column.name), negated, CastParams(column, n, count))))
            == CountFrom(n + 1, count)
  {
    hide Placeholders, PrintOperands;
    var list := PrintOperands(CastParams(column, n, count));
    var opening := if negated then [NotKw, InKw, LParen] else [InKw, LParen];
    ListPlaceholders(column, n, count);
    SilentBefore([Name(column.name)], opening + (list + [RParen]));
    SilentBefore(opening, list + [RParen]);
    SilentAfter(list, [RParen]);
  }

  lemma BetweenPlaceholders(column: ColumnSchema, n: nat)
    ensures var low, high := CastParam(n + 1, column.pgType), CastParam(n + 2, column.pgType);
            Placeholders(PrintPred(SqlConditions.Between(Column(column.name), low, high))) ==
            CountFrom(n + 1, 2)
  {
    hide Placeholders;
    var low, high := PrintOperand(CastParam(n + 1, column.pgType)), PrintOperand(CastParam(n + 2, column.pgType));
    OperandPlaceholders(CastParam(n + 1, column.pgType));
    OperandPlaceholders(CastParam(n + 2, column.pgType));
    SilentBefore([Name(column.name)], [BetweenKw] + (low + ([AndKw] + high)));
    SilentBefore([BetweenKw], low + ([AndKw] + high));
    PlaceholdersAppend(low, [AndKw] + high);
    SilentBefore([AndKw], high);
    assert CountFrom(n + 1, 2) == [n + 1] + [n + 2];
  }

  lemma NullTestPlaceholders(column: ColumnSchema, negated: bool)
    ensures Placeholders(PrintPred(NullTest(Column(column.name), negated))) == []
  {
    hide Placeholders;
    Silent(PrintPred(NullTest(Column(column.name), negated)));
  }

  lemma OnColumnNumbers(column: ColumnSchema, filter: TableFilter, n: nat)
    requires BuildOn(column, filter, n).Ok?
    ensures var b := BuildOn(column, filter, n).value;
            Placeholders(PrintCond(b.cond)) == CountFrom(n + 1, |b.params|)
  {
    hide Placeholders, PrintPred, CastParams;
    assert CountFrom(n + 1, 1) == [n + 1] && CountFrom(n + 1, 0) == [];
    var b := BuildOn(column, filter, n).value;
    match b.cond.pred
    case Compare(left, op, right) =>
      assert right.index == n + 1 && |b.params| == 1;
      ComparePlaceholders(left, op, right);
    case NullTest(left, negated) => NullTestPlaceholders(column, negated);
    case InList(left, negated, items) => InListPlaceholders(column, negated, n, |filter.values.value|);
    case Between(left, low, high) => BetweenPlaceholders(column, n);
  }

  lemma {:induction false} FilterNumbers(schema: TableSchema, filter: Filter, n: nat)
    requires Build(schema, filter, n).Ok?
    ensures var b := Build(schema, filter, n).value;
            Placeholders(PrintCond(b.cond)) == CountFrom(n + 1, |b.params|)
    decreases filter, 1
  {
    hide BuildOn, PrintPred, Placeholders, CountFrom, BuildList, IsIdentifier, PrintJoined;
    match filter
    case Structured(f) => OnColumnNumbers(ColumnOf(schema, f.column).value, f, n);
    case Shorthand(parsed) => OnColumnNumbers(ColumnOf(schema, parsed.value.column).value, parsed.value, n);
    case Group(conj, disj) =>
      var list := if conj.Given? then conj.list else disj.list;
      var parts := BuildList(schema, list, n).value.conds;
      var joiner := if conj.Given? then AndKw else OrKw;
      ListNumbers(schema, list, n, joiner);
      if |parts| == 1 {
        OneJoined(parts, joiner);
      } else {
        SilentAfter(PrintJoined(parts, joiner), [RParen]);
        SilentBefore([LParen], PrintJoined(parts, joiner) + [RParen]);
      }
  }

  lemma OneJoined(parts: seq<Cond>, joiner: Tok)
    requires |parts| == 1
    ensures PrintJoined(parts, joiner) == PrintCond(parts[0])
  {
  }

  lemma {:induction false} ListNumbers(schema: TableSchema, items: seq<Filter>, n: nat, joiner: Tok)
    requires BuildList(schema, items, n).Ok? && !joiner.Placeholder?
    ensures var b := BuildList(schema, items, n).value;
            Placeholders(PrintJoined(b.conds, joiner)) == CountFrom(n + 1, |b.params|)
    decreases items, 0
  {
    hide Build, PrintCond, Placeholders;
    if items == [] {
      Silent([]);
    } else {
      var first := Build(schema, items[0], n).value;
      var others := BuildList(schema, items[1..], n + |first.params|).value;
      var parts := [first.cond] + others.conds;
      FilterNumbers(schema, items[0], n);
      ListNumbers(schema, items[1..], n + |first.params|, joiner);
      CountAppend(n + 1, |first.params|, |others.params|);
      assert parts[1..] == others.conds;
      if |parts| == 1 {
        assert PrintJoined(others.conds, joiner) == [];
        Silent([]);
      } else {
        PlaceholdersAppend(PrintCond(first.cond), [joiner] + PrintJoined(others.conds, joiner));
        SilentBefore([joiner], PrintJoined(others.conds, joiner));
      }
    }
  }

  // ----- the whole clause -----

  // Every accepted list of filters compiles to a clause that reads back as the
  // conjunction of its filters, numbers its placeholders $1.. in reading order
  // and is true, false or unknown on a row exactly as the filters are.
  lemma ClauseKeepsMeaning(db: Db, schema: TableSchema, filters: seq<Filter>, row: Row)
    requires filters != [] && forall filter :: filter in filters ==> Acceptable(schema, filter)
    ensures BuildList(schema, filters, 0).Ok?
    ensures var b := BuildList(schema, filters, 0).value;
            var text := PrintJoined(b.conds, AndKw);
            && Parse(text) == Some(AllOf(b.conds))
            && Placeholders(text) == CountFrom(1, |b.params|)
            && Eval(db, Parse(text).value, row, b.params) ==
               Every(seq(|filters|, i requires 0 <= i < |filters| => Meaning(db, schema, filters[i], row)))
  {
    hide BuildList, PrintJoined, Parse, Eval, Meaning, Acceptable, Placeholders, CountFrom, Every, AllOf;
    ListAcceptedIff(schema, filters, 0);
    var b := BuildList(schema, filters, 0).value;
    ListIsCanonical(schema, filters, 0);
    ClausesParse(b.conds);
    ListNumbers(schema, filters, 0, AndKw);
    assert b.params[0..|b.params|] == b.params;
    ListMeans(db, schema, filters, 0, row, b.params);
    GroupValue(db, b.conds, row, b.params);
    assert EvalAll(db, b.conds, row, b.params) ==
           seq(|filters|, i requires 0 <= i < |filters| => Meaning(db, schema, filters[i], row));
  }
}
