/**
 SQL search conditions: tokens, syntax trees, a parser with SQL's precedence
 and the three-valued meaning of a condition on a row. This is the reader's
 side of the text that the query builder emits.
 */
module SqlConditions {
  import opened Wrappers

  datatype CmpOp = Equal | NotEqual | Greater | GreaterEqual | Less | LessEqual | Matches | MatchesNoCase

  datatype Tok =
    | LParen | RParen | Comma
    | AndKw | OrKw | NotKw | InKw | IsKw | NullKw | BetweenKw | CastKw | AsKw
    | Op(op: CmpOp)
    | Name(name: string)         // a quoted identifier
    | Placeholder(index: nat)    // $1, $2, ...
    | TypeName(pgType: string)

  datatype Operand =
    | Column(name: string)
    | CastColumn(name: string, pgType: string)
    | Param(index: nat)
    | CastParam(index: nat, pgType: string)
    | NullLiteral

  datatype Pred =
    | Compare(left: Operand, op: CmpOp, right: Operand)
    | NullTest(left: Operand, negated: bool)
    | InList(left: Operand, negated: bool, items: seq<Operand>)
    | Between(left: Operand, low: Operand, high: Operand)

  datatype Cond = Atom(pred: Pred) | All(parts: seq<Cond>) | Any(parts: seq<Cond>)

  // ----- printing -----

  function PrintOperand(o: Operand): seq<Tok> {
    match o
    case Column(name) => [Name(name)]
    case CastColumn(name, pgType) => [CastKw, LParen, Name(name), AsKw, TypeName(pgType), RParen]
    case Param(index) => [Placeholder(index)]
    case CastParam(index, pgType) => [CastKw, LParen, Placeholder(index), AsKw, TypeName(pgType), RParen]
    case NullLiteral => [NullKw]
  }

  function PrintOperands(items: seq<Operand>): seq<Tok> {
    if items == [] then []
    else if |items| == 1 then PrintOperand(items[0])
    else PrintOperand(items[0]) + ([Comma] + PrintOperands(items[1..]))
  }

  function PrintPred(p: Pred): seq<Tok> {
    match p
    case Compare(left, op, right) => PrintOperand(left) + ([Op(op)] + PrintOperand(right))
    case NullTest(left, negated) => PrintOperand(left) + (if negated then [IsKw, NotKw, NullKw] else [IsKw, NullKw])
    case InList(left, negated, items) =>
      PrintOperand(left) + ((if negated then [NotKw, InKw, LParen] else [InKw, LParen])
          + (PrintOperands(items) + [RParen]))
    case Between(left, low, high) =>
      PrintOperand(left) + ([BetweenKw] + (PrintOperand(low) + ([AndKw] + PrintOperand(high))))
  }

  function PrintCond(c: Cond): seq<Tok>
    decreases c
  {
    match c
    case Atom(pred) => PrintPred(pred)
    case All(parts) => [LParen] + (PrintJoined(parts, AndKw) + [RParen])
    case Any(parts) => [LParen] + (PrintJoined(parts, OrKw) + [RParen])
  }

  function PrintJoined(parts: seq<Cond>, joiner: Tok): seq<Tok>
    decreases parts
  {
    if parts == [] then []
    else if |parts| == 1 then PrintCond(parts[0])
    else PrintCond(parts[0]) + ([joiner] + PrintJoined(parts[1..], joiner))
  }

  // ----- parsing: OR below AND, BETWEEN keeps its own AND -----

  datatype Parsed<T> = Failed | Parsed(value: T, rest: seq<Tok>)

  predicate Starts(t: seq<Tok>, tok: Tok) { t != [] && t[0] == tok }

  function ParseOperand(t: seq<Tok>): (r: Parsed<Operand>)
    ensures r.Parsed? ==> |r.rest| < |t|
  {
    if t == [] then Failed
    else
      match t[0]
      case Name(name) => Parsed(Column(name), t[1..])
      case Placeholder(index) => Parsed(Param(index), t[1..])
      case NullKw => Parsed(NullLiteral, t[1..])
      case CastKw =>
        if |t| >= 6 && t[1] == LParen && t[3] == AsKw && t[4].TypeName? && t[5] == RParen then
          match t[2]
          case Name(name) => Parsed(CastColumn(name, t[4].pgType), t[6..])
          case Placeholder(index) => Parsed(CastParam(index, t[4].pgType), t[6..])
          case _ => Failed
        else Failed
      case _ => Failed
  }

  function ParseOperands(t: seq<Tok>): (r: Parsed<seq<Operand>>)
    ensures r.Parsed? ==> |r.rest| < |t|
    decreases |t|
  {
    var first := ParseOperand(t);
    if first.Failed? then Failed
    else if Starts(first.rest, Comma) then
      var others := ParseOperands(first.rest[1..]);
      if others.Failed? then Failed else Parsed([first.value] + others.value, others.rest)
    else Parsed([first.value], first.rest)
  }

  function ParseInList(left: Operand, negated: bool, t: seq<Tok>): (r: Parsed<Pred>)
    ensures r.Parsed? ==> |r.rest| < |t|
  {
    if !Starts(t, LParen) then Failed
    else
      var items := ParseOperands(t[1..]);
      if items.Parsed? && Starts(items.rest, RParen) then Parsed(InList(left, negated, items.value), items.rest[1..])
      else Failed
  }

  function ParseBetween(left: Operand, t: seq<Tok>): (r: Parsed<Pred>)
    ensures r.Parsed? ==> |r.rest| < |t|
  {
    var low := ParseOperand(t);
    if low.Failed? || !Starts(low.rest, AndKw) then Failed
    else
      var high := ParseOperand(low.rest[1..]);
      if high.Failed? then Failed else Parsed(Between(left, low.value, high.value), high.rest)
  }

  function ParseTail(left: Operand, t: seq<Tok>): (r: Parsed<Pred>)
    ensures r.Parsed? ==> |r.rest| < |t|
  {
    if t == [] then Failed
    else
      match t[0]
      case Op(op) =>
        var right := ParseOperand(t[1..]);
        if right.Failed? then Failed else Parsed(Compare(left, op, right.value), right.rest)
      case IsKw =>
        if Starts(t[1..], NullKw) then Parsed(NullTest(left, false), t[2..])
        else if Starts(t[1..], NotKw) && Starts(t[2..], NullKw) then Parsed(NullTest(left, true), t[3..])
        else Failed
      case InKw => ParseInList(left, false, t[1..])
      case NotKw => if Starts(t[1..], InKw) then ParseInList(left, true, t[2..]) else Failed
      case BetweenKw => ParseBetween(left, t[1..])
      case _ => Failed
  }

  function ParseAtom(t: seq<Tok>): (r: Parsed<Cond>)
    ensures r.Parsed? ==> |r.rest| < |t|
  {
    var left := ParseOperand(t);
    if left.Failed? then Failed
    else
      var pred := ParseTail(left.value, left.rest);
      if pred.Failed? then Failed else Parsed(Atom(pred.value), pred.rest)
  }

  function AllOf(parts: seq<Cond>): Cond { if |parts| == 1 then parts[0] else All(parts) }

  function AnyOf(parts: seq<Cond>): Cond { if |parts| == 1 then parts[0] else Any(parts) }

  function ParsePrimary(t: seq<Tok>): (r: Parsed<Cond>)
    ensures r.Parsed? ==> |r.rest| < |t|
    decreases |t|, 0
  {
    if Starts(t, LParen) then
      var inner := ParseCond(t[1..]);
      if inner.Parsed? && Starts(inner.rest, RParen) then Parsed(inner.value, inner.rest[1..]) else Failed
    else ParseAtom(t)
  }

  function ParseAnds(t: seq<Tok>): (r: Parsed<seq<Cond>>)
    ensures r.Parsed? ==> |r.rest| < |t|
    decreases |t|, 1
  {
    var first := ParsePrimary(t);
    if first.Failed? then Failed
    else if Starts(first.rest, AndKw) then
      var others := ParseAnds(first.rest[1..]);
      if others.Failed? then Failed else Parsed([first.value] + others.value, others.rest)
    else Parsed([first.value], first.rest)
  }

  function ParseOrs(t: seq<Tok>): (r: Parsed<seq<Cond>>)
    ensures r.Parsed? ==> |r.rest| < |t|
    decreases |t|, 2
  {
    var first := ParseAnds(t);
    if first.Failed? then Failed
    else if Starts(first.rest, OrKw) then
      var others := ParseOrs(first.rest[1..]);
      if others.Failed? then Failed else Parsed([AllOf(first.value)] + others.value, others.rest)
    else Parsed([AllOf(first.value)], first.rest)
  }

  function ParseCond(t: seq<Tok>): (r: Parsed<Cond>)
    ensures r.Parsed? ==> |r.rest| < |t|
    decreases |t|, 3
  {
    var parts := ParseOrs(t);
    if parts.Failed? then Failed else Parsed(AnyOf(parts.value), parts.rest)
  }

  function Parse(t: seq<Tok>): Option<Cond> {
    var r := ParseCond(t);
    if r.Parsed? && r.rest == [] then Some(r.value) else None
  }

  // ----- meaning on a row -----

  datatype Truth = True | False | Unknown

  // A value of the database, with the name of its type.
  datatype Val = Val(pgType: string, text: string)

  // What the database does with values: every theorem holds for any such functions.
  datatype Db = Db(
    plain: string -> Val,              // a text parameter as it is
    cast: (string, Val) -> Val,        // CAST(v AS type)
    equal: (Val, Val) -> bool,
    less: (Val, Val) -> bool,
    like: (Val, Val) -> bool,
    ilike: (Val, Val) -> bool)

  type Row = string -> Option<Val>

  function FromBool(b: bool): Truth { if b then True else False }

  function Not(a: Truth): Truth {
    match a
    case True => False
    case False => True
    case Unknown => Unknown
  }

  function Conjunction(ts: seq<Truth>): Truth {
    if False in ts then False else if Unknown in ts then Unknown else True
  }

  function Disjunction(ts: seq<Truth>): Truth {
    if True in ts then True else if Unknown in ts then Unknown else False
  }

  function EvalOperand(db: Db, o: Operand, row: Row, params: seq<string>): Option<Val> {
    match o
    case Column(name) => row(name)
    case CastColumn(name, pgType) => if row(name).Some? then Some(db.cast(pgType, row(name).value)) else None
    case Param(index) => if 1 <= index <= |params| then Some(db.plain(params[index - 1])) else None
    case CastParam(index, pgType) =>
      if 1 <= index <= |params| then Some(db.cast(pgType, db.plain(params[index - 1]))) else None
    case NullLiteral => None
  }

  predicate Holds(db: Db, op: CmpOp, a: Val, b: Val) {
    match op
    case Equal => db.equal(a, b)
    case NotEqual => !db.equal(a, b)
    case Greater => db.less(b, a)
    case GreaterEqual => !db.less(a, b)
    case Less => db.less(a, b)
    case LessEqual => !db.less(b, a)
    case Matches => db.like(a, b)
    case MatchesNoCase => db.ilike(a, b)
  }

  function EvalCompare(db: Db, op: CmpOp, a: Option<Val>, b: Option<Val>): Truth {
    if a.None? || b.None? then Unknown else FromBool(Holds(db, op, a.value, b.value))
  }

  function EvalPred(db: Db, p: Pred, row: Row, params: seq<string>): Truth {
    match p
    case Compare(left, op, right) =>
      EvalCompare(db, op, EvalOperand(db, left, row, params), EvalOperand(db, right, row, params))
    case NullTest(left, negated) => FromBool(EvalOperand(db, left, row, params).None? != negated)
    case InList(left, negated, items) =>
      var a := EvalOperand(db, left, row, params);
      var found := Disjunction(seq(|items|, i requires 0 <= i < |items| =>
        EvalCompare(db, Equal, a, EvalOperand(db, items[i], row, params))));
      if negated then Not(found) else found
    case Between(left, low, high) =>
      var a := EvalOperand(db, left, row, params);
      Conjunction([EvalCompare(db, GreaterEqual, a, EvalOperand(db, low, row, params)),
                   EvalCompare(db, LessEqual, a, EvalOperand(db, high, row, params))])
  }

  function Eval(db: Db, c: Cond, row: Row, params: seq<string>): Truth
    decreases c
  {
    match c
    case Atom(pred) => EvalPred(db, pred, row, params)
    case All(parts) => Conjunction(EvalAll(db, parts, row, params))
    case Any(parts) => Disjunction(EvalAll(db, parts, row, params))
  }

  function EvalAll(db: Db, parts: seq<Cond>, row: Row, params: seq<string>): (ts: seq<Truth>)
    ensures |ts| == |parts|
    decreases parts
  {
    if parts == [] then [] else [Eval(db, parts[0], row, params)] + EvalAll(db, parts[1..], row, params)
  }

  // ----- parsing undoes printing -----

  // Every conjunction and disjunction inside has at least two parts, every IN list at least one item.
  predicate Canonical(c: Cond)
    decreases c
  {
    match c
    case Atom(pred) => pred.InList? ==> pred.items != []
    case All(parts) => |parts| >= 2 && forall part :: part in parts ==> Canonical(part)
    case Any(parts) => |parts| >= 2 && forall part :: part in parts ==> Canonical(part)
  }

  lemma OperandParses(o: Operand, rest: seq<Tok>)
    ensures ParseOperand(PrintOperand(o) + rest) == Parsed(o, rest)
    ensures !Starts(PrintOperand(o) + rest, LParen)
  {
    var t := PrintOperand(o) + rest;
    assert t[|PrintOperand(o)|..] == rest;
  }

  lemma OperandsStep(t: seq<Tok>, first: Operand, rest: seq<Tok>)
    requires ParseOperand(t) == Parsed(first, rest)
    ensures ParseOperands(t) ==
            if !Starts(rest, Comma) then Parsed([first], rest)
            else
              var others := ParseOperands(rest[1..]);
              if others.Failed? then Failed else Parsed([first] + others.value, others.rest)
  {
    hide ParseOperand;
  }

  lemma PrintedOperands(items: seq<Operand>, rest: seq<Tok>)
    requires items != []
    ensures PrintOperands(items) + rest ==
            PrintOperand(items[0])
            + (if |items| == 1 then rest else [Comma] + (PrintOperands(items[1..]) + rest))
  {
    if |items| > 1 {
      Regroup(PrintOperand(items[0]), [Comma], PrintOperands(items[1..]), rest);
    }
    hide PrintOperand;
  }

  lemma Regroup(a: seq<Tok>, b: seq<Tok>, c: seq<Tok>, d: seq<Tok>)
    ensures a + (b + c) + d == a + (b + (c + d))
  {
  }

  lemma {:induction false} OperandsParse(items: seq<Operand>, rest: seq<Tok>)
    requires items != [] && !Starts(rest, Comma)
    ensures ParseOperands(PrintOperands(items) + rest) == Parsed(items, rest)
  {
    hide ParseOperand, ParseOperands, PrintOperand, PrintOperands;
    PrintedOperands(items, rest);
    var behind := if |items| == 1 then rest else [Comma] + (PrintOperands(items[1..]) + rest);
    OperandParses(items[0], behind);
    OperandsStep(PrintOperands(items) + rest, items[0], behind);
    if |items| == 1 {
      assert items == [items[0]];
    } else {
      assert behind[1..] == PrintOperands(items[1..]) + rest;
      OperandsParse(items[1..], rest);
      assert [items[0]] + items[1..] == items;
    }
  }

  lemma InListParses(left: Operand, negated: bool, items: seq<Operand>, rest: seq<Tok>)
    requires items != []
    ensures ParseInList(left, negated, [LParen] + (PrintOperands(items) + ([RParen] + rest))) ==
            Parsed(InList(left, negated, items), rest)
  {
    hide ParseOperands, PrintOperands;
    var t := [LParen] + (PrintOperands(items) + ([RParen] + rest));
    assert t[1..] == PrintOperands(items) + ([RParen] + rest);
    OperandsParse(items, [RParen] + rest);
    assert ([RParen] + rest)[1..] == rest;
  }

  lemma BetweenParses(left: Operand, low: Operand, high: Operand, rest: seq<Tok>)
    ensures ParseBetween(left, PrintOperand(low) + ([AndKw] + (PrintOperand(high) + rest))) ==
            Parsed(Between(left, low, high), rest)
  {
    hide ParseOperand, PrintOperand;
    var behind := [AndKw] + (PrintOperand(high) + rest);
    OperandParses(low, behind);
    assert behind[1..] == PrintOperand(high) + rest;
    OperandParses(high, rest);
  }

  // What PrintPred puts behind the left operand.
  function PrintTail(p: Pred): seq<Tok> {
    match p
    case Compare(_, op, right) => [Op(op)] + PrintOperand(right)
    case NullTest(_, negated) => if negated then [IsKw, NotKw, NullKw] else [IsKw, NullKw]
    case InList(_, negated, items) =>
      (if negated then [NotKw, InKw, LParen] else [InKw, LParen]) + (PrintOperands(items) + [RParen])
    case Between(_, low, high) => [BetweenKw] + (PrintOperand(low) + ([AndKw] + PrintOperand(high)))
  }

  lemma CompareParses(left: Operand, op: CmpOp, right: Operand, rest: seq<Tok>)
    ensures ParseTail(left, PrintTail(Compare(left, op, right)) + rest) == Parsed(Compare(left, op, right), rest)
  {
    hide ParseOperand, PrintOperand, ParseInList, ParseBetween;
    var t := PrintTail(Compare(left, op, right)) + rest;
    assert t[1..] == PrintOperand(right) + rest;
    OperandParses(right, rest);
  }

  lemma NullTestParses(left: Operand, negated: bool, rest: seq<Tok>)
    ensures ParseTail(left, PrintTail(NullTest(left, negated)) + rest) == Parsed(NullTest(left, negated), rest)
  {
    hide ParseOperand, ParseInList, ParseBetween;
    var t := PrintTail(NullTest(left, negated)) + rest;
    if negated {
      assert t[3..] == rest && t[1..][0] == NotKw && t[2..][0] == NullKw;
    } else {
      assert t[2..] == rest && t[1..][0] == NullKw;
    }
  }

  lemma InListTailParses(left: Operand, negated: bool, items: seq<Operand>, rest: seq<Tok>)
    requires items != []
    ensures var p := InList(left, negated, items); ParseTail(left, PrintTail(p) + rest) == Parsed(p, rest)
  {
    hide ParseOperand, PrintOperand, ParseOperands, PrintOperands, ParseInList, ParseBetween;
    var t := PrintTail(InList(left, negated, items)) + rest;
    var list := [LParen] + (PrintOperands(items) + ([RParen] + rest));
    InListParses(left, negated, items, rest);
    if negated {
      assert t == [NotKw, InKw] + list && t[2..] == list && t[1..][0] == InKw;
    } else {
      assert t == [InKw] + list && t[1..] == list;
    }
  }

  lemma BetweenTailParses(left: Operand, low: Operand, high: Operand, rest: seq<Tok>)
    ensures var p := Between(left, low, high); ParseTail(left, PrintTail(p) + rest) == Parsed(p, rest)
  {
    hide ParseOperand, PrintOperand, ParseInList, ParseBetween;
    var t := PrintTail(Between(left, low, high)) + rest;
    var range := PrintOperand(low) + ([AndKw] + (PrintOperand(high) + rest));
    assert t == [BetweenKw] + range && t[1..] == range;
    BetweenParses(left, low, high, rest);
  }

  lemma TailParses(p: Pred, rest: seq<Tok>)
    requires p.InList? ==> p.items != []
    ensures ParseTail(p.left, PrintTail(p) + rest) == Parsed(p, rest)
  {
    hide ParseTail, PrintTail;
    match p
    case Compare(left, op, right) => CompareParses(left, op, right, rest);
    case NullTest(left, negated) => NullTestParses(left, negated, rest);
    case InList(left, negated, items) => InListTailParses(left, negated, items, rest);
    case Between(left, low, high) => BetweenTailParses(left, low, high, rest);
  }

  lemma AtomParses(p: Pred, rest: seq<Tok>)
    requires p.InList? ==> p.items != []
    ensures ParsePrimary(PrintPred(p) + rest) == Parsed(Atom(p), rest)
  {
    hide ParseOperand, PrintOperand, ParseTail, PrintTail, ParseCond;
    assert PrintPred(p) + rest == PrintOperand(p.left) + (PrintTail(p) + rest) by {
      assert PrintPred(p) == PrintOperand(p.left) + PrintTail(p) by { PredIsLeftAndTail(p); }
    }
    OperandParses(p.left, PrintTail(p) + rest);
    TailParses(p, rest);
  }

  lemma PredIsLeftAndTail(p: Pred)
    ensures PrintPred(p) == PrintOperand(p.left) + PrintTail(p)
  {
  }

  lemma {:induction false} CondParses(c: Cond, rest: seq<Tok>)
    requires Canonical(c)
    ensures ParsePrimary(PrintCond(c) + rest) == Parsed(c, rest)
    decreases c, 1
  {
    hide ParseAtom, PrintPred, ParseAnds, ParseOrs, PrintJoined;
    match c
    case Atom(pred) => AtomParses(pred, rest);
    case All(parts) =>
      var tail := [RParen] + rest;
      var t := PrintCond(c) + rest;
      assert t[1..] == PrintJoined(parts, AndKw) + tail;
      AndsParse(parts, tail);
      OneBranch(t[1..], parts, tail);
      assert tail[1..] == rest;
    case Any(parts) =>
      var tail := [RParen] + rest;
      var t := PrintCond(c) + rest;
      assert t[1..] == PrintJoined(parts, OrKw) + tail;
      OrsParse(parts, tail);
      assert tail[1..] == rest;
  }

  lemma OneBranch(t: seq<Tok>, parts: seq<Cond>, tail: seq<Tok>)
    requires ParseAnds(t) == Parsed(parts, tail) && !Starts(tail, OrKw)
    ensures ParseCond(t) == Parsed(AllOf(parts), tail)
  {
    hide ParseAnds;
  }

  lemma {:induction false} AndsParse(parts: seq<Cond>, rest: seq<Tok>)
    requires parts != [] && !Starts(rest, AndKw)
    requires forall part :: part in parts ==> Canonical(part)
    ensures ParseAnds(PrintJoined(parts, AndKw) + rest) == Parsed(parts, rest)
    decreases parts, 0
  {
    hide ParsePrimary, PrintCond, Canonical;
    var t := PrintJoined(parts, AndKw) + rest;
    if |parts| == 1 {
      CondParses(parts[0], rest);
      assert parts == [parts[0]];
    } else {
      var behind := [AndKw] + (PrintJoined(parts[1..], AndKw) + rest);
      assert t == PrintCond(parts[0]) + behind;
      CondParses(parts[0], behind);
      assert behind[1..] == PrintJoined(parts[1..], AndKw) + rest;
      AndsParse(parts[1..], rest);
      assert [parts[0]] + parts[1..] == parts;
    }
  }

  lemma {:induction false} OrsParse(parts: seq<Cond>, rest: seq<Tok>)
    requires parts != [] && !Starts(rest, AndKw) && !Starts(rest, OrKw)
    requires forall part :: part in parts ==> Canonical(part)
    ensures ParseOrs(PrintJoined(parts, OrKw) + rest) == Parsed(parts, rest)
    decreases parts, 0
  {
    hide ParsePrimary, PrintCond, Canonical;
    var t := PrintJoined(parts, OrKw) + rest;
    if |parts| == 1 {
      CondParses(parts[0], rest);
      assert parts == [parts[0]];
      assert ParseAnds(t) == Parsed([parts[0]], rest);
    } else {
      var behind := [OrKw] + (PrintJoined(parts[1..], OrKw) + rest);
      assert t == PrintCond(parts[0]) + behind;
      CondParses(parts[0], behind);
      assert ParseAnds(t) == Parsed([parts[0]], behind);
      assert behind[1..] == PrintJoined(parts[1..], OrKw) + rest;
      OrsParse(parts[1..], rest);
      assert [parts[0]] + parts[1..] == parts;
    }
  }

  // A list of clauses joined by AND reads back as their conjunction.
  lemma ClausesParse(parts: seq<Cond>)
    requires parts != [] && forall part :: part in parts ==> Canonical(part)
    ensures Parse(PrintJoined(parts, AndKw)) == Some(AllOf(parts))
  {
    hide ParseAnds, PrintJoined, Canonical;
    var t := PrintJoined(parts, AndKw);
    assert t + [] == t;
    AndsParse(parts, []);
    OneBranch(t, parts, []);
  }
}
