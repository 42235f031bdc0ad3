/**
 The two gates of the SQL tools (crates/summer-mcp/src/table_tools/sql_scanner.rs:7-185):
 `sql_query_readonly` and `sql_exec` decide by the bare words of a statement.
 */
module SqlGates {
  import opened Wrappers
  import opened SqlScanner
  import opened SqlScannerLaws
  import opened Text

  datatype GateError =
    | BlankSql
    | Unreadable(error: ScanError)
    | NoStatement
    | NotAQuery
    | NeverSelects
    | ForbiddenKeyword(keyword: string)
    | SelectNotAccepted
    | ReadOnlyWith

  type Gate = Result<string, GateError>

  const FORBIDDEN_READONLY_KEYWORDS: seq<string> := [
    "alter", "begin", "call", "cluster", "comment", "commit", "copy", "create", "deallocate", "delete", "discard",
    "do", "drop", "execute", "grant", "insert", "listen", "lock", "merge", "notify", "prepare", "refresh", "reindex",
    "release", "reset", "revoke", "rollback", "savepoint", "set", "start", "truncate", "unlisten", "update", "vacuum"]

  const EXEC_KEYWORDS: seq<string> := [
    "alter", "analyze", "call", "cluster", "comment", "copy", "create", "deallocate", "delete", "discard", "do",
    "drop", "execute", "grant", "insert", "listen", "lock", "merge", "notify", "prepare", "refresh", "reindex",
    "reset", "revoke", "set", "truncate", "unlisten", "update", "vacuum"]

  // ----- one statement -----

  function StripSemicolon(s: string): string {
    if s != "" && s[|s| - 1] == ';' then TrimEnd(s[..|s| - 1]) else s
  }

  function NormalizeSingleStatement(sql: string): Gate {
    var trimmed := Trim(sql);
    if trimmed == "" then Err(BlankSql) else Ok(StripSemicolon(trimmed))
  }

  // ----- the gates -----

  function FirstForbidden(tokens: seq<string>): Option<string> {
    if tokens == [] then None
    else if tokens[0] in FORBIDDEN_READONLY_KEYWORDS then Some(tokens[0])
    else FirstForbidden(tokens[1..])
  }

  function ReadonlyVerdict(normalized: string, tokens: seq<string>): Gate {
    if tokens == [] then Err(NoStatement)
    else if tokens[0] != "select" && tokens[0] != "with" then Err(NotAQuery)
    else if tokens[0] == "with" && "select" !in tokens then Err(NeverSelects)
    else if FirstForbidden(tokens).Some? then Err(ForbiddenKeyword(FirstForbidden(tokens).value))
    else Ok(normalized)
  }

  function ExecVerdict(normalized: string, tokens: seq<string>): Gate {
    if tokens == [] then Err(NoStatement)
    else if tokens[0] == "select" then Err(SelectNotAccepted)
    else if tokens[0] == "with" && !(exists token :: token in tokens && token in EXEC_KEYWORDS) then Err(ReadOnlyWith)
    else Ok(normalized)
  }

  method NormalizeReadonlySql(sql: string) returns (verdict: Gate)
    ensures verdict == Readonly(sql)
  {
    hide ReadonlyVerdict;
    var normalized :- NormalizeSingleStatement(sql);
    var tokens := CollectSqlTokens(normalized);
    if tokens.Err? {
      return Err(Unreadable(tokens.error));
    }
    return ReadonlyVerdict(normalized, tokens.value);
  }

  method NormalizeExecSql(sql: string) returns (verdict: Gate)
    ensures verdict == Exec(sql)
  {
    hide ExecVerdict;
    var normalized :- NormalizeSingleStatement(sql);
    var tokens := CollectSqlTokens(normalized);
    if tokens.Err? {
      return Err(Unreadable(tokens.error));
    }
    return ExecVerdict(normalized, tokens.value);
  }

  function Readonly(sql: string): Gate {
    var normalized := NormalizeSingleStatement(sql);
    if normalized.Err? then normalized
    else
      var tokens := Scan(normalized.value);
      if tokens.Err? then Err(Unreadable(tokens.error)) else ReadonlyVerdict(normalized.value, tokens.value)
  }

  function Exec(sql: string): Gate {
    var normalized := NormalizeSingleStatement(sql);
    if normalized.Err? then normalized
    else
      var tokens := Scan(normalized.value);
      if tokens.Err? then Err(Unreadable(tokens.error)) else ExecVerdict(normalized.value, tokens.value)
  }

  // ----- trimming does not change the words -----

  lemma SpaceAtEnd(p: string, w: char)
    requires IsSpace(w)
    ensures Scan(p + [w]) == Scan(p)
  {
    hide StepNormal, DollarTag, WordLength;
    ScanningComposes(p, [w], Normal);
    var r := Run(p, Normal);
    if r.Reached? {
      SpaceStep(w, r.mode);
      var next := StepIn([w], r.mode).mode;
      Skip([w], r.mode, 1, next);
      RunEmpty(next);
      assert r.words + [] == r.words;
    }
  }

  lemma SpaceStep(w: char, mode: Mode)
    requires IsSpace(w) && ValidMode(mode)
    ensures StepIn([w], mode) == Move(1, if mode == LineComment && w == '\n' then Normal else mode, [])
  {
    NoTag([w]);
  }

  lemma SpaceAtStart(s: string, w: char)
    requires IsSpace(w)
    ensures Scan([w] + s) == Scan(s)
  {
    hide WordLength, DollarTag, Run;
    NoTag([w] + s);
    assert ([w] + s)[0] == w && ([w] + s)[1..] == s;
    Skip([w] + s, Normal, 1, Normal);
  }

  lemma {:induction false} TrimEndKeepsWords(s: string)
    ensures Scan(TrimEnd(s)) == Scan(s)
  {
    hide Scan;
    if s != "" && IsSpace(s[|s| - 1]) {
      TrimEndKeepsWords(s[..|s| - 1]);
      assert s == s[..|s| - 1] + [s[|s| - 1]];
      SpaceAtEnd(s[..|s| - 1], s[|s| - 1]);
    }
  }

  lemma {:induction false} TrimStartKeepsWords(s: string)
    ensures Scan(TrimStart(s)) == Scan(s)
  {
    hide Scan;
    if s != "" && IsSpace(s[0]) {
      TrimStartKeepsWords(s[1..]);
      assert s == [s[0]] + s[1..];
      SpaceAtStart(s[1..], s[0]);
    }
  }

  // A readable text that ends in `;` ends inside a line comment.
  lemma SemicolonAtEnd(p: string)
    requires Scan(p + ";").Ok?
    ensures Scan(p) == Scan(p + ";")
  {
    hide StepNormal, DollarTag, WordLength;
    ScanningComposes(p, ";", Normal);
    var r := Run(p, Normal);
    SemicolonStep();
    if r.Reached? {
      if r.mode == Normal {
        RunStops(";", Normal);
      } else {
        assert StepIn(";", r.mode) == Move(1, r.mode, []);
        Skip(";", r.mode, 1, r.mode);
        RunEmpty(r.mode);
        assert r.words + [] == r.words;
      }
    }
  }

  lemma SemicolonStep()
    ensures StepNormal(";") == Stop(SecondStatement)
  {
    NoTag(";");
  }

  lemma NormalizingKeepsWords(sql: string)
    requires Scan(sql).Ok?
    ensures Scan(StripSemicolon(Trim(sql))) == Scan(sql)
  {
    hide Scan, TrimStart, TrimEnd;
    TrimStartKeepsWords(sql);
    TrimEndKeepsWords(TrimStart(sql));
    var t := Trim(sql);
    if t != "" && t[|t| - 1] == ';' {
      var p := t[..|t| - 1];
      assert t == p + ";";
      SemicolonAtEnd(p);
      TrimEndKeepsWords(p);
    }
  }

  lemma {:induction false} TrimStartBefore(s: string)
    ensures TrimStart(s + ";") == TrimStart(s) + ";"
  {
    if s == "" {
      assert s + ";" == ";" && !IsSpace(';');
    } else if IsSpace(s[0]) {
      assert (s + ";")[0] == s[0] && (s + ";")[1..] == s[1..] + ";";
      TrimStartBefore(s[1..]);
    } else {
      assert (s + ";")[0] == s[0];
    }
  }

  // One final `;` is taken off again.
  lemma FinalSemicolonIsForgiven(sql: string)
    ensures NormalizeSingleStatement(sql + ";").Ok?
    ensures Scan(NormalizeSingleStatement(sql + ";").value) == Scan(sql)
  {
    hide Scan, TrimStart;
    TrimStartBefore(sql);
    var t := TrimStart(sql) + ";";
    assert TrimEnd(t) == t;
    assert t[..|t| - 1] == TrimStart(sql);
    TrimEndKeepsWords(TrimStart(sql));
    TrimStartKeepsWords(sql);
  }

  // ----- the verdict depends on the bare words alone -----

  // Commands that change data, structure, rights or settings.
  ghost const CHANGES: set<string> := {
    "insert", "update", "delete", "merge", "truncate", "copy", "lock",
    "create", "alter", "drop", "comment", "cluster", "refresh", "reindex", "vacuum",
    "grant", "revoke", "set", "reset", "discard", "listen", "unlisten", "notify",
    "call", "do", "execute", "prepare", "deallocate"}

  // Commands that control transactions.
  ghost const TRANSACTIONS: set<string> := {"begin", "start", "savepoint", "release", "commit", "rollback"}

  ghost predicate IsReadonlyQuery(words: seq<string>) {
    && words != [] && (words[0] == "select" || words[0] == "with") && "select" in words
    && forall word :: word in words ==> word !in CHANGES && word !in TRANSACTIONS
  }

  ghost predicate IsExecStatement(words: seq<string>) {
    && words != [] && words[0] != "select"
    && (words[0] == "with" ==> exists word :: word in words && (word in CHANGES || word == "analyze"))
  }

  lemma ForbiddenAreListed(word: string)
    requires word in FORBIDDEN_READONLY_KEYWORDS
    ensures word in CHANGES || word in TRANSACTIONS
  {
  }

  lemma ListedAreForbidden(word: string)
    requires word in CHANGES || word in TRANSACTIONS
    ensures word in FORBIDDEN_READONLY_KEYWORDS
  {
  }

  lemma ExecutableAreListed(word: string)
    requires word in EXEC_KEYWORDS
    ensures word in CHANGES || word == "analyze"
  {
  }

  lemma ListedAreExecutable(word: string)
    requires word in CHANGES || word == "analyze"
    ensures word in EXEC_KEYWORDS
  {
  }

  lemma {:induction false} FirstForbiddenFindsAny(tokens: seq<string>)
    ensures FirstForbidden(tokens).None? <==> forall word :: word in tokens ==> word !in FORBIDDEN_READONLY_KEYWORDS
  {
    hide FORBIDDEN_READONLY_KEYWORDS;
    if tokens != [] {
      FirstForbiddenFindsAny(tokens[1..]);
      assert tokens == [tokens[0]] + tokens[1..];
    }
  }

  lemma ForbiddenIff(word: string)
    ensures word in FORBIDDEN_READONLY_KEYWORDS <==> word in CHANGES || word in TRANSACTIONS
    ensures word in EXEC_KEYWORDS <==> word in CHANGES || word == "analyze"
  {
    hide FORBIDDEN_READONLY_KEYWORDS, EXEC_KEYWORDS, CHANGES, TRANSACTIONS;
    if word in FORBIDDEN_READONLY_KEYWORDS { ForbiddenAreListed(word); }
    if word in CHANGES || word in TRANSACTIONS { ListedAreForbidden(word); }
    if word in EXEC_KEYWORDS { ExecutableAreListed(word); }
    if word in CHANGES || word == "analyze" { ListedAreExecutable(word); }
  }

  lemma VerdictsByWords(normalized: string, tokens: seq<string>)
    ensures ReadonlyVerdict(normalized, tokens).Ok? <==> IsReadonlyQuery(tokens)
    ensures ExecVerdict(normalized, tokens).Ok? <==> IsExecStatement(tokens)
  {
    hide FirstForbidden, FORBIDDEN_READONLY_KEYWORDS, EXEC_KEYWORDS, CHANGES, TRANSACTIONS;
    FirstForbiddenFindsAny(tokens);
    forall word | word in tokens
      ensures word in FORBIDDEN_READONLY_KEYWORDS <==> word in CHANGES || word in TRANSACTIONS
      ensures word in EXEC_KEYWORDS <==> word in CHANGES || word == "analyze"
    {
      ForbiddenIff(word);
    }
  }

  lemma NormalizedIsBlank(sql: string)
    requires Trim(sql) == ""
    ensures Scan(sql) == Ok([])
  {
    hide Scan, TrimStart, TrimEnd;
    TrimStartKeepsWords(sql);
    TrimEndKeepsWords(TrimStart(sql));
    EmptyScans();
  }

  // Whatever stands in quotes, comments and dollar quotes, and with or without a final `;`.
  lemma GatesReadBareWords(items: seq<Item>)
    requires forall item :: item in items ==> ValidItem(item)
    ensures Readonly(RenderAll(items)).Ok? <==> IsReadonlyQuery(Words(items))
    ensures Readonly(RenderAll(items) + ";").Ok? <==> IsReadonlyQuery(Words(items))
    ensures Exec(RenderAll(items)).Ok? <==> IsExecStatement(Words(items))
    ensures Exec(RenderAll(items) + ";").Ok? <==> IsExecStatement(Words(items))
  {
    hide Scan, Trim, StripSemicolon, RenderAll, ReadonlyVerdict, ExecVerdict, IsReadonlyQuery, IsExecStatement,
        ValidItem, Words;
    var sql := RenderAll(items);
    ScanInvertsRender(items);
    FinalSemicolonIsForgiven(sql);
    VerdictsByWords(NormalizeSingleStatement(sql + ";").value, Words(items));
    if Trim(sql) == "" {
      NormalizedIsBlank(sql);
      NoWordsNoStatement();
    } else {
      NormalizingKeepsWords(sql);
      VerdictsByWords(StripSemicolon(Trim(sql)), Words(items));
    }
  }

  lemma NoWordsNoStatement()
    ensures !IsReadonlyQuery([]) && !IsExecStatement([])
  {
  }

  // The gates exclude each other but for a read-only WITH that mentions `analyze`.
  lemma GatesOverlapOnlyOnAnalyze(sql: string)
    requires Readonly(sql).Ok?
    ensures Exec(sql).Ok? <==>
            var words := Scan(NormalizeSingleStatement(sql).value).value;
            words[0] == "with" && "analyze" in words
  {
    hide Scan, NormalizeSingleStatement, ReadonlyVerdict, ExecVerdict, CHANGES, TRANSACTIONS;
    var normalized := NormalizeSingleStatement(sql).value;
    VerdictsByWords(normalized, Scan(normalized).value);
  }

  // `with analyze as (select 1) select * from analyze`, one item on each line.
  const READS_ANALYZE: seq<Item> := [
    Word("with"), Word("analyze"), Word("as"), Symbol('('), Word("select"), Symbol('1'), Symbol(')'), Word("select"),
    Symbol('*'), Word("from"), Word("analyze")]

  const READS_ANALYZE_WORDS: seq<string> := ["with", "analyze", "as", "select", "select", "from", "analyze"]

  lemma NextWords(items: seq<Item>, k: nat)
    requires k < |items|
    ensures Words(items[k..]) == WordsOf(items[k]) + Words(items[k + 1..])
  {
    assert items[k..][0] == items[k] && items[k..][1..] == items[k + 1..];
  }

  lemma LowerCaseStays()
    ensures Lower("with") == "with" && Lower("analyze") == "analyze" && Lower("as") == "as"
    ensures Lower("select") == "select" && Lower("from") == "from"
  {
  }

  lemma WordsOfItsEnd()
    ensures Words(READS_ANALYZE[7..]) == ["select", "from", "analyze"]
  {
    var items := READS_ANALYZE;
    assert items[11..] == [] && Words([]) == [];
    LowerCaseStays();
    hide Lower, Words;
    NextWords(items, 10);
    assert Words(items[10..]) == ["analyze"];
    NextWords(items, 9);
    assert Words(items[9..]) == ["from", "analyze"];
    NextWords(items, 8);
    NextWords(items, 7);
  }

  lemma WordsOfItsMiddle()
    ensures Words(READS_ANALYZE[3..]) == ["select", "select", "from", "analyze"]
  {
    var items := READS_ANALYZE;
    LowerCaseStays();
    WordsOfItsEnd();
    hide Lower, Words;
    NextWords(items, 6);
    NextWords(items, 5);
    assert Words(items[5..]) == ["select", "from", "analyze"];
    NextWords(items, 4);
    NextWords(items, 3);
  }

  lemma WordsOfReadsAnalyze()
    ensures Words(READS_ANALYZE) == READS_ANALYZE_WORDS
  {
    var items := READS_ANALYZE;
    LowerCaseStays();
    WordsOfItsMiddle();
    hide Lower, Words;
    NextWords(items, 2);
    assert Words(items[2..]) == ["as", "select", "select", "from", "analyze"];
    NextWords(items, 1);
    NextWords(items, 0);
    assert items[0..] == items;
  }

  lemma TheseAreWords()
    ensures IsWord("with") && IsWord("analyze") && IsWord("as") && IsWord("select") && IsWord("from")
  {
  }

  lemma ReadsAnalyzeIsValid()
    ensures forall item :: item in READS_ANALYZE ==> ValidItem(item)
  {
    TheseAreWords();
    hide IsWord;
  }

  lemma WithIsNotForbidden()
    ensures "with" !in CHANGES && "with" !in TRANSACTIONS
  {
    assert "with" !in FORBIDDEN_READONLY_KEYWORDS;
    hide FORBIDDEN_READONLY_KEYWORDS, EXEC_KEYWORDS, CHANGES, TRANSACTIONS;
    ForbiddenIff("with");
  }

  lemma AnalyzeIsNotForbidden()
    ensures "analyze" !in CHANGES && "analyze" !in TRANSACTIONS
  {
    assert "analyze" !in FORBIDDEN_READONLY_KEYWORDS;
    hide FORBIDDEN_READONLY_KEYWORDS, EXEC_KEYWORDS, CHANGES, TRANSACTIONS;
    ForbiddenIff("analyze");
  }

  lemma AsIsNotForbidden()
    ensures "as" !in CHANGES && "as" !in TRANSACTIONS
  {
    assert "as" !in FORBIDDEN_READONLY_KEYWORDS;
    hide FORBIDDEN_READONLY_KEYWORDS, EXEC_KEYWORDS, CHANGES, TRANSACTIONS;
    ForbiddenIff("as");
  }

  lemma SelectIsNotForbidden()
    ensures "select" !in CHANGES && "select" !in TRANSACTIONS
  {
    assert "select" !in FORBIDDEN_READONLY_KEYWORDS;
    hide FORBIDDEN_READONLY_KEYWORDS, EXEC_KEYWORDS, CHANGES, TRANSACTIONS;
    ForbiddenIff("select");
  }

  lemma FromIsNotForbidden()
    ensures "from" !in CHANGES && "from" !in TRANSACTIONS
  {
    assert "from" !in FORBIDDEN_READONLY_KEYWORDS;
    hide FORBIDDEN_READONLY_KEYWORDS, EXEC_KEYWORDS, CHANGES, TRANSACTIONS;
    ForbiddenIff("from");
  }

  lemma WordsPassBothRules()
    ensures IsReadonlyQuery(READS_ANALYZE_WORDS) && IsExecStatement(READS_ANALYZE_WORDS)
  {
    WithIsNotForbidden();
    AnalyzeIsNotForbidden();
    AsIsNotForbidden();
    SelectIsNotForbidden();
    FromIsNotForbidden();
    hide CHANGES, TRANSACTIONS;
    assert READS_ANALYZE_WORDS[1] == "analyze" && READS_ANALYZE_WORDS[3] == "select";
  }

  // A statement that both gates let pass.
  lemma BothGatesMayPass()
    ensures Readonly(RenderAll(READS_ANALYZE)).Ok? && Exec(RenderAll(READS_ANALYZE)).Ok?
  {
    hide Readonly, Exec, IsReadonlyQuery, IsExecStatement, RenderAll, Words, ValidItem, READS_ANALYZE_WORDS;
    WordsOfReadsAnalyze();
    ReadsAnalyzeIsValid();
    GatesReadBareWords(READS_ANALYZE);
    WordsPassBothRules();
  }
}
