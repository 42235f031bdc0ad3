/**
 What the SQL gates answer: the text they let through and the reason of each refusal
 (crates/summer-mcp/src/table_tools/sql_scanner.rs:105-200).
 */
module SqlVerdicts {
  import opened Wrappers
  import opened SqlScanner
  import opened SqlGates
  import opened Text

  // The characters of the Unicode property White_Space.
  ghost predicate WhiteSpace(c: char) {
    c as int in {
      0x09, 0x0A, 0x0B, 0x0C, 0x0D, 0x20, 0x85, 0xA0, 0x1680, 0x2000, 0x2001, 0x2002, 0x2003, 0x2004, 0x2005, 0x2006,
      0x2007, 0x2008, 0x2009, 0x200A, 0x2028, 0x2029, 0x202F, 0x205F, 0x3000}
  }

  ghost predicate AllSpace(s: string) {
    forall c :: c in s ==> WhiteSpace(c)
  }

  ghost predicate NoSpaceAtEnds(s: string) {
    s != "" ==> !WhiteSpace(s[0]) && !WhiteSpace(s[|s| - 1])
  }

  lemma SpacesAreWhiteSpace(c: char)
    ensures IsSpace(c) <==> WhiteSpace(c)
  {
  }

  // ----- the text -----

  lemma {:induction false} TrimmedStart(s: string) returns (lead: string)
    ensures s == lead + TrimStart(s) && AllSpace(lead)
    ensures TrimStart(s) != "" ==> !WhiteSpace(TrimStart(s)[0])
  {
    hide IsSpace, WhiteSpace;
    lead := "";
    if s != "" {
      SpacesAreWhiteSpace(s[0]);
      if IsSpace(s[0]) {
        var more := TrimmedStart(s[1..]);
        lead := [s[0]] + more;
      }
    }
  }

  lemma {:induction false} TrimmedEnd(s: string) returns (tail: string)
    ensures s == TrimEnd(s) + tail && AllSpace(tail)
    ensures TrimEnd(s) != "" ==> !WhiteSpace(TrimEnd(s)[|TrimEnd(s)| - 1]) && TrimEnd(s)[0] == s[0]
  {
    hide IsSpace, WhiteSpace;
    tail := "";
    if s != "" {
      SpacesAreWhiteSpace(s[|s| - 1]);
      if IsSpace(s[|s| - 1]) {
        var more := TrimmedEnd(s[..|s| - 1]);
        tail := more + [s[|s| - 1]];
      }
    }
  }

  // A statement is taken with the white space around it and one final `;` removed, nothing else.
  lemma OneStatement(sql: string) returns (lead: string, gap: string, end: string, tail: string)
    requires NormalizeSingleStatement(sql).Ok?
    ensures var v := NormalizeSingleStatement(sql).value;
            && sql == lead + v + gap + end + tail && AllSpace(lead) && AllSpace(gap) && AllSpace(tail)
            && NoSpaceAtEnds(v)
            && if end == "" then gap == "" && v != "" && v[|v| - 1] != ';' else end == ";"
  {
    hide WhiteSpace, IsSpace, TrimStart, TrimEnd;
    lead := TrimmedStart(sql);
    tail := TrimmedEnd(TrimStart(sql));
    gap, end := "", "";
    var t := Trim(sql);
    if t[|t| - 1] == ';' {
      end := ";";
      gap := TrimmedEnd(t[..|t| - 1]);
      assert t == t[..|t| - 1] + ";";
      assert sql == lead + (TrimEnd(t[..|t| - 1]) + gap + ";" + tail);
    } else {
      assert sql == lead + (t + tail);
    }
  }

  // Only white space is no statement.
  lemma BlankIff(sql: string)
    ensures NormalizeSingleStatement(sql) == Err(BlankSql) <==> AllSpace(sql)
  {
    hide WhiteSpace, IsSpace, TrimStart, TrimEnd;
    var lead := TrimmedStart(sql);
    var tail := TrimmedEnd(TrimStart(sql));
    if Trim(sql) != "" {
      assert Trim(sql)[0] == TrimStart(sql)[0] == sql[|lead|];
      assert sql[|lead|] in sql;
    }
  }

  // ----- the verdict -----

  // The first word that no read-only query may hold.
  ghost predicate IsFirstForbidden(words: seq<string>, keyword: string) {
    exists i :: 0 <= i < |words| && words[i] == keyword && (keyword in CHANGES || keyword in TRANSACTIONS)
                && forall j :: 0 <= j < i ==> words[j] !in CHANGES && words[j] !in TRANSACTIONS
  }

  lemma {:induction false} FirstForbiddenIsFirst(tokens: seq<string>)
    requires FirstForbidden(tokens).Some?
    ensures IsFirstForbidden(tokens, FirstForbidden(tokens).value)
  {
    hide CHANGES, TRANSACTIONS, FORBIDDEN_READONLY_KEYWORDS, EXEC_KEYWORDS, IsFirstForbidden;
    ForbiddenIff(tokens[0]);
    if tokens[0] in FORBIDDEN_READONLY_KEYWORDS {
      FoundAtOnce(tokens, tokens[0]);
    } else {
      FirstForbiddenIsFirst(tokens[1..]);
      FoundLater(tokens, FirstForbidden(tokens).value);
    }
  }

  lemma FoundAtOnce(words: seq<string>, keyword: string)
    requires words != [] && words[0] == keyword && (keyword in CHANGES || keyword in TRANSACTIONS)
    ensures IsFirstForbidden(words, keyword)
  {
    hide CHANGES, TRANSACTIONS;
  }

  lemma FoundLater(words: seq<string>, keyword: string)
    requires words != [] && words[0] !in CHANGES && words[0] !in TRANSACTIONS
    requires IsFirstForbidden(words[1..], keyword)
    ensures IsFirstForbidden(words, keyword)
  {
    hide CHANGES, TRANSACTIONS;
    var i :| 0 <= i < |words[1..]| && words[1..][i] == keyword
      && forall j :: 0 <= j < i ==> words[1..][j] !in CHANGES && words[1..][j] !in TRANSACTIONS;
    assert words[i + 1] == keyword;
    assert forall j :: 0 < j < i + 1 ==> words[j] == words[1..][j - 1];
  }

  // The read-only gate returns the statement itself, or the first thing that is wrong with its words.
  lemma ReadonlyAnswer(sql: string)
    requires NormalizeSingleStatement(sql).Ok? && Scan(NormalizeSingleStatement(sql).value).Ok?
    ensures var v := NormalizeSingleStatement(sql).value; var words := Scan(v).value;
            match Readonly(sql)
            case Ok(text) => text == v && IsReadonlyQuery(words)
            case Err(NoStatement) => words == []
            case Err(NotAQuery) => words != [] && words[0] != "select" && words[0] != "with"
            case Err(NeverSelects) => words != [] && words[0] == "with" && "select" !in words
            case Err(ForbiddenKeyword(keyword)) =>
              words != [] && (words[0] == "select" || words[0] == "with") && "select" in words
              && IsFirstForbidden(words, keyword)
            case Err(_) => false
  {
    hide NormalizeSingleStatement, Scan, FirstForbidden, IsFirstForbidden, FORBIDDEN_READONLY_KEYWORDS, CHANGES,
      TRANSACTIONS;
    var v := NormalizeSingleStatement(sql).value;
    var words := Scan(v).value;
    VerdictsByWords(v, words);
    if FirstForbidden(words).Some? {
      FirstForbiddenIsFirst(words);
    }
  }

  // The same for the exec gate.
  lemma ExecAnswer(sql: string)
    requires NormalizeSingleStatement(sql).Ok? && Scan(NormalizeSingleStatement(sql).value).Ok?
    ensures var v := NormalizeSingleStatement(sql).value; var words := Scan(v).value;
            match Exec(sql)
            case Ok(text) => text == v && IsExecStatement(words)
            case Err(NoStatement) => words == []
            case Err(SelectNotAccepted) => words != [] && words[0] == "select"
            case Err(ReadOnlyWith) =>
              && words != [] && words[0] == "with"
              && forall word :: word in words ==> word !in CHANGES && word != "analyze"
            case Err(_) => false
  {
    hide NormalizeSingleStatement, Scan, EXEC_KEYWORDS, CHANGES;
    var v := NormalizeSingleStatement(sql).value;
    VerdictsByWords(v, Scan(v).value);
  }

  // A blank or unreadable text is refused as such by both.
  lemma UnreadableAnswer(sql: string)
    ensures AllSpace(sql) ==> Readonly(sql) == Err(BlankSql) && Exec(sql) == Err(BlankSql)
    ensures !AllSpace(sql) ==> NormalizeSingleStatement(sql).Ok?
    ensures !AllSpace(sql) && Scan(NormalizeSingleStatement(sql).value).Err? ==>
              var reason := Unreadable(Scan(NormalizeSingleStatement(sql).value).error);
              Readonly(sql) == Err(reason) && Exec(sql) == Err(reason)
  {
    hide Scan, AllSpace, ReadonlyVerdict, ExecVerdict;
    BlankIff(sql);
  }
}
