/**
 The SQL keyword scanner (crates/summer-mcp/src/table_tools/sql_scanner.rs:187-389).
 The scanner runs over the bytes of the text. Every byte it tells apart is
 ASCII, so a string of characters behaves as its bytes do: a character outside
 ASCII is stepped over in every mode, as each of its bytes is.
 */
module SqlScanner {
  import opened Wrappers

  datatype ScanError =
    | SecondStatement
    | OpenString
    | OpenIdentifier
    | OpenComment
    | OpenDollarQuote

  datatype Mode =
    | Normal
    | SingleQuoted
    | DoubleQuoted
    | LineComment
    | BlockComment(depth: nat)
    | DollarQuoted(tag: string)

  type Tokens = Result<seq<string>, ScanError>

  // One turn of the scanning loop: stop with an error, or consume some
  // characters, go to a mode and produce the words found.
  datatype Step = Stop(error: ScanError) | Move(length: nat, mode: Mode, words: seq<string>)

  // A whole stretch of text scanned.
  datatype Scanned = Stopped(error: ScanError) | Reached(words: seq<string>, mode: Mode)

  predicate IsAlpha(c: char) { 'a' <= c <= 'z' || 'A' <= c <= 'Z' }

  predicate IsWordStart(c: char) { IsAlpha(c) || c == '_' }

  predicate IsWordChar(c: char) { IsWordStart(c) || '0' <= c <= '9' }

  function LowerChar(c: char): char {
    if 'A' <= c <= 'Z' then c - 'A' + 'a' else c
  }

  function Lower(s: string): (r: string)
    ensures |r| == |s| && forall i :: 0 <= i < |s| ==> r[i] == LowerChar(s[i])
  {
    seq(|s|, i requires 0 <= i < |s| => LowerChar(s[i]))
  }

  predicate At(s: string, i: nat, c: char) { i < |s| && s[i] == c }

  // ----- specification: one turn on what is left of the text -----

  // Length of the word characters in front.
  function WordLength(s: string): (n: nat)
    ensures n <= |s|
    ensures forall i :: 0 <= i < n ==> IsWordChar(s[i])
    ensures n < |s| ==> !IsWordChar(s[n])
  {
    if s != "" && IsWordChar(s[0]) then 1 + WordLength(s[1..]) else 0
  }

  predicate IsTag(tag: string) {
    && |tag| >= 2 && tag[0] == '$' && tag[|tag| - 1] == '$'
    && forall i :: 0 < i < |tag| - 1 ==> IsWordChar(tag[i])
  }

  // `$name$` in front of the text, with a possibly empty name.
  function DollarTag(s: string): (tag: Option<string>)
    ensures tag.Some? ==> IsTag(tag.value) && tag.value <= s
  {
    if !At(s, 0, '$') then None
    else
      var end := 1 + WordLength(s[1..]);
      if !At(s, end, '$') then None
      else
        assert forall i :: 0 < i < end ==> s[i] == s[1..][i - 1];
        Some(s[..end + 1])
  }

  predicate ValidMode(mode: Mode) {
    && (mode.BlockComment? ==> mode.depth >= 1)
    && (mode.DollarQuoted? ==> IsTag(mode.tag))
  }

  predicate ValidStep(step: Step, s: string) {
    step.Move? ==> 1 <= step.length <= |s| && ValidMode(step.mode)
  }

  function StepNormal(s: string): (step: Step)
    requires s != ""
    ensures ValidStep(step, s)
  {
    var tag := DollarTag(s);
    if "--" <= s then Move(2, LineComment, [])
    else if "/*" <= s then Move(2, BlockComment(1), [])
    else if (s[0] == 'E' || s[0] == 'e') && At(s, 1, '\'') then Move(2, SingleQuoted, [])
    else if (s[0] == 'U' || s[0] == 'u') && At(s, 1, '&') && At(s, 2, '\'') then Move(3, SingleQuoted, [])
    else if (s[0] == 'U' || s[0] == 'u') && At(s, 1, '&') && At(s, 2, '"') then Move(3, DoubleQuoted, [])
    else if s[0] == '\'' then Move(1, SingleQuoted, [])
    else if s[0] == '"' then Move(1, DoubleQuoted, [])
    else if tag.Some? then Move(|tag.value|, DollarQuoted(tag.value), [])
    else if s[0] == ';' then Stop(SecondStatement)
    else if IsWordStart(s[0]) then Move(WordLength(s), Normal, [Lower(s[..WordLength(s)])])
    else Move(1, Normal, [])
  }

  function StepQuoted(s: string, quote: char, mode: Mode): (step: Step)
    requires s != "" && ValidMode(mode)
    ensures ValidStep(step, s)
  {
    if s[0] != quote then Move(1, mode, [])
    else if At(s, 1, quote) then Move(2, mode, [])
    else Move(1, Normal, [])
  }

  function StepBlock(s: string, depth: nat): (step: Step)
    requires s != "" && depth >= 1
    ensures ValidStep(step, s)
  {
    if "/*" <= s then Move(2, BlockComment(depth + 1), [])
    else if "*/" <= s then Move(2, if depth == 1 then Normal else BlockComment(depth - 1), [])
    else Move(1, BlockComment(depth), [])
  }

  function StepIn(s: string, mode: Mode): (step: Step)
    requires s != "" && ValidMode(mode)
    ensures ValidStep(step, s)
  {
    match mode
    case Normal => StepNormal(s)
    case SingleQuoted => StepQuoted(s, '\'', mode)
    case DoubleQuoted => StepQuoted(s, '"', mode)
    case LineComment => Move(1, if s[0] == '\n' then Normal else mode, [])
    case BlockComment(depth) => StepBlock(s, depth)
    case DollarQuoted(tag) => if tag <= s then Move(|tag|, Normal, []) else Move(1, mode, [])
  }

  // ----- specification: the whole text -----

  function Prepend(words: seq<string>, rest: Scanned): Scanned {
    if rest.Reached? then rest.(words := words + rest.words) else rest
  }

  function Run(s: string, mode: Mode): (r: Scanned)
    requires ValidMode(mode)
    ensures r.Reached? ==> ValidMode(r.mode)
    decreases |s|
  {
    if s == "" then Reached([], mode)
    else
      match StepIn(s, mode)
      case Stop(error) => Stopped(error)
      case Move(length, next, words) => Prepend(words, Run(s[length..], next))
  }

  function Finish(r: Scanned): Tokens {
    if r.Stopped? then Err(r.error)
    else
      match r.mode
      case Normal => Ok(r.words)
      case LineComment => Ok(r.words)
      case SingleQuoted => Err(OpenString)
      case DoubleQuoted => Err(OpenIdentifier)
      case BlockComment(_) => Err(OpenComment)
      case DollarQuoted(_) => Err(OpenDollarQuote)
  }

  function Scan(sql: string): Tokens { Finish(Run(sql, Normal)) }

  // ----- the scanner itself, by index -----

  predicate MatchesBytes(haystack: string, start: nat, needle: string)
    requires start <= |haystack|
  {
    needle <= haystack[start..]
  }

  method ParseDollarQuoteTag(bytes: string, start: nat) returns (tag: Option<string>)
    requires start <= |bytes|
    ensures tag == DollarTag(bytes[start..])
  {
    if !At(bytes, start, '$') {
      return None;
    }
    var end := start + 1;
    while end < |bytes| && IsWordChar(bytes[end])
      invariant start < end <= |bytes|
      invariant start + 1 + WordLength(bytes[start + 1..]) == end + WordLength(bytes[end..])
    {
      assert bytes[end..][1..] == bytes[end + 1..];
      end := end + 1;
    }
    assert WordLength(bytes[end..]) == 0;
    assert bytes[start..][1..] == bytes[start + 1..];
    if !At(bytes, end, '$') {
      return None;
    }
    assert bytes[start..][..end + 1 - start] == bytes[start..end + 1];
    return Some(bytes[start..end + 1]);
  }

  // The inner loop over a bare word.
  method WordEnd(bytes: string, start: nat) returns (index: nat)
    requires start < |bytes| && IsWordStart(bytes[start])
    ensures start < index <= |bytes|
    ensures index == start + WordLength(bytes[start..])
  {
    index := start + 1;
    assert bytes[start..][1..] == bytes[index..];
    while index < |bytes| && IsWordChar(bytes[index])
      invariant start < index <= |bytes|
      invariant start + WordLength(bytes[start..]) == index + WordLength(bytes[index..])
    {
      assert bytes[index..][1..] == bytes[index + 1..];
      index := index + 1;
    }
  }

  // The branches of the `Normal` mode.
  method NormalTurn(sql: string, start: nat, tokens: seq<string>)
    returns (failed: bool, state: Mode, index: nat, tokens': seq<string>)
    requires start < |sql|
    ensures start <= index <= |sql| && tokens <= tokens'
    ensures StepNormal(sql[start..]) ==
            if failed then Stop(SecondStatement) else Move(index - start, state, tokens'[|tokens|..])
  {
    failed, state, index, tokens' := false, Normal, start + 1, tokens;
    if MatchesBytes(sql, start, "--") {
      state, index := LineComment, start + 2;
    } else if MatchesBytes(sql, start, "/*") {
      state, index := BlockComment(1), start + 2;
    } else if (sql[start] == 'E' || sql[start] == 'e') && At(sql, start + 1, '\'') {
      state, index := SingleQuoted, start + 2;
    } else if (sql[start] == 'U' || sql[start] == 'u') && At(sql, start + 1, '&') && At(sql, start + 2, '\'') {
      state, index := SingleQuoted, start + 3;
    } else if (sql[start] == 'U' || sql[start] == 'u') && At(sql, start + 1, '&') && At(sql, start + 2, '"') {
      state, index := DoubleQuoted, start + 3;
    } else if sql[start] == '\'' {
      state := SingleQuoted;
    } else if sql[start] == '"' {
      state := DoubleQuoted;
    } else {
      var tag := ParseDollarQuoteTag(sql, start);
      if tag.Some? {
        state, index := DollarQuoted(tag.value), start + |tag.value|;
      } else if sql[start] == ';' {
        failed := true;
      } else if IsWordStart(sql[start]) {
        index := WordEnd(sql, start);
        assert sql[start..index] == sql[start..][..index - start];
        tokens' := tokens + [Lower(sql[start..index])];
      }
    }
  }

  // The branches inside a quoted string or identifier.
  method QuotedTurn(sql: string, start: nat, quote: char, mode: Mode) returns (state: Mode, index: nat)
    requires start < |sql| && ValidMode(mode)
    ensures start <= index <= |sql|
    ensures StepQuoted(sql[start..], quote, mode) == Move(index - start, state, [])
  {
    state, index := mode, start;
    if sql[index] == quote {
      if index + 1 < |sql| && sql[index + 1] == quote {
        index := index + 2;
      } else {
        state, index := Normal, index + 1;
      }
    } else {
      index := index + 1;
    }
  }

  // The branches inside a block comment.
  method BlockTurn(sql: string, start: nat, depth: nat) returns (state: Mode, index: nat)
    requires start < |sql| && depth >= 1
    ensures start <= index <= |sql|
    ensures StepBlock(sql[start..], depth) == Move(index - start, state, [])
  {
    state, index := BlockComment(depth), start;
    if MatchesBytes(sql, index, "/*") {
      state, index := BlockComment(depth + 1), index + 2;
    } else if MatchesBytes(sql, index, "*/") {
      state, index := BlockComment(depth - 1), index + 2;
      if state.depth == 0 {
        state := Normal;
      }
    } else {
      index := index + 1;
    }
  }

  lemma RunStep(s: string, index: nat, mode: Mode, tokens: seq<string>, step: Step)
    requires index < |s| && ValidMode(mode)
    requires step.Move? && step == StepIn(s[index..], mode)
    ensures Prepend(tokens, Run(s[index..], mode)) ==
            Prepend(tokens + step.words, Run(s[index + step.length..], step.mode))
  {
    hide StepIn;
    assert s[index..][step.length..] == s[index + step.length..];
    var rest := Run(s[index + step.length..], step.mode);
    if rest.Reached? {
      assert tokens + (step.words + rest.words) == tokens + step.words + rest.words;
    }
  }

  method CollectSqlTokens(sql: string) returns (result: Tokens)
    ensures result == Scan(sql)
  {
    hide StepNormal, StepQuoted, StepBlock, Run, DollarTag;
    var tokens: seq<string> := [];
    var state := Normal;
    var index := 0;
    assert sql[0..] == sql;
    while index < |sql|
      invariant 0 <= index <= |sql| && ValidMode(state)
      invariant Run(sql, Normal) == Prepend(tokens, Run(sql[index..], state))
      decreases |sql| - index
    {
      ghost var start, mode, before := index, state, tokens;
      match state {
        case Normal =>
          var failed;
          failed, state, index, tokens := NormalTurn(sql, index, tokens);
          if failed {
            RunStops(sql[start..], mode);
            return Err(SecondStatement);
          }
        case SingleQuoted =>
          state, index := QuotedTurn(sql, index, '\'', state);
        case DoubleQuoted =>
          state, index := QuotedTurn(sql, index, '"', state);
        case LineComment =>
          if sql[index] == '\n' {
            state := Normal;
          }
          index := index + 1;
        case BlockComment(depth) =>
          state, index := BlockTurn(sql, index, depth);
        case DollarQuoted(tag) =>
          if tag <= sql[index..] {
            state, index := Normal, index + |tag|;
          } else {
            index := index + 1;
          }
      }
      assert StepIn(sql[start..], mode) == Move(index - start, state, tokens[|before|..]);
      RunStep(sql, start, mode, before, Move(index - start, state, tokens[|before|..]));
    }
    RunEmpty(state);
    assert sql[index..] == "";
    assert Run(sql, Normal) == Reached(tokens, state);
    match state
    case Normal => return Ok(tokens);
    case LineComment => return Ok(tokens);
    case SingleQuoted => return Err(OpenString);
    case DoubleQuoted => return Err(OpenIdentifier);
    case BlockComment(_) => return Err(OpenComment);
    case DollarQuoted(_) => return Err(OpenDollarQuote);
  }

  lemma RunEmpty(mode: Mode)
    requires ValidMode(mode)
    ensures Run("", mode) == Reached([], mode)
  {
  }

  lemma RunStops(s: string, mode: Mode)
    requires s != "" && ValidMode(mode) && StepIn(s, mode).Stop?
    ensures Run(s, mode) == Stopped(StepIn(s, mode).error)
  {
  }
}
