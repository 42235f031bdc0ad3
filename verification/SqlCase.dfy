/**
 The case of bare words does not matter: tokens are in lower case, and texts that differ only in the
 ASCII case of bare words have the same tokens and pass the same gates
 (crates/summer-mcp/src/table_tools/sql_scanner.rs:105-300).
 */
module SqlCase {
  import opened SqlScanner
  import opened SqlScannerLaws
  import opened SqlGates
  import opened Text

  // ----- tokens -----

  // A lower case name: letters, digits and underscores, not starting with a digit.
  ghost predicate IsLowerName(token: string) {
    && token != "" && !('0' <= token[0] <= '9')
    && forall i :: 0 <= i < |token| ==> 'a' <= token[i] <= 'z' || '0' <= token[i] <= '9' || token[i] == '_'
  }

  lemma TurnFindsLowerNames(s: string, mode: Mode)
    requires s != "" && ValidMode(mode) && StepIn(s, mode).Move?
    ensures forall token :: token in StepIn(s, mode).words ==> IsLowerName(token)
  {
    hide DollarTag;
  }

  lemma {:induction false} RunFindsLowerNames(s: string, mode: Mode)
    requires ValidMode(mode) && Run(s, mode).Reached?
    ensures forall token :: token in Run(s, mode).words ==> IsLowerName(token)
    decreases |s|
  {
    hide StepIn, IsLowerName;
    if s != "" {
      var step := StepIn(s, mode);
      TurnFindsLowerNames(s, mode);
      RunFindsLowerNames(s[step.length..], step.mode);
    }
  }

  // Every token of a readable text is a lower case name; no character of it is in 'A'..'Z'.
  lemma TokensAreLowerNames(sql: string, token: string)
    requires Scan(sql).Ok? && token in Scan(sql).value
    ensures IsLowerName(token) && forall c :: c in token ==> !('A' <= c <= 'Z')
  {
    RunFindsLowerNames(sql, Normal);
  }

  // ----- texts that differ in case -----

  // The same character, or the same ASCII letter in the other case.
  ghost predicate SameLetter(c: char, d: char) {
    || c == d
    || ('A' <= c <= 'Z' && d as int == c as int + 32)
    || ('a' <= c <= 'z' && d as int == c as int - 32)
  }

  ghost predicate SameLetters(s: string, t: string) {
    |s| == |t| && forall i :: 0 <= i < |s| ==> SameLetter(s[i], t[i])
  }

  // Turn by turn of the scanner on `s`: bare words may differ in case, all else is the same.
  ghost predicate SameButCase(s: string, t: string, mode: Mode)
    requires ValidMode(mode)
    decreases |s|
  {
    if s == "" then t == ""
    else
      match StepIn(s, mode)
      case Stop(_) => s == t
      case Move(n, next, words) =>
        && n <= |t| && (if words == [] then s[..n] == t[..n] else SameLetters(s[..n], t[..n]))
        && SameButCase(s[n..], t[n..], next)
  }

  lemma {:induction false} DiffersInLettersOnly(s: string, t: string, mode: Mode)
    requires ValidMode(mode) && SameButCase(s, t, mode)
    ensures SameLetters(s, t)
    decreases |s|
  {
    hide StepIn;
    if s != "" {
      var step := StepIn(s, mode);
      if step.Move? {
        var n := step.length;
        DiffersInLettersOnly(s[n..], t[n..], step.mode);
        assert s == s[..n] + s[n..] && t == t[..n] + t[n..];
        assert forall i :: 0 <= i < n ==> s[i] == s[..n][i] && t[i] == t[..n][i];
      }
    }
  }

  lemma {:induction false} SameWordLength(s: string, t: string)
    requires SameLetters(s, t)
    ensures WordLength(s) == WordLength(t)
  {
    if s != "" {
      SameWordLength(s[1..], t[1..]);
    }
  }

  lemma SameLower(s: string, t: string)
    requires SameLetters(s, t)
    ensures Lower(s) == Lower(t)
  {
  }

  // A pattern of other characters is found in both or in neither.
  lemma SamePattern(pattern: string, s: string, t: string)
    requires SameLetters(s, t) && forall c :: c in pattern ==> !IsAlpha(c)
    ensures pattern <= s <==> pattern <= t
  {
    assert forall i :: 0 <= i < |pattern| ==> pattern[i] in pattern;
  }

  lemma SameLooks(s: string, t: string)
    requires s != "" && SameLetters(s, t)
    ensures forall i: nat, c :: !IsAlpha(c) ==> At(t, i, c) == At(s, i, c)
    ensures (t[0] == 'E' || t[0] == 'e') == (s[0] == 'E' || s[0] == 'e')
    ensures (t[0] == 'U' || t[0] == 'u') == (s[0] == 'U' || s[0] == 'u')
    ensures IsWordStart(t[0]) == IsWordStart(s[0])
    ensures forall c :: !IsAlpha(c) ==> (t[0] == c) == (s[0] == c)
  {
  }

  lemma SameTag(s: string, t: string)
    requires s != "" && SameLetters(s, t)
    requires DollarTag(s).Some? ==> s[..|DollarTag(s).value|] == t[..|DollarTag(s).value|]
    ensures DollarTag(t) == DollarTag(s)
  {
    SameWordLength(s[1..], t[1..]);
    SameLooks(s, t);
    hide WordLength, IsAlpha;
  }

  lemma SameNormalTurn(s: string, t: string)
    requires s != "" && SameLetters(s, t)
    requires var step := StepNormal(s); step.Move? && step.words == [] ==> s[..step.length] == t[..step.length]
    ensures StepNormal(t) == StepNormal(s)
  {
    SamePattern("--", s, t);
    SamePattern("/*", s, t);
    SameLooks(s, t);
    SameWordLength(s, t);
    SameLower(s[..WordLength(s)], t[..WordLength(s)]);
    hide WordLength, Lower, DollarTag, SameLetters, IsWordStart;
    if DollarTag(s).Some? ==> s[..|DollarTag(s).value|] == t[..|DollarTag(s).value|] {
      SameTag(s, t);
    }
  }

  // Inside a dollar quote the two texts agree at least over the length of the tag.
  lemma {:induction false} SameInDollarQuote(s: string, t: string, tag: string)
    requires IsTag(tag) && SameButCase(s, t, DollarQuoted(tag))
    ensures |s| == |t| && forall i :: 0 <= i < |tag| && i < |s| ==> s[i] == t[i]
    decreases |s|
  {
    DiffersInLettersOnly(s, t, DollarQuoted(tag));
    if s != "" {
      if tag <= s {
        assert forall i :: 0 <= i < |tag| ==> s[i] == s[..|tag|][i] && t[i] == t[..|tag|][i];
      } else {
        assert s[0] == s[..1][0] && t[0] == t[..1][0];
        SameInDollarQuote(s[1..], t[1..], tag);
        assert forall i :: 0 < i < |s| ==> s[i] == s[1..][i - 1] && t[i] == t[1..][i - 1];
      }
    }
  }

  lemma SameTurn(s: string, t: string, mode: Mode)
    requires s != "" && ValidMode(mode) && SameButCase(s, t, mode)
    ensures t != "" && StepIn(t, mode) == StepIn(s, mode)
  {
    hide StepNormal, Run, SameButCase;
    DiffersInLettersOnly(s, t, mode);
    SameLooks(s, t);
    assert StepNormal(s).Stop? ==> SameLetters(s, t);
    match mode
    case Normal =>
      TurnsAgree(s, t, mode);
      SameNormalTurn(s, t);
    case SingleQuoted =>
    case DoubleQuoted =>
    case LineComment =>
    case BlockComment(_) =>
      SamePattern("/*", s, t);
      SamePattern("*/", s, t);
    case DollarQuoted(tag) =>
      SameInDollarQuote(s, t, tag);
  }

  lemma TurnsAgree(s: string, t: string, mode: Mode)
    requires s != "" && ValidMode(mode) && SameButCase(s, t, mode)
    ensures var step := StepIn(s, mode);
            step.Move? ==>
              && step.length <= |t|
              && (step.words == [] ==> s[..step.length] == t[..step.length])
              && SameButCase(s[step.length..], t[step.length..], step.mode)
  {
  }

  // Scanning the two gives the same words and ends in the same mode, or fails in the same way.
  lemma {:induction false} CaseDoesNotMatter(s: string, t: string, mode: Mode)
    requires ValidMode(mode) && SameButCase(s, t, mode)
    ensures Run(t, mode) == Run(s, mode)
    decreases |s|
  {
    hide StepIn, SameButCase;
    if s == "" {
      DiffersInLettersOnly(s, t, mode);
    } else {
      SameTurn(s, t, mode);
      TurnsAgree(s, t, mode);
      var step := StepIn(s, mode);
      if step.Move? {
        CaseDoesNotMatter(s[step.length..], t[step.length..], step.mode);
      }
    }
  }

  // ----- gates -----

  // Without a last boundary character the two still differ in case only.
  lemma {:induction false} SameInFront(p: string, q: string, w: string, mode: Mode)
    requires ValidMode(mode) && StartsAtBoundary(w) && SameButCase(p + w, q + w, mode) && |p| == |q|
    ensures SameButCase(p, q, mode)
    decreases |p|
  {
    hide StepIn;
    if p != "" {
      StepsStop(p, w, mode);
      var step := StepIn(p, mode);
      if step.Move? {
        var n := step.length;
        assert (p + w)[..n] == p[..n] && (q + w)[..n] == q[..n];
        assert (p + w)[n..] == p[n..] + w && (q + w)[n..] == q[n..] + w;
        SameInFront(p[n..], q[n..], w, step.mode);
      } else {
        assert p == (p + w)[..|p|] && q == (q + w)[..|p|];
      }
    }
  }

  lemma LastIsSame(s: string, t: string)
    requires s != "" && SameLetters(s, t) && (IsSpace(s[|s| - 1]) || s[|s| - 1] == ';')
    ensures s == s[..|s| - 1] + [s[|s| - 1]] && t == t[..|s| - 1] + [s[|s| - 1]]
    ensures StartsAtBoundary([s[|s| - 1]])
  {
  }

  lemma {:induction false} SameTrimEnd(s: string, t: string)
    requires SameButCase(s, t, Normal)
    ensures SameButCase(TrimEnd(s), TrimEnd(t), Normal)
    ensures |TrimEnd(s)| == |TrimEnd(t)|
    decreases |s|
  {
    DiffersInLettersOnly(s, t, Normal);
    hide SameButCase;
    if s != "" {
      assert IsSpace(t[|t| - 1]) == IsSpace(s[|s| - 1]);
      if IsSpace(s[|s| - 1]) {
        LastIsSame(s, t);
        SameInFront(s[..|s| - 1], t[..|s| - 1], [s[|s| - 1]], Normal);
        SameTrimEnd(s[..|s| - 1], t[..|s| - 1]);
      }
    }
  }

  lemma {:induction false} SameTrimStart(s: string, t: string)
    requires SameButCase(s, t, Normal)
    ensures SameButCase(TrimStart(s), TrimStart(t), Normal)
    decreases |s|
  {
    DiffersInLettersOnly(s, t, Normal);
    if s != "" {
      assert IsSpace(t[0]) == IsSpace(s[0]);
      if IsSpace(s[0]) {
        NoTag(s);
        assert StepIn(s, Normal) == Move(1, Normal, []) by { hide DollarTag, WordLength; }
        SameTrimStart(s[1..], t[1..]);
      }
    }
  }

  lemma SameStrip(s: string, t: string)
    requires SameButCase(s, t, Normal)
    ensures SameButCase(StripSemicolon(s), StripSemicolon(t), Normal)
  {
    DiffersInLettersOnly(s, t, Normal);
    hide SameButCase, TrimEnd;
    if s != "" && s[|s| - 1] == ';' {
      LastIsSame(s, t);
      SameInFront(s[..|s| - 1], t[..|s| - 1], ";", Normal);
      SameTrimEnd(s[..|s| - 1], t[..|s| - 1]);
    }
  }

  // The two verdicts agree but for the text they let through.
  ghost predicate SameVerdict(a: Gate, b: Gate) {
    a.Ok? == b.Ok? && (a.Err? ==> a == b)
  }

  lemma VerdictsAgree(normalized: string, other: string, tokens: seq<string>)
    ensures SameVerdict(ReadonlyVerdict(normalized, tokens), ReadonlyVerdict(other, tokens))
    ensures SameVerdict(ExecVerdict(normalized, tokens), ExecVerdict(other, tokens))
  {
    hide FirstForbidden, FORBIDDEN_READONLY_KEYWORDS, EXEC_KEYWORDS;
  }

  lemma SameNormalized(s: string, t: string)
    requires SameButCase(s, t, Normal)
    ensures var a, b := NormalizeSingleStatement(s), NormalizeSingleStatement(t);
            SameVerdict(a, b) && (a.Ok? ==> Scan(b.value) == Scan(a.value))
  {
    SameTrimStart(s, t);
    SameTrimEnd(TrimStart(s), TrimStart(t));
    SameStrip(Trim(s), Trim(t));
    CaseDoesNotMatter(StripSemicolon(Trim(s)), StripSemicolon(Trim(t)), Normal);
    hide SameButCase, Run, StripSemicolon, TrimStart, TrimEnd;
  }

  // Texts that differ only in the case of bare words have the same tokens, and each gate lets both pass
  // or refuses both for the same reason.
  lemma GatesIgnoreCase(s: string, t: string)
    requires SameButCase(s, t, Normal)
    ensures Scan(t) == Scan(s)
    ensures SameVerdict(Readonly(s), Readonly(t)) && SameVerdict(Exec(s), Exec(t))
  {
    CaseDoesNotMatter(s, t, Normal);
    SameNormalized(s, t);
    hide SameButCase, Run, NormalizeSingleStatement, ReadonlyVerdict, ExecVerdict;
    var a, b := NormalizeSingleStatement(s), NormalizeSingleStatement(t);
    if a.Ok? && Scan(a.value).Ok? {
      VerdictsAgree(a.value, b.value, Scan(a.value).value);
    }
  }

  // ----- rendered texts -----

  // The token is the word with 'A'..'Z' moved by 32 and all else unchanged.
  ghost predicate Folded(word: string, token: string) {
    && |token| == |word|
    && forall i :: 0 <= i < |word| ==>
         if 'A' <= word[i] <= 'Z' then token[i] as int == word[i] as int + 32 else token[i] == word[i]
  }

  // The bare words of the items, as written.
  ghost function BareWords(items: seq<Item>): seq<string> {
    if items == [] then []
    else (if items[0].Word? then [items[0].word] else []) + BareWords(items[1..])
  }

  ghost predicate AllFolded(words: seq<string>, tokens: seq<string>) {
    |tokens| == |words| && forall k :: 0 <= k < |words| ==> Folded(words[k], tokens[k])
  }

  lemma LowerFolds(word: string)
    ensures Folded(word, Lower(word))
  {
  }

  lemma {:induction false} WordsAreFolded(items: seq<Item>)
    ensures AllFolded(BareWords(items), Words(items))
  {
    hide Lower, Folded;
    if items != [] {
      WordsAreFolded(items[1..]);
      if items[0].Word? {
        LowerFolds(items[0].word);
      }
    }
  }

  // Scanning a rendered text gives its bare words one by one, folded.
  lemma RenderedWordsAreFolded(items: seq<Item>)
    requires forall item :: item in items ==> ValidItem(item)
    ensures Scan(RenderAll(items)).Ok? && AllFolded(BareWords(items), Scan(RenderAll(items)).value)
  {
    ScanInvertsRender(items);
    WordsAreFolded(items);
  }

  // The same item, or a bare word in another case.
  ghost predicate SameItem(a: Item, b: Item) {
    a == b || (a.Word? && b.Word? && SameLetters(a.word, b.word))
  }

  lemma {:induction false} SameWords(items: seq<Item>, others: seq<Item>)
    requires |others| == |items| && forall k :: 0 <= k < |items| ==> SameItem(items[k], others[k])
    ensures Words(others) == Words(items)
  {
    if items != [] {
      if items[0].Word? && others[0].Word? && SameLetters(items[0].word, others[0].word) {
        SameLower(items[0].word, others[0].word);
      }
      hide Lower, SameLetters;
      assert SameItem(items[0], others[0]);
      forall k | 0 <= k < |items[1..]|
        ensures SameItem(items[1..][k], others[1..][k])
      {
        assert SameItem(items[k + 1], others[k + 1]);
      }
      SameWords(items[1..], others[1..]);
    }
  }

  // Writing the bare words of a statement in another case changes neither its tokens nor the gates.
  lemma RenderedCaseDoesNotMatter(items: seq<Item>, others: seq<Item>)
    requires |others| == |items| && forall k :: 0 <= k < |items| ==> SameItem(items[k], others[k])
    requires forall item :: item in items + others ==> ValidItem(item)
    ensures Scan(RenderAll(others)) == Scan(RenderAll(items))
    ensures Readonly(RenderAll(others)).Ok? == Readonly(RenderAll(items)).Ok?
    ensures Exec(RenderAll(others)).Ok? == Exec(RenderAll(items)).Ok?
  {
    hide RenderAll, Words, Scan, Readonly, Exec, ValidItem, IsReadonlyQuery, IsExecStatement, SameItem;
    SameWords(items, others);
    assert forall item :: item in items ==> item in items + others;
    assert forall item :: item in others ==> item in items + others;
    ScanInvertsRender(items);
    ScanInvertsRender(others);
    GatesReadBareWords(items);
    GatesReadBareWords(others);
  }
}
