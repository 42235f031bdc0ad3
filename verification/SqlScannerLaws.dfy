/**
 Laws of the SQL scanner: text scanned up to a boundary character decides
 nothing about the text behind it, and scanning a rendered list of lexical
 items returns exactly its bare words.
 */
module SqlScannerLaws {
  import opened Wrappers
  import opened SqlScanner

  // ----- composition at a boundary -----

  // Characters that end every lexical item they do not belong to: white space, `;`, commas, parentheses.
  predicate IsBoundary(c: char) {
    !IsWordChar(c) && c !in "'\"&*/-$"
  }

  predicate StartsAtBoundary(t: string) {
    t == "" || IsBoundary(t[0])
  }

  function Then(r: Scanned, t: string): Scanned
    requires r.Reached? ==> ValidMode(r.mode)
  {
    if r.Stopped? then r else Prepend(r.words, Run(t, r.mode))
  }

  lemma {:induction false} WordsStop(p: string, t: string)
    requires StartsAtBoundary(t)
    ensures WordLength(p + t) == WordLength(p)
  {
    if p == "" {
      assert p + t == t;
    } else if IsWordChar(p[0]) {
      assert (p + t)[1..] == p[1..] + t;
      WordsStop(p[1..], t);
    }
  }

  lemma TagsStop(p: string, t: string)
    requires p != "" && StartsAtBoundary(t)
    ensures DollarTag(p + t) == DollarTag(p)
  {
    if p[0] == '$' {
      assert (p + t)[1..] == p[1..] + t;
      WordsStop(p[1..], t);
      var end := 1 + WordLength(p[1..]);
      if end < |p| {
        assert (p + t)[..end + 1] == p[..end + 1];
      }
    }
  }

  // A pattern free of boundary characters does not reach over one.
  lemma PatternsStop(pattern: string, p: string, t: string)
    requires StartsAtBoundary(t)
    requires forall c :: c in pattern ==> !IsBoundary(c)
    ensures (pattern <= p + t) == (pattern <= p)
  {
    if |pattern| > |p| && t != "" {
      assert pattern[|p|] in pattern;
      assert (p + t)[|p|] == t[0];
    }
  }

  // The looks one and two characters ahead.
  lemma LooksStop(p: string, t: string)
    requires p != "" && StartsAtBoundary(t)
    ensures At(p + t, 1, '\'') == At(p, 1, '\'') && At(p + t, 1, '&') == At(p, 1, '&')
    ensures At(p, 1, '&') ==> At(p + t, 2, '\'') == At(p, 2, '\'') && At(p + t, 2, '"') == At(p, 2, '"')
    ensures forall c :: c in "-/*" ==> !IsBoundary(c)
  {
  }

  lemma NormalStepsStop(p: string, t: string)
    requires p != "" && StartsAtBoundary(t)
    ensures StepNormal(p + t) == StepNormal(p)
  {
    hide DollarTag, WordLength, IsBoundary, At;
    assert (p + t)[0] == p[0];
    LooksStop(p, t);
    PatternsStop("--", p, t);
    PatternsStop("/*", p, t);
    TagsStop(p, t);
    WordsStop(p, t);
    assert (p + t)[..WordLength(p)] == p[..WordLength(p)];
  }

  lemma StepsStop(p: string, t: string, mode: Mode)
    requires p != "" && ValidMode(mode) && StartsAtBoundary(t)
    ensures StepIn(p + t, mode) == StepIn(p, mode)
  {
    hide StepNormal;
    assert (p + t)[0] == p[0];
    match mode
    case Normal => NormalStepsStop(p, t);
    case DollarQuoted(tag) => PatternsStop(tag, p, t);
    case SingleQuoted => assert At(p + t, 1, '\'') == At(p, 1, '\'');
    case DoubleQuoted => assert At(p + t, 1, '"') == At(p, 1, '"');
    case LineComment =>
    case BlockComment(depth) =>
      PatternsStop("/*", p, t);
      PatternsStop("*/", p, t);
  }

  // Scanning p and then t, with a boundary character between them, is scanning p + t.
  lemma {:induction false} ScanningComposes(p: string, t: string, mode: Mode)
    requires ValidMode(mode) && StartsAtBoundary(t)
    ensures Run(p + t, mode) == Then(Run(p, mode), t)
    decreases |p|
  {
    hide StepIn;
    if p == "" {
      assert p + t == t;
      assert forall r: Scanned :: Prepend([], r) == r by {
        assert forall ws: seq<string> :: [] + ws == ws;
      }
    } else {
      StepsStop(p, t, mode);
      var step := StepIn(p, mode);
      if step.Move? {
        assert (p + t)[step.length..] == p[step.length..] + t;
        ScanningComposes(p[step.length..], t, step.mode);
        PrependThen(step.words, Run(p[step.length..], step.mode), t);
      }
    }
  }

  lemma PrependThen(words: seq<string>, r: Scanned, t: string)
    requires r.Reached? ==> ValidMode(r.mode)
    ensures Prepend(words, Then(r, t)) == Then(Prepend(words, r), t)
  {
    hide Run;
    if r.Reached? {
      var rest := Run(t, r.mode);
      if rest.Reached? {
        assert words + (r.words + rest.words) == words + r.words + rest.words;
      }
    }
  }

  // The next line starts afresh: no quote, comment or dollar tag leaks over it.
  lemma LinesAreIndependent(p: string, s: string)
    requires Scan(p).Ok?
    ensures Scan(p + "\n" + s) == if Scan(s).Ok? then Ok(Scan(p).value + Scan(s).value) else Scan(s)
  {
    hide Run;
    assert p + "\n" + s == p + ("\n" + s);
    ScanningComposes(p, "\n" + s, Normal);
    NewlineResets(s, Run(p, Normal).mode);
  }

  lemma NewlineResets(s: string, mode: Mode)
    requires mode == Normal || mode == LineComment
    ensures Run("\n" + s, mode) == Run(s, Normal)
  {
    hide DollarTag, WordLength, Run;
    assert ("\n" + s)[1..] == s;
    NoTag("\n" + s);
    Skip("\n" + s, mode, 1, Normal);
  }

  // A second statement behind a complete line is always found.
  lemma SecondStatementIsFound(p: string, s: string)
    requires Scan(p).Ok?
    ensures Scan(p + "\n" + ";" + s) == Err(SecondStatement)
  {
    assert p + "\n" + ";" + s == p + "\n" + (";" + s);
    LinesAreIndependent(p, ";" + s);
    NoTag(";" + s);
    assert (";" + s)[0] == ';';
    RunStops(";" + s, Normal);
  }

  // ----- rendering -----

  datatype Prefix = Bare | Escape(c: char) | Unicode(c: char)

  // Comment text without `/` and `*`, and comments inside it.
  datatype Note = End | Text(text: string, rest: Note) | Nest(inner: Note, rest: Note)

  datatype Item =
    | Word(word: string)
    | Quoted(prefix: Prefix, body: string)
    | QuotedName(prefix: Prefix, body: string)
    | LineNote(text: string)
    | BlockNote(note: Note)
    | Dollar(name: string, body: string)
    | Symbol(c: char)

  // ASCII letters, digits and the underscore.
  predicate IsNameChar(c: char) {
    'a' <= c <= 'z' || 'A' <= c <= 'Z' || '0' <= c <= '9' || c == '_'
  }

  predicate IsDigit(c: char) { '0' <= c <= '9' }

  predicate IsWord(w: string) {
    w != "" && !IsDigit(w[0]) && forall i :: 0 <= i < |w| ==> IsNameChar(w[i])
  }

  predicate ValidNote(note: Note) {
    match note
    case End => true
    case Text(text, rest) => '/' !in text && '*' !in text && ValidNote(rest)
    case Nest(inner, rest) => ValidNote(inner) && ValidNote(rest)
  }

  predicate ValidPrefix(prefix: Prefix) {
    match prefix
    case Bare => true
    case Escape(c) => c == 'E' || c == 'e'
    case Unicode(c) => c == 'U' || c == 'u'
  }

  function TagOf(name: string): string { "$" + name + "$" }

  // The closing tag first occurs at the end of body + tag.
  predicate ClosesFirstAtEnd(body: string, tag: string) {
    forall i :: 0 <= i < |body| ==> !(tag <= (body + tag)[i..])
  }

  predicate ValidItem(item: Item) {
    match item
    case Word(word) => IsWord(word)
    case Quoted(prefix, _) => ValidPrefix(prefix)
    case QuotedName(prefix, _) => ValidPrefix(prefix) && !prefix.Escape?
    case LineNote(text) => '\n' !in text
    case BlockNote(note) => ValidNote(note)
    case Dollar(name, body) => (forall c :: c in name ==> IsNameChar(c)) && ClosesFirstAtEnd(body, TagOf(name))
    case Symbol(c) => (!IsNameChar(c) || IsDigit(c)) && c !in "'\";"
  }

  function Doubled(body: string, quote: char): string {
    if body == "" then ""
    else (if body[0] == quote then [quote, quote] else [body[0]]) + Doubled(body[1..], quote)
  }

  function RenderPrefix(prefix: Prefix): string {
    match prefix
    case Bare => ""
    case Escape(c) => [c]
    case Unicode(c) => [c, '&']
  }

  function RenderNote(note: Note): string {
    match note
    case End => ""
    case Text(text, rest) => text + RenderNote(rest)
    case Nest(inner, rest) => "/*" + RenderNote(inner) + "*/" + RenderNote(rest)
  }

  function Render(item: Item): string {
    match item
    case Word(word) => word
    case Quoted(prefix, body) => RenderPrefix(prefix) + "'" + (Doubled(body, '\'') + "'")
    case QuotedName(prefix, body) => RenderPrefix(prefix) + "\"" + (Doubled(body, '"') + "\"")
    case LineNote(text) => "--" + text
    case BlockNote(note) => "/*" + (RenderNote(note) + "*/")
    case Dollar(name, body) => TagOf(name) + (body + TagOf(name))
    case Symbol(c) => [c]
  }

  function RenderAll(items: seq<Item>): string {
    if items == [] then ""
    else if |items| == 1 then Render(items[0])
    else Render(items[0]) + "\n" + RenderAll(items[1..])
  }

  function WordsOf(item: Item): seq<string> {
    if item.Word? then [Lower(item.word)] else []
  }

  function Words(items: seq<Item>): seq<string> {
    if items == [] then [] else WordsOf(items[0]) + Words(items[1..])
  }

  // ----- each item scans back -----

  lemma PrependNothing(r: Scanned)
    ensures Prepend([], r) == r
  {
    if r.Reached? {
      assert [] + r.words == r.words;
    }
  }

  // One silent turn.
  lemma Skip(s: string, mode: Mode, length: nat, next: Mode)
    requires s != "" && ValidMode(mode) && StepIn(s, mode) == Move(length, next, [])
    ensures Run(s, mode) == Run(s[length..], next)
  {
    hide StepIn;
    PrependNothing(Run(s[length..], next));
  }

  lemma WordScans(w: string)
    requires IsWord(w)
    ensures Run(w, Normal) == Reached([Lower(w)], Normal)
  {
    assert w + "" == w;
    NameLength(w, "");
    assert w[..|w|] == w && w[|w|..] == "";
    assert forall i: nat, c | At(w, i, c) :: IsWordChar(c);
    assert StepNormal(w) == Move(|w|, Normal, [Lower(w)]) by {
      hide WordLength, DollarTag;
      assert !("--" <= w) && !("/*" <= w);
      assert DollarTag(w).None? by { NoTag(w); }
    }
    assert [Lower(w)] + [] == [Lower(w)];
  }

  lemma NoTag(s: string)
    requires s == "" || s[0] != '$'
    ensures DollarTag(s) == None
  {
  }

  lemma {:induction false} QuotedBodyScans(body: string, quote: char, mode: Mode)
    requires mode == if quote == '"' then DoubleQuoted else SingleQuoted
    requires quote == '"' || quote == '\''
    ensures Run(Doubled(body, quote) + [quote], mode) == Reached([], Normal)
  {
    var s := Doubled(body, quote) + [quote];
    if body == "" {
      assert s == [quote];
      Skip(s, mode, 1, Normal);
    } else {
      var rest := Doubled(body[1..], quote) + [quote];
      if body[0] == quote {
        assert s == [quote, quote] + rest;
        Skip(s, mode, 2, mode);
        assert s[2..] == rest;
      } else {
        assert s == [body[0]] + rest;
        Skip(s, mode, 1, mode);
        assert s[1..] == rest;
      }
      QuotedBodyScans(body[1..], quote, mode);
    }
  }

  lemma OpeningScans(prefix: Prefix, quote: char, rest: string)
    requires ValidPrefix(prefix) && (quote == '\'' || (quote == '"' && !prefix.Escape?))
    ensures Run(RenderPrefix(prefix) + [quote] + rest, Normal) ==
            Run(rest, if quote == '"' then DoubleQuoted else SingleQuoted)
  {
    hide DollarTag, WordLength, Run;
    var s := RenderPrefix(prefix) + [quote] + rest;
    var n := |RenderPrefix(prefix)| + 1;
    assert s[n..] == rest;
    assert s[n - 1] == quote;
    assert s[0] == if prefix.Bare? then quote else prefix.c;
    assert prefix.Unicode? ==> s[1] == '&';
    NoTag(s);
    Skip(s, Normal, n, if quote == '"' then DoubleQuoted else SingleQuoted);
  }

  lemma {:induction false} LineNoteScans(text: string)
    requires '\n' !in text
    ensures Run(text, LineComment) == Reached([], LineComment)
  {
    if text != "" {
      Skip(text, LineComment, 1, LineComment);
      LineNoteScans(text[1..]);
    }
  }

  lemma {:induction false} PlainCommentScans(text: string, rest: string, depth: nat)
    requires '/' !in text && '*' !in text && depth >= 1
    ensures Run(text + rest, BlockComment(depth)) == Run(rest, BlockComment(depth))
  {
    if text == "" {
      assert text + rest == rest;
    } else {
      var s := text + rest;
      assert s[0] == text[0] && text[0] in text;
      Skip(s, BlockComment(depth), 1, BlockComment(depth));
      assert s[1..] == text[1..] + rest;
      PlainCommentScans(text[1..], rest, depth);
    }
  }

  lemma {:induction false} NoteScans(note: Note, rest: string, depth: nat)
    requires ValidNote(note) && depth >= 1
    ensures Run(RenderNote(note) + rest, BlockComment(depth)) == Run(rest, BlockComment(depth))
  {
    hide Run;
    match note
    case End => assert RenderNote(note) + rest == rest;
    case Text(text, more) =>
      assert RenderNote(note) + rest == text + (RenderNote(more) + rest);
      PlainCommentScans(text, RenderNote(more) + rest, depth);
      NoteScans(more, rest, depth);
    case Nest(inner, more) =>
      var s := RenderNote(note) + rest;
      var behind := "*/" + (RenderNote(more) + rest);
      assert s == "/*" + (RenderNote(inner) + behind);
      assert s[0] == '/' && s[1] == '*';
      Skip(s, BlockComment(depth), 2, BlockComment(depth + 1));
      assert s[2..] == RenderNote(inner) + behind;
      NoteScans(inner, behind, depth + 1);
      assert behind[0] == '*' && behind[1] == '/';
      Skip(behind, BlockComment(depth + 1), 2, BlockComment(depth));
      assert behind[2..] == RenderNote(more) + rest;
      NoteScans(more, rest, depth);
  }

  lemma BlockNoteScans(note: Note)
    requires ValidNote(note)
    ensures Run(Render(BlockNote(note)), Normal) == Reached([], Normal)
  {
    hide RenderNote, DollarTag, WordLength;
    var s := Render(BlockNote(note));
    assert s[0] == '/' && s[1] == '*';
    Skip(s, Normal, 2, BlockComment(1));
    assert s[2..] == RenderNote(note) + "*/";
    NoteScans(note, "*/", 1);
    Skip("*/", BlockComment(1), 2, Normal);
  }

  lemma {:induction false} DollarBodyScans(body: string, tag: string)
    requires IsTag(tag) && ClosesFirstAtEnd(body, tag)
    ensures Run(body + tag, DollarQuoted(tag)) == Reached([], Normal)
  {
    var s := body + tag;
    if body == "" {
      assert s == tag;
      Skip(s, DollarQuoted(tag), |tag|, Normal);
      assert s[|tag|..] == "";
    } else {
      assert s[0..] == s;
      Skip(s, DollarQuoted(tag), 1, DollarQuoted(tag));
      assert s[1..] == body[1..] + tag;
      assert forall i | 0 <= i < |body| - 1 :: (body[1..] + tag)[i..] == s[i + 1..];
      DollarBodyScans(body[1..], tag);
    }
  }

  lemma TagReadsBack(name: string, rest: string)
    requires forall c :: c in name ==> IsWordChar(c)
    ensures DollarTag(TagOf(name) + rest) == Some(TagOf(name))
  {
    var s := TagOf(name) + rest;
    var tail := s[1..];
    assert tail == name + ("$" + rest);
    NameLength(name, "$" + rest);
    assert s[..|name| + 2] == TagOf(name);
  }

  lemma {:induction false} NameLength(name: string, rest: string)
    requires forall c :: c in name ==> IsWordChar(c)
    requires rest == "" || !IsWordChar(rest[0])
    ensures WordLength(name + rest) == |name|
  {
    if name == "" {
      assert name + rest == rest;
    } else {
      assert (name + rest)[0] == name[0] && name[0] in name;
      assert (name + rest)[1..] == name[1..] + rest;
      NameLength(name[1..], rest);
    }
  }

  lemma DollarScans(name: string, body: string)
    requires ValidItem(Dollar(name, body))
    ensures Run(Render(Dollar(name, body)), Normal) == Reached([], Normal)
  {
    DollarOpens(name, body + TagOf(name));
    DollarBodyScans(body, TagOf(name));
  }

  lemma SymbolScans(c: char)
    requires ValidItem(Symbol(c))
    ensures Run([c], Normal) == Reached([], Normal)
  {
    Skip([c], Normal, 1, Normal);
  }

  lemma ItemScans(item: Item)
    requires ValidItem(item)
    ensures Scan(Render(item)) == Ok(WordsOf(item))
  {
    hide Run, StepIn, Doubled, RenderNote;
    match item
    case Word(word) => WordScans(word);
    case Quoted(prefix, body) =>
      OpeningScans(prefix, '\'', Doubled(body, '\'') + "'");
      QuotedBodyScans(body, '\'', SingleQuoted);
    case QuotedName(prefix, body) =>
      OpeningScans(prefix, '"', Doubled(body, '"') + "\"");
      QuotedBodyScans(body, '"', DoubleQuoted);
    case LineNote(text) =>
      var s := Render(item);
      LineNoteOpens(text);
      LineNoteScans(text);
    case BlockNote(note) => BlockNoteScans(note);
    case Dollar(name, body) => DollarScans(name, body);
    case Symbol(c) => SymbolScans(c);
  }

  lemma LineNoteOpens(text: string)
    ensures Run("--" + text, Normal) == Run(text, LineComment)
  {
    hide WordLength, DollarTag, Run;
    var s := "--" + text;
    Skip(s, Normal, 2, LineComment);
    assert s[2..] == text;
  }

  // ----- items without an end -----

  // A rendered item whose closing quote, comment end or tag is missing.
  function Unfinished(item: Item): string {
    match item
    case Quoted(prefix, body) => RenderPrefix(prefix) + "'" + Doubled(body, '\'')
    case QuotedName(prefix, body) => RenderPrefix(prefix) + "\"" + Doubled(body, '"')
    case BlockNote(note) => "/*" + RenderNote(note)
    case Dollar(name, body) => TagOf(name) + body
    case _ => Render(item)
  }

  lemma {:induction false} QuotedBodyStaysOpen(body: string, quote: char, mode: Mode)
    requires mode == if quote == '"' then DoubleQuoted else SingleQuoted
    requires quote == '"' || quote == '\''
    ensures Run(Doubled(body, quote), mode) == Reached([], mode)
  {
    var s := Doubled(body, quote);
    if body != "" {
      if body[0] == quote {
        Skip(s, mode, 2, mode);
        assert s[2..] == Doubled(body[1..], quote);
      } else {
        var rest := Doubled(body[1..], quote);
        assert s[0] == body[0] && s[1..] == rest;
        Skip(s, mode, 1, mode);
      }
      QuotedBodyStaysOpen(body[1..], quote, mode);
    }
  }

  lemma {:induction false} DollarBodyStaysOpen(body: string, tag: string)
    requires IsTag(tag) && forall i :: 0 <= i < |body| ==> !(tag <= body[i..])
    ensures Run(body, DollarQuoted(tag)) == Reached([], DollarQuoted(tag))
  {
    if body != "" {
      assert body[0..] == body;
      Skip(body, DollarQuoted(tag), 1, DollarQuoted(tag));
      assert forall i :: 0 <= i < |body| - 1 ==> body[1..][i..] == body[i + 1..];
      DollarBodyStaysOpen(body[1..], tag);
    }
  }

  // It is refused with its own error.
  lemma UnfinishedIsRefused(item: Item)
    requires match item
             case Quoted(prefix, _) => ValidPrefix(prefix)
             case QuotedName(prefix, _) => ValidPrefix(prefix) && !prefix.Escape?
             case BlockNote(note) => ValidNote(note)
             case Dollar(name, body) =>
               (forall c :: c in name ==> IsNameChar(c)) && forall i :: 0 <= i < |body| ==> !(TagOf(name) <= body[i..])
             case _ => false
    ensures Scan(Unfinished(item)) == Err(
              match item
              case Quoted(_, _) => OpenString
              case QuotedName(_, _) => OpenIdentifier
              case BlockNote(_) => OpenComment
              case _ => OpenDollarQuote)
  {
    hide Run, StepIn, Doubled, RenderNote, WordLength, DollarTag;
    match item
    case Quoted(prefix, body) =>
      OpeningScans(prefix, '\'', Doubled(body, '\''));
      QuotedBodyStaysOpen(body, '\'', SingleQuoted);
    case QuotedName(prefix, body) =>
      OpeningScans(prefix, '"', Doubled(body, '"'));
      QuotedBodyStaysOpen(body, '"', DoubleQuoted);
    case BlockNote(note) =>
      BlockNoteOpens(note);
    case Dollar(name, body) =>
      DollarOpens(name, body);
      DollarBodyStaysOpen(body, TagOf(name));
    case _ =>
  }

  lemma BlockNoteOpens(note: Note)
    requires ValidNote(note)
    ensures Run("/*" + RenderNote(note), Normal) == Reached([], BlockComment(1))
  {
    hide RenderNote, DollarTag, WordLength, Run;
    var s := "/*" + RenderNote(note);
    assert s[0] == '/' && s[1] == '*';
    Skip(s, Normal, 2, BlockComment(1));
    assert s[2..] == RenderNote(note) == RenderNote(note) + "";
    NoteScans(note, "", 1);
    RunEmpty(BlockComment(1));
  }

  lemma DollarOpens(name: string, rest: string)
    requires forall c :: c in name ==> IsNameChar(c)
    ensures IsTag(TagOf(name)) && Run(TagOf(name) + rest, Normal) == Run(rest, DollarQuoted(TagOf(name)))
  {
    hide WordLength, DollarTag, Run;
    var tag := TagOf(name);
    var s := tag + rest;
    TagReadsBack(name, rest);
    assert s[0] == '$';
    Skip(s, Normal, |tag|, DollarQuoted(tag));
    assert s[|tag|..] == rest;
  }

  // Scanning a rendered text returns exactly its bare words, in lower case and in order.
  lemma {:induction false} ScanInvertsRender(items: seq<Item>)
    requires forall item :: item in items ==> ValidItem(item)
    ensures Scan(RenderAll(items)) == Ok(Words(items))
  {
    hide Run, Render, StepIn, Scan, WordsOf, ValidItem;
    if items == [] {
      EmptyScans();
    } else {
      ItemScans(items[0]);
      if |items| == 1 {
        assert Words(items[1..]) == [];
        assert Words(items) == WordsOf(items[0]);
      } else {
        ScanInvertsRender(items[1..]);
        LinesAreIndependent(Render(items[0]), RenderAll(items[1..]));
      }
    }
  }

  lemma EmptyScans()
    ensures Scan("") == Ok([])
  {
  }
}
