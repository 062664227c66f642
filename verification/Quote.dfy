/** Shell quoting (crates/shit-planner/src/shell_state_render.rs:22-33) against readers of the quoted
    text: sections 2.2.1-2.2.2 of the Shell Command Language (POSIX.1-2017) and fish's single quotes. */
module Quote {
  import opened Plan
  import opened Reader

  const QUOTE := '\''
  const BACKSLASH := '\\'

  /** `str::replace` of one character. */
  function Replace(s: string, c: char, sub: string): string {
    if s == [] then [] else (if s[0] == c then sub else [s[0]]) + Replace(s[1..], c, sub)
  }

  function ShQuote(s: string): string {
    [QUOTE] + Replace(s, QUOTE, [QUOTE, BACKSLASH, QUOTE, QUOTE]) + [QUOTE]
  }

  function FishQuote(s: string): string {
    [QUOTE] + Replace(Replace(s, BACKSLASH, [BACKSLASH, BACKSLASH]), QUOTE, [BACKSLASH, QUOTE]) + [QUOTE]
  }

  // ------------------------------------------------------------------
  // Readers
  // ------------------------------------------------------------------

  /** Characters that end an unquoted word. */
  predicate EndsWord(c: char) {
    || c == ' ' || c == '\t' || c == '\n' || c == '|' || c == '&' || c == ';'
    || c == '<' || c == '>' || c == '(' || c == ')'
  }

  /** Characters that start an expansion or double quotes, which a literal word does not have. */
  predicate Expands(c: char) {
    c == '$' || c == '`' || c == '"'
  }

  /** The shell's reading of a word outside quotes: a backslash keeps the next character literal, a
      backslash before a newline joins lines, and a single quote starts quoted text. */
  function PosixWord(t: string): Option<Reading>
    decreases |t|
  {
    if t == [] || EndsWord(t[0]) then Some(Reading([], t))
    else if t[0] == QUOTE then PosixQuoted(t[1..])
    else if t[0] == BACKSLASH then
      if |t| == 1 then None
      else if t[1] == '\n' then PosixWord(t[2..])
      else Literally(t[1], PosixWord(t[2..]))
    else if Expands(t[0]) then None
    else Literally(t[0], PosixWord(t[1..]))
  }

  /** Inside single quotes every character is literal up to the next single quote. */
  function PosixQuoted(t: string): Option<Reading>
    decreases |t|
  {
    if t == [] then None
    else if t[0] == QUOTE then PosixWord(t[1..])
    else Literally(t[0], PosixQuoted(t[1..]))
  }

  function FishWord(t: string): Option<Reading>
    decreases |t|
  {
    if t == [] || EndsWord(t[0]) then Some(Reading([], t))
    else if t[0] == QUOTE then FishQuoted(t[1..])
    else if t[0] == BACKSLASH then
      if |t| == 1 then None else Literally(t[1], FishWord(t[2..]))
    else if Expands(t[0]) then None
    else Literally(t[0], FishWord(t[1..]))
  }

  /** Inside fish's single quotes a backslash escapes a backslash or a single quote, and nothing else. */
  function FishQuoted(t: string): Option<Reading>
    decreases |t|
  {
    if t == [] then None
    else if t[0] == QUOTE then FishWord(t[1..])
    else if t[0] == BACKSLASH && |t| >= 2 && (t[1] == BACKSLASH || t[1] == QUOTE) then
      Literally(t[1], FishQuoted(t[2..]))
    else Literally(t[0], FishQuoted(t[1..]))
  }

  // ------------------------------------------------------------------
  // Quoted text reads as itself
  // ------------------------------------------------------------------

  predicate WordBreak(rest: string) {
    rest == [] || EndsWord(rest[0])
  }

  function PosixChar(c: char): string {
    if c == QUOTE then [QUOTE, BACKSLASH, QUOTE, QUOTE] else [c]
  }

  lemma {:induction false} ReplaceIsEscape(s: string)
    ensures Replace(s, QUOTE, [QUOTE, BACKSLASH, QUOTE, QUOTE]) == EscapeAll(s, PosixChar)
  {
    if s != [] {
      ReplaceIsEscape(s[1..]);
    }
  }

  lemma EscapedQuoteReads(t: string)
    ensures PosixQuoted([QUOTE, BACKSLASH, QUOTE, QUOTE] + t) == Literally(QUOTE, PosixQuoted(t))
  {
    var reopened := [QUOTE] + t;
    var escaped := [BACKSLASH, QUOTE] + reopened;
    assert reopened[1..] == t;
    assert PosixWord(reopened) == PosixQuoted(t);
    assert escaped[2..] == reopened;
    assert PosixWord(escaped) == Literally(QUOTE, PosixQuoted(t));
    var t0 := [QUOTE, BACKSLASH, QUOTE, QUOTE] + t;
    assert t0[1..] == escaped;
  }

  lemma PosixCharReads(c: char, tail: string)
    ensures PosixQuoted(PosixChar(c) + tail) == Literally(c, PosixQuoted(tail))
  {
    if c == QUOTE {
      EscapedQuoteReads(tail);
    } else {
      assert ([c] + tail)[1..] == tail;
    }
  }

  lemma PosixCloses(rest: string)
    requires WordBreak(rest)
    ensures PosixQuoted([QUOTE] + rest) == Some(Reading([], rest))
  {
    assert ([QUOTE] + rest)[1..] == rest;
  }

  /** For every string, the quoted form reads as exactly one word, the string itself, wherever a word
      may end. */
  lemma ShQuoteReadsBack(s: string, rest: string)
    requires WordBreak(rest)
    ensures PosixWord(ShQuote(s) + rest) == Some(Reading(s, rest))
  {
    var inner := EscapeAll(s, PosixChar) + ([QUOTE] + rest);
    forall c, tail ensures UndoesAt(PosixQuoted, PosixChar, c, tail) {
      PosixCharReads(c, tail);
    }
    PosixCloses(rest);
    ReadsBack(s, [QUOTE] + rest, PosixQuoted, PosixChar);
    ReplaceIsEscape(s);
    Opened(EscapeAll(s, PosixChar), rest);
    OpensQuotes(inner);
  }

  lemma Opened(text: string, rest: string)
    ensures [QUOTE] + text + [QUOTE] + rest == [QUOTE] + (text + ([QUOTE] + rest))
  {
  }

  lemma OpensQuotes(inner: string)
    ensures PosixWord([QUOTE] + inner) == PosixQuoted(inner)
    ensures FishWord([QUOTE] + inner) == FishQuoted(inner)
  {
    assert ([QUOTE] + inner)[1..] == inner;
  }

  // ------------------------------------------------------------------
  // fish
  // ------------------------------------------------------------------

  function FishEscape(s: string): string {
    Replace(Replace(s, BACKSLASH, [BACKSLASH, BACKSLASH]), QUOTE, [BACKSLASH, QUOTE])
  }

  function FishChar(c: char): string {
    if c == BACKSLASH then [BACKSLASH, BACKSLASH] else if c == QUOTE then [BACKSLASH, QUOTE] else [c]
  }

  lemma {:induction false} ReplaceInParts(a: string, b: string, c: char, sub: string)
    ensures Replace(a + b, c, sub) == Replace(a, c, sub) + Replace(b, c, sub)
  {
    if a == [] {
      assert a + b == b;
    } else {
      assert (a + b)[1..] == a[1..] + b;
      ReplaceInParts(a[1..], b, c, sub);
    }
  }

  lemma ReplaceOne(c: char, x: char, sub: string)
    ensures Replace([x], c, sub) == if x == c then sub else [x]
  {
    assert [x][1..] == [];
    assert Replace([], c, sub) == [];
  }

  /** The two replacements in turn escape each character on its own. */
  lemma FishEscapeStep(s: string)
    requires s != []
    ensures FishEscape(s) == FishChar(s[0]) + FishEscape(s[1..])
  {
    var sub := [BACKSLASH, QUOTE];
    var head := if s[0] == BACKSLASH then [BACKSLASH, BACKSLASH] else [s[0]];
    ReplaceInParts(head, Replace(s[1..], BACKSLASH, [BACKSLASH, BACKSLASH]), QUOTE, sub);
    if s[0] == BACKSLASH {
      assert head == [BACKSLASH] + [BACKSLASH];
      ReplaceInParts([BACKSLASH], [BACKSLASH], QUOTE, sub);
      ReplaceOne(QUOTE, BACKSLASH, sub);
    } else {
      ReplaceOne(QUOTE, s[0], sub);
    }
  }

  lemma {:induction false} FishEscapeIs(s: string)
    ensures FishEscape(s) == EscapeAll(s, FishChar)
  {
    if s != [] {
      FishEscapeStep(s);
      FishEscapeIs(s[1..]);
    }
  }

  lemma FishCharReads(c: char, tail: string)
    ensures FishQuoted(FishChar(c) + tail) == Literally(c, FishQuoted(tail))
  {
    assert (FishChar(c) + tail)[|FishChar(c)|..] == tail;
  }

  lemma FishCloses(rest: string)
    requires WordBreak(rest)
    ensures FishQuoted([QUOTE] + rest) == Some(Reading([], rest))
  {
    assert ([QUOTE] + rest)[1..] == rest;
  }

  /** The same for fish. */
  lemma FishQuoteReadsBack(s: string, rest: string)
    requires WordBreak(rest)
    ensures FishWord(FishQuote(s) + rest) == Some(Reading(s, rest))
  {
    var inner := EscapeAll(s, FishChar) + ([QUOTE] + rest);
    forall c, tail ensures UndoesAt(FishQuoted, FishChar, c, tail) {
      FishCharReads(c, tail);
    }
    FishCloses(rest);
    ReadsBack(s, [QUOTE] + rest, FishQuoted, FishChar);
    FishEscapeIs(s);
    Opened(EscapeAll(s, FishChar), rest);
    OpensQuotes(inner);
  }
}
