/** Shell snippets that reverse a captured change of shell state
    (crates/shit-planner/src/shell_state_render.rs:39-91), against the shell's own tokens. */
module Snippet {
  import opened Plan
  import opened Reader
  import opened Quote

  // ------------------------------------------------------------------
  // What the shell sees
  // ------------------------------------------------------------------

  datatype Token = Word(text: string) | Operator(c: char) | Newline

  function Then(tokens: seq<Token>, rest: Option<seq<Token>>): Option<seq<Token>> {
    match rest case None => None case Some(more) => Some(tokens + more)
  }

  /** Where the next line starts. */
  function LineEnd(t: string): (k: nat)
    ensures k <= |t|
  {
    if t == [] || t[0] == '\n' then 0 else 1 + LineEnd(t[1..])
  }

  /** The reading of a word uses up text. */
  lemma {:induction false} WordUsesUp(t: string)
    ensures PosixWord(t).Some? ==> |PosixWord(t).value.rest| <= |t|
    ensures PosixWord(t).Some? && t != [] && !EndsWord(t[0]) ==> |PosixWord(t).value.rest| < |t|
    ensures PosixQuoted(t).Some? ==> |PosixQuoted(t).value.rest| <= |t|
    decreases |t|
  {
    if t != [] {
      WordUsesUp(t[1..]);
      if |t| >= 2 {
        WordUsesUp(t[2..]);
      }
    }
  }

  /** Token recognition: blanks separate, a comment runs to the end of its line. */
  function Lex(t: string): Option<seq<Token>>
    decreases |t|
  {
    if t == [] then Some([])
    else if t[0] == ' ' || t[0] == '\t' then Lex(t[1..])
    else if t[0] == '\n' then Then([Newline], Lex(t[1..]))
    else if t[0] == '#' then Lex(t[LineEnd(t)..])
    else if EndsWord(t[0]) then Then([Operator(t[0])], Lex(t[1..]))
    else
      WordUsesUp(t);
      match PosixWord(t)
      case None => None
      case Some(Reading(word, rest)) => Then([Word(word)], Lex(rest))
  }

  // ------------------------------------------------------------------
  // What it sees in front of more text
  // ------------------------------------------------------------------

  /** Stands for itself inside a word. */
  predicate PlainChar(c: char) {
    !EndsWord(c) && !Expands(c) && c != QUOTE && c != BACKSLASH
  }

  predicate Plain(word: string) {
    forall c :: c in word ==> PlainChar(c)
  }

  /** May start a word written without quotes; a leading `#` would start a comment. */
  predicate PlainPrefix(word: string) {
    Plain(word) && (word != [] ==> word[0] != '#')
  }

  /** A word that needs no quotes. */
  predicate PlainName(name: string) {
    name != [] && PlainPrefix(name)
  }

  lemma {:induction false} PlainReads(word: string, t: string)
    requires Plain(word)
    ensures PosixWord(word + t) ==
      match PosixWord(t) case None => None case Some(r) => Some(Reading(word + r.text, r.rest))
  {
    if word == [] {
      assert word + t == t;
      assert forall r: Reading :: [] + r.text == r.text;
    } else {
      var tail := word[1..] + t;
      PlainReads(word[1..], t);
      assert word + t == [word[0]] + tail && ([word[0]] + tail)[1..] == tail;
      assert PlainChar(word[0]);
      assert forall r: Reading :: [word[0]] + (word[1..] + r.text) == word + r.text;
    }
  }

  lemma BareLexes(word: string, t: string)
    requires PlainName(word) && WordBreak(t)
    ensures Lex(word + t) == Then([Word(word)], Lex(t))
  {
    PlainReads(word, t);
    assert PlainChar(word[0]) && (word + t)[0] == word[0];
    assert word + [] == word;
  }

  lemma QuotedLexes(prefix: string, text: string, t: string)
    requires PlainPrefix(prefix) && WordBreak(t)
    ensures Lex(prefix + ShQuote(text) + t) == Then([Word(prefix + text)], Lex(t))
  {
    var quoted := ShQuote(text) + t;
    ShQuoteReadsBack(text, t);
    PlainReads(prefix, quoted);
    assert prefix + ShQuote(text) + t == prefix + quoted;
    assert prefix != [] ==> (prefix + quoted)[0] == prefix[0] && PlainChar(prefix[0]);
    assert prefix == [] ==> (prefix + quoted)[0] == QUOTE;
  }

  lemma {:induction false} LineEndIs(comment: string, t: string)
    requires '\n' !in comment
    ensures LineEnd(comment + ['\n'] + t) == |comment|
  {
    if comment != [] {
      assert (comment + ['\n'] + t)[1..] == comment[1..] + ['\n'] + t;
      LineEndIs(comment[1..], t);
    }
  }

  lemma EndLexes(comment: string, t: string)
    requires comment == [] || (comment[0] == '#' && '\n' !in comment)
    ensures Lex(comment + "\n" + t) == Then([Newline], Lex(t))
  {
    var line := comment + ['\n'] + t;
    var end := ['\n'] + t;
    assert end[1..] == t;
    if comment == [] {
      assert line == end;
    } else {
      LineEndIs(comment, t);
      assert line[|comment|..] == end;
      assert line[0] == '#';
    }
  }

  lemma BlankLexes(t: string)
    ensures Lex(" " + t) == Lex(t)
  {
    assert (" " + t)[1..] == t;
  }

  lemma OperatorLexes(c: char, t: string)
    requires c == '>' || c == '|'
    ensures Lex([c] + t) == Then([Operator(c)], Lex(t))
  {
    assert ([c] + t)[1..] == t;
  }

  lemma ThenThen(a: seq<Token>, b: seq<Token>, rest: Option<seq<Token>>)
    ensures Then(a, Then(b, rest)) == Then(a + b, rest)
  {
    if rest.Some? {
      assert (a + b) + rest.value == a + (b + rest.value);
    }
  }

  // ------------------------------------------------------------------
  // The snippet
  // ------------------------------------------------------------------

  datatype OptDiff = OptDiff(name: string, pre: string, post: string)

  datatype AliasDiff = AliasDiff(name: string, pre: Option<string>)

  datatype FuncDiff = FuncDiff(name: string, pre: Option<string>)

  function CdText(path: string): string {
    "cd " + ShQuote(path) + "\n"
  }

  function OptText(o: OptDiff): string {
    if o.pre == "on" && o.post != "on" then "set -o " + o.name + "\n"
    else if o.pre == "off" && o.post != "off" then "set +o " + o.name + "\n"
    else Comment(o) + "\n"
  }

  function Comment(o: OptDiff): string {
    "# manual: option `" + o.name + "` was `" + o.pre + "`, now `" + o.post + "`"
  }

  const QUIETLY := " 2>/dev/null || true\n"

  function AliasText(a: AliasDiff): string {
    match a.pre
    case Some(expansion) => "alias " + a.name + "=" + ShQuote(expansion) + "\n"
    case None => "unalias " + a.name + QUIETLY
  }

  function FuncText(f: FuncDiff): string {
    match f.pre
    case Some(body) => if body != [] && body[|body| - 1] == '\n' then body else body + "\n"
    case None => "unset -f " + f.name + QUIETLY
  }

  // ------------------------------------------------------------------
  // The commands it is meant to run
  // ------------------------------------------------------------------

  function CdTokens(path: string): seq<Token> {
    [Word("cd"), Word(path), Newline]
  }

  function OptTokens(o: OptDiff): seq<Token> {
    if o.pre == "on" && o.post != "on" then [Word("set"), Word("-o"), Word(o.name), Newline]
    else if o.pre == "off" && o.post != "off" then [Word("set"), Word("+o"), Word(o.name), Newline]
    else [Newline]
  }

  function QuietTokens(): seq<Token> {
    [Word("2"), Operator('>'), Word("/dev/null"), Operator('|'), Operator('|'), Word("true"), Newline]
  }

  function AliasTokens(a: AliasDiff): seq<Token> {
    match a.pre
    case Some(expansion) => [Word("alias"), Word(a.name + "=" + expansion), Newline]
    case None => [Word("unalias"), Word(a.name)] + QuietTokens()
  }

  /** A removal is meant to unset the function; a saved body is meant to be read as it is alone. */
  function FuncTokens(f: FuncDiff): seq<Token> {
    match f.pre
    case None => [Word("unset"), Word("-f"), Word(f.name)] + QuietTokens()
    case Some(_) => if Lex(FuncText(f)).Some? then Lex(FuncText(f)).value else []
  }

  /** A saved body is written as it was saved, on lines of its own. */
  lemma SavedBodyKept(f: FuncDiff)
    requires f.pre.Some?
    ensures var text, body := FuncText(f), f.pre.value;
      (text == body || text == body + "\n") && text != [] && text[|text| - 1] == '\n'
  {
  }

  predicate OneLine(s: string) {
    '\n' !in s
  }

  // ------------------------------------------------------------------
  // Line by line
  // ------------------------------------------------------------------

  type Lexer = string -> Option<seq<Token>>

  ghost predicate WordAt(lex: Lexer, word: string, t: string) {
    PlainName(word) && WordBreak(t) ==> lex(word + t) == Then([Word(word)], lex(t))
  }

  ghost predicate QuotedAt(lex: Lexer, prefix: string, text: string, t: string) {
    PlainPrefix(prefix) && WordBreak(t) ==> lex(prefix + ShQuote(text) + t) == Then([Word(prefix + text)], lex(t))
  }

  ghost predicate OperatorAt(lex: Lexer, c: char, t: string) {
    c == '>' || c == '|' ==> lex([c] + t) == Then([Operator(c)], lex(t))
  }

  ghost predicate BlankAt(lex: Lexer, t: string) {
    lex(" " + t) == lex(t)
  }

  ghost predicate EndAt(lex: Lexer, comment: string, t: string) {
    comment == [] || (comment[0] == '#' && OneLine(comment)) ==> lex(comment + "\n" + t) == Then([Newline], lex(t))
  }

  /** Takes each thing a line is made of for its token, in front of any text it may stand before. */
  ghost predicate TakesParts(lex: Lexer) {
    && (forall word, t :: WordAt(lex, word, t))
    && (forall prefix, text, t :: QuotedAt(lex, prefix, text, t))
    && (forall c, t :: OperatorAt(lex, c, t))
    && (forall t :: BlankAt(lex, t))
    && (forall comment, t :: EndAt(lex, comment, t))
  }

  lemma LexTakesParts()
    ensures TakesParts(Lex)
  {
    forall word, t ensures WordAt(Lex, word, t) {
      if PlainName(word) && WordBreak(t) { BareLexes(word, t); }
    }
    forall prefix, text, t ensures QuotedAt(Lex, prefix, text, t) {
      if PlainPrefix(prefix) && WordBreak(t) { QuotedLexes(prefix, text, t); }
    }
    forall c, t ensures OperatorAt(Lex, c, t) {
      if c == '>' || c == '|' { OperatorLexes(c, t); }
    }
    forall t ensures BlankAt(Lex, t) {
      BlankLexes(t);
    }
    forall comment, t ensures EndAt(Lex, comment, t) {
      if comment == [] || (comment[0] == '#' && OneLine(comment)) { EndLexes(comment, t); }
    }
  }

  lemma TakeWord(lex: Lexer, word: string, t: string)
    requires TakesParts(lex) && PlainName(word) && WordBreak(t)
    ensures lex(word + t) == Then([Word(word)], lex(t))
  {
    assert WordAt(lex, word, t);
  }

  /** A bare word and a blank. */
  lemma TakeVerb(lex: Lexer, word: string, t: string)
    requires TakesParts(lex) && PlainName(word)
    ensures lex(word + (" " + t)) == Then([Word(word)], lex(t))
  {
    assert WordAt(lex, word, " " + t) && BlankAt(lex, t);
  }

  lemma TakeQuoted(lex: Lexer, prefix: string, text: string, t: string)
    requires TakesParts(lex) && PlainPrefix(prefix) && WordBreak(t)
    ensures lex(prefix + ShQuote(text) + t) == Then([Word(prefix + text)], lex(t))
  {
    assert QuotedAt(lex, prefix, text, t);
  }

  lemma TakeOperator(lex: Lexer, c: char, t: string)
    requires TakesParts(lex) && (c == '>' || c == '|')
    ensures lex([c] + t) == Then([Operator(c)], lex(t))
  {
    assert OperatorAt(lex, c, t);
  }

  lemma TakeBlank(lex: Lexer, t: string)
    requires TakesParts(lex)
    ensures lex(" " + t) == lex(t)
  {
    assert BlankAt(lex, t);
  }

  lemma TakeEnd(lex: Lexer, t: string)
    requires TakesParts(lex)
    ensures lex("\n" + t) == Then([Newline], lex(t)) && WordBreak("\n" + t)
  {
    assert EndAt(lex, [], t);
    assert [] + "\n" + t == "\n" + t;
  }

  lemma ThenThree(a: Token, b: Token, c: Token, rest: Option<seq<Token>>)
    ensures Then([a], Then([b], Then([c], rest))) == Then([a, b, c], rest)
  {
    ThenThen([b], [c], rest);
    ThenThen([a], [b] + [c], rest);
    assert [a] + ([b] + [c]) == [a, b, c];
  }

  lemma CdTaken(lex: Lexer, path: string, t: string)
    requires TakesParts(lex)
    ensures lex(CdText(path) + t) == Then(CdTokens(path), lex(t))
  {
    var quoted := ShQuote(path) + ("\n" + t);
    QuotedLine(lex, [], path, t);
    assert [] + ShQuote(path) + ("\n" + t) == quoted && [] + path == path;
    TakeVerb(lex, "cd", quoted);
    CdSpelled(ShQuote(path), t);
    ThenThree(Word("cd"), Word(path), Newline, lex(t));
  }

  lemma CdSpelled(quoted: string, t: string)
    ensures "cd " + quoted + "\n" + t == "cd" + (" " + (quoted + ("\n" + t)))
  {
    assert "cd " == "cd" + " ";
  }

  /** A word with a quoted end, and the end of its line. */
  lemma QuotedLine(lex: Lexer, prefix: string, text: string, t: string)
    requires TakesParts(lex) && PlainPrefix(prefix)
    ensures lex(prefix + ShQuote(text) + ("\n" + t)) == Then([Word(prefix + text)], Then([Newline], lex(t)))
  {
    TakeEnd(lex, t);
    TakeQuoted(lex, prefix, text, "\n" + t);
  }

  lemma OrTrueTaken(lex: Lexer, t: string)
    requires TakesParts(lex)
    ensures lex("|| true\n" + t) == Then([Operator('|')], Then([Operator('|'), Word("true"), Newline], lex(t)))
  {
    var end := "\n" + t;
    var or := "true" + end;
    TakeEnd(lex, t);
    TakeWord(lex, "true", end);
    TakeBlank(lex, or);
    TakeOperator(lex, '|', " " + or);
    TakeOperator(lex, '|', "|" + (" " + or));
    assert "|| true\n" + t == "|" + ("|" + (" " + or));
    ThenThree(Operator('|'), Word("true"), Newline, lex(t));
  }

  lemma SinkTaken(lex: Lexer, t: string)
    requires TakesParts(lex)
    ensures lex(" 2>/dev/null " + t) == Then([Word("2"), Operator('>'), Word("/dev/null")], lex(t))
  {
    var sink := "/dev/null" + (" " + t);
    TakeVerb(lex, "/dev/null", t);
    TakeOperator(lex, '>', sink);
    TakeWord(lex, "2", ">" + sink);
    TakeBlank(lex, "2" + (">" + sink));
    SinkSpelled(t);
    ThenThree(Word("2"), Operator('>'), Word("/dev/null"), lex(t));
  }

  lemma SinkSpelled(t: string)
    ensures " 2>/dev/null " + t == " " + ("2" + (">" + ("/dev/null" + (" " + t))))
  {
  }

  lemma QuietlyTaken(lex: Lexer, t: string)
    requires TakesParts(lex)
    ensures lex(QUIETLY + t) == Then(QuietTokens(), lex(t)) && WordBreak(QUIETLY + t)
  {
    var or := "|| true\n" + t;
    var sink := [Word("2"), Operator('>'), Word("/dev/null")];
    var bar, rest := [Operator('|')], [Operator('|'), Word("true"), Newline];
    OrTrueTaken(lex, t);
    SinkTaken(lex, or);
    assert QUIETLY + t == " 2>/dev/null " + or;
    ThenThen(bar, rest, lex(t));
    ThenThen(sink, bar + rest, lex(t));
    assert sink + (bar + rest) == QuietTokens();
  }

  lemma UnsetTaken(lex: Lexer, verb: string, name: string, t: string)
    requires TakesParts(lex) && PlainName(verb) && PlainName(name)
    ensures lex(verb + " " + name + QUIETLY + t) == Then([Word(verb), Word(name)] + QuietTokens(), lex(t))
  {
    QuietlyTaken(lex, t);
    NamedTaken(lex, verb, name, QUIETLY + t, QuietTokens(), t);
    Spaced(verb, name, QUIETLY, t);
  }

  lemma NamedTaken(lex: Lexer, verb: string, name: string, more: string, tokens: seq<Token>, t: string)
    requires TakesParts(lex) && PlainName(verb) && PlainName(name)
    requires WordBreak(more) && lex(more) == Then(tokens, lex(t))
    ensures lex(verb + (" " + (name + more))) == Then([Word(verb), Word(name)] + tokens, lex(t))
  {
    TakeWord(lex, name, more);
    TakeVerb(lex, verb, name + more);
    ThenThen([Word(name)], tokens, lex(t));
    ThenThen([Word(verb)], [Word(name)] + tokens, lex(t));
    assert [Word(verb)] + ([Word(name)] + tokens) == [Word(verb), Word(name)] + tokens;
  }

  lemma Spaced(verb: string, name: string, more: string, t: string)
    ensures verb + " " + name + more + t == verb + (" " + (name + (more + t)))
  {
  }

  lemma RemovalTaken(lex: Lexer, name: string, t: string)
    requires TakesParts(lex) && PlainName(name)
    ensures lex("unset -f " + name + QUIETLY + t) ==
      Then([Word("unset"), Word("-f"), Word(name)] + QuietTokens(), lex(t))
  {
    var line := "-f" + (" " + (name + (QUIETLY + t)));
    var tokens := [Word("-f"), Word(name)] + QuietTokens();
    UnsetTaken(lex, "-f", name, t);
    Spaced("-f", name, QUIETLY, t);
    TakeVerb(lex, "unset", line);
    RemovalSpelled(name, t);
    ThenThen([Word("unset")], tokens, lex(t));
    assert [Word("unset")] + tokens == [Word("unset"), Word("-f"), Word(name)] + QuietTokens();
  }

  lemma RemovalSpelled(name: string, t: string)
    ensures "unset -f " + name + QUIETLY + t == "unset" + (" " + ("-f" + (" " + (name + (QUIETLY + t)))))
  {
    assert "unset -f " == "unset" + " " + "-f" + " ";
  }

  /** The alias line is read as meant: exactly so by `Unquoted.AliasReadsIff`. */
  predicate AliasPlain(a: AliasDiff) {
    PlainPrefix(a.name) && (a.pre.None? ==> a.name != [])
  }

  lemma AliasTaken(lex: Lexer, a: AliasDiff, t: string)
    requires TakesParts(lex) && AliasPlain(a)
    ensures lex(AliasText(a) + t) == Then(AliasTokens(a), lex(t))
  {
    match a.pre {
      case Some(expansion) => AliasSetTaken(lex, a.name, expansion, t);
      case None =>
        UnsetTaken(lex, "unalias", a.name, t);
        assert "unalias" + " " == "unalias ";
    }
  }

  lemma AliasSetTaken(lex: Lexer, name: string, expansion: string, t: string)
    requires TakesParts(lex) && PlainPrefix(name)
    ensures lex("alias " + name + "=" + ShQuote(expansion) + "\n" + t) ==
      Then([Word("alias"), Word(name + "=" + expansion), Newline], lex(t))
  {
    var prefix := name + "=";
    var quoted := prefix + ShQuote(expansion) + ("\n" + t);
    QuotedLine(lex, prefix, expansion, t);
    TakeVerb(lex, "alias", quoted);
    AliasSpelled(name, ShQuote(expansion), t);
    ThenThree(Word("alias"), Word(prefix + expansion), Newline, lex(t));
  }

  lemma AliasSpelled(name: string, quoted: string, t: string)
    ensures "alias " + name + "=" + quoted + "\n" + t == "alias" + (" " + (name + "=" + quoted + ("\n" + t)))
  {
    assert "alias " == "alias" + " ";
  }

  /** The option line is read as meant: exactly so by `Unquoted.OptReadsIff`. A switched option's name
      is written as a word; any other option is named, with its values, in a comment. */
  predicate OptPlain(o: OptDiff) {
    if Switched(o) then PlainName(o.name) else OneLine(o.name) && OneLine(o.pre) && OneLine(o.post)
  }

  predicate Switched(o: OptDiff) {
    (o.pre == "on" && o.post != "on") || (o.pre == "off" && o.post != "off")
  }

  lemma OptTaken(lex: Lexer, o: OptDiff, t: string)
    requires TakesParts(lex) && OptPlain(o)
    ensures lex(OptText(o) + t) == Then(OptTokens(o), lex(t))
  {
    if o.pre == "on" && o.post != "on" {
      SetTaken(lex, "-o", o.name, t);
      assert "set " + "-o" + " " == "set -o ";
    } else if o.pre == "off" && o.post != "off" {
      SetTaken(lex, "+o", o.name, t);
      assert "set " + "+o" + " " == "set +o ";
    } else {
      CommentTaken(lex, o, t);
    }
  }

  lemma CommentTaken(lex: Lexer, o: OptDiff, t: string)
    requires TakesParts(lex) && OneLine(o.name) && OneLine(o.pre) && OneLine(o.post)
    ensures lex(Comment(o) + "\n" + t) == Then([Newline], lex(t))
  {
    CommentIsOneLine(o);
    assert Comment(o)[0] == '#';
    assert EndAt(lex, Comment(o), t);
  }

  lemma CommentIsOneLine(o: OptDiff)
    ensures OneLine(Comment(o)) <==> OneLine(o.name) && OneLine(o.pre) && OneLine(o.post)
  {
    OneLineParts("# manual: option `", o.name);
    OneLineParts("# manual: option `" + o.name, "` was `");
    OneLineParts("# manual: option `" + o.name + "` was `", o.pre);
    OneLineParts("# manual: option `" + o.name + "` was `" + o.pre, "`, now `");
    OneLineParts("# manual: option `" + o.name + "` was `" + o.pre + "`, now `", o.post);
    OneLineParts("# manual: option `" + o.name + "` was `" + o.pre + "`, now `" + o.post, "`");
  }

  lemma OneLineParts(a: string, b: string)
    ensures OneLine(a + b) <==> OneLine(a) && OneLine(b)
  {
  }

  lemma SetTaken(lex: Lexer, flag: string, name: string, t: string)
    requires TakesParts(lex) && PlainName(flag) && PlainName(name)
    ensures lex("set " + flag + " " + name + "\n" + t) == Then([Word("set"), Word(flag), Word(name), Newline], lex(t))
  {
    var end := "\n" + t;
    var named := flag + (" " + (name + end));
    TakeEnd(lex, t);
    NamedTaken(lex, flag, name, end, [Newline], t);
    TakeVerb(lex, "set", named);
    assert "set " + flag + " " + name + "\n" + t == "set" + (" " + named);
    ThenThen([Word("set")], [Word(flag), Word(name)] + [Newline], lex(t));
    assert [Word("set")] + ([Word(flag), Word(name)] + [Newline]) == [Word("set"), Word(flag), Word(name), Newline];
  }

  // ------------------------------------------------------------------
  // The whole snippet
  // ------------------------------------------------------------------

  function AllText<D>(ds: seq<D>, text: D -> string): string {
    if ds == [] then [] else AllText(ds[..|ds| - 1], text) + text(ds[|ds| - 1])
  }

  function AllTokens<D>(ds: seq<D>, tokens: D -> seq<Token>): seq<Token> {
    if ds == [] then [] else AllTokens(ds[..|ds| - 1], tokens) + tokens(ds[|ds| - 1])
  }

  function StateText(pwd: Option<string>, opts: seq<OptDiff>, aliases: seq<AliasDiff>): string {
    (if pwd.Some? then CdText(pwd.value) else []) + AllText(opts, OptText) + AllText(aliases, AliasText)
  }

  function StateTokens(pwd: Option<string>, opts: seq<OptDiff>, aliases: seq<AliasDiff>): seq<Token> {
    (if pwd.Some? then CdTokens(pwd.value) else []) + AllTokens(opts, OptTokens) + AllTokens(aliases, AliasTokens)
  }

  method PushAll<D>(sofar: string, ds: seq<D>, text: D -> string) returns (out: string)
    ensures out == sofar + AllText(ds, text)
  {
    out := sofar;
    for i := 0 to |ds|
      invariant out == sofar + AllText(ds[..i], text)
    {
      assert ds[..i + 1][..i] == ds[..i];
      out := out + text(ds[i]);
    }
    assert ds[..|ds|] == ds;
  }

  method RenderBash(pwd: Option<string>, opts: seq<OptDiff>, aliases: seq<AliasDiff>, funcs: seq<FuncDiff>)
    returns (out: string)
    ensures out == StateText(pwd, opts, aliases) + AllText(funcs, FuncText)
  {
    out := "";
    if pwd.Some? {
      out := CdText(pwd.value);
    }
    out := PushAll(out, opts, OptText);
    out := PushAll(out, aliases, AliasText);
    out := PushAll(out, funcs, FuncText);
  }

  ghost predicate LineAt<D>(lex: Lexer, text: D -> string, tokens: D -> seq<Token>, d: D, t: string) {
    lex(text(d) + t) == Then(tokens(d), lex(t))
  }

  lemma {:induction false} AllTaken<D>(lex: Lexer, ds: seq<D>, text: D -> string, tokens: D -> seq<Token>, t: string)
    requires forall i, t :: 0 <= i < |ds| ==> LineAt(lex, text, tokens, ds[i], t)
    ensures lex(AllText(ds, text) + t) == Then(AllTokens(ds, tokens), lex(t))
  {
    if ds == [] {
      assert [] + t == t;
      NothingThen(lex(t));
    } else {
      var m := |ds| - 1;
      var init, d := ds[..m], ds[m];
      AllTaken(lex, init, text, tokens, text(d) + t);
      assert LineAt(lex, text, tokens, ds[m], t);
      assert AllText(ds, text) + t == AllText(init, text) + (text(d) + t);
      ThenThen(AllTokens(init, tokens), tokens(d), lex(t));
    }
  }

  lemma NothingThen(rest: Option<seq<Token>>)
    ensures Then([], rest) == rest
  {
    if rest.Some? {
      assert [] + rest.value == rest.value;
    }
  }

  lemma PwdTaken(lex: Lexer, pwd: Option<string>, t: string)
    requires TakesParts(lex)
    ensures lex((if pwd.Some? then CdText(pwd.value) else []) + t) ==
      Then(if pwd.Some? then CdTokens(pwd.value) else [], lex(t))
  {
    if pwd.Some? {
      CdTaken(lex, pwd.value, t);
    } else {
      assert [] + t == t;
      NothingThen(lex(t));
    }
  }

  lemma OptsTaken(lex: Lexer, opts: seq<OptDiff>, t: string)
    requires TakesParts(lex) && forall i :: 0 <= i < |opts| ==> OptPlain(opts[i])
    ensures lex(AllText(opts, OptText) + t) == Then(AllTokens(opts, OptTokens), lex(t))
  {
    forall i, t | 0 <= i < |opts| ensures LineAt(lex, OptText, OptTokens, opts[i], t) {
      OptTaken(lex, opts[i], t);
    }
    AllTaken(lex, opts, OptText, OptTokens, t);
  }

  lemma AliasesTaken(lex: Lexer, aliases: seq<AliasDiff>, t: string)
    requires TakesParts(lex) && forall i :: 0 <= i < |aliases| ==> AliasPlain(aliases[i])
    ensures lex(AllText(aliases, AliasText) + t) == Then(AllTokens(aliases, AliasTokens), lex(t))
  {
    forall i, t | 0 <= i < |aliases| ensures LineAt(lex, AliasText, AliasTokens, aliases[i], t) {
      AliasTaken(lex, aliases[i], t);
    }
    AllTaken(lex, aliases, AliasText, AliasTokens, t);
  }

  /** A removed function's name needs no quotes; a saved body is read the same in front of any text. */
  ghost predicate FuncPlain(f: FuncDiff) {
    match f.pre
    case None => PlainName(f.name)
    case Some(_) => forall t :: LineAt(Lex, FuncText, FuncTokens, f, t)
  }

  lemma FuncsTaken(funcs: seq<FuncDiff>, t: string)
    requires forall i :: 0 <= i < |funcs| ==> FuncPlain(funcs[i])
    ensures Lex(AllText(funcs, FuncText) + t) == Then(AllTokens(funcs, FuncTokens), Lex(t))
  {
    forall i, t | 0 <= i < |funcs| ensures LineAt(Lex, FuncText, FuncTokens, funcs[i], t) {
      if funcs[i].pre.None? {
        LexTakesParts();
        RemovalTaken(Lex, funcs[i].name, t);
      }
    }
    AllTaken(Lex, funcs, FuncText, FuncTokens, t);
  }

  /** The shell takes the snippet for exactly the commands that reverse the directory, the options, the
      aliases and the functions, whatever the directory and the expansions hold, and whatever follows. */
  lemma SnippetReadsAsMeant(pwd: Option<string>, opts: seq<OptDiff>, aliases: seq<AliasDiff>,
                            funcs: seq<FuncDiff>, t: string)
    requires forall i :: 0 <= i < |opts| ==> OptPlain(opts[i])
    requires forall i :: 0 <= i < |aliases| ==> AliasPlain(aliases[i])
    requires forall i :: 0 <= i < |funcs| ==> FuncPlain(funcs[i])
    ensures Lex(StateText(pwd, opts, aliases) + AllText(funcs, FuncText) + t) ==
      Then(StateTokens(pwd, opts, aliases) + AllTokens(funcs, FuncTokens), Lex(t))
  {
    LexTakesParts();
    StateTaken(Lex, pwd, opts, aliases, AllText(funcs, FuncText) + t);
    FuncsTaken(funcs, t);
    TwoTaken(Lex, StateText(pwd, opts, aliases), AllText(funcs, FuncText),
      StateTokens(pwd, opts, aliases), AllTokens(funcs, FuncTokens), t);
  }

  lemma TwoTaken(lex: Lexer, a: string, b: string, ta: seq<Token>, tb: seq<Token>, t: string)
    requires lex(b + t) == Then(tb, lex(t)) && lex(a + (b + t)) == Then(ta, lex(b + t))
    ensures lex(a + b + t) == Then(ta + tb, lex(t))
  {
    assert a + b + t == a + (b + t);
    ThenThen(ta, tb, lex(t));
  }

  lemma StateTaken(lex: Lexer, pwd: Option<string>, opts: seq<OptDiff>, aliases: seq<AliasDiff>, t: string)
    requires TakesParts(lex)
    requires forall i :: 0 <= i < |opts| ==> OptPlain(opts[i])
    requires forall i :: 0 <= i < |aliases| ==> AliasPlain(aliases[i])
    ensures lex(StateText(pwd, opts, aliases) + t) == Then(StateTokens(pwd, opts, aliases), lex(t))
  {
    var cd, os, als := if pwd.Some? then CdText(pwd.value) else [], AllText(opts, OptText), AllText(aliases, AliasText);
    AliasesTaken(lex, aliases, t);
    OptsTaken(lex, opts, als + t);
    PwdTaken(lex, pwd, os + (als + t));
    ThreeTaken(lex, cd, os, als,
      if pwd.Some? then CdTokens(pwd.value) else [], AllTokens(opts, OptTokens), AllTokens(aliases, AliasTokens), t);
  }

  lemma ThreeTaken(lex: Lexer, a: string, b: string, c: string, ta: seq<Token>, tb: seq<Token>, tc: seq<Token>,
                   t: string)
    requires lex(c + t) == Then(tc, lex(t)) && lex(b + (c + t)) == Then(tb, lex(c + t))
    requires lex(a + (b + (c + t))) == Then(ta, lex(b + (c + t)))
    ensures lex(a + b + c + t) == Then(ta + tb + tc, lex(t))
  {
    InTurn(a, b, c, t);
    ThenThen(tb, tc, lex(t));
    ThenThen(ta, tb + tc, lex(t));
    assert ta + (tb + tc) == ta + tb + tc;
  }

  lemma InTurn(a: string, b: string, c: string, t: string)
    ensures a + b + c + t == a + (b + (c + t))
  {
  }
}
