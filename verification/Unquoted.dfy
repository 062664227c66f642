/** What is written without quotes, and exactly when the shell reads it as meant: option names and
    values, and alias names (crates/shit-planner/src/shell_state_render.rs:49-77). */
module Unquoted {
  import opened Plan
  import opened Reader
  import opened Quote
  import opened Snippet

  // ------------------------------------------------------------------
  // Reading a word loses every quote, or the backslash that kept it
  // ------------------------------------------------------------------

  function Quotes(t: string): nat {
    if t == [] then 0 else (if t[0] == QUOTE then 1 else 0) + Quotes(t[1..])
  }

  lemma {:induction false} QuotesAppend(a: string, b: string)
    ensures Quotes(a + b) == Quotes(a) + Quotes(b)
  {
    if a == [] {
      assert a + b == b;
    } else {
      assert (a + b)[1..] == a[1..] + b;
      QuotesAppend(a[1..], b);
    }
  }

  lemma {:induction false} QuotesAtMost(t: string)
    ensures Quotes(t) <= |t|
    ensures Quotes(t) == 0 <==> QUOTE !in t
  {
    if t != [] {
      QuotesAtMost(t[1..]);
      assert t == [t[0]] + t[1..];
    }
  }

  predicate Ends(rest: string, t: string) {
    |rest| <= |t| && t[|t| - |rest|..] == rest
  }

  /** `r` is read off the front of `t`: what follows is what is left of `t`, and each quote that was
      passed cost a character of its own. */
  ghost predicate ReadOff(t: string, r: Reading) {
    Ends(r.rest, t) && |r.text| + |r.rest| + Quotes(t) <= |t| + Quotes(r.rest)
  }

  /** No character was lost but the quotes. */
  ghost predicate Tight(t: string, r: Reading) {
    |r.text| + |r.rest| + Quotes(t) == |t| + Quotes(r.rest)
  }

  lemma EndsOn(rest: string, t: string, k: nat)
    requires k <= |t| && Ends(rest, t[k..])
    ensures Ends(rest, t)
  {
    assert t[k..][|t| - k - |rest|..] == t[|t| - |rest|..];
  }

  /** One character passed and kept. */
  lemma KeepOne(t: string, r: Reading)
    requires t != [] && t[0] != QUOTE && ReadOff(t[1..], r)
    ensures ReadOff(t, Reading([t[0]] + r.text, r.rest))
    ensures Tight(t, Reading([t[0]] + r.text, r.rest)) <==> Tight(t[1..], r)
  {
    EndsOn(r.rest, t, 1);
  }

  /** One quote passed and dropped. */
  lemma DropQuote(t: string, r: Reading)
    requires t != [] && t[0] == QUOTE && ReadOff(t[1..], r)
    ensures ReadOff(t, r)
  {
    EndsOn(r.rest, t, 1);
  }

  /** A backslash passed and dropped, and the next character kept, or a newline dropped with it. */
  lemma DropBackslash(t: string, r: Reading)
    requires |t| >= 2 && t[0] == BACKSLASH && ReadOff(t[2..], r)
    ensures ReadOff(t, Reading([t[1]] + r.text, r.rest))
    ensures t[1] == '\n' ==> ReadOff(t, r)
    ensures t[1] != QUOTE ==> !Tight(t, Reading([t[1]] + r.text, r.rest)) && !Tight(t, r)
  {
    EndsOn(r.rest, t, 2);
    assert t[1..][1..] == t[2..];
    assert Quotes(t) == Quotes(t[1..]) && Quotes(t[1..]) == (if t[1] == QUOTE then 1 else 0) + Quotes(t[2..]);
  }

  lemma {:induction false} WordReadOff(t: string)
    ensures PosixWord(t).Some? ==> ReadOff(t, PosixWord(t).value) && WordBreak(PosixWord(t).value.rest)
    ensures PosixQuoted(t).Some? ==> ReadOff(t, PosixQuoted(t).value) && WordBreak(PosixQuoted(t).value.rest)
    decreases |t|
  {
    if t != [] {
      WordReadOff(t[1..]);
      WordPart(t);
      QuotedPart(t);
    }
  }

  lemma {:induction false} WordPart(t: string)
    requires t != []
    requires PosixWord(t[1..]).Some? ==>
      ReadOff(t[1..], PosixWord(t[1..]).value) && WordBreak(PosixWord(t[1..]).value.rest)
    requires PosixQuoted(t[1..]).Some? ==>
      ReadOff(t[1..], PosixQuoted(t[1..]).value) && WordBreak(PosixQuoted(t[1..]).value.rest)
    ensures PosixWord(t).Some? ==> ReadOff(t, PosixWord(t).value) && WordBreak(PosixWord(t).value.rest)
    decreases |t|, 0
  {
    if EndsWord(t[0]) || PosixWord(t).None? {
    } else if t[0] == QUOTE {
      DropQuote(t, PosixQuoted(t[1..]).value);
    } else if t[0] == BACKSLASH {
      WordReadOff(t[2..]);
      DropBackslash(t, PosixWord(t[2..]).value);
    } else {
      KeepOne(t, PosixWord(t[1..]).value);
    }
  }

  lemma QuotedPart(t: string)
    requires t != []
    requires PosixWord(t[1..]).Some? ==>
      ReadOff(t[1..], PosixWord(t[1..]).value) && WordBreak(PosixWord(t[1..]).value.rest)
    requires PosixQuoted(t[1..]).Some? ==>
      ReadOff(t[1..], PosixQuoted(t[1..]).value) && WordBreak(PosixQuoted(t[1..]).value.rest)
    ensures PosixQuoted(t).Some? ==> ReadOff(t, PosixQuoted(t).value) && WordBreak(PosixQuoted(t).value.rest)
  {
    if PosixQuoted(t).Some? {
      if t[0] == QUOTE {
        DropQuote(t, PosixWord(t[1..]).value);
      } else {
        KeepOne(t, PosixQuoted(t[1..]).value);
      }
    }
  }

  lemma FirstIsPlain(t: string, r: Reading)
    requires |t| >= 2 && PosixWord(t) == Some(r) && Tight(t, r) && |r.rest| < |t| && t[0] != QUOTE && t[1] != QUOTE
    ensures PlainChar(t[0]) && PosixWord(t[1..]).Some?
    ensures var next := PosixWord(t[1..]).value; r == Reading([t[0]] + next.text, next.rest) && Tight(t[1..], next)
  {
    if t[0] == BACKSLASH {
      WordReadOff(t[2..]);
      DropBackslash(t, PosixWord(t[2..]).value);
      assert false;
    }
    WordReadOff(t[1..]);
    KeepOne(t, PosixWord(t[1..]).value);
  }

  /** Text in front of `more` that is read through without a loss is plain. */
  lemma {:induction false} TightIsPlain(name: string, more: string, r: Reading)
    requires PosixWord(name + more) == Some(r) && Tight(name + more, r)
    requires QUOTE !in name && |r.rest| <= |more| && more != [] && more[0] != QUOTE
    ensures Plain(name)
  {
    if name != [] {
      var t := name + more;
      assert t[1..] == name[1..] + more;
      assert t[0] in name && (|name| > 1 ==> t[1] in name);
      FirstIsPlain(t, r);
      TightIsPlain(name[1..], more, PosixWord(t[1..]).value);
    }
  }

  // ------------------------------------------------------------------
  // The first token
  // ------------------------------------------------------------------

  predicate Blank(c: char) {
    c == ' ' || c == '\t'
  }

  /** Where text seen as a word and more tokens has that word. */
  lemma {:induction false} FirstWord(t: string, w: string, tokens: seq<Token>) returns (k: nat, rest: string)
    requires Lex(t) == Some([Word(w)] + tokens)
    ensures k < |t| && (forall i :: 0 <= i < k ==> Blank(t[i]))
    ensures !EndsWord(t[k]) && t[k] != '#' && PosixWord(t[k..]) == Some(Reading(w, rest)) && Lex(rest) == Some(tokens)
    decreases |t|
  {
    var here := [Word(w)] + tokens;
    assert here[0] == Word(w) && here[1..] == tokens;
    if t == [] {
      assert false;
    }
    if Blank(t[0]) {
      k, rest := FirstWord(t[1..], w, tokens);
      k := k + 1;
      assert t[k..] == t[1..][k - 1..];
    } else {
      k := 0;
      rest := WordHere(t, w, tokens);
      assert t[0..] == t;
    }
  }

  lemma WordHere(t: string, w: string, tokens: seq<Token>) returns (rest: string)
    requires t != [] && !Blank(t[0]) && Lex(t) == Some([Word(w)] + tokens)
    ensures !EndsWord(t[0]) && t[0] != '#' && PosixWord(t) == Some(Reading(w, rest)) && Lex(rest) == Some(tokens)
  {
    var here := [Word(w)] + tokens;
    assert here[0] == Word(w) && here[1..] == tokens;
    if EndsWord(t[0]) || t[0] == '#' {
      NotAWord(t);
      assert false;
    }
    rest := PosixWord(t).value.rest;
    ThenParts([Word(PosixWord(t).value.text)], Lex(rest));
  }

  /** A newline, a comment or an operator is not seen as a word first. */
  lemma NotAWord(t: string)
    requires t != [] && !Blank(t[0]) && (EndsWord(t[0]) || t[0] == '#')
    ensures Lex(t).Some? && Lex(t).value != [] ==> !Lex(t).value[0].Word?
  {
    if t[0] == '#' {
      LineEndStops(t);
      var line := t[LineEnd(t)..];
      if line != [] {
        ThenParts([Newline], Lex(line[1..]));
      }
    } else if t[0] == '\n' {
      ThenParts([Newline], Lex(t[1..]));
    } else {
      ThenParts([Operator(t[0])], Lex(t[1..]));
    }
  }

  lemma {:induction false} LineEndStops(t: string)
    ensures LineEnd(t) < |t| ==> t[LineEnd(t)] == '\n'
    ensures OneLine(t[..LineEnd(t)])
  {
    if t != [] && t[0] != '\n' {
      LineEndStops(t[1..]);
      assert t[..LineEnd(t)] == [t[0]] + t[1..][..LineEnd(t[1..])];
    }
  }

  lemma {:induction false} LineEndBy(t: string, i: nat)
    requires i < |t| && t[i] == '\n'
    ensures LineEnd(t) <= i
  {
    if i > 0 && t[0] != '\n' {
      LineEndBy(t[1..], i - 1);
    }
  }

  lemma ThenParts(a: seq<Token>, rest: Option<seq<Token>>)
    requires |a| == 1
    ensures Then(a, rest).Some? ==>
      rest.Some? && Then(a, rest).value[0] == a[0] && Then(a, rest).value[1..] == rest.value
  {
  }

  // ------------------------------------------------------------------
  // A name in front of the rest of its line
  // ------------------------------------------------------------------

  lemma {:induction false} BlanksHaveNoQuotes(t: string, k: nat)
    requires k <= |t| && forall i :: 0 <= i < k ==> Blank(t[i])
    ensures Quotes(t[k..]) == Quotes(t)
  {
    if k > 0 {
      BlanksHaveNoQuotes(t[1..], k - 1);
      assert t[1..][k - 1..] == t[k..];
    } else {
      assert t[0..] == t;
    }
  }

  /** What the first word of `t` costs. */
  lemma FirstWordCosts(t: string, w: string, tokens: seq<Token>) returns (k: nat, rest: string)
    requires Lex(t) == Some([Word(w)] + tokens)
    ensures Lex(rest) == Some(tokens) && Ends(rest, t) && WordBreak(rest)
    ensures k + |w| + |rest| + Quotes(t) <= |t| + Quotes(rest)
    ensures k == 0 ==> t != [] && !EndsWord(t[0]) && t[0] != '#' && PosixWord(t) == Some(Reading(w, rest))
  {
    k, rest := FirstWord(t, w, tokens);
    WordReadOff(t[k..]);
    BlanksHaveNoQuotes(t, k);
    EndsOn(rest, t, k);
    assert k == 0 ==> t[k..] == t;
  }

  /** Neither the first nor the last character is a quote. */
  lemma InnerQuotes(t: string)
    requires t != [] && t[0] != QUOTE && t[|t| - 1] != QUOTE
    ensures Quotes(t) <= if |t| == 1 then 0 else |t| - 2
  {
    if |t| == 1 {
      assert t[1..] == [];
    } else {
      var m := |t| - 1;
      assert t[1..] == t[1..m] + [t[m]];
      QuotesAppend(t[1..m], [t[m]]);
      QuotesAtMost(t[1..m]);
      assert [t[m]][1..] == [];
    }
  }

  lemma SameLast(rest: string, t: string)
    requires Ends(rest, t) && rest != []
    ensures t != [] && rest[|rest| - 1] == t[|t| - 1]
  {
  }

  /** A line that is seen as one word and its end has lost nothing but quotes, so what was written
      without quotes is plain. */
  lemma LastWordPlain(name: string, more: string, w: string)
    requires more != [] && more[0] != QUOTE && more[|more| - 1] == '\n'
    requires |w| + Quotes(more) + 1 == |name| + |more|
    requires Lex(name + more) == Some([Word(w)] + [Newline])
    ensures PlainPrefix(name) && (name == [] ==> !EndsWord(more[0]))
  {
    var t := name + more;
    var k, rest := FirstWordCosts(t, w, [Newline]);
    QuotesAppend(name, more);
    SameLast(rest, t);
    InnerQuotes(rest);
    QuotesAtMost(name);
    assert |rest| == 1 && k == 0;
    TightIsPlain(name, more, Reading(w, rest));
    assert name != [] ==> t[0] == name[0];
  }

  lemma ThenOne(a: Token, rest: Option<seq<Token>>, tokens: seq<Token>)
    ensures Then([a], rest) == Some([a] + tokens) <==> rest == Some(tokens)
  {
    if rest.Some? {
      assert ([a] + rest.value)[1..] == rest.value && ([a] + tokens)[1..] == tokens;
    }
  }

  /** A verb in front of a line adds just itself. */
  lemma AfterVerb(verb: string, t: string, tokens: seq<Token>)
    requires PlainName(verb)
    ensures Lex(verb + (" " + t)) == Some([Word(verb)] + tokens) <==> Lex(t) == Some(tokens)
  {
    BareLexes(verb, " " + t);
    BlankLexes(t);
    ThenOne(Word(verb), Lex(t), tokens);
  }

  // ------------------------------------------------------------------
  // Switched options
  // ------------------------------------------------------------------

  lemma SetReadsIff(flag: string, name: string)
    requires PlainName(flag)
    ensures var tokens := [Word("set"), Word(flag), Word(name), Newline];
      Lex("set " + flag + " " + name + "\n") == Some(tokens) <==> PlainName(name)
  {
    var line := name + "\n";
    var named := flag + (" " + line);
    assert "set " + flag + " " + name + "\n" == "set" + (" " + named);
    var tokens := [Word(flag)] + ([Word(name)] + [Newline]);
    assert [Word("set"), Word(flag), Word(name), Newline] == [Word("set")] + tokens;
    AfterVerb("set", named, tokens);
    AfterVerb(flag, line, [Word(name)] + [Newline]);
    NameLineReadsIff(name);
  }

  lemma NameLineReadsIff(name: string)
    ensures Lex(name + "\n") == Some([Word(name)] + [Newline]) <==> PlainName(name)
  {
    if Lex(name + "\n") == Some([Word(name)] + [Newline]) {
      assert "\n"[1..] == [];
      LastWordPlain(name, "\n", name);
    }
    if PlainName(name) {
      BareLexes(name, "\n");
      EndsLine();
    }
  }

  lemma EndsLine()
    ensures Lex("\n") == Some([Newline])
  {
    EndLexes([], []);
    assert [] + "\n" + [] == "\n";
    assert [Newline] + [] == [Newline];
  }

  // ------------------------------------------------------------------
  // Options shown in a comment
  // ------------------------------------------------------------------

  /** Text that ends a line is seen as something. */
  lemma {:induction false} LineIsSeen(t: string)
    requires t != [] && t[|t| - 1] == '\n'
    ensures Lex(t) != Some([])
    decreases |t|
  {
    if Blank(t[0]) {
      LineIsSeen(t[1..]);
    } else if t[0] == '#' {
      LineEndStops(t);
      LineEndBy(t, |t| - 1);
      ThenParts([Newline], Lex(t[LineEnd(t)..][1..]));
    }
  }

  lemma CommentReadsIff(comment: string)
    requires comment != [] && comment[0] == '#'
    ensures Lex(comment + "\n") == Some([Newline]) <==> OneLine(comment)
  {
    var t := comment + "\n";
    if OneLine(comment) {
      EndLexes(comment, []);
      assert comment + "\n" + [] == t && [Newline] + [] == [Newline];
    } else {
      var k := FirstLineOf(t, comment);
      var left := t[k + 1..];
      assert t[k..][1..] == left;
      LineIsSeen(left);
      ThenOne(Newline, Lex(left), []);
      assert [Newline] + [] == [Newline];
    }
  }

  lemma FirstLineOf(t: string, comment: string) returns (k: nat)
    requires t == comment + "\n" && !OneLine(comment) && comment[0] == '#'
    ensures k == LineEnd(t) < |comment| && t[k] == '\n'
  {
    k := LineEnd(t);
    LineEndStops(t);
    var i :| 0 <= i < |comment| && comment[i] == '\n';
    LineEndBy(t, i);
  }

  /** An option line alone is seen as meant, and so it is in front of any text, if and only if a switched
      option's name needs no quotes, or name and values of any other option keep to one line. */
  lemma OptReadsIff(o: OptDiff)
    ensures Lex(OptText(o)) == Some(OptTokens(o)) <==> OptPlain(o)
    ensures (forall t :: LineAt(Lex, OptText, OptTokens, o, t)) <==> OptPlain(o)
  {
    OptAloneIff(o);
    if OptPlain(o) {
      LexTakesParts();
      forall t ensures LineAt(Lex, OptText, OptTokens, o, t) {
        OptTaken(Lex, o, t);
      }
    } else {
      AloneIsFirst(o, OptText, OptTokens);
    }
  }

  lemma AloneIsFirst<D>(d: D, text: D -> string, tokens: D -> seq<Token>)
    ensures LineAt(Lex, text, tokens, d, []) <==> Lex(text(d)) == Some(tokens(d))
  {
    assert text(d) + [] == text(d) && tokens(d) + [] == tokens(d);
  }

  lemma OptAloneIff(o: OptDiff)
    ensures Lex(OptText(o)) == Some(OptTokens(o)) <==> OptPlain(o)
  {
    if o.pre == "on" && o.post != "on" {
      SetReadsIff("-o", o.name);
      assert "set " + "-o" + " " == "set -o ";
    } else if o.pre == "off" && o.post != "off" {
      SetReadsIff("+o", o.name);
      assert "set " + "+o" + " " == "set +o ";
    } else {
      assert Comment(o)[0] == '#';
      CommentIsOneLine(o);
      CommentReadsIff(Comment(o));
    }
  }

  // ------------------------------------------------------------------
  // Aliases
  // ------------------------------------------------------------------

  lemma {:induction false} ReplacedQuotes(s: string)
    ensures var r := Replace(s, QUOTE, [QUOTE, BACKSLASH, QUOTE, QUOTE]);
      Quotes(r) == 3 * Quotes(s) && |r| == |s| + 3 * Quotes(s)
  {
    if s != [] {
      ReplacedQuotes(s[1..]);
      var head := if s[0] == QUOTE then [QUOTE, BACKSLASH, QUOTE, QUOTE] else [s[0]];
      QuotesAppend(head, Replace(s[1..], QUOTE, [QUOTE, BACKSLASH, QUOTE, QUOTE]));
      HeadQuotes(s[0], head);
    }
  }

  lemma HeadQuotes(c: char, head: string)
    requires head == if c == QUOTE then [QUOTE, BACKSLASH, QUOTE, QUOTE] else [c]
    ensures Quotes(head) == if c == QUOTE then 3 else 0
  {
    if c == QUOTE {
      assert [QUOTE][1..] == [] && Quotes([QUOTE]) == 1;
      assert [QUOTE, QUOTE][1..] == [QUOTE] && Quotes([QUOTE, QUOTE]) == 2;
      assert [BACKSLASH, QUOTE, QUOTE][1..] == [QUOTE, QUOTE] && Quotes([BACKSLASH, QUOTE, QUOTE]) == 2;
      assert head[1..] == [BACKSLASH, QUOTE, QUOTE];
    } else {
      assert head[1..] == [];
    }
  }

  /** Quoting costs exactly the quotes it adds. */
  lemma QuotingCosts(s: string)
    ensures |ShQuote(s)| == |s| + Quotes(ShQuote(s))
  {
    var r := Replace(s, QUOTE, [QUOTE, BACKSLASH, QUOTE, QUOTE]);
    ReplacedQuotes(s);
    QuotesAppend([QUOTE], r);
    QuotesAppend([QUOTE] + r, [QUOTE]);
    assert [QUOTE][1..] == [];
  }

  lemma DefinitionReadsIff(name: string, expansion: string)
    ensures var tokens := [Word(name + "=" + expansion)] + [Newline];
      Lex(name + "=" + ShQuote(expansion) + "\n") == Some(tokens) <==> PlainPrefix(name)
  {
    var more := "=" + ShQuote(expansion) + "\n";
    assert name + "=" + ShQuote(expansion) + "\n" == name + more;
    DefinitionCosts(expansion);
    if Lex(name + more) == Some([Word(name + "=" + expansion)] + [Newline]) {
      LastWordPlain(name, more, name + "=" + expansion);
    }
    if PlainPrefix(name) {
      QuotedLexes(name + "=", expansion, "\n");
      EndsLine();
    }
  }

  lemma DefinitionCosts(expansion: string)
    ensures var more := "=" + ShQuote(expansion) + "\n"; |expansion| + 1 + Quotes(more) + 1 == |more|
  {
    QuotingCosts(expansion);
    QuotesAppend("=", ShQuote(expansion));
    QuotesAppend("=" + ShQuote(expansion), "\n");
    assert "="[1..] == [] && "\n"[1..] == [];
  }

  /** The end of a quiet line starts no earlier or later than where it was written. */
  lemma QuietStarts(rest: string)
    requires Ends(rest, QUIETLY) && WordBreak(rest) && Lex(rest) == Some(QuietTokens())
    ensures rest == QUIETLY
  {
    var k := |QUIETLY| - |rest|;
    assert rest == QUIETLY[k..];
    assert QuietTokens()[0] == Word("2");
    if k > 0 {
      assert rest == [] || EndsWord(QUIETLY[k]);
      LaterStart(k);
    }
  }

  /** Read from any later word break, a quiet line does not start with its redirection. */
  lemma LaterStart(k: nat)
    requires 0 < k <= |QUIETLY| && (k < |QUIETLY| ==> EndsWord(QUIETLY[k]))
    ensures var seen := Lex(QUIETLY[k..]); seen.Some? && seen.value != [] ==> seen.value[0] != Word("2")
  {
    if k == 12 {
      assert QUIETLY[12..] == " " + "|| true\n";
      BlankLexes("|| true\n");
      NotAWord("|| true\n");
    } else if k == 15 {
      TrueFirst();
    } else if k < |QUIETLY| {
      assert k == 2 || k == 13 || k == 14 || k == 20;
      NotAWord(QUIETLY[k..]);
    }
  }

  lemma TrueFirst()
    ensures Lex(QUIETLY[15..]) == Some([Word("true")] + [Newline])
  {
    TrueSpelled();
    BlankName("true");
  }

  lemma TrueSpelled()
    ensures QUIETLY[15..] == " " + ("true" + "\n") && PlainName("true")
  {
  }

  lemma BlankName(name: string)
    requires PlainName(name)
    ensures Lex(" " + (name + "\n")) == Some([Word(name)] + [Newline])
  {
    BlankLexes(name + "\n");
    NameLineReadsIff(name);
  }

  lemma RemovalReadsIff(name: string)
    ensures Lex(name + QUIETLY) == Some([Word(name)] + QuietTokens()) <==> PlainName(name)
  {
    if Lex(name + QUIETLY) == Some([Word(name)] + QuietTokens()) {
      RemovalIsPlain(name);
    }
    if PlainName(name) {
      LexTakesParts();
      QuietlyTaken(Lex, []);
      assert QUIETLY + [] == QUIETLY && QuietTokens() + [] == QuietTokens();
      BareLexes(name, QUIETLY);
    }
  }

  lemma RemovalIsPlain(name: string)
    requires Lex(name + QUIETLY) == Some([Word(name)] + QuietTokens())
    ensures PlainName(name)
  {
    var t := name + QUIETLY;
    assert t[0] == if name == [] then ' ' else name[0];
    var k, rest := FirstWordCosts(t, name, QuietTokens());
    NameIsPlain(name, QUIETLY, k, rest);
  }

  lemma NameIsPlain(name: string, more: string, k: nat, rest: string)
    requires more == QUIETLY && Ends(rest, name + more) && WordBreak(rest) && Lex(rest) == Some(QuietTokens())
    requires k + |name| + |rest| + Quotes(name + more) <= |name + more| + Quotes(rest)
    requires k == 0 ==> PosixWord(name + more) == Some(Reading(name, rest))
    ensures k == 0 && Plain(name)
  {
    RestFits(name, more, rest);
    QuietStarts(rest);
    QuotesAppend(name, more);
    QuotesAtMost(name);
    TightIsPlain(name, more, Reading(name, rest));
  }

  lemma LongRest(name: string, more: string, rest: string)
    requires Ends(rest, name + more) && |rest| > |more| && rest[0] != QUOTE
    ensures |rest| + Quotes(more) > |more| + Quotes(rest)
  {
    var n := |rest| - |more|;
    assert rest == rest[..n] + more;
    QuotesAppend(rest[..n], more);
    assert rest[..n] == [rest[0]] + rest[1..n] && rest[..n][1..] == rest[1..n];
    QuotesAtMost(rest[1..n]);
  }

  lemma RestFits(name: string, more: string, rest: string)
    requires Ends(rest, name + more) && WordBreak(rest)
    requires |name| + |rest| + Quotes(name + more) <= |name + more| + Quotes(rest)
    ensures Ends(rest, more)
  {
    QuotesAppend(name, more);
    assert |rest| > |more| ==> rest[0] != QUOTE;
    if |rest| > |more| {
      LongRest(name, more, rest);
      assert false;
    }
    assert (name + more)[|name + more| - |rest|..] == more[|more| - |rest|..];
  }

  /** An alias line alone is seen as meant, and so it is in front of any text, if and only if the name
      needs no quotes; the expansion may hold anything. */
  lemma AliasReadsIff(a: AliasDiff)
    ensures Lex(AliasText(a)) == Some(AliasTokens(a)) <==> AliasPlain(a)
    ensures (forall t :: LineAt(Lex, AliasText, AliasTokens, a, t)) <==> AliasPlain(a)
  {
    AliasAloneIff(a);
    if AliasPlain(a) {
      LexTakesParts();
      forall t ensures LineAt(Lex, AliasText, AliasTokens, a, t) {
        AliasTaken(Lex, a, t);
      }
    } else {
      AloneIsFirst(a, AliasText, AliasTokens);
    }
  }

  lemma AliasAloneIff(a: AliasDiff)
    ensures Lex(AliasText(a)) == Some(AliasTokens(a)) <==> AliasPlain(a)
  {
    match a.pre {
      case Some(expansion) => DefinitionLineIff(a.name, expansion);
      case None => RemovalLineIff(a.name);
    }
  }

  lemma DefinitionLineIff(name: string, expansion: string)
    ensures var tokens := [Word("alias"), Word(name + "=" + expansion), Newline];
      Lex("alias " + name + "=" + ShQuote(expansion) + "\n") == Some(tokens) <==> PlainPrefix(name)
  {
    var line, word := name + "=" + ShQuote(expansion) + "\n", Word(name + "=" + expansion);
    assert "alias " + name + "=" + ShQuote(expansion) + "\n" == "alias" + (" " + line);
    assert [Word("alias"), word, Newline] == [Word("alias")] + ([word] + [Newline]);
    AfterVerb("alias", line, [word] + [Newline]);
    DefinitionReadsIff(name, expansion);
  }

  lemma RemovalLineIff(name: string)
    ensures Lex("unalias " + name + QUIETLY) == Some([Word("unalias"), Word(name)] + QuietTokens()) <==> PlainName(name)
  {
    RemovalReadsIff(name);
    UnaliasSpelled();
    VerbLineIff("unalias", "unalias ", name, QUIETLY, QuietTokens());
  }

  lemma UnaliasSpelled()
    ensures PlainName("unalias") && "unalias" + " " == "unalias "
  {
  }

  lemma VerbLineIff(verb: string, spaced: string, name: string, more: string, tokens: seq<Token>)
    requires PlainName(verb) && verb + " " == spaced
    requires Lex(name + more) == Some([Word(name)] + tokens) <==> PlainName(name)
    ensures Lex(spaced + name + more) == Some([Word(verb), Word(name)] + tokens) <==> PlainName(name)
  {
    NamedLineIff(verb, name, more, tokens);
  }

  /** A verb and a blank in front of the rest of a line. */
  lemma NamedLineIff(verb: string, name: string, more: string, tokens: seq<Token>)
    requires PlainName(verb)
    ensures Lex(verb + " " + name + more) == Some([Word(verb), Word(name)] + tokens) <==>
      Lex(name + more) == Some([Word(name)] + tokens)
  {
    assert verb + " " + name + more == verb + (" " + (name + more));
    assert [Word(verb), Word(name)] + tokens == [Word(verb)] + ([Word(name)] + tokens);
    AfterVerb(verb, name + more, [Word(name)] + tokens);
  }

  // ------------------------------------------------------------------
  // Removed functions
  // ------------------------------------------------------------------

  /** A function's removal line alone is seen as meant, and so it is in front of any text, if and only if
      its name needs no quotes. */
  lemma FuncReadsIff(name: string)
    ensures var f := FuncDiff(name, None);
      && (Lex(FuncText(f)) == Some(FuncTokens(f)) <==> PlainName(name))
      && ((forall t :: LineAt(Lex, FuncText, FuncTokens, f, t)) <==> PlainName(name))
  {
    var f := FuncDiff(name, None);
    UnsetLineIff(name);
    if PlainName(name) {
      LexTakesParts();
      forall t ensures LineAt(Lex, FuncText, FuncTokens, f, t) {
        RemovalTaken(Lex, name, t);
      }
    } else {
      AloneIsFirst(f, FuncText, FuncTokens);
    }
  }

  lemma UnsetLineIff(name: string)
    ensures var tokens := [Word("unset"), Word("-f"), Word(name)] + QuietTokens();
      Lex("unset -f " + name + QUIETLY) == Some(tokens) <==> PlainName(name)
  {
    RemovalReadsIff(name);
    UnsetSpelled();
    FlagLineIff("unset", "-f", "unset -f ", name, QUIETLY, QuietTokens());
  }

  lemma UnsetSpelled()
    ensures PlainName("unset") && PlainName("-f") && "unset" + " " + "-f" + " " == "unset -f "
  {
  }

  lemma FlagLineIff(verb: string, flag: string, spaced: string, name: string, more: string, tokens: seq<Token>)
    requires PlainName(verb) && PlainName(flag) && verb + " " + flag + " " == spaced
    requires Lex(name + more) == Some([Word(name)] + tokens) <==> PlainName(name)
    ensures Lex(spaced + name + more) == Some([Word(verb), Word(flag), Word(name)] + tokens) <==> PlainName(name)
  {
    var line := flag + (" " + (name + more));
    var words := [Word(flag)] + ([Word(name)] + tokens);
    FlagText(verb, flag, name + more);
    assert spaced + name + more == spaced + (name + more);
    FlagWords(Word(verb), Word(flag), Word(name), tokens);
    AfterVerb(verb, line, words);
    AfterVerb(flag, name + more, [Word(name)] + tokens);
  }

  lemma FlagText(verb: string, flag: string, line: string)
    ensures verb + " " + flag + " " + line == verb + (" " + (flag + (" " + line)))
  {
  }

  lemma FlagWords(a: Token, b: Token, c: Token, tokens: seq<Token>)
    ensures [a, b, c] + tokens == [a] + ([b] + ([c] + tokens))
  {
  }

  // ------------------------------------------------------------------
  // Lines that are not seen as meant
  // ------------------------------------------------------------------

  /** A value with a newline ends its comment, and the rest of it is seen as words. */
  lemma ValueEndsItsComment()
    ensures var o := OptDiff("x", "a\nb #", "c");
      Lex(OptText(o)) == Some([Newline, Word("b"), Newline]) && OptTokens(o) == [Newline]
  {
    var o := OptDiff("x", "a\nb #", "c");
    var first, last := "# manual: option `x` was `a", "#`, now `c`";
    CommentSpelled(o, first, last);
    CommentsAreLines(first, last);
    TwoComments(first, "b", last);
  }

  lemma CommentSpelled(o: OptDiff, first: string, last: string)
    requires o == OptDiff("x", "a\nb #", "c") && first == "# manual: option `x` was `a" && last == "#`, now `c`"
    ensures OptText(o) == first + "\n" + ("b" + (" " + (last + "\n"))) && OptTokens(o) == [Newline]
  {
    assert !Switched(o) by {
      assert o.pre[0] == 'a';
    }
    CommentParts(first, last, o);
  }

  lemma CommentParts(first: string, last: string, o: OptDiff)
    requires o == OptDiff("x", "a\nb #", "c") && first == "# manual: option `x` was `a" && last == "#`, now `c`"
    ensures Comment(o) + "\n" == first + "\n" + ("b" + (" " + (last + "\n")))
  {
  }

  lemma CommentsAreLines(first: string, last: string)
    requires first == "# manual: option `x` was `a" && last == "#`, now `c`"
    ensures first[0] == '#' && OneLine(first) && last[0] == '#' && OneLine(last) && PlainName("b")
  {
  }

  lemma TwoComments(first: string, word: string, last: string)
    requires first != [] && first[0] == '#' && OneLine(first) && last != [] && last[0] == '#' && OneLine(last)
    requires PlainName(word)
    ensures Lex(first + "\n" + (word + (" " + (last + "\n")))) == Some([Newline, Word(word), Newline])
  {
    EndLexes(first, word + (" " + (last + "\n")));
    AfterVerb(word, last + "\n", [Newline]);
    CommentReadsIff(last);
    assert [Newline] + ([Word(word)] + [Newline]) == [Newline, Word(word), Newline];
  }

  /** A name with a blank is seen as two words, and a quoted one without its quotes. */
  lemma NamesAreNotQuoted()
    ensures Lex(OptText(OptDiff("a b", "on", "off"))) != Some(OptTokens(OptDiff("a b", "on", "off")))
    ensures Lex(AliasText(AliasDiff("'a'", Some("b")))) != Some(AliasTokens(AliasDiff("'a'", Some("b"))))
    ensures Lex(FuncText(FuncDiff("a b", None))) != Some(FuncTokens(FuncDiff("a b", None)))
  {
    FuncReadsIff("a b");
    OptReadsIff(OptDiff("a b", "on", "off"));
    AliasReadsIff(AliasDiff("'a'", Some("b")));
    assert "a b"[1] == ' ' && "'a'"[0] == QUOTE;
    assert ' ' in "a b" && QUOTE in "'a'" && !PlainChar(' ') && !PlainChar(QUOTE);
  }
}
