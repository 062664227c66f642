/** What the lint's rule for the first word of a command (crates/shit-desc/src/schema.rs:350-360) means to a
    shell, and the name a descriptor may have (crates/shit-desc/src/schema.rs:315-329). */
module Binary {
  import opened Plan
  import opened Reader
  import opened Quote
  import opened Snippet
  import Lint
  import Unquoted

  /** Every command a descriptor runs. */
  function Commands(d: Lint.Recipe): seq<seq<string>> {
    [d.pre.command, d.reverse]
      + (if d.post.Some? then [d.post.value.command] else [])
      + (if d.guard.Some? then [d.guard.value.command] else [])
  }

  lemma CommandsAreSafe(d: Lint.Recipe, command: seq<string>)
    requires Lint.Clean(d) && command in Commands(d)
    ensures Lint.SafeCommand(command)
  {
  }

  /** The rule bars exactly what separates commands or redirects, and the two characters that start a
      substitution outside double quotes. */
  lemma MetaIs(c: char)
    ensures c in Lint.SHELL_META <==> (EndsWord(c) && !Unquoted.Blank(c)) || c == '$' || c == '`'
  {
  }

  ghost predicate OnlyWords(tokens: seq<Token>) {
    forall i :: 0 <= i < |tokens| ==> tokens[i].Word?
  }

  ghost predicate MetaFree(t: string) {
    forall c :: c in t ==> c !in Lint.SHELL_META
  }

  lemma TailMetaFree(rest: string, t: string)
    requires Unquoted.Ends(rest, t) && MetaFree(t)
    ensures MetaFree(rest)
  {
  }

  lemma WordMetaFree(t: string)
    requires MetaFree(t) && PosixWord(t).Some?
    ensures MetaFree(PosixWord(t).value.rest)
  {
    Unquoted.WordReadOff(t);
    TailMetaFree(PosixWord(t).value.rest, t);
  }

  lemma CommentToEnd(t: string)
    requires MetaFree(t)
    ensures LineEnd(t) == |t|
  {
    Unquoted.LineEndStops(t);
    assert forall i :: 0 <= i < |t| ==> t[i] in t;
  }

  /** Without those characters a shell sees words and nothing else. */
  lemma {:induction false} OneCommand(t: string)
    requires MetaFree(t)
    ensures Lex(t).Some? ==> OnlyWords(Lex(t).value)
    decreases |t|
  {
    if t != [] {
      MetaIs(t[0]);
      if Unquoted.Blank(t[0]) {
        OneCommand(t[1..]);
      } else if t[0] == '#' {
        CommentToEnd(t);
        assert t[LineEnd(t)..] == [];
      } else if PosixWord(t).Some? {
        WordUsesUp(t);
        WordMetaFree(t);
        OneCommand(PosixWord(t).value.rest);
      }
    }
  }

  lemma DotsThere(before: string, after: string)
    ensures !Lint.SafeBinary(before + ".." + after)
  {
    var s := before + ".." + after;
    assert Lint.DotsAt(s, |before|);
  }

  /** An accepted descriptor runs no command whose first word starts a second command, a redirection or a
      substitution, or climbs out of a directory. */
  lemma AcceptedIsOneCommand(d: Lint.Recipe, command: seq<string>)
    requires Lint.Clean(d) && command in Commands(d)
    ensures command != [] && command[0] != []
    ensures '$' !in command[0] && '`' !in command[0]
    ensures Lex(command[0]).Some? ==> OnlyWords(Lex(command[0]).value)
    ensures forall before: string, after: string :: command[0] != before + ".." + after
  {
    CommandsAreSafe(d, command);
    var s := command[0];
    MetaIs('$');
    MetaIs('`');
    OneCommand(s);
    forall before: string, after: string ensures s != before + ".." + after {
      DotsThere(before, after);
    }
  }

  /** What the rule does not bar although a shell would take it apart. */
  predicate Quotable(c: char) {
    c == ' ' || c == '\t' || c == '\'' || c == '"' || c == '\\'
  }

  lemma PlainIff(s: string)
    requires MetaFree(s)
    ensures Plain(s) <==> forall c :: c in s ==> !Quotable(c)
  {
    forall c | c in s ensures PlainChar(c) <==> !Quotable(c) {
      MetaIs(c);
    }
  }

  lemma PlainIsOneWord(s: string)
    requires PlainName(s)
    ensures Lex(s + "\n") == Some([Word(s), Newline])
  {
    BareLexes(s, "\n");
    EndLexes("", "");
    assert "" + "\n" + "" == "\n";
    ThenThen([Word(s)], [Newline], Some([]));
    assert [Word(s)] + [Newline] + [] == [Word(s), Newline];
  }

  lemma OneWordIsPlain(s: string)
    requires Lex(s + "\n") == Some([Word(s), Newline])
    ensures PlainName(s)
  {
    assert [Word(s)] + [Newline] == [Word(s), Newline];
    assert "\n"[1..] == "";
    Unquoted.LastWordPlain(s, "\n", s);
  }

  /** A word the rule accepts is read by a shell as that one word if and only if it holds no blank, quotes or
      backslash and does not start a comment. */
  lemma AcceptedIsOneWordIff(s: string)
    requires Lint.SafeBinary(s)
    ensures Lex(s + "\n") == Some([Word(s), Newline]) <==> s[0] != '#' && forall c :: c in s ==> !Quotable(c)
  {
    PlainIff(s);
    if PlainName(s) {
      PlainIsOneWord(s);
    } else if Lex(s + "\n") == Some([Word(s), Newline]) {
      OneWordIsPlain(s);
    }
  }

  /** A blank is accepted, and splits the word. */
  lemma BlankIsAccepted(d: Lint.Recipe)
    requires Lint.Clean(d)
    ensures Lint.Clean(d.(pre := d.pre.(command := ["my tool"])))
    ensures Lex("my tool\n") != Some([Word("my tool"), Newline])
  {
    var s := "my tool";
    BlankSplits(s);
    var e := d.(pre := d.pre.(command := [s]));
    assert e.pre.command[0] == s && Lint.SafeCommand(e.pre.command);
    assert Lint.SnapshotClean(e.pre);
    assert Lint.ExtractedKeys(e) == Lint.ExtractedKeys(d);
  }

  lemma BlankSplits(s: string)
    requires s == "my tool"
    ensures Lint.SafeBinary(s) && Lex("my tool\n") != Some([Word("my tool"), Newline])
  {
    assert Quotable(s[2]) && s[2] in s;
    AcceptedIsOneWordIff(s);
    assert s + "\n" == "my tool\n";
  }

  const SLUG := {
    'a', 'b', 'c', 'd', 'e', 'f', 'g', 'h', 'i', 'j', 'k', 'l', 'm', 'n', 'o', 'p', 'q', 'r', 's', 't', 'u', 'v',
    'w', 'x', 'y', 'z', '0', '1', '2', '3', '4', '5', '6', '7', '8', '9'}

  /** A name is up to 64 small letters, digits and hyphens, the first not a hyphen, so a shell reads it as
      one word and never as an option. */
  lemma SlugIs(s: string)
    ensures Lint.ValidSlug(s) <==> 1 <= |s| <= 64 && s[0] in SLUG && forall c :: c in s ==> c in SLUG || c == '-'
    ensures Lint.ValidSlug(s) ==> PlainName(s) && s[0] != '-'
  {
    forall c ensures c in SLUG <==> Lint.SlugStart(c) {
      SlugChar(c);
    }
    assert forall i :: 0 <= i < |s| ==> s[i] in s;
  }

  lemma SlugChar(c: char)
    ensures c in SLUG <==> Lint.SlugStart(c)
  {
    assert c as int as char == c;
  }
}
