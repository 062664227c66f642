/** Text escaped character by character, and readers that take escaped text apart again. */
module Reader {
  import opened Plan

  /** What was read, and what follows it. */
  datatype Reading = Reading(text: string, rest: string)

  function Literally(c: char, r: Option<Reading>): Option<Reading> {
    match r
    case None => None
    case Some(Reading(text, rest)) => Some(Reading([c] + text, rest))
  }

  function EscapeAll(s: string, escape: char -> string): string {
    if s == [] then [] else escape(s[0]) + EscapeAll(s[1..], escape)
  }

  /** The reader takes an escaped character for that character, whatever follows. */
  ghost predicate Undoes(read: string -> Option<Reading>, escape: char -> string) {
    forall c, tail :: UndoesAt(read, escape, c, tail)
  }

  ghost predicate UndoesAt(read: string -> Option<Reading>, escape: char -> string, c: char, tail: string) {
    read(escape(c) + tail) == Literally(c, read(tail))
  }

  lemma EscapeCons(s: string, rest: string, escape: char -> string)
    requires s != []
    ensures EscapeAll(s, escape) + rest == escape(s[0]) + (EscapeAll(s[1..], escape) + rest)
  {
  }

  lemma LiterallyText(s: string, r: Option<Reading>)
    requires s != [] && r.Some? && r.value.text == s[1..]
    ensures Literally(s[0], r) == Some(Reading(s, r.value.rest))
  {
    assert [s[0]] + s[1..] == s;
  }

  /** Then it takes escaped text for that text, up to where it was closed. */
  lemma {:induction false} ReadsBack(s: string, rest: string, read: string -> Option<Reading>, escape: char -> string)
    requires Undoes(read, escape) && read(rest).Some? && read(rest).value.text == []
    ensures read(EscapeAll(s, escape) + rest) == Some(Reading(s, read(rest).value.rest))
  {
    if s == [] {
      assert [] + rest == rest;
    } else {
      var tail := EscapeAll(s[1..], escape) + rest;
      ReadsBack(s[1..], rest, read, escape);
      EscapeCons(s, rest, escape);
      assert UndoesAt(read, escape, s[0], tail);
      LiterallyText(s, read(tail));
    }
  }
}
