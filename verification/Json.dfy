/** JSON string literals (crates/shit-helper/src/main.rs:1089-1114) against the grammar of section 7 of
    RFC 8259. */
module Json {
  import opened Plan
  import opened Reader

  const DOUBLE := '"'
  const BACKSLASH := '\\'

  function HexDigit(n: nat): char
    requires n < 16
  {
    if n < 10 then '0' + n as char else 'a' + (n - 10) as char
  }

  function Escape(c: char): string {
    if c == DOUBLE then [BACKSLASH, DOUBLE]
    else if c == BACKSLASH then [BACKSLASH, BACKSLASH]
    else if c == '\n' then [BACKSLASH, 'n']
    else if c == '\r' then [BACKSLASH, 'r']
    else if c == '\t' then [BACKSLASH, 't']
    else if c as int == 0x08 then [BACKSLASH, 'b']
    else if c as int == 0x0c then [BACKSLASH, 'f']
    else if c as int < 0x20 then [BACKSLASH, 'u', '0', '0', HexDigit(c as int / 16), HexDigit(c as int % 16)]
    else [c]
  }

  function Escaped(s: string): string {
    EscapeAll(s, Escape)
  }

  method JsonString(s: string) returns (out: string)
    ensures out == [DOUBLE] + Escaped(s) + [DOUBLE]
  {
    out := [DOUBLE];
    assert s[0..] == s;
    for i := 0 to |s|
      invariant [DOUBLE] + Escaped(s) == out + Escaped(s[i..])
    {
      EscapedStep(out, s, i);
      out := out + Escape(s[i]);
    }
    out := out + [DOUBLE];
  }

  lemma EscapedStep(out: string, s: string, i: nat)
    requires i < |s|
    ensures out + Escaped(s[i..]) == (out + Escape(s[i])) + Escaped(s[i + 1..])
  {
    assert s[i..][1..] == s[i + 1..];
  }

  // ------------------------------------------------------------------
  // The reader
  // ------------------------------------------------------------------

  function HexValue(c: char): (v: Option<nat>)
    ensures v.Some? ==> v.value < 16
  {
    if '0' <= c <= '9' then Some((c - '0') as nat)
    else if 'a' <= c <= 'f' then Some((c - 'a') as nat + 10)
    else if 'A' <= c <= 'F' then Some((c - 'A') as nat + 10)
    else None
  }

  /** The code unit of four hexadecimal digits. */
  function CodeUnit(t: string): (u: Option<nat>)
    requires |t| >= 4
    ensures u.Some? ==> u.value < 0x10000
  {
    if HexValue(t[0]).Some? && HexValue(t[1]).Some? && HexValue(t[2]).Some? && HexValue(t[3]).Some? then
      Some(0x1000 * HexValue(t[0]).value + 0x100 * HexValue(t[1]).value
        + 0x10 * HexValue(t[2]).value + HexValue(t[3]).value)
    else None
  }

  function Named(c: char): Option<char> {
    if c == DOUBLE || c == BACKSLASH || c == '/' then Some(c)
    else if c == 'b' then Some(0x08 as char)
    else if c == 'f' then Some(0x0c as char)
    else if c == 'n' then Some('\n')
    else if c == 'r' then Some('\r')
    else if c == 't' then Some('\t')
    else None
  }

  /** The text after the opening quotation mark, up to and including the closing one. Outside the basic
      plane a character is a pair of surrogate escapes. */
  function Inside(t: string): Option<Reading>
    decreases |t|
  {
    if t == [] then None
    else if t[0] == DOUBLE then Some(Reading([], t[1..]))
    else if t[0] != BACKSLASH then
      if t[0] as int < 0x20 then None else Literally(t[0], Inside(t[1..]))
    else if |t| == 1 then None
    else if t[1] != 'u' then
      if Named(t[1]).Some? then Literally(Named(t[1]).value, Inside(t[2..])) else None
    else if |t| < 6 || CodeUnit(t[2..]).None? then None
    else
      var u := CodeUnit(t[2..]).value;
      if u < 0xD800 || 0xE000 <= u then Literally(u as char, Inside(t[6..]))
      else if 0xDC00 <= u || |t| < 12 || t[6] != BACKSLASH || t[7] != 'u' || CodeUnit(t[8..]).None? then None
      else
        var low := CodeUnit(t[8..]).value;
        if 0xDC00 <= low < 0xE000 then
          Literally((0x10000 + (u - 0xD800) * 0x400 + (low - 0xDC00)) as char, Inside(t[12..]))
        else None
  }

  function ReadString(t: string): Option<Reading> {
    if t == [] || t[0] != DOUBLE then None else Inside(t[1..])
  }

  // ------------------------------------------------------------------
  // Every string reads back
  // ------------------------------------------------------------------

  lemma HexReadsBack(n: nat)
    requires n < 16
    ensures HexValue(HexDigit(n)) == Some(n)
  {
  }

  lemma ControlReads(c: char, tail: string)
    requires c as int < 0x20
    ensures var hi, lo := HexDigit(c as int / 16), HexDigit(c as int % 16);
      Inside([BACKSLASH, 'u', '0', '0', hi, lo] + tail) == Literally(c, Inside(tail))
  {
    var hi, lo := HexDigit(c as int / 16), HexDigit(c as int % 16);
    var t := [BACKSLASH, 'u', '0', '0', hi, lo] + tail;
    HexReadsBack(c as int / 16);
    HexReadsBack(c as int % 16);
    assert t[2..][0] == '0' && t[2..][1] == '0' && t[2..][2] == hi && t[2..][3] == lo;
    assert CodeUnit(t[2..]) == Some(c as int);
    assert t[6..] == tail;
  }

  lemma EscapeReads(c: char, tail: string)
    ensures Inside(Escape(c) + tail) == Literally(c, Inside(tail))
  {
    var t := Escape(c) + tail;
    assert t[|Escape(c)|..] == tail;
    if |Escape(c)| == 6 {
      ControlReads(c, tail);
    }
  }

  lemma Closes(rest: string)
    ensures Inside([DOUBLE] + rest) == Some(Reading([], rest))
  {
    assert ([DOUBLE] + rest)[1..] == rest;
  }

  /** Nothing is escaped that need not be, and a character that has a short escape gets it. */
  lemma EscapeIsShortest(c: char)
    ensures |Escape(c)| == 1 <==> c != '"' && c != '\\' && c as int >= 0x20
    ensures |Escape(c)| == 1 ==> Escape(c) == [c]
    ensures |Escape(c)| == 2 <==> exists e :: e != '/' && Named(e) == Some(c)
    ensures |Escape(c)| in {1, 2, 6}
  {
    if |Escape(c)| == 2 {
      assert Escape(c)[1] != '/' && Named(Escape(c)[1]) == Some(c);
    }
  }

  /** For every string, the literal reads back as that string, and ends where it was closed. */
  lemma JsonReadsBack(s: string, rest: string)
    ensures ReadString([DOUBLE] + Escaped(s) + [DOUBLE] + rest) == Some(Reading(s, rest))
  {
    forall c, tail ensures UndoesAt(Inside, Escape, c, tail) {
      EscapeReads(c, tail);
    }
    Closes(rest);
    ReadsBack(s, [DOUBLE] + rest, Inside, Escape);
    Opens(Escaped(s), rest);
  }

  lemma Opens(text: string, rest: string)
    ensures ReadString([DOUBLE] + text + [DOUBLE] + rest) == Inside(text + ([DOUBLE] + rest))
  {
    assert ([DOUBLE] + text + [DOUBLE] + rest)[1..] == text + ([DOUBLE] + rest);
  }
}
