/** Extractor paths: the lint's scanner (crates/shit-desc/src/schema.rs:406-467) and the
    extractor's own parser (crates/shit-desc/src/parse.rs:92-112, 166-236). */
module Paths {
  import opened Plan
  import opened Text

  const USIZE_LIMIT := 0x1_0000_0000_0000_0000

  predicate IsNameStart(c: char) {
    'a' <= c <= 'z' || 'A' <= c <= 'Z' || c == '_'
  }

  predicate IsNameChar(c: char) {
    IsNameStart(c) || IsDigit(c)
  }

  predicate ValidName(name: string) {
    name != [] && IsNameStart(name[0]) && forall i :: 0 <= i < |name| ==> IsNameChar(name[i])
  }

  const SMALL := {
    'a', 'b', 'c', 'd', 'e', 'f', 'g', 'h', 'i', 'j', 'k', 'l', 'm', 'n', 'o', 'p', 'q', 'r', 's', 't', 'u', 'v',
    'w', 'x', 'y', 'z'}

  const CAPITAL := {
    'A', 'B', 'C', 'D', 'E', 'F', 'G', 'H', 'I', 'J', 'K', 'L', 'M', 'N', 'O', 'P', 'Q', 'R', 'S', 'T', 'U', 'V',
    'W', 'X', 'Y', 'Z'}

  const DIGITS := {'0', '1', '2', '3', '4', '5', '6', '7', '8', '9'}

  /** A name is a letter or an underscore, then letters, digits and underscores. */
  lemma NameIs(name: string)
    ensures ValidName(name) <==>
      && name != [] && name[0] !in DIGITS
      && forall c :: c in name ==> c in SMALL || c in CAPITAL || c in DIGITS || c == '_'
  {
    forall c ensures (c in SMALL || c in CAPITAL || c == '_') == IsNameStart(c) && (c in DIGITS) == IsDigit(c) {
      NameCharIs(c);
    }
    forall c | c in name ensures exists i :: 0 <= i < |name| && name[i] == c {
    }
    assert forall i :: 0 <= i < |name| ==> name[i] in name;
    assert name != [] && IsDigit(name[0]) ==> !IsNameStart(name[0]);
  }

  lemma NameCharIs(c: char)
    ensures (c in SMALL) == ('a' <= c <= 'z')
    ensures (c in CAPITAL) == ('A' <= c <= 'Z')
    ensures (c in DIGITS) == IsDigit(c)
  {
    assert c as int as char == c;
  }

  // ------------------------------------------------------------------
  // The grammar, from the printing side
  // ------------------------------------------------------------------

  /** A path as written: dotted names and bracketed digit strings. */
  datatype Piece = Name(name: string) | Digits(digits: string)

  predicate ValidPiece(p: Piece) {
    match p
    case Name(name) => ValidName(name)
    case Digits(digits) => digits != [] && AllDigits(digits)
  }

  function ShowPiece(p: Piece): string {
    match p
    case Name(name) => ['.'] + name
    case Digits(digits) => ['['] + digits + [']']
  }

  function Show(ps: seq<Piece>): string {
    if ps == [] then [] else ShowPiece(ps[0]) + Show(ps[1..])
  }

  ghost predicate AllValid(ps: seq<Piece>) {
    forall i :: 0 <= i < |ps| ==> ValidPiece(ps[i])
  }

  /** The language of structured paths: everything that can be written with at least one valid
      piece, except the reserved path `.raw`. */
  ghost predicate Structured(s: string) {
    s != ".raw" && exists ps :: ps != [] && AllValid(ps) && Show(ps) == s
  }

  // ------------------------------------------------------------------
  // Scanning by position
  // ------------------------------------------------------------------

  /** The end of the run of name characters that starts at `j`. */
  function NameStop(s: string, j: nat): (k: nat)
    requires j <= |s|
    ensures j <= k <= |s|
    decreases |s| - j
  {
    if j == |s| || !IsNameChar(s[j]) then j else NameStop(s, j + 1)
  }

  lemma {:induction false} NameStopIs(s: string, j: nat, k: nat)
    requires j <= k <= |s|
    ensures (forall i :: j <= i < k ==> IsNameChar(s[i])) && (k < |s| ==> !IsNameChar(s[k])) <==> NameStop(s, j) == k
    decreases |s| - j
  {
    if j < |s| && IsNameChar(s[j]) && j < k {
      NameStopIs(s, j + 1, k);
    }
  }

  /** The end of the run of digits that starts at `j`. */
  function DigitStop(s: string, j: nat): (k: nat)
    requires j <= |s|
    ensures j <= k <= |s|
    decreases |s| - j
  {
    if j == |s| || !IsDigit(s[j]) then j else DigitStop(s, j + 1)
  }

  lemma {:induction false} DigitStopIs(s: string, j: nat, k: nat)
    requires j <= k <= |s|
    ensures (forall i :: j <= i < k ==> IsDigit(s[i])) && (k < |s| ==> !IsDigit(s[k])) <==> DigitStop(s, j) == k
    decreases |s| - j
  {
    if j < |s| && IsDigit(s[j]) && j < k {
      DigitStopIs(s, j + 1, k);
    }
  }

  /** The piece that starts at `i`, and the position after it. */
  function PieceAt(s: string, i: nat): (r: Option<(Piece, nat)>)
    requires i < |s|
    ensures r.Some? ==> i < r.value.1 <= |s|
  {
    if s[i] == '.' then
      if i + 1 == |s| || !IsNameStart(s[i + 1]) then None
      else
        var j := NameStop(s, i + 1);
        Some((Name(s[i + 1..j]), j))
    else if s[i] == '[' then
      var j := DigitStop(s, i + 1);
      if j == i + 1 || j == |s| || s[j] != ']' then None
      else Some((Digits(s[i + 1..j]), j + 1))
    else None
  }

  function ScanAt(s: string, i: nat): Option<seq<Piece>>
    requires i <= |s|
    decreases |s| - i
  {
    if i == |s| then Some([])
    else match PieceAt(s, i)
      case None => None
      case Some((p, j)) => After([p], ScanAt(s, j))
  }

  function After(out: seq<Piece>, rest: Option<seq<Piece>>): Option<seq<Piece>> {
    match rest case Some(ps) => Some(out + ps) case None => None
  }

  lemma AfterNothing(rest: Option<seq<Piece>>)
    ensures After([], rest) == rest
  {
    if rest.Some? {
      assert [] + rest.value == rest.value;
    }
  }

  lemma AfterAfter(out: seq<Piece>, p: Piece, rest: Option<seq<Piece>>)
    ensures After(out, After([p], rest)) == After(out + [p], rest)
  {
    if rest.Some? {
      assert out + ([p] + rest.value) == (out + [p]) + rest.value;
    }
  }

  lemma PieceAtShows(s: string, i: nat)
    requires i < |s| && PieceAt(s, i).Some?
    ensures s[i..PieceAt(s, i).value.1] == ShowPiece(PieceAt(s, i).value.0)
    ensures ValidPiece(PieceAt(s, i).value.0)
  {
    if s[i] == '.' {
      NameIsShown(s, i, NameStop(s, i + 1));
    } else {
      DigitsAreShown(s, i, DigitStop(s, i + 1));
    }
  }

  lemma NameIsShown(s: string, i: nat, j: nat)
    requires i + 1 < |s| && s[i] == '.' && IsNameStart(s[i + 1]) && j == NameStop(s, i + 1)
    ensures i + 1 < j && ValidName(s[i + 1..j]) && s[i..j] == ['.'] + s[i + 1..j]
  {
    NameStopIs(s, i + 1, j);
    assert NameStop(s, i + 1) == NameStop(s, i + 2);
    assert s[i..j] == [s[i]] + s[i + 1..j];
  }

  lemma DigitsAreShown(s: string, i: nat, j: nat)
    requires i + 1 < |s| && s[i] == '[' && j == DigitStop(s, i + 1) && i + 1 < j < |s| && s[j] == ']'
    ensures AllDigits(s[i + 1..j]) && s[i..j + 1] == ['['] + s[i + 1..j] + [']']
  {
    DigitStopIs(s, i + 1, j);
    assert s[i..j + 1] == [s[i]] + s[i + 1..j] + [s[j]];
  }

  lemma ShowCons(p: Piece, ps: seq<Piece>)
    ensures Show([p] + ps) == ShowPiece(p) + Show(ps)
  {
    assert ([p] + ps)[1..] == ps;
  }

  /** What is scanned is what was written. */
  lemma {:induction false} ScanShows(s: string, i: nat)
    requires i <= |s|
    ensures ScanAt(s, i).Some? ==> AllValid(ScanAt(s, i).value) && Show(ScanAt(s, i).value) == s[i..]
    decreases |s| - i
  {
    if i < |s| && PieceAt(s, i).Some? {
      var (p, j) := PieceAt(s, i).value;
      ScanShows(s, j);
      if ScanAt(s, j).Some? {
        PieceAtShows(s, i);
        ShowsOn(s, i, p, j, ScanAt(s, j).value);
      }
    }
  }

  lemma ShowsOn(s: string, i: nat, p: Piece, j: nat, ps: seq<Piece>)
    requires i <= j <= |s| && ValidPiece(p) && s[i..j] == ShowPiece(p) && AllValid(ps) && Show(ps) == s[j..]
    ensures AllValid([p] + ps) && Show([p] + ps) == s[i..]
  {
    ValidCons(p, ps);
    ShowCons(p, ps);
    InTwo(s, i, j);
  }

  lemma ValidCons(p: Piece, ps: seq<Piece>)
    requires ValidPiece(p) && AllValid(ps)
    ensures AllValid([p] + ps)
  {
  }

  lemma InTwo(s: string, i: nat, j: nat)
    requires i <= j <= |s|
    ensures s[i..j] + s[j..] == s[i..]
  {
  }

  /** A shown piece is found where it stands. */
  lemma PieceFound(s: string, i: nat, p: Piece, j: nat)
    requires ValidPiece(p) && i < j <= |s| && s[i..j] == ShowPiece(p)
    requires j == |s| || s[j] == '.' || s[j] == '['
    ensures PieceAt(s, i) == Some((p, j))
  {
    assert s[i] == s[i..j][0];
    if p.Name? {
      NameFound(s, i, p.name, j);
    } else {
      DigitsFound(s, i, p.digits, j);
    }
  }

  lemma NameFound(s: string, i: nat, name: string, j: nat)
    requires ValidName(name) && i < j <= |s| && s[i..j] == ['.'] + name && s[i] == '.'
    requires j == |s| || s[j] == '.' || s[j] == '['
    ensures PieceAt(s, i) == Some((Name(name), j))
  {
    assert s[i + 1..j] == s[i..j][1..] == name;
    assert forall m :: i + 1 <= m < j ==> s[m] == name[m - i - 1];
    NameStopIs(s, i + 1, j);
  }

  lemma DigitsFound(s: string, i: nat, digits: string, j: nat)
    requires digits != [] && AllDigits(digits) && i < j <= |s| && s[i..j] == ['['] + digits + [']'] && s[i] == '['
    ensures PieceAt(s, i) == Some((Digits(digits), j))
  {
    var shown := s[i..j];
    var k := j - 1;
    assert |shown| == |digits| + 2;
    assert s[k] == shown[k - i] == ']';
    assert forall m :: i + 1 <= m < k ==> s[m] == shown[m - i] == digits[m - i - 1];
    assert s[i + 1..k] == digits;
    DigitStopIs(s, i + 1, k);
  }

  lemma ShowStarts(ps: seq<Piece>)
    ensures Show(ps) != [] ==> Show(ps)[0] == '.' || Show(ps)[0] == '['
    ensures ps != [] ==> Show(ps) != []
  {
    if ps != [] {
      assert Show(ps)[0] == ShowPiece(ps[0])[0];
    }
  }

  lemma ShownAt(s: string, i: nat, shown: string, rest: string)
    requires i <= |s| && s[i..] == shown + rest
    ensures i + |shown| <= |s| && s[i..i + |shown|] == shown && s[i + |shown|..] == rest
  {
    var j := i + |shown|;
    assert |s[i..]| == |shown| + |rest|;
    assert s[i..j] == s[i..][..|shown|];
    assert s[j..] == s[i..][|shown|..];
  }

  lemma ScanStep(s: string, i: nat, ps: seq<Piece>, j: nat)
    requires ps != [] && i < j <= |s| && PieceAt(s, i) == Some((ps[0], j)) && ScanAt(s, j) == Some(ps[1..])
    ensures ScanAt(s, i) == Some(ps)
  {
    assert [ps[0]] + ps[1..] == ps;
  }

  /** The first piece of a shown path is found, and the rest stands after it. */
  lemma FirstFound(s: string, i: nat, ps: seq<Piece>) returns (j: nat)
    requires ps != [] && AllValid(ps) && i <= |s| && s[i..] == Show(ps)
    ensures i < j <= |s| && PieceAt(s, i) == Some((ps[0], j)) && s[j..] == Show(ps[1..]) && AllValid(ps[1..])
  {
    j := i + |ShowPiece(ps[0])|;
    PieceStands(s, i, ps[0], ps[1..]);
  }

  lemma PieceStands(s: string, i: nat, p: Piece, rest: seq<Piece>)
    requires ValidPiece(p) && i <= |s| && s[i..] == ShowPiece(p) + Show(rest)
    ensures var j := i + |ShowPiece(p)|; i < j <= |s| && PieceAt(s, i) == Some((p, j)) && s[j..] == Show(rest)
  {
    ShowStarts(rest);
    TextStands(s, i, p, ShowPiece(p), Show(rest));
  }

  lemma TextStands(s: string, i: nat, p: Piece, shown: string, rest: string)
    requires ValidPiece(p) && shown == ShowPiece(p) && i <= |s| && s[i..] == shown + rest
    requires rest != [] ==> rest[0] == '.' || rest[0] == '['
    ensures var j := i + |shown|; i < j <= |s| && PieceAt(s, i) == Some((p, j)) && s[j..] == rest
  {
    ShownAt(s, i, shown, rest);
    StopsThere(s, i + |shown|, rest);
    PieceFound(s, i, p, i + |shown|);
  }

  lemma StopsThere(s: string, j: nat, rest: string)
    requires j <= |s| && s[j..] == rest && (rest != [] ==> rest[0] == '.' || rest[0] == '[')
    ensures j == |s| || s[j] == '.' || s[j] == '['
  {
    assert j < |s| ==> s[j] == rest[0];
  }

  /** Scanning inverts writing. */
  lemma {:induction false} ScanOfShown(s: string, i: nat, ps: seq<Piece>)
    requires AllValid(ps) && i <= |s| && s[i..] == Show(ps)
    ensures ScanAt(s, i) == Some(ps)
    decreases |ps|
  {
    if ps != [] {
      var j := FirstFound(s, i, ps);
      ScanOfShown(s, j, ps[1..]);
      ScanStep(s, i, ps, j);
    }
  }

  lemma ScanDecidesStructured(s: string)
    ensures s != [] && s != ".raw" && ScanAt(s, 0).Some? <==> Structured(s)
  {
    assert s[0..] == s;
    if s != [] && s != ".raw" && ScanAt(s, 0).Some? {
      ScanShows(s, 0);
      assert ScanAt(s, 0).value != [];
    }
    if Structured(s) {
      var ps :| ps != [] && AllValid(ps) && Show(ps) == s;
      ScanOfShown(s, 0, ps);
      ShowStarts(ps);
    }
  }

  // ------------------------------------------------------------------
  // The lint's scanner
  // ------------------------------------------------------------------

  method NameEnd(s: string, start: nat) returns (j: nat)
    requires start <= |s|
    ensures j == NameStop(s, start)
  {
    j := start;
    while j < |s| && IsNameChar(s[j])
      invariant start <= j <= |s| && NameStop(s, start) == NameStop(s, j)
    {
      j := j + 1;
    }
  }

  method DigitsEnd(s: string, start: nat) returns (j: nat)
    requires start <= |s|
    ensures j == DigitStop(s, start)
  {
    j := start;
    while j < |s| && IsDigit(s[j])
      invariant start <= j <= |s| && DigitStop(s, start) == DigitStop(s, j)
    {
      j := j + 1;
    }
  }

  method IsStructuredPath(s: string) returns (ok: bool)
    ensures ok <==> Structured(s)
  {
    ScanDecidesStructured(s);
    if s == [] {
      return false;
    }
    if s == ".raw" {
      return false;
    }
    ok := LintScan(s);
  }

  method LintScan(s: string) returns (ok: bool)
    requires s != []
    ensures ok <==> ScanAt(s, 0).Some?
  {
    if s[0] != '.' && s[0] != '[' {
      return false;
    }
    var i := 0;
    while i < |s|
      invariant 0 <= i <= |s|
      invariant ScanAt(s, 0).Some? <==> ScanAt(s, i).Some?
    {
      if s[i] == '.' {
        if i + 1 >= |s| {
          return false;
        }
        if !IsNameStart(s[i + 1]) {
          return false;
        }
        i := NameEnd(s, i + 1);
      } else if s[i] == '[' {
        var j := DigitsEnd(s, i + 1);
        if j == i + 1 || j >= |s| || s[j] != ']' {
          return false;
        }
        i := j + 1;
      } else {
        return false;
      }
    }
    ok := true;
  }

  // ------------------------------------------------------------------
  // The extractor's parser
  // ------------------------------------------------------------------

  datatype Segment = Field(name: string) | Index(index: nat)

  /** A piece as the extractor reads it; a number beyond `usize` does not parse. */
  function SegmentOf(p: Piece): Option<Segment>
    requires ValidPiece(p)
  {
    match p
    case Name(name) => Some(Field(name))
    case Digits(digits) => if Value(digits) < USIZE_LIMIT then Some(Index(Value(digits))) else None
  }

  ghost predicate InRange(ps: seq<Piece>) {
    AllValid(ps) && forall i :: 0 <= i < |ps| ==> SegmentOf(ps[i]).Some?
  }

  ghost function Segments(ps: seq<Piece>): seq<Segment>
    requires InRange(ps)
  {
    seq(|ps|, i requires 0 <= i < |ps| => SegmentOf(ps[i]).value)
  }

  /** The segments of a path, unless it is malformed or an index is out of range. */
  ghost function Parse(s: string): Option<seq<Segment>> {
    if s == [] || s == ".raw" || ScanAt(s, 0).None? || !InRange(ScanAt(s, 0).value) then None
    else Some(Segments(ScanAt(s, 0).value))
  }

  lemma SegmentsAppend(ps: seq<Piece>, p: Piece)
    requires InRange(ps) && ValidPiece(p) && SegmentOf(p).Some?
    ensures InRange(ps + [p]) && Segments(ps + [p]) == Segments(ps) + [SegmentOf(p).value]
  {
    assert forall i :: 0 <= i < |ps + [p]| ==> (ps + [p])[i] == if i < |ps| then ps[i] else p;
  }

  lemma OutOfRange(ps: seq<Piece>, p: Piece, rest: Option<seq<Piece>>)
    requires ValidPiece(p) && SegmentOf(p).None?
    ensures After(ps, After([p], rest)).Some? ==> !InRange(After(ps, After([p], rest)).value)
  {
    if rest.Some? {
      assert (ps + ([p] + rest.value))[|ps|] == p;
    }
  }

  method ParseStructuredPath(s: string) returns (r: Option<seq<Segment>>)
    ensures r == Parse(s)
  {
    if s == [] {
      return None;
    }
    if s == ".raw" {
      return None;
    }
    r := ParseScan(s);
  }

  method ParseScan(s: string) returns (r: Option<seq<Segment>>)
    requires s != [] && s != ".raw"
    ensures r == Parse(s)
  {
    var segments: seq<Segment> := [];
    ghost var ps: seq<Piece> := [];
    var i := 0;
    AfterNothing(ScanAt(s, 0));
    while i < |s|
      invariant 0 <= i <= |s|
      invariant ScanAt(s, 0) == After(ps, ScanAt(s, i))
      invariant InRange(ps) && segments == Segments(ps)
    {
      var seg, j := ParsePiece(s, i);
      if PieceAt(s, i).None? {
        return None;
      }
      ghost var p := PieceAt(s, i).value.0;
      PieceAtShows(s, i);
      if seg.None? {
        OutOfRange(ps, p, ScanAt(s, j));
        return None;
      }
      AfterAfter(ps, p, ScanAt(s, j));
      SegmentsAppend(ps, p);
      segments, ps, i := segments + [seg.value], ps + [p], j;
    }
    assert ps + [] == ps;
    r := Some(segments);
  }

  /** One turn of the parser's loop: the segment that starts at `i` and the position after it. */
  method ParsePiece(s: string, i: nat) returns (seg: Option<Segment>, j: nat)
    requires i < |s|
    ensures PieceAt(s, i).None? ==> seg.None?
    ensures PieceAt(s, i).Some? ==>
      ValidPiece(PieceAt(s, i).value.0) && j == PieceAt(s, i).value.1 && seg == SegmentOf(PieceAt(s, i).value.0)
  {
    if PieceAt(s, i).Some? {
      PieceAtShows(s, i);
    }
    seg, j := None, i;
    if s[i] == '.' {
      if i + 1 >= |s| {
        return;
      }
      if !IsNameStart(s[i + 1]) {
        return;
      }
      j := NameEnd(s, i + 1);
      seg := Some(Field(s[i + 1..j]));
    } else if s[i] == '[' {
      j := DigitsEnd(s, i + 1);
      if j == i + 1 || j >= |s| || s[j] != ']' {
        return;
      }
      var digits := s[i + 1..j];
      seg := if Value(digits) < USIZE_LIMIT then Some(Index(Value(digits))) else None;
      j := j + 1;
    }
  }

  // ------------------------------------------------------------------
  // The two scanners agree, and parsing inverts printing
  // ------------------------------------------------------------------

  /** The extractor parses exactly the paths the lint accepts, except those with an index beyond
      `usize`. */
  lemma ScannersAgree(s: string)
    ensures Structured(s) ==> ScanAt(s, 0).Some? && Show(ScanAt(s, 0).value) == s && AllValid(ScanAt(s, 0).value)
    ensures Parse(s).Some? <==> Structured(s) && InRange(ScanAt(s, 0).value)
  {
    ScanDecidesStructured(s);
    ScanShows(s, 0);
    assert s[0..] == s;
  }

  predicate ValidSegment(seg: Segment) {
    match seg
    case Field(name) => ValidName(name)
    case Index(i) => i < 0x1_0000_0000_0000_0000
  }

  function PieceOf(seg: Segment): Piece {
    match seg
    case Field(name) => Name(name)
    case Index(i) => Digits(Decimal(i))
  }

  function PiecesOf(segments: seq<Segment>): seq<Piece> {
    seq(|segments|, i requires 0 <= i < |segments| => PieceOf(segments[i]))
  }

  /** Parsing inverts printing for every non-empty list of valid segments but the lone field `raw`. */
  lemma ParseInvertsPrint(segments: seq<Segment>)
    requires segments != [] && forall i :: 0 <= i < |segments| ==> ValidSegment(segments[i])
    ensures Parse(Show(PiecesOf(segments))) == if segments == [Field("raw")] then None else Some(segments)
  {
    var ps := PiecesOf(segments);
    var s := Show(ps);
    forall i | 0 <= i < |ps| ensures ValidPiece(ps[i]) && SegmentOf(ps[i]) == Some(segments[i]) {
      if segments[i].Index? {
        DecimalRoundTrip(segments[i].index);
      }
    }
    assert s[0..] == s;
    ScanOfShown(s, 0, ps);
    ShowStarts(ps);
    assert Segments(ps) == segments;
    RawIsOnePiece(s, ps);
    assert ps == [Name("raw")] ==> |segments| == 1 && segments[0] == Field("raw");
  }

  lemma RawIsOnePiece(s: string, ps: seq<Piece>)
    requires AllValid(ps) && s == Show(ps) && ScanAt(s, 0) == Some(ps)
    ensures s == ".raw" <==> ps == [Name("raw")]
  {
    var raw := [Name("raw")];
    assert raw[1..] == [];
    assert Show(raw) == ['.'] + "raw" + [] == ".raw";
    assert ".raw"[0..] == ".raw";
    ScanOfShown(".raw", 0, raw);
  }

  // ------------------------------------------------------------------
  // Paths into lines of text
  // ------------------------------------------------------------------

  const LINES := ".lines"

  /** What stands between the brackets of `[..]` or `.lines[..]`. */
  function Bracketed(s: string): Option<string> {
    Inside(if LINES <= s then s[|LINES|..] else s)
  }

  function Inside(body: string): Option<string> {
    if |body| >= 2 && body[0] == '[' && body[|body| - 1] == ']' then Some(body[1..|body| - 1]) else None
  }

  /** Accepted by the lint. */
  predicate IsLinesPath(s: string) {
    Bracketed(s).Some? && AllDigits(Bracketed(s).value) && Bracketed(s).value != []
  }

  /** `str::parse::<usize>`, which admits one leading plus sign. */
  function ParseUsize(t: string): Option<nat> {
    var digits := if t != [] && t[0] == '+' then t[1..] else t;
    if digits != [] && AllDigits(digits) && Value(digits) < USIZE_LIMIT then Some(Value(digits)) else None
  }

  function ParseLinesPath(s: string): Option<nat> {
    match Bracketed(s)
    case None => None
    case Some(inside) => if inside == [] then None else ParseUsize(inside)
  }

  /** The two ways to write a path to a line. */
  function LinePath(prefixed: bool, inside: string): string {
    (if prefixed then ".lines" else "") + ['['] + inside + [']']
  }

  lemma BracketedInverts(prefixed: bool, inside: string)
    ensures Bracketed(LinePath(prefixed, inside)) == Some(inside)
  {
    var s := LinePath(prefixed, inside);
    var body := ['['] + inside + [']'];
    assert body[1..|body| - 1] == inside;
    if prefixed {
      assert s == LINES + body && s[|LINES|..] == body;
    } else {
      assert s == body && LINES[0] == '.';
    }
  }

  lemma BracketedIsLinePath(s: string) returns (prefixed: bool)
    requires Bracketed(s).Some?
    ensures s == LinePath(prefixed, Bracketed(s).value)
  {
    prefixed := LINES <= s;
    if prefixed {
      InsideIs(s[|LINES|..]);
      Joined(LINES, Bracketed(s).value);
      assert s == LINES + s[|LINES|..];
    } else {
      InsideIs(s);
      Joined([], Bracketed(s).value);
    }
  }

  lemma InsideIs(body: string)
    requires Inside(body).Some?
    ensures body == ['['] + Inside(body).value + [']']
  {
  }

  lemma Joined(prefix: string, inside: string)
    ensures prefix + ['['] + inside + [']'] == prefix + (['['] + inside + [']'])
  {
  }

  /** `s` is a line path written with these digits, with or without a leading plus sign. */
  ghost predicate Spells(s: string, prefixed: bool, signed: bool, digits: string) {
    s == LinePath(prefixed, (if signed then ['+'] else []) + digits) && digits != [] && AllDigits(digits)
  }

  /** What either reader makes of a spelled line path. */
  lemma SpelledIsRead(s: string, prefixed: bool, signed: bool, digits: string)
    requires Spells(s, prefixed, signed, digits)
    ensures IsLinesPath(s) <==> !signed
    ensures ParseLinesPath(s) == if Value(digits) < USIZE_LIMIT then Some(Value(digits)) else None
  {
    var inside := (if signed then ['+'] else []) + digits;
    BracketedInverts(prefixed, inside);
    if signed {
      assert inside[0] == '+' && inside[1..] == digits && !IsDigit('+');
    } else {
      assert inside == digits && IsDigit(digits[0]);
    }
  }

  /** Whatever either reader accepts is spelled so. */
  lemma ReadIsSpelled(s: string) returns (prefixed: bool, signed: bool, digits: string)
    requires IsLinesPath(s) || ParseLinesPath(s).Some?
    ensures Spells(s, prefixed, signed, digits)
  {
    var inside := Bracketed(s).value;
    prefixed := BracketedIsLinePath(s);
    signed := inside[0] == '+';
    digits := if signed then inside[1..] else inside;
    assert inside == (if signed then ['+'] else []) + digits;
  }

  /** The lint accepts exactly the unsigned spellings. Both readers accept a path exactly when it is an
      unsigned spelling in range; only the lint does when it is one out of range; only the extractor
      does when it is a signed spelling in range. */
  lemma LinesScannersAgree(s: string)
    ensures IsLinesPath(s) <==> exists prefixed, digits :: Spells(s, prefixed, false, digits)
    ensures IsLinesPath(s) && ParseLinesPath(s).Some? <==>
      exists prefixed, digits :: Spells(s, prefixed, false, digits) && Value(digits) < USIZE_LIMIT
    ensures IsLinesPath(s) && ParseLinesPath(s).None? <==>
      exists prefixed, digits :: Spells(s, prefixed, false, digits) && Value(digits) >= USIZE_LIMIT
    ensures !IsLinesPath(s) && ParseLinesPath(s).Some? <==>
      exists prefixed, digits :: Spells(s, prefixed, true, digits) && Value(digits) < USIZE_LIMIT
  {
    forall prefixed, signed, digits | Spells(s, prefixed, signed, digits)
      ensures IsLinesPath(s) <==> !signed
      ensures ParseLinesPath(s).Some? <==> Value(digits) < USIZE_LIMIT
    {
      SpelledIsRead(s, prefixed, signed, digits);
    }
    if IsLinesPath(s) || ParseLinesPath(s).Some? {
      var prefixed, signed, digits := ReadIsSpelled(s);
    }
  }

  /** The two readers agree on a path exactly unless it is an unsigned spelling beyond `usize` or a signed
      one within it. */
  lemma LinesReadersAgreeIff(s: string)
    ensures (IsLinesPath(s) <==> ParseLinesPath(s).Some?) <==>
      !exists prefixed, signed, digits ::
        Spells(s, prefixed, signed, digits) && (signed <==> Value(digits) < USIZE_LIMIT)
  {
    forall prefixed, signed, digits | Spells(s, prefixed, signed, digits)
      ensures IsLinesPath(s) <==> !signed
      ensures ParseLinesPath(s).Some? <==> Value(digits) < USIZE_LIMIT
    {
      SpelledIsRead(s, prefixed, signed, digits);
    }
    if IsLinesPath(s) || ParseLinesPath(s).Some? {
      var prefixed, signed, digits := ReadIsSpelled(s);
    }
  }

  /** A written line index is read back. */
  lemma LineIndexReadBack(prefixed: bool, n: nat)
    requires n < 0x1_0000_0000_0000_0000
    ensures IsLinesPath(LinePath(prefixed, Decimal(n))) && ParseLinesPath(LinePath(prefixed, Decimal(n))) == Some(n)
  {
    BracketedInverts(prefixed, Decimal(n));
    DecimalRoundTrip(n);
  }

  /** The extractor accepts a path the lint rejects. */
  lemma SignedIndexParsesUnlinted()
    ensures ParseLinesPath("[+5]") == Some(5) && !IsLinesPath("[+5]")
  {
    BracketedInverts(false, "+5");
    assert LinePath(false, "+5") == "[+5]";
    assert "+5"[1..] == "5" == Decimal(5);
    DecimalRoundTrip(5);
    assert !IsDigit("+5"[0]);
  }
}
