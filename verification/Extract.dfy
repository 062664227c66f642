/** Extracting captured values from a snapshot command's output
    (crates/shit-desc/src/parse.rs:35-164; lint rule 8, crates/shit-desc/src/schema.rs:379-404). */
module Extract {
  import opened Plan
  import opened Text
  import opened Paths

  datatype ParseKind = Raw | Lines | Json | Toml

  /** A parsed JSON or TOML document. A scalar carries its printed form; `Blank` stands for the
      leaves that are not scalars. */
  datatype Document =
    | Scalar(shown: string)
    | Blank
    | List(items: seq<Document>)
    | Table(fields: map<string, Document>)

  datatype ExtractError =
    | Malformed
    | NotFound(path: string)
    | NonScalar(path: string)
    | BadPath(path: string)
    | RawWithStructured

  datatype Extracted<+T> = Ok(value: T) | Err(error: ExtractError)

  // ------------------------------------------------------------------
  // Raw output
  // ------------------------------------------------------------------

  function TrimEnd(s: string): string {
    if s != [] && s[|s| - 1] == '\n' then TrimEnd(s[..|s| - 1]) else s
  }

  /** Everything but the closing newlines, however many there are. */
  lemma {:induction false} TrimEndIs(s: string, body: string, newlines: string)
    requires s == body + newlines && (forall i :: 0 <= i < |newlines| ==> newlines[i] == '\n')
    requires body == [] || body[|body| - 1] != '\n'
    ensures TrimEnd(s) == body
    decreases |newlines|
  {
    if newlines == [] {
      assert s == body;
    } else {
      var m := |newlines| - 1;
      assert s[|s| - 1] == newlines[m];
      assert s[..|s| - 1] == body + newlines[..m];
      TrimEndIs(s[..|s| - 1], body, newlines[..m]);
    }
  }

  // ------------------------------------------------------------------
  // Lines
  // ------------------------------------------------------------------

  /** The lines of an output; the empty piece after a closing newline is not one. */
  function LinesOf(s: string): seq<string> {
    var lines := Split(s, '\n');
    if lines[|lines| - 1] == "" then lines[..|lines| - 1] else lines
  }

  /** Lines are read back as printed, whether or not the last one is terminated. */
  lemma LinesReadBack(lines: seq<string>, last: string)
    requires Free(lines, '\n') && '\n' !in last
    ensures LinesOf(Terminated(lines, '\n') + last) == if last == "" then lines else lines + [last]
  {
    SplitTerminated(lines, last, '\n');
    assert (lines + [last])[..|lines|] == lines;
  }

  // ------------------------------------------------------------------
  // Structured output
  // ------------------------------------------------------------------

  function Child(d: Document, seg: Segment): Option<Document> {
    match (d, seg)
    case (Table(fields), Field(name)) => if name in fields then Some(fields[name]) else None
    case (List(items), Index(i)) => if i < |items| then Some(items[i]) else None
    case _ => None
  }

  /** The document below `d` at the end of a path. */
  function Select(d: Document, segments: seq<Segment>): Option<Document> {
    if segments == [] then Some(d)
    else match Child(d, segments[0])
      case None => None
      case Some(c) => Select(c, segments[1..])
  }

  /** `leaf` stands in `d` where the path leads: each field among any others, each index after as many items. */
  ghost predicate Planted(d: Document, segments: seq<Segment>, leaf: Document)
    decreases |segments|
  {
    if segments == [] then d == leaf
    else match segments[0]
      case Field(name) =>
        exists fields, c :: FieldAmong(d, fields, name, c) && Planted(c, segments[1..], leaf)
      case Index(i) =>
        exists front, c, back :: ItemBetween(d, front, c, back) && |front| == i && Planted(c, segments[1..], leaf)
  }

  ghost predicate FieldAmong(d: Document, fields: map<string, Document>, name: string, c: Document) {
    d == Table(fields[name := c])
  }

  ghost predicate ItemBetween(d: Document, front: seq<Document>, c: Document, back: seq<Document>) {
    d == List(front + [c] + back)
  }

  /** The cursor finds exactly what stands where the path leads. */
  lemma {:induction false} SelectIff(d: Document, segments: seq<Segment>, leaf: Document)
    ensures Select(d, segments) == Some(leaf) <==> Planted(d, segments, leaf)
    decreases |segments|
  {
    if segments != [] {
      var rest := segments[1..];
      if Select(d, segments) == Some(leaf) {
        var c := Child(d, segments[0]).value;
        SelectIff(c, rest, leaf);
        if segments[0].Field? {
          assert FieldAmong(d, d.fields, segments[0].name, c);
        } else {
          var i := segments[0].index;
          assert d.items == d.items[..i] + [c] + d.items[i + 1..];
          assert ItemBetween(d, d.items[..i], c, d.items[i + 1..]);
        }
      }
      if Planted(d, segments, leaf) {
        match segments[0]
        case Field(name) =>
          var fields, c :| FieldAmong(d, fields, name, c) && Planted(c, rest, leaf);
          SelectIff(c, rest, leaf);
        case Index(i) =>
          var front, c, back :| ItemBetween(d, front, c, back) && |front| == i && Planted(c, rest, leaf);
          SelectIff(c, rest, leaf);
      }
    }
  }

  ghost function WalkTo(root: Document, path: string): Extracted<string> {
    if path == ".raw" then Err(RawWithStructured)
    else match Parse(path)
      case None => Err(BadPath(path))
      case Some(segments) => ScalarAt(Select(root, segments), path)
  }

  function ScalarAt(found: Option<Document>, path: string): Extracted<string> {
    match found
    case None => Err(NotFound(path))
    case Some(Scalar(shown)) => Ok(shown)
    case Some(_) => Err(NonScalar(path))
  }

  /** What a walk reports, said of what stands where the path leads: a scalar is read, any other leaf is not a
      scalar, and where nothing stands nothing is found. */
  lemma WalkTells(root: Document, path: string, segments: seq<Segment>)
    requires path != ".raw" && Parse(path) == Some(segments)
    ensures forall v :: WalkTo(root, path) == Ok(v) <==> Planted(root, segments, Scalar(v))
    ensures WalkTo(root, path) == Err(NotFound(path)) <==> forall d :: !Planted(root, segments, d)
    ensures WalkTo(root, path) == Err(NonScalar(path)) <==> exists d :: Planted(root, segments, d) && !d.Scalar?
  {
    forall d ensures Select(root, segments) == Some(d) <==> Planted(root, segments, d) {
      SelectIff(root, segments, d);
    }
    var found := Select(root, segments);
    assert WalkTo(root, path) == ScalarAt(found, path);
    forall v ensures WalkTo(root, path) == Ok(v) <==> Planted(root, segments, Scalar(v)) {
      SelectIff(root, segments, Scalar(v));
    }
    assert found.Some? ==> Planted(root, segments, found.value);
  }

  method Walk(root: Document, path: string) returns (r: Extracted<string>)
    ensures r == WalkTo(root, path)
  {
    if path == ".raw" {
      return Err(RawWithStructured);
    }
    var parsed := ParseStructuredPath(path);
    if parsed.None? {
      return Err(BadPath(path));
    }
    r := Descend(root, parsed.value, path);
  }

  method Descend(root: Document, segments: seq<Segment>, path: string) returns (r: Extracted<string>)
    ensures r == ScalarAt(Select(root, segments), path)
  {
    var cur, i := root, 0;
    assert segments[0..] == segments;
    while i < |segments|
      invariant i <= |segments| && Select(root, segments) == Select(cur, segments[i..])
    {
      assert segments[i..][1..] == segments[i + 1..];
      var next := Child(cur, segments[i]);
      if next.None? {
        return Err(NotFound(path));
      }
      cur := next.value;
      i := i + 1;
    }
    r := ScalarAt(Some(cur), path);
  }

  // ------------------------------------------------------------------
  // All extractors of a snapshot
  // ------------------------------------------------------------------

  /** What a command printed: nothing when it is not UTF-8, and the document when it parses. */
  datatype Output = Output(text: Option<string>, document: Option<Document>)

  predicate Structural(kind: ParseKind) {
    kind.Json? || kind.Toml?
  }

  /** Why no extractor is tried at all. */
  function Unusable(kind: ParseKind, output: Output): Option<ExtractError> {
    if output.text.None? then Some(BadPath(""))
    else if Structural(kind) && output.document.None? then Some(Malformed)
    else None
  }

  /** An output is usable if it is text and, for the two structured kinds, a document. */
  lemma UsableIff(kind: ParseKind, output: Output)
    ensures Unusable(kind, output).None? <==>
      output.text.Some? && (kind == Raw || kind == Lines || output.document.Some?)
    ensures Unusable(kind, output) == Some(Malformed) <==>
      output.text.Some? && (kind == Json || kind == Toml) && output.document.None?
  {
  }

  ghost function ExtractOne(kind: ParseKind, output: Output, path: string): Extracted<string>
    requires Unusable(kind, output).None?
  {
    match kind
    case Raw => if path == ".raw" then Ok(TrimEnd(output.text.value)) else Err(BadPath(path))
    case Lines => LineAt(LinesOf(output.text.value), path)
    case _ => WalkTo(output.document.value, path)
  }

  function LineAt(lines: seq<string>, path: string): Extracted<string> {
    match ParseLinesPath(path)
    case None => Err(BadPath(path))
    case Some(n) => if n < |lines| then Ok(lines[n]) else Err(NotFound(path))
  }

  /** The line after as many others as the written index says, if there is one. */
  lemma LineTells(front: seq<string>, line: string, back: seq<string>, prefixed: bool, n: nat)
    requires n < 0x1_0000_0000_0000_0000
    ensures var path := LinePath(prefixed, Decimal(n));
      && (|front| == n ==> LineAt(front + [line] + back, path) == Ok(line))
      && (|front| <= n ==> LineAt(front, path) == Err(NotFound(path)))
  {
    LineIndexReadBack(prefixed, n);
  }

  /** `state` is what a successful extraction captures. */
  ghost predicate Captures(kind: ParseKind, output: Output, extracts: map<string, string>, state: map<string, string>) {
    && Unusable(kind, output).None?
    && state.Keys == extracts.Keys
    && forall k :: k in extracts ==> ExtractOne(kind, output, extracts[k]) == Ok(state[k])
  }

  /** `e` is the error of the first extractor, in key order, that fails. */
  ghost predicate FailsWith(kind: ParseKind, output: Output, extracts: map<string, string>, e: ExtractError)
    requires Unusable(kind, output).None?
  {
    exists k :: k in extracts && ExtractOne(kind, output, extracts[k]) == Err(e)
      && forall j :: j in extracts && Less(j, k) ==> ExtractOne(kind, output, extracts[j]).Ok?
  }

  method ExtractPath(kind: ParseKind, output: Output, path: string) returns (r: Extracted<string>)
    requires Unusable(kind, output).None?
    ensures r == ExtractOne(kind, output, path)
  {
    match kind {
      case Raw =>
        if path != ".raw" {
          return Err(BadPath(path));
        }
        r := Ok(TrimEnd(output.text.value));
      case Lines =>
        r := LineAt(LinesOf(output.text.value), path);
      case _ =>
        r := Walk(output.document.value, path);
    }
  }

  method ExtractAll(kind: ParseKind, output: Output, extracts: map<string, string>)
    returns (r: Extracted<map<string, string>>)
    ensures Unusable(kind, output).Some? ==> r == Err(Unusable(kind, output).value)
    ensures r.Ok? ==> Captures(kind, output, extracts, r.value)
    ensures Unusable(kind, output).None? && r.Err? ==> FailsWith(kind, output, extracts, r.error)
  {
    if Unusable(kind, output).Some? {
      return Err(Unusable(kind, output).value);
    }
    var out: map<string, string> := map[];
    var left := extracts.Keys;
    while left != {}
      invariant left <= extracts.Keys && out.Keys == extracts.Keys - left
      invariant forall k :: k in out ==> ExtractOne(kind, output, extracts[k]) == Ok(out[k])
      invariant forall j, k :: j in out && k in left ==> Less(j, k)
    {
      var key := NextKey(left);
      var one := ExtractPath(kind, output, extracts[key]);
      if one.Err? {
        forall j | j in extracts && Less(j, key) ensures ExtractOne(kind, output, extracts[j]).Ok? {
          NotEarlier(j, key, left);
        }
        return Err(one.error);
      }
      out := out[key := one.value];
      left := left - {key};
    }
    r := Ok(out);
  }

  lemma NotEarlier(j: string, key: string, left: set<string>)
    requires left != {} && key == Least(left) && Less(j, key)
    ensures j !in left
  {
    LessIrreflexive(key);
    if j in left && j != key {
      LessTransitive(key, j, key);
    }
  }

  // ------------------------------------------------------------------
  // The lint's rule on extractor paths
  // ------------------------------------------------------------------

  ghost predicate PathAccepted(kind: ParseKind, path: string) {
    match kind
    case Raw => path == ".raw"
    case Lines => IsLinesPath(path)
    case _ => Structured(path)
  }

  /** Every index in an accepted path fits `usize`. */
  ghost predicate IndicesFit(kind: ParseKind, path: string)
    requires PathAccepted(kind, path)
  {
    match kind
    case Raw => true
    case Lines => Value(Bracketed(path).value) < USIZE_LIMIT
    case _ => ScanAt(path, 0).Some? && InRange(ScanAt(path, 0).value)
  }

  ghost predicate PathRefused(r: Extracted<string>) {
    r.Err? && (r.error.BadPath? || r.error.RawWithStructured?)
  }

  lemma LineUnderstood(lines: seq<string>, path: string)
    requires IsLinesPath(path)
    ensures PathRefused(LineAt(lines, path)) <==> Value(Bracketed(path).value) >= USIZE_LIMIT
  {
    var prefixed, signed, digits := ReadIsSpelled(path);
    SpelledIsRead(path, prefixed, signed, digits);
    BracketedInverts(prefixed, [] + digits);
    assert [] + digits == digits;
  }

  lemma WalkUnderstood(root: Document, path: string)
    requires Structured(path)
    ensures ScanAt(path, 0).Some? && (PathRefused(WalkTo(root, path)) <==> !InRange(ScanAt(path, 0).value))
  {
    ScannersAgree(path);
  }

  /** A path the lint accepts is refused as malformed only for an index beyond `usize`. */
  lemma AcceptedPathIsUnderstood(kind: ParseKind, output: Output, path: string)
    requires Unusable(kind, output).None? && PathAccepted(kind, path)
    ensures PathRefused(ExtractOne(kind, output, path)) <==> !IndicesFit(kind, path)
  {
    match kind {
      case Raw =>
      case Lines => LineUnderstood(LinesOf(output.text.value), path);
      case _ => WalkUnderstood(output.document.value, path);
    }
  }

  method CheckExtractorPaths(kind: ParseKind, extracts: map<string, string>) returns (ok: bool)
    ensures ok <==> forall k :: k in extracts ==> PathAccepted(kind, extracts[k])
  {
    var left := extracts.Keys;
    while left != {}
      invariant left <= extracts.Keys
      invariant forall k :: k in extracts && k !in left ==> PathAccepted(kind, extracts[k])
    {
      var key := NextKey(left);
      var path := extracts[key];
      match kind {
        case Raw =>
          if path != ".raw" {
            return false;
          }
        case Lines =>
          if !IsLinesPath(path) {
            return false;
          }
        case _ =>
          var structured := IsStructuredPath(path);
          if !structured {
            return false;
          }
      }
      left := left - {key};
    }
    ok := true;
  }
}
