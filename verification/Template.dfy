/** `{{var}}` templates: the lint's variable scan (crates/shit-desc/src/schema.rs:471-487) and the
    interpolator (crates/shit-desc/src/interpolate.rs:25-61). */
module Template {
  import opened Plan
  import opened Paths

  type Bindings = map<string, string>

  // ------------------------------------------------------------------
  // Finding a doubled brace
  // ------------------------------------------------------------------

  /** `k` is where `c` first stands twice in a row at or after `i`, or the length when it does not. */
  ghost predicate IsFirst(s: string, c: char, i: nat, k: nat) {
    && i <= k <= |s|
    && (k < |s| ==> k + 1 < |s| && s[k] == c && s[k + 1] == c)
    && forall m, n :: i <= m < k && m < n < |s| && n == m + 1 && s[m] == c ==> s[n] != c
  }

  lemma {:induction false} FirstExists(s: string, c: char, i: nat)
    requires i <= |s|
    ensures exists k :: IsFirst(s, c, i, k)
    decreases |s| - i
  {
    if i + 1 >= |s| {
      assert IsFirst(s, c, i, |s|);
    } else if s[i] == c && s[i + 1] == c {
      assert IsFirst(s, c, i, i);
    } else {
      FirstExists(s, c, i + 1);
      var k :| IsFirst(s, c, i + 1, k);
      assert IsFirst(s, c, i, k);
    }
  }

  ghost function Doubled(s: string, c: char, i: nat): (k: nat)
    requires i <= |s|
    ensures IsFirst(s, c, i, k)
  {
    FirstExists(s, c, i);
    var k :| IsFirst(s, c, i, k);
    k
  }

  lemma DoubledIs(s: string, c: char, i: nat, k: nat)
    requires IsFirst(s, c, i, k)
    ensures Doubled(s, c, i) == k
  {
  }

  // ------------------------------------------------------------------
  // The shape of a template
  // ------------------------------------------------------------------

  /** A template taken apart: literal text and variable references in turn, ending in plain text or
      in text that opens a reference and never closes it. */
  datatype Shape =
    | Plain(text: string)
    | Unclosed(text: string)
    | Hole(text: string, name: string, rest: Shape)

  ghost function ShapeAt(s: string, i: nat): Shape
    requires i <= |s|
    decreases |s| - i
  {
    var open := Doubled(s, '{', i);
    if open == |s| then Plain(s[i..])
    else
      var close := Doubled(s, '}', open + 2);
      if close == |s| then Unclosed(s[i..])
      else Hole(s[i..open], s[open + 2..close], ShapeAt(s, close + 2))
  }

  ghost function ShapeOf(s: string): Shape {
    ShapeAt(s, 0)
  }

  predicate Closed(sh: Shape) {
    match sh
    case Plain(_) => true
    case Unclosed(_) => false
    case Hole(_, _, rest) => Closed(rest)
  }

  // ------------------------------------------------------------------
  // The grammar, from the printing side
  // ------------------------------------------------------------------

  function Written(sh: Shape): string {
    if sh.Hole? then WrittenHole(sh.text, sh.name) + Written(sh.rest) else sh.text
  }

  function WrittenHole(text: string, name: string): string {
    text + "{{" + name + "}}"
  }

  /** A template as its author means it: nothing but the references opens or closes one. */
  ghost predicate Proper(sh: Shape) {
    match sh
    case Plain(text) => IsFirst(text, '{', 0, |text|)
    case Unclosed(_) => false
    case Hole(text, name, rest) => Leads(text, '{') && Leads(name, '}') && Proper(rest)
  }

  /** Text after which a doubled `c` is seen where it stands, and no sooner. */
  ghost predicate Leads(text: string, c: char) {
    IsFirst(text + [c, c], c, 0, |text|)
  }

  /** `shape(i)` is the shape of what stands from `i` on. */
  ghost predicate Shapes(s: string, shape: nat -> Shape) {
    forall i {:trigger ShapeAt(s, i)} :: 0 <= i <= |s| ==> shape(i) == ShapeAt(s, i)
  }

  ghost function ShapesOf(s: string): (shape: nat -> Shape)
    ensures Shapes(s, shape) && shape(0) == ShapeOf(s)
  {
    (i: nat) => if i <= |s| then ShapeAt(s, i) else Plain([])
  }

  /** One reference taken off the front, or the rest of the template. */
  ghost function Front(s: string, shape: nat -> Shape, i: nat): Shape
    requires i <= |s|
  {
    var open := Doubled(s, '{', i);
    if open == |s| then Plain(s[i..])
    else
      var close := Doubled(s, '}', open + 2);
      if close == |s| then Unclosed(s[i..])
      else Hole(s[i..open], s[open + 2..close], shape(close + 2))
  }

  lemma ShapeStep(s: string, shape: nat -> Shape, i: nat)
    requires i <= |s| && Shapes(s, shape)
    ensures shape(i) == Front(s, shape, i)
  {
    var here := ShapeAt(s, i);
    var open := Doubled(s, '{', i);
    if open < |s| && Doubled(s, '}', open + 2) < |s| {
      var rest := ShapeAt(s, Doubled(s, '}', open + 2) + 2);
    }
  }

  /** Taking a template apart loses nothing: writing the shape gives the template back. */
  lemma WrittenIsSource(s: string)
    ensures Written(ShapeOf(s)) == s
  {
    WrittenFrom(s, ShapesOf(s), 0);
    assert s[0..] == s;
  }

  lemma {:induction false} WrittenFrom(s: string, shape: nat -> Shape, i: nat)
    requires i <= |s| && Shapes(s, shape)
    ensures Written(shape(i)) == s[i..]
    decreases |s| - i
  {
    ShapeStep(s, shape, i);
    var open := Doubled(s, '{', i);
    if open < |s| {
      var close := Doubled(s, '}', open + 2);
      if close < |s| {
        WrittenFrom(s, shape, close + 2);
        HoleText(s, i, open, close, shape(i).text, shape(i).name);
        WrittenOn(s, i, close + 2, shape(i));
      }
    }
  }

  lemma HoleText(s: string, i: nat, open: nat, close: nat, text: string, name: string)
    requires i <= open && open + 2 <= close && close + 1 < |s|
    requires s[open] == '{' && s[open + 1] == '{' && s[close] == '}' && s[close + 1] == '}'
    requires text == s[i..open] && name == s[open + 2..close]
    ensures WrittenHole(text, name) == s[i..close + 2]
  {
    assert s[open..open + 2] == "{{";
    assert s[close..close + 2] == "}}";
    assert s[i..close] == text + "{{" + name;
  }

  lemma WrittenOn(s: string, i: nat, next: nat, sh: Shape)
    requires i <= next <= |s| && sh.Hole?
    requires WrittenHole(sh.text, sh.name) == s[i..next] && Written(sh.rest) == s[next..]
    ensures Written(sh) == s[i..]
  {
    var shown := WrittenHole(sh.text, sh.name);
    assert Written(sh) == shown + Written(sh.rest);
    assert s[i..] == s[i..next] + s[next..];
  }

  /** A properly written template is taken apart as it was meant. */
  lemma ShapeOfWritten(sh: Shape)
    requires Proper(sh)
    ensures ShapeOf(Written(sh)) == sh
  {
    var s := Written(sh);
    assert s[0..] == s;
    WrittenShape(s, ShapesOf(s), 0, sh);
  }

  lemma {:induction false} WrittenShape(s: string, shape: nat -> Shape, i: nat, sh: Shape)
    requires Shapes(s, shape) && Proper(sh) && i <= |s| && s[i..] == Written(sh)
    ensures shape(i) == sh
    decreases sh, 1
  {
    if sh.Hole? {
      HoleTakenApart(s, shape, i, sh.text, sh.name, sh.rest);
    } else {
      PlainTakenApart(s, shape, i, sh.text);
    }
  }

  lemma {:induction false} HoleTakenApart(s: string, shape: nat -> Shape, i: nat, text: string, name: string,
                                          rest: Shape)
    requires Shapes(s, shape) && Leads(text, '{') && Leads(name, '}') && Proper(rest)
    requires i <= |s| && s[i..] == WrittenHole(text, name) + Written(rest)
    ensures shape(i) == Hole(text, name, rest)
    decreases rest, 2
  {
    var close := HoleFound(s, shape, i, text, name, Written(rest));
    WrittenShape(s, shape, close + 2, rest);
  }

  lemma PlainTakenApart(s: string, shape: nat -> Shape, i: nat, text: string)
    requires Shapes(s, shape) && i <= |s| && s[i..] == text && IsFirst(text, '{', 0, |text|)
    ensures shape(i) == Plain(text)
  {
    Within(s, i, text, '{', |text|);
    DoubledIs(s, '{', i, |s|);
    ShapeStep(s, shape, i);
  }

  /** Searching `t` where it stands in `s`. */
  lemma Within(s: string, i: nat, t: string, c: char, k: nat)
    requires i + |t| <= |s| && t == s[i..i + |t|] && IsFirst(t, c, 0, k)
    requires k < |t| || i + |t| == |s|
    ensures IsFirst(s, c, i, i + k)
  {
    forall m, n | i <= m < i + k && m < n < |s| && n == m + 1 && s[m] == c ensures s[n] != c {
      assert t[m - i] == s[m] && t[n - i] == s[n];
    }
  }

  lemma HoleFound(s: string, shape: nat -> Shape, i: nat, text: string, name: string, rest: string) returns (close: nat)
    requires Shapes(s, shape) && Leads(text, '{') && Leads(name, '}')
    requires i <= |s| && s[i..] == WrittenHole(text, name) + rest
    ensures close + 2 <= |s| && shape(i) == Hole(text, name, shape(close + 2)) && s[close + 2..] == rest
  {
    var open := i + |text|;
    close := open + 2 + |name|;
    PartsStand(s, i, text, name, rest);
    FirstAt(s, i, text, '{');
    FirstAt(s, open + 2, name, '}');
    ShapeStep(s, shape, i);
  }

  lemma FirstAt(s: string, i: nat, t: string, c: char)
    requires Leads(t, c) && i + |t| + 2 <= |s| && s[i..i + |t| + 2] == t + [c, c]
    ensures Doubled(s, c, i) == i + |t|
  {
    Within(s, i, t + [c, c], c, |t|);
    DoubledIs(s, c, i, i + |t|);
  }

  /** Where the parts of a written reference stand. */
  lemma PartsStand(s: string, i: nat, text: string, name: string, rest: string)
    requires i <= |s| && s[i..] == WrittenHole(text, name) + rest
    ensures var open := i + |text|; var close := open + 2 + |name|;
      && close + 2 <= |s| && s[i..open + 2] == text + ['{', '{'] && s[open + 2..close + 2] == name + ['}', '}']
      && s[i..open] == text && s[open + 2..close] == name && s[close + 2..] == rest
  {
    var t := s[i..];
    var open, close := |text|, |text| + 2 + |name|;
    assert |t| == close + 2 + |rest|;
    assert s[i..i + open] == t[..open] == text;
    assert s[i..i + open + 2] == t[..open + 2] == text + ['{', '{'];
    assert s[i + open + 2..i + close] == t[open + 2..close] == name;
    assert s[i + open + 2..i + close + 2] == t[open + 2..close + 2] == name + ['}', '}'];
    assert s[i + close + 2..] == t[close + 2..] == rest;
  }

  /** No other reading: a proper shape is determined by what it is written as. */
  lemma ReadingUnique(a: Shape, b: Shape)
    requires Proper(a) && Proper(b) && Written(a) == Written(b)
    ensures a == b
  {
    ShapeOfWritten(a);
    ShapeOfWritten(b);
  }

  /** Every template whose references are closed has a proper reading, the one the scan finds. */
  lemma ShapeIsProper(s: string)
    requires Closed(ShapeOf(s))
    ensures Proper(ShapeOf(s))
  {
    ProperFrom(s, ShapesOf(s), 0);
  }

  lemma {:induction false} ProperFrom(s: string, shape: nat -> Shape, i: nat)
    requires i <= |s| && Shapes(s, shape) && Closed(shape(i))
    ensures Proper(shape(i))
    decreases |s| - i
  {
    ShapeStep(s, shape, i);
    var open := Doubled(s, '{', i);
    if open < |s| {
      var close := Doubled(s, '}', open + 2);
      if close < |s| {
        SpanLeads(s, i, open, '{', shape(i).text);
        SpanLeads(s, open + 2, close, '}', shape(i).name);
        ProperFrom(s, shape, close + 2);
      }
    } else {
      TailHasNone(s, i, shape(i).text);
    }
  }

  /** Every valid name, and every text without an opening brace, may stand in a proper template. */
  lemma ValidNameLeads(text: string, name: string)
    requires ValidName(name) && '{' !in text
    ensures Leads(name, '}') && Leads(text, '{')
  {
    var n, t := name + ['}', '}'], text + ['{', '{'];
    assert forall m :: 0 <= m < |name| ==> n[m] == name[m] && IsNameChar(name[m]);
    assert forall m :: 0 <= m < |text| ==> t[m] == text[m] && text[m] in text;
  }

  lemma SpanLeads(s: string, i: nat, k: nat, c: char, t: string)
    requires k < |s| && IsFirst(s, c, i, k) && t == s[i..k]
    ensures Leads(t, c)
  {
    var tt := t + [c, c];
    forall m, n | 0 <= m < |t| && m < n < |tt| && n == m + 1 && tt[m] == c ensures tt[n] != c {
      assert tt[m] == s[i + m] && tt[n] == s[i + n];
    }
  }

  lemma TailHasNone(s: string, i: nat, t: string)
    requires IsFirst(s, '{', i, |s|) && t == s[i..]
    ensures IsFirst(t, '{', 0, |t|)
  {
    forall m, n | 0 <= m < |t| && m < n < |t| && n == m + 1 && t[m] == '{' ensures t[n] != '{' {
      assert t[m] == s[i + m] && t[n] == s[i + n];
    }
  }

  // ------------------------------------------------------------------
  // The scan both readers make
  // ------------------------------------------------------------------

  /** `str::find` for a doubled brace. */
  method FindDoubled(s: string, c: char, start: nat) returns (k: nat)
    requires start <= |s|
    ensures IsFirst(s, c, start, k) && k == Doubled(s, c, start)
  {
    k := start;
    while k + 1 < |s| && !(s[k] == c && s[k + 1] == c)
      invariant start <= k <= |s|
      invariant forall m, n :: start <= m < k && m < n < |s| && n == m + 1 && s[m] == c ==> s[n] != c
    {
      k := k + 1;
    }
    if k + 1 >= |s| {
      k := |s|;
    }
    DoubledIs(s, c, start, k);
  }

  /** The next reference at or after `i`: where it opens and where it closes. */
  method NextReference(s: string, i: nat, ghost shape: nat -> Shape) returns (open: nat, close: nat)
    requires i <= |s| && Shapes(s, shape)
    ensures i <= open <= |s| && (open == |s| ==> shape(i) == Plain(s[i..]))
    ensures open < |s| ==> open + 2 <= close <= |s| && (close == |s| ==> shape(i) == Unclosed(s[i..]))
    ensures open < |s| && close < |s| ==>
      close + 2 <= |s| && shape(i) == Hole(s[i..open], s[open + 2..close], shape(close + 2))
  {
    open := FindDoubled(s, '{', i);
    close := |s|;
    if open < |s| {
      close := FindDoubled(s, '}', open + 2);
    }
    ShapeStep(s, shape, i);
  }

  function Names(sh: Shape): seq<string> {
    if sh.Hole? then [sh.name] + Names(sh.rest) else []
  }

  /** The names a template refers to that are valid. */
  function Vars(sh: Shape): seq<string> {
    if !sh.Hole? then [] else (if ValidName(sh.name) then [sh.name] else []) + Vars(sh.rest)
  }

  lemma {:induction false} VarsAreValidNames(sh: Shape, name: string)
    ensures name in Vars(sh) <==> name in Names(sh) && ValidName(name)
  {
    if sh.Hole? {
      VarsAreValidNames(sh.rest, name);
    }
  }

  method InterpolationVars(s: string) returns (out: seq<string>)
    ensures out == Vars(ShapeOf(s))
  {
    out := ScanVars(s, ShapesOf(s));
  }

  method ScanVars(s: string, ghost shape: nat -> Shape) returns (out: seq<string>)
    requires Shapes(s, shape)
    ensures out == Vars(shape(0))
  {
    out := [];
    var i := 0;
    while true
      invariant i <= |s| && Vars(shape(0)) == out + Vars(shape(i))
      decreases |s| - i
    {
      var open, close := NextReference(s, i, shape);
      if open == |s| {
        break;
      }
      if close == |s| {
        break;
      }
      var name := s[open + 2..close];
      if name != [] && ValidName(name) {
        out := out + [name];
      }
      i := close + 2;
    }
  }

  // ------------------------------------------------------------------
  // Interpolation
  // ------------------------------------------------------------------

  datatype TemplateError =
    | MissingVariable(name: string)
    | EmptyVariable(name: string)
    | Unterminated(template: string)
    | BadName(name: string)

  datatype Rendered = Filled(text: string) | Rejected(error: TemplateError)

  function NameProblem(name: string, state: Bindings): Option<TemplateError> {
    if !ValidName(name) then Some(BadName(name))
    else if name !in state then Some(MissingVariable(name))
    else if state[name] == [] then Some(EmptyVariable(name))
    else None
  }

  /** What is wrong with the first part, from the left, that cannot be filled. */
  function Problem(tok: string, sh: Shape, state: Bindings): Option<TemplateError> {
    match sh
    case Plain(_) => None
    case Unclosed(_) => Some(Unterminated(tok))
    case Hole(_, name, rest) =>
      if NameProblem(name, state).Some? then NameProblem(name, state) else Problem(tok, rest, state)
  }

  /** Every reference replaced by its value, in one pass over the template's own parts. */
  function Fill(sh: Shape, state: Bindings): string {
    if sh.Hole? then sh.text + Lookup(sh.name, state) + Fill(sh.rest, state) else sh.text
  }

  function Lookup(name: string, state: Bindings): string {
    if name in state then state[name] else []
  }

  function RenderShape(tok: string, sh: Shape, state: Bindings): Rendered {
    match Problem(tok, sh, state)
    case Some(e) => Rejected(e)
    case None => Filled(Fill(sh, state))
  }

  ghost function Render(tok: string, state: Bindings): Rendered {
    RenderShape(tok, ShapeOf(tok), state)
  }

  method InterpolateToken(tok: string, state: Bindings) returns (r: Rendered)
    ensures r == Render(tok, state)
  {
    r := Substitute(tok, state, ShapesOf(tok));
  }

  method Substitute(tok: string, state: Bindings, ghost shape: nat -> Shape) returns (r: Rendered)
    requires Shapes(tok, shape)
    ensures r == RenderShape(tok, shape(0), state)
  {
    var out, i := "", 0;
    while true
      invariant i <= |tok|
      invariant Problem(tok, shape(0), state) == Problem(tok, shape(i), state)
      invariant Fill(shape(0), state) == out + Fill(shape(i), state)
      decreases |tok| - i
    {
      var open, close := NextReference(tok, i, shape);
      if open == |tok| {
        break;
      }
      if close == |tok| {
        return Rejected(Unterminated(tok));
      }
      var name := tok[open + 2..close];
      if !ValidName(name) {
        return Rejected(BadName(name));
      }
      if name !in state {
        return Rejected(MissingVariable(name));
      }
      if state[name] == [] {
        return Rejected(EmptyVariable(name));
      }
      out := out + tok[i..open] + state[name];
      i := close + 2;
    }
    r := Filled(out + tok[i..]);
  }

  /** Every reference can be filled. */
  ghost predicate Fillable(sh: Shape, state: Bindings) {
    forall name :: name in Names(sh) ==> ValidName(name) && name in state && state[name] != []
  }

  lemma {:induction false} ProblemFree(tok: string, sh: Shape, state: Bindings)
    ensures Problem(tok, sh, state).None? <==> Closed(sh) && Fillable(sh, state)
  {
    if sh.Hole? {
      ProblemFree(tok, sh.rest, state);
      assert forall name :: name in Names(sh) <==> name == sh.name || name in Names(sh.rest);
    }
  }

  /** Rendering a properly written template puts the values, whatever they hold, where the references
      stood, and looks at nothing inserted. */
  lemma RenderWritten(sh: Shape, state: Bindings)
    requires Proper(sh) && Fillable(sh, state)
    ensures Render(Written(sh), state) == Filled(Fill(sh, state))
  {
    ShapeOfWritten(sh);
    ProperIsClosed(sh);
    ProblemFree(Written(sh), sh, state);
  }

  lemma {:induction false} ProperIsClosed(sh: Shape)
    requires Proper(sh)
    ensures Closed(sh)
  {
    if sh.Hole? {
      ProperIsClosed(sh.rest);
    }
  }

  lemma {:induction false} MissingIsUnbound(tok: string, sh: Shape, state: Bindings)
    requires Problem(tok, sh, state).Some? && Problem(tok, sh, state).value.MissingVariable?
    ensures var name := Problem(tok, sh, state).value.name; name in Vars(sh) && name !in state
  {
    if sh.Hole? && NameProblem(sh.name, state).None? {
      MissingIsUnbound(tok, sh.rest, state);
    }
  }

  /** What each error says of the template and the state. */
  lemma {:induction false} ProblemTells(tok: string, sh: Shape, state: Bindings)
    requires Problem(tok, sh, state).Some?
    ensures match Problem(tok, sh, state).value
      case MissingVariable(name) => name in Names(sh) && ValidName(name) && name !in state
      case EmptyVariable(name) => name in Names(sh) && ValidName(name) && name in state && state[name] == []
      case BadName(name) => name in Names(sh) && !ValidName(name)
      case Unterminated(t) => t == tok && !Closed(sh) && Fillable(sh, state)
  {
    if sh.Hole? && NameProblem(sh.name, state).None? {
      ProblemTells(tok, sh.rest, state);
      assert forall name :: name in Names(sh) <==> name == sh.name || name in Names(sh.rest);
    }
  }

  // ------------------------------------------------------------------
  // A whole command line
  // ------------------------------------------------------------------

  datatype Command = Command(argv: seq<string>) | Refused(error: TemplateError)

  /** Every token rendered in its place, or the error of the first one that cannot be. */
  ghost predicate InterpolatesTo(argv: seq<string>, state: Bindings, r: Command) {
    match r
    case Command(out) => |out| == |argv| && forall i :: 0 <= i < |argv| ==> Render(argv[i], state) == Filled(out[i])
    case Refused(e) =>
      exists k :: 0 <= k < |argv| && Render(argv[k], state) == Rejected(e) && FilledUpTo(argv, state, k)
  }

  ghost predicate FilledUpTo(argv: seq<string>, state: Bindings, k: nat)
    requires k <= |argv|
  {
    forall j :: 0 <= j < k ==> Render(argv[j], state).Filled?
  }

  method InterpolateArgv(argv: seq<string>, state: Bindings) returns (r: Command)
    ensures InterpolatesTo(argv, state, r)
  {
    var out := [];
    for i := 0 to |argv|
      invariant |out| == i && forall j :: 0 <= j < i ==> Render(argv[j], state) == Filled(out[j])
    {
      var one := InterpolateToken(argv[i], state);
      if one.Rejected? {
        return Refused(one.error);
      }
      out := out + [one.text];
    }
    r := Command(out);
  }
}
