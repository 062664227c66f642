/** The append-only execution log (crates/shit-planner/src/exec_log.rs): length-prefixed
    records, and what a reader finds after the file was cut at an arbitrary byte. */
module ExecLog {
  import opened Plan
  import opened Bytes

  /** The record encoding. Only `Faithful` is assumed of it. */
  datatype Codec = Codec(encode: ExecutionRecord -> seq<Byte>, decode: seq<Byte> -> Option<ExecutionRecord>)

  ghost predicate Faithful(codec: Codec) {
    forall r :: codec.decode(codec.encode(r)) == Some(r)
  }

  predicate Fits(codec: Codec, r: ExecutionRecord) {
    |codec.encode(r)| < U32_LIMIT
  }

  function Frame(codec: Codec, r: ExecutionRecord): seq<Byte>
    requires Fits(codec, r)
  {
    LittleEndian(|codec.encode(r)|) + codec.encode(r)
  }

  ghost predicate AllFit(codec: Codec, rs: seq<ExecutionRecord>) {
    forall i :: 0 <= i < |rs| ==> Fits(codec, rs[i])
  }

  /** The file after appending `rs`. */
  ghost function Log(codec: Codec, rs: seq<ExecutionRecord>): seq<Byte>
    requires AllFit(codec, rs)
  {
    if rs == [] then [] else Frame(codec, rs[0]) + Log(codec, rs[1..])
  }

  lemma {:induction false} LogAppend(codec: Codec, rs: seq<ExecutionRecord>, r: ExecutionRecord)
    requires AllFit(codec, rs) && Fits(codec, r)
    ensures AllFit(codec, rs + [r]) && Log(codec, rs + [r]) == Log(codec, rs) + Frame(codec, r)
  {
    if rs == [] {
      assert [] + [r] == [r] && [r][1..] == [];
      assert Log(codec, [r]) == Frame(codec, r) + Log(codec, []);
    } else {
      LogAppend(codec, rs[1..], r);
      assert (rs + [r])[1..] == rs[1..] + [r] && (rs + [r])[0] == rs[0];
    }
  }

  // ------------------------------------------------------------------
  // Writing
  // ------------------------------------------------------------------

  datatype AppendResult = Appended | TooLarge | IoError

  class Writer {
    const codec: Codec
    var file: seq<Byte>
    var written: nat
    ghost var records: seq<ExecutionRecord>

    /** The file holds the appended records and nothing else. */
    ghost predicate Whole()
      reads this
    {
      AllFit(codec, records) && file == Log(codec, records)
    }

    constructor (codec: Codec)
      ensures Whole() && records == [] && written == 0 && this.codec == codec
    {
      this.codec := codec;
      file, written, records := [], 0, [];
    }

    /** A log under a new id. An id that already has a log, or an error of the file system, is refused. */
    static method Create(codec: Codec, ids: set<string>, id: string, fails: bool)
      returns (w: Writer?, after: set<string>)
      ensures w == null <==> id in ids || fails
      ensures w != null ==> fresh(w) && w.codec == codec && w.Whole() && w.records == [] && w.written == 0
      ensures after == if w == null then ids else ids + {id}
    {
      if id in ids || fails {
        return null, ids;
      }
      w := new Writer(codec);
      after := ids + {id};
    }

    /** Appends one record durably. `fault` is the number of bytes that reach the file before an error of
        the file system, if there is one; past the frame's end it is the flush that fails. */
    method Append(rec: ExecutionRecord, fault: Option<nat>) returns (result: AppendResult)
      modifies this
      ensures result.TooLarge? <==> !Fits(codec, rec)
      ensures result.Appended? <==> Fits(codec, rec) && fault.None?
      ensures records == (if result.Appended? then old(records) + [rec] else old(records))
      ensures written == old(written) + if result.Appended? then 1 else 0
      ensures result.TooLarge? ==> file == old(file)
      ensures result.Appended? ==> file == old(file) + Frame(codec, rec)
      ensures result.IoError? ==>
        exists k :: 0 <= k <= |Frame(codec, rec)| && file == old(file) + Frame(codec, rec)[..k]
      ensures old(Whole()) && !result.IoError? ==> Whole()
    {
      var body := codec.encode(rec);
      if |body| >= U32_LIMIT {
        return TooLarge;
      }
      var frame := Frame(codec, rec);
      if fault.Some? {
        var k := if fault.value < |frame| then fault.value else |frame|;
        file := file + frame[..k];
        return IoError;
      }
      if old(Whole()) {
        LogAppend(codec, records, rec);
      }
      file := file + LittleEndian(|body|);
      file := file + body;
      written := written + 1;
      records := records + [rec];
      assert file == old(file) + frame;
      result := Appended;
    }
  }

  // ------------------------------------------------------------------
  // Reading
  // ------------------------------------------------------------------

  datatype ReadResult = Records(records: seq<ExecutionRecord>) | Truncated(at: nat) | Undecodable

  type Replay = (seq<Byte>, nat) -> ReadResult

  /** Whether the read of a header at this offset brings all of it, if it is there; a read may bring less. */
  type Reads = nat -> bool

  /** One frame read off the front at offset `at`, the rest left to `read`. */
  ghost function Step(codec: Codec, full: Reads, read: Replay, bytes: seq<Byte>, at: nat): ReadResult {
    if bytes == [] then Records([])
    else if |bytes| < 4 || !full(at) then Truncated(at)
    else
      var len := FromLittleEndian(bytes[..4]);
      if |bytes| < 4 + len then Truncated(at)
      else match codec.decode(bytes[4..4 + len])
        case None => Undecodable
        case Some(r) => Cons(r, read(bytes[4 + len..], at + 4 + len))
  }

  /** What replay reports for the bytes from offset `at` on: frame after frame to the end. */
  ghost function Read(codec: Codec, full: Reads, bytes: seq<Byte>, at: nat): ReadResult
    decreases |bytes|
  {
    var shorter := (rest: seq<Byte>, next: nat) =>
      if |rest| < |bytes| then Read(codec, full, rest, next) else Undecodable;
    Step(codec, full, shorter, bytes, at)
  }

  ghost function Cons(r: ExecutionRecord, rest: ReadResult): ReadResult {
    if rest.Records? then Records([r] + rest.records) else rest
  }

  ghost function After(out: seq<ExecutionRecord>, rest: ReadResult): ReadResult {
    if rest.Records? then Records(out + rest.records) else rest
  }

  ghost function ReplayOf(codec: Codec, full: Reads): Replay {
    (bytes: seq<Byte>, at: nat) => Read(codec, full, bytes, at)
  }

  ghost predicate Unfolds(codec: Codec, full: Reads, read: Replay) {
    forall bytes, at {:trigger Step(codec, full, read, bytes, at)} :: 0 <= at ==>
      read(bytes, at) == Step(codec, full, read, bytes, at)
  }

  lemma StepUsesLess(codec: Codec, full: Reads, f: Replay, g: Replay, bytes: seq<Byte>, at: nat)
    requires forall rest: seq<Byte>, next: nat :: |rest| < |bytes| ==> f(rest, next) == g(rest, next)
    ensures Step(codec, full, f, bytes, at) == Step(codec, full, g, bytes, at)
  {
  }

  lemma UnfoldAt(codec: Codec, full: Reads, bytes: seq<Byte>, at: nat)
    ensures Read(codec, full, bytes, at) == Step(codec, full, ReplayOf(codec, full), bytes, at)
  {
    var shorter: Replay := (rest: seq<Byte>, next: nat) =>
      if |rest| < |bytes| then Read(codec, full, rest, next) else Undecodable;
    StepUsesLess(codec, full, shorter, ReplayOf(codec, full), bytes, at);
  }

  lemma ReplayUnfolds(codec: Codec, full: Reads)
    ensures Unfolds(codec, full, ReplayOf(codec, full))
  {
    forall bytes, at | 0 <= at
      ensures ReplayOf(codec, full)(bytes, at) == Step(codec, full, ReplayOf(codec, full), bytes, at)
    {
      UnfoldAt(codec, full, bytes, at);
    }
  }

  method ReadAll(codec: Codec, full: Reads, file: seq<Byte>) returns (result: ReadResult)
    ensures result == Read(codec, full, file, 0)
  {
    ReplayUnfolds(codec, full);
    result := ReadFile(codec, full, file, ReplayOf(codec, full));
  }

  datatype OneFrame = End | Cut | Bad | Got(rec: ExecutionRecord, next: nat)

  /** One turn of the reader's loop. */
  method ReadOne(codec: Codec, full: Reads, file: seq<Byte>, offset: nat, ghost read: Replay) returns (one: OneFrame)
    requires Unfolds(codec, full, read) && offset <= |file|
    ensures one.End? ==> read(file[offset..], offset) == Records([])
    ensures one.Cut? ==> read(file[offset..], offset) == Truncated(offset)
    ensures one.Bad? ==> read(file[offset..], offset) == Undecodable
    ensures one.Got? ==>
      offset < one.next <= |file| && read(file[offset..], offset) == Cons(one.rec, read(file[one.next..], one.next))
  {
    var rest := file[offset..];
    assert read(rest, offset) == Step(codec, full, read, rest, offset);
    if rest == [] {
      return End;
    }
    if |rest| < 4 || !full(offset) {
      return Cut;
    }
    var len := FromLittleEndian(rest[..4]);
    if |rest| - 4 < len {
      return Cut;
    }
    assert rest[4 + len..] == file[offset + 4 + len..];
    match codec.decode(rest[4..4 + len]) {
      case None => return Bad;
      case Some(rec) => one := Got(rec, offset + 4 + len);
    }
  }

  method ReadFile(codec: Codec, full: Reads, file: seq<Byte>, ghost read: Replay) returns (result: ReadResult)
    requires Unfolds(codec, full, read)
    ensures result == read(file, 0)
  {
    var out: seq<ExecutionRecord> := [];
    var offset := 0;
    assert file[0..] == file;
    while true
      invariant 0 <= offset <= |file|
      invariant read(file, 0) == After(out, read(file[offset..], offset))
      decreases |file| - offset
    {
      var one := ReadOne(codec, full, file, offset, read);
      match one {
        case End => break;
        case Cut => return Truncated(offset);
        case Bad => return Undecodable;
        case Got(rec, next) =>
          AfterCons(out, rec, read(file[next..], next));
          out, offset := out + [rec], next;
      }
    }
    result := Records(out);
    assert out + [] == out;
  }

  lemma AfterCons(out: seq<ExecutionRecord>, r: ExecutionRecord, rest: ReadResult)
    ensures After(out, Cons(r, rest)) == After(out + [r], rest)
  {
    if rest.Records? {
      assert out + ([r] + rest.records) == (out + [r]) + rest.records;
    }
  }

  // ------------------------------------------------------------------
  // Torn files
  // ------------------------------------------------------------------

  /** The number of whole frames in the first `cut` bytes of a log. */
  ghost function WholeFrames(codec: Codec, rs: seq<ExecutionRecord>, cut: nat): (k: nat)
    requires AllFit(codec, rs)
    ensures k <= |rs|
  {
    if rs == [] || cut < |Frame(codec, rs[0])| then 0
    else 1 + WholeFrames(codec, rs[1..], cut - |Frame(codec, rs[0])|)
  }

  /** Whole frames are what the name says: they fit into the cut, and one more does not. */
  lemma {:induction false} WholeFramesFit(codec: Codec, rs: seq<ExecutionRecord>, cut: nat)
    requires AllFit(codec, rs)
    ensures var k := WholeFrames(codec, rs, cut);
            && |Log(codec, rs[..k])| <= cut
            && (k < |rs| ==> cut < |Log(codec, rs[..k + 1])|)
  {
    var k := WholeFrames(codec, rs, cut);
    if rs != [] {
      if k > 0 {
        WholeFramesFit(codec, rs[1..], cut - |Frame(codec, rs[0])|);
        assert rs[..k][1..] == rs[1..][..k - 1];
      }
      if k < |rs| {
        assert rs[..k + 1][1..] == rs[1..][..k];
      }
    }
  }

  lemma StepHeaded(codec: Codec, full: Reads, read: Replay, header: seq<Byte>, body: seq<Byte>, r: ExecutionRecord,
                   rest: seq<Byte>, at: nat)
    requires |header| == 4 && FromLittleEndian(header) == |body| && codec.decode(body) == Some(r)
    ensures Step(codec, full, read, header + body + rest, at) ==
      if full(at) then Cons(r, read(rest, at + 4 + |body|)) else Truncated(at)
  {
    var bytes := header + body + rest;
    assert bytes[..4] == header;
    assert bytes[4..4 + |body|] == body;
    assert bytes[4 + |body|..] == rest;
  }

  lemma ReadFrame(codec: Codec, full: Reads, read: Replay, r: ExecutionRecord, rest: seq<Byte>, at: nat)
    requires Faithful(codec) && Unfolds(codec, full, read) && Fits(codec, r)
    ensures read(Frame(codec, r) + rest, at) ==
      if full(at) then Cons(r, read(rest, at + |Frame(codec, r)|)) else Truncated(at)
  {
    var body := codec.encode(r);
    LittleEndianRoundTrip(|body|);
    StepHeaded(codec, full, read, LittleEndian(|body|), body, r, rest, at);
  }

  lemma ReadPartOfFrame(codec: Codec, full: Reads, read: Replay, r: ExecutionRecord, cut: nat, at: nat)
    requires Unfolds(codec, full, read) && Fits(codec, r) && cut < |Frame(codec, r)|
    ensures read(Frame(codec, r)[..cut], at) == if cut == 0 then Records([]) else Truncated(at)
  {
    var body, bytes := codec.encode(r), Frame(codec, r)[..cut];
    LittleEndianRoundTrip(|body|);
    if 4 <= cut {
      assert bytes[..4] == LittleEndian(|body|);
    }
    assert read(bytes, at) == Step(codec, full, read, bytes, at);
  }

  /** The first frame whose header comes short; their number when none does. */
  ghost function FirstShort(codec: Codec, full: Reads, rs: seq<ExecutionRecord>, at: nat): (s: nat)
    requires AllFit(codec, rs)
    ensures s <= |rs|
  {
    if rs == [] || !full(at) then 0 else 1 + FirstShort(codec, full, rs[1..], at + |Frame(codec, rs[0])|)
  }

  ghost function Torn(codec: Codec, full: Reads, rs: seq<ExecutionRecord>, cut: nat, at: nat): ReadResult
    requires AllFit(codec, rs)
  {
    var k, s := WholeFrames(codec, rs, cut), FirstShort(codec, full, rs, at);
    if s < k then Truncated(at + |Log(codec, rs[..s])|)
    else if cut == |Log(codec, rs[..k])| then Records(rs[..k])
    else Truncated(at + |Log(codec, rs[..k])|)
  }

  lemma LogCons(codec: Codec, rs: seq<ExecutionRecord>, k: nat)
    requires AllFit(codec, rs) && 0 < k <= |rs|
    ensures rs[..k] == [rs[0]] + rs[1..][..k - 1]
    ensures |Log(codec, rs[..k])| == |Frame(codec, rs[0])| + |Log(codec, rs[1..][..k - 1])|
  {
    assert rs[..k][1..] == rs[1..][..k - 1] && rs[..k][0] == rs[0];
  }

  lemma TornStep(codec: Codec, full: Reads, rs: seq<ExecutionRecord>, cut: nat, at: nat)
    requires AllFit(codec, rs) && rs != [] && |Frame(codec, rs[0])| <= cut
    ensures Torn(codec, full, rs, cut, at) ==
      if full(at) then Cons(rs[0], Torn(codec, full, rs[1..], cut - |Frame(codec, rs[0])|, at + |Frame(codec, rs[0])|))
      else Truncated(at)
  {
    LogCons(codec, rs, WholeFrames(codec, rs, cut));
    if full(at) {
      LogCons(codec, rs, FirstShort(codec, full, rs, at));
    } else {
      assert rs[..0] == [];
    }
  }

  ghost predicate WholeAt(codec: Codec, full: Reads, read: Replay, r: ExecutionRecord, rest: seq<Byte>, at: nat) {
    Fits(codec, r) ==>
      read(Frame(codec, r) + rest, at) ==
      if full(at) then Cons(r, read(rest, at + |Frame(codec, r)|)) else Truncated(at)
  }

  ghost predicate PartAt(codec: Codec, full: Reads, read: Replay, r: ExecutionRecord, cut: nat, at: nat) {
    Fits(codec, r) && cut < |Frame(codec, r)| ==>
      read(Frame(codec, r)[..cut], at) == if cut == 0 then Records([]) else Truncated(at)
  }

  /** Takes a whole frame for its record, a part of one for a truncation, and nothing for the end. */
  ghost predicate TakesFrames(codec: Codec, full: Reads, read: Replay) {
    && (forall r, rest: seq<Byte>, at: nat :: WholeAt(codec, full, read, r, rest, at))
    && (forall r, cut: nat, at: nat :: PartAt(codec, full, read, r, cut, at))
    && (forall at: nat :: read([], at) == Records([]))
  }

  lemma ReadTakesFrames(codec: Codec, full: Reads, read: Replay)
    requires Faithful(codec) && Unfolds(codec, full, read)
    ensures TakesFrames(codec, full, read)
  {
    forall r, rest: seq<Byte>, at: nat ensures WholeAt(codec, full, read, r, rest, at) {
      if Fits(codec, r) {
        ReadFrame(codec, full, read, r, rest, at);
      }
    }
    forall r, cut: nat, at: nat ensures PartAt(codec, full, read, r, cut, at) {
      if Fits(codec, r) && cut < |Frame(codec, r)| {
        ReadPartOfFrame(codec, full, read, r, cut, at);
      }
    }
    forall at: nat ensures read([], at) == Records([]) {
      assert read([], at) == Step(codec, full, read, [], at);
    }
  }

  lemma TakeWhole(codec: Codec, full: Reads, read: Replay, r: ExecutionRecord, rest: seq<Byte>, at: nat)
    requires TakesFrames(codec, full, read) && Fits(codec, r)
    ensures read(Frame(codec, r) + rest, at) ==
      if full(at) then Cons(r, read(rest, at + |Frame(codec, r)|)) else Truncated(at)
  {
    assert WholeAt(codec, full, read, r, rest, at);
  }

  lemma TakePart(codec: Codec, full: Reads, read: Replay, r: ExecutionRecord, cut: nat, at: nat)
    requires TakesFrames(codec, full, read) && Fits(codec, r) && cut < |Frame(codec, r)|
    ensures read(Frame(codec, r)[..cut], at) == if cut == 0 then Records([]) else Truncated(at)
  {
    assert PartAt(codec, full, read, r, cut, at);
  }

  lemma CutAfter(a: seq<Byte>, b: seq<Byte>, cut: nat)
    requires |a| <= cut <= |a| + |b|
    ensures (a + b)[..cut] == a + b[..cut - |a|]
  {
  }

  lemma {:induction false} ReadCut(codec: Codec, full: Reads, read: Replay, rs: seq<ExecutionRecord>, cut: nat, at: nat)
    requires TakesFrames(codec, full, read) && AllFit(codec, rs) && cut <= |Log(codec, rs)|
    ensures read(Log(codec, rs)[..cut], at) == Torn(codec, full, rs, cut, at)
  {
    if rs != [] {
      var frame, rest := Frame(codec, rs[0]), Log(codec, rs[1..]);
      if cut < |frame| {
        assert rs[..0] == [];
        assert Log(codec, rs)[..cut] == frame[..cut];
        TakePart(codec, full, read, rs[0], cut, at);
      } else {
        CutAfter(frame, rest, cut);
        TakeWhole(codec, full, read, rs[0], rest[..cut - |frame|], at);
        if full(at) {
          ReadCut(codec, full, read, rs[1..], cut - |frame|, at + |frame|);
        }
        TornStep(codec, full, rs, cut, at);
      }
    }
  }

  /** A log of any appends, cut at any byte and read in any way: if the header of a whole frame comes short
      the reader reports truncation there; otherwise, on a frame boundary, it returns exactly the whole
      records, and anywhere else it reports truncation at the end of the last whole frame. */
  lemma TornLog(codec: Codec, full: Reads, rs: seq<ExecutionRecord>, cut: nat)
    requires Faithful(codec) && AllFit(codec, rs) && cut <= |Log(codec, rs)|
    ensures var k, s := WholeFrames(codec, rs, cut), FirstShort(codec, full, rs, 0);
            Read(codec, full, Log(codec, rs)[..cut], 0) ==
              if s < k then Truncated(|Log(codec, rs[..s])|)
              else if cut == |Log(codec, rs[..k])| then Records(rs[..k])
              else Truncated(|Log(codec, rs[..k])|)
  {
    ReplayUnfolds(codec, full);
    ReadTakesFrames(codec, full, ReplayOf(codec, full));
    ReadCut(codec, full, ReplayOf(codec, full), rs, cut, 0);
  }

  /** Replay of a whole log is exact if and only if no header comes short. */
  lemma ReplayExactIff(codec: Codec, full: Reads, rs: seq<ExecutionRecord>)
    requires Faithful(codec) && AllFit(codec, rs)
    ensures Read(codec, full, Log(codec, rs), 0) == Records(rs) <==> FirstShort(codec, full, rs, 0) == |rs|
  {
    var n := |Log(codec, rs)|;
    assert rs[..|rs|] == rs && Log(codec, rs)[..n] == Log(codec, rs);
    WholeFramesIs(codec, rs, n, |rs|);
    TornLog(codec, full, rs, n);
  }

  /** The header of frame `k` of a log that starts at `at` is read whole. */
  ghost predicate HeaderWhole(codec: Codec, full: Reads, rs: seq<ExecutionRecord>, at: nat, k: nat)
    requires AllFit(codec, rs) && k < |rs|
  {
    full(at + |Log(codec, rs[..k])|)
  }

  lemma HeaderShift(codec: Codec, full: Reads, rs: seq<ExecutionRecord>, at: nat, k: nat)
    requires AllFit(codec, rs) && k < |rs|
    ensures k == 0 ==> (HeaderWhole(codec, full, rs, at, k) <==> full(at))
    ensures k > 0 ==> (HeaderWhole(codec, full, rs, at, k) <==>
      HeaderWhole(codec, full, rs[1..], at + |Frame(codec, rs[0])|, k - 1))
  {
    if k == 0 {
      assert rs[..0] == [];
    } else {
      LogCons(codec, rs, k);
    }
  }

  /** No header comes short if and only if each is read whole where it stands. */
  lemma {:induction false} NoneShortIff(codec: Codec, full: Reads, rs: seq<ExecutionRecord>, at: nat)
    requires AllFit(codec, rs)
    ensures FirstShort(codec, full, rs, at) == |rs| <==>
      forall k :: 0 <= k < |rs| ==> HeaderWhole(codec, full, rs, at, k)
  {
    if rs != [] {
      var rest, next := rs[1..], at + |Frame(codec, rs[0])|;
      NoneShortIff(codec, full, rest, next);
      HeaderShift(codec, full, rs, at, 0);
      if FirstShort(codec, full, rs, at) == |rs| {
        forall k | 0 <= k < |rs| ensures HeaderWhole(codec, full, rs, at, k) {
          HeaderShift(codec, full, rs, at, k);
          assert k > 0 ==> HeaderWhole(codec, full, rest, next, k - 1);
        }
      }
      if forall k :: 0 <= k < |rs| ==> HeaderWhole(codec, full, rs, at, k) {
        assert HeaderWhole(codec, full, rs, at, 0);
        forall k | 0 <= k < |rest| ensures HeaderWhole(codec, full, rest, next, k) {
          HeaderShift(codec, full, rs, at, k + 1);
          assert HeaderWhole(codec, full, rs, at, k + 1);
        }
      }
    }
  }

  lemma {:induction false} LogGrows(codec: Codec, rs: seq<ExecutionRecord>, j: nat, k: nat)
    requires AllFit(codec, rs) && j <= k <= |rs|
    ensures |Log(codec, rs[..j])| <= |Log(codec, rs[..k])|
    ensures j < k ==> |Log(codec, rs[..j])| < |Log(codec, rs[..k])|
  {
    if 0 < j {
      LogGrows(codec, rs[1..], j - 1, k - 1);
      assert rs[..j][1..] == rs[1..][..j - 1] && rs[..k][1..] == rs[1..][..k - 1];
    }
  }

  lemma WholeFramesIs(codec: Codec, rs: seq<ExecutionRecord>, cut: nat, k: nat)
    requires AllFit(codec, rs) && k <= |rs|
    requires |Log(codec, rs[..k])| <= cut && (k < |rs| ==> cut < |Log(codec, rs[..k + 1])|)
    ensures WholeFrames(codec, rs, cut) == k
  {
    var w := WholeFrames(codec, rs, cut);
    WholeFramesFit(codec, rs, cut);
    LogGrows(codec, rs, if w < k then w + 1 else if k < w then k + 1 else k, if w < k then k else w);
  }

  lemma {:induction false} ShortSnoc(codec: Codec, full: Reads, rs: seq<ExecutionRecord>, r: ExecutionRecord, at: nat)
    requires AllFit(codec, rs) && Fits(codec, r)
    ensures AllFit(codec, rs + [r])
    ensures var s := FirstShort(codec, full, rs, at);
      FirstShort(codec, full, rs + [r], at) ==
      if s < |rs| then s else |rs| + if full(at + |Log(codec, rs)|) then 1 else 0
  {
    if rs == [] {
      assert rs + [r] == [r] && [r][1..] == [];
    } else {
      assert (rs + [r])[1..] == rs[1..] + [r] && (rs + [r])[0] == rs[0];
      if full(at) {
        ShortSnoc(codec, full, rs[1..], r, at + |Frame(codec, rs[0])|);
      }
    }
  }

  /** Reading `file` gives back `rs`, with `r` at most in addition; when it reports truncation, reading up
      to the reported offset does. */
  ghost predicate Recovers(read: Replay, file: seq<Byte>, rs: seq<ExecutionRecord>, r: ExecutionRecord) {
    match read(file, 0)
    case Records(out) => out == rs || out == rs + [r]
    case Truncated(at) => at <= |file| && read(file[..at], 0) == Records(rs)
    case Undecodable => false
  }

  /** A crash while `r` is being appended, at any byte, loses at most `r`, to every reader to whom no earlier
      header comes short, and to no other. */
  lemma CrashLosesAtMostOne(codec: Codec, full: Reads, rs: seq<ExecutionRecord>, r: ExecutionRecord, cut: nat)
    requires Faithful(codec) && AllFit(codec, rs) && Fits(codec, r)
    requires |Log(codec, rs)| <= cut <= |Log(codec, rs)| + |Frame(codec, r)|
    ensures Recovers(ReplayOf(codec, full), (Log(codec, rs) + Frame(codec, r))[..cut], rs, r) <==>
      FirstShort(codec, full, rs, 0) == |rs|
  {
    ReplayUnfolds(codec, full);
    ReadTakesFrames(codec, full, ReplayOf(codec, full));
    LogAppend(codec, rs, r);
    if FirstShort(codec, full, rs, 0) == |rs| {
      CrashRead(codec, full, ReplayOf(codec, full), rs, r, cut);
    } else {
      ShortRead(codec, full, ReplayOf(codec, full), rs, r, cut);
    }
  }

  /** So does an append that fails on a whole log. */
  lemma FailedAppendKeepsRecords(codec: Codec, full: Reads, rs: seq<ExecutionRecord>, r: ExecutionRecord,
                                 k: nat, file: seq<Byte>)
    requires Faithful(codec) && AllFit(codec, rs) && Fits(codec, r)
    requires k <= |Frame(codec, r)| && file == Log(codec, rs) + Frame(codec, r)[..k]
    ensures Recovers(ReplayOf(codec, full), file, rs, r) <==> FirstShort(codec, full, rs, 0) == |rs|
  {
    var cut := PartAppended(Log(codec, rs), Frame(codec, r), k, file);
    CrashLosesAtMostOne(codec, full, rs, r, cut);
  }

  lemma PartAppended(a: seq<Byte>, b: seq<Byte>, k: nat, file: seq<Byte>) returns (cut: nat)
    requires k <= |b| && file == a + b[..k]
    ensures |a| <= cut <= |a| + |b| && file == (a + b)[..cut]
  {
    cut := |a| + k;
  }

  /** What `CrashRead` and `ShortRead` know of the log and its last frame. */
  ghost predicate LastFrame(codec: Codec, rs: seq<ExecutionRecord>, r: ExecutionRecord, all: seq<ExecutionRecord>) {
    && AllFit(codec, rs) && Fits(codec, r) && all == rs + [r] && AllFit(codec, all)
    && Log(codec, all) == Log(codec, rs) + Frame(codec, r)
    && all[..|rs|] == rs && all[..|rs| + 1] == all
  }

  lemma Appending(codec: Codec, rs: seq<ExecutionRecord>, r: ExecutionRecord) returns (all: seq<ExecutionRecord>)
    requires AllFit(codec, rs) && Fits(codec, r)
    ensures LastFrame(codec, rs, r, all)
  {
    all := rs + [r];
    LogAppend(codec, rs, r);
  }

  lemma CrashRead(codec: Codec, full: Reads, read: Replay, rs: seq<ExecutionRecord>, r: ExecutionRecord, cut: nat)
    requires TakesFrames(codec, full, read) && AllFit(codec, rs) && Fits(codec, r)
    requires |Log(codec, rs)| <= cut <= |Log(codec, rs)| + |Frame(codec, r)|
    requires FirstShort(codec, full, rs, 0) == |rs|
    ensures Recovers(read, (Log(codec, rs) + Frame(codec, r))[..cut], rs, r)
  {
    var all := Appending(codec, rs, r);
    var at := |Log(codec, rs)|;
    ShortSnoc(codec, full, rs, r, 0);
    TornAt(codec, full, read, all, at, |rs|);
    PrefixOfCut(Log(codec, all), cut, at);
    if cut < |Log(codec, all)| {
      TornAt(codec, full, read, all, cut, |rs|);
    } else {
      TornAt(codec, full, read, all, cut, |rs| + 1);
    }
  }

  lemma PrefixOfCut(log: seq<Byte>, cut: nat, at: nat)
    requires at <= cut <= |log|
    ensures log[..cut][..at] == log[..at]
  {
  }

  lemma ShortRead(codec: Codec, full: Reads, read: Replay, rs: seq<ExecutionRecord>, r: ExecutionRecord, cut: nat)
    requires TakesFrames(codec, full, read) && AllFit(codec, rs) && Fits(codec, r)
    requires |Log(codec, rs)| <= cut <= |Log(codec, rs)| + |Frame(codec, r)|
    requires FirstShort(codec, full, rs, 0) < |rs|
    ensures !Recovers(read, (Log(codec, rs) + Frame(codec, r))[..cut], rs, r)
  {
    var all := Appending(codec, rs, r);
    var s := FirstShort(codec, full, rs, 0);
    ShortSnoc(codec, full, rs, r, 0);
    var at := |Log(codec, all[..s])|;
    LogGrows(codec, all, s, |rs|);
    LogGrows(codec, all, s, s + 1);
    TornAt(codec, full, read, all, at, s);
    PrefixOfCut(Log(codec, all), cut, at);
    if cut < |Log(codec, all)| {
      TornAt(codec, full, read, all, cut, |rs|);
    } else {
      TornAt(codec, full, read, all, cut, |rs| + 1);
    }
    assert |all[..s]| != |rs|;
  }

  lemma TornAt(codec: Codec, full: Reads, read: Replay, rs: seq<ExecutionRecord>, cut: nat, k: nat)
    requires TakesFrames(codec, full, read) && AllFit(codec, rs) && cut <= |Log(codec, rs)| && k <= |rs|
    requires |Log(codec, rs[..k])| <= cut && (k < |rs| ==> cut < |Log(codec, rs[..k + 1])|)
    ensures var s := FirstShort(codec, full, rs, 0);
      read(Log(codec, rs)[..cut], 0) ==
      if s < k then Truncated(|Log(codec, rs[..s])|)
      else if cut == |Log(codec, rs[..k])| then Records(rs[..k])
      else Truncated(|Log(codec, rs[..k])|)
  {
    WholeFramesIs(codec, rs, cut, k);
    ReadCut(codec, full, read, rs, cut, 0);
  }
}
