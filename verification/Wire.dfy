/** Length-prefixed frames over a byte stream (crates/shit-helper/src/ipc.rs, the STREAM
    transport, and crates/shit-proto/src/frame.rs). */
module Wire {
  import opened Plan
  import opened Bytes

  const MAX_FRAME_SIZE := 256 * 1024
  const MAX_HELPER_FRAME_SIZE := 8 * 1024
  const WIRE_VERSION: Byte := 1

  // ------------------------------------------------------------------
  // Encoding
  // ------------------------------------------------------------------

  /** `encode_frame`, on an already serialised payload. */
  function EncodeFrame(payload: seq<Byte>): Option<seq<Byte>> {
    if 5 + |payload| > MAX_FRAME_SIZE then None
    else Some(BigEndian(1 + |payload|) + [WIRE_VERSION] + payload)
  }

  datatype Decoded = Payload(bytes: seq<Byte>) | ShortFrame | TooLarge | LengthMismatch | UnsupportedVersion

  /** `decode_frame`, up to the payload's own deserialisation. */
  function DecodeFrame(buf: seq<Byte>): Decoded {
    if |buf| < 5 then ShortFrame
    else if |buf| > MAX_FRAME_SIZE then TooLarge
    else if FromBigEndian(buf[..4]) != |buf| - 4 then LengthMismatch
    else if buf[4] != WIRE_VERSION then UnsupportedVersion
    else Payload(buf[5..])
  }

  lemma FrameRoundTrip(payload: seq<Byte>)
    ensures match EncodeFrame(payload)
            case Some(frame) => DecodeFrame(frame) == Payload(payload) && WellFormed(frame)
            case None => |payload| > 262139
  {
    if EncodeFrame(payload).Some? {
      var frame := EncodeFrame(payload).value;
      BigEndianRoundTrip(1 + |payload|);
      assert frame[..4] == BigEndian(1 + |payload|);
      assert frame[5..] == payload;
    }
  }

  /** Exactly encodings are decoded, to what they encode; a frame begins with its length in network order and
      version 1. */
  lemma DecodesEncodings(buf: seq<Byte>, payload: seq<Byte>)
    ensures DecodeFrame(buf) == Payload(payload) <==> EncodeFrame(payload) == Some(buf)
    ensures EncodeFrame(payload) == Some(buf) <==>
      |payload| <= 262139 && |buf| == |payload| + 5 && buf[..4] == BigEndian(|payload| + 1) && buf[4] == 1
      && buf[5..] == payload
  {
    if DecodeFrame(buf) == Payload(payload) {
      BigEndianWrites(buf[..4]);
      assert buf == buf[..4] + [buf[4]] + buf[5..];
    }
    if EncodeFrame(payload) == Some(buf) {
      FrameRoundTrip(payload);
    }
    if |buf| == |payload| + 5 {
      assert buf == buf[..4] + [buf[4]] + buf[5..];
    }
  }

  /** Why a buffer is not decoded, the first reason that applies. */
  lemma DecodeRefuses(buf: seq<Byte>)
    ensures DecodeFrame(buf) == ShortFrame <==> |buf| < 5
    ensures DecodeFrame(buf) == TooLarge <==> |buf| > 262144
    ensures DecodeFrame(buf) == LengthMismatch <==> 5 <= |buf| <= 262144 && !WellFormed(buf)
    ensures DecodeFrame(buf) == UnsupportedVersion <==> 5 <= |buf| <= 262144 && WellFormed(buf) && buf[4] != 1
  {
  }

  /** A frame whose header announces its body. */
  ghost predicate WellFormed(frame: seq<Byte>) {
    |frame| >= 4 && FromBigEndian(frame[..4]) == |frame| - 4
  }

  // ------------------------------------------------------------------
  // Both ends at once, under every splitting of sends and receives
  // ------------------------------------------------------------------

  /** `queue` holds the frames not yet begun, `sending` the unsent rest of the current one, `wire`
      the bytes in flight, `got` what the receiver has of its current frame. */
  datatype Link = Link(
    queue: seq<seq<Byte>>, sending: seq<Byte>, wire: seq<Byte>,
    got: seq<Byte>, delivered: seq<seq<Byte>>, refused: bool)

  /** The kernel lets a send take, or a receive bring, `n` bytes (at least one, at most what fits). */
  datatype Move = Send(n: nat) | Recv(n: nat)

  function Clip(n: nat, most: nat): (k: nat)
    requires most > 0
    ensures 1 <= k <= most
  {
    if n < 1 then 1 else if n > most then most else n
  }

  /** How many bytes the receiver still asks for: the rest of the header, then of the body. */
  function Need(got: seq<Byte>): nat {
    if |got| < 4 then 4 - |got|
    else
      var total := 4 + FromBigEndian(got[..4]);
      if |got| < total then total - |got| else 0
  }

  /** What the receiver does once its buffer is as far as it asked for. */
  function Settle(link: Link): Link {
    if |link.got| < 4 then link
    else if FromBigEndian(link.got[..4]) > MAX_HELPER_FRAME_SIZE - 4 then link.(refused := true)
    else if Need(link.got) == 0 then link.(got := [], delivered := link.delivered + [link.got])
    else link
  }

  function Step(link: Link, move: Move): Link {
    match move
    case Send(n) =>
      if link.sending != [] then
        var k := Clip(n, |link.sending|);
        link.(sending := link.sending[k..], wire := link.wire + link.sending[..k])
      else if link.queue != [] then link.(queue := link.queue[1..], sending := link.queue[0])
      else link
    case Recv(n) =>
      var most := if Need(link.got) < |link.wire| then Need(link.got) else |link.wire|;
      if link.refused || most == 0 then link
      else
        var k := Clip(n, most);
        Settle(link.(got := link.got + link.wire[..k], wire := link.wire[k..]))
  }

  function Run(link: Link, moves: seq<Move>): Link {
    if moves == [] then link else Step(Run(link, moves[..|moves| - 1]), moves[|moves| - 1])
  }

  function Start(frames: seq<seq<Byte>>): Link {
    Link(frames, [], [], [], [], false)
  }

  function Flat(frames: seq<seq<Byte>>): seq<Byte> {
    if frames == [] then [] else frames[0] + Flat(frames[1..])
  }

  /** The frames before the first one the receiver would refuse. */
  function Acceptable(frames: seq<seq<Byte>>): (k: nat)
    ensures k <= |frames|
  {
    if frames == [] || |frames[0]| > MAX_HELPER_FRAME_SIZE then 0 else 1 + Acceptable(frames[1..])
  }

  ghost predicate AllWellFormed(frames: seq<seq<Byte>>) {
    forall i :: 0 <= i < |frames| ==> WellFormed(frames[i])
  }

  /** The bytes that have not reached the receiver. */
  function Outstanding(link: Link): seq<Byte> {
    link.wire + link.sending + Flat(link.queue)
  }

  /** Nothing is lost, duplicated or reordered. */
  ghost predicate Inv(frames: seq<seq<Byte>>, link: Link) {
    var k := |link.delivered|;
    && k <= Acceptable(frames) <= |frames|
    && link.delivered == frames[..k]
    && Flat(frames[k..]) == link.got + Outstanding(link)
    && (link.refused ==> k == Acceptable(frames) < |frames|)
    && (!link.refused ==> Need(link.got) > 0)
    && (!link.refused && |link.got| >= 4 ==> FromBigEndian(link.got[..4]) <= MAX_HELPER_FRAME_SIZE - 4)
  }

  lemma {:induction false} AcceptableBound(frames: seq<seq<Byte>>)
    ensures Acceptable(frames) <= |frames|
    ensures forall i :: 0 <= i < Acceptable(frames) ==> |frames[i]| <= MAX_HELPER_FRAME_SIZE
    ensures Acceptable(frames) < |frames| ==> |frames[Acceptable(frames)]| > MAX_HELPER_FRAME_SIZE
  {
    if frames != [] && |frames[0]| <= MAX_HELPER_FRAME_SIZE {
      AcceptableBound(frames[1..]);
      assert forall i :: 0 < i < |frames| ==> frames[i] == frames[1..][i - 1];
    }
  }

  lemma SendKeepsInv(frames: seq<seq<Byte>>, link: Link, n: nat)
    requires Inv(frames, link)
    ensures Inv(frames, Step(link, Send(n)))
  {
    assert Outstanding(Step(link, Send(n))) == Outstanding(link) by {
      var link' := Step(link, Send(n));
      if link.sending != [] {
        var k := Clip(n, |link.sending|);
        assert link.wire + link.sending == (link.wire + link.sending[..k]) + link.sending[k..];
      } else if link.queue != [] {
        assert link.wire + [] + Flat(link.queue) == link.wire + link'.sending + Flat(link'.queue);
      }
    }
  }

  /** The receiver's buffer is the beginning of the next frame. */
  lemma GotIsPrefix(frames: seq<seq<Byte>>, k: nat, got: seq<Byte>, rest: seq<Byte>)
    requires AllWellFormed(frames) && k <= |frames| && Flat(frames[k..]) == got + rest && got != []
    ensures k < |frames| && Flat(frames[k..]) == frames[k] + Flat(frames[k + 1..])
    ensures |got| <= |frames[k]| ==> got == frames[k][..|got|]
    ensures |got| >= 4 ==> FromBigEndian(got[..4]) == |frames[k]| - 4
  {
    var all := Flat(frames[k..]);
    assert frames[k..] != [];
    assert frames[k..][0] == frames[k] && frames[k..][1..] == frames[k + 1..];
    assert all == frames[k] + Flat(frames[k + 1..]);
    assert got == all[..|got|];
    if |got| <= |frames[k]| {
      assert got == frames[k][..|got|];
    }
    if |got| >= 4 {
      assert got[..4] == all[..4] == frames[k][..4];
    }
  }

  lemma RecvKeepsInv(frames: seq<seq<Byte>>, link: Link, n: nat)
    requires AllWellFormed(frames) && Inv(frames, link)
    ensures Inv(frames, Step(link, Recv(n)))
  {
    var most := if Need(link.got) < |link.wire| then Need(link.got) else |link.wire|;
    if !link.refused && most > 0 {
      var c := Clip(n, most);
      var mid := link.(got := link.got + link.wire[..c], wire := link.wire[c..]);
      TakeKeepsBytes(link, mid, c);
      SettleKeepsInv(frames, link, mid);
    }
  }

  lemma TakeKeepsBytes(link: Link, mid: Link, c: nat)
    requires c <= |link.wire| && mid == link.(got := link.got + link.wire[..c], wire := link.wire[c..])
    ensures mid.got + Outstanding(mid) == link.got + Outstanding(link)
    ensures mid.got[..|link.got|] == link.got
  {
    assert link.wire == link.wire[..c] + link.wire[c..];
  }

  lemma FrameCut(frames: seq<seq<Byte>>, k: nat, rest: seq<Byte>)
    requires k < |frames| && Flat(frames[k..]) == frames[k] + rest
    ensures Flat(frames[k + 1..]) == rest
    ensures frames[..k] + [frames[k]] == frames[..k + 1]
  {
    assert frames[k..][0] == frames[k] && frames[k..][1..] == frames[k + 1..];
    assert (frames[k] + rest)[|frames[k]|..] == rest;
    assert (frames[k] + Flat(frames[k + 1..]))[|frames[k]|..] == Flat(frames[k + 1..]);
  }

  /** The receiver never holds more than the frame it is reading. */
  lemma GotBounded(before: seq<Byte>, got: seq<Byte>)
    requires |before| <= |got| <= |before| + Need(before) && before == got[..|before|]
    requires Need(before) > 0
    ensures |got| >= 4 ==> |got| <= 4 + FromBigEndian(got[..4])
  {
    if |before| >= 4 {
      assert before[..4] == got[..4];
    }
  }

  lemma SettleKeepsInv(frames: seq<seq<Byte>>, link: Link, mid: Link)
    requires AllWellFormed(frames) && Inv(frames, link) && !link.refused
    requires mid == link.(got := mid.got, wire := mid.wire) && mid.got != []
    requires Flat(frames[|link.delivered|..]) == mid.got + Outstanding(mid)
    requires |mid.got| <= |link.got| + Need(link.got) && |link.got| <= |mid.got| && link.got == mid.got[..|link.got|]
    ensures Inv(frames, Settle(mid))
  {
    var k, rest := |link.delivered|, Outstanding(mid);
    assert Outstanding(Settle(mid)) == rest;
    GotIsPrefix(frames, k, mid.got, rest);
    GotBounded(link.got, mid.got);
    AcceptableBound(frames);
    if |mid.got| >= 4 && FromBigEndian(mid.got[..4]) <= MAX_HELPER_FRAME_SIZE - 4 && Need(mid.got) == 0 {
      assert mid.got == frames[k];
      FrameCut(frames, k, rest);
      assert [] + rest == rest;
    }
  }

  lemma {:induction false} RunInv(frames: seq<seq<Byte>>, moves: seq<Move>)
    requires AllWellFormed(frames)
    ensures Inv(frames, Run(Start(frames), moves))
  {
    if moves == [] {
      AcceptableBound(frames);
      assert frames[0..] == frames && frames[..0] == [];
      assert Outstanding(Start(frames)) == Flat(frames);
    } else {
      var n := |moves| - 1;
      RunInv(frames, moves[..n]);
      match moves[n]
      case Send(k) => SendKeepsInv(frames, Run(Start(frames), moves[..n]), k);
      case Recv(k) => RecvKeepsInv(frames, Run(Start(frames), moves[..n]), k);
    }
  }

  /** Neither end can move. */
  ghost predicate Quiet(link: Link) {
    forall move :: Step(link, move) == link
  }

  /** For any frames, any splitting of the sends and any splitting of the receives, at any moment:
      the frames delivered are the first ones sent, in order and whole, and the receiver refuses
      only when it has reached a frame above the helper's size limit. */
  lemma DeliveredInOrder(frames: seq<seq<Byte>>, moves: seq<Move>)
    requires AllWellFormed(frames)
    ensures var link := Run(Start(frames), moves);
            && link.delivered <= frames
            && |link.delivered| <= Acceptable(frames)
            && (link.refused ==> |link.delivered| == Acceptable(frames) < |frames|)
  {
    RunInv(frames, moves);
  }

  /** When nothing moves any more, exactly the frames before the first oversized one have been
      delivered; all of them have, with no byte left anywhere, if and only if none is oversized. */
  lemma QuietMeansDelivered(frames: seq<seq<Byte>>, moves: seq<Move>)
    requires AllWellFormed(frames) && Quiet(Run(Start(frames), moves))
    ensures var link := Run(Start(frames), moves);
            && link.delivered == frames[..Acceptable(frames)]
            && (link.delivered == frames <==> forall i :: 0 <= i < |frames| ==> |frames[i]| <= MAX_HELPER_FRAME_SIZE)
            && (link.delivered == frames ==> link == Link([], [], [], [], frames, false))
            && (link.delivered != frames ==> link.refused)
  {
    var link := Run(Start(frames), moves);
    RunInv(frames, moves);
    AcceptableBound(frames);
    QuietIsDrained(link);
    var k := |link.delivered|;
    if !link.refused {
      assert Outstanding(link) == [] && link.got + [] == link.got;
      SomeFrameIsWhole(frames, k, link.got);
      assert k == |frames|;
      assert frames[k..] == [] && frames[..k] == frames;
    } else {
      assert frames[..k] != frames by { assert |frames[..k]| == k; }
    }
  }

  // ------------------------------------------------------------------
  // Every link becomes quiet
  // ------------------------------------------------------------------

  function Queued(queue: seq<seq<Byte>>): nat {
    if queue == [] then 0 else 1 + 2 * |queue[0]| + Queued(queue[1..])
  }

  /** How much is left to move: a byte not yet sent moves twice, and a frame is begun once. */
  function Left(link: Link): nat {
    |link.wire| + 2 * |link.sending| + Queued(link.queue)
  }

  /** A measure falls on every move that changes the link. */
  lemma MovesRunOut(link: Link, move: Move)
    ensures Step(link, move) != link ==> Left(Step(link, move)) < Left(link)
  {
  }

  /** The moves of a run that changed the link. */
  function Changes(link: Link, moves: seq<Move>): nat {
    if moves == [] then 0
    else
      var before := Run(link, moves[..|moves| - 1]);
      Changes(link, moves[..|moves| - 1]) + if Step(before, moves[|moves| - 1]) == before then 0 else 1
  }

  /** No run, however long, changes a link more often than what it has left at the start. */
  lemma {:induction false} ChangesBounded(link: Link, moves: seq<Move>)
    ensures Changes(link, moves) + Left(Run(link, moves)) <= Left(link)
  {
    if moves != [] {
      var n := |moves| - 1;
      ChangesBounded(link, moves[..n]);
      MovesRunOut(Run(link, moves[..n]), moves[n]);
    }
  }

  lemma {:induction false} RunInTurn(link: Link, a: seq<Move>, b: seq<Move>)
    ensures Run(link, a + b) == Run(Run(link, a), b)
  {
    if b == [] {
      assert a + b == a;
    } else {
      var m := |b| - 1;
      assert (a + b)[..|a| + m] == a + b[..m];
      RunInTurn(link, a, b[..m]);
    }
  }

  /** From every link some moves lead to a quiet one. */
  lemma {:induction false} BecomesQuiet(link: Link) returns (moves: seq<Move>)
    ensures Quiet(Run(link, moves))
    decreases Left(link)
  {
    if Quiet(link) {
      moves := [];
    } else {
      var move :| Step(link, move) != link;
      MovesRunOut(link, move);
      var more := BecomesQuiet(Step(link, move));
      moves := [move] + more;
      RunInTurn(link, [move], more);
      assert [move][..0] == [] && Run(link, [move]) == Step(link, move);
    }
  }

  /** However a run has gone so far, it can go on until nothing moves, and then exactly the frames before
      the first oversized one have arrived. */
  lemma EveryRunDelivers(frames: seq<seq<Byte>>, moves: seq<Move>) returns (more: seq<Move>)
    requires AllWellFormed(frames)
    ensures Quiet(Run(Start(frames), moves + more))
    ensures Run(Start(frames), moves + more).delivered == frames[..Acceptable(frames)]
  {
    more := BecomesQuiet(Run(Start(frames), moves));
    RunInTurn(Start(frames), moves, more);
    QuietMeansDelivered(frames, moves + more);
  }

  lemma SenderMoves(link: Link)
    requires link.sending != [] || link.queue != []
    ensures Step(link, Send(1)) != link
  {
    var s := Step(link, Send(1));
    assert link.sending != [] ==> |s.sending| < |link.sending|;
    assert link.sending == [] ==> |s.queue| < |link.queue|;
  }

  lemma ReceiverMoves(link: Link)
    requires !link.refused && link.wire != [] && Need(link.got) > 0
    ensures Step(link, Recv(1)) != link
  {
    assert |Step(link, Recv(1)).wire| < |link.wire|;
  }

  lemma QuietIsDrained(link: Link)
    requires Quiet(link) && (!link.refused ==> Need(link.got) > 0)
    ensures link.sending == [] && link.queue == []
    ensures !link.refused ==> link.wire == []
  {
    assert Step(link, Send(1)) == link && Step(link, Recv(1)) == link;
    if link.sending != [] || link.queue != [] {
      SenderMoves(link);
    }
    if !link.refused && link.wire != [] {
      ReceiverMoves(link);
    }
  }

  /** A buffer that holds all the bytes of some remaining frames has at least one whole frame. */
  lemma SomeFrameIsWhole(frames: seq<seq<Byte>>, k: nat, got: seq<Byte>)
    requires AllWellFormed(frames) && k <= |frames| && Flat(frames[k..]) == got
    ensures k < |frames| ==> Need(got) == 0
  {
    if k < |frames| {
      assert frames[k..][0] == frames[k] && frames[k..][1..] == frames[k + 1..];
      assert got == frames[k] + Flat(frames[k + 1..]);
      assert got == got + [];
      GotIsPrefix(frames, k, got, []);
    }
  }

  // ------------------------------------------------------------------
  // The loops
  // ------------------------------------------------------------------

  datatype RecvResult = Frame(bytes: seq<Byte>) | FrameTooLarge(size: nat) | PeerClosed

  /** One direction of the connection: the bytes sent and not yet received. */
  class Stream {
    var wire: seq<Byte>

    constructor ()
      ensures wire == []
    {
      wire := [];
    }

    /** `send_response` and `send_request` on an encoded frame. Each `send` takes as many bytes as
        the kernel likes; zero means the peer is gone. */
    method SendFrame(frame: seq<Byte>) returns (ok: bool)
      modifies this
      ensures ok ==> wire == old(wire) + frame
      ensures !ok ==> exists k :: 0 <= k < |frame| && wire == old(wire) + frame[..k]
    {
      var sent := 0;
      assert frame[..0] == [];
      while sent < |frame|
        invariant 0 <= sent <= |frame| && wire == old(wire) + frame[..sent]
      {
        var n: nat :| n <= |frame| - sent;
        if n == 0 {
          return false;
        }
        wire := wire + frame[sent..sent + n];
        assert frame[..sent] + frame[sent..sent + n] == frame[..sent + n];
        sent := sent + n;
      }
      assert frame[..sent] == frame;
      ok := true;
    }

    /** `recv_exact`: each `recv` brings at least one byte unless the stream has ended. */
    method RecvExact(len: nat) returns (ok: bool, buf: seq<Byte>)
      modifies this
      ensures ok <==> len <= |old(wire)|
      ensures ok ==> buf == old(wire)[..len] && wire == old(wire)[len..]
      ensures !ok ==> wire == []
    {
      buf := [];
      ok := true;
      while |buf| < len
        invariant |buf| <= len && |buf| <= |old(wire)|
        invariant buf == old(wire)[..|buf|] && wire == old(wire)[|buf|..]
        decreases len - |buf|
      {
        if wire == [] {
          return false, buf;
        }
        var n: nat :| 1 <= n <= len - |buf| && n <= |wire|;
        buf, wire := buf + wire[..n], wire[n..];
      }
    }

    /** The STREAM form of `recv_frame`. */
    method RecvFrame() returns (r: RecvResult)
      modifies this
      ensures r == NextFrame(old(wire)).0 && wire == NextFrame(old(wire)).1
    {
      var ok, header := RecvExact(4);
      if !ok {
        return PeerClosed;
      }
      var body := FromBigEndian(header);
      if body > MAX_HELPER_FRAME_SIZE - 4 {
        return FrameTooLarge(body + 4);
      }
      var rest;
      ok, rest := RecvExact(body);
      if !ok {
        return PeerClosed;
      }
      r := Frame(header + rest);
    }
  }

  /** What a receive call returns on a stream that holds `wire`, and what it leaves. */
  function NextFrame(wire: seq<Byte>): (RecvResult, seq<Byte>) {
    if |wire| < 4 then (PeerClosed, [])
    else
      var body := FromBigEndian(wire[..4]);
      if body > MAX_HELPER_FRAME_SIZE - 4 then (FrameTooLarge(body + 4), wire[4..])
      else if |wire| < 4 + body then (PeerClosed, [])
      else (Frame(wire[..4] + wire[4..][..body]), wire[4..][body..])
  }

  /** A receive takes exactly the next frame off the stream; an oversized frame is refused after
      its header has been consumed, which leaves the stream out of step. */
  lemma NextFrameTakesOne(frame: seq<Byte>, rest: seq<Byte>)
    requires WellFormed(frame)
    ensures NextFrame(frame + rest) ==
      if |frame| <= MAX_HELPER_FRAME_SIZE then (Frame(frame), rest)
      else (FrameTooLarge(|frame|), frame[4..] + rest)
  {
    var wire, body := frame + rest, |frame| - 4;
    assert wire[..4] == frame[..4];
    assert wire[4..] == frame[4..] + rest;
    assert (frame[4..] + rest)[..body] == frame[4..] && (frame[4..] + rest)[body..] == rest;
    assert frame[..4] + frame[4..] == frame;
  }

  /** What the encoder accepts the helper receives exactly up to its own, lower limit. */
  lemma EncodedReceivedIff(payload: seq<Byte>, rest: seq<Byte>)
    requires EncodeFrame(payload).Some?
    ensures var frame := EncodeFrame(payload).value;
      NextFrame(frame + rest) == (Frame(frame), rest) <==> |payload| <= 8187
  {
    FrameRoundTrip(payload);
    NextFrameTakesOne(EncodeFrame(payload).value, rest);
  }

  /** A payload of the helper's limit is encoded, and refused by the helper. */
  lemma EncodableFrameRefused()
    ensures var payload := seq(MAX_HELPER_FRAME_SIZE, _ => 0);
      var frame := EncodeFrame(payload);
      frame.Some? && WellFormed(frame.value) && NextFrame(frame.value).0 == FrameTooLarge(|frame.value|)
  {
    var payload: seq<Byte> := seq(MAX_HELPER_FRAME_SIZE, _ => 0);
    FrameRoundTrip(payload);
    var frame := EncodeFrame(payload).value;
    NextFrameTakesOne(frame, []);
    assert frame + [] == frame;
  }
}
