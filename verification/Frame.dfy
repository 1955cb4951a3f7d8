/** The bridge's wire frames: crates/mmbus-bridge/src/frame.rs. */
module Frame {
  import opened Bytes

  const FRAME_VERSION: nat := 1
  const HEADER_LEN: nat := 4 + 4 + 8 + 8
  const MAX_FRAME_LEN: nat := 16 * 1024 * 1024

  datatype FrameType = Msg | Ping | TopicSubscribe | PeerHello

  datatype Frame = Frame(frameType: FrameType, originId: u64, originSeq: u64, topic: seq<byte>, payload: seq<byte>)

  datatype DecodeError =
    | Incomplete(have: nat, needed: nat)
    | UnsupportedVersion(version: nat)
    | UnknownFrameType(discriminant: nat)
    | TooLarge(size: nat)
    | ShortPeerHello(payloadLen: nat)

  datatype Decoded = Ok(frame: Frame, consumed: nat) | Err(error: DecodeError)

  function TypeCode(t: FrameType): u32 {
    match t case Msg => 0 case Ping => 1 case TopicSubscribe => 2 case PeerHello => 3
  }

  function FromCode(n: nat): Option<FrameType> {
    if n == 0 then Some(Msg) else if n == 1 then Some(Ping)
    else if n == 2 then Some(TopicSubscribe) else if n == 3 then Some(PeerHello) else None
  }

  function EncodedLen(f: Frame): nat {
    HEADER_LEN + 4 + |f.topic| + 4 + |f.payload|
  }

  /** The fixed part of a frame: header and topic length. */
  function Head(code: nat, originId: nat, originSeq: nat, topicLen: nat): (h: seq<byte>)
    ensures |h| == HEADER_LEN + 4
    ensures h[..4] == LE(FRAME_VERSION, 4) && h[4..8] == LE(code, 4)
    ensures h[8..16] == LE(originId, 8) && h[16..24] == LE(originSeq, 8) && h[24..28] == LE(topicLen, 4)
  {
    LE(FRAME_VERSION, 4) + LE(code, 4) + LE(originId, 8) + LE(originSeq, 8) + LE(topicLen, 4)
  }

  /** The bytes `encode` appends; the length fields are truncated to 32 bits as the casts do. */
  function Encode(f: Frame): (b: seq<byte>)
    ensures |b| == EncodedLen(f)
  {
    Head(TypeCode(f.frameType), f.originId, f.originSeq, |f.topic|) + f.topic + LE(|f.payload|, 4) + f.payload
  }

  function Decode(buf: seq<byte>): Decoded {
    if |buf| < HEADER_LEN + 4 then Err(Incomplete(|buf|, HEADER_LEN + 4))
    else
      var version := FromLE(buf[0..4]);
      if version != FRAME_VERSION then Err(UnsupportedVersion(version))
      else
        var code := FromLE(buf[4..8]);
        match FromCode(code)
        case None => Err(UnknownFrameType(code))
        case Some(t) =>
          var topicLen := FromLE(buf[24..28]);
          var afterTopic := HEADER_LEN + 4 + topicLen;
          if topicLen > MAX_FRAME_LEN then Err(TooLarge(topicLen))
          else if |buf| < afterTopic + 4 then Err(Incomplete(|buf|, afterTopic + 4))
          else
            var payloadLen := FromLE(buf[afterTopic..afterTopic + 4]);
            if payloadLen > MAX_FRAME_LEN then Err(TooLarge(payloadLen))
            else
              var total := afterTopic + 4 + payloadLen;
              if total > MAX_FRAME_LEN then Err(TooLarge(total))
              else if |buf| < total then Err(Incomplete(|buf|, total))
              else
                Decoded64(buf[8..16]); Decoded64(buf[16..24]);
                Ok(Frame(t, FromLE(buf[8..16]), FromLE(buf[16..24]),
                         buf[HEADER_LEN + 4..afterTopic], buf[afterTopic + 4..total]), total)
  }

  predicate WaitsForMore(d: Decoded) { d.Err? && d.error.Incomplete? }

  /** Where each field of an encoding sits, whatever follows it. */
  lemma {:induction false} Layout(f: Frame, rest: seq<byte>)
    ensures var buf, at := Encode(f) + rest, HEADER_LEN + 4 + |f.topic|;
            && buf[0..4] == LE(FRAME_VERSION, 4) && buf[4..8] == LE(TypeCode(f.frameType), 4)
            && buf[8..16] == LE(f.originId, 8) && buf[16..24] == LE(f.originSeq, 8)
            && buf[24..28] == LE(|f.topic|, 4) && buf[28..at] == f.topic
            && buf[at..at + 4] == LE(|f.payload|, 4) && buf[at + 4..at + 4 + |f.payload|] == f.payload
  {
    var buf := Encode(f) + rest;
    var head := Head(TypeCode(f.frameType), f.originId, f.originSeq, |f.topic|);
    assert buf[..28] == head;
    assert buf[0..4] == head[..4] && buf[4..8] == head[4..8] && buf[8..16] == head[8..16];
    assert buf[16..24] == head[16..24] && buf[24..28] == head[24..28];
  }

  /** Decoding an encoding gives the frame back exactly when the frame is within the size cap. */
  lemma {:induction false} DecodeEncode(f: Frame, rest: seq<byte>)
    requires |f.topic| < U32 && |f.payload| < U32
    ensures Decode(Encode(f) + rest) == Ok(f, EncodedLen(f)) <==> EncodedLen(f) <= MAX_FRAME_LEN
    ensures EncodedLen(f) > MAX_FRAME_LEN ==>
              Decode(Encode(f) + rest).Err? && Decode(Encode(f) + rest).error.TooLarge?
  {
    hide LE, FromLE, Pow256;
    Layout(f, rest);
    RoundTrip32(FRAME_VERSION); RoundTrip32(TypeCode(f.frameType));
    RoundTrip64(f.originId); RoundTrip64(f.originSeq);
    RoundTrip32(|f.topic|); RoundTrip32(|f.payload|);
  }

  /** Bytes that hold the fields of a frame in the places of `Layout` are its encoding. */
  lemma {:induction false} Assemble(buf: seq<byte>, f: Frame)
    requires var at := HEADER_LEN + 4 + |f.topic|;
             && |buf| == EncodedLen(f)
             && buf[0..4] == LE(FRAME_VERSION, 4) && buf[4..8] == LE(TypeCode(f.frameType), 4)
             && buf[8..16] == LE(f.originId, 8) && buf[16..24] == LE(f.originSeq, 8)
             && buf[24..28] == LE(|f.topic|, 4) && buf[28..at] == f.topic
             && buf[at..at + 4] == LE(|f.payload|, 4) && buf[at + 4..] == f.payload
    ensures buf == Encode(f)
  {
    hide LE;
    var at := HEADER_LEN + 4 + |f.topic|;
    var head := Head(TypeCode(f.frameType), f.originId, f.originSeq, |f.topic|);
    assert buf[..28] == buf[0..4] + buf[4..8] + buf[8..16] + buf[16..24] + buf[24..28];
    assert buf[..28] == head;
    assert buf == buf[..28] + buf[28..at] + buf[at..at + 4] + buf[at + 4..];
  }

  /** Accepted bytes are exactly the encoding of the accepted frame, which is within the cap. */
  lemma {:induction false} EncodeDecode(buf: seq<byte>)
    requires Decode(buf).Ok?
    ensures Decode(buf).consumed == EncodedLen(Decode(buf).frame) <= |buf|
    ensures EncodedLen(Decode(buf).frame) <= MAX_FRAME_LEN
    ensures buf[..Decode(buf).consumed] == Encode(Decode(buf).frame)
  {
    hide LE, FromLE, Pow256;
    var Ok(f, n) := Decode(buf);
    var at := HEADER_LEN + 4 + |f.topic|;
    Decoded32(buf[0..4]); Decoded32(buf[4..8]); Decoded32(buf[24..28]); Decoded32(buf[at..at + 4]);
    Decoded64(buf[8..16]); Decoded64(buf[16..24]);
    var b := buf[..n];
    assert b[0..4] == buf[0..4] && b[4..8] == buf[4..8] && b[8..16] == buf[8..16] && b[16..24] == buf[16..24];
    assert b[24..28] == buf[24..28] && b[28..at] == buf[28..at] && b[at..at + 4] == buf[at..at + 4];
    assert b[at + 4..] == buf[at + 4..n];
    Assemble(b, f);
  }

  /** A frame or a hard error, once decided, is not changed by bytes that arrive later. */
  lemma {:induction false} DecisionIsStable(buf: seq<byte>, more: seq<byte>)
    ensures !WaitsForMore(Decode(buf)) ==> Decode(buf + more) == Decode(buf)
  {
    if |buf| >= HEADER_LEN + 4 {
      var ext := buf + more;
      assert ext[0..4] == buf[0..4] && ext[4..8] == buf[4..8] && ext[8..16] == buf[8..16];
      assert ext[16..24] == buf[16..24] && ext[24..28] == buf[24..28];
      var at := HEADER_LEN + 4 + FromLE(buf[24..28]);
      if at + 4 <= |buf| {
        assert ext[at..at + 4] == buf[at..at + 4] && ext[HEADER_LEN + 4..at] == buf[HEADER_LEN + 4..at];
        var total := at + 4 + FromLE(buf[at..at + 4]);
        if total <= |buf| { assert ext[at + 4..total] == buf[at + 4..total]; }
      }
    }
  }

  /** With a whole header, a version or a type that this reader does not know is final: no later byte is waited for. */
  lemma {:induction false} UnknownIsFinal(buf: seq<byte>, more: seq<byte>)
    requires |buf| >= HEADER_LEN + 4
    ensures FromLE(buf[0..4]) != FRAME_VERSION ==>
              Decode(buf + more) == Err(UnsupportedVersion(FromLE(buf[0..4])))
    ensures FromLE(buf[0..4]) == FRAME_VERSION && FromLE(buf[4..8]) > 3 ==>
              Decode(buf + more) == Err(UnknownFrameType(FromLE(buf[4..8])))
  {
    hide FromLE;
    DecisionIsStable(buf, more);
  }

  /** The least size of a frame that begins like this: what of a payload length is there counts, the rest of it can
      be zero. */
  function Least(buf: seq<byte>): nat
    requires |buf| >= HEADER_LEN + 4
  {
    var at := HEADER_LEN + 4 + FromLE(buf[24..28]);
    at + 4 + if |buf| <= at then 0 else FromLE(buf[at..if |buf| < at + 4 then |buf| else at + 4])
  }

  /** What waiting is for, once the header is there: some continuation is a frame exactly if nothing is wrong so far and
      the frame need not be larger than one may be. `decode` looks at a payload length only when it is whole, so for up
      to three bytes it can wait for a frame that cannot come. */
  lemma {:induction false} CompletesIff(buf: seq<byte>)
    requires |buf| >= HEADER_LEN + 4
    ensures (exists more :: Decode(buf + more).Ok?) <==>
            Decode(buf).Ok? || (WaitsForMore(Decode(buf)) && Least(buf) <= MAX_FRAME_LEN)
  {
    if Decode(buf).Ok? {
      assert buf + [] == buf;
      assert Decode(buf + []).Ok?;
    } else if WaitsForMore(Decode(buf)) && Least(buf) <= MAX_FRAME_LEN {
      var more := Completion(buf);
    } else if exists more :: Decode(buf + more).Ok? {
      var more :| Decode(buf + more).Ok?;
      DecisionIsStable(buf, more);
      LeastOfFrame(buf, more);
      assert false;
    }
  }

  lemma {:induction false} SameHeader(buf: seq<byte>, more: seq<byte>)
    requires |buf| >= HEADER_LEN + 4
    ensures var ext := buf + more;
            ext[0..4] == buf[0..4] && ext[4..8] == buf[4..8] && ext[24..28] == buf[24..28]
  {
  }

  lemma {:induction false} LeastOfFrame(buf: seq<byte>, more: seq<byte>)
    requires |buf| >= HEADER_LEN + 4 && Decode(buf + more).Ok?
    ensures Least(buf) <= MAX_FRAME_LEN
  {
    hide FromLE, Pow256;
    SameHeader(buf, more);
    var ext, at := buf + more, HEADER_LEN + 4 + FromLE(buf[24..28]);
    if |buf| >= at + 4 {
      assert ext[at..at + 4] == buf[at..at + 4];
    } else if |buf| > at {
      assert ext[at..at + 4] == buf[at..] + ext[|buf|..at + 4] && buf[at..] == buf[at..|buf|];
      FromLEConcat(buf[at..], ext[|buf|..at + 4]);
      AtLeastFirst(FromLE(buf[at..]), Pow256(|buf| - at), FromLE(ext[|buf|..at + 4]));
    }
  }

  lemma {:induction false} AtLeastFirst(x: nat, p: nat, y: nat)
    ensures x + p * y >= x
  {
  }

  /** A continuation that makes a frame: zeros up to the least size. */
  lemma {:induction false} Completion(buf: seq<byte>) returns (more: seq<byte>)
    requires |buf| >= HEADER_LEN + 4 && WaitsForMore(Decode(buf)) && Least(buf) <= MAX_FRAME_LEN
    ensures Decode(buf + more).Ok?
  {
    hide FromLE, Pow256;
    var at := HEADER_LEN + 4 + FromLE(buf[24..28]);
    more := seq(Least(buf) - |buf|, _ => 0);
    SameHeader(buf, more);
    var ext := buf + more;
    if |buf| >= at + 4 {
      assert ext[at..at + 4] == buf[at..at + 4];
    } else if |buf| <= at {
      assert ext[at..at + 4] == [0, 0, 0, 0];
      ZeroLength();
    } else {
      var zeros := ext[|buf|..at + 4];
      assert forall i :: 0 <= i < |zeros| ==> zeros[i] == 0;
      assert ext[at..at + 4] == buf[at..] + zeros && buf[at..] == buf[at..|buf|];
      FromLEConcat(buf[at..], zeros);
      FromZeros(zeros);
    }
  }

  lemma {:induction false} FromZeros(s: seq<byte>)
    requires forall i :: 0 <= i < |s| ==> s[i] == 0
    ensures FromLE(s) == 0
  {
    if s != [] { FromZeros(s[1..]); }
  }

  /** `needed` asks for more than there is, and never for more than any extension that decides has. */
  lemma {:induction false} NeededIsTight(buf: seq<byte>, more: seq<byte>)
    requires WaitsForMore(Decode(buf))
    ensures Decode(buf).error.have == |buf| < Decode(buf).error.needed
    ensures !WaitsForMore(Decode(buf + more)) ==> Decode(buf).error.needed <= |buf| + |more|
    ensures Decode(buf + more).Ok? ==> Decode(buf).error.needed <= Decode(buf + more).consumed
  {
    if |buf| >= HEADER_LEN + 4 {
      var ext := buf + more;
      assert ext[0..4] == buf[0..4] && ext[4..8] == buf[4..8] && ext[24..28] == buf[24..28];
      var at := HEADER_LEN + 4 + FromLE(buf[24..28]);
      if at + 4 <= |buf| { assert ext[at..at + 4] == buf[at..at + 4]; }
    }
  }

  // ── PeerHello payloads ──────────────────────────────────────────────────────

  datatype Hello = HelloOk(originId: u64, psk: seq<byte>) | HelloErr(error: DecodeError)

  /** Origin id, key length as a u16, key. */
  function HelloPayload(originId: u64, psk: seq<byte>): seq<byte> {
    LE(originId, 8) + LE(|psk|, 2) + psk
  }

  /** Where the fields of a hello sit. */
  lemma {:induction false} HelloLayout(originId: u64, psk: seq<byte>)
    ensures var p := HelloPayload(originId, psk);
            |p| == 10 + |psk| && FromLE(p[0..8]) == originId && FromLE(p[8..10]) == |psk| % U16 && p[10..] == psk
  {
    hide LE, FromLE;
    var p := HelloPayload(originId, psk);
    assert p[0..8] == LE(originId, 8) && p[8..10] == LE(|psk|, 2);
    RoundTrip64(originId); FromLEOfLE(|psk|, 2); Widths();
  }

  function PeerHelloWithPsk(originId: u64, psk: seq<byte>): Frame {
    Frame(PeerHello, originId, 0, [], HelloPayload(originId, psk))
  }

  function ParsePeerHello(payload: seq<byte>): Hello {
    if |payload| < 10 then HelloErr(ShortPeerHello(|payload|))
    else
      var pskLen := FromLE(payload[8..10]);
      if |payload| < 10 + pskLen then HelloErr(ShortPeerHello(|payload|))
      else
        Decoded64(payload[0..8]);
        HelloOk(FromLE(payload[0..8]), payload[10..10 + pskLen])
  }

  /** The key length is written as a u16, so a hello parses back exactly when the key is shorter than 65536
      bytes; a longer key comes back cut to its length modulo 65536. */
  lemma {:induction false} HelloRoundTrip(originId: u64, psk: seq<byte>)
    ensures ParsePeerHello(HelloPayload(originId, psk)) == HelloOk(originId, psk[..|psk| % U16])
    ensures ParsePeerHello(HelloPayload(originId, psk)) == HelloOk(originId, psk) <==> |psk| < U16
  {
    var p := HelloPayload(originId, psk);
    assert p[0..8] == LE(originId, 8) && p[8..10] == LE(|psk|, 2);
    RoundTrip64(originId); FromLEOfLE(|psk|, 2); Widths();
    var n := |psk| % U16;
    assert p[10..10 + n] == psk[..n];
    if |psk| < U16 { assert psk[..n] == psk; }
  }
}
