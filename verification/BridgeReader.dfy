/** The per-connection reader of the bridge: crates/mmbus-bridge/src/bridge.rs, `reader_main` and `handle_frame`. */
module BridgeReader {
  import opened Bytes
  import opened Frame

  /** What the reader is started with; `utf8` is the validity test of section 4 of RFC 3629. */
  datatype Config = Config(
    ourOriginId: u64,
    receiveTopics: set<seq<byte>>,
    acceptedPsks: set<seq<byte>>,
    utf8: seq<byte> -> bool)

  /** What one turn of the outer loop meets: the shutdown flag, or the result of the socket read. */
  datatype Turn = Read(bytes: seq<byte>) | TimedOut | ReadFailed | ShutDown

  type Publication = (seq<byte>, seq<byte>)

  // ── The whole stream, decoded at once ───────────────────────────────────────

  datatype Parsed = Parsed(frames: seq<Frame>, rest: seq<byte>, error: DecodeError)

  /** Decode frame after frame until the first error. */
  function DecodeAll(s: seq<byte>): (p: Parsed)
    ensures Decode(p.rest) == Err(p.error)
    decreases |s|
  {
    match Decode(s)
    case Err(e) => Parsed([], s, e)
    case Ok(f, n) =>
      EncodeDecode(s);
      var p := DecodeAll(s[n..]);
      Parsed([f] + p.frames, p.rest, p.error)
  }

  function EncodeAll(fs: seq<Frame>): seq<byte> {
    if fs == [] then [] else Encode(fs[0]) + EncodeAll(fs[1..])
  }

  predicate Accepts(cfg: Config, f: Frame) {
    && f.frameType.PeerHello?
    && var h := ParsePeerHello(f.payload);
    h.HelloOk? && h.psk in cfg.acceptedPsks
  }

  predicate Forwards(cfg: Config, f: Frame) {
    f.originId != cfg.ourOriginId && f.frameType.Msg? && cfg.utf8(f.topic) && f.topic in cfg.receiveTopics
  }

  /** The messages of `fs` that reach the publisher, in order. */
  function Forwarded(cfg: Config, fs: seq<Frame>): seq<Publication> {
    if fs == [] then []
    else (if Forwards(cfg, fs[0]) then [(fs[0].topic, fs[0].payload)] else []) + Forwarded(cfg, fs[1..])
  }

  /** What a connection that delivers the frames `fs` publishes: nothing unless the first is an accepted hello. */
  function Session(cfg: Config, fs: seq<Frame>): seq<Publication> {
    if fs != [] && Accepts(cfg, fs[0]) then Forwarded(cfg, fs[1..]) else []
  }

  /** The bytes the connection received before it ended; a read of no bytes is the peer closing. */
  function StreamOf(turns: seq<Turn>): seq<byte> {
    if turns == [] then []
    else match turns[0]
      case Read(b) => if b == [] then [] else b + StreamOf(turns[1..])
      case TimedOut => StreamOf(turns[1..])
      case ReadFailed => []
      case ShutDown => []
  }

  // ── Properties of the specification ─────────────────────────────────────────

  /** Later bytes only ever extend the decoding, and change nothing after a hard error. */
  lemma {:induction false} DecodeAllExtends(s: seq<byte>, more: seq<byte>)
    ensures var p := DecodeAll(s);
            DecodeAll(s + more) ==
            if p.error.Incomplete? then
              var q := DecodeAll(p.rest + more);
              Parsed(p.frames + q.frames, q.rest, q.error)
            else Parsed(p.frames, p.rest + more, p.error)
    decreases |s|
  {
    hide Decode, Encode;
    DecisionIsStable(s, more);
    if Decode(s).Ok? {
      var n := Decode(s).consumed;
      EncodeDecode(s);
      assert (s + more)[n..] == s[n..] + more;
      DecodeAllExtends(s[n..], more);
    }
  }

  /** Any list of frames within the size cap decodes back in order, followed by whatever comes after it. */
  lemma {:induction false} DecodeAllEncodeAll(fs: seq<Frame>, rest: seq<byte>)
    requires forall f :: f in fs ==> EncodedLen(f) <= MAX_FRAME_LEN
    ensures var q := DecodeAll(rest);
            DecodeAll(EncodeAll(fs) + rest) == Parsed(fs + q.frames, q.rest, q.error)
  {
    hide Decode, Encode, DecodeAll;
    if fs == [] {
      assert EncodeAll(fs) + rest == rest;
    } else {
      var after := EncodeAll(fs[1..]) + rest;
      assert EncodeAll(fs) + rest == Encode(fs[0]) + after;
      DecodeEncode(fs[0], after);
      DecodeOne(fs[0], after);
      DecodeAllEncodeAll(fs[1..], rest);
      assert fs + DecodeAll(rest).frames == [fs[0]] + (fs[1..] + DecodeAll(rest).frames);
    }
  }

  lemma {:induction false} DecodeOne(f: Frame, after: seq<byte>)
    requires Decode(Encode(f) + after) == Ok(f, |Encode(f)|)
    ensures var p := DecodeAll(after);
            DecodeAll(Encode(f) + after) == Parsed([f] + p.frames, p.rest, p.error)
  {
    hide Decode, Encode;
    assert (Encode(f) + after)[|Encode(f)|..] == after;
  }

  /** The decoded frames are exactly the bytes before the undecodable rest. */
  lemma {:induction false} EncodeAllDecodeAll(s: seq<byte>)
    ensures EncodeAll(DecodeAll(s).frames) + DecodeAll(s).rest == s
    decreases |s|
  {
    hide Decode, Encode;
    if Decode(s).Ok? {
      var Ok(f, n) := Decode(s);
      EncodeDecode(s);
      EncodeAllDecodeAll(s[n..]);
      assert DecodeAll(s).frames[1..] == DecodeAll(s[n..]).frames;
      assert s == s[..n] + s[n..];
    }
  }

  lemma {:induction false} ForwardedConcat(cfg: Config, a: seq<Frame>, b: seq<Frame>)
    ensures Forwarded(cfg, a + b) == Forwarded(cfg, a) + Forwarded(cfg, b)
  {
    if a == [] {
      assert a + b == b;
    } else {
      assert (a + b)[1..] == a[1..] + b;
      ForwardedConcat(cfg, a[1..], b);
    }
  }

  lemma {:induction false} SessionConcat(cfg: Config, a: seq<Frame>, b: seq<Frame>)
    requires a != []
    ensures Session(cfg, a + b) == Session(cfg, a) + if Accepts(cfg, a[0]) then Forwarded(cfg, b) else []
  {
    assert (a + b)[1..] == a[1..] + b;
    ForwardedConcat(cfg, a[1..], b);
  }

  /** `out` is what the frames at `idx` say: in their order, one publication a frame, topic first and payload second;
      and those are exactly the messages of others whose topic is a string and one of ours. */
  ghost predicate Corresponds(cfg: Config, fs: seq<Frame>, out: seq<Publication>, idx: seq<nat>) {
    && |idx| == |out| && (forall k :: 0 <= k < |idx| ==> idx[k] < |fs|)
    && (forall k, m :: 0 <= k < m < |idx| ==> idx[k] < idx[m])
    && (forall k :: 0 <= k < |idx| ==> out[k].0 == fs[idx[k]].topic && out[k].1 == fs[idx[k]].payload)
    && forall j :: 0 <= j < |fs| ==>
         (j in idx <==> fs[j].frameType == Msg && fs[j].originId != cfg.ourOriginId
                        && cfg.utf8(fs[j].topic) && fs[j].topic in cfg.receiveTopics)
  }

  lemma {:induction false} ForwardedCorresponds(cfg: Config, fs: seq<Frame>) returns (idx: seq<nat>)
    ensures Corresponds(cfg, fs, Forwarded(cfg, fs), idx)
  {
    if fs == [] { return []; }
    var n := |fs| - 1;
    idx := ForwardedCorresponds(cfg, fs[..n]);
    ForwardedConcat(cfg, fs[..n], [fs[n]]);
    ForwardedOne(cfg, fs[n]);
    CorrespondsMore(cfg, fs[..n], Forwarded(cfg, fs[..n]), idx, fs[n]);
    hide Forwarded, Corresponds;
    assert fs[..n] + [fs[n]] == fs;
    if Forwards(cfg, fs[n]) { idx := idx + [n]; } else { assert Forwarded(cfg, fs) == Forwarded(cfg, fs[..n]); }
  }

  lemma {:induction false} ForwardedOne(cfg: Config, f: Frame)
    ensures Forwarded(cfg, [f]) == if Forwards(cfg, f) then [(f.topic, f.payload)] else []
  {
  }

  lemma {:induction false} CorrespondsMore(cfg: Config, fs: seq<Frame>, out: seq<Publication>, idx: seq<nat>, f: Frame)
    requires Corresponds(cfg, fs, out, idx)
    ensures if Forwards(cfg, f) then Corresponds(cfg, fs + [f], out + [(f.topic, f.payload)], idx + [|fs|])
            else Corresponds(cfg, fs + [f], out, idx)
  {
    if |fs| in idx { assert false; }
  }

  /** What a connection may publish for the frames `fs`: nothing, unless the first is a hello with an accepted key;
      then what the frames behind it say. */
  ghost predicate Publishes(cfg: Config, fs: seq<Frame>, sent: seq<Publication>) {
    if fs != [] && fs[0].frameType == PeerHello && ParsePeerHello(fs[0].payload).HelloOk?
       && ParsePeerHello(fs[0].payload).psk in cfg.acceptedPsks
    then exists idx :: Corresponds(cfg, fs[1..], sent, idx)
    else sent == []
  }

  lemma {:induction false} SessionPublishes(cfg: Config, fs: seq<Frame>)
    ensures Publishes(cfg, fs, Session(cfg, fs))
  {
    hide Corresponds, Forwarded, ParsePeerHello;
    if fs != [] { var idx := ForwardedCorresponds(cfg, fs[1..]); }
  }

  /** A turn after which nothing more arrives: the shutdown, a failed read, or the peer closing. */
  predicate Ends(t: Turn) { t == ShutDown || t == ReadFailed || t == Read([]) }

  /** The stream turn by turn: what was read before the first turn that ends it, waiting contributes nothing. */
  lemma {:induction false} StreamIs(before: seq<Turn>, t: Turn, after: seq<Turn>)
    requires forall x :: x in before ==> !Ends(x)
    ensures var come := if t.Read? then t.bytes else [];
            StreamOf(before + [t] + after) == StreamOf(before) + come + if Ends(t) then [] else StreamOf(after)
    ensures StreamOf([]) == []
  {
    var all := before + [t] + after;
    if before == [] {
      assert all[0] == t && all[1..] == after;
    } else {
      assert before[0] in before;
      assert all[0] == before[0] && all[1..] == before[1..] + [t] + after;
      StreamIs(before[1..], t, after);
    }
  }

  /** End to end: a peer that sends an accepted hello and then `fs`, cut anywhere after them into frames that
      never complete, has published exactly the forwardable messages of `fs`, once each and in order. */
  lemma {:induction false} SentIsPublished(cfg: Config, originId: u64, psk: seq<byte>, fs: seq<Frame>,
          partial: seq<byte>, turns: seq<Turn>)
    requires |psk| < U16 && psk in cfg.acceptedPsks
    requires forall f :: f in fs ==> EncodedLen(f) <= MAX_FRAME_LEN
    requires WaitsForMore(Decode(partial))
    requires StreamOf(turns) == EncodeAll([PeerHelloWithPsk(originId, psk)] + fs) + partial
    ensures Session(cfg, DecodeAll(StreamOf(turns)).frames) == Forwarded(cfg, fs)
    ensures exists idx :: Corresponds(cfg, fs, Session(cfg, DecodeAll(StreamOf(turns)).frames), idx)
  {
    hide Decode, Encode;
    var all := [PeerHelloWithPsk(originId, psk)] + fs;
    HelloRoundTrip(originId, psk);
    DecodeAllEncodeAll(all, partial);
    assert DecodeAll(partial).frames == [];
    assert all + [] == all && all[1..] == fs;
    var idx := ForwardedCorresponds(cfg, fs);
  }

  // ── The reader ──────────────────────────────────────────────────────────────

  /** `handle_frame`: one publication for a message of another origin with a topic that is a string and one of ours,
      and none for any other frame. */
  method HandleFrame(cfg: Config, f: Frame) returns (out: seq<Publication>)
    ensures |out| <= 1
    ensures out != [] <==> f.frameType == Msg && f.originId != cfg.ourOriginId
                           && cfg.utf8(f.topic) && f.topic in cfg.receiveTopics
    ensures out != [] ==> out[0].0 == f.topic && out[0].1 == f.payload
    ensures out == Forwarded(cfg, [f])
  {
    out := [];
    if f.originId == cfg.ourOriginId { return; }
    match f.frameType {
      case Msg =>
        if !cfg.utf8(f.topic) { return; }
        if f.topic in cfg.receiveTopics { out := [(f.topic, f.payload)]; }
      case PeerHello =>
      case Ping =>
      case TopicSubscribe =>
    }
  }

  /** What one decode of the buffer tells about the decoding of all of it. */
  lemma {:induction false} DecodeAllStep(buf: seq<byte>)
    ensures Decode(buf).Err? ==> DecodeAll(buf) == Parsed([], buf, Decode(buf).error)
    ensures Decode(buf).Ok? ==> 0 < Decode(buf).consumed <= |buf|
    ensures Decode(buf).Ok? ==>
              var p := DecodeAll(buf[Decode(buf).consumed..]);
              DecodeAll(buf) == Parsed([Decode(buf).frame] + p.frames, p.rest, p.error)
  {
    hide Decode, Encode;
    if Decode(buf).Ok? { EncodeDecode(buf); }
  }

  lemma {:induction false} HelloAccepted(cfg: Config, f: Frame)
    requires f.frameType.PeerHello? && ParsePeerHello(f.payload).HelloOk?
    requires ParsePeerHello(f.payload).psk in cfg.acceptedPsks
    ensures Accepts(cfg, f) && Session(cfg, [f]) == []
  {
    assert [f][1..] == [];
  }

  lemma {:induction false} NoFrames(cfg: Config)
    ensures Session(cfg, []) == []
  {
  }

  lemma {:induction false} Nothing()
    ensures DecodeAll([]) == Parsed([], [], Incomplete(0, HEADER_LEN + 4))
  {
  }

  /** Once the first frame of what has arrived is refused, the session stays empty. */
  lemma {:induction false} RefusedForever(cfg: Config, s: seq<byte>, more: seq<byte>, first: Frame)
    requires DecodeAll(s).frames != [] && DecodeAll(s).frames[0] == first
    requires !first.frameType.PeerHello? || ParsePeerHello(first.payload).HelloErr? ||
             ParsePeerHello(first.payload).psk !in cfg.acceptedPsks
    ensures Session(cfg, DecodeAll(s + more).frames) == []
  {
    hide DecodeAll, ParsePeerHello;
    DecodeAllExtends(s, more);
  }

  /** `reader_main`: however the stream is split into reads, what is sent to the publisher is the session of
      the frames of the whole stream. */
  method ReaderMain(cfg: Config, turns: seq<Turn>) returns (sent: seq<Publication>)
    ensures sent == Session(cfg, DecodeAll(StreamOf(turns)).frames)
    ensures Publishes(cfg, DecodeAll(StreamOf(turns)).frames, sent)
  {
    SessionPublishes(cfg, DecodeAll(StreamOf(turns)).frames);
    hide Decode, Encode, Session, DecodeAll, Accepts, Publishes;
    sent := [];
    var buf: seq<byte> := [];
    var authenticated := false;
    ghost var total: seq<byte> := [];
    var i := 0;
    Nothing();
    NoFrames(cfg);
    while i < |turns|
      invariant i <= |turns|
      invariant StreamOf(turns) == total + StreamOf(turns[i..])
      invariant var p := DecodeAll(total);
                && p.rest == buf && p.error.Incomplete? && sent == Session(cfg, p.frames)
                && (authenticated <==> p.frames != []) && (p.frames != [] ==> Accepts(cfg, p.frames[0]))
    {
      var turn := turns[i];
      assert turns[i..][0] == turn && turns[i..][1..] == turns[i + 1..];
      i := i + 1;
      match turn {
        case ShutDown => assert total + [] == total; return;
        case ReadFailed => assert total + [] == total; return;
        case TimedOut => continue;
        case Read(b) =>
          if b == [] { assert total + [] == total; return; }
          ghost var later := StreamOf(turns[i..]);
          assert total + (b + later) == (total + b) + later;
          ghost var done := DecodeAll(total).frames;
          DecodeAllExtends(total, b);
          buf := buf + b;
          total := total + b;
          // Decode every complete frame currently in buf.
          while true
            invariant var q := DecodeAll(buf);
                      DecodeAll(total) == Parsed(done + q.frames, q.rest, q.error)
            invariant sent == Session(cfg, done)
            invariant (authenticated <==> done != []) && (done != [] ==> Accepts(cfg, done[0]))
            decreases |buf|
          {
            DecodeAllStep(buf);
            match Decode(buf) {
              case Err(e) =>
                assert done + [] == done;
                if e.Incomplete? { break; }
                DecodeAllExtends(total, later);
                return;
              case Ok(frame, n) =>
                ghost var after := DecodeAll(buf[n..]).frames;
                assert done + ([frame] + after) == (done + [frame]) + after;
                if !authenticated {
                  if frame.frameType != PeerHello { RefusedForever(cfg, total, later, frame); return; }
                  var hello := ParsePeerHello(frame.payload);
                  if hello.HelloErr? { RefusedForever(cfg, total, later, frame); return; }
                  if hello.psk !in cfg.acceptedPsks { RefusedForever(cfg, total, later, frame); return; }
                  authenticated := true;
                  assert done + [frame] == [frame];
                  HelloAccepted(cfg, frame);
                } else {
                  var out := HandleFrame(cfg, frame);
                  SessionConcat(cfg, done, [frame]);
                  sent := sent + out;
                }
                done := done + [frame];
                buf := buf[n..];
            }
          }
      }
    }
    assert turns[i..] == [] && total + [] == total;
  }
}
