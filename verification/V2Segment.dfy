/** A v2 segment shared by its lock-free writer and a reader: crates/mmbus/src/wal/v2/mmap_segment_writer.rs and
    crates/mmbus/src/wal/v2/mmap_segment_reader.rs as a step relation over the bytes of the mapping.

    The tail and a record's length field are read and written whole, everything else byte by byte. There is one
    writer, so its compare-and-swap on the tail is one step. Memory is sequentially consistent, and a reader
    looks at each byte of a record once. */
module V2Segment {
  import opened Bytes
  import opened WalRecord
  import opened SegmentLog

  const WRITING_BIT: nat := 0x8000_0000
  const SKIP_TO_END: nat := 0xFFFF_FFFF

  // ── The record on v2 ────────────────────────────────────────────────────────

  function Zeros(n: nat): (z: seq<byte>)
    ensures |z| == n
    ensures forall i :: 0 <= i < n ==> z[i] == 0
  {
    if n == 0 then [] else [0] + Zeros(n - 1)
  }

  function Aligned(r: Record): nat { Align8(EncodedLen(r)) }

  /** What the checksum covers: the v0.1 body and zeros up to the next multiple of 8. */
  function PaddedBody(r: Record): (b: seq<byte>)
    ensures |b| == Aligned(r) - 8
  {
    Body(r) + Zeros(Aligned(r) - EncodedLen(r))
  }

  function EncodeV2(crc: Checksum, r: Record): (b: seq<byte>)
    ensures |b| == Aligned(r)
  {
    LE(Aligned(r), 4) + PaddedBody(r) + LE(crc(PaddedBody(r)), 4)
  }

  datatype Outcome =
    | Returned(record: Record)
    | AwaitMore
    | EndOfSegment
    | CorruptRecord

  /** Decoding the copied bytes of a record. */
  function DecodeV2(crc: Checksum, buf: seq<byte>): Outcome
    requires |buf| >= RECORD_FRAMING
  {
    var n, payloadLen := |buf|, FromLE(buf[20..24]);
    if 24 + payloadLen + 4 > n then CorruptRecord
    else if FromLE(buf[n - 4..n]) != crc(buf[4..n - 4]) then CorruptRecord
    else
      Decoded64(buf[4..12]); Decoded64(buf[12..20]);
      Returned(Record(FromLE(buf[4..12]), FromLE(buf[12..20]), buf[24..24 + payloadLen]))
  }

  lemma {:induction false} AlignedBounds(r: Record)
    requires Fits(r)
    ensures RECORD_FRAMING <= EncodedLen(r) <= Aligned(r) <= MAX_RECORD_LEN
    ensures Aligned(r) < EncodedLen(r) + 8 && Aligned(r) < WRITING_BIT
  {
  }

  lemma {:induction false} DecodeEncoded(crc: Checksum, r: Record)
    requires Fits(r)
    ensures |EncodeV2(crc, r)| >= RECORD_FRAMING && DecodeV2(crc, EncodeV2(crc, r)) == Returned(r)
  {
    AlignedBounds(r);
    var buf := EncodeV2(crc, r);
    assert buf[4..] == PaddedBody(r) + LE(crc(PaddedBody(r)), 4);
    CarriedReturns(crc, buf, r, Zeros(Aligned(r) - EncodedLen(r)));
  }

  /** The bytes behind a length field that hold this record: its body, any padding, the checksum of both. */
  ghost predicate Carries(crc: Checksum, bytes: seq<byte>, r: Record) {
    exists pad: seq<byte> :: bytes == Body(r) + pad + LE(crc(Body(r) + pad), 4)
  }

  /** Whatever the bytes: a record is returned exactly if they carry it under their own checksum, and a checksum that
      does not match what it covers is reported. */
  lemma {:induction false} ReturnedIff(crc: Checksum, buf: seq<byte>, r: Record)
    requires |buf| >= RECORD_FRAMING
    ensures DecodeV2(crc, buf) == Returned(r) <==> |r.payload| < U32 && Carries(crc, buf[4..], r)
    ensures FromLE(buf[|buf| - 4..]) != crc(buf[4..|buf| - 4]) ==> DecodeV2(crc, buf) == CorruptRecord
    ensures DecodeV2(crc, buf).Returned? || DecodeV2(crc, buf) == CorruptRecord
  {
    if DecodeV2(crc, buf) == Returned(r) { ReturnedCarries(crc, buf, r); }
    if |r.payload| < U32 && Carries(crc, buf[4..], r) {
      var pad :| buf[4..] == Body(r) + pad + LE(crc(Body(r) + pad), 4);
      CarriedReturns(crc, buf, r, pad);
    }
    hide FromLE, LE, Carries;
    assert buf[|buf| - 4..] == buf[|buf| - 4..|buf|];
  }

  lemma {:induction false} ReturnedCarries(crc: Checksum, buf: seq<byte>, r: Record)
    requires |buf| >= RECORD_FRAMING && DecodeV2(crc, buf) == Returned(r)
    ensures |r.payload| < U32 && Carries(crc, buf[4..], r)
  {
    hide FromLE, LE, Pow256, Carries;
    var n, k := |buf|, |r.payload|;
    Decoded64(buf[4..12]); Decoded64(buf[12..20]); Decoded32(buf[20..24]); Decoded32(buf[n - 4..n]);
    var pad := buf[24 + k..n - 4];
    BodyAt(buf, r);
    assert buf[4..n - 4] == buf[4..24 + k] + pad;
    assert buf[4..] == buf[4..n - 4] + buf[n - 4..n];
    CarriedBy(crc, buf[4..], r, pad);
  }

  lemma {:induction false} CarriedBy(crc: Checksum, bytes: seq<byte>, r: Record, pad: seq<byte>)
    requires bytes == Body(r) + pad + LE(crc(Body(r) + pad), 4)
    ensures Carries(crc, bytes, r)
  {
    hide LE, Body;
  }

  /** Bytes that hold the fields of a record in their places are its body. */
  lemma {:induction false} BodyAt(buf: seq<byte>, r: Record)
    requires |buf| >= 24 + |r.payload|
    requires buf[4..12] == LE(r.cursor, 8) && buf[12..20] == LE(r.ts, 8) && buf[20..24] == LE(|r.payload|, 4)
    requires buf[24..24 + |r.payload|] == r.payload
    ensures buf[4..24 + |r.payload|] == Body(r)
  {
    hide LE;
    var k := |r.payload|;
    assert buf[4..24 + k] == buf[4..12] + buf[12..20] + buf[20..24] + buf[24..24 + k];
  }

  lemma {:induction false} CarriedReturns(crc: Checksum, buf: seq<byte>, r: Record, pad: seq<byte>)
    requires |buf| >= RECORD_FRAMING && |r.payload| < U32
    requires buf[4..] == Body(r) + pad + LE(crc(Body(r) + pad), 4)
    ensures DecodeV2(crc, buf) == Returned(r)
  {
    hide LE, FromLE, Pow256;
    var b, n, k := Body(r) + pad, |buf|, |r.payload|;
    BodyFields(r);
    assert buf[4..n - 4] == buf[4..][..n - 8] == b;
    assert buf[n - 4..n] == buf[4..][n - 8..] == LE(crc(b), 4);
    assert b[0..8] == Body(r)[0..8] && b[8..16] == Body(r)[8..16] && b[16..20] == Body(r)[16..20];
    assert buf[4..12] == b[0..8] && buf[12..20] == b[8..16] && buf[20..24] == b[16..20];
    assert buf[24..24 + k] == b[20..20 + k] == Body(r)[20..20 + k] == r.payload;
    RoundTrip64(r.cursor); RoundTrip64(r.ts); RoundTrip32(k); RoundTrip32(crc(b));
  }

  function EncodeAllV2(crc: Checksum, rs: seq<Record>): seq<byte> {
    if rs == [] then [] else EncodeAllV2(crc, rs[..|rs| - 1]) + EncodeV2(crc, rs[|rs| - 1])
  }

  lemma {:induction false} EncodeMore(crc: Checksum, rs: seq<Record>, r: Record)
    ensures EncodeAllV2(crc, rs + [r]) == EncodeAllV2(crc, rs) + EncodeV2(crc, r)
  {
    assert (rs + [r])[..|rs|] == rs;
  }

  /** Where record `n` starts among the encodings, and that its bytes are there. */
  lemma {:induction false} EncodedAt(crc: Checksum, rs: seq<Record>, n: nat)
    requires n < |rs|
    ensures EncodeAllV2(crc, rs[..n]) + EncodeV2(crc, rs[n]) <= EncodeAllV2(crc, rs)
    ensures EncodeAllV2(crc, rs[..n + 1]) == EncodeAllV2(crc, rs[..n]) + EncodeV2(crc, rs[n])
  {
    hide EncodeV2, EncodeAllV2;
    EncodeMore(crc, rs[..n], rs[n]);
    assert rs[..n + 1] == rs[..n] + [rs[n]];
    EncodedPrefix(crc, rs, n + 1);
  }

  lemma {:induction false} EncodedPrefix(crc: Checksum, rs: seq<Record>, n: nat)
    requires n <= |rs|
    ensures EncodeAllV2(crc, rs[..n]) <= EncodeAllV2(crc, rs)
  {
    hide EncodeV2, EncodeAllV2;
    var k := |rs| - 1;
    if n <= k {
      EncodedPrefix(crc, rs[..k], n);
      assert rs[..k][..n] == rs[..n];
      EncodeMore(crc, rs[..k], rs[k]);
      assert rs == rs[..k] + [rs[k]];
    } else {
      assert rs[..n] == rs;
    }
  }

  // ── The shared segment ──────────────────────────────────────────────────────

  /** Where the writer is inside `append` or `write_skip_to_end`. */
  datatype Writer =
    | Idle
    | Reserving(r: Record)
    | Claiming(r: Record, off: nat)
    | Filling(r: Record, off: nat, k: nat)
    | Summing(r: Record, off: nat, sum: u32, k: nat)
    | Skipping
    | SkipClaiming(off: nat)

  datatype Pc = Ready | AtLength | Copying(len: nat, buf: seq<byte>)

  /** A reader with its history: what it has returned, and the outcome of its last finished call. */
  datatype Reader = Reader(pos: nat, pc: Pc, got: seq<Record>, outcome: Option<Outcome>)

  /** `visible` and `hidden` are history variables: the records committed before and after the first skip marker. */
  datatype State = State(
    size: nat, mem: seq<byte>, tail: nat, writer: Writer, marker: bool,
    visible: seq<Record>, hidden: seq<Record>, reader: Reader)

  datatype Action = StartAppend(r: Record) | StartSkip | WriterStep | Call | ReaderStep

  predicate Enabled(s: State, a: Action) {
    match a
    case StartAppend(r) => s.writer.Idle? && Fits(r)
    case StartSkip => s.writer.Idle?
    case WriterStep => !s.writer.Idle?
    case Call => s.reader.pc.Ready?
    case ReaderStep => !s.reader.pc.Ready?
  }

  function Store(mem: seq<byte>, at: nat, bytes: seq<byte>): (mem': seq<byte>)
    requires at + |bytes| <= |mem|
    ensures |mem'| == |mem|
  {
    mem[..at] + bytes + mem[at + |bytes|..]
  }

  predicate WriterBounds(s: State) {
    && |s.mem| == s.size
    && (s.writer.Claiming? || s.writer.Filling? || s.writer.Summing? ==> s.writer.off + Aligned(s.writer.r) <= s.size)
    && (s.writer.Filling? ==> s.writer.k <= 20 + |s.writer.r.payload|)
    && (s.writer.Summing? ==> s.writer.k <= 4)
    && (s.writer.SkipClaiming? ==> s.writer.off + 4 <= s.size)
  }

  predicate ReaderBounds(rd: Reader, size: nat) {
    && (rd.pc.AtLength? ==> rd.pos + 4 <= size)
    && (rd.pc.Copying? ==> |rd.pc.buf| <= rd.pc.len && RECORD_FRAMING <= rd.pc.len && rd.pos + rd.pc.len <= size)
  }

  /** The accesses of the next step stay inside the mapping. */
  predicate InBounds(s: State) { WriterBounds(s) && ReaderBounds(s.reader, s.size) }

  function Commit(s: State, r: Record): State {
    if s.marker then s.(writer := Idle, hidden := s.hidden + [r]) else s.(writer := Idle, visible := s.visible + [r])
  }

  /** One access of the writer. */
  function WriterNext(crc: Checksum, s: State): State
    requires WriterBounds(s) && Enabled(s, WriterStep)
  {
    match s.writer
    case Reserving(r) =>
      if s.tail + Aligned(r) > s.size then s.(writer := Idle)
      else s.(tail := s.tail + Aligned(r), writer := Claiming(r, s.tail))
    case Claiming(r, off) =>
      s.(mem := Store(s.mem, off, LE(Aligned(r) + WRITING_BIT, 4)), writer := Filling(r, off, 0))
    case Filling(r, off, k) =>
      if k < 20 + |r.payload| then
        s.(mem := Store(s.mem, off + 4 + k, [Body(r)[k]]), writer := Filling(r, off, k + 1))
      else s.(writer := Summing(r, off, crc(s.mem[off + 4..off + Aligned(r) - 4]), 0))
    case Summing(r, off, sum, k) =>
      if k < 4 then
        s.(mem := Store(s.mem, off + Aligned(r) - 4 + k, [LE(sum, 4)[k]]), writer := Summing(r, off, sum, k + 1))
      else Commit(s.(mem := Store(s.mem, off, LE(Aligned(r), 4))), r)
    case Skipping =>
      if s.tail + 4 > s.size then s.(writer := Idle)
      else s.(tail := s.tail + 4, writer := SkipClaiming(s.tail))
    case SkipClaiming(off) =>
      s.(mem := Store(s.mem, off, LE(SKIP_TO_END, 4)), writer := Idle, marker := true)
  }

  function Finish(rd: Reader, pos: nat, o: Outcome): Reader {
    Reader(pos, Ready, if o.Returned? then rd.got + [o.record] else rd.got, Some(o))
  }

  /** The start of `next_record`: the end of the file, then the tail. */
  function CallNext(s: State): Reader {
    if s.reader.pos >= s.size then Finish(s.reader, s.reader.pos, EndOfSegment)
    else if s.reader.pos >= s.tail then Finish(s.reader, s.reader.pos, AwaitMore)
    else s.reader.(pc := AtLength)
  }

  /** The rest of it: one load of the length field, then the bytes of the record. */
  function ReaderNext(crc: Checksum, s: State): Reader
    requires |s.mem| == s.size && ReaderBounds(s.reader, s.size) && Enabled(s, ReaderStep)
  {
    var rd := s.reader;
    match rd.pc
    case AtLength =>
      var raw := FromLE(s.mem[rd.pos..rd.pos + 4]);
      if raw == 0 then Finish(rd, rd.pos, AwaitMore)
      else if raw == SKIP_TO_END then Finish(rd, s.size, EndOfSegment)
      else if raw >= WRITING_BIT then Finish(rd, rd.pos, AwaitMore)
      else if raw > MAX_RECORD_LEN || raw < RECORD_FRAMING || rd.pos + raw > s.size then
        Finish(rd, s.size, CorruptRecord)
      else rd.(pc := Copying(raw, []))
    case Copying(len, buf) =>
      if |buf| < len then rd.(pc := Copying(len, buf + [s.mem[rd.pos + |buf|]]))
      else if 24 + FromLE(buf[20..24]) + 4 > len then Finish(rd, rd.pos + Align8(len), CorruptRecord)
      else Finish(rd, rd.pos + len, DecodeV2(crc, buf))
  }

  function Next(crc: Checksum, s: State, a: Action): State
    requires InBounds(s) && Enabled(s, a)
  {
    match a
    case StartAppend(r) => s.(writer := Reserving(r))
    case StartSkip => s.(writer := Skipping)
    case WriterStep => WriterNext(crc, s)
    case Call => s.(reader := CallNext(s))
    case ReaderStep => s.(reader := ReaderNext(crc, s))
  }

  ghost predicate Reaches(crc: Checksum, s: State, actions: seq<Action>, s': State)
    decreases |actions|
  {
    if actions == [] then s' == s
    else InBounds(s) && Enabled(s, actions[0]) && Reaches(crc, Next(crc, s, actions[0]), actions[1..], s')
  }

  /** A created segment, and a reader that has just opened it. */
  predicate Start(s: State) {
    && s.size >= SEGMENT_HEADER_LEN + RECORD_FRAMING && |s.mem| == s.size
    && s.mem[SEGMENT_HEADER_LEN..] == Zeros(s.size - SEGMENT_HEADER_LEN) && s.tail == SEGMENT_HEADER_LEN
    && s.writer.Idle? && !s.marker && s.visible == [] && s.hidden == []
    && s.reader == Reader(SEGMENT_HEADER_LEN, Ready, [], None)
  }

  // ── The invariant ───────────────────────────────────────────────────────────

  /** What the writer has stored so far of the record in progress. */
  function Partial(w: Writer): seq<byte>
    requires w.Filling? ==> w.k <= 20 + |w.r.payload|
    requires w.Summing? ==> w.k <= 4
  {
    match w
    case Filling(r, _, k) => LE(Aligned(r) + WRITING_BIT, 4) + Body(r)[..k]
    case Summing(r, _, sum, k) => LE(Aligned(r) + WRITING_BIT, 4) + PaddedBody(r) + LE(sum, 4)[..k]
    case _ => []
  }

  /** How far the writer has moved the tail for the operation in progress. */
  function Reserved(w: Writer): nat {
    match w
    case Claiming(r, _) => Aligned(r)
    case Filling(r, _, _) => Aligned(r)
    case Summing(r, _, _, _) => Aligned(r)
    case SkipClaiming(_) => 4
    case _ => 0
  }

  predicate Claims(w: Writer) { w.Claiming? || w.Filling? || w.Summing? || w.SkipClaiming? }

  /** Where the visible records end. */
  function End(crc: Checksum, s: State): nat { SEGMENT_HEADER_LEN + |EncodeAllV2(crc, s.visible)| }

  /** The bytes after the header while there is no marker: the visible records, the part of a record in progress,
      zeros. */
  predicate OpenMem(mem: seq<byte>, all: seq<byte>, part: seq<byte>) {
    && SEGMENT_HEADER_LEN + |all| + |part| <= |mem|
    && mem[SEGMENT_HEADER_LEN..] == all + part + Zeros(|mem| - SEGMENT_HEADER_LEN - |all| - |part|)
  }

  /** With a marker: the visible records and the marker, for good. */
  predicate SealedMem(mem: seq<byte>, all: seq<byte>) {
    && SEGMENT_HEADER_LEN <= |mem|
    && all + LE(SKIP_TO_END, 4) <= mem[SEGMENT_HEADER_LEN..]
  }

  predicate WriterOk(crc: Checksum, s: State) {
    && WriterBounds(s) && AllFit(s.visible) && s.tail <= s.size
    && (s.writer.Reserving? || s.writer.Claiming? || s.writer.Filling? || s.writer.Summing? ==> Fits(s.writer.r))
    && (if s.marker then
          SealedMem(s.mem, EncodeAllV2(crc, s.visible)) && End(crc, s) + 4 <= s.tail &&
            (Claims(s.writer) ==> End(crc, s) + 4 <= s.writer.off)
        else
          && OpenMem(s.mem, EncodeAllV2(crc, s.visible), Partial(s.writer)) && s.hidden == []
          && s.tail == End(crc, s) + Reserved(s.writer)
          && (Claims(s.writer) ==> s.writer.off == End(crc, s))
          && (s.writer.Summing? ==> s.writer.sum == crc(PaddedBody(s.writer.r))))
  }

  /** The reader stands right after what it has returned, or at the end of a sealed segment. */
  predicate PosOk(crc: Checksum, s: State) {
    var rd := s.reader;
    && rd.got <= s.visible
    && (rd.pos == SEGMENT_HEADER_LEN + |EncodeAllV2(crc, rd.got)|
        || (s.marker && rd.pos == s.size && rd.got == s.visible && rd.pc.Ready?))
  }

  predicate ReaderOk(crc: Checksum, s: State) {
    var rd := s.reader;
    && PosOk(crc, s) && ReaderBounds(rd, s.size) && rd.outcome != Some(CorruptRecord)
    && (rd.pc.AtLength? ==> rd.pos < s.tail)
    && (rd.pc.Copying? ==>
          && |rd.got| < |s.visible| && rd.pc.len == Aligned(s.visible[|rd.got|])
          && rd.pc.buf <= EncodeV2(crc, s.visible[|rd.got|]))
  }

  predicate Inv(crc: Checksum, s: State) { WriterOk(crc, s) && ReaderOk(crc, s) }

  // ── The writer keeps it ─────────────────────────────────────────────────────

  /** Storing the next bytes of a partial record over zeros. */
  lemma {:induction false} OpenStore(mem: seq<byte>, all: seq<byte>, part: seq<byte>, bytes: seq<byte>)
    requires OpenMem(mem, all, part) && SEGMENT_HEADER_LEN + |all| + |part| + |bytes| <= |mem|
    ensures OpenMem(Store(mem, SEGMENT_HEADER_LEN + |all| + |part|, bytes), all, part + bytes)
  {
    hide Zeros;
    var at := SEGMENT_HEADER_LEN + |all| + |part|;
    var mem', done, n := Store(mem, at, bytes), all + part, |mem| - at;
    var goal := all + (part + bytes) + Zeros(n - |bytes|);
    forall i | 0 <= i < |goal| ensures mem'[SEGMENT_HEADER_LEN..][i] == goal[i] {
      if i < |done| {
        assert mem[SEGMENT_HEADER_LEN..][i] == done[i];
      } else if i >= |done| + |bytes| {
        assert mem[SEGMENT_HEADER_LEN..][i] == Zeros(n)[i - |done|];
      }
    }
  }

  /** Storing past a prefix leaves it. */
  lemma {:induction false} StorePast(mem: seq<byte>, from: nat, prefix: seq<byte>, at: nat, bytes: seq<byte>)
    requires from <= |mem| && prefix <= mem[from..] && from + |prefix| <= at && at + |bytes| <= |mem|
    ensures prefix <= Store(mem, at, bytes)[from..]
  {
  }

  lemma {:induction false} ZerosSplit(m: nat, n: nat)
    requires m <= n
    ensures Zeros(n) == Zeros(m) + Zeros(n - m)
  {
    hide Zeros;
  }

  lemma {:induction false} FillStep(crc: Checksum, s: State)
    requires WriterOk(crc, s) && !s.marker && (s.writer.Claiming? || s.writer.Filling? || s.writer.Summing?)
    requires s.writer.Filling? ==> s.writer.k < 20 + |s.writer.r.payload|
    requires s.writer.Summing? ==> s.writer.k < 4
    ensures WriterOk(crc, WriterNext(crc, s))
  {
    hide *;
    PartialGrows(s.writer);
    FillIs(crc, s);
    OpenIs(crc, s);
    var bytes, w' := Stored(s.writer), Filled(s.writer);
    OpenStore(s.mem, EncodeAllV2(crc, s.visible), Partial(s.writer), bytes);
    OpenIf(crc, s, s.(mem := Store(s.mem, End(crc, s) + |Partial(s.writer)|, bytes), writer := w'));
  }

  lemma {:induction false} OpenIs(crc: Checksum, s: State)
    requires WriterOk(crc, s) && !s.marker && (s.writer.Claiming? || s.writer.Filling? || s.writer.Summing?)
    ensures |s.mem| == s.size && OpenMem(s.mem, EncodeAllV2(crc, s.visible), Partial(s.writer))
    ensures s.writer.off == End(crc, s) == SEGMENT_HEADER_LEN + |EncodeAllV2(crc, s.visible)|
    ensures s.writer.off + Aligned(s.writer.r) <= s.size && WriterBounds(s) && Fits(s.writer.r)
    ensures |Partial(s.writer)| ==
            if s.writer.Claiming? then 0
            else if s.writer.Filling? then 4 + s.writer.k
            else Aligned(s.writer.r) - 4 + s.writer.k
  {
    hide EncodeAllV2, OpenMem, Aligned, LE, PaddedBody, Body, AllFit;
  }

  /** The step stores its bytes where the partial record ends and changes nothing else. */
  lemma {:induction false} FillIs(crc: Checksum, s: State)
    requires WriterOk(crc, s) && !s.marker && (s.writer.Claiming? || s.writer.Filling? || s.writer.Summing?)
    requires s.writer.Filling? ==> s.writer.k < 20 + |s.writer.r.payload|
    requires s.writer.Summing? ==> s.writer.k < 4
    ensures var at, w' := End(crc, s) + |Partial(s.writer)|, Filled(s.writer);
            && at + |Stored(s.writer)| <= |s.mem| == s.size
            && WriterNext(crc, s) == s.(mem := Store(s.mem, at, Stored(s.writer)), writer := w')
            && |Stored(s.writer)| + |Partial(s.writer)| <= Aligned(s.writer.r)
  {
    OpenIs(crc, s);
    AlignedBounds(s.writer.r);
    FillStores(crc, s);
    hide WriterOk, End, Store, Aligned, LE, Body, Partial, WriterNext, Stored, Filled;
  }

  /** What the writer's next access stores, relative to its record. */
  lemma {:induction false} FillStores(crc: Checksum, s: State)
    requires WriterBounds(s) && (s.writer.Claiming? || s.writer.Filling? || s.writer.Summing?)
    requires s.writer.Filling? ==> s.writer.k < 20 + |s.writer.r.payload|
    requires s.writer.Summing? ==> s.writer.k < 4
    requires EncodedLen(s.writer.r) <= Aligned(s.writer.r)
    ensures var w := s.writer;
            var k := if w.Claiming? then 0
                     else if w.Filling? then 4 + w.k else Aligned(w.r) - 4 + w.k;
            && k + |Stored(w)| <= Aligned(w.r)
            && WriterNext(crc, s) == s.(mem := Store(s.mem, w.off + k, Stored(w)), writer := Filled(w))
  {
    hide Store, Aligned, LE, Body;
  }

  lemma {:induction false} OpenIf(crc: Checksum, s: State, s': State)
    requires WriterOk(crc, s) && !s.marker && (s.writer.Claiming? || s.writer.Filling? || s.writer.Summing?)
    requires s.writer.Filling? ==> s.writer.k < 20 + |s.writer.r.payload|
    requires s.writer.Summing? ==> s.writer.k < 4
    requires s'.writer == Filled(s.writer) && s' == s.(mem := s'.mem, writer := s'.writer) && |s'.mem| == |s.mem|
    requires OpenMem(s'.mem, EncodeAllV2(crc, s'.visible), Partial(s'.writer))
    ensures WriterOk(crc, s')
  {
    hide EncodeAllV2, OpenMem, Aligned, LE, Body, PaddedBody, AllFit, Partial;
  }

  /** The writer after its next store. */
  function Filled(w: Writer): Writer
    requires w.Claiming? || w.Filling? || w.Summing?
  {
    match w
    case Claiming(r, off) => Filling(r, off, 0)
    case Filling(r, off, k) => Filling(r, off, k + 1)
    case Summing(r, off, sum, k) => Summing(r, off, sum, k + 1)
  }

  /** The bytes the next store writes. */
  function Stored(w: Writer): seq<byte>
    requires w.Claiming? || w.Filling? || w.Summing?
    requires w.Filling? ==> w.k < 20 + |w.r.payload|
    requires w.Summing? ==> w.k < 4
  {
    match w
    case Claiming(r, _) => LE(Aligned(r) + WRITING_BIT, 4)
    case Filling(r, _, k) => [Body(r)[k]]
    case Summing(_, _, sum, k) => [LE(sum, 4)[k]]
  }

  lemma {:induction false} PartialGrows(w: Writer)
    requires w.Claiming? || w.Filling? || w.Summing?
    requires w.Filling? ==> w.k < 20 + |w.r.payload|
    requires w.Summing? ==> w.k < 4
    ensures Partial(Filled(w)) == Partial(w) + Stored(w)
  {
    hide LE, PaddedBody;
    if w.Filling? {
      assert Body(w.r)[..w.k + 1] == Body(w.r)[..w.k] + [Body(w.r)[w.k]];
    } else if w.Summing? {
      assert LE(w.sum, 4)[..w.k + 1] == LE(w.sum, 4)[..w.k] + [LE(w.sum, 4)[w.k]];
    }
  }

  /** The body is complete: what the checksum is computed over is the padded body, zeros included. */
  lemma {:induction false} BodyDone(crc: Checksum, s: State)
    requires WriterOk(crc, s) && !s.marker && s.writer.Filling? && s.writer.k == 20 + |s.writer.r.payload|
    ensures WriterOk(crc, WriterNext(crc, s))
  {
    hide *;
    BodyCovered(crc, s);
    BodyNext(crc, s);
    SumStarts(crc, s);
  }

  /** The body is in place, and so is its padding. */
  lemma {:induction false} BodyCovered(crc: Checksum, s: State)
    requires WriterOk(crc, s) && !s.marker && s.writer.Filling? && s.writer.k == 20 + |s.writer.r.payload|
    ensures WriterBounds(s)
    ensures var Filling(r, off, _) := s.writer;
            && OpenMem(s.mem, EncodeAllV2(crc, s.visible), LE(Aligned(r) + WRITING_BIT, 4) + PaddedBody(r))
            && 8 <= Aligned(r) && off + Aligned(r) <= |s.mem|
            && s.mem[off + 4..off + Aligned(r) - 4] == PaddedBody(r)
  {
    OpenIs(crc, s);
    AlignedBounds(s.writer.r);
    hide *;
    BodyNext(crc, s);
    BodyAndPad(s.mem, EncodeAllV2(crc, s.visible), LE(Aligned(s.writer.r) + WRITING_BIT, 4), s.writer.r,
               s.writer.off, Partial(s.writer));
  }

  lemma {:induction false} BodyAndPad(mem: seq<byte>, all: seq<byte>, len: seq<byte>, r: Record, off: nat,
          part: seq<byte>)
    requires |len| == 4 && Fits(r) && part == len + Body(r) && OpenMem(mem, all, part)
    requires off == SEGMENT_HEADER_LEN + |all| && off + Aligned(r) <= |mem| && 8 <= Aligned(r)
    ensures OpenMem(mem, all, len + PaddedBody(r)) && mem[off + 4..off + Aligned(r) - 4] == PaddedBody(r)
  {
    hide *;
    BodyInPlace(mem, all, len, r);
  }

  /** The store that ends the body, and what has been stored before and after it. */
  lemma {:induction false} BodyNext(crc: Checksum, s: State)
    requires WriterBounds(s) && s.writer.Filling? && s.writer.k == 20 + |s.writer.r.payload|
    ensures var Filling(r, off, k) := s.writer;
            && 8 <= Aligned(r) && off + Aligned(r) <= |s.mem|
            && WriterNext(crc, s) == s.(writer := Summing(r, off, crc(s.mem[off + 4..off + Aligned(r) - 4]), 0))
            && Partial(s.writer) == LE(Aligned(r) + WRITING_BIT, 4) + Body(r)
            && forall sum: u32 ::
                 Partial(Summing(r, off, sum, 0)) == LE(Aligned(r) + WRITING_BIT, 4) + PaddedBody(r)
  {
    var Filling(r, off, k) := s.writer;
    assert Body(r)[..k] == Body(r);
    hide LE, Body, PaddedBody, Align8;
  }

  lemma {:induction false} SumStarts(crc: Checksum, s: State)
    requires WriterOk(crc, s) && !s.marker && s.writer.Filling?
    requires OpenMem(s.mem, EncodeAllV2(crc, s.visible), LE(Aligned(s.writer.r) + WRITING_BIT, 4) +
                                                         PaddedBody(s.writer.r))
    ensures var Filling(r, off, _) := s.writer; WriterOk(crc, s.(writer := Summing(r, off, crc(PaddedBody(r)), 0)))
  {
    var Filling(r, off, _) := s.writer;
    assert Partial(Summing(r, off, crc(PaddedBody(r)), 0)) == LE(Aligned(r) + WRITING_BIT, 4) + PaddedBody(r);
    hide EncodeAllV2, OpenMem, Aligned, LE, Body, PaddedBody, AllFit, Partial;
  }

  lemma {:induction false} BodyInPlace(mem: seq<byte>, all: seq<byte>, len: seq<byte>, r: Record)
    requires |len| == 4 && Fits(r) && OpenMem(mem, all, len + Body(r)) &&
      SEGMENT_HEADER_LEN + |all| + Aligned(r) <= |mem|
    ensures OpenMem(mem, all, len + PaddedBody(r))
    ensures var off := SEGMENT_HEADER_LEN + |all|; mem[off + 4..off + Aligned(r) - 4] == PaddedBody(r)
  {
    AlignedBounds(r);
    var free, pad := |mem| - SEGMENT_HEADER_LEN - |all| - 4 - |Body(r)|, Aligned(r) - EncodedLen(r);
    ZerosSplit(pad, free);
    Padding(all, len, Body(r), Zeros(pad), Zeros(free - pad));
    SliceShift(mem, SEGMENT_HEADER_LEN, |all| + 4, |all| + Aligned(r) - 4);
    hide Body, Align8, Zeros;
  }

  lemma {:induction false} Padding(all: seq<byte>, len: seq<byte>, body: seq<byte>, pad: seq<byte>, rest: seq<byte>)
    ensures var mem := all + (len + body) + (pad + rest);
            && mem == all + (len + (body + pad)) + rest
            && mem[|all| + |len|..|all| + |len| + |body + pad|] == body + pad
  {
  }

  lemma {:induction false} SliceShift(mem: seq<byte>, at: nat, i: nat, j: nat)
    requires at <= |mem| && i <= j <= |mem| - at
    ensures mem[at..][i..j] == mem[at + i..at + j]
  {
  }

  /** Commit: clearing the writing bit turns the partial record into an encoded one. */
  lemma {:induction false} CommitKeeps(crc: Checksum, s: State)
    requires WriterOk(crc, s) && !s.marker && s.writer.Summing? && s.writer.k == 4
    ensures WriterOk(crc, WriterNext(crc, s))
  {
    hide *;
    var r, all := s.writer.r, EncodeAllV2(crc, s.visible);
    CommitParts(crc, s.writer);
    EncodeMore(crc, s.visible, r);
    OpenIs(crc, s);
    SumIs(crc, s);
    var body := PaddedBody(r) + LE(s.writer.sum, 4);
    ClearBit(s.mem, all, LE(Aligned(r) + WRITING_BIT, 4), LE(Aligned(r), 4), body);
    CommitIs(crc, s);
    CommitIf(crc, s, Store(s.mem, End(crc, s), LE(Aligned(r), 4)));
  }

  lemma {:induction false} SumIs(crc: Checksum, s: State)
    requires WriterOk(crc, s) && !s.marker && s.writer.Summing?
    ensures s.writer.sum == crc(PaddedBody(s.writer.r)) && Fits(s.writer.r) && RECORD_FRAMING <= Aligned(s.writer.r)
    ensures WriterBounds(s)
  {
    AlignedBounds(s.writer.r);
    hide EncodeAllV2, OpenMem, Aligned, LE, PaddedBody, AllFit, Partial;
  }

  lemma {:induction false} CommitIs(crc: Checksum, s: State)
    requires WriterBounds(s) && !s.marker && s.writer.Summing? && s.writer.k == 4 && s.writer.off == End(crc, s)
    requires End(crc, s) + 4 <= |s.mem|
    ensures WriterNext(crc, s) ==
            s.(mem := Store(s.mem, End(crc, s), LE(Aligned(s.writer.r), 4)), writer := Idle,
              visible := s.visible + [s.writer.r])
  {
    hide EncodeAllV2, LE, Store, Aligned;
  }

  lemma {:induction false} CommitIf(crc: Checksum, s: State, mem': seq<byte>)
    requires WriterOk(crc, s) && !s.marker && s.writer.Summing? && |mem'| == |s.mem|
    requires EncodeAllV2(crc, s.visible + [s.writer.r]) == EncodeAllV2(crc, s.visible) + EncodeV2(crc, s.writer.r)
    requires OpenMem(mem', EncodeAllV2(crc, s.visible + [s.writer.r]), [])
    ensures WriterOk(crc, s.(mem := mem', writer := Idle, visible := s.visible + [s.writer.r]))
  {
    PartialIdle();
    assert |EncodeV2(crc, s.writer.r)| == Aligned(s.writer.r);
    assert AllFit(s.visible + [s.writer.r]) by {
      hide EncodeAllV2, EncodeV2, OpenMem, Partial;
    }
    hide EncodeAllV2, EncodeV2, OpenMem, Aligned, LE, PaddedBody, AllFit, Partial;
  }

  lemma {:induction false} PartialIdle()
    ensures Partial(Idle) == []
  {
  }

  lemma {:induction false} CommitParts(crc: Checksum, w: Writer)
    requires w.Summing? && w.k == 4
    ensures Partial(w) == LE(Aligned(w.r) + WRITING_BIT, 4) + (PaddedBody(w.r) + LE(w.sum, 4))
    ensures w.sum == crc(PaddedBody(w.r)) ==>
      EncodeV2(crc, w.r) == LE(Aligned(w.r), 4) + (PaddedBody(w.r) + LE(w.sum, 4))
  {
    hide LE, PaddedBody;
    assert LE(w.sum, 4)[..4] == LE(w.sum, 4);
  }

  lemma {:induction false} ClearBit(mem: seq<byte>, all: seq<byte>, len: seq<byte>, len': seq<byte>, body: seq<byte>)
    requires OpenMem(mem, all, len + body) && |len| == |len'| == 4
    ensures OpenMem(Store(mem, SEGMENT_HEADER_LEN + |all|, len'), all + (len' + body), [])
  {
    hide Zeros;
    var at := SEGMENT_HEADER_LEN + |all|;
    var mem', n := Store(mem, at, len'), |mem| - at - 4 - |body|;
    var was, goal := all + (len + body) + Zeros(n), all + (len' + body) + [] + Zeros(n);
    forall i | 0 <= i < |goal| ensures mem'[SEGMENT_HEADER_LEN..][i] == goal[i] {
      if i < |all| || i >= |all| + 4 {
        assert mem'[SEGMENT_HEADER_LEN..][i] == mem[SEGMENT_HEADER_LEN..][i] == was[i];
      }
    }
  }

  /** The marker is stored right after the visible records and fixes them. */
  lemma {:induction false} MarkerKeeps(crc: Checksum, s: State)
    requires WriterOk(crc, s) && !s.marker && s.writer.SkipClaiming?
    ensures WriterOk(crc, WriterNext(crc, s))
  {
    hide EncodeAllV2, LE, AllFit;
    var all := EncodeAllV2(crc, s.visible);
    OpenStore(s.mem, all, [], LE(SKIP_TO_END, 4));
    var mem' := WriterNext(crc, s).mem;
    assert all + LE(SKIP_TO_END, 4) == all + ([] + LE(SKIP_TO_END, 4));
    assert all + LE(SKIP_TO_END, 4) <= mem'[SEGMENT_HEADER_LEN..];
    hide OpenMem, Store;
  }

  /** The steps that store nothing, and those of a writer behind the marker. */
  lemma {:induction false} ReserveKeeps(crc: Checksum, s: State)
    requires WriterOk(crc, s) && (s.writer.Reserving? || s.writer.Skipping?)
    ensures WriterOk(crc, WriterNext(crc, s))
  {
    hide EncodeAllV2, LE, AllFit, OpenMem, SealedMem, Align8;
  }

  lemma {:induction false} SealedKeeps(crc: Checksum, s: State)
    requires WriterOk(crc, s) && s.marker && Claims(s.writer)
    ensures WriterOk(crc, WriterNext(crc, s))
  {
    hide EncodeAllV2, LE, AllFit, Align8, Body, PaddedBody;
    var all := EncodeAllV2(crc, s.visible);
    if !s.writer.SkipClaiming? { AlignedBounds(s.writer.r); }
    SealedStores(s.mem, all);
    hide SealedMem, Store, EncodedLen;
  }

  lemma {:induction false} SealedStores(mem: seq<byte>, all: seq<byte>)
    requires SealedMem(mem, all)
    ensures forall at: nat, bytes: seq<byte> {:trigger Store(mem, at, bytes)} ::
              SEGMENT_HEADER_LEN + |all| + 4 <= at && at + |bytes| <= |mem| ==> SealedMem(Store(mem, at, bytes), all)
  {
    hide LE;
    forall at: nat, bytes: seq<byte> {:trigger Store(mem, at, bytes)}
      | SEGMENT_HEADER_LEN + |all| + 4 <= at && at + |bytes| <= |mem|
      ensures SealedMem(Store(mem, at, bytes), all)
    {
      StorePast(mem, SEGMENT_HEADER_LEN, all + LE(SKIP_TO_END, 4), at, bytes);
    }
  }

  lemma {:induction false} WriterKeeps(crc: Checksum, s: State)
    requires WriterOk(crc, s) && !s.writer.Idle?
    ensures WriterOk(crc, WriterNext(crc, s))
  {
    var w := s.writer;
    assert (w.Filling? ==> w.k <= 20 + |w.r.payload|) && (w.Summing? ==> w.k <= 4);
    hide *;
    if w.Reserving? || w.Skipping? { ReserveKeeps(crc, s); }
    else if s.marker { ClaimsAre(w); SealedKeeps(crc, s); }
    else if w.SkipClaiming? { MarkerKeeps(crc, s); }
    else if w.Filling? && w.k == 20 + |w.r.payload| { BodyDone(crc, s); }
    else if w.Summing? && w.k == 4 { CommitKeeps(crc, s); }
    else { FillStep(crc, s); }
  }

  lemma {:induction false} ClaimsAre(w: Writer)
    requires !w.Idle? && !w.Reserving? && !w.Skipping?
    ensures Claims(w)
  {
  }

  // ── The reader keeps it, and sees only committed records ────────────────────

  lemma {:induction false} ReaderUnaware(crc: Checksum, s: State)
    requires WriterOk(crc, s) && ReaderOk(crc, s) && !s.writer.Idle?
    ensures ReaderOk(crc, WriterNext(crc, s))
  {
    hide EncodeAllV2, EncodeV2, LE, Body, AllFit, OpenMem, SealedMem, Store, Align8;
  }

  /** The bytes of a visible record are in place. */
  lemma {:induction false} RecordInPlace(crc: Checksum, s: State, n: nat)
    requires WriterOk(crc, s) && n < |s.visible|
    ensures var pos, r := SEGMENT_HEADER_LEN + |EncodeAllV2(crc, s.visible[..n])|, s.visible[n];
            && pos + Aligned(r) <= End(crc, s) <= s.size == |s.mem|
            && s.mem[pos..pos + Aligned(r)] == EncodeV2(crc, r)
  {
    hide *;
    EncodedAt(crc, s.visible, n);
    VisibleInPlace(crc, s);
    var before, all, e := EncodeAllV2(crc, s.visible[..n]), EncodeAllV2(crc, s.visible), EncodeV2(crc, s.visible[n]);
    var rest := s.mem[SEGMENT_HEADER_LEN..];
    assert |e| == Aligned(s.visible[n]);
    assert before + e <= rest;
    assert rest[|before|..|before| + |e|] == e;
    SliceShift(s.mem, SEGMENT_HEADER_LEN, |before|, |before| + |e|);
  }

  lemma {:induction false} VisibleInPlace(crc: Checksum, s: State)
    requires WriterOk(crc, s)
    ensures SEGMENT_HEADER_LEN <= End(crc, s) <= s.size == |s.mem| &&
      End(crc, s) == SEGMENT_HEADER_LEN + |EncodeAllV2(crc, s.visible)|
    ensures EncodeAllV2(crc, s.visible) <= s.mem[SEGMENT_HEADER_LEN..]
  {
    hide EncodeAllV2, LE, Partial, Zeros, AllFit;
  }

  /** The length field of a visible record is its clean padded length. */
  lemma {:induction false} CleanLength(crc: Checksum, s: State, n: nat)
    requires WriterOk(crc, s) && n < |s.visible|
    ensures var pos, r := SEGMENT_HEADER_LEN + |EncodeAllV2(crc, s.visible[..n])|, s.visible[n];
            && Fits(r) && pos + 4 <= pos + Aligned(r) <= s.size == |s.mem|
            && FromLE(s.mem[pos..pos + 4]) == Aligned(r) && RECORD_FRAMING <= Aligned(r) <= MAX_RECORD_LEN
  {
    var pos, r := SEGMENT_HEADER_LEN + |EncodeAllV2(crc, s.visible[..n])|, s.visible[n];
    hide *;
    VisibleFits(crc, s, n);
    AlignedSmall(r);
    RecordInPlace(crc, s, n);
    EncodeStarts(crc, r);
    LengthOf(s.mem, pos, EncodeV2(crc, r), Aligned(r));
  }

  lemma {:induction false} AlignedSmall(r: Record)
    requires Fits(r)
    ensures RECORD_FRAMING <= Aligned(r) <= MAX_RECORD_LEN && 4 <= Aligned(r) < U32
  {
    AlignedBounds(r);
  }

  lemma {:induction false} LengthOf(mem: seq<byte>, pos: nat, e: seq<byte>, n: nat)
    requires 4 <= n < U32 && pos + n <= |mem| && mem[pos..pos + n] == e && e[..4] == LE(n, 4)
    ensures FromLE(mem[pos..pos + 4]) == n
  {
    hide *;
    RoundTrip32(n);
    assert mem[pos..pos + 4] == e[..4];
  }

  lemma {:induction false} VisibleFits(crc: Checksum, s: State, n: nat)
    requires WriterOk(crc, s) && n < |s.visible|
    ensures Fits(s.visible[n])
  {
    hide EncodeAllV2, OpenMem, SealedMem, Partial, End;
  }

  lemma {:induction false} EncodeStarts(crc: Checksum, r: Record)
    requires Fits(r)
    ensures |EncodeV2(crc, r)| >= 4 && EncodeV2(crc, r)[..4] == LE(Aligned(r), 4)
  {
    AlignedBounds(r);
    hide LE, PaddedBody;
  }

  /** At the end of the visible records the length field is the marker, or zero or marked as being written; and the
      tail is past it only if there is a marker or a writer at work. */
  lemma {:induction false} EndLength(crc: Checksum, s: State)
    requires WriterOk(crc, s) && End(crc, s) < s.tail
    ensures End(crc, s) + 4 <= s.size == |s.mem|
    ensures s.marker ==> FromLE(s.mem[End(crc, s)..End(crc, s) + 4]) == SKIP_TO_END
    ensures !s.marker ==> Claims(s.writer)
    ensures !s.marker ==>
              var raw := FromLE(s.mem[End(crc, s)..End(crc, s) + 4]);
              raw == 0 || WRITING_BIT <= raw < SKIP_TO_END
  {
    hide *;
    EndBytes(crc, s);
    var all, part := EncodeAllV2(crc, s.visible), Partial(s.writer);
    if s.marker {
      SealedField(s.mem, all);
    } else if part == [] {
      OpenField(s.mem, all);
    } else {
      PartialStarts(s.writer);
      PartField(s.mem, all, part);
    }
  }

  lemma {:induction false} EndBytes(crc: Checksum, s: State)
    requires WriterOk(crc, s) && End(crc, s) < s.tail
    ensures End(crc, s) + 4 <= s.size == |s.mem| && End(crc, s) == SEGMENT_HEADER_LEN + |EncodeAllV2(crc, s.visible)|
    ensures s.marker ==> SealedMem(s.mem, EncodeAllV2(crc, s.visible))
    ensures !s.marker ==> OpenMem(s.mem, EncodeAllV2(crc, s.visible), Partial(s.writer)) && Claims(s.writer)
    ensures !s.marker && (s.writer.Filling? || s.writer.Summing?) ==> Fits(s.writer.r)
    ensures s.writer.Filling? || s.writer.Summing? || Partial(s.writer) == []
    ensures (s.writer.Filling? ==> s.writer.k <= 20 + |s.writer.r.payload|) && (s.writer.Summing? ==> s.writer.k <= 4)
  {
    hide EncodeAllV2, LE, AllFit, OpenMem, SealedMem, Body, PaddedBody, Align8;
  }

  lemma {:induction false} SealedField(mem: seq<byte>, all: seq<byte>)
    requires SealedMem(mem, all)
    ensures var at := SEGMENT_HEADER_LEN + |all|; at + 4 <= |mem| && FromLE(mem[at..at + 4]) == SKIP_TO_END
  {
    hide LE, FromLE;
    SliceShift(mem, SEGMENT_HEADER_LEN, |all|, |all| + 4);
    RoundTrip32(SKIP_TO_END);
    assert mem[SEGMENT_HEADER_LEN..][|all|..|all| + 4] == LE(SKIP_TO_END, 4);
  }

  lemma {:induction false} OpenField(mem: seq<byte>, all: seq<byte>)
    requires OpenMem(mem, all, []) && SEGMENT_HEADER_LEN + |all| + 4 <= |mem|
    ensures var at := SEGMENT_HEADER_LEN + |all|; FromLE(mem[at..at + 4]) == 0
  {
    hide FromLE;
    SliceShift(mem, SEGMENT_HEADER_LEN, |all|, |all| + 4);
    ZeroLength();
    var z := Zeros(|mem| - SEGMENT_HEADER_LEN - |all|);
    assert (all + [] + z)[|all|..|all| + 4] == z[..4] == [0, 0, 0, 0];
  }

  lemma {:induction false} PartField(mem: seq<byte>, all: seq<byte>, part: seq<byte>)
    requires OpenMem(mem, all, part) && |part| >= 4
    ensures var at := SEGMENT_HEADER_LEN + |all|; at + 4 <= |mem| && mem[at..at + 4] == part[..4]
  {
    hide Zeros;
    SliceShift(mem, SEGMENT_HEADER_LEN, |all|, |all| + 4);
    var z := Zeros(|mem| - SEGMENT_HEADER_LEN - |all| - |part|);
    assert (all + part + z)[|all|..|all| + 4] == part[..4];
  }

  lemma {:induction false} PartialStarts(w: Writer)
    requires (w.Filling? || w.Summing?) && Fits(w.r)
    requires (w.Filling? ==> w.k <= 20 + |w.r.payload|) && (w.Summing? ==> w.k <= 4)
    ensures |Partial(w)| >= 4 && WRITING_BIT <= FromLE(Partial(w)[..4]) < SKIP_TO_END
  {
    AlignedBounds(w.r);
    RoundTrip32(Aligned(w.r) + WRITING_BIT);
    hide LE, FromLE, Body, PaddedBody, Align8;
    assert Partial(w)[..4] == LE(Aligned(w.r) + WRITING_BIT, 4);
  }

  /** A reader in the middle of a call stands at the end of what it has returned. */
  lemma {:induction false} Standing(crc: Checksum, s: State)
    requires Inv(crc, s) && (!s.reader.pc.Ready? || s.reader.pos < s.size)
    ensures var n := |s.reader.got|;
            && n <= |s.visible| && s.reader.got == s.visible[..n] && (n == |s.visible| ==> s.reader.got == s.visible)
            && s.reader.pos == SEGMENT_HEADER_LEN + |EncodeAllV2(crc, s.visible[..n])|
            && (n == |s.visible| ==> s.reader.pos == End(crc, s))
  {
    hide EncodeAllV2, EncodeV2, WriterOk;
    assert s.visible[..|s.visible|] == s.visible;
  }

  /** What the start of a call finds. */
  lemma {:induction false} CallFinds(crc: Checksum, s: State)
    requires Inv(crc, s) && s.reader.pc.Ready?
    ensures CallNext(s).pc.AtLength? ==> s.reader.pos + 4 <= s.size
    ensures !CallNext(s).pc.AtLength? && s.writer.Idle? ==> s.reader.got == s.visible
  {
    VisibleInPlace(crc, s);
    var n := |s.reader.got|;
    if s.reader.pos < s.size {
      Standing(crc, s);
      if n < |s.visible| { CleanLength(crc, s, n); RecordInPlace(crc, s, n); }
      else if s.reader.pos < s.tail { EndLength(crc, s); }
    } else if n < |s.visible| && s.reader.pos == SEGMENT_HEADER_LEN + |EncodeAllV2(crc, s.reader.got)| {
      assert s.reader.got == s.visible[..n];
      CleanLength(crc, s, n);
    }
    hide EncodeAllV2, EncodeV2, LE, OpenMem, SealedMem, Align8, AllFit, FromLE, Partial, WriterBounds;
  }

  lemma {:induction false} CallKeeps(crc: Checksum, s: State)
    requires Inv(crc, s) && s.reader.pc.Ready?
    ensures Inv(crc, s.(reader := CallNext(s)))
  {
    CallFinds(crc, s);
    OtherReader(crc, s, CallNext(s));
    hide EncodeAllV2, EncodeV2, WriterOk, Align8;
  }

  lemma {:induction false} OtherReader(crc: Checksum, s: State, rd: Reader)
    requires WriterOk(crc, s)
    ensures WriterOk(crc, s.(reader := rd)) && |s.mem| == s.size
  {
    hide EncodeAllV2, OpenMem, SealedMem, AllFit, Partial, Align8;
  }

  /** What the load of the length field leads to: the clean length of the next visible record, or the end. */
  lemma {:induction false} LengthFinds(crc: Checksum, s: State)
    requires Inv(crc, s) && s.reader.pc.AtLength? && |s.mem| == s.size
    ensures var rd, n := s.reader, |s.reader.got|;
            if n < |s.visible| then
              && ReaderNext(crc, s) == rd.(pc := Copying(Aligned(s.visible[n]), []))
              && RECORD_FRAMING <= Aligned(s.visible[n]) && rd.pos + Aligned(s.visible[n]) <= s.size
            else if s.marker then ReaderNext(crc, s) == Finish(rd, s.size, EndOfSegment)
            else ReaderNext(crc, s) == Finish(rd, rd.pos, AwaitMore) && !s.writer.Idle?
  {
    hide Inv, WriterOk, EncodeAllV2, ReaderNext, Finish, FromLE, Aligned;
    Standing(crc, s);
    LengthStep(crc, s);
    PosBelowTail(crc, s);
    if |s.reader.got| < |s.visible| { CleanLength(crc, s, |s.reader.got|); } else { EndLength(crc, s); }
  }

  lemma {:induction false} PosBelowTail(crc: Checksum, s: State)
    requires Inv(crc, s) && s.reader.pc.AtLength?
    ensures s.reader.pos < s.tail && WriterOk(crc, s) && ReaderBounds(s.reader, s.size)
  {
    hide WriterOk, PosOk;
  }

  lemma {:induction false} LengthStep(crc: Checksum, s: State)
    requires Inv(crc, s) && s.reader.pc.AtLength? && |s.mem| == s.size
    ensures s.reader.pos + 4 <= |s.mem|
    ensures var rd, raw := s.reader, FromLE(s.mem[s.reader.pos..s.reader.pos + 4]);
            ReaderNext(crc, s) ==
              if raw == 0 then Finish(rd, rd.pos, AwaitMore)
              else if raw == SKIP_TO_END then Finish(rd, s.size, EndOfSegment)
              else if raw >= WRITING_BIT then Finish(rd, rd.pos, AwaitMore)
              else if raw > MAX_RECORD_LEN || raw < RECORD_FRAMING || rd.pos + raw > s.size then
                Finish(rd, s.size, CorruptRecord)
              else rd.(pc := Copying(raw, []))
  {
    PosBelowTail(crc, s);
    hide FromLE, WriterOk, ReaderOk, Finish, DecodeV2;
  }

  lemma {:induction false} LengthKeeps(crc: Checksum, s: State)
    requires Inv(crc, s) && s.reader.pc.AtLength?
    ensures |s.mem| == s.size && Inv(crc, s.(reader := ReaderNext(crc, s)))
  {
    OtherReader(crc, s, s.reader);
    OtherReader(crc, s, ReaderNext(crc, s));
    LengthFinds(crc, s);
    Standing(crc, s);
    hide EncodeAllV2, EncodeV2, WriterOk, ReaderNext, Align8;
  }

  lemma {:induction false} CopyingIs(crc: Checksum, s: State)
    requires Inv(crc, s) && s.reader.pc.Copying?
    ensures |s.reader.got| < |s.visible| && |s.mem| == s.size && ReaderBounds(s.reader, s.size)
    ensures var r := s.visible[|s.reader.got|];
            Fits(r) && s.reader.pc.len == Aligned(r) && s.reader.pc.buf <= EncodeV2(crc, r)
  {
    hide EncodeAllV2, EncodeV2, OpenMem, SealedMem, Align8;
  }

  /** What the copying steps do: one more byte of the record, and in the end the record itself. */
  lemma {:induction false} CopyFinds(crc: Checksum, s: State)
    requires Inv(crc, s) && s.reader.pc.Copying?
    requires |s.mem| == s.size && ReaderBounds(s.reader, s.size) && |s.reader.got| < |s.visible|
    ensures var rd, r := s.reader, s.visible[|s.reader.got|];
            && |rd.pc.buf| <= |EncodeV2(crc, r)|
            && ReaderNext(crc, s) ==
               if rd.pc.buf != EncodeV2(crc, r) then
                 rd.(pc := Copying(Aligned(r), EncodeV2(crc, r)[..|rd.pc.buf| + 1]))
               else Finish(rd, rd.pos + Aligned(r), Returned(r))
  {
    hide *;
    Standing(crc, s);
    CopyingIs(crc, s);
    var r := s.visible[|s.reader.got|];
    Placing(crc, s);
    RecordInPlace(crc, s, |s.reader.got|);
    DecodeEncoded(crc, r);
    CopyStep(crc, s, EncodeV2(crc, r), r);
  }

  lemma {:induction false} Placing(crc: Checksum, s: State)
    requires Inv(crc, s) && |s.reader.got| < |s.visible|
    ensures WriterOk(crc, s) && |EncodeV2(crc, s.visible[|s.reader.got|])| == Aligned(s.visible[|s.reader.got|])
  {
    hide WriterOk, ReaderOk, EncodeV2;
  }

  lemma {:induction false} CopyStep(crc: Checksum, s: State, e: seq<byte>, r: Record)
    requires s.reader.pc.Copying? && |s.mem| == s.size && ReaderBounds(s.reader, s.size)
    requires s.reader.pc.len == |e| && s.mem[s.reader.pos..s.reader.pos + |e|] == e && s.reader.pc.buf <= e
    requires |e| >= RECORD_FRAMING && DecodeV2(crc, e) == Returned(r)
    ensures var rd := s.reader;
            ReaderNext(crc, s) ==
            if rd.pc.buf != e then rd.(pc := Copying(|e|, e[..|rd.pc.buf| + 1]))
            else Finish(rd, rd.pos + |e|, Returned(r))
  {
    ByteOf(s.mem, s.reader.pos, |e|, s.reader.pc.buf, e);
    PayloadFits(crc, e);
    hide FromLE, Finish, DecodeV2;
  }

  lemma {:induction false} PayloadFits(crc: Checksum, buf: seq<byte>)
    requires |buf| >= RECORD_FRAMING && DecodeV2(crc, buf).Returned?
    ensures 24 + FromLE(buf[20..24]) + 4 <= |buf|
  {
  }

  lemma {:induction false} ByteOf(mem: seq<byte>, at: nat, len: nat, buf: seq<byte>, e: seq<byte>)
    requires at + len <= |mem| && mem[at..at + len] == e && buf <= e
    ensures |e| == len && |buf| <= len
    ensures buf != e ==> |buf| < len && buf + [mem[at + |buf|]] == e[..|buf| + 1]
  {
    if |buf| < len { assert mem[at + |buf|] == mem[at..at + len][|buf|]; }
    if |buf| == len { assert buf == e; }
  }

  /** A finished call leaves the reader after what it has returned. */
  lemma {:induction false} ReadyOk(crc: Checksum, s: State, rd: Reader)
    requires WriterOk(crc, s) && rd.pc.Ready? && rd.got <= s.visible && rd.outcome != Some(CorruptRecord)
    requires rd.pos == SEGMENT_HEADER_LEN + |EncodeAllV2(crc, rd.got)|
    ensures Inv(crc, s.(reader := rd))
  {
    OtherReader(crc, s, rd);
    hide EncodeAllV2, EncodeV2, WriterOk;
  }

  lemma {:induction false} CopyingOk(crc: Checksum, s: State, buf: seq<byte>)
    requires Inv(crc, s) && s.reader.pc.Copying? && |s.reader.got| < |s.visible|
    requires buf <= EncodeV2(crc, s.visible[|s.reader.got|])
    ensures Inv(crc, s.(reader := s.reader.(pc := Copying(s.reader.pc.len, buf))))
  {
    CopyingIs(crc, s);
    OtherReader(crc, s, s.reader.(pc := Copying(s.reader.pc.len, buf)));
    assert |EncodeV2(crc, s.visible[|s.reader.got|])| == Aligned(s.visible[|s.reader.got|]);
    hide EncodeAllV2, EncodeV2, WriterOk, Aligned;
  }

  lemma {:induction false} CopyKeeps(crc: Checksum, s: State)
    requires Inv(crc, s) && s.reader.pc.Copying?
    ensures |s.mem| == s.size && Inv(crc, s.(reader := ReaderNext(crc, s)))
  {
    hide *;
    CopyingIs(crc, s);
    CopyFinds(crc, s);
    Standing(crc, s);
    var n := |s.reader.got|;
    var r := s.visible[n];
    EncodedAt(crc, s.visible, n);
    Returning(crc, s);
    if s.reader.pc.buf == EncodeV2(crc, r) {
      ReadyOk(crc, s, Finish(s.reader, s.reader.pos + Aligned(r), Returned(r)));
    } else {
      CopyingOk(crc, s, EncodeV2(crc, r)[..|s.reader.pc.buf| + 1]);
    }
  }

  lemma {:induction false} Returning(crc: Checksum, s: State)
    requires Inv(crc, s) && |s.reader.got| < |s.visible|
    ensures WriterOk(crc, s)
    ensures var r := s.visible[|s.reader.got|];
            && |EncodeV2(crc, r)| == Aligned(r)
            && Finish(s.reader, s.reader.pos + Aligned(r), Returned(r)) ==
               Reader(s.reader.pos + Aligned(r), Ready, s.visible[..|s.reader.got| + 1], Some(Returned(r)))
  {
    hide WriterOk, EncodeV2, EncodeAllV2, Aligned;
    assert s.reader.got + [s.visible[|s.reader.got|]] == s.visible[..|s.reader.got| + 1];
  }

  lemma {:induction false} StartKeeps(crc: Checksum, s: State, w: Writer)
    requires Inv(crc, s) && s.writer.Idle? && (w.Skipping? || (w.Reserving? && Fits(w.r)))
    ensures Inv(crc, s.(writer := w))
  {
    hide EncodeAllV2, OpenMem, SealedMem, AllFit, Align8, EncodeV2;
  }

  lemma {:induction false} Bounds(crc: Checksum, s: State)
    requires Inv(crc, s)
    ensures InBounds(s)
  {
  }

  lemma {:induction false} StepKeeps(crc: Checksum, s: State, a: Action)
    requires Inv(crc, s) && Enabled(s, a)
    ensures InBounds(s) && Inv(crc, Next(crc, s, a))
  {
    Bounds(crc, s);
    hide WriterOk, ReaderOk, WriterNext, CallNext, ReaderNext;
    match a {
      case StartAppend(r) => StartKeeps(crc, s, Reserving(r));
      case StartSkip => StartKeeps(crc, s, Skipping);
      case WriterStep => WriterKeeps(crc, s); ReaderUnaware(crc, s);
      case Call => CallKeeps(crc, s);
      case ReaderStep => if s.reader.pc.AtLength? { LengthKeeps(crc, s); } else { CopyKeeps(crc, s); }
    }
  }

  lemma {:induction false} StartOk(crc: Checksum, s: State)
    requires Start(s)
    ensures Inv(crc, s)
  {
    assert EncodeAllV2(crc, []) == [];
    hide Zeros;
    assert Zeros(s.size - SEGMENT_HEADER_LEN) == [] + [] + Zeros(s.size - SEGMENT_HEADER_LEN);
  }

  lemma {:induction false} RunKeeps(crc: Checksum, s: State, actions: seq<Action>, s': State)
    requires Inv(crc, s) && Reaches(crc, s, actions, s')
    ensures Inv(crc, s')
    decreases |actions|
  {
    hide Inv, Enabled, Next, InBounds;
    if actions != [] {
      StepKeeps(crc, s, actions[0]);
      RunKeeps(crc, Next(crc, s, actions[0]), actions[1..], s');
    }
  }

  // ── Main results, over every run of a created segment ───────────────────────

  /** Everything `append` reported as written. */
  function Committed(s: State): seq<Record> { s.visible + s.hidden }

  /** Linearity: whatever the interleaving, a reader has returned a prefix of the committed appends, each record
      whole and once, and never an error. */
  lemma {:induction false} ReturnsPrefix(crc: Checksum, start: State, actions: seq<Action>, s: State)
    requires Start(start) && Reaches(crc, start, actions, s)
    ensures s.reader.got <= s.visible <= Committed(s)
    ensures s.reader.outcome != Some(CorruptRecord)
  {
    StartOk(crc, start);
    RunKeeps(crc, start, actions, s);
    hide EncodeAllV2, EncodeV2, WriterOk;
  }

  /** With the writer idle, the step that ends a call returns the next committed record, or finds that all of
      them up to the skip marker were returned, whether or not there is a marker. */
  lemma {:induction false} IdleWriter(crc: Checksum, start: State, actions: seq<Action>, s: State, a: Action)
    requires Start(start) && Reaches(crc, start, actions, s) && s.writer.Idle?
    requires (a.Call? || a.ReaderStep?) && Enabled(s, a)
    ensures InBounds(s)
    ensures var rd, rd' := s.reader, Next(crc, s, a).reader;
            rd'.pc.Ready? && rd'.outcome.Some? ==>
              if |rd.got| < |s.visible| then
                rd'.outcome == Some(Returned(s.visible[|rd.got|])) && rd'.got == s.visible[..|rd.got| + 1]
              else
                (rd'.outcome == Some(AwaitMore) || rd'.outcome == Some(EndOfSegment)) && rd'.got == s.visible
  {
    hide *;
    StartOk(crc, start);
    RunKeeps(crc, start, actions, s);
    IdleStep(crc, s, a);
  }

  lemma {:induction false} IdleStep(crc: Checksum, s: State, a: Action)
    requires Inv(crc, s) && s.writer.Idle? && (a.Call? || a.ReaderStep?) && Enabled(s, a)
    ensures InBounds(s)
    ensures var rd, rd' := s.reader, Next(crc, s, a).reader;
            rd'.pc.Ready? && rd'.outcome.Some? ==>
              if |rd.got| < |s.visible| then
                rd'.outcome == Some(Returned(s.visible[|rd.got|])) && rd'.got == s.visible[..|rd.got| + 1]
              else
                (rd'.outcome == Some(AwaitMore) || rd'.outcome == Some(EndOfSegment)) && rd'.got == s.visible
  {
    Bounds(crc, s);
    hide WriterOk;
    Next1(crc, s, a);
    Prefix(crc, s);
    if a.Call? {
      CallFinds(crc, s);
      hide Inv, ReaderOk;
    } else if s.reader.pc.AtLength? {
      LengthFinds(crc, s);
      hide Inv, ReaderOk, ReaderNext;
    } else {
      CopyingIs(crc, s);
      CopyFinds(crc, s);
      Returning(crc, s);
      hide Inv, ReaderOk, ReaderNext, EncodeV2, Aligned, Finish;
    }
  }

  lemma {:induction false} Next1(crc: Checksum, s: State, a: Action)
    requires InBounds(s) && Enabled(s, a) && (a.Call? || a.ReaderStep?)
    ensures Next(crc, s, a).reader == if a.Call? then CallNext(s) else ReaderNext(crc, s)
  {
  }

  lemma {:induction false} Prefix(crc: Checksum, s: State)
    requires Inv(crc, s)
    ensures |s.reader.got| <= |s.visible| && s.reader.got == s.visible[..|s.reader.got|]
    ensures |s.reader.got| == |s.visible| ==> s.reader.got == s.visible
  {
    hide EncodeAllV2, EncodeV2, WriterOk;
    assert s.visible[..|s.visible|] == s.visible;
  }

  /** No append to this segment will become visible any more: it is marked, or full to the last byte. */
  predicate Closed(crc: Checksum, s: State) { s.marker || End(crc, s) == s.size }

  lemma {:induction false} ClosedStep(crc: Checksum, s: State, a: Action)
    requires Inv(crc, s) && InBounds(s) && Enabled(s, a) && Closed(crc, s)
    ensures Closed(crc, Next(crc, s, a)) && Next(crc, s, a).visible == s.visible
  {
    VisibleInPlace(crc, s);
    if s.writer.Claiming? || s.writer.Filling? || s.writer.Summing? { AlignedBounds(s.writer.r); }
    if s.writer.Reserving? { AlignedBounds(s.writer.r); }
    hide EncodeAllV2, LE, AllFit, OpenMem, SealedMem, Store, ReaderOk, CallNext, ReaderNext, Align8, Body;
  }

  lemma {:induction false} ClosedForGood(crc: Checksum, s: State, actions: seq<Action>, s': State)
    requires Inv(crc, s) && Closed(crc, s) && Reaches(crc, s, actions, s')
    ensures s'.visible == s.visible
    decreases |actions|
  {
    hide Inv, Enabled, Next, InBounds, Closed;
    if actions != [] {
      StepKeeps(crc, s, actions[0]);
      ClosedStep(crc, s, actions[0]);
      ClosedForGood(crc, Next(crc, s, actions[0]), actions[1..], s');
    }
  }

  lemma {:induction false} EndIsClosed(crc: Checksum, s: State, a: Action)
    requires Inv(crc, s) && InBounds(s) && Enabled(s, a) && (a.Call? || a.ReaderStep?)
    requires Next(crc, s, a).reader.pc.Ready? && Next(crc, s, a).reader.outcome == Some(EndOfSegment)
    ensures Closed(crc, Next(crc, s, a)) && Next(crc, s, a).reader.got == s.visible == Next(crc, s, a).visible
  {
    Next1(crc, s, a);
    Prefix(crc, s);
    if a.Call? {
      FullIsClosed(crc, s);
    } else if s.reader.pc.AtLength? {
      LengthFinds(crc, s);
      hide Inv, ReaderOk, WriterOk, ReaderNext, EncodeAllV2;
    } else {
      CopyingIs(crc, s);
      CopyFinds(crc, s);
      hide Inv, ReaderOk, WriterOk, ReaderNext, EncodeV2, Aligned;
      assert false;
    }
  }

  lemma {:induction false} FullIsClosed(crc: Checksum, s: State)
    requires Inv(crc, s) && s.reader.pc.Ready?
    requires CallNext(s).pc.Ready? && CallNext(s).outcome == Some(EndOfSegment)
    ensures Closed(crc, s.(reader := CallNext(s))) && CallNext(s).got == s.visible
  {
    VisibleInPlace(crc, s);
    var n := |s.reader.got|;
    Prefix(crc, s);
    if n < |s.visible| { CleanLength(crc, s, n); RecordInPlace(crc, s, n); }
    hide WriterOk, EncodeAllV2, Align8;
  }

  /** `EndOfSegment` is final: the call that reports it has returned all there is, and no later step of anybody
      makes another record visible. */
  lemma {:induction false} EndIsFinal(crc: Checksum, start: State, actions: seq<Action>, s: State, a: Action,
          later: seq<Action>, s': State)
    requires Start(start) && Reaches(crc, start, actions, s) && InBounds(s) && Enabled(s, a) &&
      (a.Call? || a.ReaderStep?)
    requires Next(crc, s, a).reader.pc.Ready? && Next(crc, s, a).reader.outcome == Some(EndOfSegment)
    requires Reaches(crc, Next(crc, s, a), later, s')
    ensures s'.visible == s.visible == Next(crc, s, a).reader.got && s'.reader.got <= s.visible
  {
    hide *;
    StartOk(crc, start);
    RunKeeps(crc, start, actions, s);
    EndIsClosed(crc, s, a);
    StepKeeps(crc, s, a);
    ClosedForGood(crc, Next(crc, s, a), later, s');
    RunKeeps(crc, Next(crc, s, a), later, s');
    Prefix(crc, s');
  }

  /** Appending behind a skip marker reports success, but no reader of the segment ever gets to see the record. */
  lemma {:induction false} AppendBehindMarkerIsLost(crc: Checksum, start: State, actions: seq<Action>, s: State,
          later: seq<Action>, s': State)
    requires Start(start) && Reaches(crc, start, actions, s) && s.marker && Reaches(crc, s, later, s')
    ensures s'.visible == s.visible && s'.reader.got <= s.visible
    ensures s'.reader.got == Committed(s') ==> s'.hidden == []
  {
    StartOk(crc, start);
    RunKeeps(crc, start, actions, s);
    ClosedForGood(crc, s, later, s');
    RunKeeps(crc, s, later, s');
    Prefix(crc, s');
    hide Inv;
    assert |Committed(s')| == |s'.visible| + |s'.hidden|;
  }

  // ── Appends that nothing interrupts ─────────────────────────────────────────

  lemma {:induction false} ReachesOn(crc: Checksum, s: State, a: seq<Action>, m: State, b: seq<Action>, s': State)
    requires Reaches(crc, s, a, m) && Reaches(crc, m, b, s')
    ensures Reaches(crc, s, a + b, s')
    decreases |a|
  {
    hide InBounds, Enabled, Next;
    if a == [] {
      assert a + b == b;
    } else {
      ReachesOn(crc, Next(crc, s, a[0]), a[1..], m, b, s');
      assert (a + b)[1..] == a[1..] + b;
    }
  }

  /** The accesses an append has still to make once its space is reserved. */
  function StepsLeft(w: Writer): nat
    requires w.Filling? ==> w.k <= 20 + |w.r.payload|
    requires w.Summing? ==> w.k <= 4
  {
    match w
    case Claiming(r, _) => 28 + |r.payload|
    case Filling(r, _, k) => 26 + |r.payload| - k
    case Summing(_, _, _, k) => 5 - k
    case _ => 0
  }

  /** One access of an append: one less to make, or the record is committed. */
  lemma {:induction false} AppendStep(crc: Checksum, s: State)
    requires Inv(crc, s) && !s.marker && (s.writer.Claiming? || s.writer.Filling? || s.writer.Summing?)
    ensures InBounds(s) && Enabled(s, WriterStep)
    ensures var s', r := Next(crc, s, WriterStep), s.writer.r;
            && Inv(crc, s') && !s'.marker && s'.reader == s.reader && s'.size == s.size
            && (if s'.writer.Idle? then s'.visible == s.visible + [r]
                else
                  && (s'.writer.Claiming? || s'.writer.Filling? || s'.writer.Summing?)
                  && s'.visible == s.visible && s'.writer.r == r
                  && WriterBounds(s') && StepsLeft(s'.writer) < StepsLeft(s.writer))
  {
    hide *;
    Bounds(crc, s);
    AppendStepShape(crc, s);
    StepKeeps(crc, s, WriterStep);
    Bounds(crc, Next(crc, s, WriterStep));
    InBoundsParts(Next(crc, s, WriterStep));
  }

  lemma {:induction false} InBoundsParts(s: State)
    requires InBounds(s)
    ensures WriterBounds(s)
  {
  }

  lemma {:induction false} AppendStepShape(crc: Checksum, s: State)
    requires InBounds(s) && !s.marker && (s.writer.Claiming? || s.writer.Filling? || s.writer.Summing?)
    ensures Enabled(s, WriterStep) && WriterBounds(s)
    ensures var s', r := Next(crc, s, WriterStep), s.writer.r;
            && !s'.marker && s'.reader == s.reader && s'.size == s.size
            && (if s'.writer.Idle? then s'.visible == s.visible + [r]
                else
                  && (s'.writer.Claiming? || s'.writer.Filling? || s'.writer.Summing?)
                  && s'.visible == s.visible && s'.writer.r == r
                  && (s'.writer.Filling? ==> s'.writer.k <= 20 + |r.payload|)
                  && (s'.writer.Summing? ==> s'.writer.k <= 4)
                  && StepsLeft(s'.writer) < StepsLeft(s.writer))
  {
    hide LE, Body, Store, Align8, ReaderBounds, Aligned;
  }

  lemma {:induction false} AppendFinishes(crc: Checksum, s: State) returns (actions: seq<Action>, s': State)
    requires Inv(crc, s) && !s.marker && (s.writer.Claiming? || s.writer.Filling? || s.writer.Summing?) &&
      WriterBounds(s)
    ensures Reaches(crc, s, actions, s') && Inv(crc, s') && !s'.marker && s'.writer.Idle?
    ensures s'.reader == s.reader && s'.size == s.size && s'.visible == s.visible + [s.writer.r]
    decreases StepsLeft(s.writer)
  {
    hide Inv, Enabled, Next, InBounds, WriterBounds, StepsLeft;
    AppendStep(crc, s);
    var s1 := Next(crc, s, WriterStep);
    var rest: seq<Action> := [];
    s' := s1;
    if !s1.writer.Idle? { rest, s' := AppendFinishes(crc, s1); }
    actions := [WriterStep] + rest;
    assert actions[1..] == rest;
  }

  /** The start of an append that fits. */
  lemma {:induction false} AppendStarts(crc: Checksum, s: State, r: Record)
    requires Inv(crc, s) && s.writer.Idle? && !s.marker && Fits(r) && End(crc, s) + Aligned(r) <= s.size
    ensures InBounds(s) && Enabled(s, StartAppend(r))
    ensures var s1 := Next(crc, s, StartAppend(r));
            && InBounds(s1) && Enabled(s1, WriterStep)
            && var s2 := Next(crc, s1, WriterStep);
               Inv(crc, s2) && WriterBounds(s2) && s2 == s.(tail := s2.tail, writer := Claiming(r, s.tail))
  {
    Bounds(crc, s);
    StepKeeps(crc, s, StartAppend(r));
    var s1 := Next(crc, s, StartAppend(r));
    Bounds(crc, s1);
    StepKeeps(crc, s1, WriterStep);
    Bounds(crc, Next(crc, s1, WriterStep));
    assert s.tail == End(crc, s) by { IdleTail(crc, s); }
    hide Inv, End, Aligned, LE, Body, Store;
  }

  lemma {:induction false} IdleTail(crc: Checksum, s: State)
    requires Inv(crc, s) && s.writer.Idle? && !s.marker
    ensures s.tail == End(crc, s)
  {
    hide EncodeAllV2, OpenMem, ReaderOk, AllFit;
  }

  /** Any records that fit behind the visible ones can be appended, each becoming visible. */
  lemma {:induction false} AppendsReach(crc: Checksum, s: State, rs: seq<Record>)
    returns (actions: seq<Action>, s': State)
    requires Inv(crc, s) && s.writer.Idle? && !s.marker
    requires AllFit(rs) && SEGMENT_HEADER_LEN + |EncodeAllV2(crc, s.visible + rs)| <= s.size
    ensures Reaches(crc, s, actions, s') && Inv(crc, s') && s'.writer.Idle? && !s'.marker
    ensures s'.visible == s.visible + rs && s'.reader == s.reader && s'.size == s.size
    decreases |rs|
  {
    hide *;
    if rs == [] {
      assert s.visible + rs == s.visible;
      ReachesItself(crc, s);
      return [], s;
    }
    var r, rest := rs[0], rs[1..];
    assert s.visible + rs == s.visible + [r] + rest;
    RoomForOne(crc, s, rs);
    FirstFits(rs);
    var one, s1 := OneAppend(crc, s, r);
    var later;
    later, s' := AppendsReach(crc, s1, rest);
    ReachesOn(crc, s, one, s1, later, s');
    actions := one + later;
  }

  lemma {:induction false} ReachesItself(crc: Checksum, s: State)
    ensures Reaches(crc, s, [], s)
  {
  }

  lemma {:induction false} FirstFits(rs: seq<Record>)
    requires rs != [] && AllFit(rs)
    ensures Fits(rs[0]) && AllFit(rs[1..])
  {
  }

  lemma {:induction false} OneAppend(crc: Checksum, s: State, r: Record) returns (actions: seq<Action>, s': State)
    requires Inv(crc, s) && s.writer.Idle? && !s.marker && Fits(r) && End(crc, s) + Aligned(r) <= s.size
    ensures Reaches(crc, s, actions, s') && Inv(crc, s') && s'.writer.Idle? && !s'.marker
    ensures s'.visible == s.visible + [r] && s'.reader == s.reader && s'.size == s.size
  {
    AppendStarts(crc, s, r);
    hide Inv, Enabled, Next, InBounds, WriterBounds, EncodeAllV2, Aligned;
    var s1 := Next(crc, s, StartAppend(r));
    var more;
    more, s' := AppendFinishes(crc, Next(crc, s1, WriterStep));
    assert ([StartAppend(r), WriterStep] + more)[1..] == [WriterStep] + more && ([WriterStep] + more)[1..] == more;
    assert Reaches(crc, s1, [WriterStep] + more, s');
    actions := [StartAppend(r), WriterStep] + more;
  }

  lemma {:induction false} RoomForOne(crc: Checksum, s: State, rs: seq<Record>)
    requires rs != [] && SEGMENT_HEADER_LEN + |EncodeAllV2(crc, s.visible + rs)| <= s.size
    ensures End(crc, s) + Aligned(rs[0]) <= s.size
  {
    hide EncodeAllV2, Aligned;
    var all, n := s.visible + rs, |s.visible|;
    EncodedPrefix(crc, all, n + 1);
    EncodeMore(crc, s.visible, rs[0]);
    assert all[..n + 1] == s.visible + [rs[0]];
    assert |EncodeV2(crc, rs[0])| == Aligned(rs[0]);
  }
}
