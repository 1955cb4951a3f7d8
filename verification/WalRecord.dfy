/** Records and segment files of the write-ahead log: crates/mmbus/src/wal/record.rs and
    crates/mmbus/src/wal/segment_reader.rs. `crc` stands for the checksum throughout. */
module WalRecord {
  import opened Bytes

  const SEGMENT_MAGIC: nat := 0x6D6D_6275_7357_414C
  const SEGMENT_VERSION: nat := 1
  const SEGMENT_HEADER_LEN: nat := 32
  const RECORD_FRAMING: nat := 28
  const MAX_RECORD_LEN: nat := 16 * 1024 * 1024
  const MAX_PAYLOAD_LEN: nat := MAX_RECORD_LEN - RECORD_FRAMING

  datatype Record = Record(cursor: u64, ts: u64, payload: seq<byte>)

  predicate Fits(r: Record) { |r.payload| <= MAX_PAYLOAD_LEN }

  predicate AllFit(rs: seq<Record>) { forall r :: r in rs ==> Fits(r) }

  // ── Segment header ──────────────────────────────────────────────────────────

  datatype HeaderError = BadMagic(magic: nat) | UnsupportedVersion(version: nat) | Truncated(len: nat)

  datatype Header = HeaderOk(firstCursor: nat, created: nat) | HeaderErr(error: HeaderError)

  function EncodeHeader(firstCursor: u64, created: u64): (h: seq<byte>)
    ensures |h| == SEGMENT_HEADER_LEN
  {
    LE(SEGMENT_MAGIC, 8) + LE(SEGMENT_VERSION, 4) + LE(0, 4) + LE(firstCursor, 8) + LE(created, 8)
  }

  function ParseHeader(b: seq<byte>): Header {
    if |b| < SEGMENT_HEADER_LEN then HeaderErr(Truncated(|b|))
    else if FromLE(b[0..8]) != SEGMENT_MAGIC then HeaderErr(BadMagic(FromLE(b[0..8])))
    else if FromLE(b[8..12]) != SEGMENT_VERSION then HeaderErr(UnsupportedVersion(FromLE(b[8..12])))
    else HeaderOk(FromLE(b[16..24]), FromLE(b[24..32]))
  }

  /** A written header is accepted, whatever follows it in the file. */
  lemma {:induction false} HeaderRoundTrip(firstCursor: u64, created: u64, rest: seq<byte>)
    ensures ParseHeader(EncodeHeader(firstCursor, created) + rest) == HeaderOk(firstCursor, created)
  {
    hide LE, FromLE, Pow256;
    var b := EncodeHeader(firstCursor, created) + rest;
    assert b[0..8] == LE(SEGMENT_MAGIC, 8) && b[8..12] == LE(SEGMENT_VERSION, 4);
    assert b[16..24] == LE(firstCursor, 8) && b[24..32] == LE(created, 8);
    RoundTrip64(SEGMENT_MAGIC); RoundTrip32(SEGMENT_VERSION); RoundTrip64(firstCursor); RoundTrip64(created);
  }

  /** Any bytes: they are accepted as a header exactly if they are one, the four reserved bytes aside. */
  lemma {:induction false} HeaderAcceptedIff(b: seq<byte>, firstCursor: u64, created: u64)
    ensures ParseHeader(b) == HeaderOk(firstCursor, created) <==>
            |b| >= SEGMENT_HEADER_LEN && b[..12] == EncodeHeader(firstCursor, created)[..12] &&
              b[16..32] == EncodeHeader(firstCursor, created)[16..]
  {
    hide FromLE, EncodeHeader;
    var h := EncodeHeader(firstCursor, created);
    HeaderLayout(firstCursor, created);
    if |b| >= SEGMENT_HEADER_LEN {
      SameField(b, h, 0, 8); SameField(b, h, 8, 12); SameField(b, h, 16, 24); SameField(b, h, 24, 32);
      TwoFields(b, h, 0, 8, 12);
      TwoFields(b, h, 16, 24, 32);
      assert b[..12] == b[0..12] && h[..12] == h[0..12] && h[16..] == h[16..32];
    }
  }

  lemma {:induction false} TwoFields(b: seq<byte>, h: seq<byte>, i: nat, j: nat, k: nat)
    requires i <= j <= k <= |b| && k <= |h|
    ensures b[i..k] == h[i..k] <==> b[i..j] == h[i..j] && b[j..k] == h[j..k]
  {
    assert b[i..k] == b[i..j] + b[j..k] && h[i..k] == h[i..j] + h[j..k];
    if b[i..k] == h[i..k] {
      assert b[i..j] == b[i..k][..j - i] && b[j..k] == b[i..k][j - i..];
      assert h[i..j] == h[i..k][..j - i] && h[j..k] == h[i..k][j - i..];
    }
  }

  /** A field that decodes to the same number has the same bytes. */
  lemma {:induction false} SameField(b: seq<byte>, h: seq<byte>, i: nat, j: nat)
    requires i <= j <= |b| && j <= |h|
    ensures FromLE(b[i..j]) == FromLE(h[i..j]) ==> b[i..j] == h[i..j]
  {
    LEOfFromLE(b[i..j]);
    LEOfFromLE(h[i..j]);
  }

  /** Where the fields of a header sit. */
  lemma {:induction false} HeaderLayout(firstCursor: u64, created: u64)
    ensures var h := EncodeHeader(firstCursor, created);
            && FromLE(h[0..8]) == SEGMENT_MAGIC && FromLE(h[8..12]) == SEGMENT_VERSION
            && FromLE(h[16..24]) == firstCursor && FromLE(h[24..32]) == created
            && h[12..16] == [0, 0, 0, 0]
  {
    hide LE, FromLE, Pow256;
    var h := EncodeHeader(firstCursor, created);
    var front := LE(SEGMENT_MAGIC, 8) + LE(SEGMENT_VERSION, 4) + LE(0, 4) + LE(firstCursor, 8);
    assert front[0..8] == LE(SEGMENT_MAGIC, 8) && front[8..12] == LE(SEGMENT_VERSION, 4);
    assert front[12..16] == LE(0, 4) && front[16..24] == LE(firstCursor, 8);
    assert h == front + LE(created, 8);
    assert h[0..8] == front[0..8] && h[8..12] == front[8..12] && h[12..16] == front[12..16];
    assert h[16..24] == front[16..24] && h[24..32] == LE(created, 8);
    RoundTrip64(SEGMENT_MAGIC); RoundTrip32(SEGMENT_VERSION); RoundTrip64(firstCursor); RoundTrip64(created);
    ZeroBytes();
  }

  lemma {:induction false} ZeroBytes()
    ensures LE(0, 4) == [0, 0, 0, 0]
  {
    assert LE(0, 1) == [0] && LE(0, 2) == [0, 0] && LE(0, 3) == [0, 0, 0];
  }

  // ── One record ──────────────────────────────────────────────────────────────

  function EncodedLen(r: Record): nat { RECORD_FRAMING + |r.payload| }

  /** The bytes the checksum covers. */
  function Body(r: Record): (b: seq<byte>)
    ensures |b| == 20 + |r.payload|
  {
    LE(r.cursor, 8) + LE(r.ts, 8) + LE(|r.payload|, 4) + r.payload
  }

  function Encode(crc: Checksum, r: Record): (b: seq<byte>)
    ensures |b| == EncodedLen(r)
  {
    LE(EncodedLen(r), 4) + Body(r) + LE(crc(Body(r)), 4)
  }

  datatype ReadError =
    | ShortRead(needed: nat)
    | OversizeRecord(recordLen: nat)
    | CrcMismatch(stored: nat, computed: nat)

  datatype ReadResult = Eof | Found(record: Record, advance: nat) | Bad(error: ReadError)

  /** `read_one_record`, on the bytes from the reader's position to the end of the file. */
  function ReadOne(crc: Checksum, s: seq<byte>): ReadResult {
    if s == [] then Eof
    else if |s| < 4 then Bad(ShortRead(4 - |s|))
    else
      var recordLen := FromLE(s[0..4]);
      if recordLen > MAX_RECORD_LEN || recordLen < RECORD_FRAMING then Bad(OversizeRecord(recordLen))
      else if |s| < recordLen then Bad(ShortRead(recordLen - |s|))
      else
        var body := s[4..recordLen - 4];
        var stored := FromLE(s[recordLen - 4..recordLen]);
        if stored != crc(body) then Bad(CrcMismatch(stored, crc(body)))
        else
          var payloadLen := FromLE(body[16..20]);
          if payloadLen + RECORD_FRAMING != recordLen then Bad(OversizeRecord(recordLen))
          else
            Decoded64(body[0..8]); Decoded64(body[8..16]);
            Found(Record(FromLE(body[0..8]), FromLE(body[8..16]), body[20..20 + payloadLen]), recordLen)
  }

  lemma {:induction false} BodyFields(r: Record)
    ensures Body(r)[0..8] == LE(r.cursor, 8) && Body(r)[8..16] == LE(r.ts, 8)
    ensures Body(r)[16..20] == LE(|r.payload|, 4) && Body(r)[20..] == r.payload
  {
  }

  /** Where the fields of a record sit, and what its checksum covers: everything between its length and itself. */
  lemma {:induction false} RecordLayout(crc: Checksum, r: Record)
    requires Fits(r)
    ensures var e, n := Encode(crc, r), EncodedLen(r);
            && FromLE(e[0..4]) == n == |e|
            && FromLE(e[4..12]) == r.cursor && FromLE(e[12..20]) == r.ts && FromLE(e[20..24]) == |r.payload|
            && e[24..n - 4] == r.payload && FromLE(e[n - 4..]) == crc(e[4..n - 4])
  {
    hide LE, FromLE, Pow256;
    var e, n := Encode(crc, r), EncodedLen(r);
    assert e[0..4] == LE(n, 4) && e[4..n - 4] == Body(r) && e[n - 4..] == LE(crc(Body(r)), 4);
    BodyFields(r);
    assert e[4..12] == Body(r)[0..8] && e[12..20] == Body(r)[8..16] && e[20..24] == Body(r)[16..20];
    assert e[24..n - 4] == Body(r)[20..];
    RoundTrip32(n); RoundTrip32(crc(Body(r))); RoundTrip32(|r.payload|);
    RoundTrip64(r.cursor); RoundTrip64(r.ts);
  }

  /** An encoded record is read back, whatever follows it. */
  lemma {:induction false} ReadEncoded(crc: Checksum, r: Record, rest: seq<byte>)
    requires Fits(r)
    ensures ReadOne(crc, Encode(crc, r) + rest) == Found(r, EncodedLen(r))
  {
    hide LE, FromLE, Pow256;
    var s, n := Encode(crc, r) + rest, EncodedLen(r);
    assert s[0..4] == LE(n, 4) && s[4..n - 4] == Body(r) && s[n - 4..n] == LE(crc(Body(r)), 4);
    BodyFields(r);
    RoundTrip32(n); RoundTrip32(crc(Body(r))); RoundTrip32(|r.payload|);
    RoundTrip64(r.cursor); RoundTrip64(r.ts);
    assert Body(r)[20..20 + |r.payload|] == r.payload;
  }

  /** Bytes that are accepted are exactly the encoding of the record they are accepted as. */
  lemma {:induction false} AcceptedIsEncoding(crc: Checksum, s: seq<byte>)
    requires ReadOne(crc, s).Found?
    ensures Fits(ReadOne(crc, s).record)
    ensures ReadOne(crc, s).advance == EncodedLen(ReadOne(crc, s).record) <= |s|
    ensures s[..ReadOne(crc, s).advance] == Encode(crc, ReadOne(crc, s).record)
  {
    hide LE, FromLE, Pow256;
    var Found(r, n) := ReadOne(crc, s);
    var body := s[4..n - 4];
    Decoded32(s[0..4]); Decoded32(s[n - 4..n]); Decoded32(body[16..20]);
    Decoded64(body[0..8]); Decoded64(body[8..16]);
    assert body[20..20 + |r.payload|] == body[20..];
    assert body == body[0..8] + body[8..16] + body[16..20] + body[20..];
    assert body == Body(r);
    assert s[..n] == s[0..4] + body + s[n - 4..n];
  }

  /** A record cut short, even by one byte, is not accepted: it reads as a short record. */
  lemma {:induction false} CutIsShort(crc: Checksum, r: Record, n: nat)
    requires Fits(r) && 0 < n < EncodedLen(r)
    ensures ReadOne(crc, Encode(crc, r)[..n]).Bad? && ReadOne(crc, Encode(crc, r)[..n]).error.ShortRead?
  {
    hide LE, FromLE, Pow256;
    var s := Encode(crc, r)[..n];
    if n >= 4 {
      assert s[0..4] == LE(EncodedLen(r), 4);
      RoundTrip32(EncodedLen(r));
    }
  }

  // ── The records of a file ───────────────────────────────────────────────────

  function EncodeAll(crc: Checksum, rs: seq<Record>): seq<byte> {
    if rs == [] then [] else Encode(crc, rs[0]) + EncodeAll(crc, rs[1..])
  }

  function EncodedLenAll(rs: seq<Record>): nat {
    if rs == [] then 0 else EncodedLen(rs[0]) + EncodedLenAll(rs[1..])
  }

  /** What reading on to the first record that is not accepted gives. */
  datatype Scanned = Scanned(records: seq<Record>, good: nat, last: ReadResult)

  function Scan(crc: Checksum, s: seq<byte>): (q: Scanned)
    decreases |s|
  {
    var one := ReadOne(crc, s);
    if !one.Found? then Scanned([], 0, one)
    else
      AcceptedIsEncoding(crc, s);
      var q := Scan(crc, s[one.advance..]);
      Scanned([one.record] + q.records, one.advance + q.good, q.last)
  }

  lemma {:induction false} ScanStep(crc: Checksum, r: Record, rest: seq<byte>)
    requires Fits(r)
    ensures var q := Scan(crc, rest);
            Scan(crc, Encode(crc, r) + rest) == Scanned([r] + q.records, EncodedLen(r) + q.good, q.last)
  {
    hide ReadOne, Encode;
    ReadEncoded(crc, r, rest);
    assert (Encode(crc, r) + rest)[EncodedLen(r)..] == rest;
  }

  lemma {:induction false} EncodedLenIs(crc: Checksum, rs: seq<Record>)
    ensures |EncodeAll(crc, rs)| == EncodedLenAll(rs)
  {
    if rs != [] { EncodedLenIs(crc, rs[1..]); }
  }

  /** What the scan accepts is a concatenation of exact encodings, and all of it up to the first bad record. */
  lemma {:induction false} ScanIsEncoding(crc: Checksum, s: seq<byte>)
    ensures var q := Scan(crc, s);
            && AllFit(q.records) && q.good <= |s| && s[..q.good] == EncodeAll(crc, q.records)
            && !q.last.Found? && q.last == ReadOne(crc, s[q.good..])
    decreases |s|
  {
    hide ReadOne, Encode;
    var one := ReadOne(crc, s);
    if one.Found? {
      AcceptedIsEncoding(crc, s);
      var t := s[one.advance..];
      ScanIsEncoding(crc, t);
      var q, q' := Scan(crc, s), Scan(crc, t);
      assert q.records[1..] == q'.records;
      assert s[..q.good] == s[..one.advance] + t[..q'.good];
      assert s[q.good..] == t[q'.good..];
    }
  }

  /** Records laid down one after the other are read back before anything that follows them. */
  lemma {:induction false} ScanOfEncodings(crc: Checksum, rs: seq<Record>, rest: seq<byte>)
    requires AllFit(rs)
    ensures var q := Scan(crc, rest);
            Scan(crc, EncodeAll(crc, rs) + rest) == Scanned(rs + q.records, EncodedLenAll(rs) + q.good, q.last)
  {
    hide ReadOne, Encode, Scan;
    if rs == [] {
      assert EncodeAll(crc, rs) + rest == rest;
    } else {
      var tail := EncodeAll(crc, rs[1..]) + rest;
      ScanStep(crc, rs[0], tail);
      ScanOfEncodings(crc, rs[1..], rest);
      assert EncodeAll(crc, rs) + rest == Encode(crc, rs[0]) + tail;
      assert rs + Scan(crc, rest).records == [rs[0]] + (rs[1..] + Scan(crc, rest).records);
    }
  }

  /** The accepted prefix is the longest one: any other concatenation of encodings at the front is part of it. */
  lemma {:induction false} ScanIsLongest(crc: Checksum, s: seq<byte>, rs: seq<Record>)
    requires AllFit(rs) && EncodeAll(crc, rs) <= s
    ensures rs <= Scan(crc, s).records && |EncodeAll(crc, rs)| <= Scan(crc, s).good
  {
    var e := EncodeAll(crc, rs);
    assert s == e + s[|e|..];
    ScanOfEncodings(crc, rs, s[|e|..]);
    EncodedLenIs(crc, rs);
  }

  /** How many of the records end at or before byte `n`. */
  function WhollyBefore(rs: seq<Record>, n: nat): (k: nat)
    ensures k <= |rs|
  {
    if rs == [] || n < EncodedLen(rs[0]) then 0 else 1 + WhollyBefore(rs[1..], n - EncodedLen(rs[0]))
  }

  lemma {:induction false} WhollyBeforeIs(crc: Checksum, rs: seq<Record>, n: nat)
    ensures var k := WhollyBefore(rs, n);
            && EncodedLenAll(rs[..k]) <= n
            && (k < |rs| ==> n < EncodedLenAll(rs[..k + 1]))
  {
    if rs != [] && n >= EncodedLen(rs[0]) {
      WhollyBeforeIs(crc, rs[1..], n - EncodedLen(rs[0]));
      var k := WhollyBefore(rs[1..], n - EncodedLen(rs[0]));
      assert rs[..k + 1][1..] == rs[1..][..k];
      if k + 1 < |rs| { assert rs[..k + 2][1..] == rs[1..][..k + 1]; }
    } else if rs != [] {
      assert rs[..1][1..] == [];
    }
  }

  /** Crash at any byte: of records cut at byte `n` exactly those that end at or before the cut are read. */
  lemma {:induction false} ScanOfCut(crc: Checksum, rs: seq<Record>, n: nat)
    requires AllFit(rs) && n <= EncodedLenAll(rs) && |EncodeAll(crc, rs)| == EncodedLenAll(rs)
    ensures var q, k := Scan(crc, EncodeAll(crc, rs)[..n]), WhollyBefore(rs, n);
            q.records == rs[..k] && q.good == EncodedLenAll(rs[..k]) && (q.last.Bad? <==> q.good < n)
  {
    hide ReadOne, Encode, Scan;
    var e := EncodeAll(crc, rs);
    if rs == [] || n == 0 {
      assert e[..n] == [] && rs[..WhollyBefore(rs, n)] == [];
      ScanEmpty(crc);
    } else if n < EncodedLen(rs[0]) {
      assert e[..n] == Encode(crc, rs[0])[..n];
      CutIsShort(crc, rs[0], n);
      ScanBad(crc, e[..n]);
      assert rs[..0] == [];
    } else {
      var m, k := n - EncodedLen(rs[0]), WhollyBefore(rs, n);
      EncodedLenIs(crc, rs[1..]);
      assert e[..n] == Encode(crc, rs[0]) + EncodeAll(crc, rs[1..])[..m];
      ScanStep(crc, rs[0], EncodeAll(crc, rs[1..])[..m]);
      ScanOfCut(crc, rs[1..], m);
      assert rs[..k] == [rs[0]] + rs[1..][..k - 1];
    }
  }

  lemma {:induction false} ScanEmpty(crc: Checksum)
    ensures Scan(crc, []) == Scanned([], 0, Eof)
  {
  }

  lemma {:induction false} ScanBad(crc: Checksum, s: seq<byte>)
    requires ReadOne(crc, s).Bad?
    ensures Scan(crc, s) == Scanned([], 0, ReadOne(crc, s))
  {
  }

  // ── Recovery ────────────────────────────────────────────────────────────────

  datatype Report =
    | Recovered(finalLen: nat, bytesDropped: nat, lastCursor: Option<u64>)
    | Unreadable(error: HeaderError)

  function LastCursor(rs: seq<Record>): Option<u64> {
    if rs == [] then None else Some(rs[|rs| - 1].cursor)
  }

  /** The bytes a segment holds after recovery. */
  function RecoveredBytes(crc: Checksum, file: seq<byte>): seq<byte>
    requires |file| >= SEGMENT_HEADER_LEN
  {
    ScanIsEncoding(crc, file[SEGMENT_HEADER_LEN..]);
    file[..SEGMENT_HEADER_LEN + Scan(crc, file[SEGMENT_HEADER_LEN..]).good]
  }

  /** A file on disk. */
  class SegmentFile {
    var bytes: seq<byte>

    constructor (bytes: seq<byte>)
      ensures this.bytes == bytes
    {
      this.bytes := bytes;
    }
  }

  /** What one read tells about the scan from there. */
  lemma {:induction false} ScanUnfolds(crc: Checksum, s: seq<byte>)
    ensures var one := ReadOne(crc, s);
            if one.Found? then
              && 0 < one.advance <= |s|
              && var q := Scan(crc, s[one.advance..]);
                 Scan(crc, s) == Scanned([one.record] + q.records, one.advance + q.good, q.last)
            else Scan(crc, s) == Scanned([], 0, one)
  {
    hide ReadOne, Encode;
    if ReadOne(crc, s).Found? { AcceptedIsEncoding(crc, s); }
  }

  lemma {:induction false} RecoveredIs(crc: Checksum, file: seq<byte>)
    requires |file| >= SEGMENT_HEADER_LEN
    ensures var n := SEGMENT_HEADER_LEN + Scan(crc, file[SEGMENT_HEADER_LEN..]).good;
            n <= |file| && RecoveredBytes(crc, file) == file[..n]
  {
    hide Scan;
    ScanIsEncoding(crc, file[SEGMENT_HEADER_LEN..]);
  }

  lemma {:induction false} EofMeansEnd(crc: Checksum, s: seq<byte>)
    requires ReadOne(crc, s).Eof?
    ensures s == []
  {
  }

  /** The scan loop of `recover_truncate`: where the good records end, the last of them, and whether a bad one
      follows. */
  method FindGoodEnd(crc: Checksum, file: seq<byte>)
    returns (lastGoodEnd: nat, lastCursor: Option<u64>, hitBadRecord: bool)
    requires |file| >= SEGMENT_HEADER_LEN
    ensures SEGMENT_HEADER_LEN <= lastGoodEnd <= |file|
    ensures var q := Scan(crc, file[SEGMENT_HEADER_LEN..]);
            && lastGoodEnd == SEGMENT_HEADER_LEN + q.good && lastCursor == LastCursor(q.records)
            && (hitBadRecord <==> q.last.Bad?)
    ensures !hitBadRecord ==> lastGoodEnd == |file|
  {
    hide ReadOne, Encode, Scan;
    var pos := SEGMENT_HEADER_LEN;
    lastGoodEnd, lastCursor, hitBadRecord := pos, None, false;
    ghost var whole := Scan(crc, file[SEGMENT_HEADER_LEN..]);
    ghost var done: seq<Record> := [];
    assert forall rs: seq<Record> :: [] + rs == rs;
    while true
      invariant SEGMENT_HEADER_LEN <= pos == lastGoodEnd <= |file|
      invariant var q := Scan(crc, file[pos..]);
                whole == Scanned(done + q.records, pos - SEGMENT_HEADER_LEN + q.good, q.last)
      invariant lastCursor == LastCursor(done) && !hitBadRecord
      decreases |file| - pos
    {
      var one := ReadOne(crc, file[pos..]);
      ScanUnfolds(crc, file[pos..]);
      match one {
        case Eof =>
          assert done + [] == done;
          EofMeansEnd(crc, file[pos..]);
          return;
        case Found(record, advance) =>
          assert file[pos..][advance..] == file[pos + advance..];
          ghost var after := Scan(crc, file[pos + advance..]).records;
          assert done + ([record] + after) == (done + [record]) + after;
          pos := pos + advance;
          lastGoodEnd, lastCursor, done := pos, Some(record.cursor), done + [record];
        case Bad(_) =>
          assert done + [] == done;
          hitBadRecord := true;
          return;
      }
    }
  }

  /** `recover_truncate`: scan on from the header and cut the file at the first bad record. */
  method RecoverTruncate(crc: Checksum, f: SegmentFile) returns (report: Report)
    modifies f
    ensures report.Unreadable? <==> ParseHeader(old(f.bytes)).HeaderErr?
    ensures report.Unreadable? ==> f.bytes == old(f.bytes)
    ensures report.Recovered? ==>
              var q := Scan(crc, old(f.bytes)[SEGMENT_HEADER_LEN..]);
              && f.bytes == RecoveredBytes(crc, old(f.bytes)) && |f.bytes| <= |old(f.bytes)|
              && report == Recovered(|f.bytes|, |old(f.bytes)| - |f.bytes|, LastCursor(q.records))
  {
    var header := ParseHeader(f.bytes);
    if header.HeaderErr? { return Unreadable(header.error); }
    hide Scan, RecoveredBytes, FromLE;
    var originalLen := |f.bytes|;
    RecoveredIs(crc, f.bytes);
    var lastGoodEnd, lastCursor, hitBadRecord := FindGoodEnd(crc, f.bytes);
    if hitBadRecord {
      f.bytes := f.bytes[..lastGoodEnd];
      report := Recovered(lastGoodEnd, originalLen - lastGoodEnd, lastCursor);
    } else {
      assert f.bytes[..lastGoodEnd] == f.bytes;
      report := Recovered(originalLen, 0, lastCursor);
    }
  }

  /** The recovered file reads to its end without error, holds the same records, and recovering it again changes
      nothing. */
  lemma {:induction false} RecoveryIsClean(crc: Checksum, file: seq<byte>)
    requires ParseHeader(file).HeaderOk?
    ensures var r := RecoveredBytes(crc, file);
            && ParseHeader(r) == ParseHeader(file)
            && Scan(crc, r[SEGMENT_HEADER_LEN..]).last == Eof
            && Scan(crc, r[SEGMENT_HEADER_LEN..]).records == Scan(crc, file[SEGMENT_HEADER_LEN..]).records
            && RecoveredBytes(crc, r) == r
  {
    hide ReadOne, Encode, Scan, FromLE;
    var s, r := file[SEGMENT_HEADER_LEN..], RecoveredBytes(crc, file);
    var q := Scan(crc, s);
    ScanIsEncoding(crc, s);
    assert r[SEGMENT_HEADER_LEN..] == s[..q.good];
    assert s[..q.good] == EncodeAll(crc, q.records) + [];
    ScanOfEncodings(crc, q.records, []);
    ScanEmpty(crc);
    EncodedLenIs(crc, q.records);
    assert q.records + [] == q.records;
    assert r[0..8] == file[0..8] && r[8..12] == file[8..12] && r[16..24] == file[16..24] && r[24..32] == file[24..32];
  }

  /** A written segment whose file is cut at any byte past the header keeps exactly the records that were
      written completely before the cut. */
  lemma {:induction false} CrashAtAnyByte(crc: Checksum, firstCursor: u64, created: u64, rs: seq<Record>, cut: nat)
    requires AllFit(rs)
    requires SEGMENT_HEADER_LEN <= cut <= SEGMENT_HEADER_LEN + EncodedLenAll(rs)
    ensures |EncodeAll(crc, rs)| == EncodedLenAll(rs)
    ensures var file := (EncodeHeader(firstCursor, created) + EncodeAll(crc, rs))[..cut];
            var k := WhollyBefore(rs, cut - SEGMENT_HEADER_LEN);
            && ParseHeader(file) == HeaderOk(firstCursor, created)
            && Scan(crc, file[SEGMENT_HEADER_LEN..]).records == rs[..k]
            && RecoveredBytes(crc, file) == EncodeHeader(firstCursor, created) + EncodeAll(crc, rs[..k])
  {
    hide ReadOne, Encode, Scan, EncodeHeader, ParseHeader;
    EncodedLenIs(crc, rs);
    var h, e, n := EncodeHeader(firstCursor, created), EncodeAll(crc, rs), cut - SEGMENT_HEADER_LEN;
    var file := (h + e)[..cut];
    assert file == h + e[..n] && file[SEGMENT_HEADER_LEN..] == e[..n];
    HeaderRoundTrip(firstCursor, created, e[..n]);
    ScanOfCut(crc, rs, n);
    ScanIsEncoding(crc, e[..n]);
    assert RecoveredBytes(crc, file) == h + e[..n][..Scan(crc, e[..n]).good];
  }
}
