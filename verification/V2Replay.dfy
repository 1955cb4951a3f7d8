/** Reading the v2 log back: `open` and `next_record` of crates/mmbus/src/wal/v2/mmap_segment_reader.rs and
    `WalReplayer::next` of crates/mmbus/src/wal/v2/wal.rs, over the bytes of the files.

    No writer is at work meanwhile. A length field that would reach past the end of the file is read as if zeros
    followed, as the rest of the last page does. */
module V2Replay {
  import opened Bytes
  import opened WalRecord
  import opened SegmentLog
  import opened WalReplay
  import V2Segment
  import Wal
  import WalV2

  const VERSION_V2: nat := 2

  datatype Outcome = Gives(item: Item) | AwaitMore | EndOfSegment

  function Refused(e: MappedError): Outcome { Gives(Fail(MappedFailure(e))) }

  // ── The reader ──────────────────────────────────────────────────────────────

  /** What `open` refuses a file for. */
  function OpenError(file: seq<byte>): Option<Failure> {
    if |file| < SEGMENT_HEADER_LEN then Some(HeaderFailure(Truncated(|file|)))
    else if FromLE(file[0..8]) != SEGMENT_MAGIC then Some(HeaderFailure(BadMagic(FromLE(file[0..8]))))
    else if FromLE(file[8..12]) == SEGMENT_VERSION then Some(MappedFailure(LegacyV1Segment))
    else if FromLE(file[8..12]) != VERSION_V2 then Some(HeaderFailure(UnsupportedVersion(FromLE(file[8..12]))))
    else None
  }

  /** The tail in the header. */
  function TailOf(file: seq<byte>): nat
    requires |file| >= SEGMENT_HEADER_LEN
  {
    FromLE(file[24..32])
  }

  function LengthAt(file: seq<byte>, pos: nat): nat
    requires pos < |file|
  {
    FromLE((file[pos..] + [0, 0, 0, 0])[..4])
  }

  /** `next_record` on the bytes of a record whose length field is clean and in range. */
  function Decode(crc: Checksum, file: seq<byte>, pos: nat, len: nat): (Outcome, nat)
    requires RECORD_FRAMING <= len && pos + len <= |file|
  {
    var body := file[pos..pos + len];
    if 24 + FromLE(body[20..24]) + 4 > len then
      (Refused(MappedError.OversizeRecord(len, pos)), pos + Align8(len))
    else
      var decoded := V2Segment.DecodeV2(crc, body);
      if decoded.Returned? then (Gives(Rec(decoded.record)), pos + len)
      else (Refused(MappedError.CrcMismatch(pos)), pos + len)
  }

  /** One call of `next_record`: its outcome and the position after it. */
  function Step(crc: Checksum, file: seq<byte>, pos: nat): (r: (Outcome, nat))
    requires |file| >= SEGMENT_HEADER_LEN
    ensures r.0.Gives? ==> pos < |file| && pos < r.1
  {
    if pos >= |file| then (EndOfSegment, pos)
    else if pos >= TailOf(file) then (AwaitMore, pos)
    else
      var raw := LengthAt(file, pos);
      if raw == 0 then (AwaitMore, pos)
      else if raw == V2Segment.SKIP_TO_END then (EndOfSegment, |file|)
      else if raw >= V2Segment.WRITING_BIT then (AwaitMore, pos)
      else if raw > MAX_RECORD_LEN then (Refused(MappedError.OversizeRecord(raw, pos)), |file|)
      else if raw < RECORD_FRAMING then (Refused(MappedError.UndersizeRecord(raw, pos)), |file|)
      else if pos + raw > |file| then (Refused(MappedError.OversizeRecord(raw, pos)), |file|)
      else Decode(crc, file, pos, raw)
  }

  /** Everything a reader hands out from here on. */
  function RestV2(crc: Checksum, file: seq<byte>, pos: nat): seq<Item>
    requires |file| >= SEGMENT_HEADER_LEN
    decreases if pos <= |file| then |file| - pos else 0
  {
    var (o, pos') := Step(crc, file, pos);
    if o.Gives? then [o.item] + RestV2(crc, file, pos') else []
  }

  function FileItemsV2(crc: Checksum, file: seq<byte>): seq<Item> {
    if OpenError(file).Some? then [Fail(OpenError(file).value)] else RestV2(crc, file, SEGMENT_HEADER_LEN)
  }

  function FilesItemsV2(crc: Checksum, files: seq<seq<byte>>): seq<Item> {
    if files == [] then [] else FileItemsV2(crc, files[0]) + FilesItemsV2(crc, files[1..])
  }

  lemma {:induction false} NoMoreFilesV2(crc: Checksum, files: seq<seq<byte>>)
    requires files == []
    ensures [] + FilesItemsV2(crc, files) == []
  {
  }

  lemma {:induction false} OpensNextV2(crc: Checksum, files: seq<seq<byte>>)
    requires files != []
    ensures [] + FilesItemsV2(crc, files) == FileItemsV2(crc, files[0]) + FilesItemsV2(crc, files[1..])
    ensures OpenError(files[0]).Some? ==> FileItemsV2(crc, files[0]) == [Fail(OpenError(files[0]).value)] + []
    ensures OpenError(files[0]).None? ==>
              |files[0]| >= SEGMENT_HEADER_LEN &&
                FileItemsV2(crc, files[0]) == RestV2(crc, files[0], SEGMENT_HEADER_LEN)
  {
    hide RestV2;
  }

  class MmapSegmentReader {
    const file: seq<byte>
    var pos: nat

    predicate Valid() { |file| >= SEGMENT_HEADER_LEN }

    constructor (file: seq<byte>)
      requires |file| >= SEGMENT_HEADER_LEN
      ensures this.file == file && pos == SEGMENT_HEADER_LEN && Valid()
    {
      this.file, pos := file, SEGMENT_HEADER_LEN;
    }

    function Rest(crc: Checksum): seq<Item>
      requires Valid()
      reads this
    {
      RestV2(crc, file, pos)
    }

    /** `next_record`: the next item, or none now, or none any more; an error is skipped and the reader goes on. */
    method NextRecord(crc: Checksum) returns (o: Outcome)
      requires Valid()
      modifies this
      ensures o.Gives? ==> old(Rest(crc)) == [o.item] + Rest(crc) && old(pos) < pos && old(pos) < |file|
      ensures !o.Gives? ==> old(Rest(crc)) == [] == Rest(crc)
      ensures o.AwaitMore? ==> pos == old(pos) < |file|
      ensures o.EndOfSegment? ==> pos >= |file|
    {
      hide FromLE, V2Segment.DecodeV2;
      if pos >= |file| { return EndOfSegment; }
      if pos >= TailOf(file) { return AwaitMore; }
      var raw := LengthAt(file, pos);
      if raw == 0 { return AwaitMore; }
      if raw == V2Segment.SKIP_TO_END {
        pos := |file|;
        return EndOfSegment;
      }
      if raw >= V2Segment.WRITING_BIT { return AwaitMore; }
      if raw > MAX_RECORD_LEN || raw < RECORD_FRAMING || pos + raw > |file| {
        var error := if raw < RECORD_FRAMING then MappedError.UndersizeRecord(raw, pos)
                     else MappedError.OversizeRecord(raw, pos);
        o := Refused(error);
        pos := |file|;
        return;
      }
      var (d, pos') := Decode(crc, file, pos, raw);
      o, pos := d, pos';
    }
  }

  class WalReplayer {
    const segments: seq<seq<byte>>
    const cursorFloor: nat
    var segIdx: nat
    var current: MmapSegmentReader?

    predicate Valid()
      reads this
    {
      segIdx <= |segments| && (current != null ==> current.Valid())
    }

    constructor (segments: seq<seq<byte>>, cursorFloor: nat)
      ensures Valid() && current == null && segIdx == 0 && this.segments == segments && this.cursorFloor == cursorFloor
      ensures forall crc: Checksum :: Remaining(crc) == Above(FilesItemsV2(crc, segments), cursorFloor)
    {
      this.segments, this.cursorFloor := segments, cursorFloor;
      segIdx, current := 0, null;
      new;
      assert segments[0..] == segments;
      assert forall crc: Checksum :: [] + FilesItemsV2(crc, segments) == FilesItemsV2(crc, segments);
    }

    /** What is still to come. */
    function Remaining(crc: Checksum): seq<Item>
      requires Valid()
      reads this, current
    {
      Above((if current == null then [] else current.Rest(crc)) + FilesItemsV2(crc, segments[segIdx..]), cursorFloor)
    }

    /** `next`: the head of what is still to come; a reader that has nothing more now gives way to the next file. */
    method Next(crc: Checksum) returns (item: Option<Item>)
      requires Valid()
      modifies this, current
      ensures Valid() && (current == old(current) || current == null || fresh(current))
      ensures item.None? <==> old(Remaining(crc)) == []
      ensures item.Some? ==> old(Remaining(crc)) == [item.value] + Remaining(crc)
    {
      hide RestV2, FilesItemsV2, FileItemsV2, OpenError, Above;
      ghost var goal := Remaining(crc);
      AboveEmpty(cursorFloor);
      while true
        invariant Valid() && Remaining(crc) == goal
        invariant current == old(current) || current == null || fresh(current)
        decreases |segments| - segIdx, current != null,
                  if current == null || current.pos > |current.file| then 0 else |current.file| - current.pos
      {
        if current == null {
          if segIdx >= |segments| {
            NoMoreFilesV2(crc, segments[segIdx..]);
            return None;
          }
          var file := segments[segIdx];
          assert segments[segIdx..][0] == file && segments[segIdx..][1..] == segments[segIdx + 1..];
          OpensNextV2(crc, segments[segIdx..]);
          segIdx := segIdx + 1;
          var error := OpenError(file);
          if error.Some? {
            AboveTakes(Fail(error.value), [], FilesItemsV2(crc, segments[segIdx..]), cursorFloor);
            return Some(Fail(error.value));
          }
          current := new MmapSegmentReader(file);
          continue;
        }
        var one := current.NextRecord(crc);
        if !one.Gives? {
          current := null;
        } else {
          AboveTakes(one.item, current.Rest(crc), FilesItemsV2(crc, segments[segIdx..]), cursorFloor);
          if !(one.item.Rec? && one.item.record.cursor < cursorFloor) { return Some(one.item); }
        }
      }
    }
  }

  // ── What the writer leaves in a file ────────────────────────────────────────

  /** The file of a mapping: the header with the tail in it, then what was stored. */
  function Image(first: nat, st: V2Segment.State): seq<byte> {
    LE(SEGMENT_MAGIC, 8) + LE(VERSION_V2, 4) + LE(0, 4) + LE(first, 8) + LE(st.tail, 8)
    + (if |st.mem| >= SEGMENT_HEADER_LEN then st.mem[SEGMENT_HEADER_LEN..] else [])
  }

  /** The mapping of a segment with these records: some run of the writer, and of any reader beside it, has led
      here, and the writer is between two calls. */
  ghost predicate Holds(crc: Checksum, st: V2Segment.State, rs: seq<Record>) {
    && (exists start, actions :: V2Segment.Start(start) && V2Segment.Reaches(crc, start, actions, st))
    && st.writer.Idle? && st.visible == rs && st.size < U64
  }

  lemma {:induction false} HoldsOk(crc: Checksum, st: V2Segment.State, rs: seq<Record>)
    requires Holds(crc, st, rs)
    ensures V2Segment.WriterOk(crc, st) && st.writer.Idle? && st.visible == rs
    ensures SEGMENT_HEADER_LEN <= V2Segment.End(crc, st) <= st.size == |st.mem| && st.tail <= st.size < U64
    ensures V2Segment.End(crc, st) < st.tail ==> st.marker
  {
    hide V2Segment.Reaches, V2Segment.Start, V2Segment.WriterOk;
    var start, actions :| V2Segment.Start(start) && V2Segment.Reaches(crc, start, actions, st);
    V2Segment.StartOk(crc, start);
    V2Segment.RunKeeps(crc, start, actions, st);
    V2Segment.VisibleInPlace(crc, st);
    if V2Segment.End(crc, st) < st.tail { V2Segment.EndLength(crc, st); }
    TailInside(crc, st);
  }

  lemma {:induction false} TailInside(crc: Checksum, st: V2Segment.State)
    requires V2Segment.WriterOk(crc, st)
    ensures st.tail <= st.size && V2Segment.End(crc, st) <= st.tail
  {
    hide V2Segment.EncodeAllV2, V2Segment.OpenMem, V2Segment.SealedMem, AllFit, V2Segment.Partial, Align8;
  }

  /** The image is a file that `open` accepts, and it shows the tail and every byte of the mapping. */
  lemma {:induction false} ImageIs(first: nat, st: V2Segment.State)
    requires |st.mem| >= SEGMENT_HEADER_LEN && st.tail < U64
    ensures var file := Image(first, st);
            && |file| == |st.mem| && OpenError(file).None? && TailOf(file) == st.tail
            && forall a, b :: SEGMENT_HEADER_LEN <= a <= b <= |file| ==> file[a..b] == st.mem[a..b]
  {
    hide LE, FromLE, Pow256;
    var file := Image(first, st);
    assert file[0..8] == LE(SEGMENT_MAGIC, 8) && file[8..12] == LE(VERSION_V2, 4) && file[24..32] == LE(st.tail, 8);
    RoundTrip64(SEGMENT_MAGIC); RoundTrip32(VERSION_V2); RoundTrip64(st.tail);
    assert file[SEGMENT_HEADER_LEN..] == st.mem[SEGMENT_HEADER_LEN..];
    forall a, b | SEGMENT_HEADER_LEN <= a <= b <= |file| ensures file[a..b] == st.mem[a..b] {
      assert file[a..b] == file[SEGMENT_HEADER_LEN..][a - SEGMENT_HEADER_LEN..b - SEGMENT_HEADER_LEN];
    }
  }

  /** Where record `n` starts. */
  function At(crc: Checksum, rs: seq<Record>, n: nat): nat
    requires n <= |rs|
  {
    SEGMENT_HEADER_LEN + |V2Segment.EncodeAllV2(crc, rs[..n])|
  }

  lemma {:induction false} LengthInside(file: seq<byte>, pos: nat)
    requires pos + 4 <= |file|
    ensures LengthAt(file, pos) == FromLE(file[pos..pos + 4])
  {
    hide FromLE;
    assert (file[pos..] + [0, 0, 0, 0])[..4] == file[pos..pos + 4];
  }

  /** A call before record `n` hands it out. */
  lemma {:induction false} StepGives(crc: Checksum, first: nat, st: V2Segment.State, rs: seq<Record>, n: nat)
    requires Holds(crc, st, rs) && n < |rs|
    ensures var file := Image(first, st);
            && |file| >= SEGMENT_HEADER_LEN
            && Step(crc, file, At(crc, rs, n)) == (Gives(Rec(rs[n])), At(crc, rs, n + 1))
  {
    hide *;
    HoldsOk(crc, st, rs);
    ImageIs(first, st);
    TailInside(crc, st);
    V2Segment.RecordInPlace(crc, st, n);
    V2Segment.CleanLength(crc, st, n);
    V2Segment.DecodeEncoded(crc, rs[n]);
    V2Segment.EncodedAt(crc, rs, n);
    AtNext(crc, rs, n);
    LengthInside(Image(first, st), At(crc, rs, n));
    StepClean(crc, Image(first, st), At(crc, rs, n), V2Segment.EncodeV2(crc, rs[n]), rs[n]);
  }

  lemma {:induction false} AtNext(crc: Checksum, rs: seq<Record>, n: nat)
    requires n < |rs|
    ensures At(crc, rs, n) == SEGMENT_HEADER_LEN + |V2Segment.EncodeAllV2(crc, rs[..n])|
    ensures At(crc, rs, n + 1) == At(crc, rs, n) + V2Segment.Aligned(rs[n])
    ensures |V2Segment.EncodeV2(crc, rs[n])| == V2Segment.Aligned(rs[n])
  {
    V2Segment.EncodedAt(crc, rs, n);
    hide V2Segment.EncodeV2, V2Segment.EncodeAllV2, V2Segment.Aligned;
  }

  lemma {:induction false} StepClean(crc: Checksum, file: seq<byte>, pos: nat, e: seq<byte>, r: Record)
    requires |file| >= SEGMENT_HEADER_LEN && pos + |e| <= |file| && file[pos..pos + |e|] == e && pos < TailOf(file)
    requires RECORD_FRAMING <= |e| <= MAX_RECORD_LEN && LengthAt(file, pos) == |e|
    requires V2Segment.DecodeV2(crc, e) == V2Segment.Returned(r)
    ensures Step(crc, file, pos) == (Gives(Rec(r)), pos + |e|)
  {
    V2Segment.PayloadFits(crc, e);
    hide FromLE, LengthAt, TailOf, V2Segment.DecodeV2;
  }

  /** A call behind the last record hands out nothing. */
  lemma {:induction false} StepEnds(crc: Checksum, first: nat, st: V2Segment.State, rs: seq<Record>)
    requires Holds(crc, st, rs)
    ensures var file := Image(first, st);
            |file| >= SEGMENT_HEADER_LEN && !Step(crc, file, At(crc, rs, |rs|)).0.Gives?
  {
    hide *;
    HoldsOk(crc, st, rs);
    ImageIs(first, st);
    var file, pos := Image(first, st), At(crc, rs, |rs|);
    EndIsAt(crc, st);
    if pos < st.tail {
      V2Segment.EndLength(crc, st);
      LengthInside(file, pos);
      StepSkips(crc, file, pos);
    } else {
      StepWaits(crc, file, pos);
    }
  }

  lemma {:induction false} EndIsAt(crc: Checksum, st: V2Segment.State)
    ensures V2Segment.End(crc, st) == At(crc, st.visible, |st.visible|)
  {
    assert st.visible[..|st.visible|] == st.visible;
  }

  lemma {:induction false} StepSkips(crc: Checksum, file: seq<byte>, pos: nat)
    requires |file| >= SEGMENT_HEADER_LEN && pos < |file| && LengthAt(file, pos) == V2Segment.SKIP_TO_END
    ensures !Step(crc, file, pos).0.Gives?
  {
    hide LengthAt, TailOf, Decode;
  }

  lemma {:induction false} StepWaits(crc: Checksum, file: seq<byte>, pos: nat)
    requires |file| >= SEGMENT_HEADER_LEN && pos >= TailOf(file)
    ensures !Step(crc, file, pos).0.Gives?
  {
    hide LengthAt, TailOf, Decode;
  }

  lemma {:induction false} RestGives(crc: Checksum, first: nat, st: V2Segment.State, rs: seq<Record>, n: nat)
    requires Holds(crc, st, rs) && n <= |rs|
    ensures |Image(first, st)| >= SEGMENT_HEADER_LEN && RestV2(crc, Image(first, st), At(crc, rs, n)) == Recs(rs[n..])
    decreases |rs| - n
  {
    hide Holds, Image, At, Step;
    if n < |rs| {
      StepGives(crc, first, st, rs, n);
      RestGives(crc, first, st, rs, n + 1);
      assert rs[n..][1..] == rs[n + 1..];
    } else {
      StepEnds(crc, first, st, rs);
    }
  }

  /** Draining the file of a mapping gives the committed records, each once, and no error. */
  lemma {:induction false} ImageItems(crc: Checksum, first: nat, st: V2Segment.State, rs: seq<Record>)
    requires Holds(crc, st, rs)
    ensures FileItemsV2(crc, Image(first, st)) == Recs(rs)
  {
    hide Holds, Image, OpenError, RestV2, Recs;
    HoldsOk(crc, st, rs);
    ImageIs(first, st);
    RestGives(crc, first, st, rs, 0);
    assert rs[..0] == [] && rs[0..] == rs;
    assert V2Segment.EncodeAllV2(crc, []) == [];
  }

  // ── Any bytes ───────────────────────────────────────────────────────────────

  /** When `open` accepts a file: it begins as the v2 writer begins one. */
  lemma {:induction false} OpensIff(file: seq<byte>)
    ensures OpenError(file).None? <==>
            |file| >= SEGMENT_HEADER_LEN && file[0..8] == LE(SEGMENT_MAGIC, 8) && file[8..12] == LE(VERSION_V2, 4)
    ensures OpenError(file) == Some(MappedFailure(LegacyV1Segment)) <==>
            |file| >= SEGMENT_HEADER_LEN && file[0..8] == LE(SEGMENT_MAGIC, 8) && file[8..12] == LE(SEGMENT_VERSION, 4)
  {
    hide LE, FromLE, Pow256;
    if |file| >= SEGMENT_HEADER_LEN {
      Decoded64(file[0..8]); Decoded32(file[8..12]);
      RoundTrip64(SEGMENT_MAGIC); RoundTrip32(VERSION_V2); RoundTrip32(SEGMENT_VERSION);
    }
  }

  /** Whatever is in the file: a call returns a record exactly if there is one before the tail, whole, within the size
      limits, and under its own checksum; and then it moves past it. For any other length field that is set and not
      marked it reports a failure, at this place, and moves on; for the skip marker the file is at its end. */
  lemma {:induction false} GivesIff(crc: Checksum, file: seq<byte>, pos: nat, r: Record)
    requires |file| >= SEGMENT_HEADER_LEN && pos < |file|
    ensures var len := LengthAt(file, pos);
            Step(crc, file, pos).0 == Gives(Rec(r)) <==>
            && pos < TailOf(file) && RECORD_FRAMING <= len <= MAX_RECORD_LEN && pos + len <= |file|
            && |r.payload| < U32 && V2Segment.Carries(crc, file[pos + 4..pos + len], r)
    ensures Step(crc, file, pos).0 == Gives(Rec(r)) ==> Step(crc, file, pos).1 == pos + LengthAt(file, pos)
    ensures var (o, next) := Step(crc, file, pos);
            && (o.Gives? <==> pos < TailOf(file) && 0 < LengthAt(file, pos) < V2Segment.WRITING_BIT)
            && (o.Gives? ==> next > pos)
            && (o.Gives? && o.item.Fail? ==> o.item.error.MappedFailure? && !o.item.error.mapped.LegacyV1Segment?
                                             && o.item.error.mapped.offset == pos)
            && (o.EndOfSegment? <==> pos < TailOf(file) && LengthAt(file, pos) == V2Segment.SKIP_TO_END)
            && (o.AwaitMore? ==> next == pos)
  {
    var len := LengthAt(file, pos);
    if RECORD_FRAMING <= len && pos + len <= |file| {
      var body := file[pos..pos + len];
      V2Segment.ReturnedIff(crc, body, r);
      if V2Segment.DecodeV2(crc, body).Returned? { V2Segment.PayloadFits(crc, body); }
      Inside(file, pos, len, 4, len);
      assert body[4..len] == body[4..];
    }
    hide FromLE, LengthAt, TailOf, V2Segment.DecodeV2, V2Segment.Carries;
  }

  // ── Damaged files ───────────────────────────────────────────────────────────

  /** The stored checksum of the record there is not that of what it covers. */
  predicate Mismatch(crc: Checksum, file: seq<byte>, at: nat, len: nat) {
    RECORD_FRAMING <= len && at + len <= |file| &&
      FromLE(file[at + len - 4..at + len]) != crc(file[at + 4..at + len - 4])
  }

  /** A record of a file, next to the same bytes undamaged: the bytes are those, or only the length is and the
      checksum does not match. */
  predicate DamagedAt(crc: Checksum, good: seq<byte>, file: seq<byte>, at: nat, len: nat, bad: bool) {
    && RECORD_FRAMING <= len && at + len <= |file| == |good|
    && if bad then
         file[at..at + 4] == good[at..at + 4] && Mismatch(crc, file, at, len)
       else file[at..at + len] == good[at..at + len]
  }

  /** A file that differs from the undamaged one only inside the records `bad`. */
  ghost predicate Damaged(crc: Checksum, good: seq<byte>, file: seq<byte>, rs: seq<Record>, bad: set<nat>) {
    && SEGMENT_HEADER_LEN <= At(crc, rs, |rs|) <= |file| == |good|
    && file[..SEGMENT_HEADER_LEN] == good[..SEGMENT_HEADER_LEN]
    && file[At(crc, rs, |rs|)..] == good[At(crc, rs, |rs|)..]
    && forall n :: 0 <= n < |rs| ==>
         DamagedAt(crc, good, file, At(crc, rs, n), V2Segment.Aligned(rs[n]), n in bad)
  }

  /** A slice of a slice. */
  lemma {:induction false} Inside(s: seq<byte>, at: nat, len: nat, i: nat, j: nat)
    requires i <= j <= len && at + len <= |s|
    ensures s[at..at + len][i..j] == s[at + i..at + j]
  {
    var whole := s[at..at + len];
    forall k | 0 <= k < j - i ensures whole[i..j][k] == s[at + i..at + j][k] {
      assert whole[i + k] == s[at + i + k];
    }
  }

  /** Covered bytes changed to some with another checksum, under the checksum stored for the old ones. */
  lemma {:induction false} ChangedIsDamaged(crc: Checksum, r: Record, good: seq<byte>, file: seq<byte>, at: nat)
    requires Fits(r) && at + V2Segment.Aligned(r) <= |file| == |good|
    requires var len := V2Segment.Aligned(r);
             && good[at..at + len] == V2Segment.EncodeV2(crc, r)
             && file[at..at + 4] == good[at..at + 4] && file[at + len - 4..at + len] == good[at + len - 4..at + len]
             && crc(file[at + 4..at + len - 4]) != crc(good[at + 4..at + len - 4])
    ensures DamagedAt(crc, good, file, at, V2Segment.Aligned(r), true)
  {
    hide LE, FromLE, Pow256, V2Segment.PaddedBody;
    var e, len := V2Segment.EncodeV2(crc, r), V2Segment.Aligned(r);
    V2Segment.AlignedBounds(r);
    Inside(good, at, len, 4, len - 4);
    Inside(good, at, len, len - 4, len);
    assert e[4..len - 4] == V2Segment.PaddedBody(r) && e[len - 4..len] == LE(crc(V2Segment.PaddedBody(r)), 4);
    RoundTrip32(crc(V2Segment.PaddedBody(r)));
  }

  /** What is reported for a record whose checksum does not match. */
  function Complaint(file: seq<byte>, at: nat, len: nat): Item
    requires RECORD_FRAMING <= len && at + len <= |file|
  {
    if FromLE(file[at + 20..at + 24]) > len - RECORD_FRAMING then
      Fail(MappedFailure(MappedError.OversizeRecord(len, at)))
    else Fail(MappedFailure(MappedError.CrcMismatch(at)))
  }

  lemma {:induction false} AlignedAgain(r: Record)
    ensures Align8(V2Segment.Aligned(r)) == V2Segment.Aligned(r)
  {
  }

  /** A call at a damaged record: the complaint, and the position of the next record. */
  lemma {:induction false} StepComplains(crc: Checksum, file: seq<byte>, pos: nat, len: nat)
    requires |file| >= SEGMENT_HEADER_LEN && pos + len <= |file| && pos < TailOf(file)
    requires RECORD_FRAMING <= len <= MAX_RECORD_LEN && LengthAt(file, pos) == len == Align8(len)
    requires Mismatch(crc, file, pos, len)
    ensures Step(crc, file, pos) == (Gives(Complaint(file, pos, len)), pos + len)
  {
    var body := file[pos..pos + len];
    Inside(file, pos, len, 20, 24);
    Inside(file, pos, len, 4, len - 4);
    Inside(file, pos, len, len - 4, len);
    assert body[len - 4..] == body[len - 4..len];
    V2Segment.ReturnedIff(crc, body, Record(0, 0, []));
    hide FromLE, LengthAt, TailOf, V2Segment.DecodeV2, V2Segment.Carries, Align8;
  }

  lemma {:induction false} TailSame(good: seq<byte>, file: seq<byte>)
    requires |file| == |good| >= SEGMENT_HEADER_LEN && file[..SEGMENT_HEADER_LEN] == good[..SEGMENT_HEADER_LEN]
    ensures TailOf(file) == TailOf(good) && OpenError(file) == OpenError(good)
  {
    hide FromLE;
    assert file[..SEGMENT_HEADER_LEN] == file[0..SEGMENT_HEADER_LEN];
    assert good[..SEGMENT_HEADER_LEN] == good[0..SEGMENT_HEADER_LEN];
    forall a: nat, b: nat | a <= b <= SEGMENT_HEADER_LEN ensures file[a..b] == good[a..b] {
      Inside(file, 0, SEGMENT_HEADER_LEN, a, b);
      Inside(good, 0, SEGMENT_HEADER_LEN, a, b);
    }
  }

  /** A call sees nothing before its position but the header. */
  lemma {:induction false} StepSame(crc: Checksum, good: seq<byte>, file: seq<byte>, pos: nat)
    requires |file| == |good| >= SEGMENT_HEADER_LEN && file[..SEGMENT_HEADER_LEN] == good[..SEGMENT_HEADER_LEN]
    requires pos <= |file| && file[pos..] == good[pos..]
    ensures Step(crc, file, pos) == Step(crc, good, pos)
  {
    TailSame(good, file);
    hide FromLE, TailOf, V2Segment.DecodeV2;
    forall b | pos <= b <= |file| ensures file[pos..b] == good[pos..b] {
      assert file[pos..b] == file[pos..][..b - pos];
    }
  }

  /** A call before record `n` of the file, damaged or not. */
  lemma {:induction false} StepOfDamaged(crc: Checksum, first: nat, st: V2Segment.State, rs: seq<Record>,
          file: seq<byte>, bad: set<nat>, n: nat)
    requires Holds(crc, st, rs) && n < |rs| && Damaged(crc, Image(first, st), file, rs, bad)
    ensures |file| >= SEGMENT_HEADER_LEN
    ensures var at, r := At(crc, rs, n), Step(crc, file, At(crc, rs, n));
            r.0.Gives? && r.1 == At(crc, rs, n + 1) && ShowsAt(file, rs[n], at, n in bad, r.0.item)
  {
    var good, at := Image(first, st), At(crc, rs, n);
    hide *;
    RecordThere(crc, first, st, rs, file, bad, n);
    V2Segment.DecodeEncoded(crc, rs[n]);
    StepOfRecord(crc, good, file, at, V2Segment.EncodeV2(crc, rs[n]), rs[n], n in bad);
    ShownBy(file, rs[n], at, n in bad);
  }

  /** A record, damaged or not, where a file has the encoding `e`. */
  predicate There(crc: Checksum, good: seq<byte>, file: seq<byte>, at: nat, e: seq<byte>, bad: bool) {
    && |file| == |good| >= SEGMENT_HEADER_LEN && file[..SEGMENT_HEADER_LEN] == good[..SEGMENT_HEADER_LEN]
    && at + |e| <= |file| && RECORD_FRAMING <= |e| == Align8(|e|) <= MAX_RECORD_LEN && at < TailOf(good)
    && file[at..at + 4] == good[at..at + 4] && FromLE(good[at..at + 4]) == |e|
    && if bad then Mismatch(crc, file, at, |e|) else file[at..at + |e|] == e
  }

  lemma {:induction false} RecordThere(crc: Checksum, first: nat, st: V2Segment.State, rs: seq<Record>,
          file: seq<byte>, bad: set<nat>, n: nat)
    requires Holds(crc, st, rs) && n < |rs| && Damaged(crc, Image(first, st), file, rs, bad)
    ensures var e := V2Segment.EncodeV2(crc, rs[n]);
            && There(crc, Image(first, st), file, At(crc, rs, n), e, n in bad) && |e| == V2Segment.Aligned(rs[n])
            && Fits(rs[n]) && At(crc, rs, n + 1) == At(crc, rs, n) + |e|
            && RECORD_FRAMING <= |e| && At(crc, rs, n) + |e| <= |file|
  {
    DamagedBytes(crc, Image(first, st), file, rs, bad, n);
    InPlace(crc, first, st, rs, n);
    AlignedAgain(rs[n]);
    hide Damaged, Holds, Image, At, V2Segment.EncodeV2, V2Segment.Aligned, TailOf, FromLE, Mismatch, Align8, Fits;
  }

  lemma {:induction false} ShownBy(file: seq<byte>, r: Record, at: nat, bad: bool)
    requires RECORD_FRAMING <= V2Segment.Aligned(r) && at + V2Segment.Aligned(r) <= |file|
    ensures ShowsAt(file, r, at, bad, if bad then Complaint(file, at, V2Segment.Aligned(r)) else Rec(r))
  {
    hide Complaint, V2Segment.Aligned;
  }

  lemma {:induction false} StepOfRecord(crc: Checksum, good: seq<byte>, file: seq<byte>, at: nat, e: seq<byte>,
          r: Record, bad: bool)
    requires There(crc, good, file, at, e, bad) && V2Segment.DecodeV2(crc, e) == V2Segment.Returned(r)
    ensures |file| >= SEGMENT_HEADER_LEN && at + |e| <= |file|
    ensures Step(crc, file, at) == (Gives(if bad then Complaint(file, at, |e|) else Rec(r)), at + |e|)
  {
    assert at + 4 <= |file|;
    hide *;
    TailSame(good, file);
    LengthInside(file, at);
    if bad {
      StepComplains(crc, file, at, |e|);
    } else {
      StepClean(crc, file, at, e, r);
    }
  }

  /** Where record `n` of an undamaged file is. */
  lemma {:induction false} InPlace(crc: Checksum, first: nat, st: V2Segment.State, rs: seq<Record>, n: nat)
    requires Holds(crc, st, rs) && n < |rs|
    ensures var file, at, len := Image(first, st), At(crc, rs, n), V2Segment.Aligned(rs[n]);
            && Fits(rs[n]) && RECORD_FRAMING <= len <= MAX_RECORD_LEN && at + len <= |file|
            && |file| >= SEGMENT_HEADER_LEN && at < TailOf(file) && FromLE(file[at..at + 4]) == len
            && file[at..at + len] == V2Segment.EncodeV2(crc, rs[n]) && |V2Segment.EncodeV2(crc, rs[n])| == len
    ensures At(crc, rs, n + 1) == At(crc, rs, n) + V2Segment.Aligned(rs[n])
  {
    hide *;
    HoldsOk(crc, st, rs);
    ImageIs(first, st);
    TailInside(crc, st);
    V2Segment.RecordInPlace(crc, st, n);
    V2Segment.CleanLength(crc, st, n);
    AtNext(crc, rs, n);
  }

  /** What a record of a damaged file has of its undamaged bytes. */
  lemma {:induction false} DamagedBytes(crc: Checksum, good: seq<byte>, file: seq<byte>, rs: seq<Record>,
          bad: set<nat>, n: nat)
    requires n < |rs| && Damaged(crc, good, file, rs, bad)
    ensures var at, len := At(crc, rs, n), V2Segment.Aligned(rs[n]);
            && RECORD_FRAMING <= len && at + len <= |file| == |good| && |file| >= SEGMENT_HEADER_LEN
            && file[..SEGMENT_HEADER_LEN] == good[..SEGMENT_HEADER_LEN]
            && file[at..at + 4] == good[at..at + 4]
            && if n in bad then Mismatch(crc, file, at, len) else file[at..at + len] == good[at..at + len]
  {
    hide Mismatch, At, V2Segment.Aligned;
    var at, len := At(crc, rs, n), V2Segment.Aligned(rs[n]);
    assert DamagedAt(crc, good, file, at, len, n in bad);
    if n !in bad {
      assert file[at..at + 4] == file[at..at + len][..4];
      assert good[at..at + 4] == good[at..at + len][..4];
    }
  }

  /** The records from `from` on as the file shows them: one item each. */
  ghost predicate Shows(crc: Checksum, file: seq<byte>, rs: seq<Record>, bad: set<nat>, from: nat, items: seq<Item>) {
    && |items| == |rs| - from
    && forall n :: from <= n < |rs| ==> ShowsAt(file, rs[n], At(crc, rs, n), n in bad, items[n - from])
  }

  predicate ShowsAt(file: seq<byte>, r: Record, at: nat, bad: bool, item: Item) {
    && RECORD_FRAMING <= V2Segment.Aligned(r) && at + V2Segment.Aligned(r) <= |file|
    && item == if bad then Complaint(file, at, V2Segment.Aligned(r)) else Rec(r)
  }

  lemma {:induction false} ShowsMore(crc: Checksum, file: seq<byte>, rs: seq<Record>, bad: set<nat>, n: nat, item: Item,
          items: seq<Item>)
    requires n < |rs| && Shows(crc, file, rs, bad, n + 1, items) && ShowsAt(file, rs[n], At(crc, rs, n), n in bad, item)
    ensures Shows(crc, file, rs, bad, n, [item] + items)
  {
    hide ShowsAt, At;
  }

  lemma {:induction false} RestOfDamaged(crc: Checksum, first: nat, st: V2Segment.State, rs: seq<Record>,
          file: seq<byte>, bad: set<nat>, n: nat)
    requires Holds(crc, st, rs) && n <= |rs| && Damaged(crc, Image(first, st), file, rs, bad)
    ensures |file| >= SEGMENT_HEADER_LEN && Shows(crc, file, rs, bad, n, RestV2(crc, file, At(crc, rs, n)))
    decreases |rs| - n
  {
    hide Holds, Image, At, Step, Damaged, Complaint, Shows;
    if n < |rs| {
      StepOfDamaged(crc, first, st, rs, file, bad, n);
      RestOfDamaged(crc, first, st, rs, file, bad, n + 1);
      var at := At(crc, rs, n);
      ShowsMore(crc, file, rs, bad, n, Step(crc, file, at).0.item, RestV2(crc, file, At(crc, rs, n + 1)));
    } else {
      EndOfDamaged(crc, first, st, rs, file, bad);
      assert Shows(crc, file, rs, bad, n, []) by { hide *; assert |rs| - n == 0; NoneShown(crc, file, rs, bad); }
    }
  }

  lemma {:induction false} NoneShown(crc: Checksum, file: seq<byte>, rs: seq<Record>, bad: set<nat>)
    ensures Shows(crc, file, rs, bad, |rs|, [])
  {
  }

  lemma {:induction false} EndOfDamaged(crc: Checksum, first: nat, st: V2Segment.State, rs: seq<Record>,
          file: seq<byte>, bad: set<nat>)
    requires Holds(crc, st, rs) && Damaged(crc, Image(first, st), file, rs, bad)
    ensures |file| >= SEGMENT_HEADER_LEN && !Step(crc, file, At(crc, rs, |rs|)).0.Gives?
  {
    hide Holds, Image, At, Step, DamagedAt;
    StepEnds(crc, first, st, rs);
    StepSame(crc, Image(first, st), file, At(crc, rs, |rs|));
  }

  /** Damage stays where it is: draining a file some of whose records no longer match their checksum gives one item a
      record, in order, a complaint for each of those and every other record as it was appended. */
  lemma {:induction false} DamagedItems(crc: Checksum, first: nat, st: V2Segment.State, rs: seq<Record>,
          file: seq<byte>, bad: set<nat>)
    requires Holds(crc, st, rs) && Damaged(crc, Image(first, st), file, rs, bad)
    ensures Shows(crc, file, rs, bad, 0, FileItemsV2(crc, file))
  {
    hide Holds, Image, OpenError, RestV2, Shows, DamagedAt;
    HoldsOk(crc, st, rs);
    ImageIs(first, st);
    TailSame(Image(first, st), file);
    RestOfDamaged(crc, first, st, rs, file, bad, 0);
    assert rs[..0] == [];
    assert V2Segment.EncodeAllV2(crc, []) == [];
  }

  /** The records among the items. */
  function Handed(items: seq<Item>): seq<Record> {
    if items == [] then [] else (if items[0].Rec? then [items[0].record] else []) + Handed(items[1..])
  }

  /** The records from `from` on that are not damaged. */
  function Undamaged(rs: seq<Record>, bad: set<nat>, from: nat): seq<Record>
    requires from <= |rs|
    decreases |rs| - from
  {
    if from == |rs| then [] else (if from in bad then [] else [rs[from]]) + Undamaged(rs, bad, from + 1)
  }

  function UndamagedAll(ss: seq<Segment>, bads: seq<set<nat>>): seq<Record>
    requires |bads| == |ss|
  {
    if ss == [] then [] else Undamaged(ss[0].records, bads[0], 0) + UndamagedAll(ss[1..], bads[1..])
  }

  lemma {:induction false} HandedStep(items: seq<Item>)
    requires items != []
    ensures Handed(items) == (if items[0].Rec? then [items[0].record] else []) + Handed(items[1..])
  {
  }

  lemma {:induction false} HandedConcat(a: seq<Item>, b: seq<Item>)
    ensures Handed(a + b) == Handed(a) + Handed(b)
  {
    if a == [] {
      assert a + b == b;
      NoneHanded();
    } else {
      HandedStep(a);
      HandedStep(a + b);
      HandedConcat(a[1..], b);
      hide *;
      assert (a + b)[1..] == a[1..] + b && (a + b)[0] == a[0];
      Regroup(if a[0].Rec? then [a[0].record] else [], Handed(a[1..]), Handed(b));
    }
  }

  lemma {:induction false} HandedAbove(items: seq<Item>, c: nat)
    ensures Handed(Above(items, c)) == AtLeast(Handed(items), c)
  {
    if items != [] {
      HandedAbove(items[1..], c);
      var one := if Below(items[0], c) then [] else [items[0]];
      HandedConcat(one, Above(items[1..], c));
      var r := if items[0].Rec? then [items[0].record] else [];
      AtLeastConcat(r, Handed(items[1..]), c);
      if items[0].Rec? { AtLeastStep(r, c); assert AtLeast(r[1..], c) == []; }
      assert one != [] ==> Handed(one) == r + Handed([]);
    }
  }

  lemma {:induction false} ShownRecords(crc: Checksum, file: seq<byte>, rs: seq<Record>, bad: set<nat>, from: nat,
          items: seq<Item>)
    requires from <= |rs| && Shows(crc, file, rs, bad, from, items)
    ensures Handed(items) == Undamaged(rs, bad, from)
    decreases |rs| - from
  {
    hide At, Complaint;
    if from < |rs| {
      assert ShowsAt(file, rs[from], At(crc, rs, from), from in bad, items[from - from]);
      ComplaintFails(file, At(crc, rs, from), V2Segment.Aligned(rs[from]));
      assert Shows(crc, file, rs, bad, from + 1, items[1..]) by {
        hide ShowsAt;
        forall n | from + 1 <= n < |rs|
          ensures ShowsAt(file, rs[n], At(crc, rs, n), n in bad, items[1..][n - (from + 1)])
        {
          assert items[1..][n - (from + 1)] == items[n - from];
        }
      }
      hide Shows, ShowsAt;
      ShownRecords(crc, file, rs, bad, from + 1, items[1..]);
    }
  }

  lemma {:induction false} ComplaintFails(file: seq<byte>, at: nat, len: nat)
    requires RECORD_FRAMING <= len && at + len <= |file|
    ensures Complaint(file, at, len).Fail?
  {
    hide FromLE;
  }

  // ── The reader of the step relation, uninterrupted ──────────────────────────

  /** A mapping whose reader stands where a length field fits, or past the end. */
  predicate Readable(st: V2Segment.State) {
    && V2Segment.WriterBounds(st) && |st.mem| >= SEGMENT_HEADER_LEN && st.tail < U64
    && st.reader.pos >= SEGMENT_HEADER_LEN && (st.reader.pos < st.size ==> st.reader.pos + 4 <= st.size)
  }

  /** `n` accesses of the reader, nobody else's between them. */
  ghost predicate ReaderRuns(crc: Checksum, st: V2Segment.State, n: nat, st': V2Segment.State)
    decreases n
  {
    if n == 0 then st' == st
    else
      V2Segment.InBounds(st) && !st.reader.pc.Ready? &&
      ReaderRuns(crc, st.(reader := V2Segment.ReaderNext(crc, st)), n - 1, st')
  }

  /** The outcome of a call on the bytes, and of a call in the step relation, which does not say what is wrong with
      a record. */
  predicate SameOutcome(o: Outcome, p: V2Segment.Outcome) {
    if p.Returned? then o == Gives(Rec(p.record))
    else if p.AwaitMore? then o == AwaitMore
    else if p.EndOfSegment? then o == EndOfSegment
    else o.Gives? && o.item.Fail?
  }

  /** The reader after a call that ended as `r` says. */
  predicate Done(rd: V2Segment.Reader, r: (Outcome, nat), rd': V2Segment.Reader) {
    && rd'.pc.Ready? && rd'.pos == r.1 && rd'.outcome.Some? && SameOutcome(r.0, rd'.outcome.value)
    && rd'.got == if r.0.Gives? && r.0.item.Rec? then rd.got + [r.0.item.record] else rd.got
  }

  /** The copying accesses take up the bytes of the record, and the last one decodes them. */
  lemma {:induction false} CopyAlone(crc: Checksum, st: V2Segment.State, e: seq<byte>)
    returns (n: nat, st': V2Segment.State)
    requires V2Segment.WriterBounds(st) && st.reader.pc.Copying? && st.reader.pc.len == |e| >= RECORD_FRAMING
    requires st.reader.pos + |e| <= |st.mem| && e == st.mem[st.reader.pos..st.reader.pos + |e|] && st.reader.pc.buf <= e
    ensures ReaderRuns(crc, st, n, st') && st' == st.(reader := st'.reader)
    ensures st'.reader == CopyEnd(crc, st.reader, e)
    decreases |e| - |st.reader.pc.buf|
  {
    V2Segment.ByteOf(st.mem, st.reader.pos, |e|, st.reader.pc.buf, e);
    CopyOne(crc, st, e);
    hide CopyEnd, V2Segment.ReaderNext;
    var st1 := st.(reader := V2Segment.ReaderNext(crc, st));
    if st.reader.pc.buf == e {
      assert ReaderRuns(crc, st1, 0, st1);
      return 1, st1;
    }
    n, st' := CopyAlone(crc, st1, e);
    assert st'.reader == CopyEnd(crc, st.reader, e) by { CopyEndIs(crc, st.reader, st1.reader, e); }
    n := n + 1;
  }

  /** The end of a call whose copy is complete. */
  function CopyEnd(crc: Checksum, rd: V2Segment.Reader, e: seq<byte>): V2Segment.Reader
    requires |e| >= RECORD_FRAMING
  {
    if 24 + FromLE(e[20..24]) + 4 > |e| then V2Segment.Finish(rd, rd.pos + Align8(|e|), V2Segment.CorruptRecord)
    else V2Segment.Finish(rd, rd.pos + |e|, V2Segment.DecodeV2(crc, e))
  }

  lemma {:induction false} CopyEndIs(crc: Checksum, rd: V2Segment.Reader, rd': V2Segment.Reader, e: seq<byte>)
    requires |e| >= RECORD_FRAMING && rd'.pos == rd.pos && rd'.got == rd.got
    ensures CopyEnd(crc, rd, e) == CopyEnd(crc, rd', e)
  {
    hide V2Segment.DecodeV2, FromLE;
  }

  lemma {:induction false} CopyOne(crc: Checksum, st: V2Segment.State, e: seq<byte>)
    requires V2Segment.WriterBounds(st) && st.reader.pc.Copying? && st.reader.pc.len == |e| >= RECORD_FRAMING
    requires st.reader.pos + |e| <= |st.mem| && e == st.mem[st.reader.pos..st.reader.pos + |e|] && st.reader.pc.buf <= e
    ensures V2Segment.InBounds(st)
    ensures var rd := st.reader;
            V2Segment.ReaderNext(crc, st) ==
            if rd.pc.buf == e then CopyEnd(crc, rd, e) else rd.(pc := V2Segment.Copying(|e|, e[..|rd.pc.buf| + 1]))
  {
    V2Segment.ByteOf(st.mem, st.reader.pos, |e|, st.reader.pc.buf, e);
    hide V2Segment.DecodeV2, FromLE, V2Segment.Finish;
  }

  /** The end of a copy is the end that `Decode` gives. */
  lemma {:induction false} DecodeIsCopyEnd(crc: Checksum, file: seq<byte>, rd: V2Segment.Reader, len: nat)
    requires RECORD_FRAMING <= len && rd.pos + len <= |file|
    ensures Done(rd, Decode(crc, file, rd.pos, len), CopyEnd(crc, rd, file[rd.pos..rd.pos + len]))
  {
    DecodesOrNot(crc, file[rd.pos..rd.pos + len]);
    hide V2Segment.DecodeV2, FromLE;
  }

  lemma {:induction false} DecodesOrNot(crc: Checksum, buf: seq<byte>)
    requires |buf| >= RECORD_FRAMING
    ensures V2Segment.DecodeV2(crc, buf).Returned? || V2Segment.DecodeV2(crc, buf) == V2Segment.CorruptRecord
  {
    hide FromLE;
  }

  /** The checks against the end of the file and the tail. */
  lemma {:induction false} CallBegins(crc: Checksum, first: nat, st: V2Segment.State)
    requires Readable(st) && st.reader.pc.Ready?
    ensures var file, rd, rd' := Image(first, st), st.reader, V2Segment.CallNext(st);
            && |file| == |st.mem| == st.size >= SEGMENT_HEADER_LEN
            && if rd'.pc.Ready? then Done(rd, Step(crc, file, rd.pos), rd')
               else rd' == rd.(pc := V2Segment.AtLength) && rd.pos < TailOf(file) && rd.pos + 4 <= st.size
  {
    ImageIs(first, st);
    hide Image, FromLE, LengthAt, TailOf, Decode;
  }

  /** The load of the length field: it ends the call, or a copy of that length begins. */
  lemma {:induction false} LengthLoaded(crc: Checksum, file: seq<byte>, st: V2Segment.State)
    requires |file| == |st.mem| == st.size >= SEGMENT_HEADER_LEN && st.reader.pc.AtLength?
    requires st.reader.pos + 4 <= st.size && st.reader.pos < TailOf(file)
    requires file[st.reader.pos..st.reader.pos + 4] == st.mem[st.reader.pos..st.reader.pos + 4]
    ensures V2Segment.ReaderBounds(st.reader, st.size)
    ensures var rd, rd' := st.reader, V2Segment.ReaderNext(crc, st);
            if rd'.pc.Ready? then Done(rd, Step(crc, file, rd.pos), rd')
            else
              && rd'.pc.Copying? && RECORD_FRAMING <= rd'.pc.len && rd.pos + rd'.pc.len <= |file|
              && rd' == rd.(pc := V2Segment.Copying(rd'.pc.len, []))
              && Step(crc, file, rd.pos) == Decode(crc, file, rd.pos, rd'.pc.len)
  {
    LengthInside(file, st.reader.pos);
    hide FromLE, LengthAt, TailOf, Decode, V2Segment.DecodeV2;
  }

  lemma {:induction false} SameReader(rd: V2Segment.Reader, rd': V2Segment.Reader, r: (Outcome, nat),
          end: V2Segment.Reader)
    requires rd.got == rd'.got
    ensures Done(rd, r, end) <==> Done(rd', r, end)
  {
    hide SameOutcome;
  }

  /** An uninterrupted call of the step relation, on any mapping whatever its bytes, is the call on the bytes of its
      file: the same outcome, the same position after it. */
  lemma {:induction false} CallAlone(crc: Checksum, first: nat, st: V2Segment.State)
    returns (n: nat, st': V2Segment.State)
    requires Readable(st) && st.reader.pc.Ready?
    ensures |Image(first, st)| >= SEGMENT_HEADER_LEN
    ensures V2Segment.InBounds(st) && V2Segment.Enabled(st, V2Segment.Call)
    ensures ReaderRuns(crc, V2Segment.Next(crc, st, V2Segment.Call), n, st') && st' == st.(reader := st'.reader)
    ensures Done(st.reader, Step(crc, Image(first, st), st.reader.pos), st'.reader)
  {
    hide *;
    CallBegins(crc, first, st);
    CallIs(crc, st);
    ImageIs(first, st);
    var file, st1 := Image(first, st), st.(reader := V2Segment.CallNext(st));
    RunsNone(crc, st1);
    if st1.reader.pc.Ready? { return 0, st1; }
    LengthLoaded(crc, file, st1);
    ReaderEnabled(st1);
    SameReader(st.reader, st1.reader, Step(crc, file, st.reader.pos), V2Segment.ReaderNext(crc, st1));
    var st2 := st1.(reader := V2Segment.ReaderNext(crc, st1));
    RunsNone(crc, st2);
    if st2.reader.pc.Ready? {
      RunsOne(crc, st1, 0, st2);
      return 1, st2;
    }
    var e := file[st.reader.pos..st.reader.pos + st2.reader.pc.len];
    n, st' := CopyAlone(crc, st2, e);
    RunsOne(crc, st1, n, st');
    n := n + 1;
    DecodeIsCopyEnd(crc, file, st.reader, |e|);
    CopyEndIs(crc, st.reader, st2.reader, e);
  }

  lemma {:induction false} CallIs(crc: Checksum, st: V2Segment.State)
    requires Readable(st) && st.reader.pc.Ready?
    ensures V2Segment.InBounds(st) && V2Segment.Enabled(st, V2Segment.Call) && V2Segment.WriterBounds(st)
    ensures V2Segment.Next(crc, st, V2Segment.Call) == st.(reader := V2Segment.CallNext(st))
    ensures |st.mem| >= SEGMENT_HEADER_LEN && st.tail < U64 && st.reader.pos >= SEGMENT_HEADER_LEN
    ensures forall rd :: V2Segment.WriterBounds(st.(reader := rd))
  {
    hide V2Segment.CallNext;
  }

  lemma {:induction false} ReaderEnabled(st: V2Segment.State)
    requires V2Segment.WriterBounds(st) && V2Segment.ReaderBounds(st.reader, st.size) && !st.reader.pc.Ready?
    ensures V2Segment.InBounds(st) && V2Segment.Enabled(st, V2Segment.ReaderStep) && |st.mem| == st.size
  {
  }

  lemma {:induction false} RunsNone(crc: Checksum, st: V2Segment.State)
    ensures ReaderRuns(crc, st, 0, st)
  {
  }

  lemma {:induction false} RunsOne(crc: Checksum, st: V2Segment.State, n: nat, st': V2Segment.State)
    requires V2Segment.InBounds(st) && !st.reader.pc.Ready?
    requires ReaderRuns(crc, st.(reader := V2Segment.ReaderNext(crc, st)), n, st')
    ensures ReaderRuns(crc, st, n + 1, st')
  {
    hide V2Segment.ReaderNext, V2Segment.InBounds;
  }

  // ── The whole log ───────────────────────────────────────────────────────────

  /** Each segment of the log has its mapping. */
  ghost predicate Mapped(crc: Checksum, sts: seq<V2Segment.State>, ss: seq<Segment>) {
    |sts| == |ss| && forall i :: 0 <= i < |ss| ==> Holds(crc, sts[i], ss[i].records)
  }

  function Images(ss: seq<Segment>, sts: seq<V2Segment.State>): seq<seq<byte>>
    requires |sts| == |ss|
  {
    if ss == [] then [] else [Image(ss[0].first, sts[0])] + Images(ss[1..], sts[1..])
  }

  lemma {:induction false} ImagesItems(crc: Checksum, ss: seq<Segment>, sts: seq<V2Segment.State>)
    requires Mapped(crc, sts, ss)
    ensures FilesItemsV2(crc, Images(ss, sts)) == Recs(Concat(ss))
  {
    hide FileItemsV2, Holds, Image, Recs;
    if ss == [] {
      RecsOfNone();
    } else {
      ImageItems(crc, ss[0].first, sts[0], ss[0].records);
      ImagesItems(crc, ss[1..], sts[1..]);
      RecsConcat(ss[0].records, Concat(ss[1..]));
    }
  }

  /** v2 replay is exact down to the bytes: draining the replayer that `read_from` builds over the files gives,
      without an error, exactly the records from the asked cursor on that the log still has. */
  lemma {:induction false} ReplayOfMappings(crc: Checksum, ss: seq<Segment>, sts: seq<V2Segment.State>, c: nat)
    requires Chained(ss) && Mapped(crc, sts, ss) && ReadFrom(ss, c).Records?
    ensures var k := Containing(ss, c);
            k <= |ss| && Above(FilesItemsV2(crc, Images(ss[k..], sts[k..])), c) == Recs(AtLeast(Concat(ss), c))
  {
    hide Chained, Recs, Above, FilesItemsV2, Images, AtLeast, Concat, Holds;
    ReplayExact(ss, c);
    var k := Containing(ss, c);
    ImagesItems(crc, ss[k..], sts[k..]);
    AboveIsAtLeast(Concat(ss[k..]), c);
    if ss == [] { assert ss[k..] == ss; }
  }

  /** The files of a log, each with its damage. */
  ghost predicate AllDamaged(crc: Checksum, ss: seq<Segment>, sts: seq<V2Segment.State>, files: seq<seq<byte>>,
                             bads: seq<set<nat>>) {
    && |sts| == |ss| == |files| == |bads|
    && forall i :: 0 <= i < |ss| ==> Damaged(crc, Image(ss[i].first, sts[i]), files[i], ss[i].records, bads[i])
  }

  lemma {:induction false} DamagedRecords(crc: Checksum, ss: seq<Segment>, sts: seq<V2Segment.State>,
          files: seq<seq<byte>>, bads: seq<set<nat>>)
    requires Mapped(crc, sts, ss) && AllDamaged(crc, ss, sts, files, bads)
    ensures Handed(FilesItemsV2(crc, files)) == UndamagedAll(ss, bads)
  {
    hide FileItemsV2, Holds, Damaged, Shows, Undamaged, Image, Handed;
    if ss == [] {
      assert Handed([]) == [] by { hide *; NoneHanded(); }
    } else {
      DamagedItems(crc, ss[0].first, sts[0], ss[0].records, files[0], bads[0]);
      ShownRecords(crc, files[0], ss[0].records, bads[0], 0, FileItemsV2(crc, files[0]));
      DamagedRecords(crc, ss[1..], sts[1..], files[1..], bads[1..]);
      HandedConcat(FileItemsV2(crc, files[0]), FilesItemsV2(crc, files[1..]));
    }
  }

  lemma {:induction false} NoneHanded()
    ensures Handed([]) == []
  {
  }

  /** Replay of a damaged log: draining the replayer for cursor `c` hands out every record at or past it that still
      matches its checksum, in order and once each, and no other. */
  lemma {:induction false} DamagedReplay(crc: Checksum, ss: seq<Segment>, sts: seq<V2Segment.State>,
          files: seq<seq<byte>>, bads: seq<set<nat>>, c: nat)
    requires Chained(ss) && Mapped(crc, sts, ss) && AllDamaged(crc, ss, sts, files, bads) && ReadFrom(ss, c).Records?
    ensures var k := Containing(ss, c);
            && k <= |files| && |bads| == |ss|
            && Handed(Above(FilesItemsV2(crc, files[k..]), c)) == AtLeast(UndamagedAll(ss, bads), c)
  {
    hide Chained, Above, FilesItemsV2, AtLeast, Holds, Damaged, Image, Handed, UndamagedAll;
    var k := Containing(ss, c);
    DamagedRecords(crc, ss[k..], sts[k..], files[k..], bads[k..]);
    HandedAbove(FilesItemsV2(crc, files[k..]), c);
    if ss == [] {
      assert ss[k..] == ss && bads[k..] == bads;
    } else {
      SkipsOlder(ss, bads, c);
    }
  }

  /** What the skipped segments have is below the cursor, damaged or not. */
  lemma {:induction false} SkipsOlder(ss: seq<Segment>, bads: seq<set<nat>>, c: nat)
    requires ss != [] && |bads| == |ss| && Chained(ss) && ss[0].first <= c
    ensures AtLeast(UndamagedAll(ss[Containing(ss, c)..], bads[Containing(ss, c)..]), c)
            == AtLeast(UndamagedAll(ss, bads), c)
  {
    hide Consecutive, Undamaged, AtLeast, UndamagedAll;
    if |ss| <= 1 || ss[1].first > c {
      assert ss[0..] == ss && bads[0..] == bads;
    } else {
      ChainedTail(ss, 1);
      SkipsOlder(ss[1..], bads[1..], c);
      var k := Containing(ss[1..], c);
      assert ss[1 + k..] == ss[1..][k..] && bads[1 + k..] == bads[1..][k..];
      UndamagedSplits(ss, bads);
      AtLeastConcat(Undamaged(ss[0].records, bads[0], 0), UndamagedAll(ss[1..], bads[1..]), c);
      UndamagedBelow(ss[0].records, bads[0], 0, ss[0].first, c);
    }
  }

  lemma {:induction false} UndamagedSplits(ss: seq<Segment>, bads: seq<set<nat>>)
    requires ss != [] && |bads| == |ss|
    ensures UndamagedAll(ss, bads) == Undamaged(ss[0].records, bads[0], 0) + UndamagedAll(ss[1..], bads[1..])
  {
    hide Undamaged;
  }

  lemma {:induction false} UndamagedBelow(rs: seq<Record>, bad: set<nat>, from: nat, first: nat, c: nat)
    requires Consecutive(rs, first) && first + |rs| <= c && from <= |rs|
    ensures AtLeast(Undamaged(rs, bad, from), c) == []
    decreases |rs| - from
  {
    if from < |rs| {
      UndamagedBelow(rs, bad, from + 1, first, c);
      var one := if from in bad then [] else [rs[from]];
      AtLeastConcat(one, Undamaged(rs, bad, from + 1), c);
      if from !in bad { AtLeastStep(one, c); assert AtLeast(one[1..], c) == []; }
    }
  }

  /** A padded record takes the bytes that the log counts for it. */
  lemma {:induction false} EncodedBytes(crc: Checksum, rs: seq<Record>)
    ensures |V2Segment.EncodeAllV2(crc, rs)| == RecordsBytes(V2, rs)
  {
    hide V2Segment.EncodeV2;
    if rs != [] { EncodedBytes(crc, rs[..|rs| - 1]); }
  }

  /** A created file: zeros behind the header. */
  function CreatedMapping(size: nat): V2Segment.State {
    V2Segment.State(size, V2Segment.Zeros(size), SEGMENT_HEADER_LEN, V2Segment.Idle, false, [], [],
                    V2Segment.Reader(SEGMENT_HEADER_LEN, V2Segment.Ready, [], None))
  }

  lemma {:induction false} CreatedStarts(crc: Checksum, size: nat)
    requires size >= SEGMENT_HEADER_LEN + RECORD_FRAMING
    ensures V2Segment.Start(CreatedMapping(size))
  {
    hide V2Segment.Zeros;
    V2Segment.ZerosSplit(SEGMENT_HEADER_LEN, size);
    assert V2Segment.Zeros(size)[SEGMENT_HEADER_LEN..] == V2Segment.Zeros(size - SEGMENT_HEADER_LEN);
  }

  /** Every segment that fits a file has a mapping: the writer can append its records one after the other. */
  lemma {:induction false} SegmentHasMapping(crc: Checksum, size: nat, s: Segment) returns (st: V2Segment.State)
    requires AllFit(s.records) && SegmentBytes(V2, s) <= size
    requires SEGMENT_HEADER_LEN + RECORD_FRAMING <= size < U64
    ensures Holds(crc, st, s.records)
  {
    hide V2Segment.Start, V2Segment.Reaches, V2Segment.Inv, V2Segment.EncodeAllV2, V2Segment.Zeros, RecordsBytes;
    var start := CreatedMapping(size);
    CreatedStarts(crc, size);
    V2Segment.StartOk(crc, start);
    EncodedBytes(crc, s.records);
    assert start.visible + s.records == s.records;
    var actions;
    actions, st := V2Segment.AppendsReach(crc, start, s.records);
  }

  lemma {:induction false} LogHasMappings(crc: Checksum, cfg: Config, ss: seq<Segment>)
    returns (sts: seq<V2Segment.State>)
    requires cfg.layout == V2 && Wal.Bounded(cfg, ss) && forall i :: 0 <= i < |ss| ==> AllFit(ss[i].records)
    requires SEGMENT_HEADER_LEN + RECORD_FRAMING <= cfg.segmentSizeMax < U64
    ensures Mapped(crc, sts, ss)
  {
    hide AllFit, SegmentBytes, Holds;
    sts := [];
    for n := 0 to |ss|
      invariant |sts| == n && forall i :: 0 <= i < n ==> Holds(crc, sts[i], ss[i].records)
    {
      var st := SegmentHasMapping(crc, cfg.segmentSizeMax, ss[n]);
      sts := sts + [st];
    }
  }

  lemma {:induction false} SegmentsFit(ss: seq<Segment>, i: nat)
    requires AllFit(Concat(ss)) && i < |ss|
    ensures AllFit(ss[i].records)
  {
    if i > 0 {
      assert forall r :: r in Concat(ss[1..]) ==> r in Concat(ss);
      SegmentsFit(ss[1..], i - 1);
    } else {
      assert forall r :: r in ss[0].records ==> r in Concat(ss);
    }
  }

  /** What remains of a history of records that fit, with cursors of 64 bits. */
  lemma {:induction false} RemainsFit(ss: seq<Segment>, rs: seq<Record>, first: nat)
    requires Wal.Remains(ss, rs, first) && AllFit(rs) && first + |rs| < U64
    ensures Chained(ss) && ss != []
    ensures forall i :: 0 <= i < |ss| ==> ss[i].first < U64 && AllFit(ss[i].records)
  {
    hide Chained, Concat;
    assert forall r :: r in Concat(ss) ==> r in rs;
    forall i | 0 <= i < |ss| ensures ss[i].first < U64 && AllFit(ss[i].records) {
      SegmentsFit(ss, i);
      if i < |ss| - 1 { ChainedOrder(ss, i, |ss| - 1); }
    }
  }

  /** The files of a v2 log after any run of appends exist: each of its segments has a mapping of the configured
      size. */
  lemma {:induction false} RunIsOnDisk(crc: Checksum, cfg: Config, first: nat, rs: seq<Record>)
    returns (sts: seq<V2Segment.State>)
    requires cfg.layout == V2 && rs != [] && Consecutive(rs, first) && first + |rs| < U64
    requires WalV2.AllFitFresh(cfg, rs) && cfg.segmentSizeMax < U64
    ensures Mapped(crc, sts, WalV2.AppendAll(cfg, WalV2.Start(first), rs).log.segments)
  {
    hide *;
    WalV2.AfterRun(cfg, first, rs);
    RoomOf(cfg, rs);
    RemainsFit(WalV2.AppendAll(cfg, WalV2.Start(first), rs).log.segments, rs, first);
    sts := LogHasMappings(crc, cfg, WalV2.AppendAll(cfg, WalV2.Start(first), rs).log.segments);
  }

  lemma {:induction false} RoomOf(cfg: Config, rs: seq<Record>)
    requires rs != [] && WalV2.AllFitFresh(cfg, rs)
    ensures AllFit(rs) && SEGMENT_HEADER_LEN + RECORD_FRAMING <= cfg.segmentSizeMax
  {
    hide Fits;
    assert WalV2.FitsFresh(cfg, rs[0]);
  }

  /** The two logs are one down to the bytes: after the same appends, draining the replayer over the v0.1 files and
      draining the replayer over the v2 files gives the same items for every cursor both still have, namely the
      records appended from there on and no failure. */
  lemma {:induction false} SameLogOnDisk(crc: Checksum, created: nat -> u64, cfg1: Config, cfg2: Config, first: nat,
                                         rs: seq<Record>, sts: seq<V2Segment.State>, c: nat)
    requires cfg1.layout == V1 && cfg2.layout == V2 && rs != [] && Consecutive(rs, first) && first + |rs| < U64
    requires Wal.AllFitFresh(cfg1, rs) && WalV2.AllFitFresh(cfg2, rs)
    requires Mapped(crc, sts, WalV2.AppendAll(cfg2, WalV2.Start(first), rs).log.segments)
    ensures var ss1, ss2 := Wal.AppendAll(cfg1, Fresh(first), rs).segments,
                            WalV2.AppendAll(cfg2, WalV2.Start(first), rs).log.segments;
            && ss1 != [] && ss2 != [] && (forall i :: 0 <= i < |ss1| ==> ss1[i].first < U64)
            && (c >= ss1[0].first && c >= ss2[0].first ==>
                  var k1, k2 := Containing(ss1, c), Containing(ss2, c);
                  && k1 <= |ss1| && k2 <= |ss2| && first <= c
                  && Above(FilesItems(crc, Files(crc, created, ss1[k1..])), c)
                     == Above(FilesItemsV2(crc, Images(ss2[k2..], sts[k2..])), c)
                     == Recs(if c - first >= |rs| then [] else rs[c - first..]))
  {
    hide *;
    var ss1, ss2 := Wal.AppendAll(cfg1, Fresh(first), rs).segments,
      WalV2.AppendAll(cfg2, WalV2.Start(first), rs).log.segments;
    RoomOf(cfg2, rs);
    Wal.AfterRun(cfg1, first, rs);
    WalV2.AfterRun(cfg2, first, rs);
    RemainsFit(ss1, rs, first);
    RemainsFit(ss2, rs, first);
    Wal.ReplayAfterRun(cfg1, first, rs, c);
    WalV2.ReplayAfterRun(cfg2, first, rs, c);
    if c >= ss1[0].first && c >= ss2[0].first {
      ReplayExact(ss1, c);
      ReplayExact(ss2, c);
      ReplayOfFiles(crc, created, ss1, c);
      ReplayOfMappings(crc, ss2, sts, c);
    }
  }
}
