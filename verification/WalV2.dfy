/** The v2 write-ahead log: crates/mmbus/src/wal/v2/wal.rs with crates/mmbus/src/wal/v2/rotation.rs, its segments
    taken as the sequences of records that their readers return (see module V2Segment).

    Input and output succeed, except that creating a segment fails when its file exists or its size is too small
    for a record. There is one appender at a time. */
module WalV2 {
  import opened Bytes
  import opened WalRecord
  import opened SegmentLog
  import Wal

  /** The log with what the aggregator cannot see: the tail in the mapping of the active writer. */
  datatype State = State(log: Log, tail: nat)

  const MIN_SEGMENT: nat := SEGMENT_HEADER_LEN + RECORD_FRAMING

  /** `MmapSegmentWriter::create`, its size check first. */
  function CreateError(cfg: Config, ss: seq<Segment>, first: nat): Outcome {
    if cfg.segmentSizeMax < MIN_SEGMENT then SegmentTooSmall
    else if HasFile(ss, first) then AlreadyExists
    else Done
  }

  function Created(cfg: Config, s: State, first: nat): (State, Outcome) {
    var o := CreateError(cfg, s.log.segments, first);
    if o != Done then (s, o) else (State(Create(s.log, first), SEGMENT_HEADER_LEN), Done)
  }

  /** The active segment is retired with the size its tail shows. */
  function RetireAt(st: Log, tail: nat): Log
    requires st.writer.Some?
  {
    st.(sizes := st.sizes[st.writer.value.first := tail], retainedBytes := st.retainedBytes + tail, writer := None)
  }

  /** `rotate_locked`: the writer is taken out first, so an error leaves the log without one. */
  function Rotated(cfg: Config, s: State, first: nat): (State, Outcome) {
    if s.log.writer.None? then Created(cfg, s, first)
    else
      var o := CreateError(cfg, s.log.segments, first);
      if o != Done then (s.(log := s.log.(writer := None)), o)
      else (State(Create(RetireAt(s.log, s.tail), first), SEGMENT_HEADER_LEN), Done)
  }

  /** The tail after `write_skip_to_end`. */
  function Marked(cfg: Config, tail: nat): nat { if tail + 4 <= cfg.segmentSizeMax then tail + 4 else tail }

  /** The record is written at the tail; the writer does not look at its cursor. */
  function WrittenAt(s: State, r: Record): State
    requires s.log.writer.Some?
  {
    State(s.log.(segments := AppendTo(s.log.segments, s.log.writer.value.first, r)), s.tail + RecordBytes(V2, r))
  }

  /** The bookkeeping after the write. */
  function Booked(cfg: Config, s: State, r: Record, activeBytes: nat): State
    requires s.log.writer.Some?
  {
    var w := s.log.writer.value;
    s.(log := Wal.Pruned(cfg, s.log.(writer := Some(w.(pending := r.cursor + 1)), activeBytes := activeBytes,
                                     pending := r.cursor + 1)))
  }

  /** The writer an append starts with. */
  function Ready(cfg: Config, s: State, r: Record): (State, Outcome) {
    if s.log.writer.Some? && s.log.activeBytes + RecordBytes(V2, r) <= cfg.segmentSizeMax then (s, Done)
    else if s.log.writer.None? then Created(cfg, s, r.cursor)
    else Rotated(cfg, s, r.cursor)
  }

  function Fallback(cfg: Config, s: State, r: Record): (State, Outcome) {
    var oldTail := Marked(cfg, s.tail);
    var (s2, o) := Rotated(cfg, s, r.cursor);
    if o != Done then (s2, o)
    else if s2.tail + RecordBytes(V2, r) > cfg.segmentSizeMax then (s2, PayloadTooLarge)
    else (Booked(cfg, WrittenAt(s2, r), r, oldTail), Done)
  }

  function Appended(cfg: Config, s: State, r: Record): (State, Outcome) {
    if |r.payload| > MAX_PAYLOAD_LEN then (s, PayloadTooLarge)
    else
      var (s1, o) := Ready(cfg, s, r);
      if o != Done then (s1, o)
      else if s1.tail + RecordBytes(V2, r) > cfg.segmentSizeMax then Fallback(cfg, s1, r)
      else
        var s2 := WrittenAt(s1, r);
        (Booked(cfg, s2, r, s2.tail), Done)
  }

  /** A writer: the segment it is mapped to and the tail in its header. */
  class MmapSegmentWriter {
    const firstCursor: nat
    const segmentSize: nat
    var tail: nat

    constructor (segmentSize: nat, firstCursor: nat)
      ensures this.segmentSize == segmentSize && this.firstCursor == firstCursor && tail == SEGMENT_HEADER_LEN
    {
      this.segmentSize, this.firstCursor, tail := segmentSize, firstCursor, SEGMENT_HEADER_LEN;
    }

    /** The reservation of `append`. */
    method Reserve(bytes: nat) returns (full: bool)
      modifies this
      ensures full <==> old(tail) + bytes > segmentSize
      ensures tail == if full then old(tail) else old(tail) + bytes
    {
      full := tail + bytes > segmentSize;
      if !full { tail := tail + bytes; }
    }

    method WriteSkipToEnd() returns (marked: bool)
      modifies this
      ensures marked <==> old(tail) + 4 <= segmentSize
      ensures tail == if marked then old(tail) + 4 else old(tail)
    {
      marked := tail + 4 <= segmentSize;
      if marked { tail := tail + 4; }
    }
  }

  /** The aggregator. `tail` and `next` are what a writer that is gone would still show. */
  class Aggregator {
    const cfg: Config
    var segments: seq<Segment>
    var sizes: map<nat, nat>
    var activeBytes: nat
    var retainedBytes: nat
    var writer: MmapSegmentWriter?
    var pendingCursor: nat
    ghost var tail: nat
    ghost var next: nat

    ghost predicate Valid()
      reads this, writer
    {
      writer != null ==> writer.segmentSize == cfg.segmentSizeMax && writer.tail == tail
    }

    ghost function View(): State
      reads this, writer
    {
      State(Log(segments, sizes, activeBytes, retainedBytes,
                if writer == null then None else Some(Writer(writer.firstCursor, next)), pendingCursor), tail)
    }

    constructor (cfg: Config, pending: nat)
      ensures this.cfg == cfg && Valid() && View() == State(Fresh(pending), 0)
    {
      this.cfg := cfg;
      segments, sizes := [], map[];
      activeBytes, retainedBytes, writer, pendingCursor, tail, next := 0, 0, null, pending, 0, 0;
    }

    method CreateSegment(first: nat) returns (o: Outcome)
      requires Valid() && writer == null
      modifies this
      ensures Valid() && (writer == null || fresh(writer)) && (o == Done ==> writer != null)
      ensures (View(), o) == Created(cfg, old(View()), first)
    {
      if cfg.segmentSizeMax < MIN_SEGMENT { return SegmentTooSmall; }
      if HasFile(segments, first) { return AlreadyExists; }
      writer := new MmapSegmentWriter(cfg.segmentSizeMax, first);
      segments, activeBytes := Insert(segments, Segment(first, [])), writer.tail;
      tail, next := writer.tail, first;
      o := Done;
    }

    method RotateLocked(first: nat) returns (o: Outcome)
      requires Valid()
      modifies this, writer
      ensures Valid() && (writer == null || fresh(writer)) && (o == Done ==> writer != null)
      ensures old(writer) != null ==> old(writer).tail == Marked(cfg, old(tail))
      ensures (View(), o) == Rotated(cfg, old(View()), first)
    {
      var w := writer;
      if w == null {
        o := CreateSegment(first);
        return;
      }
      writer := null;
      var finalBytes := w.tail;
      var _ := w.WriteSkipToEnd();
      if cfg.segmentSizeMax < MIN_SEGMENT { return SegmentTooSmall; }
      if HasFile(segments, first) { return AlreadyExists; }
      var w' := new MmapSegmentWriter(cfg.segmentSizeMax, first);
      sizes, retainedBytes := sizes[w.firstCursor := finalBytes], retainedBytes + finalBytes;
      segments, activeBytes, writer := Insert(segments, Segment(first, [])), w'.tail, w';
      tail, next := w'.tail, first;
      o := Done;
    }

    method EnforceRetentionLocked()
      requires Valid()
      modifies this`segments, this`sizes, this`retainedBytes
      ensures Valid() && View() == old(View()).(log := Enforce(cfg, old(View()).log))
    {
      while true
        invariant Valid() && View() == old(View()).(log := View().log)
        invariant Enforce(cfg, View().log) == Enforce(cfg, old(View()).log)
        decreases |segments|
      {
        if retainedBytes + activeBytes <= cfg.retentionBytes { return; }
        var activeFirst := if writer != null then writer.firstCursor else NO_ACTIVE;
        var oldest := FirstOther(segments, activeFirst);
        FirstOtherInRange(segments, activeFirst);
        match oldest {
          case None => return;
          case Some(i) =>
            ghost var before := View().log;
            var k := segments[i].first;
            segments := segments[..i] + segments[i + 1..];
            if k in sizes {
              retainedBytes := SubSat(retainedBytes, sizes[k]);
              sizes := sizes - {k};
            }
            assert View().log == Delete(before, i);
        }
      }
    }

    method Write(r: Record)
      requires Valid() && writer != null && tail + RecordBytes(V2, r) <= cfg.segmentSizeMax
      modifies this`segments, this`tail, writer
      ensures Valid() && View() == WrittenAt(old(View()), r)
    {
      var full := writer.Reserve(RecordBytes(V2, r));
      segments := AppendTo(segments, writer.firstCursor, r);
      tail := tail + RecordBytes(V2, r);
    }

    method Book(r: Record, bytes: nat)
      requires Valid() && writer != null
      modifies this
      ensures Valid() && View() == Booked(cfg, old(View()), r, bytes)
    {
      pendingCursor, activeBytes, next := r.cursor + 1, bytes, r.cursor + 1;
      if retainedBytes + activeBytes > cfg.retentionBytes { EnforceRetentionLocked(); }
    }

    /** `append`: the writer at hand, a created or a rotated one; and the fallback for a record it has no room for. */
    method Append(r: Record) returns (o: Outcome)
      requires Valid()
      modifies this, writer
      ensures Valid() && (View(), o) == Appended(cfg, old(View()), r)
    {
      if |r.payload| > MAX_PAYLOAD_LEN { return PayloadTooLarge; }
      var bytes := RecordBytes(V2, r);
      if !(writer != null && activeBytes + bytes <= cfg.segmentSizeMax) {
        if writer == null { o := CreateSegment(r.cursor); } else { o := RotateLocked(r.cursor); }
        if o != Done { return; }
      }
      var w := writer;
      if w.tail + bytes <= w.segmentSize {
        Write(r);
        Book(r, w.tail);
        return Done;
      }
      o := RotateLocked(r.cursor);
      if o != Done { return; }
      if writer.tail + bytes > writer.segmentSize { return PayloadTooLarge; }
      Write(r);
      Book(r, w.tail);
      o := Done;
    }
  }

  // ── One append with the next cursor ─────────────────────────────────────────

  predicate FitsFresh(cfg: Config, r: Record) {
    SEGMENT_HEADER_LEN + RecordBytes(V2, r) <= cfg.segmentSizeMax
  }

  /** With a writer, the cached byte count is the writer's tail. A failed rotation or creation leaves an empty last
      segment without one, whose size is not recorded. */
  predicate Inv2(cfg: Config, s: State) {
    if s.log.writer.Some? then
      Inv(V2, s.log) && s.log.activeBytes == s.tail <= cfg.segmentSizeMax && cfg.segmentSizeMax >= MIN_SEGMENT
    else if s.log.segments == [] then Inv(V2, s.log)
    else Chained(s.log.segments) && EndsAt(s.log.segments, s.log.pending) && Wal.ActiveEmpty(s.log)
  }

  lemma {:induction false} ActiveBytesOf(st: Log)
    requires Inv(V2, st) && st.writer.Some?
    ensures st.activeBytes >= SEGMENT_HEADER_LEN && st.segments != [] &&
      st.writer.value == Writer(st.segments[|st.segments| - 1].first, st.pending)
    ensures Chained(st.segments) && EndsAt(st.segments, st.pending)
  {
    hide Chained, SizesOk, TotalBytes, EndsAt;
  }

  lemma {:induction false} CreatedKeeps(cfg: Config, s: State)
    requires Inv2(cfg, s) && s.log.writer.None?
    ensures var (s', o) := Created(cfg, s, s.log.pending);
            && (o == Done <==> s.log.segments == [] && cfg.segmentSizeMax >= MIN_SEGMENT)
            && (o == Done ==>
                  && Inv2(cfg, s') && s'.log.writer.Some? && s'.tail == SEGMENT_HEADER_LEN
                  && s'.log.pending == s.log.pending
                  && s'.log.segments == s.log.segments + [Segment(s.log.pending, [])])
            && (o != Done ==> s' == s && (o == SegmentTooSmall || o == AlreadyExists))
            && (o == AlreadyExists ==> s.log.segments != [])
  {
    var st := s.log;
    if st.segments == [] {
      assert AllRetired(V2, st);
      CreateKeeps(V2, st);
    } else {
      NameClash(st.segments, st.pending);
    }
    hide Inv, HasFile, Create, Chained;
  }

  lemma {:induction false} RetireAtTail(st: Log)
    requires st.writer.Some?
    ensures RetireAt(st, st.activeBytes) == Retire(st)
  {
  }

  /** A rotation to the next cursor succeeds exactly when the active segment holds a record; otherwise the log loses
      its writer for good. */
  lemma {:induction false} RotatedKeeps(cfg: Config, s: State)
    requires Inv2(cfg, s) && s.log.writer.Some?
    ensures var (s', o) := Rotated(cfg, s, s.log.pending);
            && Inv2(cfg, s') && s'.log.pending == s.log.pending
            && (o == Done <==> !Wal.ActiveEmpty(s.log))
            && (o == Done ==>
                  && s'.log.writer.Some? && s'.tail == SEGMENT_HEADER_LEN
                  && s'.log.segments == s.log.segments + [Segment(s.log.pending, [])])
            && (o != Done ==> o == AlreadyExists && Wal.Wedged(s'.log) && s'.log.segments == s.log.segments)
  {
    var st := s.log;
    ActiveBytesOf(st);
    NameClash(st.segments, st.pending);
    RetireAtTail(st);
    if !HasFile(st.segments, st.pending) {
      RetireKeeps(V2, st);
      CreateKeeps(V2, Retire(st));
    }
    hide Inv, HasFile, Create, Retire, RetireAt, AllRetired, Chained, EndsAt;
  }

  /** Before the write there is a writer whose tail the log knows; the record fits it or the segment is empty. */
  lemma {:induction false} ReadyKeeps(cfg: Config, s: State, r: Record)
    requires Inv2(cfg, s) && r.cursor == s.log.pending
    ensures var (s', o) := Ready(cfg, s, r);
            && Inv2(cfg, s') && s'.log.pending == s.log.pending
            && (s'.log.segments == s.log.segments || s'.log.segments == s.log.segments + [Segment(s.log.pending, [])])
            && (o == Done ==> s'.log.writer.Some? && !Wal.Wedged(s.log))
            && (o == Done ==> (s'.tail + RecordBytes(V2, r) <= cfg.segmentSizeMax <==> FitsFresh(cfg, r)))
            && (o == Done && !FitsFresh(cfg, r) ==> Wal.ActiveEmpty(s'.log))
            && (o != Done ==> (o == AlreadyExists && Wal.Wedged(s'.log)) || (o == SegmentTooSmall && s' == s))
            && (o != Done ==> Wal.Wedged(s.log) || !FitsFresh(cfg, r))
  {
    EnoughRoom(r);
    if s.log.writer.None? {
      CreatedKeeps(cfg, s);
      EmptyEnd(s.log);
      hide Inv2, Created, Rotated, RecordBytes, Wal.ActiveEmpty;
    } else {
      ActiveOf(cfg, s);
      RotatedKeeps(cfg, s);
      RotatedEnd(cfg, s);
      hide Inv2, Created, Rotated, RecordBytes, Wal.ActiveEmpty;
    }
  }

  /** A new last segment is empty. */
  lemma {:induction false} EmptyEnd(st: Log)
    ensures forall ss: seq<Segment>, st': Log :: st'.segments == ss + [Segment(st.pending, [])] ==> Wal.ActiveEmpty(st')
  {
  }

  lemma {:induction false} RotatedEnd(cfg: Config, s: State)
    requires Inv2(cfg, s) && s.log.writer.Some?
    ensures var (s', o) := Rotated(cfg, s, s.log.pending); o == Done ==> Wal.ActiveEmpty(s'.log)
  {
    RotatedKeeps(cfg, s);
    EmptyEnd(s.log);
    hide Inv2, Rotated, Wal.ActiveEmpty;
  }

  lemma {:induction false} ActiveOf(cfg: Config, s: State)
    requires Inv2(cfg, s) && s.log.writer.Some?
    ensures SEGMENT_HEADER_LEN <= s.tail == s.log.activeBytes <= cfg.segmentSizeMax && cfg.segmentSizeMax >= MIN_SEGMENT
    ensures Wal.ActiveEmpty(s.log) ==> s.tail == SEGMENT_HEADER_LEN
  {
    ActiveBytesOf(s.log);
    if Wal.ActiveEmpty(s.log) { EmptyActive(s.log); }
    hide Inv, Chained, EndsAt;
  }

  lemma {:induction false} EnoughRoom(r: Record)
    ensures RecordBytes(V2, r) >= RECORD_FRAMING
  {
  }

  lemma {:induction false} EmptyActive(st: Log)
    requires Inv(V2, st) && st.writer.Some? && Wal.ActiveEmpty(st)
    ensures st.activeBytes == SEGMENT_HEADER_LEN
  {
    hide Chained, SizesOk, TotalBytes, EndsAt;
  }

  /** The fallback for a full writer never helps: it is reached only with an empty active segment, and then the
      rotation it starts with collides with that segment. */
  lemma {:induction false} FallbackNeverHelps(cfg: Config, s: State, r: Record)
    requires Inv2(cfg, s) && r.cursor == s.log.pending
    requires Ready(cfg, s, r).1 == Done && Ready(cfg, s, r).0.tail + RecordBytes(V2, r) > cfg.segmentSizeMax
    ensures !FitsFresh(cfg, r)
    ensures var (s', o) := Fallback(cfg, Ready(cfg, s, r).0, r);
            && o == AlreadyExists && Inv2(cfg, s') && Wal.Wedged(s'.log) && s'.log.pending == s.log.pending
            && s'.log.segments == Ready(cfg, s, r).0.log.segments
  {
    ReadyKeeps(cfg, s, r);
    RotatedKeeps(cfg, Ready(cfg, s, r).0);
    hide Inv2, Ready, Rotated, RecordBytes;
  }

  /** The write and its bookkeeping are the write that both logs share. */
  lemma {:induction false} BookedIs(cfg: Config, s: State, r: Record)
    requires s.log.writer.Some? && s.log.activeBytes == s.tail && s.log.writer.value.pending == r.cursor
    ensures var s2 := WrittenAt(s, r);
            Booked(cfg, s2, r, s2.tail) == State(Wal.Pruned(cfg, Written(V2, s.log, r)), s2.tail)
    ensures WrittenAt(s, r).tail == Written(V2, s.log, r).activeBytes
  {
    hide RecordBytes, AppendTo, Wal.Pruned;
  }

  /** Appending the next record succeeds exactly when there is a log that is not wedged and the record fits a fresh
      segment. Then the log ends with it and the cached byte count is the tail again; a refusal leaves the log
      wedged, unless no segment could be created at all. */
  lemma {:induction false} AppendNext(cfg: Config, s: State, r: Record)
    requires cfg.layout == V2 && Inv2(cfg, s) && r.cursor == s.log.pending && Fits(r)
    ensures var (s', o) := Appended(cfg, s, r);
            && Inv2(cfg, s') && (o == Done <==> !Wal.Wedged(s.log) && FitsFresh(cfg, r))
            && (o == Done ==>
                  && s'.log.writer.Some? && s'.log.pending == s.log.pending + 1 && s'.log.segments != []
                  && Wal.Suffix(Concat(s'.log.segments), Concat(s.log.segments) + [r])
                  && (s'.log.retainedBytes + s'.log.activeBytes <= cfg.retentionBytes || |s'.log.segments| == 1))
            && (o != Done ==>
                  && s'.log.pending == s.log.pending && Concat(s'.log.segments) == Concat(s.log.segments)
                  && ((o == AlreadyExists && Wal.Wedged(s'.log)) || (o == SegmentTooSmall && s' == s)))
  {
    var (s1, o) := Ready(cfg, s, r);
    ReadyKeeps(cfg, s, r);
    Wal.EmptySegmentAddsNothing(s.log.segments, s.log.pending);
    AppendedIs(cfg, s, r);
    hide *;
    if o == Done {
      if s1.tail + RecordBytes(V2, r) > cfg.segmentSizeMax {
        FallbackNeverHelps(cfg, s, r);
      } else {
        WriteNext(cfg, s1, r);
      }
    }
  }

  /** A payload too large for any record is refused before anything happens, and with the next cursor nothing else is
      refused that way. */
  lemma {:induction false} TooLargeIff(cfg: Config, s: State, r: Record)
    requires cfg.layout == V2 && Inv2(cfg, s)
    ensures !Fits(r) ==> Appended(cfg, s, r) == (s, PayloadTooLarge)
    ensures r.cursor == s.log.pending ==> (Appended(cfg, s, r).1 == PayloadTooLarge <==> !Fits(r))
  {
    if Fits(r) && r.cursor == s.log.pending { AppendNext(cfg, s, r); }
    hide Inv2, Ready, Fallback, RecordBytes, Booked;
  }

  /** The whole of a successful append, the same as that of the other log. */
  lemma {:induction false} AppendExact(cfg: Config, s: State, r: Record)
    requires cfg.layout == V2 && Inv2(cfg, s) && r.cursor == s.log.pending && Fits(r)
    requires !Wal.Wedged(s.log) && FitsFresh(cfg, r)
    ensures Trimmed(cfg, WithRecord(cfg, s.log.segments, r), Appended(cfg, s, r).0.log.segments)
  {
    hide *;
    ReadyKeeps(cfg, s, r);
    AppendedIs(cfg, s, r);
    ReadyIs(cfg, s, r);
    var s1 := Ready(cfg, s, r).0;
    WriterFacts(cfg, s1);
    BookedIs(cfg, s1, r);
    WrittenKeeps(V2, s1.log, r);
    ExtendedNew(s.log.segments, r);
    Wal.WithRecordIs(cfg, s.log.segments, r);
    Wal.WrittenWriter(V2, s1.log, r);
    Wal.PrunedTrims(cfg, Written(V2, s1.log, r));
  }

  lemma {:induction false} ActiveIs(st: Log)
    requires Inv(V2, st) && st.writer.Some?
    ensures st.segments != [] && st.activeBytes == SegmentBytes(V2, st.segments[|st.segments| - 1])
  {
    hide Chained, SizesOk, TotalBytes, EndsAt, SegmentBytes;
  }

  lemma {:induction false} ReadyIs(cfg: Config, s: State, r: Record)
    requires cfg.layout == V2 && Inv2(cfg, s) && r.cursor == s.log.pending && !Wal.Wedged(s.log) && FitsFresh(cfg, r)
    ensures Ready(cfg, s, r).0.log.segments ==
            if StartsSegment(cfg, s.log.segments, r) then s.log.segments + [Segment(s.log.pending, [])]
            else s.log.segments
  {
    EnoughRoom(r);
    if s.log.writer.None? {
      CreatedKeeps(cfg, s);
      hide Inv2, Created, Rotated, RecordBytes, SegmentBytes;
    } else {
      ActiveIs(s.log);
      ActiveOf(cfg, s);
      RotatedKeeps(cfg, s);
      hide Inv2, Created, Rotated, RecordBytes, SegmentBytes;
    }
  }

  lemma {:induction false} AppendedIs(cfg: Config, s: State, r: Record)
    requires Fits(r)
    ensures Ready(cfg, s, r).1 == Done && Ready(cfg, s, r).0.tail + RecordBytes(V2, r) <= cfg.segmentSizeMax ==>
              Ready(cfg, s, r).0.log.writer.Some?
    ensures Appended(cfg, s, r) ==
            var (s1, o) := Ready(cfg, s, r);
            if o != Done then (s1, o)
            else if s1.tail + RecordBytes(V2, r) > cfg.segmentSizeMax then Fallback(cfg, s1, r)
            else (Booked(cfg, WrittenAt(s1, r), r, WrittenAt(s1, r).tail), Done)
  {
    hide RecordBytes, Fallback, Booked, HasFile;
  }

  lemma {:induction false} WriteNext(cfg: Config, s: State, r: Record)
    requires cfg.layout == V2 && Inv2(cfg, s) && s.log.writer.Some? && r.cursor == s.log.pending
    requires s.tail + RecordBytes(V2, r) <= cfg.segmentSizeMax
    ensures var s' := Booked(cfg, WrittenAt(s, r), r, WrittenAt(s, r).tail);
            && Inv2(cfg, s') && s'.log.writer.Some? && s'.log.pending == s.log.pending + 1 && s'.log.segments != []
            && Wal.Suffix(Concat(s'.log.segments), Concat(s.log.segments) + [r])
            && (s'.log.retainedBytes + s'.log.activeBytes <= cfg.retentionBytes || |s'.log.segments| == 1)
  {
    ActiveBytesOf(s.log);
    BookedIs(cfg, s, r);
    WrittenKeeps(V2, s.log, r);
    Wal.PrunedKeeps(cfg, Written(V2, s.log, r));
    hide Inv, Concat, Wal.Pruned, WrittenAt, Booked, AppendTo, RecordBytes, Chained, EndsAt;
  }

  /** The counter of retired bytes never goes below zero: what retention subtracts was added. */
  lemma {:induction false} PruneNeverUnderflows(l: Layout, st: Log)
    requires Inv(l, st) && st.writer.Some? && |st.segments| > 1
    ensures st.segments[0].first in st.sizes && st.sizes[st.segments[0].first] <= st.retainedBytes
  {
    assert Retired(st)[0] == st.segments[0];
    hide Chained, SegmentBytes;
  }

  // ── Whole runs, and the two logs side by side ───────────────────────────────

  function AppendAll(cfg: Config, s: State, rs: seq<Record>): State {
    if rs == [] then s else Appended(cfg, AppendAll(cfg, s, rs[..|rs| - 1]), rs[|rs| - 1]).0
  }

  predicate AllFitFresh(cfg: Config, rs: seq<Record>) {
    forall i :: 0 <= i < |rs| ==> Fits(rs[i]) && FitsFresh(cfg, rs[i])
  }

  predicate Holds(cfg: Config, s: State, past: seq<Record>) {
    Inv2(cfg, s) && !Wal.Wedged(s.log) && Wal.Suffix(Concat(s.log.segments), past) && Wal.Bounded(cfg, s.log.segments)
  }

  /** A record that fits keeps every segment within the size of its file. */
  lemma {:induction false} AppendBounded(cfg: Config, s: State, r: Record)
    requires cfg.layout == V2 && Inv2(cfg, s) && !Wal.Wedged(s.log) && r.cursor == s.log.pending && Fits(r)
    requires FitsFresh(cfg, r) && Wal.Bounded(cfg, s.log.segments)
    ensures Wal.Bounded(cfg, Appended(cfg, s, r).0.log.segments)
  {
    hide *;
    var (s1, o) := Ready(cfg, s, r);
    ReadyKeeps(cfg, s, r);
    AppendedIs(cfg, s, r);
    RoomForFresh(cfg, r);
    Wal.BoundedGrows(cfg, s.log.segments, s.log.pending, r);
    WriteBounded(cfg, s1, r);
  }

  lemma {:induction false} RoomForFresh(cfg: Config, r: Record)
    requires cfg.layout == V2 && FitsFresh(cfg, r)
    ensures Wal.FitsFresh(cfg, r)
  {
  }

  lemma {:induction false} WriteBounded(cfg: Config, s: State, r: Record)
    requires cfg.layout == V2 && Inv2(cfg, s) && s.log.writer.Some? && r.cursor == s.log.pending
    requires s.tail + RecordBytes(V2, r) <= cfg.segmentSizeMax && Wal.Bounded(cfg, s.log.segments)
    ensures Wal.Bounded(cfg, Booked(cfg, WrittenAt(s, r), r, WrittenAt(s, r).tail).log.segments)
  {
    hide *;
    WriterFacts(cfg, s);
    BookedIs(cfg, s, r);
    Wal.WriteBounded(cfg, s.log, r);
  }

  lemma {:induction false} WriterFacts(cfg: Config, s: State)
    requires Inv2(cfg, s) && s.log.writer.Some?
    ensures Inv(V2, s.log) && s.log.activeBytes == s.tail && s.log.writer.value.pending == s.log.pending
  {
    ActiveBytesOf(s.log);
    hide Inv;
  }

  lemma {:induction false} HoldsOn(cfg: Config, s: State, past: seq<Record>, r: Record)
    requires cfg.layout == V2 && Holds(cfg, s, past) && r.cursor == s.log.pending && Fits(r) && FitsFresh(cfg, r)
    ensures var (s', o) := Appended(cfg, s, r);
            && o == Done && Holds(cfg, s', past + [r]) && s'.log.pending == s.log.pending + 1
            && s'.log.writer.Some? && s'.log.activeBytes == s'.tail <= cfg.segmentSizeMax && s'.log.segments != []
            && (s'.log.retainedBytes + s'.log.activeBytes <= cfg.retentionBytes || |s'.log.segments| == 1)
  {
    AppendNext(cfg, s, r);
    AppendBounded(cfg, s, r);
    hide Inv, Concat, Appended, Chained, EndsAt, Wal.Bounded;
    Wal.SuffixGrows(Concat(s.log.segments), past, r, Concat(Appended(cfg, s, r).0.log.segments));
  }

  lemma {:induction false} AppendAllNone(cfg: Config, s: State)
    ensures AppendAll(cfg, s, []) == s
  {
  }

  lemma {:induction false} AppendAllStep(cfg: Config, s: State, rs: seq<Record>)
    requires rs != [] && Consecutive(rs, s.log.pending) && AllFitFresh(cfg, rs)
    ensures var n := |rs| - 1;
            && AppendAll(cfg, s, rs) == Appended(cfg, AppendAll(cfg, s, rs[..n]), rs[n]).0
            && Consecutive(rs[..n], s.log.pending) && AllFitFresh(cfg, rs[..n])
            && rs[n].cursor == s.log.pending + n && Fits(rs[n]) && FitsFresh(cfg, rs[n])
  {
    hide Appended, FitsFresh, Fits;
  }

  /** Any run of appends with consecutive cursors, of records that fit a fresh segment, succeeds throughout, keeps a
      contiguous suffix of the history, and the cached byte count never drifts from the writer's tail. */
  lemma {:induction false} LogShape(cfg: Config, s: State, past: seq<Record>, rs: seq<Record>)
    requires cfg.layout == V2 && Holds(cfg, s, past)
    requires Consecutive(rs, s.log.pending) && AllFitFresh(cfg, rs)
    ensures var s' := AppendAll(cfg, s, rs);
            && Holds(cfg, s', past + rs) && s'.log.pending == s.log.pending + |rs|
            && (rs != [] ==>
                  && s'.log.writer.Some? && s'.log.activeBytes == s'.tail <= cfg.segmentSizeMax && s'.log.segments != []
                  && (s'.log.retainedBytes + s'.log.activeBytes <= cfg.retentionBytes || |s'.log.segments| == 1))
  {
    hide *;
    if rs == [] {
      AppendAllNone(cfg, s);
      assert past + rs == past;
    } else {
      var n := |rs| - 1;
      AppendAllStep(cfg, s, rs);
      LogShape(cfg, s, past, rs[..n]);
      HoldsOn(cfg, AppendAll(cfg, s, rs[..n]), past + rs[..n], rs[n]);
      assert past + rs[..n] + [rs[n]] == past + rs;
    }
  }

  function Start(first: nat): State { State(Fresh(first), 0) }

  lemma {:induction false} StartHolds(cfg: Config, first: nat)
    ensures Holds(cfg, Start(first), []) && Start(first).log.pending == first
  {
  }

  /** What such a run leaves, and that every segment fits its file. */
  lemma {:induction false} AfterRun(cfg: Config, first: nat, rs: seq<Record>)
    requires cfg.layout == V2 && Consecutive(rs, first) && AllFitFresh(cfg, rs) && rs != []
    ensures var ss := AppendAll(cfg, Start(first), rs).log.segments;
            Wal.Remains(ss, rs, first) && Wal.Bounded(cfg, ss)
  {
    hide *;
    StartHolds(cfg, first);
    LogShape(cfg, Start(first), [], rs);
    assert [] + rs == rs;
    HoldsFacts(cfg, AppendAll(cfg, Start(first), rs), rs);
    Wal.RemainsIs(AppendAll(cfg, Start(first), rs).log.segments, rs, first);
  }

  lemma {:induction false} HoldsFacts(cfg: Config, s: State, past: seq<Record>)
    requires Holds(cfg, s, past)
    ensures Chained(s.log.segments) && EndsAt(s.log.segments, s.log.pending) && Wal.Suffix(Concat(s.log.segments), past)
    ensures Wal.Bounded(cfg, s.log.segments)
  {
    hide Concat, Wal.Bounded;
  }

  lemma {:induction false} ReplayAfterRun(cfg: Config, first: nat, rs: seq<Record>, c: nat)
    requires cfg.layout == V2 && Consecutive(rs, first) && AllFitFresh(cfg, rs) && rs != []
    ensures var ss := AppendAll(cfg, Start(first), rs).log.segments;
            && ss != [] && first <= ss[0].first <= first + |rs|
            && ReadFrom(ss, c) == (
               if c < ss[0].first then CursorTooOld(c, ss[0].first)
               else Records(if c - first >= |rs| then [] else rs[c - first..]))
  {
    hide *;
    StartHolds(cfg, first);
    LogShape(cfg, Start(first), [], rs);
    var st := AppendAll(cfg, Start(first), rs).log;
    assert [] + rs == rs;
    HoldsFacts(cfg, AppendAll(cfg, Start(first), rs), rs);
    ReplayExact(st.segments, c);
    ConcatConsecutive(st.segments);
    Wal.EndOfChain(st.segments, st.pending);
    Wal.OldestInRange(st.segments, rs, first);
    if c >= st.segments[0].first { Wal.ReplayOfSuffix(Concat(st.segments), st.segments[0].first, rs, first, c); }
  }

  /** The two logs are one: fed the same records, v0.1 and v2 give the same cursors, timestamps and payloads to
      every reader that asks for a cursor both still have, whatever padding and rotation do in between; while neither
      has deleted anything, that is to say while both still start at `first`, that is every cursor there is. */
  lemma {:induction false} SameLog(cfg1: Config, cfg2: Config, first: nat, rs: seq<Record>, c: nat)
    requires cfg1.layout == V1 && cfg2.layout == V2 && rs != [] && Consecutive(rs, first)
    requires Wal.AllFitFresh(cfg1, rs) && AllFitFresh(cfg2, rs)
    ensures var ss1, ss2 := Wal.AppendAll(cfg1, Fresh(first), rs).segments,
      AppendAll(cfg2, Start(first), rs).log.segments;
            && ss1 != [] && ss2 != []
            && (c >= ss1[0].first && c >= ss2[0].first ==> ReadFrom(ss1, c) == ReadFrom(ss2, c))
            && (Concat(ss1) == rs <==> ss1[0].first == first) && (Concat(ss2) == rs <==> ss2[0].first == first)
            && (Concat(ss1) == rs && Concat(ss2) == rs ==> ReadFrom(ss1, c) == ReadFrom(ss2, c))
  {
    hide *;
    Wal.ReplayAfterRun(cfg1, first, rs, c);
    ReplayAfterRun(cfg2, first, rs, c);
    Wal.AfterRun(cfg1, first, rs);
    AfterRun(cfg2, first, rs);
    Wal.NothingDeletedIff(Wal.AppendAll(cfg1, Fresh(first), rs).segments, rs, first);
    Wal.NothingDeletedIff(AppendAll(cfg2, Start(first), rs).log.segments, rs, first);
  }
}
