/** The v0.1 write-ahead log: crates/mmbus/src/wal/wal.rs with the writer of crates/mmbus/src/wal/segment_writer.rs.

    Input and output succeed, except that creating a segment fails when its file exists. */
module Wal {
  import opened Bytes
  import opened WalRecord
  import opened SegmentLog

  /** What `append` does before it writes: create a deferred writer, or rotate if the record does not fit. */
  function Ready(cfg: Config, st: Log, r: Record): (Log, Outcome) {
    if st.writer.None? && HasFile(st.segments, r.cursor) then (st, AlreadyExists)
    else
      var st1 := if st.writer.None? then Create(st, r.cursor) else st;
      if st1.activeBytes + RecordBytes(V1, r) > cfg.segmentSizeMax then Rotate(st1, r.cursor) else (st1, Done)
  }

  function Appended(cfg: Config, st: Log, r: Record): (Log, Outcome) {
    if |r.payload| > MAX_PAYLOAD_LEN then (st, PayloadTooLarge)
    else
      var (st2, o) := Ready(cfg, st, r);
      if o != Done then (st2, o)
      else if r.cursor != st2.writer.value.pending then (st2, CursorRegressed)
      else (Pruned(cfg, Written(V1, st2, r)), Done)
  }

  /** The retention check at the end of `append`. */
  function Pruned(cfg: Config, st: Log): Log {
    if st.retainedBytes + st.activeBytes > cfg.retentionBytes then Enforce(cfg, st) else st
  }

  /** The log object; its lock makes each method one step. */
  class Wal {
    const cfg: Config
    var segments: seq<Segment>
    var sizes: map<nat, nat>
    var activeBytes: nat
    var retainedBytes: nat
    var writer: Option<Writer>
    var pendingCursor: nat

    function View(): Log
      reads this
    {
      Log(segments, sizes, activeBytes, retainedBytes, writer, pendingCursor)
    }

    constructor (cfg: Config, pending: nat)
      ensures this.cfg == cfg && View() == Fresh(pending)
    {
      this.cfg := cfg;
      segments, sizes := [], map[];
      activeBytes, retainedBytes, writer, pendingCursor := 0, 0, None, pending;
    }

    method CreateSegment(first: nat) returns (o: Outcome)
      modifies this
      ensures if HasFile(old(segments), first) then o == AlreadyExists && View() == old(View())
              else o == Done && View() == Create(old(View()), first)
    {
      if HasFile(segments, first) { return AlreadyExists; }
      segments := Insert(segments, Segment(first, []));
      activeBytes, writer := SEGMENT_HEADER_LEN, Some(Writer(first, first));
      o := Done;
    }

    method RotateLocked(first: nat) returns (o: Outcome)
      modifies this
      ensures (View(), o) == Rotate(old(View()), first)
    {
      if writer.Some? {
        sizes := sizes[writer.value.first := activeBytes];
        retainedBytes := retainedBytes + activeBytes;
        writer := None;
      }
      o := CreateSegment(first);
    }

    method EnforceRetentionLocked()
      modifies this
      ensures View() == Enforce(cfg, old(View()))
    {
      while true
        invariant Enforce(cfg, View()) == Enforce(cfg, old(View()))
        decreases |segments|
      {
        if retainedBytes + activeBytes <= cfg.retentionBytes { return; }
        var activeFirst := if writer.Some? then writer.value.first else NO_ACTIVE;
        var oldest := FirstOther(segments, activeFirst);
        FirstOtherInRange(segments, activeFirst);
        match oldest {
          case None => return;
          case Some(i) =>
            ghost var before := View();
            var k := segments[i].first;
            segments := segments[..i] + segments[i + 1..];
            if k in sizes {
              retainedBytes := SubSat(retainedBytes, sizes[k]);
              sizes := sizes - {k};
            }
            assert View() == Delete(before, i);
        }
      }
    }

    method Append(r: Record) returns (o: Outcome)
      modifies this
      ensures (View(), o) == Appended(cfg, old(View()), r)
    {
      if |r.payload| > MAX_PAYLOAD_LEN { return PayloadTooLarge; }
      if writer.None? {
        o := CreateSegment(r.cursor);
        if o != Done { return; }
      }
      if activeBytes + RecordBytes(V1, r) > cfg.segmentSizeMax {
        o := RotateLocked(r.cursor);
        if o != Done { return; }
      }
      var w := writer.value;
      if r.cursor != w.pending { return CursorRegressed; }
      segments := AppendTo(segments, w.first, r);
      writer := Some(w.(pending := r.cursor + 1));
      activeBytes := activeBytes + RecordBytes(V1, r);
      pendingCursor := r.cursor + 1;
      if retainedBytes + activeBytes > cfg.retentionBytes { EnforceRetentionLocked(); }
      o := Done;
    }
  }

  // ── One append with the next cursor ─────────────────────────────────────────

  /** The record fits a segment that holds nothing else. */
  predicate FitsFresh(cfg: Config, r: Record) {
    SEGMENT_HEADER_LEN + RecordBytes(V1, r) <= cfg.segmentSizeMax
  }

  /** A log that has a file at its end but no writer for it. */
  predicate Wedged(st: Log) { st.writer.None? && st.segments != [] }

  predicate ActiveEmpty(st: Log) { st.segments != [] && st.segments[|st.segments| - 1].records == [] }

  /** When an append of the next record goes through. */
  predicate Accepts(cfg: Config, st: Log, r: Record) {
    !Wedged(st) && (FitsFresh(cfg, r) || (st.writer.Some? && !ActiveEmpty(st)))
  }

  predicate Bounded(cfg: Config, ss: seq<Segment>) {
    forall i :: 0 <= i < |ss| ==> SegmentBytes(cfg.layout, ss[i]) <= cfg.segmentSizeMax
  }

  lemma {:induction false} ReadyKeeps(cfg: Config, st: Log, r: Record)
    requires cfg.layout == V1 && Inv(V1, st) && r.cursor == st.pending
    ensures var (st', o) := Ready(cfg, st, r);
            && Inv(V1, st') && st'.pending == st.pending
            && (o == Done <==> Accepts(cfg, st, r)) && (o != Done ==> o == AlreadyExists && Wedged(st'))
            && (o == Done ==> st'.writer.Some?)
            && (st'.segments == st.segments || st'.segments == st.segments + [Segment(st.pending, [])])
            && (o == Done && FitsFresh(cfg, r) ==> st'.activeBytes + RecordBytes(V1, r) <= cfg.segmentSizeMax)
  {
    hide Chained, SizesOk, TotalBytes, SegmentBytes, HasFile, Create;
    NameClash(st.segments, st.pending);
    if Wedged(st) {
    } else if st.writer.None? {
      CreateKeeps(V1, st);
      var st1 := Create(st, st.pending);
      if !FitsFresh(cfg, r) { RotateKeeps(V1, st1); }
    } else {
      ActiveAtLeastHeader(st);
      if st.activeBytes + RecordBytes(V1, r) > cfg.segmentSizeMax { RotateKeeps(V1, st); }
    }
  }

  lemma {:induction false} ActiveAtLeastHeader(st: Log)
    requires Inv(V1, st) && st.writer.Some?
    ensures st.activeBytes >= SEGMENT_HEADER_LEN && (ActiveEmpty(st) ==> st.activeBytes == SEGMENT_HEADER_LEN)
  {
    hide Chained, SizesOk, TotalBytes;
  }

  predicate Suffix<T(==)>(a: seq<T>, b: seq<T>) { |a| <= |b| && a == b[|b| - |a|..] }

  lemma {:induction false} ConcatOfSuffix(ss: seq<Segment>, k: nat)
    requires k <= |ss|
    ensures Suffix(Concat(ss[k..]), Concat(ss))
  {
    ConcatAppend(ss[..k], ss[k..]);
    hide Concat;
    assert ss == ss[..k] + ss[k..];
  }

  /** Retention leaves the end of the log, and at most the active segment over the cap. */
  lemma {:induction false} PrunedKeeps(cfg: Config, st: Log)
    requires Inv(cfg.layout, st) && st.writer.Some?
    ensures var st' := Pruned(cfg, st);
            && Inv(cfg.layout, st') && st'.writer == st.writer && st'.pending == st.pending
            && Suffix(Concat(st'.segments), Concat(st.segments)) && st'.segments != []
            && |st'.segments| <= |st.segments| && st'.segments == st.segments[|st.segments| - |st'.segments|..]
            && (st'.retainedBytes + st'.activeBytes <= cfg.retentionBytes || |st'.segments| == 1)
  {
    hide Inv, Concat, Enforce;
    EnforceStep(cfg, st);
    EnforceKeeps(cfg, st);
    ConcatOfSuffix(st.segments, |st.segments| - |Enforce(cfg, st).segments|);
    assert st.segments[0..] == st.segments;
  }

  /** Appending the next record succeeds exactly when `Accepts` says so. Then the log ends with the record, over
      its cap only if nothing but the active segment is left; a refusal leaves the log wedged. */
  lemma {:induction false} AppendNext(cfg: Config, st: Log, r: Record)
    requires cfg.layout == V1 && Inv(V1, st) && r.cursor == st.pending && Fits(r)
    ensures var (st', o) := Appended(cfg, st, r);
            && Inv(V1, st') && (o == Done <==> Accepts(cfg, st, r))
            && (o == Done ==>
                  && st'.writer.Some? && st'.pending == st.pending + 1 && st'.segments != []
                  && Suffix(Concat(st'.segments), Concat(st.segments) + [r])
                  && (st'.retainedBytes + st'.activeBytes <= cfg.retentionBytes || |st'.segments| == 1))
            && (o != Done ==>
                  o == AlreadyExists && Wedged(st') && st'.pending == st.pending &&
                    Concat(st'.segments) == Concat(st.segments))
  {
    ReadyKeeps(cfg, st, r);
    var (st2, o) := Ready(cfg, st, r);
    EmptySegmentAddsNothing(st.segments, st.pending);
    if o == Done {
      WriterIsLast(st2);
      WrittenKeeps(V1, st2, r);
      PrunedKeeps(cfg, Written(V1, st2, r));
    }
    hide Inv, Concat, Ready, Written, Pruned, Accepts, Suffix;
  }

  /** The whole of a successful append: the record is in the last segment if it fits there and in a new one
      otherwise, and then as few of the oldest segments as the cap demands are gone. */
  lemma {:induction false} AppendExact(cfg: Config, st: Log, r: Record)
    requires cfg.layout == V1 && Inv(V1, st) && r.cursor == st.pending && Fits(r) && Accepts(cfg, st, r)
    ensures Trimmed(cfg, WithRecord(cfg, st.segments, r), Appended(cfg, st, r).0.segments)
  {
    hide *;
    ReadyKeeps(cfg, st, r);
    AppendedIs(cfg, st, r);
    ReadyIs(cfg, st, r);
    var st2 := Ready(cfg, st, r).0;
    WrittenKeeps(V1, st2, r);
    ExtendedNew(st.segments, r);
    WithRecordIs(cfg, st.segments, r);
    WrittenWriter(V1, st2, r);
    PrunedTrims(cfg, Written(V1, st2, r));
  }

  /** What is left ends with the record. */
  lemma {:induction false} TrimmedEnds(cfg: Config, ss: seq<Segment>, r: Record, ss': seq<Segment>)
    requires Trimmed(cfg, WithRecord(cfg, ss, r), ss')
    ensures Suffix(Concat(ss'), Concat(ss) + [r]) && Concat(ss') != []
  {
    hide *;
    WithRecordIs(cfg, ss, r);
    var full := WithRecord(cfg, ss, r);
    TrimmedIs(cfg, full, ss');
    ConcatOfSuffix(full, |full| - |ss'|);
    if StartsSegment(cfg, ss, r) {
      ConcatAppend(ss, [Segment(r.cursor, [r])]);
      OneSegment(Segment(r.cursor, [r]));
    } else {
      ConcatExtends(ss, r);
      assert Extended(ss, r)[|ss| - 1].records != [] by { ExtendedLast(ss, r); }
    }
    assert ss'[|ss'| - 1] == full[|full| - 1];
    LastIsIn(ss');
  }

  lemma {:induction false} TrimmedIs(cfg: Config, full: seq<Segment>, ss: seq<Segment>)
    requires Trimmed(cfg, full, ss)
    ensures 1 <= |ss| <= |full| && ss == full[|full| - |ss|..]
  {
    hide TotalBytes;
  }

  lemma {:induction false} ExtendedLast(ss: seq<Segment>, r: Record)
    requires ss != []
    ensures Extended(ss, r)[|ss| - 1].records != []
  {
  }

  lemma {:induction false} LastIsIn(ss: seq<Segment>)
    requires ss != [] && ss[|ss| - 1].records != []
    ensures Concat(ss) != []
  {
    var n := |ss| - 1;
    ConcatAppend(ss[..n], [ss[n]]);
    OneSegment(ss[n]);
    hide Concat;
    assert ss == ss[..n] + [ss[n]];
  }

  lemma {:induction false} WithRecordIs(cfg: Config, ss: seq<Segment>, r: Record)
    ensures StartsSegment(cfg, ss, r) ==> WithRecord(cfg, ss, r) == ss + [Segment(r.cursor, [r])]
    ensures !StartsSegment(cfg, ss, r) ==> ss != [] && WithRecord(cfg, ss, r) == Extended(ss, r)
  {
  }

  lemma {:induction false} ReadyIs(cfg: Config, st: Log, r: Record)
    requires cfg.layout == V1 && Inv(V1, st) && r.cursor == st.pending && Accepts(cfg, st, r)
    ensures Ready(cfg, st, r).0.segments ==
            if StartsSegment(cfg, st.segments, r) then st.segments + [Segment(st.pending, [])] else st.segments
  {
    hide Chained, SizesOk, TotalBytes, SegmentBytes, HasFile, Create;
    NameClash(st.segments, st.pending);
    if st.writer.None? {
      CreateKeeps(V1, st);
    } else {
      ActiveAtLeastHeader(st);
      if st.activeBytes + RecordBytes(V1, r) > cfg.segmentSizeMax { RotateKeeps(V1, st); }
    }
  }

  lemma {:induction false} PrunedTrims(cfg: Config, st: Log)
    requires Inv(cfg.layout, st) && st.writer.Some?
    ensures Trimmed(cfg, st.segments, Pruned(cfg, st).segments)
  {
    EnforceTrims(cfg, st);
    EnforceStep(cfg, st);
    hide Inv, Trimmed, Enforce;
  }

  /** What an append refuses before it writes, whatever its cursor: a payload too large for any record, and in a segment
      with room any cursor but the next one. Neither changes the log. */
  lemma {:induction false} RefusedIff(cfg: Config, st: Log, r: Record)
    requires Inv(V1, st)
    ensures var (st', o) := Appended(cfg, st, r);
            && (o == PayloadTooLarge <==> !Fits(r))
            && (o == CursorRegressed <==>
                  && Fits(r) && st.writer.Some? && r.cursor != st.pending
                  && st.activeBytes + RecordBytes(V1, r) <= cfg.segmentSizeMax)
            && (o == PayloadTooLarge || o == CursorRegressed ==> st' == st)
            && (o == Done || o == PayloadTooLarge || o == CursorRegressed || o == AlreadyExists)
  {
    if st.writer.Some? { WriterIsLast(st); }
    hide Inv, Pruned, Written, HasFile, Insert, RecordBytes;
  }

  lemma {:induction false} WriterIsLast(st: Log)
    requires Inv(V1, st) && st.writer.Some?
    ensures st.writer.value.pending == st.pending
  {
    hide Chained, SizesOk, TotalBytes, SegmentBytes;
  }

  lemma {:induction false} EmptySegmentAddsNothing(ss: seq<Segment>, first: nat)
    ensures Concat(ss + [Segment(first, [])]) == Concat(ss)
  {
    ConcatAppend(ss, [Segment(first, [])]);
    OneSegment(Segment(first, []));
    hide Concat;
  }

  /** A record that fits keeps every segment within its size limit. */
  lemma {:induction false} AppendBounded(cfg: Config, st: Log, r: Record)
    requires cfg.layout == V1 && Inv(V1, st) && r.cursor == st.pending && Fits(r)
    requires FitsFresh(cfg, r) && Bounded(cfg, st.segments) && Accepts(cfg, st, r)
    ensures Bounded(cfg, Appended(cfg, st, r).0.segments)
  {
    hide *;
    ReadyKeeps(cfg, st, r);
    AppendedIs(cfg, st, r);
    BoundedGrows(cfg, st.segments, st.pending, r);
    WriteBounded(cfg, Ready(cfg, st, r).0, r);
  }

  lemma {:induction false} WriteBounded(cfg: Config, st: Log, r: Record)
    requires Inv(cfg.layout, st) && st.writer.Some? && r.cursor == st.pending && Bounded(cfg, st.segments)
    requires st.activeBytes + RecordBytes(cfg.layout, r) <= cfg.segmentSizeMax
    ensures Bounded(cfg, Pruned(cfg, Written(cfg.layout, st, r)).segments)
  {
    hide *;
    WrittenKeeps(cfg.layout, st, r);
    BoundedWritten(cfg, st, r);
    WrittenWriter(cfg.layout, st, r);
    var st1 := Written(cfg.layout, st, r);
    PrunedKeeps(cfg, st1);
    BoundedTail(cfg, st1.segments, |st1.segments| - |Pruned(cfg, st1).segments|);
  }

  lemma {:induction false} AppendedIs(cfg: Config, st: Log, r: Record)
    requires cfg.layout == V1 && Inv(V1, st) && r.cursor == st.pending && Fits(r) && Accepts(cfg, st, r)
    ensures Ready(cfg, st, r).0.writer.Some?
    ensures Appended(cfg, st, r) == (Pruned(cfg, Written(V1, Ready(cfg, st, r).0, r)), Done)
  {
    ReadyKeeps(cfg, st, r);
    WriterIsLast(Ready(cfg, st, r).0);
    hide Inv, Ready, Written, Pruned, Accepts;
  }

  lemma {:induction false} WrittenWriter(l: Layout, st: Log, r: Record)
    requires st.writer.Some?
    ensures Written(l, st, r).writer.Some?
  {
  }

  lemma {:induction false} BoundedTail(cfg: Config, ss: seq<Segment>, k: nat)
    requires k <= |ss| && Bounded(cfg, ss)
    ensures Bounded(cfg, ss[k..])
  {
    hide SegmentBytes;
  }

  lemma {:induction false} BoundedGrows(cfg: Config, ss: seq<Segment>, first: nat, r: Record)
    requires Bounded(cfg, ss) && FitsFresh(cfg, r)
    ensures Bounded(cfg, ss + [Segment(first, [])])
  {
    assert SegmentBytes(cfg.layout, Segment(first, [])) == SEGMENT_HEADER_LEN;
    hide SegmentBytes;
  }

  lemma {:induction false} BoundedWritten(cfg: Config, st: Log, r: Record)
    requires Inv(cfg.layout, st) && st.writer.Some? && r.cursor == st.pending && Bounded(cfg, st.segments)
    requires st.activeBytes + RecordBytes(cfg.layout, r) <= cfg.segmentSizeMax
    ensures Bounded(cfg, Written(cfg.layout, st, r).segments)
  {
    WrittenKeeps(cfg.layout, st, r);
    SegmentGrows(cfg.layout, st.segments[|st.segments| - 1], r);
    hide Chained, SizesOk, TotalBytes, SegmentBytes, RecordBytes, Concat, AppendTo;
  }

  // ── Whole runs ──────────────────────────────────────────────────────────────

  /** The log after appending `rs` one by one. */
  function AppendAll(cfg: Config, st: Log, rs: seq<Record>): Log {
    if rs == [] then st else Appended(cfg, AppendAll(cfg, st, rs[..|rs| - 1]), rs[|rs| - 1]).0
  }

  predicate AllFitFresh(cfg: Config, rs: seq<Record>) {
    forall i :: 0 <= i < |rs| ==> Fits(rs[i]) && FitsFresh(cfg, rs[i])
  }

  /** A log that can take the next record, and holds the end of the history `past`. */
  predicate Holds(cfg: Config, st: Log, past: seq<Record>) {
    && Inv(V1, st) && !Wedged(st) && Suffix(Concat(st.segments), past) && Bounded(cfg, st.segments)
  }

  lemma {:induction false} SuffixGrows<T>(a: seq<T>, b: seq<T>, x: T, c: seq<T>)
    requires Suffix(a, b) && Suffix(c, a + [x])
    ensures Suffix(c, b + [x])
  {
  }

  /** One append of such a run. */
  lemma {:induction false} HoldsOn(cfg: Config, st: Log, past: seq<Record>, r: Record)
    requires cfg.layout == V1 && Holds(cfg, st, past) && r.cursor == st.pending && Fits(r) && FitsFresh(cfg, r)
    ensures var (st', o) := Appended(cfg, st, r);
            && o == Done && Holds(cfg, st', past + [r]) && st'.pending == st.pending + 1
            && st'.writer.Some? && st'.segments != []
            && (st'.retainedBytes + st'.activeBytes <= cfg.retentionBytes || |st'.segments| == 1)
  {
    AppendNext(cfg, st, r);
    AppendBounded(cfg, st, r);
    hide Inv, Concat, Bounded, Appended;
    SuffixGrows(Concat(st.segments), past, r, Concat(Appended(cfg, st, r).0.segments));
  }

  lemma {:induction false} AppendAllNone(cfg: Config, st: Log)
    ensures AppendAll(cfg, st, []) == st
  {
  }

  lemma {:induction false} AppendAllStep(cfg: Config, st: Log, rs: seq<Record>)
    requires rs != [] && Consecutive(rs, st.pending) && AllFitFresh(cfg, rs)
    ensures var n := |rs| - 1;
            && AppendAll(cfg, st, rs) == Appended(cfg, AppendAll(cfg, st, rs[..n]), rs[n]).0
            && Consecutive(rs[..n], st.pending) && AllFitFresh(cfg, rs[..n])
            && rs[n].cursor == st.pending + n && Fits(rs[n]) && FitsFresh(cfg, rs[n])
  {
    hide Appended, FitsFresh, Fits;
  }

  /** Log shape: any run of appends with consecutive cursors, of records that fit a fresh segment, succeeds
      throughout and keeps a contiguous suffix of the history, every segment within its limit, and exact
      accounting; over the cap there is only the active segment. */
  lemma {:induction false} LogShape(cfg: Config, st: Log, past: seq<Record>, rs: seq<Record>)
    requires cfg.layout == V1 && Holds(cfg, st, past)
    requires Consecutive(rs, st.pending) && AllFitFresh(cfg, rs)
    ensures var st' := AppendAll(cfg, st, rs);
            && Holds(cfg, st', past + rs) && st'.pending == st.pending + |rs|
            && st'.retainedBytes == TotalBytes(V1, Retired(st'))
            && (rs != [] ==>
                  && st'.writer.Some? && st'.segments != []
                  && (st'.retainedBytes + st'.activeBytes <= cfg.retentionBytes || |st'.segments| == 1))
  {
    hide *;
    if rs == [] {
      AppendAllNone(cfg, st);
      HoldsInv(cfg, st, past);
      RetainedIsTotal(V1, st);
      assert past + rs == past;
    } else {
      var n := |rs| - 1;
      AppendAllStep(cfg, st, rs);
      LogShape(cfg, st, past, rs[..n]);
      var st1 := AppendAll(cfg, st, rs[..n]);
      HoldsOn(cfg, st1, past + rs[..n], rs[n]);
      HoldsInv(cfg, AppendAll(cfg, st, rs), past + rs[..n] + [rs[n]]);
      RetainedIsTotal(V1, AppendAll(cfg, st, rs));
      assert past + rs[..n] + [rs[n]] == past + rs;
    }
  }

  lemma {:induction false} HoldsInv(cfg: Config, st: Log, past: seq<Record>)
    requires Holds(cfg, st, past)
    ensures Inv(V1, st) && Suffix(Concat(st.segments), past)
  {
  }

  /** What a reader finds after such a run from a fresh log: everything from the asked cursor on, or a refusal
      that names the oldest cursor kept. */
  lemma {:induction false} ReplayAfterRun(cfg: Config, first: nat, rs: seq<Record>, c: nat)
    requires cfg.layout == V1 && Consecutive(rs, first) && AllFitFresh(cfg, rs) && rs != []
    ensures var ss := AppendAll(cfg, Fresh(first), rs).segments;
            && ss != [] && first <= ss[0].first <= first + |rs|
            && ReadFrom(ss, c) == (
               if c < ss[0].first then CursorTooOld(c, ss[0].first)
               else Records(if c - first >= |rs| then [] else rs[c - first..]))
  {
    FreshHolds(cfg, first);
    LogShape(cfg, Fresh(first), [], rs);
    hide *;
    var st := AppendAll(cfg, Fresh(first), rs);
    assert [] + rs == rs;
    HoldsInv(cfg, st, rs);
    ShapeFacts(V1, st);
    ReplayExact(st.segments, c);
    ConcatConsecutive(st.segments);
    EndOfChain(st.segments, st.pending);
    OldestInRange(st.segments, rs, first);
    if c >= st.segments[0].first { ReplayOfSuffix(Concat(st.segments), st.segments[0].first, rs, first, c); }
  }

  lemma {:induction false} FreshHolds(cfg: Config, first: nat)
    ensures Holds(cfg, Fresh(first), []) && Fresh(first).pending == first
  {
  }

  lemma {:induction false} EndOfChain(ss: seq<Segment>, pending: nat)
    requires ss != [] && EndsAt(ss, pending)
    ensures pending == ss[|ss| - 1].first + |ss[|ss| - 1].records|
  {
  }

  lemma {:induction false} OldestInRange(ss: seq<Segment>, rs: seq<Record>, first: nat)
    requires ss != [] && Suffix(Concat(ss), rs) && ss[0].first + |Concat(ss)| == first + |rs|
    ensures first <= ss[0].first <= first + |rs|
  {
    hide Concat;
  }

  /** What is left of the history `rs` in these segments: its end, in order. */
  predicate Remains(ss: seq<Segment>, rs: seq<Record>, first: nat) {
    ss != [] && Chained(ss) && EndsAt(ss, first + |rs|) && Suffix(Concat(ss), rs)
  }

  /** Nothing was deleted exactly if the oldest segment still starts where the history does. */
  lemma {:induction false} NothingDeletedIff(ss: seq<Segment>, rs: seq<Record>, first: nat)
    requires Remains(ss, rs, first) && Consecutive(rs, first) && rs != []
    ensures Concat(ss) == rs <==> ss[0].first == first
  {
    hide Concat, Chained;
    ConcatConsecutive(ss);
    EndOfChain(ss, first + |rs|);
  }

  lemma {:induction false} AfterRun(cfg: Config, first: nat, rs: seq<Record>)
    requires cfg.layout == V1 && Consecutive(rs, first) && AllFitFresh(cfg, rs) && rs != []
    ensures Remains(AppendAll(cfg, Fresh(first), rs).segments, rs, first)
  {
    hide *;
    FreshHolds(cfg, first);
    LogShape(cfg, Fresh(first), [], rs);
    var st := AppendAll(cfg, Fresh(first), rs);
    assert [] + rs == rs;
    HoldsInv(cfg, st, rs);
    ShapeFacts(V1, st);
    RemainsIs(st.segments, rs, first);
  }

  lemma {:induction false} RemainsIs(ss: seq<Segment>, rs: seq<Record>, first: nat)
    ensures Remains(ss, rs, first) <==> ss != [] && Chained(ss) && EndsAt(ss, first + |rs|) && Suffix(Concat(ss), rs)
  {
    hide Chained, EndsAt, Concat, Suffix;
  }

  lemma {:induction false} ShapeFacts(l: Layout, st: Log)
    requires Inv(l, st)
    ensures Chained(st.segments) && EndsAt(st.segments, st.pending)
  {
  }

  lemma {:induction false} ReplayOfSuffix(kept: seq<Record>, oldest: nat, rs: seq<Record>, first: nat, c: nat)
    requires Suffix(kept, rs) && oldest + |kept| == first + |rs| && c >= oldest
    ensures (if c - oldest >= |kept| then [] else kept[c - oldest..]) ==
      (if c - first >= |rs| then [] else rs[c - first..])
  {
  }

  // ── Opening an existing log ─────────────────────────────────────────────────

  function SizesOf(ss: seq<Segment>): map<nat, nat> {
    if ss == [] then map[] else SizesOf(ss[..|ss| - 1])[ss[|ss| - 1].first := SegmentBytes(V1, ss[|ss| - 1])]
  }

  /** `open`, once every file is recovered: a new active segment after the last record, or no writer at all if
      the last segment has none. */
  function Opened(ss: seq<Segment>): Log {
    if ss == [] then Fresh(0)
    else
      var last := ss[|ss| - 1];
      var next := if last.records == [] then last.first else last.records[|last.records| - 1].cursor + 1;
      var st := Log(ss, SizesOf(ss), 0, TotalBytes(V1, ss), None, next);
      if next == last.first then st else Create(st, next)
  }

  lemma {:induction false} SizesOfOk(ss: seq<Segment>)
    requires Chained(ss)
    ensures SizesOk(V1, ss, SizesOf(ss))
  {
    hide SegmentBytes;
    if ss != [] {
      ChainedInit(ss);
      SizesOfOk(ss[..|ss| - 1]);
      SizesAdd(V1, ss, SizesOf(ss[..|ss| - 1]));
    }
  }

  /** Opening keeps all records and continues after the last one, with a writer exactly if the last segment holds
      a record. */
  lemma {:induction false} OpenKeeps(ss: seq<Segment>)
    requires Chained(ss) && ss != []
    ensures var st, last := Opened(ss), ss[|ss| - 1];
            && Inv(V1, st) && Concat(st.segments) == Concat(ss) && st.pending == last.first + |last.records|
            && (Wedged(st) <==> last.records == []) && (!Wedged(st) ==> st.writer.Some? && ActiveEmpty(st))
  {
    var last := ss[|ss| - 1];
    var next := last.first + |last.records|;
    OpenedIs(ss);
    if last.records != [] {
      OpenedRetired(ss);
      hide *;
      CreateKeeps(V1, Log(ss, SizesOf(ss), 0, TotalBytes(V1, ss), None, next));
      EmptySegmentAddsNothing(ss, next);
      FreshWriter(Opened(ss), ss, next);
    } else {
      SizesOfOk(ss);
      hide SizesOf, Chained, SizesOk, TotalBytes, Create, Opened;
    }
  }

  /** The next cursor is one past the last record, and a writer is created exactly if there is one. */
  lemma {:induction false} OpenedIs(ss: seq<Segment>)
    requires Chained(ss) && ss != []
    ensures var last := ss[|ss| - 1];
            var next := last.first + |last.records|;
            var st := Log(ss, SizesOf(ss), 0, TotalBytes(V1, ss), None, next);
            Opened(ss) == if last.records == [] then st else Create(st, next)
  {
    hide SizesOf, TotalBytes, Create;
  }

  lemma {:induction false} OpenedRetired(ss: seq<Segment>)
    requires Chained(ss) && ss != []
    ensures var last := ss[|ss| - 1];
            AllRetired(V1, Log(ss, SizesOf(ss), 0, TotalBytes(V1, ss), None, last.first + |last.records|))
  {
    SizesOfOk(ss);
    hide SizesOf, Chained, SizesOk, TotalBytes;
  }

  lemma {:induction false} FreshWriter(st: Log, ss: seq<Segment>, next: nat)
    requires st.segments == ss + [Segment(next, [])] && st.writer.Some?
    ensures !Wedged(st) && ActiveEmpty(st)
  {
  }

  /** Opening a log and closing it again without an append in between leaves an empty last segment, and then the
      next process opens it without a writer and cannot append at all. */
  lemma {:induction false} ReopenedIdleIsWedged(ss: seq<Segment>)
    requires Chained(ss) && ss != []
    ensures Wedged(Opened(Opened(ss).segments))
  {
    OpenKeeps(ss);
    var st := Opened(ss);
    ShapeFacts(V1, st);
    EmptyLast(st);
    OpenKeeps(st.segments);
    hide *;
  }

  lemma {:induction false} EmptyLast(st: Log)
    requires Inv(V1, st) && st.segments != [] && (Wedged(st) || ActiveEmpty(st))
    ensures st.segments[|st.segments| - 1].records == []
  {
  }

  /** A wedged log stays so: every append with the next cursor is refused and changes nothing. */
  lemma {:induction false} WedgedForGood(cfg: Config, st: Log, r: Record)
    requires cfg.layout == V1 && Inv(V1, st) && Wedged(st) && r.cursor == st.pending && Fits(r)
    ensures Appended(cfg, st, r) == (st, AlreadyExists)
  {
    NameClash(st.segments, st.pending);
    hide Chained, SizesOk, TotalBytes, HasFile;
  }

  // ── Crash and restart ───────────────────────────────────────────────────────

  /** The file of a segment whose buffered bytes have all reached it. */
  function FileOf(crc: Checksum, created: u64, s: Segment): seq<byte>
    requires s.first < U64
  {
    EncodeHeader(s.first, created) + EncodeAll(crc, s.records)
  }

  /** The segment that `open` finds in a file. */
  function Found(crc: Checksum, first: nat, file: seq<byte>): Segment
    requires |file| >= SEGMENT_HEADER_LEN
  {
    Segment(first, Scan(crc, file[SEGMENT_HEADER_LEN..]).records)
  }

  lemma {:induction false} FoundAgain(crc: Checksum, created: u64, s: Segment, cut: nat)
    requires s.first < U64 && AllFit(s.records) && SEGMENT_HEADER_LEN <= cut <= |FileOf(crc, created, s)|
    ensures Found(crc, s.first, FileOf(crc, created, s)[..cut]) ==
            s.(records := s.records[..WhollyBefore(s.records, cut - SEGMENT_HEADER_LEN)])
    ensures cut == |FileOf(crc, created, s)| ==> Found(crc, s.first, FileOf(crc, created, s)[..cut]) == s
  {
    FoundIs(crc, created, s, cut);
    hide *;
    EncodedLenIs(crc, s.records);
    var k := WhollyBefore(s.records, cut - SEGMENT_HEADER_LEN);
    CrashAtAnyByte(crc, s.first, created, s.records, cut);
    WhollyBeforeIs(crc, s.records, cut - SEGMENT_HEADER_LEN);
    if cut == |FileOf(crc, created, s)| && k < |s.records| { ShorterIsShorter(s.records, k + 1); }
    assert s.records[..|s.records|] == s.records;
  }

  lemma {:induction false} FoundIs(crc: Checksum, created: u64, s: Segment, cut: nat)
    requires s.first < U64 && SEGMENT_HEADER_LEN <= cut <= |FileOf(crc, created, s)|
    ensures FileOf(crc, created, s) == EncodeHeader(s.first, created) + EncodeAll(crc, s.records)
    ensures var file := FileOf(crc, created, s)[..cut];
            Found(crc, s.first, file) == Segment(s.first, Scan(crc, file[SEGMENT_HEADER_LEN..]).records)
  {
    hide Scan, EncodeHeader, EncodeAll;
  }

  lemma {:induction false} ShorterIsShorter(rs: seq<Record>, k: nat)
    requires k <= |rs|
    ensures EncodedLenAll(rs[..k]) <= EncodedLenAll(rs)
  {
    if k > 0 {
      ShorterIsShorter(rs[1..], k - 1);
      assert rs[..k][1..] == rs[1..][..k - 1];
    }
  }

  /** What `open` finds when the file of the last segment is cut at byte `cut`. */
  function AfterCrash(crc: Checksum, created: u64, ss: seq<Segment>, cut: nat): seq<Segment>
    requires ss != [] && ss[|ss| - 1].first < U64
    requires SEGMENT_HEADER_LEN <= cut <= |FileOf(crc, created, ss[|ss| - 1])|
  {
    var n, last := |ss| - 1, ss[|ss| - 1];
    ss[..n] + [Found(crc, last.first, FileOf(crc, created, last)[..cut])]
  }

  /** Crash at any byte of the last segment, then recovery and `open`: exactly the records written completely
      before the cut are there, the next cursor is one past them, and a record that fits is taken if and only if
      one of them is in the last segment. */
  lemma {:induction false} ResumeAfterCrash(cfg: Config, crc: Checksum, created: u64, ss: seq<Segment>, cut: nat,
          r: Record)
    requires cfg.layout == V1 && ss != [] && Chained(ss) && ss[|ss| - 1].first < U64 && AllFit(ss[|ss| - 1].records)
    requires SEGMENT_HEADER_LEN <= cut <= |FileOf(crc, created, ss[|ss| - 1])|
    requires Fits(r) && FitsFresh(cfg, r)
    ensures var last := ss[|ss| - 1];
            var k := WhollyBefore(last.records, cut - SEGMENT_HEADER_LEN);
            var st := Opened(AfterCrash(crc, created, ss, cut));
            && Inv(V1, st) && st.pending == last.first + k
            && Concat(st.segments) == Concat(ss[..|ss| - 1]) + last.records[..k]
            && (r.cursor == st.pending ==> (Appended(cfg, st, r).1 == Done <==> k > 0))
  {
    var n, last := |ss| - 1, ss[|ss| - 1];
    var k := WhollyBefore(last.records, cut - SEGMENT_HEADER_LEN);
    FoundAgain(crc, created, last, cut);
    var last' := last.(records := last.records[..k]);
    assert AfterCrash(crc, created, ss, cut) == ss[..n] + [last'];
    hide *;
    CutLast(ss, k);
    OpenKeeps(ss[..n] + [last']);
    var st := Opened(ss[..n] + [last']);
    if r.cursor == st.pending { AppendNext(cfg, st, r); AcceptsIs(cfg, st, r); }
  }

  lemma {:induction false} AcceptsIs(cfg: Config, st: Log, r: Record)
    requires FitsFresh(cfg, r)
    ensures Accepts(cfg, st, r) <==> !Wedged(st)
  {
  }

  /** Cutting records off the end of the last segment leaves a chain. */
  lemma {:induction false} CutLast(ss: seq<Segment>, k: nat)
    requires ss != [] && Chained(ss) && k <= |ss[|ss| - 1].records|
    ensures var n, last := |ss| - 1, ss[|ss| - 1];
            var ss' := ss[..n] + [last.(records := last.records[..k])];
            Chained(ss') && Concat(ss') == Concat(ss[..n]) + last.records[..k]
  {
    var n, last := |ss| - 1, ss[|ss| - 1];
    var last' := last.(records := last.records[..k]);
    var ss' := ss[..n] + [last'];
    assert forall i :: 0 <= i < n ==> ss'[i] == ss[i];
    ConcatAppend(ss[..n], [last']);
    OneSegment(last');
    hide Concat;
  }
}
