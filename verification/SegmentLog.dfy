/** What the two write-ahead logs share: the index of segments, its accounting, retention and segment selection.
    crates/mmbus/src/wal/wal.rs and crates/mmbus/src/wal/v2/wal.rs. */
module SegmentLog {
  import opened Bytes
  import opened WalRecord

  /** The two record layouts: v0.1 writes a record's exact bytes, v2 pads it to a multiple of 8. */
  datatype Layout = V1 | V2

  function Align8(n: nat): (m: nat)
    ensures n <= m < n + 8 && m % 8 == 0
  {
    (n + 7) / 8 * 8
  }

  function RecordBytes(l: Layout, r: Record): nat {
    if l.V1? then RECORD_FRAMING + |r.payload| else Align8(RECORD_FRAMING + |r.payload|)
  }

  /** A segment file, named by the cursor of the first record it can hold. */
  datatype Segment = Segment(first: nat, records: seq<Record>)

  function RecordsBytes(l: Layout, rs: seq<Record>): nat {
    if rs == [] then 0 else RecordsBytes(l, rs[..|rs| - 1]) + RecordBytes(l, rs[|rs| - 1])
  }

  function SegmentBytes(l: Layout, s: Segment): nat {
    SEGMENT_HEADER_LEN + RecordsBytes(l, s.records)
  }

  function TotalBytes(l: Layout, ss: seq<Segment>): nat {
    if ss == [] then 0 else SegmentBytes(l, ss[0]) + TotalBytes(l, ss[1..])
  }

  /** The writer of the active segment: its first cursor, and for v0.1 the next cursor it accepts. */
  datatype Writer = Writer(first: nat, pending: nat)

  /** `Inner` and the cursors of a log; `segments` is the index with the contents of its files, ascending. */
  datatype Log = Log(
    segments: seq<Segment>, sizes: map<nat, nat>,
    activeBytes: nat, retainedBytes: nat,
    writer: Option<Writer>, pending: nat)

  datatype Config = Config(layout: Layout, segmentSizeMax: nat, retentionBytes: nat)

  datatype Outcome = Done | PayloadTooLarge | AlreadyExists | CursorRegressed | SegmentTooSmall

  const NO_ACTIVE: nat := 0xFFFF_FFFF_FFFF_FFFF

  function Fresh(pending: nat): Log {
    Log([], map[], 0, 0, None, pending)
  }

  predicate HasFile(ss: seq<Segment>, first: nat) {
    exists i :: 0 <= i < |ss| && ss[i].first == first
  }

  /** `BTreeMap::insert` of a key that is not there yet. */
  function Insert(ss: seq<Segment>, s: Segment): seq<Segment> {
    if ss == [] || s.first < ss[0].first then [s] + ss else [ss[0]] + Insert(ss[1..], s)
  }

  /** Appending a record to the file named `first`. */
  function AppendTo(ss: seq<Segment>, first: nat, r: Record): (ss': seq<Segment>)
    ensures |ss'| == |ss|
  {
    if ss == [] then []
    else if ss[0].first == first then [ss[0].(records := ss[0].records + [r])] + ss[1..]
    else [ss[0]] + AppendTo(ss[1..], first, r)
  }

  /** A segment file is created, indexed and made active. */
  function Create(st: Log, first: nat): Log {
    st.(segments := Insert(st.segments, Segment(first, [])), activeBytes := SEGMENT_HEADER_LEN,
        writer := Some(Writer(first, first)))
  }

  /** The active segment is closed and counted as retired. */
  function Retire(st: Log): Log {
    match st.writer
    case None => st
    case Some(w) =>
      st.(sizes := st.sizes[w.first := st.activeBytes], retainedBytes := st.retainedBytes + st.activeBytes,
        writer := None)
  }

  /** `rotate_locked`: on a name clash the old writer is gone already. */
  function Rotate(st: Log, first: nat): (Log, Outcome) {
    if HasFile(st.segments, first) then (Retire(st), AlreadyExists) else (Create(Retire(st), first), Done)
  }

  function FirstOther(ss: seq<Segment>, activeFirst: nat): Option<nat> {
    if ss == [] then None
    else if ss[0].first != activeFirst then Some(0)
    else match FirstOther(ss[1..], activeFirst) case None => None case Some(i) => Some(i + 1)
  }

  lemma {:induction false} FirstOtherInRange(ss: seq<Segment>, activeFirst: nat)
    ensures FirstOther(ss, activeFirst).Some? ==> FirstOther(ss, activeFirst).value < |ss|
  {
    if ss != [] { FirstOtherInRange(ss[1..], activeFirst); }
  }

  function SubSat(a: nat, b: nat): nat { if a >= b then a - b else 0 }

  /** Deleting segment `i`. */
  function Delete(st: Log, i: nat): Log
    requires i < |st.segments|
  {
    var k := st.segments[i].first;
    var st1 := st.(segments := st.segments[..i] + st.segments[i + 1..]);
    if k in st.sizes then
      st1.(sizes := st.sizes - {k}, retainedBytes := SubSat(st.retainedBytes, st.sizes[k]))
    else st1
  }

  function ActiveFirst(st: Log): nat { if st.writer.Some? then st.writer.value.first else NO_ACTIVE }

  /** `enforce_retention_locked`. */
  function Enforce(cfg: Config, st: Log): Log
    decreases |st.segments|
  {
    if st.retainedBytes + st.activeBytes <= cfg.retentionBytes then st
    else
      FirstOtherInRange(st.segments, ActiveFirst(st));
      match FirstOther(st.segments, ActiveFirst(st))
      case None => st
      case Some(i) => Enforce(cfg, Delete(st, i))
  }

  // ── The shape of a log ──────────────────────────────────────────────────────

  function Concat(ss: seq<Segment>): seq<Record> {
    if ss == [] then [] else ss[0].records + Concat(ss[1..])
  }

  /** The records carry consecutive cursors from `first` on. */
  predicate Consecutive(rs: seq<Record>, first: nat) {
    forall i :: 0 <= i < |rs| ==> rs[i].cursor == first + i
  }

  /** Each segment is named by the cursor its records start at, and the next one starts where it ends; only the
      last may be empty. */
  predicate Chained(ss: seq<Segment>) {
    && (forall i :: 0 <= i < |ss| ==> Consecutive(ss[i].records, ss[i].first))
    && (forall i :: 0 <= i < |ss| - 1 ==> ss[i + 1].first == ss[i].first + |ss[i].records| && ss[i].records != [])
  }

  function Retired(st: Log): seq<Segment> {
    if st.writer.Some? && st.segments != [] then st.segments[..|st.segments| - 1] else st.segments
  }

  /** The recorded size of each of these segments is its size. */
  predicate SizesOk(l: Layout, ss: seq<Segment>, sizes: map<nat, nat>) {
    forall i :: 0 <= i < |ss| ==> ss[i].first in sizes && sizes[ss[i].first] == SegmentBytes(l, ss[i])
  }

  /** The next cursor is where the last segment ends. */
  predicate EndsAt(ss: seq<Segment>, pending: nat) {
    |ss| > 0 ==> pending == ss[|ss| - 1].first + |ss[|ss| - 1].records|
  }

  /** A writer is at the end of the last segment; without one, the last segment is empty. */
  predicate WriterOk(l: Layout, st: Log) {
    var n := |st.segments|;
    if st.writer.Some? then
      && n > 0 && st.writer.value == Writer(st.segments[n - 1].first, st.pending)
      && st.activeBytes == SegmentBytes(l, st.segments[n - 1])
    else n > 0 ==> st.segments[n - 1].records == []
  }

  predicate Inv(l: Layout, st: Log) {
    && Chained(st.segments) && EndsAt(st.segments, st.pending) && WriterOk(l, st)
    && SizesOk(l, Retired(st), st.sizes) && st.retainedBytes == TotalBytes(l, Retired(st))
  }

  lemma {:induction false} ChainedOrder(ss: seq<Segment>, i: nat, j: nat)
    requires Chained(ss) && i < j < |ss|
    ensures ss[i].first + |ss[i].records| <= ss[j].first && ss[i].first < ss[j].first
  {
    if i + 1 < j { ChainedOrder(ss, i, j - 1); }
  }

  lemma {:induction false} ChainedTail(ss: seq<Segment>, k: nat)
    requires Chained(ss) && k <= |ss|
    ensures Chained(ss[k..])
  {
    var t := ss[k..];
    forall i | 0 <= i < |t| - 1 ensures t[i + 1].first == t[i].first + |t[i].records| && t[i].records != [] {
      assert t[i] == ss[k + i] && t[i + 1] == ss[k + i + 1];
    }
  }

  lemma {:induction false} InsertLast(ss: seq<Segment>, s: Segment)
    requires forall i :: 0 <= i < |ss| ==> ss[i].first < s.first
    ensures Insert(ss, s) == ss + [s]
  {
    if ss != [] {
      InsertLast(ss[1..], s);
      assert ss + [s] == [ss[0]] + (ss[1..] + [s]);
    }
  }

  /** The index stays in the order of the names: the new segment is between the smaller and the larger ones. */
  lemma {:induction false} InsertSorts(ss: seq<Segment>, s: Segment) returns (at: nat)
    requires forall i, k :: 0 <= i < k < |ss| ==> ss[i].first < ss[k].first
    requires forall i :: 0 <= i < |ss| ==> ss[i].first != s.first
    ensures at <= |ss| && Insert(ss, s) == ss[..at] + [s] + ss[at..]
    ensures (forall i :: 0 <= i < at ==> ss[i].first < s.first) && forall i :: at <= i < |ss| ==> ss[i].first > s.first
  {
    if ss == [] || s.first < ss[0].first {
      at := 0;
    } else {
      at := InsertSorts(ss[1..], s);
      InsertedBehind(ss, s, at);
      at := at + 1;
    }
  }

  lemma {:induction false} InsertedBehind(ss: seq<Segment>, s: Segment, at: nat)
    requires ss != [] && at <= |ss| - 1
    ensures [ss[0]] + (ss[1..][..at] + [s] + ss[1..][at..]) == ss[..at + 1] + [s] + ss[at + 1..]
  {
  }

  lemma {:induction false} AppendToLast(ss: seq<Segment>, r: Record)
    requires ss != [] && Chained(ss)
    ensures AppendTo(ss, ss[|ss| - 1].first, r) ==
            ss[..|ss| - 1] + [ss[|ss| - 1].(records := ss[|ss| - 1].records + [r])]
  {
    if |ss| > 1 {
      ChainedTail(ss, 1);
      ChainedOrder(ss, 0, |ss| - 1);
      AppendToLast(ss[1..], r);
    }
  }

  lemma {:induction false} ConcatAppend(a: seq<Segment>, b: seq<Segment>)
    ensures Concat(a + b) == Concat(a) + Concat(b)
  {
    if a == [] {
      assert a + b == b;
    } else {
      ConcatAppend(a[1..], b);
      assert (a + b)[1..] == a[1..] + b;
      Regroup(a[0].records, Concat(a[1..]), Concat(b));
    }
  }

  lemma {:induction false} TotalAppend(l: Layout, a: seq<Segment>, b: seq<Segment>)
    ensures TotalBytes(l, a + b) == TotalBytes(l, a) + TotalBytes(l, b)
  {
    if a == [] {
      assert a + b == b;
    } else {
      TotalAppend(l, a[1..], b);
      assert (a + b)[1..] == a[1..] + b;
    }
  }

  // ── Creating, retiring, appending ───────────────────────────────────────────

  /** No file has the name of the next cursor, except an empty last segment. */
  lemma {:induction false} NameClash(ss: seq<Segment>, pending: nat)
    requires Chained(ss) && EndsAt(ss, pending)
    ensures HasFile(ss, pending) <==> ss != [] && ss[|ss| - 1].records == []
  {
    var n := |ss|;
    if n > 0 && ss[n - 1].records == [] { assert ss[n - 1].first == pending; }
    forall i | 0 <= i < n - 1 ensures ss[i].first < pending { ChainedOrder(ss, i, n - 1); }
  }

  /** Recording the size of the last segment leaves the other recorded sizes alone. */
  lemma {:induction false} SizesAdd(l: Layout, ss: seq<Segment>, sizes: map<nat, nat>)
    requires ss != [] && Chained(ss) && SizesOk(l, ss[..|ss| - 1], sizes)
    ensures var last := ss[|ss| - 1]; SizesOk(l, ss, sizes[last.first := SegmentBytes(l, last)])
  {
    hide SegmentBytes;
    var n := |ss|;
    forall i | 0 <= i < n - 1 ensures ss[i].first != ss[n - 1].first && ss[..n - 1][i] == ss[i] {
      ChainedOrder(ss, i, n - 1);
    }
  }

  lemma {:induction false} SizesDrop(l: Layout, ss: seq<Segment>, sizes: map<nat, nat>)
    requires ss != [] && Chained(ss) && SizesOk(l, ss, sizes)
    ensures ss[0].first in sizes && sizes[ss[0].first] == SegmentBytes(l, ss[0])
    ensures SizesOk(l, ss[1..], sizes - {ss[0].first})
  {
    hide SegmentBytes;
    forall i | 0 <= i < |ss| - 1 ensures ss[1..][i] == ss[i + 1] && ss[i + 1].first != ss[0].first {
      ChainedOrder(ss, 0, i + 1);
    }
  }

  lemma {:induction false} TotalOfLast(l: Layout, ss: seq<Segment>)
    requires ss != []
    ensures TotalBytes(l, ss) == TotalBytes(l, ss[..|ss| - 1]) + SegmentBytes(l, ss[|ss| - 1])
  {
    hide SegmentBytes;
    var last := ss[|ss| - 1];
    TotalAppend(l, ss[..|ss| - 1], [last]);
    assert ss == ss[..|ss| - 1] + [last];
    assert [last][1..] == [];
  }

  /** What a log without a writer looks like after its last segment was retired. */
  predicate AllRetired(l: Layout, st: Log) {
    && st.writer.None? && Chained(st.segments) && EndsAt(st.segments, st.pending)
    && SizesOk(l, st.segments, st.sizes) && st.retainedBytes == TotalBytes(l, st.segments)
  }

  lemma {:induction false} RetireKeeps(l: Layout, st: Log)
    requires Inv(l, st) && st.writer.Some?
    ensures AllRetired(l, Retire(st)) && Retire(st).segments == st.segments && Retire(st).pending == st.pending
  {
    SizesAdd(l, st.segments, st.sizes);
    TotalOfLast(l, st.segments);
    hide Chained, SizesOk, TotalBytes, SegmentBytes;
  }

  /** A new last segment, named by the cursor the chain ends at. */
  lemma {:induction false} ChainGrows(ss: seq<Segment>, end: nat)
    requires Chained(ss) && EndsAt(ss, end) && (ss == [] || ss[|ss| - 1].records != [])
    ensures Insert(ss, Segment(end, [])) == ss + [Segment(end, [])]
    ensures Chained(ss + [Segment(end, [])])
  {
    AllBefore(ss, end);
    InsertLast(ss, Segment(end, []));
    hide Insert;
    var ss' := ss + [Segment(end, [])];
    assert forall i :: 0 <= i < |ss| ==> ss'[i] == ss[i];
  }

  lemma {:induction false} AllBefore(ss: seq<Segment>, end: nat)
    requires Chained(ss) && EndsAt(ss, end) && (ss == [] || ss[|ss| - 1].records != [])
    ensures forall i :: 0 <= i < |ss| ==> ss[i].first < end
  {
    forall i | 0 <= i < |ss| ensures ss[i].first < end {
      if i < |ss| - 1 { ChainedOrder(ss, i, |ss| - 1); }
    }
  }

  lemma {:induction false} CreateKeeps(l: Layout, st: Log)
    requires AllRetired(l, st) && (st.segments == [] || st.segments[|st.segments| - 1].records != [])
    ensures var st' := Create(st, st.pending);
            && Inv(l, st') && st'.segments == st.segments + [Segment(st.pending, [])] && st'.pending == st.pending
            && st'.writer.Some? && st'.activeBytes == SEGMENT_HEADER_LEN
  {
    ChainGrows(st.segments, st.pending);
    hide Insert, TotalBytes, Chained, SizesOk;
    var st' := Create(st, st.pending);
    assert SegmentBytes(l, Segment(st.pending, [])) == SEGMENT_HEADER_LEN;
    hide SegmentBytes;
    assert st'.segments[..|st.segments|] == st.segments;
  }

  /** A rotation to the next cursor succeeds exactly when the active segment is not empty, and then adds an
      empty segment; otherwise the log is left without a writer. */
  lemma {:induction false} RotateKeeps(l: Layout, st: Log)
    requires Inv(l, st) && st.writer.Some?
    ensures var (st', o) := Rotate(st, st.pending);
            && Inv(l, st') && st'.pending == st.pending
            && (o == Done <==> st.segments[|st.segments| - 1].records != [])
            && (o == Done ==> st'.segments == st.segments + [Segment(st.pending, [])])
            && (o == Done ==> st'.writer.Some? && st'.activeBytes == SEGMENT_HEADER_LEN)
            && (o != Done ==> o == AlreadyExists && st'.segments == st.segments && st'.writer.None?)
  {
    RetireKeeps(l, st);
    NameClash(st.segments, st.pending);
    if !HasFile(st.segments, st.pending) { CreateKeeps(l, Retire(st)); }
    hide Chained, SizesOk, TotalBytes, SegmentBytes, HasFile, Create;
  }

  /** What writing one record with the next cursor does to the log. */
  function Written(l: Layout, st: Log, r: Record): Log
    requires st.writer.Some?
  {
    st.(segments := AppendTo(st.segments, st.writer.value.first, r),
        writer := Some(st.writer.value.(pending := r.cursor + 1)),
        activeBytes := st.activeBytes + RecordBytes(l, r), pending := r.cursor + 1)
  }

  /** Growing the last segment of a chain by one record. */
  lemma {:induction false} ChainExtends(ss: seq<Segment>, r: Record)
    requires ss != [] && Chained(ss) && EndsAt(ss, r.cursor)
    ensures Chained(Extended(ss, r)) && EndsAt(Extended(ss, r), r.cursor + 1)
  {
    assert forall i :: 0 <= i < |ss| - 1 ==> Extended(ss, r)[i] == ss[i];
  }

  function Extended(ss: seq<Segment>, r: Record): (ss': seq<Segment>)
    requires ss != []
    ensures |ss'| == |ss|
  {
    var n := |ss|;
    ss[..n - 1] + [ss[n - 1].(records := ss[n - 1].records + [r])]
  }

  lemma {:induction false} ConcatExtends(ss: seq<Segment>, r: Record)
    requires ss != []
    ensures Concat(Extended(ss, r)) == Concat(ss) + [r]
  {
    var n := |ss|;
    var last := ss[n - 1];
    ConcatAppend(ss[..n - 1], [last]);
    ConcatAppend(ss[..n - 1], [last.(records := last.records + [r])]);
    OneSegment(last);
    OneSegment(last.(records := last.records + [r]));
    hide Concat;
    assert ss == ss[..n - 1] + [last];
    assert Concat(ss[..n - 1]) + (last.records + [r]) == (Concat(ss[..n - 1]) + last.records) + [r];
  }

  lemma {:induction false} OneSegment(s: Segment)
    ensures Concat([s]) == s.records
  {
    assert [s][1..] == [] && s.records + [] == s.records;
  }

  lemma {:induction false} SegmentGrows(l: Layout, s: Segment, r: Record)
    ensures SegmentBytes(l, s.(records := s.records + [r])) == SegmentBytes(l, s) + RecordBytes(l, r)
  {
    assert (s.records + [r])[..|s.records|] == s.records;
  }

  lemma {:induction false} WrittenKeeps(l: Layout, st: Log, r: Record)
    requires Inv(l, st) && st.writer.Some? && r.cursor == st.pending
    ensures Inv(l, Written(l, st, r)) && Concat(Written(l, st, r).segments) == Concat(st.segments) + [r]
    ensures Written(l, st, r).segments == Extended(st.segments, r) && Retired(Written(l, st, r)) == Retired(st)
  {
    hide Concat, AppendTo, TotalBytes, Chained, SizesOk, RecordBytes, SegmentBytes;
    AppendToLast(st.segments, r);
    ChainExtends(st.segments, r);
    ConcatExtends(st.segments, r);
    SegmentGrows(l, st.segments[|st.segments| - 1], r);
    assert Retired(Written(l, st, r)) == Retired(st);
  }

  // ── Retention ───────────────────────────────────────────────────────────────

  /** The oldest segment goes, unless it is the active one, and the accounting follows. */
  lemma {:induction false} DeleteKeeps(l: Layout, st: Log)
    requires Inv(l, st) && st.writer.Some? && |st.segments| > 1
    ensures FirstOther(st.segments, ActiveFirst(st)) == Some(0)
    ensures var st' := Delete(st, 0);
            && Inv(l, st') && st'.segments == st.segments[1..] && st'.writer == st.writer
            && st'.activeBytes == st.activeBytes && st'.pending == st.pending && Retired(st') == Retired(st)[1..]
  {
    var n, st' := |st.segments|, Delete(st, 0);
    ChainedOrder(st.segments, 0, n - 1);
    ChainedTail(st.segments, 1);
    assert st.segments[..0] + st.segments[1..] == st.segments[1..];
    assert Retired(st)[1..] == Retired(st');
    assert Chained(Retired(st)) by { ChainedInit(st.segments); }
    SizesDrop(l, Retired(st), st.sizes);
    hide Chained, SizesOk, FirstOther;
    hide SegmentBytes;
  }

  lemma {:induction false} ChainedInit(ss: seq<Segment>)
    requires ss != [] && Chained(ss)
    ensures Chained(ss[..|ss| - 1])
  {
  }

  lemma {:induction false} FirstOtherIs(ss: seq<Segment>, activeFirst: nat)
    ensures FirstOther(ss, activeFirst).Some? ==>
              FirstOther(ss, activeFirst).value < |ss| && ss[FirstOther(ss, activeFirst).value].first != activeFirst
  {
    if ss != [] { FirstOtherIs(ss[1..], activeFirst); }
  }

  /** Whatever the log looks like, retention leaves the active segment if that is the last one. */
  lemma {:induction false} EnforceLast(cfg: Config, st: Log)
    requires st.segments != [] && st.segments[|st.segments| - 1].first == ActiveFirst(st)
    ensures var ss := Enforce(cfg, st).segments; ss != [] && ss[|ss| - 1] == st.segments[|st.segments| - 1]
    decreases |st.segments|
  {
    FirstOtherIs(st.segments, ActiveFirst(st));
    var i := FirstOther(st.segments, ActiveFirst(st));
    if st.retainedBytes + st.activeBytes > cfg.retentionBytes && i.Some? {
      assert ActiveFirst(Delete(st, i.value)) == ActiveFirst(st);
      EnforceLast(cfg, Delete(st, i.value));
    }
  }

  lemma {:induction false} EnforceStep(cfg: Config, st: Log)
    requires Inv(cfg.layout, st) && st.writer.Some?
    ensures st.segments != []
    ensures st.retainedBytes + st.activeBytes <= cfg.retentionBytes || |st.segments| == 1 ==> Enforce(cfg, st) == st
    ensures st.retainedBytes + st.activeBytes > cfg.retentionBytes && |st.segments| > 1 ==>
              Enforce(cfg, st) == Enforce(cfg, Delete(st, 0))
  {
    if |st.segments| > 1 { DeleteKeeps(cfg.layout, st); }
    hide Chained, SizesOk, TotalBytes, SegmentBytes, Delete;
    if |st.segments| == 1 { assert FirstOther(st.segments[1..], ActiveFirst(st)) == None; }
  }

  /** Retention deletes the oldest segments, never the active one, until the log is under its cap or only the
      active one is left. */
  lemma {:induction false} EnforceKeeps(cfg: Config, st: Log)
    requires Inv(cfg.layout, st) && st.writer.Some?
    ensures var st', k := Enforce(cfg, st), |st.segments| - |Enforce(cfg, st).segments|;
            && Inv(cfg.layout, st') && st'.writer == st.writer && st'.activeBytes == st.activeBytes
            && st'.pending == st.pending
            && 0 <= k < |st.segments| && st'.segments == st.segments[k..]
            && (st'.retainedBytes + st'.activeBytes <= cfg.retentionBytes || |st'.segments| == 1)
    decreases |st.segments|
  {
    hide *;
    EnforceStep(cfg, st);
    var n := |st.segments|;
    if st.retainedBytes + st.activeBytes > cfg.retentionBytes && n > 1 {
      DeleteKeeps(cfg.layout, st);
      EnforceKeeps(cfg, Delete(st, 0));
      var k := n - |Enforce(cfg, st).segments|;
      assert st.segments[1..][k - 1..] == st.segments[k..];
    } else {
      assert st.segments[0..] == st.segments;
    }
  }

  /** And it deletes no more than it must: with the last deleted segment kept, the log would be over its cap. */
  lemma {:induction false} EnforceIsMinimal(cfg: Config, st: Log)
    requires Inv(cfg.layout, st) && st.writer.Some?
    ensures var k := |st.segments| - |Enforce(cfg, st).segments|;
            0 < k <= |Retired(st)| ==>
              TotalBytes(cfg.layout, Retired(st)[k - 1..]) + st.activeBytes > cfg.retentionBytes
    decreases |st.segments|
  {
    hide *;
    EnforceStep(cfg, st);
    var n := |st.segments|;
    if st.retainedBytes + st.activeBytes > cfg.retentionBytes && n > 1 {
      DeleteKeeps(cfg.layout, st);
      EnforceIsMinimal(cfg, Delete(st, 0));
      var k, was := n - |Enforce(cfg, st).segments|, Retired(st);
      RetainedIsTotal(cfg.layout, st);
      assert was[0..] == was;
      if 1 < k <= |was| { assert was[1..][k - 2..] == was[k - 1..]; }
    }
  }

  lemma {:induction false} RetainedIsTotal(l: Layout, st: Log)
    requires Inv(l, st)
    ensures st.retainedBytes == TotalBytes(l, Retired(st)) && Chained(st.segments) && EndsAt(st.segments, st.pending)
  {
  }

  /** The next record starts a segment exactly if there is none, or none that it fits. */
  predicate StartsSegment(cfg: Config, ss: seq<Segment>, r: Record) {
    ss == [] || SegmentBytes(cfg.layout, ss[|ss| - 1]) + RecordBytes(cfg.layout, r) > cfg.segmentSizeMax
  }

  /** The segments with the next record in its place, before anything is deleted. */
  function WithRecord(cfg: Config, ss: seq<Segment>, r: Record): seq<Segment> {
    if StartsSegment(cfg, ss, r) then ss + [Segment(r.cursor, [r])] else Extended(ss, r)
  }

  /** Of the segments `full` as few of the oldest are gone as the cap allows, and never the last. */
  predicate Trimmed(cfg: Config, full: seq<Segment>, ss: seq<Segment>) {
    && 1 <= |ss| <= |full| && ss == full[|full| - |ss|..]
    && (TotalBytes(cfg.layout, ss) <= cfg.retentionBytes || |ss| == 1)
    && (|ss| < |full| ==> TotalBytes(cfg.layout, full[|full| - |ss| - 1..]) > cfg.retentionBytes)
  }

  lemma {:induction false} TotalIs(cfg: Config, st: Log, k: nat)
    requires Inv(cfg.layout, st) && st.writer.Some? && k < |st.segments|
    ensures k <= |Retired(st)|
    ensures TotalBytes(cfg.layout, Retired(st)[k..]) + st.activeBytes == TotalBytes(cfg.layout, st.segments[k..])
  {
    hide Chained, SizesOk, TotalBytes, SegmentBytes, EndsAt;
    var t, n := st.segments[k..], |st.segments|;
    TotalOfLast(cfg.layout, t);
    assert t[..|t| - 1] == Retired(st)[k..] && t[|t| - 1] == st.segments[n - 1];
  }

  lemma {:induction false} EnforceTrims(cfg: Config, st: Log)
    requires Inv(cfg.layout, st) && st.writer.Some?
    ensures Trimmed(cfg, st.segments, Enforce(cfg, st).segments)
  {
    hide Inv, TotalBytes, Enforce;
    EnforceKeeps(cfg, st);
    EnforceIsMinimal(cfg, st);
    var st' := Enforce(cfg, st);
    var k := |st.segments| - |st'.segments|;
    TotalIs(cfg, st', 0);
    assert Retired(st')[0..] == Retired(st') && st'.segments[0..] == st'.segments;
    RetainedIsTotal(cfg.layout, st');
    if k > 0 { TotalIs(cfg, st, k - 1); }
  }

  /** A record in an added segment. */
  lemma {:induction false} ExtendedNew(ss: seq<Segment>, r: Record)
    ensures Extended(ss + [Segment(r.cursor, [])], r) == ss + [Segment(r.cursor, [r])]
  {
    var t := ss + [Segment(r.cursor, [])];
    assert t[..|t| - 1] == ss && [] + [r] == [r];
  }

  // ── Reading back ────────────────────────────────────────────────────────────

  function AtLeast(rs: seq<Record>, c: nat): seq<Record> {
    if rs == [] then []
    else (if rs[0].cursor >= c then [rs[0]] else []) + AtLeast(rs[1..], c)
  }

  /** The segment to start at: the last one named by a cursor at most `c`, or the oldest. */
  function Containing(ss: seq<Segment>, c: nat): (i: nat)
    ensures i < |ss| || (ss == [] && i == 0)
  {
    if |ss| <= 1 || ss[1].first > c then 0 else 1 + Containing(ss[1..], c)
  }

  datatype Replay = CursorTooOld(requested: nat, oldest: nat) | Records(records: seq<Record>)

  /** `read_from`, followed by draining the replayer: skip to the containing segment, then below the floor. */
  function ReadFrom(ss: seq<Segment>, c: nat): Replay {
    if ss == [] then Records([])
    else if c < ss[0].first then CursorTooOld(c, ss[0].first)
    else Records(AtLeast(Concat(ss[Containing(ss, c)..]), c))
  }

  lemma {:induction false} AtLeastStep(rs: seq<Record>, c: nat)
    requires rs != []
    ensures AtLeast(rs, c) == (if rs[0].cursor >= c then [rs[0]] else []) + AtLeast(rs[1..], c)
  {
  }

  lemma {:induction false} AtLeastConcat(a: seq<Record>, b: seq<Record>, c: nat)
    ensures AtLeast(a + b, c) == AtLeast(a, c) + AtLeast(b, c)
  {
    if a == [] {
      assert a + b == b;
    } else {
      AtLeastStep(a, c);
      AtLeastStep(a + b, c);
      AtLeastConcat(a[1..], b, c);
      hide *;
      assert (a + b)[1..] == a[1..] + b && (a + b)[0] == a[0];
      var keep: seq<Record> := if a[0].cursor >= c then [a[0]] else [];
      Regroup(keep, AtLeast(a[1..], c), AtLeast(b, c));
    }
  }

  lemma {:induction false} Regroup<T>(a: seq<T>, b: seq<T>, c: seq<T>)
    ensures a + (b + c) == (a + b) + c
  {
  }

  lemma {:induction false} AtLeastSuffix(rs: seq<Record>, first: nat, c: nat)
    requires Consecutive(rs, first)
    ensures AtLeast(rs, c) == if c <= first then rs else if c >= first + |rs| then [] else rs[c - first..]
  {
    if rs != [] {
      assert Consecutive(rs[1..], first + 1) by {
        forall i | 0 <= i < |rs| - 1 ensures rs[1..][i].cursor == first + 1 + i { assert rs[1..][i] == rs[i + 1]; }
      }
      AtLeastSuffix(rs[1..], first + 1, c);
      if c <= first { assert rs == [rs[0]] + rs[1..]; }
      else if c < first + |rs| { assert rs[c - first..] == rs[1..][c - first - 1..]; }
    }
  }

  lemma {:induction false} ConcatConsecutive(ss: seq<Segment>)
    requires ss != [] && Chained(ss)
    ensures Consecutive(Concat(ss), ss[0].first)
    ensures ss[0].first + |Concat(ss)| == ss[|ss| - 1].first + |ss[|ss| - 1].records|
  {
    if |ss| == 1 {
      assert ss == [ss[0]];
      OneSegment(ss[0]);
    } else {
      ChainedTail(ss, 1);
      ConcatConsecutive(ss[1..]);
      var head: seq<Record> := ss[0].records;
      var tail: seq<Record> := Concat(ss[1..]);
      forall i | 0 <= i < |head| + |tail| ensures Concat(ss)[i].cursor == ss[0].first + i {
        if i >= |head| { assert Concat(ss)[i] == tail[i - |head|]; }
      }
    }
  }

  /** Skipping the segments before the containing one skips nothing that was asked for. */
  lemma {:induction false} SkipIsSafe(ss: seq<Segment>, c: nat)
    requires ss != [] && Chained(ss) && ss[0].first <= c
    ensures AtLeast(Concat(ss[Containing(ss, c)..]), c) == AtLeast(Concat(ss), c)
  {
    hide Consecutive;
    if |ss| <= 1 || ss[1].first > c {
      assert ss[0..] == ss;
    } else {
      ChainedTail(ss, 1);
      SkipIsSafe(ss[1..], c);
      assert ss[Containing(ss, c)..] == ss[1..][Containing(ss[1..], c)..];
      AtLeastConcat(ss[0].records, Concat(ss[1..]), c);
      AtLeastSuffix(ss[0].records, ss[0].first, c);
    }
  }

  /** Replay is exact: it refuses exactly a cursor below the oldest segment, and otherwise yields every record
      still there from that cursor on, in order, as scanning everything would. */
  lemma {:induction false} ReplayExact(ss: seq<Segment>, c: nat)
    requires Chained(ss)
    ensures ReadFrom(ss, c).CursorTooOld? <==> ss != [] && c < ss[0].first
    ensures ReadFrom(ss, c).CursorTooOld? ==> ReadFrom(ss, c) == CursorTooOld(c, ss[0].first)
    ensures ReadFrom(ss, c).Records? ==> ReadFrom(ss, c).records == AtLeast(Concat(ss), c)
    ensures ReadFrom(ss, c).Records? && ss != [] ==>
              ReadFrom(ss, c).records ==
              if c - ss[0].first >= |Concat(ss)| then [] else Concat(ss)[c - ss[0].first..]
  {
    if ss != [] && c >= ss[0].first {
      SkipIsSafe(ss, c);
      ConcatConsecutive(ss);
      AtLeastSuffix(Concat(ss), ss[0].first, c);
      assert Concat(ss)[0..] == Concat(ss);
    }
  }
}
