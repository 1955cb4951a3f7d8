/** What a crash can take from the v0.1 log: appends, rotation, `fsync` and the two-phase flusher of
    crates/mmbus/src/wal/wal.rs and crates/mmbus/src/wal/segment_writer.rs as a step relation.

    The lock of the log makes append, rotation, `fsync` and the flusher's first phase exclude each other; its
    second phase runs outside and falls anywhere between them. Input and output succeed, except that creating a
    segment fails when its file exists. */
module WalDurability {
  import opened Bytes
  import opened WalRecord
  import opened SegmentLog
  import Wal

  /** A segment and its file: of the bytes after the header, `flushed` have left the writer's buffer and `synced`
      are on stable storage. */
  datatype File = File(seg: Segment, created: u64, flushed: nat, synced: nat)

  /** An operation that holds the lock between two of its steps: about to create a file, with the file created but
      its header still to be synced, or an `fsync` about to store the cursor it made durable. */
  datatype Holder = Nobody | Creating(first: nat) | Heading(first: nat, created: u64) | Storing(upTo: nat)

  /** The flusher: it has the file and cursor of phase one, or has synced that file and is about to store. */
  datatype Flusher = Sleeping | Captured(first: nat, upTo: nat) | Flushed(upTo: nat)

  /** `active` says that the last file has a writer. */
  datatype State = State(
    files: seq<File>, active: bool, pending: nat, durable: nat, holder: Holder, flusher: Flusher)

  datatype Action =
    | Append(r: Record)
    | Spill(n: nat)
    | Writeback(i: nat, n: nat)
    | Seal
    | StartCreate
    | Create(created: u64)
    | SyncHeader
    | SyncActive
    | StoreSynced
    | Capture
    | SyncCaptured
    | StoreCaptured
    | Retain

  function DataLen(f: File): nat { EncodedLenAll(f.seg.records) }

  function Segs(fs: seq<File>): (ss: seq<Segment>)
    ensures |ss| == |fs| && forall i :: 0 <= i < |fs| ==> ss[i] == fs[i].seg
  {
    if fs == [] then [] else Segs(fs[..|fs| - 1]) + [fs[|fs| - 1].seg]
  }

  function Flush(f: File): File { f.(flushed := DataLen(f)) }

  function Sync(f: File): File { f.(synced := f.flushed) }

  /** The last file replaced. */
  function SetLast(fs: seq<File>, f: File): (fs': seq<File>)
    requires fs != []
    ensures |fs'| == |fs| && fs'[|fs| - 1] == f && (forall i :: 0 <= i < |fs| - 1 ==> fs'[i] == fs[i])
  {
    fs[|fs| - 1 := f]
  }

  /** Every file of that name synced as far as it is flushed; there is none if retention was faster. */
  function SyncNamed(fs: seq<File>, first: nat): (fs': seq<File>)
    ensures |fs'| == |fs|
    ensures forall i :: 0 <= i < |fs| ==> fs'[i] == if fs[i].seg.first == first then Sync(fs[i]) else fs[i]
  {
    if fs == [] then []
    else
      var last := fs[|fs| - 1];
      SyncNamed(fs[..|fs| - 1], first) + [if last.seg.first == first then Sync(last) else last]
  }

  predicate Enabled(s: State, a: Action) {
    match a
    case Append(r) => s.holder.Nobody? && s.active && s.files != [] && r.cursor == s.pending && Fits(r)
    case Spill(n) => s.active && s.files != [] && s.files[|s.files| - 1].flushed <= n <= DataLen(s.files[|s.files| - 1])
    case Writeback(i, n) => i < |s.files| && s.files[i].synced <= n <= s.files[i].flushed
    case Seal => s.holder.Nobody? && s.active && s.files != []
    case StartCreate => s.holder.Nobody? && !s.active
    case Create(_) => s.holder.Creating? && s.holder.first < U64
    case SyncHeader => s.holder.Heading?
    case SyncActive => s.holder.Nobody? && s.active && s.files != []
    case StoreSynced => s.holder.Storing?
    case Capture => s.holder.Nobody? && s.active && s.files != [] && s.flusher.Sleeping?
    case SyncCaptured => s.flusher.Captured?
    case StoreCaptured => s.flusher.Flushed?
    case Retain => s.holder.Nobody? && s.active && |s.files| > 1
  }

  function Next(s: State, a: Action): State
    requires Enabled(s, a)
  {
    var n := |s.files|;
    match a
    case Append(r) =>
      var last := s.files[n - 1];
      s.(files := SetLast(s.files, last.(seg := last.seg.(records := last.seg.records + [r]))), pending := r.cursor + 1)
    case Spill(k) => s.(files := SetLast(s.files, s.files[n - 1].(flushed := k)))
    case Writeback(i, k) => s.(files := s.files[i := s.files[i].(synced := k)])
    case Seal => s.(files := SetLast(s.files, Sync(Flush(s.files[n - 1]))), active := false,
      holder := Creating(s.pending))
    case StartCreate => s.(holder := Creating(s.pending))
    case Create(created) =>
      s.(holder := if HasFile(Segs(s.files), s.holder.first) then Nobody else Heading(s.holder.first, created))
    case SyncHeader =>
      s.(files := s.files + [File(Segment(s.holder.first, []), s.holder.created, 0, 0)], active := true,
        holder := Nobody)
    case SyncActive => s.(files := SetLast(s.files, Sync(Flush(s.files[n - 1]))), holder := Storing(s.pending))
    case StoreSynced => s.(durable := s.holder.upTo, holder := Nobody)
    case Capture =>
      s.(files := SetLast(s.files, Flush(s.files[n - 1])), flusher := Captured(s.files[n - 1].seg.first, s.pending))
    case SyncCaptured => s.(files := SyncNamed(s.files, s.flusher.first), flusher := Flushed(s.flusher.upTo))
    case StoreCaptured => s.(durable := s.flusher.upTo, flusher := Sleeping)
    case Retain => s.(files := s.files[1..])
  }

  ghost predicate Reaches(s: State, actions: seq<Action>, s': State)
    decreases |actions|
  {
    if actions == [] then s' == s else Enabled(s, actions[0]) && Reaches(Next(s, actions[0]), actions[1..], s')
  }

  // ── The invariant ───────────────────────────────────────────────────────────

  /** How many records of the segment lie below `x`. */
  function Below(seg: Segment, x: nat): (k: nat)
    ensures k <= |seg.records|
  {
    if x <= seg.first then 0 else if x - seg.first >= |seg.records| then |seg.records| else x - seg.first
  }

  /** The bytes of the records below `x`. */
  function LenBelow(seg: Segment, x: nat): nat { EncodedLenAll(seg.records[..Below(seg, x)]) }

  predicate FileOk(f: File) {
    f.seg.first < U64 && AllFit(f.seg.records) && f.synced <= f.flushed <= DataLen(f)
  }

  predicate AllFilesOk(fs: seq<File>) { forall i :: 0 <= i < |fs| ==> FileOk(fs[i]) }

  /** Every retained record below `x` is in synced bytes. */
  predicate Safe(fs: seq<File>, x: nat) {
    forall i :: 0 <= i < |fs| ==> LenBelow(fs[i].seg, x) <= fs[i].synced
  }

  predicate FilesOk(s: State) {
    && Chained(Segs(s.files)) && EndsAt(Segs(s.files), s.pending)
    && AllFilesOk(s.files)
    && (s.active ==> s.files != []) && (s.files == [] ==> s.pending == 0)
  }

  predicate Sealed(s: State) {
    forall i :: 0 <= i < (if s.active then |s.files| - 1 else |s.files|) ==> s.files[i].synced == DataLen(s.files[i])
  }

  /** What the flusher captured is flushed in its file and synced everywhere else. */
  predicate CapturedOk(fs: seq<File>, first: nat, upTo: nat) {
    forall i :: 0 <= i < |fs| ==>
      LenBelow(fs[i].seg, upTo) <= if fs[i].seg.first == first then fs[i].flushed else fs[i].synced
  }

  predicate ClaimsOk(s: State) {
    && s.durable <= s.pending && Safe(s.files, s.durable)
    && (s.holder.Storing? ==> s.holder.upTo <= s.pending && Safe(s.files, s.holder.upTo))
    && (s.holder.Creating? ==> s.holder.first == s.pending && !s.active)
    && (s.holder.Heading? ==>
          s.holder.first == s.pending < U64 && !s.active && !HasFile(Segs(s.files), s.holder.first))
    && (s.flusher.Flushed? ==> s.flusher.upTo <= s.pending && Safe(s.files, s.flusher.upTo))
    && (s.flusher.Captured? ==> s.flusher.upTo <= s.pending && CapturedOk(s.files, s.flusher.first, s.flusher.upTo))
  }

  predicate Inv(s: State) { FilesOk(s) && Sealed(s) && ClaimsOk(s) }

  // ── Preservation ────────────────────────────────────────────────────────────

  lemma {:induction false} BelowAll(seg: Segment, x: nat)
    ensures LenBelow(seg, x) <= EncodedLenAll(seg.records)
  {
    Wal.ShorterIsShorter(seg.records, Below(seg, x));
  }

  lemma {:induction false} SealedIsSafe(s: State, i: nat, x: nat)
    requires Sealed(s) && i < |s.files| && (s.active ==> i < |s.files| - 1)
    ensures LenBelow(s.files[i].seg, x) <= s.files[i].synced
  {
    BelowAll(s.files[i].seg, x);
  }

  /** A record that comes after `x` does not change what lies below it. */
  lemma {:induction false} BelowExtends(seg: Segment, r: Record, x: nat)
    requires x <= seg.first + |seg.records|
    ensures LenBelow(seg.(records := seg.records + [r]), x) == LenBelow(seg, x)
  {
    var k := Below(seg, x);
    assert (seg.records + [r])[..k] == seg.records[..k];
  }

  lemma {:induction false} LenExtends(rs: seq<Record>, r: Record)
    ensures EncodedLenAll(rs + [r]) == EncodedLenAll(rs) + EncodedLen(r)
  {
    if rs == [] {
      assert [r][1..] == [];
    } else {
      LenExtends(rs[1..], r);
      assert (rs + [r])[1..] == rs[1..] + [r];
    }
  }

  /** Steps that only move bytes along: what is safe or captured stays so. */
  predicate Advances(fs: seq<File>, fs': seq<File>) {
    |fs'| == |fs| &&
    forall i :: 0 <= i < |fs| ==>
      fs'[i].seg == fs[i].seg && fs'[i].flushed >= fs[i].flushed && fs'[i].synced >= fs[i].synced
  }

  lemma {:induction false} AdvanceKeeps(s: State, s': State)
    requires Inv(s) && Advances(s.files, s'.files) && s'.pending == s.pending && s'.durable == s.durable
    requires s'.holder == s.holder && s'.flusher == s.flusher && s'.active == s.active
    requires AllFilesOk(s'.files)
    ensures Inv(s')
  {
    SameSegs(s.files, s'.files);
    hide Chained, LenBelow, EncodedLenAll, Segs;
  }

  lemma {:induction false} SameSegs(fs: seq<File>, fs': seq<File>)
    requires |fs'| == |fs| && forall i :: 0 <= i < |fs| ==> fs'[i].seg == fs[i].seg
    ensures Segs(fs') == Segs(fs)
  {
    hide Segs;
  }

  /** The byte-moving steps: spilling, writing back, and the flusher's sync outside the lock. */
  lemma {:induction false} MoveKeeps(s: State, a: Action)
    requires Inv(s) && Enabled(s, a) && (a.Spill? || a.Writeback? || a.Capture? || a.SyncCaptured?)
    ensures Inv(Next(s, a))
  {
    hide Chained, LenBelow, EncodedLenAll, Segs, EndsAt, AllFit;
    var s' := Next(s, a);
    assert Advances(s.files, s'.files);
    AdvanceKeeps(s, s'.(flusher := s.flusher));
    if a.Capture? { CaptureClaims(s); }
  }

  /** Right after the first phase everything appended so far is flushed, and synced in all older files. */
  lemma {:induction false} CaptureClaims(s: State)
    requires Inv(s) && Enabled(s, Capture)
    ensures CapturedOk(Next(s, Capture).files, s.files[|s.files| - 1].seg.first, s.pending)
  {
    var n := |s.files|;
    var fs := Next(s, Capture).files;
    forall i | 0 <= i < n
      ensures LenBelow(fs[i].seg, s.pending) <=
              if fs[i].seg.first == s.files[n - 1].seg.first then fs[i].flushed else fs[i].synced
    {
      if i < n - 1 { SealedIsSafe(s, i, s.pending); } else { BelowAll(fs[i].seg, s.pending); }
    }
  }

  /** Syncing the active file under the lock makes everything appended so far safe. */
  lemma {:induction false} SyncedIsSafe(s: State, x: nat)
    requires Inv(s) && s.active
    ensures Safe(SetLast(s.files, Sync(Flush(s.files[|s.files| - 1]))), x)
  {
    var n := |s.files|;
    var fs := SetLast(s.files, Sync(Flush(s.files[n - 1])));
    forall i | 0 <= i < n ensures LenBelow(fs[i].seg, x) <= fs[i].synced {
      if i < n - 1 { SealedIsSafe(s, i, x); } else { BelowAll(fs[i].seg, x); }
    }
  }

  lemma {:induction false} SyncAdvances(s: State)
    requires FilesOk(s) && s.files != []
    ensures Advances(s.files, SetLast(s.files, Sync(Flush(s.files[|s.files| - 1]))))
    ensures AllFilesOk(SetLast(s.files, Sync(Flush(s.files[|s.files| - 1]))))
  {
    hide Chained, EncodedLenAll, Segs, EndsAt, AllFit;
  }

  lemma {:induction false} SyncKeeps(s: State, a: Action)
    requires Inv(s) && Enabled(s, a) && (a.Seal? || a.SyncActive?)
    ensures Inv(Next(s, a))
  {
    var s' := Next(s, a);
    SyncedIsSafe(s, s.pending);
    SyncAdvances(s);
    hide FilesOk, LenBelow, FileOk;
    AdvanceKeeps(s, s'.(holder := s.holder, active := s.active));
    SealedAfter(s, a);
    hide Safe, CapturedOk, Sealed;
  }

  /** Once the active file is synced too, every file is sealed. */
  lemma {:induction false} SealedAfter(s: State, a: Action)
    requires Sealed(s) && Enabled(s, a) && (a.Seal? || a.SyncActive?) && FilesOk(Next(s, a).(active := true))
    ensures Sealed(Next(s, a)) && FilesOk(Next(s, a))
  {
    hide Chained, EndsAt, Segs, AllFit, EncodedLenAll;
  }

  lemma {:induction false} StoreKeeps(s: State, a: Action)
    requires Inv(s) && Enabled(s, a) && (a.StoreSynced? || a.StoreCaptured? || a.StartCreate?)
    ensures Inv(Next(s, a))
  {
    hide Chained, LenBelow, EncodedLenAll, Segs, EndsAt, AllFit, Safe, CapturedOk;
  }

  /** Files that differ only in records at or past the cursors claimed. */
  predicate SameBelow(fs: seq<File>, fs': seq<File>, x: nat) {
    |fs'| == |fs| &&
    forall i :: 0 <= i < |fs| ==>
      LenBelow(fs'[i].seg, x) == LenBelow(fs[i].seg, x) && fs'[i].synced == fs[i].synced
      && fs'[i].flushed == fs[i].flushed && fs'[i].seg.first == fs[i].seg.first
  }

  lemma {:induction false} AppendBelow(s: State, r: Record, x: nat)
    requires Inv(s) && Enabled(s, Append(r)) && x <= s.pending
    ensures SameBelow(s.files, Next(s, Append(r)).files, x)
  {
    BelowExtends(s.files[|s.files| - 1].seg, r, x);
    hide Chained, LenBelow;
  }

  lemma {:induction false} SameBelowSafe(fs: seq<File>, fs': seq<File>, x: nat)
    requires SameBelow(fs, fs', x)
    ensures Safe(fs, x) ==> Safe(fs', x)
    ensures forall first :: CapturedOk(fs, first, x) ==> CapturedOk(fs', first, x)
  {
    hide LenBelow;
  }

  lemma {:induction false} AppendKeeps(s: State, r: Record)
    requires Inv(s) && Enabled(s, Append(r))
    ensures Inv(Next(s, Append(r)))
  {
    AppendClaims(s, r);
    AppendFiles(s, r);
    hide Chained, LenBelow, EncodedLenAll, Segs, EndsAt, FileOk;
  }

  lemma {:induction false} AppendClaims(s: State, r: Record)
    requires Inv(s) && Enabled(s, Append(r))
    ensures ClaimsOk(Next(s, Append(r)))
  {
    var s' := Next(s, Append(r));
    AppendBelow(s, r, s.durable);
    SameBelowSafe(s.files, s'.files, s.durable);
    if !s.flusher.Sleeping? {
      AppendBelow(s, r, s.flusher.upTo);
      SameBelowSafe(s.files, s'.files, s.flusher.upTo);
    }
    hide Chained, LenBelow, EncodedLenAll, Segs, EndsAt, FileOk, Safe, CapturedOk, SameBelow, Sealed;
  }

  lemma {:induction false} AppendFiles(s: State, r: Record)
    requires FilesOk(s) && Enabled(s, Append(r))
    ensures FilesOk(Next(s, Append(r)))
  {
    var n := |s.files|;
    var s' := Next(s, Append(r));
    LenExtends(s.files[n - 1].seg.records, r);
    assert FileOk(s.files[n - 1]);
    ChainExtends(Segs(s.files), r);
    assert Segs(s'.files) == Extended(Segs(s.files), r);
    hide Chained, EncodedLenAll, Segs, EndsAt;
  }

  /** A new file without records has nothing to lose. */
  lemma {:induction false} NewFileSafe(fs: seq<File>, f: File, x: nat)
    requires f.seg.records == []
    ensures Safe(fs, x) ==> Safe(fs + [f], x)
    ensures forall first :: CapturedOk(fs, first, x) ==> CapturedOk(fs + [f], first, x)
  {
    assert f.seg.records[..Below(f.seg, x)] == [];
    assert LenBelow(f.seg, x) == 0;
    hide LenBelow;
  }

  lemma {:induction false} HeaderClaims(s: State)
    requires ClaimsOk(s) && Enabled(s, SyncHeader)
    ensures ClaimsOk(Next(s, SyncHeader))
  {
    var f := File(Segment(s.holder.first, []), s.holder.created, 0, 0);
    NewFileSafe(s.files, f, s.durable);
    if !s.flusher.Sleeping? { NewFileSafe(s.files, f, s.flusher.upTo); }
    hide Safe, CapturedOk, HasFile, Segs;
  }

  /** The chain of segments with the one being created at its end. */
  lemma {:induction false} ChainWithNew(ss: seq<Segment>, first: nat)
    requires Chained(ss) && EndsAt(ss, first) && !HasFile(ss, first)
    ensures Chained(ss + [Segment(first, [])]) && EndsAt(ss + [Segment(first, [])], first)
  {
    NameClash(ss, first);
    ChainGrows(ss, first);
    hide Chained, HasFile, Insert;
  }

  lemma {:induction false} HeaderFiles(s: State)
    requires FilesOk(s) && Sealed(s) && Enabled(s, SyncHeader) && s.holder.first == s.pending < U64 && !s.active
    requires !HasFile(Segs(s.files), s.holder.first)
    ensures FilesOk(Next(s, SyncHeader)) && Sealed(Next(s, SyncHeader))
  {
    hide Chained, EncodedLenAll, HasFile;
    var s' := Next(s, SyncHeader);
    ChainWithNew(Segs(s.files), s.pending);
    assert s'.files[..|s.files|] == s.files;
    assert Segs(s'.files) == Segs(s.files) + [Segment(s.holder.first, [])];
    hide Segs;
  }

  lemma {:induction false} HeaderKeeps(s: State)
    requires Inv(s) && Enabled(s, SyncHeader)
    ensures Inv(Next(s, SyncHeader))
  {
    HeaderClaims(s);
    HeaderFiles(s);
    hide FilesOk, Sealed, HasFile;
  }

  lemma {:induction false} CreateKeeps(s: State, created: u64)
    requires Inv(s) && Enabled(s, Create(created))
    ensures Inv(Next(s, Create(created)))
  {
    hide Chained, EndsAt, AllFilesOk, Segs, HasFile, Safe, CapturedOk, DataLen;
  }

  lemma {:induction false} TailSafe(fs: seq<File>, x: nat)
    requires fs != []
    ensures Safe(fs, x) ==> Safe(fs[1..], x)
    ensures forall first :: CapturedOk(fs, first, x) ==> CapturedOk(fs[1..], first, x)
  {
    hide LenBelow;
  }

  lemma {:induction false} RetainClaims(s: State)
    requires ClaimsOk(s) && Enabled(s, Retain)
    ensures ClaimsOk(Next(s, Retain))
  {
    TailSafe(s.files, s.durable);
    if !s.flusher.Sleeping? { TailSafe(s.files, s.flusher.upTo); }
    hide Safe, CapturedOk;
  }

  lemma {:induction false} SegsTail(fs: seq<File>)
    requires fs != []
    ensures Segs(fs[1..]) == Segs(fs)[1..]
  {
    hide Segs;
  }

  lemma {:induction false} RetainFiles(s: State)
    requires FilesOk(s) && Sealed(s) && Enabled(s, Retain)
    ensures FilesOk(Next(s, Retain)) && Sealed(Next(s, Retain))
  {
    ChainedTail(Segs(s.files), 1);
    SegsTail(s.files);
    TailOk(s.files);
    TailEnds(Segs(s.files), s.pending);
    hide Chained, Segs, AllFilesOk, EndsAt, DataLen;
  }

  lemma {:induction false} TailOk(fs: seq<File>)
    requires fs != [] && AllFilesOk(fs)
    ensures AllFilesOk(fs[1..])
  {
    hide FileOk;
  }

  lemma {:induction false} TailEnds(ss: seq<Segment>, pending: nat)
    requires |ss| > 1 && EndsAt(ss, pending)
    ensures EndsAt(ss[1..], pending)
  {
  }

  lemma {:induction false} RetainKeeps(s: State)
    requires Inv(s) && Enabled(s, Retain)
    ensures Inv(Next(s, Retain))
  {
    hide FilesOk, Sealed, ClaimsOk;
    RetainClaims(s);
    RetainFiles(s);
  }

  lemma {:induction false} StepKeeps(s: State, a: Action)
    requires Inv(s) && Enabled(s, a)
    ensures Inv(Next(s, a))
  {
    hide Inv, Next;
    match a {
      case Append(r) => AppendKeeps(s, r);
      case Spill(_) => MoveKeeps(s, a);
      case Writeback(_, _) => MoveKeeps(s, a);
      case Capture => MoveKeeps(s, a);
      case SyncCaptured => MoveKeeps(s, a);
      case Seal => SyncKeeps(s, a);
      case SyncActive => SyncKeeps(s, a);
      case StartCreate => StoreKeeps(s, a);
      case StoreSynced => StoreKeeps(s, a);
      case StoreCaptured => StoreKeeps(s, a);
      case Create(created) => CreateKeeps(s, created);
      case SyncHeader => HeaderKeeps(s);
      case Retain => RetainKeeps(s);
    }
  }

  lemma {:induction false} RunKeeps(s: State, actions: seq<Action>, s': State)
    requires Inv(s) && Reaches(s, actions, s')
    ensures Inv(s')
    decreases |actions|
  {
    hide Inv, Enabled, Next;
    if actions != [] {
      StepKeeps(s, actions[0]);
      RunKeeps(Next(s, actions[0]), actions[1..], s');
    }
  }

  /** What a step does to the log: an append adds its record at the end, a created file comes behind the others, and
      retention takes the oldest away. Nothing else changes what is in the log. */
  lemma {:induction false} StepContents(s: State, a: Action)
    requires Enabled(s, a)
    ensures var s' := Next(s, a);
            && Concat(Segs(s'.files)) == (if a.Append? then Concat(Segs(s.files)) + [a.r]
                                          else if a.Retain? then Concat(Segs(s.files)[1..])
                                          else Concat(Segs(s.files)))
            && |s'.files| == |s.files| + (if a.SyncHeader? then 1 else 0) - (if a.Retain? then 1 else 0)
            && s'.pending == s.pending + if a.Append? then 1 else 0
  {
    hide Concat, EncodedLenAll, HasFile;
    var s' := Next(s, a);
    if a.Append? {
      SegsExtend(s.files, a.r, s'.files);
      ConcatExtends(Segs(s.files), a.r);
    } else if a.SyncHeader? {
      assert Segs(s'.files) == Segs(s.files) + [Segment(s.holder.first, [])];
      Wal.EmptySegmentAddsNothing(Segs(s.files), s.holder.first);
    } else if a.Retain? {
      assert Segs(s'.files) == Segs(s.files)[1..];
    } else {
      SameSegs(s.files, s'.files);
    }
  }

  lemma {:induction false} SegsExtend(fs: seq<File>, r: Record, fs': seq<File>)
    requires fs != [] && |fs'| == |fs| && forall i :: 0 <= i < |fs| - 1 ==> fs'[i].seg == fs[i].seg
    requires var last := fs[|fs| - 1].seg; fs'[|fs| - 1].seg == last.(records := last.records + [r])
    ensures Segs(fs') == Extended(Segs(fs), r)
  {
    hide Segs;
  }

  /** How far the bytes of a file get: exactly as far as the buffer spills and the kernel writes back, and all the way
      when the file is closed or synced. */
  lemma {:induction false} StepBytes(s: State, a: Action)
    requires Enabled(s, a)
    ensures var fs, fs' := s.files, Next(s, a).files;
            && (a.Spill? ==> fs' != [] && fs'[|fs'| - 1].flushed == a.n)
            && (a.Writeback? ==> a.i < |fs'| && fs'[a.i].synced == a.n)
            && (a.Capture? ==> fs' != [] && fs'[|fs'| - 1].flushed == DataLen(fs'[|fs'| - 1]))
            && (a.Seal? || a.SyncActive? ==> fs' != [] && fs'[|fs'| - 1].synced == DataLen(fs'[|fs'| - 1]))
            && (a.SyncCaptured? ==>
                  forall i :: 0 <= i < |fs'| && fs'[i].seg.first == s.flusher.first ==> fs'[i].synced == fs'[i].flushed)
  {
    hide Concat, EncodedLenAll, Segs, HasFile;
  }

  // ── Main results, over every run from a synced log ──────────────────────────

  /** A log whose files are all on stable storage, with nothing in progress. */
  predicate Start(s: State) {
    && FilesOk(s) && s.durable == s.pending && s.holder.Nobody? && s.flusher.Sleeping?
    && forall i :: 0 <= i < |s.files| ==> s.files[i].synced == DataLen(s.files[i])
  }

  lemma {:induction false} StartOk(s: State)
    requires Start(s)
    ensures Inv(s)
  {
    forall i | 0 <= i < |s.files| ensures LenBelow(s.files[i].seg, s.durable) <= s.files[i].synced {
      BelowAll(s.files[i].seg, s.durable);
    }
    hide FilesOk, LenBelow;
  }

  /** A crash leaves of a file its header and at least its synced bytes, and anything at all after them. */
  predicate Left(crc: Checksum, f: File, image: seq<byte>) {
    f.seg.first < U64 && f.synced <= |EncodeAll(crc, f.seg.records)|
    && EncodeHeader(f.seg.first, f.created) + EncodeAll(crc, f.seg.records)[..f.synced] <= image
  }

  lemma {:induction false} EncodeAllConcat(crc: Checksum, a: seq<Record>, b: seq<Record>)
    ensures EncodeAll(crc, a + b) == EncodeAll(crc, a) + EncodeAll(crc, b)
  {
    hide Encode;
    if a == [] {
      assert a + b == b;
    } else {
      EncodeAllConcat(crc, a[1..], b);
      assert (a + b)[1..] == a[1..] + b;
      Regroup(Encode(crc, a[0]), EncodeAll(crc, a[1..]), EncodeAll(crc, b));
    }
  }

  /** Records whose bytes are within the synced part are read back from whatever a crash left. */
  lemma {:induction false} PrefixIsRead(crc: Checksum, f: File, image: seq<byte>, k: nat)
    requires FileOk(f) && Left(crc, f, image) && k <= |f.seg.records| && EncodedLenAll(f.seg.records[..k]) <= f.synced
    ensures ParseHeader(image) == HeaderOk(f.seg.first, f.created)
    ensures f.seg.records[..k] <= Scan(crc, image[SEGMENT_HEADER_LEN..]).records
  {
    hide Scan, ParseHeader, EncodeHeader, Encode, EncodeAll, EncodedLenAll;
    var rs, h := f.seg.records, EncodeHeader(f.seg.first, f.created);
    var rest := image[SEGMENT_HEADER_LEN..];
    assert image == h + rest && EncodeAll(crc, rs)[..f.synced] <= rest;
    HeaderRoundTrip(f.seg.first, f.created, rest);
    EncodeAllConcat(crc, rs[..k], rs[k..]);
    assert rs == rs[..k] + rs[k..];
    EncodedLenIs(crc, rs[..k]);
    assert EncodeAll(crc, rs[..k]) <= rest;
    ScanIsLongest(crc, rest, rs[..k]);
  }

  /** Durability: whatever the interleaving, after a crash that keeps at least the synced part of each file,
      recovery still finds every retained record below the durable cursor, in its file and in its place. */
  lemma {:induction false} DurableSurvives(crc: Checksum, start: State, actions: seq<Action>, s: State, i: nat,
          image: seq<byte>)
    requires Start(start) && Reaches(start, actions, s) && i < |s.files| && Left(crc, s.files[i], image)
    ensures ParseHeader(image) == HeaderOk(s.files[i].seg.first, s.files[i].created)
    ensures s.durable <= s.pending && |image| >= SEGMENT_HEADER_LEN && ParseHeader(RecoveredBytes(crc, image)).HeaderOk?
    ensures |RecoveredBytes(crc, image)| >= SEGMENT_HEADER_LEN
    ensures var r := RecoveredBytes(crc, image);
            var found := Scan(crc, r[SEGMENT_HEADER_LEN..]);
            && found.last == Eof
            && s.files[i].seg.records[..Below(s.files[i].seg, s.durable)] <= found.records
  {
    hide *;
    StartOk(start);
    RunKeeps(start, actions, s);
    InvAt(s, i);
    PrefixIsRead(crc, s.files[i], image, Below(s.files[i].seg, s.durable));
    HeaderOkIsLong(image);
    RecoveryIsClean(crc, image);
    HeaderOkIsLong(RecoveredBytes(crc, image));
  }

  lemma {:induction false} InvAt(s: State, i: nat)
    requires Inv(s) && i < |s.files|
    ensures FileOk(s.files[i]) && s.durable <= s.pending
    ensures EncodedLenAll(s.files[i].seg.records[..Below(s.files[i].seg, s.durable)]) <= s.files[i].synced
  {
    hide Chained, EncodedLenAll;
  }

  lemma {:induction false} HeaderOkIsLong(image: seq<byte>)
    requires ParseHeader(image).HeaderOk?
    ensures |image| >= SEGMENT_HEADER_LEN
  {
  }

  /** What `fsync` made durable stays so while it is retained, even when the flusher later stores an older cursor. */
  lemma {:induction false} SafeForGood(s: State, actions: seq<Action>, s': State, x: nat)
    requires Inv(s) && Safe(s.files, x) && x <= s.pending && Reaches(s, actions, s')
    ensures Inv(s') && Safe(s'.files, x) && x <= s'.pending
    decreases |actions|
  {
    hide Inv, Enabled, Next, Safe;
    if actions != [] {
      StepKeeps(s, actions[0]);
      SafeStep(s, actions[0], x);
      SafeForGood(Next(s, actions[0]), actions[1..], s', x);
    }
  }

  /** The proof runs `x` through the invariant as if it were the cursor the flusher is about to store. */
  lemma {:induction false} SafeStep(s: State, a: Action, x: nat)
    requires Inv(s) && Enabled(s, a) && Safe(s.files, x) && x <= s.pending
    ensures Safe(Next(s, a).files, x) && x <= Next(s, a).pending
  {
    var t := s.(flusher := Flushed(x));
    if a.SyncCaptured? {
      hide LenBelow;
    } else if !a.StoreCaptured? && !a.Capture? {
      assert Inv(t) && Enabled(t, a);
      StepKeeps(t, a);
      SameFiles(s, a, x);
    } else {
      hide LenBelow;
    }
  }

  lemma {:induction false} SameFiles(s: State, a: Action, x: nat)
    requires Enabled(s, a) && !a.SyncCaptured? && !a.StoreCaptured? && !a.Capture?
    ensures var t := s.(flusher := Flushed(x));
            && Enabled(t, a) && Next(t, a).files == Next(s, a).files && Next(t, a).pending == Next(s, a).pending
            && Next(t, a).flusher == Flushed(x)
  {
  }

  /** The second half of `fsync`, and with it each append under the `Each` policy. */
  lemma {:induction false} FsyncHolds(start: State, before: seq<Action>, s: State, after: seq<Action>, s': State)
    requires Start(start) && Reaches(start, before, s) && Enabled(s, SyncActive)
    requires Reaches(Next(s, SyncActive), after, s')
    ensures Safe(s'.files, s.pending)
  {
    StartOk(start);
    RunKeeps(start, before, s);
    StepKeeps(s, SyncActive);
    SyncedIsSafe(s, s.pending);
    hide Inv, Safe;
    SafeForGood(Next(s, SyncActive), after, s', s.pending);
  }

  // ── What becomes durable ────────────────────────────────────────────────────

  /** While an `fsync` is about to store its cursor the lock keeps the log as it was. */
  lemma {:induction false} StoringWaits(s: State, actions: seq<Action>, s': State)
    requires s.holder.Storing? && Reaches(s, actions, s') && StoreSynced !in actions
    ensures s'.holder == s.holder && s'.pending == s.pending && s'.active == s.active
    decreases |actions|
  {
    if actions != [] {
      assert actions[0] in actions;
      forall a | a in actions[1..] ensures a in actions {}
      var s1 := Next(s, actions[0]);
      assert s1.holder == s.holder && s1.pending == s.pending && s1.active == s.active;
      hide Next, Enabled;
      StoringWaits(s1, actions[1..], s');
    }
  }

  /** What `fsync` publishes: whatever the flusher, the kernel and the writer's buffer do between its two halves, the
      durable cursor it stores is the pending cursor it started with, which is still the pending one. */
  lemma {:induction false} FsyncPublishes(s: State, between: seq<Action>, s': State)
    requires Enabled(s, SyncActive) && Reaches(Next(s, SyncActive), between, s') && StoreSynced !in between
    ensures Enabled(s', StoreSynced)
    ensures Next(s', StoreSynced).durable == s.pending == Next(s', StoreSynced).pending
    ensures Next(s', StoreSynced).holder.Nobody?
  {
    StoringWaits(Next(s, SyncActive), between, s');
  }

  /** What the flusher has in hand does not change until it stores it. */
  predicate InHand(f: Flusher, upTo: nat) { (f.Captured? || f.Flushed?) && f.upTo == upTo }

  lemma {:induction false} FlusherKeeps(s: State, actions: seq<Action>, s': State, upTo: nat)
    requires InHand(s.flusher, upTo) && Reaches(s, actions, s') && StoreCaptured !in actions
    ensures InHand(s'.flusher, upTo)
    decreases |actions|
  {
    if actions != [] {
      assert actions[0] in actions;
      forall a | a in actions[1..] ensures a in actions {}
      var s1 := Next(s, actions[0]);
      assert InHand(s1.flusher, upTo);
      hide Next, Enabled, InHand;
      FlusherKeeps(s1, actions[1..], s', upTo);
    }
  }

  /** What the flusher publishes: the pending cursor at its first phase, whatever is appended, rotated, synced or
      pruned before it gets to store it. */
  lemma {:induction false} FlusherPublishes(s: State, between: seq<Action>, s': State)
    requires Enabled(s, Capture) && Reaches(Next(s, Capture), between, s') && StoreCaptured !in between
    ensures Enabled(s', SyncCaptured) || Enabled(s', StoreCaptured)
    ensures Enabled(s', StoreCaptured) ==> Next(s', StoreCaptured).durable == s.pending
  {
    FlusherKeeps(Next(s, Capture), between, s', s.pending);
  }

  /** An `fsync` that nobody interrupts makes everything durable, from any state with a writer and the lock free; and
      so does a round of the flusher. */
  lemma {:induction false} FsyncCatchesUp(s: State) returns (s': State)
    requires Enabled(s, SyncActive)
    ensures Reaches(s, [SyncActive, StoreSynced], s')
    ensures s'.durable == s'.pending == s.pending && s'.holder.Nobody? && Segs(s'.files) == Segs(s.files)
  {
    s' := Next(Next(s, SyncActive), StoreSynced);
    RunOfTwo(s, SyncActive, StoreSynced);
    SameSegs(s.files, s'.files);
  }

  lemma {:induction false} RoundCatchesUp(s: State) returns (s': State)
    requires Enabled(s, Capture)
    ensures Reaches(s, [Capture, SyncCaptured, StoreCaptured], s')
    ensures s'.durable == s'.pending == s.pending && s'.flusher.Sleeping? && Segs(s'.files) == Segs(s.files)
  {
    var s1 := Next(s, Capture);
    var s2 := Next(s1, SyncCaptured);
    s' := Next(s2, StoreCaptured);
    RunOfTwo(s1, SyncCaptured, StoreCaptured);
    SameSegs(s.files, s'.files);
    hide Next, Segs;
    assert [Capture, SyncCaptured, StoreCaptured][1..] == [SyncCaptured, StoreCaptured];
  }

  /** The durable cursor goes back, exactly: the flusher stores what it captured before a later `fsync` stored more.
      What that `fsync` covered is on stable storage all the same. */
  lemma {:induction false} DurableFallsIff(start: State, actions: seq<Action>, s: State, a: Action)
    requires Start(start) && Reaches(start, actions, s) && Enabled(s, a)
    ensures Next(s, a).durable < s.durable <==> a.StoreCaptured? && s.flusher.upTo < s.durable
  {
    StartOk(start);
    RunKeeps(start, actions, s);
    StoringIsPending(start, actions, s);
    hide Reaches, Start, FilesOk, Sealed, Safe, CapturedOk, HasFile, SyncNamed;
  }

  lemma {:induction false} StoringIsPending(start: State, actions: seq<Action>, s: State)
    requires (start.holder.Storing? ==> start.holder.upTo == start.pending) && Reaches(start, actions, s)
    ensures s.holder.Storing? ==> s.holder.upTo == s.pending
    decreases |actions|
  {
    if actions != [] {
      var s1 := Next(start, actions[0]);
      assert s1.holder.Storing? ==> s1.holder.upTo == s1.pending;
      hide Next, Enabled;
      StoringIsPending(s1, actions[1..], s);
    }
  }

  /** A log with one empty file, and the same with records in it. */
  function OneFile(n: nat, flushed: nat, synced: nat, durable: nat, holder: Holder, flusher: Flusher): State
    requires n <= 2
  {
    State([File(Segment(0, Blank(n)), 0, flushed, synced)], true, n, durable, holder, flusher)
  }

  function Blank(n: nat): (rs: seq<Record>)
    requires n <= 2
    ensures |rs| == n
  {
    if n == 0 then [] else Blank(n - 1) + [Record(n - 1, 0, [])]
  }

  lemma {:induction false} BlankLen(n: nat)
    requires n <= 2
    ensures EncodedLenAll(Blank(n)) == n * RECORD_FRAMING
  {
    if n > 0 {
      BlankLen(n - 1);
      LenExtends(Blank(n - 1), Record(n - 1, 0, []));
    }
  }

  lemma {:induction false} RunOn(s: State, a: Action, s1: State, actions: seq<Action>, s': State)
    requires Enabled(s, a) && Next(s, a) == s1 && Reaches(s1, actions, s')
    ensures Reaches(s, [a] + actions, s')
  {
    hide Next, Enabled;
    assert ([a] + actions)[1..] == actions;
  }

  /** The steps of that run. */
  lemma {:induction false} OneAppend(n: nat, flushed: nat, synced: nat, durable: nat, flusher: Flusher)
    requires n < 2
    ensures var s, a := OneFile(n, flushed, synced, durable, Nobody, flusher), Append(Record(n, 0, []));
            Enabled(s, a) && Next(s, a) == OneFile(n + 1, flushed, synced, durable, Nobody, flusher)
  {
    var s, a := OneFile(n, flushed, synced, durable, Nobody, flusher), Append(Record(n, 0, []));
    hide EncodedLenAll, Segs;
    assert Blank(n + 1) == Blank(n) + [Record(n, 0, [])] by { hide Next; }
    hide Blank;
    assert Next(s, a).files == OneFile(n + 1, flushed, synced, durable, Nobody, flusher).files;
  }

  lemma {:induction false} OneCapture()
    ensures var s := OneFile(1, 0, 0, 0, Nobody, Sleeping);
            Enabled(s, Capture) && Next(s, Capture) == OneFile(1, RECORD_FRAMING, 0, 0, Nobody, Captured(0, 1))
  {
    BlankLen(1);
    hide EncodedLenAll, Segs, Blank;
    var s := OneFile(1, 0, 0, 0, Nobody, Sleeping);
    assert Next(s, Capture).files == OneFile(1, RECORD_FRAMING, 0, 0, Nobody, Captured(0, 1)).files;
  }

  lemma {:induction false} OneFsync(f: Flusher)
    ensures var s, n := OneFile(2, RECORD_FRAMING, 0, 0, Nobody, f), 2 * RECORD_FRAMING;
            && Enabled(s, SyncActive) && Next(s, SyncActive) == OneFile(2, n, n, 0, Storing(2), f)
            && Enabled(Next(s, SyncActive), StoreSynced)
            && Next(Next(s, SyncActive), StoreSynced) == OneFile(2, n, n, 2, Nobody, f)
  {
    BlankLen(2);
    hide EncodedLenAll, Segs, Blank;
    var s, n := OneFile(2, RECORD_FRAMING, 0, 0, Nobody, f), 2 * RECORD_FRAMING;
    assert Next(s, SyncActive).files == OneFile(2, n, n, 0, Storing(2), f).files;
  }

  lemma {:induction false} OneSync()
    ensures var n := 2 * RECORD_FRAMING;
            var s := OneFile(2, n, n, 2, Nobody, Captured(0, 1));
            Enabled(s, SyncCaptured) && Next(s, SyncCaptured) == OneFile(2, n, n, 2, Nobody, Flushed(1))
  {
    hide EncodedLenAll, Segs, Blank;
    var n := 2 * RECORD_FRAMING;
    var s := OneFile(2, n, n, 2, Nobody, Captured(0, 1));
    assert Next(s, SyncCaptured).files == s.files;
  }

  /** A run in which it does: a record is appended between the flusher's first phase and an `fsync`. */
  lemma {:induction false} DurableFallsBack() returns (actions: seq<Action>, s: State)
    ensures Start(OneFile(0, 0, 0, 0, Nobody, Sleeping)) && Reaches(OneFile(0, 0, 0, 0, Nobody, Sleeping), actions, s)
    ensures Enabled(s, StoreCaptured) && s.durable == s.pending == 2 && Next(s, StoreCaptured).durable == 1
  {
    var n := 2 * RECORD_FRAMING;
    var s0, s1 := OneFile(0, 0, 0, 0, Nobody, Sleeping), OneFile(1, 0, 0, 0, Nobody, Sleeping);
    var s2, s3 := OneFile(1, RECORD_FRAMING, 0, 0, Nobody, Captured(0, 1)),
                  OneFile(2, RECORD_FRAMING, 0, 0, Nobody, Captured(0, 1));
    var s4, s5 := OneFile(2, n, n, 0, Storing(2), Captured(0, 1)), OneFile(2, n, n, 2, Nobody, Captured(0, 1));
    s := OneFile(2, n, n, 2, Nobody, Flushed(1));
    EmptyStart();
    assert Enabled(s, StoreCaptured) && s.durable == s.pending == 2 && Next(s, StoreCaptured).durable == 1;
    hide *;
    OneAppend(0, 0, 0, 0, Sleeping);
    OneCapture();
    OneAppend(1, RECORD_FRAMING, 0, 0, Captured(0, 1));
    OneFsync(Captured(0, 1));
    OneSync();
    NoSteps(s);
    RunOn(s5, SyncCaptured, s, [], s);
    RunOn(s4, StoreSynced, s5, [SyncCaptured] + [], s);
    RunOn(s3, SyncActive, s4, [StoreSynced] + ([SyncCaptured] + []), s);
    var a1, a0 := Append(Record(1, 0, [])), Append(Record(0, 0, []));
    actions := [SyncActive] + ([StoreSynced] + ([SyncCaptured] + []));
    RunOn(s2, a1, s3, actions, s);
    actions := [a1] + actions;
    RunOn(s1, Capture, s2, actions, s);
    actions := [Capture] + actions;
    RunOn(s0, a0, s1, actions, s);
    actions := [a0] + actions;
  }

  lemma {:induction false} NoSteps(s: State)
    ensures Reaches(s, [], s)
  {
  }

  lemma {:induction false} EmptyStart()
    ensures Start(OneFile(0, 0, 0, 0, Nobody, Sleeping))
  {
    var s := OneFile(0, 0, 0, 0, Nobody, Sleeping);
    assert Segs(s.files) == [Segment(0, [])];
  }

  // ── Restart ─────────────────────────────────────────────────────────────────

  /** Where a crash that keeps a prefix of each file may cut them. */
  predicate Cuts(fs: seq<File>, cuts: seq<nat>) {
    |cuts| == |fs| && forall i :: 0 <= i < |fs| ==> fs[i].synced <= cuts[i] <= fs[i].flushed
  }

  lemma {:induction false} FileLen(crc: Checksum, f: File)
    requires FileOk(f)
    ensures |Wal.FileOf(crc, f.created, f.seg)| == SEGMENT_HEADER_LEN + DataLen(f)
  {
    EncodedLenIs(crc, f.seg.records);
  }

  /** The segments that `open` finds in the cut files. */
  function FoundSegs(crc: Checksum, fs: seq<File>, cuts: seq<nat>): seq<Segment>
    requires AllFilesOk(fs) && Cuts(fs, cuts)
  {
    if fs == [] then []
    else
      var n := |fs| - 1;
      FileLen(crc, fs[n]);
      FoundSegs(crc, fs[..n], cuts[..n])
        + [Wal.Found(crc, fs[n].seg.first, Wal.FileOf(crc, fs[n].created, fs[n].seg)[..SEGMENT_HEADER_LEN + cuts[n]])]
  }

  /** A segment cut after `n` bytes of records. */
  function CutSeg(seg: Segment, n: nat): Segment { seg.(records := seg.records[..WhollyBefore(seg.records, n)]) }

  lemma {:induction false} FoundIsCut(crc: Checksum, f: File, n: nat)
    requires FileOk(f) && n <= f.flushed
    ensures |Wal.FileOf(crc, f.created, f.seg)| == SEGMENT_HEADER_LEN + DataLen(f)
    ensures var found := Wal.Found(crc, f.seg.first, Wal.FileOf(crc, f.created, f.seg)[..SEGMENT_HEADER_LEN + n]);
            found == CutSeg(f.seg, n) && (n == DataLen(f) ==> found == f.seg)
  {
    hide Scan, EncodeHeader, EncodeAll, Wal.FileOf, Wal.Found, EncodedLenAll, WhollyBefore;
    FileLen(crc, f);
    Wal.FoundAgain(crc, f.created, f.seg, SEGMENT_HEADER_LEN + n);
  }

  /** Files kept whole are found as they were. */
  lemma {:induction false} WholeIsFound(crc: Checksum, fs: seq<File>, cuts: seq<nat>)
    requires AllFilesOk(fs) && Cuts(fs, cuts) && forall i :: 0 <= i < |fs| ==> cuts[i] == DataLen(fs[i])
    ensures FoundSegs(crc, fs, cuts) == Segs(fs)
  {
    hide Wal.FileOf, Wal.Found, DataLen, FileOk;
    if fs != [] {
      var n := |fs| - 1;
      assert FileOk(fs[n]);
      CutsInit(fs, cuts);
      WholeIsFound(crc, fs[..n], cuts[..n]);
      FoundIsCut(crc, fs[n], cuts[n]);
    }
  }

  lemma {:induction false} CutsInit(fs: seq<File>, cuts: seq<nat>)
    requires fs != [] && AllFilesOk(fs) && Cuts(fs, cuts)
    ensures AllFilesOk(fs[..|fs| - 1]) && Cuts(fs[..|fs| - 1], cuts[..|fs| - 1])
  {
    hide FileOk;
  }

  /** A record that lies before the cut is kept. */
  lemma {:induction false} KeepsBelow(rs: seq<Record>, n: nat, k: nat)
    requires k <= |rs| && EncodedLenAll(rs[..k]) <= n && |rs| > 0
    ensures k <= WhollyBefore(rs, n)
    decreases |rs|
  {
    if k > 0 {
      assert rs[..k][1..] == rs[1..][..k - 1];
      if |rs| > 1 { KeepsBelow(rs[1..], n - EncodedLen(rs[0]), k - 1); }
    }
  }

  lemma {:induction false} FoundAfterCrash(crc: Checksum, s: State, cuts: seq<nat>)
    requires Inv(s) && s.files != [] && Cuts(s.files, cuts)
    ensures AllFilesOk(s.files)
    ensures var n := |s.files| - 1;
            FoundSegs(crc, s.files, cuts) == Segs(s.files)[..n] + [CutSeg(s.files[n].seg, cuts[n])]
  {
    hide *;
    var n := |s.files| - 1;
    SealedCuts(s, cuts);
    SegsInit(s.files);
    FoundLast(crc, s.files, cuts);
    assert forall i :: 0 <= i < n ==> cuts[..n][i] == DataLen(s.files[..n][i]);
    WholeIsFound(crc, s.files[..n], cuts[..n]);
    FoundIsCut(crc, s.files[n], cuts[n]);
  }

  lemma {:induction false} SegsInit(fs: seq<File>)
    requires fs != []
    ensures Segs(fs[..|fs| - 1]) == Segs(fs)[..|fs| - 1]
  {
    hide Segs;
  }

  lemma {:induction false} SealedCuts(s: State, cuts: seq<nat>)
    requires Inv(s) && s.files != [] && Cuts(s.files, cuts)
    ensures AllFilesOk(s.files) && |cuts| == |s.files| && FileOk(s.files[|s.files| - 1])
    ensures cuts[|s.files| - 1] <= s.files[|s.files| - 1].flushed
    ensures forall i :: 0 <= i < |s.files| - 1 ==> cuts[i] == DataLen(s.files[i])
  {
    hide Chained, Segs, ClaimsOk, DataLen, EndsAt;
  }

  lemma {:induction false} FoundLast(crc: Checksum, fs: seq<File>, cuts: seq<nat>)
    requires fs != [] && AllFilesOk(fs) && Cuts(fs, cuts)
    ensures AllFilesOk(fs[..|fs| - 1]) && Cuts(fs[..|fs| - 1], cuts[..|fs| - 1])
    ensures var n, f := |fs| - 1, fs[|fs| - 1];
            && |Wal.FileOf(crc, f.created, f.seg)| == SEGMENT_HEADER_LEN + DataLen(f)
            && cuts[n] <= DataLen(f)
            && FoundSegs(crc, fs, cuts) ==
               FoundSegs(crc, fs[..n], cuts[..n]) +
                 [Wal.Found(crc, f.seg.first, Wal.FileOf(crc, f.created, f.seg)[..SEGMENT_HEADER_LEN + cuts[n]])]
  {
    CutsInit(fs, cuts);
    FileLen(crc, fs[|fs| - 1]);
    hide Wal.FileOf, Wal.Found, EncodedLenAll;
  }

  lemma {:induction false} CutKeepsDurable(s: State, cuts: seq<nat>)
    requires Inv(s) && s.files != [] && Cuts(s.files, cuts)
    ensures var n := |s.files| - 1;
            var seg := s.files[n].seg;
            && Chained(Segs(s.files)) && Segs(s.files)[n] == seg
            && s.durable <= seg.first + WhollyBefore(seg.records, cuts[n])
  {
    var n := |s.files| - 1;
    var seg := s.files[n].seg;
    assert EncodedLenAll(seg.records[..Below(seg, s.durable)]) <= cuts[n];
    assert s.durable <= seg.first + |seg.records|;
    hide Inv, EncodedLenAll, Chained, WhollyBefore;
    if seg.records != [] { KeepsBelow(seg.records, cuts[n], Below(seg, s.durable)); }
  }

  /** Crash and restart: cut every file anywhere past its synced bytes, recover and open. The log is contiguous
      again, holds a prefix of what was there, and continues at or after the durable cursor. */
  lemma {:induction false} RestartKeepsDurable(crc: Checksum, start: State, actions: seq<Action>, s: State,
          cuts: seq<nat>)
    requires Start(start) && Reaches(start, actions, s) && s.files != [] && Cuts(s.files, cuts)
    ensures AllFilesOk(s.files)
    ensures var st := Wal.Opened(FoundSegs(crc, s.files, cuts));
            && SegmentLog.Inv(V1, st) && Concat(st.segments) <= Concat(Segs(s.files))
            && s.durable <= st.pending == s.files[0].seg.first + |Concat(st.segments)|
  {
    assert |cuts| == |s.files|;
    hide *;
    StartOk(start);
    RunKeeps(start, actions, s);
    FoundAfterCrash(crc, s, cuts);
    CutKeepsDurable(s, cuts);
    var n, ss := |s.files| - 1, Segs(s.files);
    var k := WhollyBefore(ss[n].records, cuts[n]);
    var found := ss[..n] + [ss[n].(records := ss[n].records[..k])];
    CutSegIs(ss[n], cuts[n]);
    Wal.CutLast(ss, k);
    CutIsPrefix(ss, k);
    Wal.OpenKeeps(found);
    ConcatConsecutive(found);
    FoundFirst(s.files, k);
  }

  lemma {:induction false} CutSegIs(seg: Segment, n: nat)
    ensures CutSeg(seg, n) == seg.(records := seg.records[..WhollyBefore(seg.records, n)])
  {
  }

  lemma {:induction false} FoundFirst(fs: seq<File>, k: nat)
    requires fs != [] && k <= |fs[|fs| - 1].seg.records|
    ensures var n, ss := |fs| - 1, Segs(fs);
            && ss != [] && ss[n] == fs[n].seg
            && (ss[..n] + [ss[n].(records := ss[n].records[..k])])[0].first == fs[0].seg.first
  {
  }

  lemma {:induction false} CutIsPrefix(ss: seq<Segment>, k: nat)
    requires ss != [] && k <= |ss[|ss| - 1].records|
    ensures Concat(ss[..|ss| - 1]) + ss[|ss| - 1].records[..k] <= Concat(ss)
  {
    var n := |ss| - 1;
    ConcatAppend(ss[..n], [ss[n]]);
    OneSegment(ss[n]);
    hide Concat;
    assert ss == ss[..n] + [ss[n]];
  }

  // ── The files a crash leaves, and `open` on them ────────────────────────────

  datatype DiskFile = DiskFile(first: nat, bytes: seq<byte>)

  datatype Recovery = Unreadable(first: nat, error: HeaderError) | Good(ss: seq<Segment>)

  datatype OpenResult = OpenFailed(first: nat, error: HeaderError) | OpenedAs(log: Log)

  /** `recover_truncate` on every file; a file it cannot read ends the whole of `open`. */
  function RecoverFiles(crc: Checksum, disk: seq<DiskFile>): Recovery {
    if disk == [] then Good([])
    else
      var n, f := |disk| - 1, disk[|disk| - 1];
      match RecoverFiles(crc, disk[..n])
      case Unreadable(first, e) => Recovery.Unreadable(first, e)
      case Good(ss) =>
        match ParseHeader(f.bytes)
        case HeaderErr(e) => Recovery.Unreadable(f.first, e)
        case HeaderOk(_, _) => Good(ss + [Wal.Found(crc, f.first, f.bytes)])
  }

  function Open(crc: Checksum, disk: seq<DiskFile>): OpenResult {
    match RecoverFiles(crc, disk)
    case Unreadable(first, e) => OpenFailed(first, e)
    case Good(ss) => OpenedAs(Wal.Opened(ss))
  }

  /** `open` fails exactly if some file has no whole valid header. */
  lemma {:induction false} OpenFailsIff(crc: Checksum, disk: seq<DiskFile>)
    ensures Open(crc, disk).OpenFailed? <==> exists i :: 0 <= i < |disk| && ParseHeader(disk[i].bytes).HeaderErr?
  {
    hide ParseHeader, Scan, Wal.Opened, Wal.Found;
    if disk != [] {
      var n := |disk| - 1;
      OpenFailsIff(crc, disk[..n]);
      if i :| 0 <= i < n && ParseHeader(disk[..n][i].bytes).HeaderErr? { assert ParseHeader(disk[i].bytes).HeaderErr?; }
      if i :| 0 <= i < |disk| && ParseHeader(disk[i].bytes).HeaderErr? {
        if i < n { assert disk[..n][i] == disk[i]; }
      }
    }
  }

  /** Each file cut somewhere past its synced bytes. */
  function CutFiles(crc: Checksum, fs: seq<File>, cuts: seq<nat>): (disk: seq<DiskFile>)
    requires AllFilesOk(fs) && Cuts(fs, cuts)
    ensures |disk| == |fs|
  {
    if fs == [] then []
    else
      var n := |fs| - 1;
      FileLen(crc, fs[n]);
      CutFiles(crc, fs[..n], cuts[..n])
        + [DiskFile(fs[n].seg.first, Wal.FileOf(crc, fs[n].created, fs[n].seg)[..SEGMENT_HEADER_LEN + cuts[n]])]
  }

  /** A crash while a segment is being created may also leave its file, with any part of the header. */
  predicate CrashOk(s: State, cuts: seq<nat>, header: Option<nat>) {
    Cuts(s.files, cuts) && (header.Some? ==> s.holder.Heading? && header.value <= SEGMENT_HEADER_LEN)
  }

  function HeaderFile(h: Holder, n: nat): DiskFile
    requires h.Heading? && h.first < U64 && n <= SEGMENT_HEADER_LEN
  {
    DiskFile(h.first, EncodeHeader(h.first, h.created)[..n])
  }

  /** The directory after a crash. */
  function DiskOf(crc: Checksum, s: State, cuts: seq<nat>, header: Option<nat>): seq<DiskFile>
    requires AllFilesOk(s.files) && CrashOk(s, cuts, header) && (s.holder.Heading? ==> s.holder.first < U64)
  {
    CutFiles(crc, s.files, cuts) + if header.Some? then [HeaderFile(s.holder, header.value)] else []
  }

  lemma {:induction false} TornHeader(first: u64, created: u64, n: nat)
    requires n <= SEGMENT_HEADER_LEN
    ensures ParseHeader(EncodeHeader(first, created)[..n]) ==
            if n < SEGMENT_HEADER_LEN then HeaderErr(Truncated(n)) else HeaderOk(first, created)
  {
    var h := EncodeHeader(first, created);
    if n == SEGMENT_HEADER_LEN {
      HeaderRoundTrip(first, created, []);
      assert h[..n] == h + [];
    }
  }

  /** The files of a crash are recovered to the segments found in them. */
  lemma {:induction false} CutFilesRecover(crc: Checksum, fs: seq<File>, cuts: seq<nat>)
    requires AllFilesOk(fs) && Cuts(fs, cuts)
    ensures RecoverFiles(crc, CutFiles(crc, fs, cuts)) == Good(FoundSegs(crc, fs, cuts))
  {
    if fs != [] {
      var n, f := |fs| - 1, fs[|fs| - 1];
      CutsInit(fs, cuts);
      CutFilesRecover(crc, fs[..n], cuts[..n]);
      CutHeader(crc, f, cuts[n]);
      var disk := CutFiles(crc, fs, cuts);
      assert disk[..n] == CutFiles(crc, fs[..n], cuts[..n]);
      hide ParseHeader, Scan, Wal.FileOf, Wal.Found, AllFilesOk, Cuts;
    }
  }

  lemma {:induction false} CutHeader(crc: Checksum, f: File, n: nat)
    requires FileOk(f) && n <= f.flushed
    ensures |Wal.FileOf(crc, f.created, f.seg)| == SEGMENT_HEADER_LEN + DataLen(f)
    ensures ParseHeader(Wal.FileOf(crc, f.created, f.seg)[..SEGMENT_HEADER_LEN + n]).HeaderOk?
  {
    hide ParseHeader, EncodeHeader, EncodeAll, EncodedLenAll;
    FileLen(crc, f);
    var h, e := EncodeHeader(f.seg.first, f.created), EncodeAll(crc, f.seg.records);
    HeaderRoundTrip(f.seg.first, f.created, e[..n]);
    assert (h + e)[..SEGMENT_HEADER_LEN + n] == h + e[..n];
  }

  /** One more file at the end of the directory. */
  lemma {:induction false} RecoverOneMore(crc: Checksum, disk: seq<DiskFile>, f: DiskFile)
    requires RecoverFiles(crc, disk).Good?
    ensures ParseHeader(f.bytes).HeaderErr? ==> RecoverFiles(crc, disk + [f]).Unreadable?
    ensures ParseHeader(f.bytes).HeaderOk? ==>
              |f.bytes| >= SEGMENT_HEADER_LEN
              && RecoverFiles(crc, disk + [f]) == Good(RecoverFiles(crc, disk).ss + [Wal.Found(crc, f.first, f.bytes)])
  {
    assert (disk + [f])[..|disk|] == disk;
    hide Scan;
  }

  lemma {:induction false} EmptyFound(crc: Checksum, h: Holder)
    requires h.Heading? && h.first < U64
    ensures Wal.Found(crc, h.first, HeaderFile(h, SEGMENT_HEADER_LEN).bytes) == Segment(h.first, [])
  {
    var b := HeaderFile(h, SEGMENT_HEADER_LEN).bytes;
    assert b[SEGMENT_HEADER_LEN..] == [];
    ScanEmpty(crc);
    hide EncodeHeader;
  }

  /** What the invariant says about a crash. */
  lemma {:induction false} CrashFacts(s: State, cuts: seq<nat>, header: Option<nat>)
    requires Inv(s) && CrashOk(s, cuts, header)
    ensures AllFilesOk(s.files) && Cuts(s.files, cuts) && s.durable <= s.pending && |cuts| == |s.files|
    ensures Chained(Segs(s.files)) && EndsAt(Segs(s.files), s.pending) && (s.files == [] ==> s.pending == 0)
    ensures s.holder.Heading? ==> s.holder.first == s.pending < U64 && !HasFile(Segs(s.files), s.holder.first)
    ensures s.holder.Heading? ==> forall i :: 0 <= i < |s.files| ==> cuts[i] == DataLen(s.files[i])
  {
    hide Chained, EndsAt, HasFile, Segs, DataLen, Safe, CapturedOk;
    if s.holder.Heading? { SealedAll(s, cuts); }
  }

  lemma {:induction false} SealedAll(s: State, cuts: seq<nat>)
    requires AllFilesOk(s.files) && Sealed(s) && !s.active && Cuts(s.files, cuts)
    ensures forall i :: 0 <= i < |s.files| ==> cuts[i] == DataLen(s.files[i])
  {
    forall i | 0 <= i < |s.files| ensures cuts[i] == DataLen(s.files[i]) { assert FileOk(s.files[i]); }
  }

  /** Opening a log to whose end an empty segment was added. */
  lemma {:induction false} OpenWithEmpty(ss: seq<Segment>, first: nat)
    requires Chained(ss) && EndsAt(ss, first) && !HasFile(ss, first) && (ss == [] ==> first == 0)
    ensures var st := Wal.Opened(ss + [Segment(first, [])]);
            && SegmentLog.Inv(V1, st) && Concat(st.segments) == Concat(ss) && st.pending == first
            && (ss != [] ==> first == ss[0].first + |Concat(ss)|) && (ss == [] ==> Concat(ss) == [])
  {
    hide Wal.Opened, Chained, HasFile, Concat;
    ChainWithNew(ss, first);
    Wal.OpenKeeps(ss + [Segment(first, [])]);
    Wal.EmptySegmentAddsNothing(ss, first);
    if ss != [] {
      ConcatConsecutive(ss);
      Wal.EndOfChain(ss, first);
    } else {
      NoneConcat();
    }
  }

  lemma {:induction false} NoneConcat()
    ensures Concat([]) == []
  {
  }

  lemma {:induction false} OpenNothing()
    ensures Wal.Opened([]) == Fresh(0) && SegmentLog.Inv(V1, Fresh(0)) && Concat(Fresh(0).segments) == []
  {
  }

  /** What a restart must give: the log contiguous again, a prefix of what was there, going on at or after the
      durable cursor. */
  predicate Restarted(s: State, st: Log) {
    && SegmentLog.Inv(V1, st) && Concat(st.segments) <= Concat(Segs(s.files)) && s.durable <= st.pending
    && st.pending == (if s.files == [] then 0 else s.files[0].seg.first) + |Concat(st.segments)|
  }

  /** Crash at any moment, then `open`: over every run, whatever part of each file past its synced bytes is left and
      whatever part of the header of a segment just being created, `open` fails exactly if that header is there and
      not whole; and otherwise the log it opens is contiguous and has everything below the durable cursor. */
  lemma {:induction false} CrashThenOpen(crc: Checksum, start: State, actions: seq<Action>, s: State, cuts: seq<nat>,
          header: Option<nat>)
    requires Start(start) && Reaches(start, actions, s) && CrashOk(s, cuts, header)
    ensures AllFilesOk(s.files) && (s.holder.Heading? ==> s.holder.first < U64)
    ensures var o := Open(crc, DiskOf(crc, s, cuts, header));
            && (o.OpenFailed? <==> header.Some? && header.value < SEGMENT_HEADER_LEN)
            && (o.OpenedAs? ==> Restarted(s, o.log))
  {
    hide *;
    StartOk(start);
    RunKeeps(start, actions, s);
    CrashFacts(s, cuts, header);
    CutFilesRecover(crc, s.files, cuts);
    HeaderPart(s, cuts, header);
    if header.Some? {
      OpenWithHeader(crc, s, cuts, header.value);
    } else {
      OpenWithout(crc, start, actions, s, cuts, header);
    }
  }

  lemma {:induction false} HeaderPart(s: State, cuts: seq<nat>, header: Option<nat>)
    requires CrashOk(s, cuts, header)
    ensures header.Some? ==> s.holder.Heading? && header.value <= SEGMENT_HEADER_LEN
  {
  }

  lemma {:induction false} OpenWithHeader(crc: Checksum, s: State, cuts: seq<nat>, n: nat)
    requires Inv(s) && CrashOk(s, cuts, Some(n)) && AllFilesOk(s.files) && Cuts(s.files, cuts) && s.holder.Heading?
    requires s.holder.first < U64 && n <= SEGMENT_HEADER_LEN
    ensures var o := Open(crc, DiskOf(crc, s, cuts, Some(n)));
            (o.OpenFailed? <==> n < SEGMENT_HEADER_LEN) && (o.OpenedAs? ==> Restarted(s, o.log))
  {
    CrashFacts(s, cuts, Some(n));
    CutFilesRecover(crc, s.files, cuts);
    var f := HeaderFile(s.holder, n);
    TornHeader(s.holder.first, s.holder.created, n);
    RecoverOneMore(crc, CutFiles(crc, s.files, cuts), f);
    if n == SEGMENT_HEADER_LEN {
      hide *;
      WholeIsFound(crc, s.files, cuts);
      EmptyFound(crc, s.holder);
      SegsOfNone(s.files);
      OpenWithEmpty(Segs(s.files), s.pending);
      RestartedIf(s, Wal.Opened(Segs(s.files) + [Segment(s.pending, [])]));
      OpenIs(crc, s, cuts, n);
    }
    hide Inv, RecoverFiles, CutFiles, Wal.Opened, ParseHeader, EncodeHeader, Restarted;
  }

  lemma {:induction false} OpenIs(crc: Checksum, s: State, cuts: seq<nat>, n: nat)
    requires AllFilesOk(s.files) && CrashOk(s, cuts, Some(n)) && s.holder.first < U64
    ensures DiskOf(crc, s, cuts, Some(n)) == CutFiles(crc, s.files, cuts) + [HeaderFile(s.holder, n)]
    ensures var disk := DiskOf(crc, s, cuts, Some(n));
            RecoverFiles(crc, disk).Good? ==> Open(crc, disk) == OpenedAs(Wal.Opened(RecoverFiles(crc, disk).ss))
  {
    hide RecoverFiles, CutFiles, Wal.Opened, HeaderFile;
  }

  lemma {:induction false} SegsOfNone(fs: seq<File>)
    ensures fs == [] <==> Segs(fs) == []
    ensures fs != [] ==> Segs(fs)[0].first == fs[0].seg.first
  {
  }

  lemma {:induction false} RestartedIf(s: State, st: Log)
    requires SegmentLog.Inv(V1, st) && Concat(st.segments) == Concat(Segs(s.files)) && s.durable <= st.pending
    requires s.files != [] ==> st.pending == s.files[0].seg.first + |Concat(st.segments)|
    requires s.files == [] ==> st.pending == 0 && Concat(st.segments) == []
    ensures Restarted(s, st)
  {
    hide SegmentLog.Inv, Concat, Segs;
  }

  lemma {:induction false} OpenWithout(crc: Checksum, start: State, actions: seq<Action>, s: State, cuts: seq<nat>,
          header: Option<nat>)
    requires Start(start) && Reaches(start, actions, s) && CrashOk(s, cuts, header) && header.None? && Inv(s)
    requires AllFilesOk(s.files) && Cuts(s.files, cuts) && (s.holder.Heading? ==> s.holder.first < U64)
    ensures var o := Open(crc, DiskOf(crc, s, cuts, header)); o.OpenedAs? && Restarted(s, o.log)
  {
    hide *;
    CutFilesRecover(crc, s.files, cuts);
    CrashFacts(s, cuts, header);
    PlainDisk(crc, s, cuts, header);
    if s.files == [] {
      OpenNothing();
      NothingRestarted(crc, s, cuts);
    } else {
      RestartKeepsDurable(crc, start, actions, s, cuts);
      SomethingRestarted(s, Wal.Opened(FoundSegs(crc, s.files, cuts)));
    }
  }

  lemma {:induction false} PlainDisk(crc: Checksum, s: State, cuts: seq<nat>, header: Option<nat>)
    requires AllFilesOk(s.files) && CrashOk(s, cuts, header) && header.None? &&
      (s.holder.Heading? ==> s.holder.first < U64)
    ensures DiskOf(crc, s, cuts, header) == CutFiles(crc, s.files, cuts)
    ensures RecoverFiles(crc, CutFiles(crc, s.files, cuts)).Good? ==>
              Open(crc, DiskOf(crc, s, cuts, header)) ==
                OpenedAs(Wal.Opened(RecoverFiles(crc, CutFiles(crc, s.files, cuts)).ss))
  {
    hide CutFiles, RecoverFiles, Wal.Opened;
    assert CutFiles(crc, s.files, cuts) + [] == CutFiles(crc, s.files, cuts);
  }

  lemma {:induction false} NothingRestarted(crc: Checksum, s: State, cuts: seq<nat>)
    requires s.files == [] && AllFilesOk(s.files) && Cuts(s.files, cuts) && s.durable <= s.pending == 0
    ensures FoundSegs(crc, s.files, cuts) == [] && Restarted(s, Wal.Opened([]))
  {
    OpenNothing();
    hide Wal.Opened, SegmentLog.Inv;
  }

  lemma {:induction false} SomethingRestarted(s: State, st: Log)
    requires s.files != [] && SegmentLog.Inv(V1, st) && Concat(st.segments) <= Concat(Segs(s.files))
    requires s.durable <= st.pending == s.files[0].seg.first + |Concat(st.segments)|
    ensures Restarted(s, st)
  {
    hide SegmentLog.Inv, Concat, Segs;
  }

  /** Every rotation passes through a state from which a crash blocks the next start: the old segment is synced, the
      new file exists, and fewer than all bytes of its header have reached the disk. */
  lemma {:induction false} RotationIsExposed(crc: Checksum, s: State, created: u64, n: nat)
    returns (s': State, cuts: seq<nat>)
    requires Inv(s) && Enabled(s, Seal) && s.files[|s.files| - 1].seg.records != [] && s.pending < U64
    requires n < SEGMENT_HEADER_LEN
    ensures Reaches(s, [Seal, Create(created)], s') && AllFilesOk(s'.files) && CrashOk(s', cuts, Some(n))
    ensures s'.holder.Heading? && s'.holder.first < U64
    ensures Open(crc, DiskOf(crc, s', cuts, Some(n))).OpenFailed?
  {
    StepKeeps(s, Seal);
    var s1 := Next(s, Seal);
    SealedName(s1);
    StepKeeps(s1, Create(created));
    s' := Next(s1, Create(created));
    RunOfTwo(s, Seal, Create(created));
    cuts := AllSynced(s');
    hide *;
    CrashFacts(s', cuts, Some(n));
    OpenWithHeader(crc, s', cuts, n);
  }

  lemma {:induction false} SealedName(s1: State)
    requires Inv(s1) && s1.files != [] && s1.files[|s1.files| - 1].seg.records != []
    ensures !HasFile(Segs(s1.files), s1.pending)
  {
    NameClash(Segs(s1.files), s1.pending);
    hide Chained, HasFile, Segs;
  }

  lemma {:induction false} RunOfTwo(s: State, a: Action, b: Action)
    requires Enabled(s, a) && Enabled(Next(s, a), b)
    ensures Reaches(s, [a, b], Next(Next(s, a), b))
  {
    hide Enabled, Next;
    assert [a, b][1..] == [b] && [b][1..] == [];
    assert Reaches(Next(Next(s, a), b), [], Next(Next(s, a), b));
    assert Reaches(Next(s, a), [b], Next(Next(s, a), b));
  }

  /** Of every file all that was synced. */
  lemma {:induction false} AllSynced(s: State) returns (cuts: seq<nat>)
    requires Inv(s)
    ensures Cuts(s.files, cuts)
  {
    hide Chained, EndsAt, Segs, Safe, CapturedOk, Sealed;
    cuts := seq(|s.files|, i requires 0 <= i < |s.files| => s.files[i].synced);
    assert forall i :: 0 <= i < |s.files| ==> FileOk(s.files[i]);
  }

  // ── What `open` claims ──────────────────────────────────────────────────────

  /** The flushed bytes end inside a record. */
  predicate Torn(f: File) {
    EncodedLenAll(CutSeg(f.seg, f.flushed).records) < f.flushed
  }

  /** The active file as the next process finds it when only the process died: all flushed bytes are there, and
      recovery syncs the file if and only if it has to truncate it. */
  function Reopened(f: File): File {
    var seg := CutSeg(f.seg, f.flushed);
    var n := EncodedLenAll(seg.records);
    File(seg, f.created, n, if Torn(f) then n else f.synced)
  }

  lemma {:induction false} CutFits(rs: seq<Record>, n: nat)
    ensures EncodedLenAll(rs[..WhollyBefore(rs, n)]) <= n
  {
    if rs != [] && n >= EncodedLen(rs[0]) {
      CutFits(rs[1..], n - EncodedLen(rs[0]));
      assert rs[..WhollyBefore(rs, n)][1..] == rs[1..][..WhollyBefore(rs, n) - 1];
    }
  }

  lemma {:induction false} LastClaimsIff(f: File)
    requires FileOk(f)
    ensures var f', x := Reopened(f), Reopened(f).seg.first + |Reopened(f).seg.records|;
            LenBelow(f'.seg, x) <= f'.synced <==> f.synced == f.flushed || Torn(f)
  {
    var f' := Reopened(f);
    var x := f'.seg.first + |f'.seg.records|;
    assert f'.seg.records[..Below(f'.seg, x)] == f'.seg.records;
    CutFits(f.seg.records, f.flushed);
  }

  lemma {:induction false} SealedReopens(f: File, x: nat)
    requires FileOk(f) && f.synced == f.flushed
    ensures LenBelow(Reopened(f).seg, x) <= Reopened(f).synced
  {
    BelowAll(Reopened(f).seg, x);
    CutFits(f.seg.records, f.flushed);
  }

  /** `open` publishes the next cursor as durable without syncing anything. After the death of a process the
      claim is true exactly when the kernel had written the flushed bytes of the last file back by then, or the last
      of them were torn. */
  lemma {:induction false} OpenClaimsIff(s: State)
    requires Inv(s) && s.files != []
    ensures var last := s.files[|s.files| - 1];
            var next := Reopened(last).seg.first + |Reopened(last).seg.records|;
            (forall i :: 0 <= i < |s.files| ==> LenBelow(Reopened(s.files[i]).seg, next) <= Reopened(s.files[i]).synced)
            <==> last.synced == last.flushed || Torn(last)
  {
    var last := s.files[|s.files| - 1];
    var next := Reopened(last).seg.first + |Reopened(last).seg.records|;
    assert FileOk(last);
    LastClaimsIff(last);
    forall i | 0 <= i < |s.files| - 1 ensures LenBelow(Reopened(s.files[i]).seg, next) <= Reopened(s.files[i]).synced {
      assert FileOk(s.files[i]);
      SealedReopens(s.files[i], next);
    }
    hide LenBelow, Reopened, Torn;
  }
}
