/** The publisher: crates/mmbus/src/publisher.rs over the ring and one of the two logs; the object over v0.1.

    Subscribers are other processes, so the cursor table is given anew for each of the two scans of a publish. */
module Publisher {
  import opened Bytes
  import opened WalRecord
  import opened SegmentLog
  import opened RingBuffer
  import RingProtocol
  import Wakeup
  import Wal
  import WalV2

  type Payload = RingProtocol.Payload
  type Policy = RingProtocol.Policy

  const MAX_TAIL: nat := RingProtocol.MAX_TAIL

  /** The log the crate was built with. */
  datatype AnyLog = One(log: Log) | Two(state: WalV2.State) {
    /** The index that both keep. */
    function Index(): Log { if One? then log else state.log }

    function Layout(): Layout { if One? then V1 else V2 }
  }

  function LogAppended(cfg: Config, a: AnyLog, r: Record): (AnyLog, Outcome) {
    match a
    case One(st) => var (st', o) := Wal.Appended(cfg, st, r); (One(st'), o)
    case Two(st) => var (st', o) := WalV2.Appended(cfg, st, r); (Two(st'), o)
  }

  datatype State = State(ring: Contents, wal: Option<AnyLog>)

  /** A message, its timestamp, and the cursor table as the full check and then the ring write find it. */
  datatype Item = Item(data: Payload, ts: u64, before: seq<u64>, after: seq<u64>)

  datatype Verdict = Accepted | TooLarge | RingFull | WalFailed(o: Outcome)

  function Moved(s: State, cursors: seq<u64>): State { s.(ring := s.ring.(cursors := cursors)) }

  function IntoRing(policy: Policy, s: State, d: Payload): (State, Verdict) {
    if policy.DropOldest? then (s.(ring := Published(s.ring, d)), Accepted)
    else
      var (r, ok) := TryPublished(s.ring, d);
      (s.(ring := r), if ok then Accepted else RingFull)
  }

  /** The log's part of a publish: the full check, then the append; a verdict if it ends there. */
  function LogOne(cfg: Config, policy: Policy, s: State, it: Item): (State, Option<Verdict>)
    requires Tail(s.ring) < MAX_TAIL
  {
    if s.wal.None? then (s, None)
    else if policy.Error? && Saturated(Moved(s, it.before).ring) then (Moved(s, it.before), Some(RingFull))
    else
      var (w, o) := LogAppended(cfg, s.wal.value, Record(Tail(s.ring), it.ts, it.data));
      (Moved(s, it.before).(wal := Some(w)), if o != Done then Some(WalFailed(o)) else None)
  }

  /** One message: size check, then the log, then the ring. */
  function PublishOne(cfg: Config, policy: Policy, s: State, it: Item): (State, Verdict)
    requires Tail(s.ring) < MAX_TAIL
  {
    if |it.data| > s.ring.payloadSize then (s, TooLarge)
    else
      var (s1, o) := LogOne(cfg, policy, s, it);
      if o.Some? then (s1, o.value) else IntoRing(policy, Moved(s1, it.after), it.data)
  }

  datatype BatchResult = Sent(count: nat) | Failed(error: Verdict, count: nat)

  function Counted(r: BatchResult): BatchResult {
    match r
    case Sent(n) => Sent(n + 1)
    case Failed(e, n) => Failed(e, n + 1)
  }

  /** `publish_many`: a full ring ends the batch, any other refusal fails it. */
  function PublishBatch(cfg: Config, policy: Policy, s: State, items: seq<Item>): (State, BatchResult)
    requires Tail(s.ring) + |items| < MAX_TAIL
    decreases |items|
  {
    if items == [] then (s, Sent(0))
    else
      var (s1, v) := PublishOne(cfg, policy, s, items[0]);
      match v
      case Accepted =>
        var (s2, r) := PublishBatch(cfg, policy, s1, items[1..]);
        (s2, Counted(r))
      case RingFull => (s1, Sent(0))
      case TooLarge => (s1, Failed(v, 0))
      case WalFailed(_) => (s1, Failed(v, 0))
  }

  /** The result of a batch of which `n` messages were already published. */
  function Plus(r: (State, BatchResult), n: nat): (State, BatchResult) {
    (r.0, match r.1 case Sent(k) => Sent(n + k) case Failed(e, k) => Failed(e, n + k))
  }

  // ── Without a log ───────────────────────────────────────────────────────────

  /** A ring and the next message, as the write finds them. */
  ghost predicate Takes(policy: Policy, v: Contents, it: Item) {
    |it.data| <= v.payloadSize && (policy.DropOldest? || !Refuses(it.after, Tail(v), v.capacity))
  }

  /** A publish without a log: the message goes through exactly if it fits a slot and, under the Error policy, no
      subscriber is a lap behind and not all of them are ahead; then it is the one thing that is added. */
  lemma {:induction false} NoLogOne(cfg: Config, policy: Policy, s: State, it: Item)
    requires s.wal.None? && 0 < s.ring.capacity < U32 && Tail(s.ring) < MAX_TAIL && Sane(it.after)
    ensures var (s', v) := PublishOne(cfg, policy, s, it);
            && (v == Accepted <==> Takes(policy, s.ring, it))
            && (v == TooLarge <==> |it.data| > s.ring.payloadSize)
            && (v == Accepted || v == TooLarge || v == RingFull)
            && s' == if v == TooLarge then s
                     else s.(ring := s.ring.(cursors := it.after,
                                             log := s.ring.log + if v == Accepted then [it.data] else []))
  {
    var u := Moved(s, it.after).ring;
    RefusesIff(u);
    hide Saturated, Refuses, Sane;
    assert s.ring.log + [] == s.ring.log;
  }

  /** A batch without a log: the ring gets exactly the first `count` messages, each of which it takes, and the one
      after them, if there is one, it does not: a message too large fails the batch, a full ring ends it. */
  lemma {:induction false} NoLogBatch(cfg: Config, policy: Policy, s: State, items: seq<Item>)
    requires s.wal.None? && 0 < s.ring.capacity < U32 && Tail(s.ring) + |items| < MAX_TAIL
    requires forall k :: 0 <= k < |items| ==> Sane(items[k].after)
    ensures var (s', r) := PublishBatch(cfg, policy, s, items);
            && r.count <= |items| && s'.wal.None?
            && s'.ring == s.ring.(cursors := s'.ring.cursors, log := s.ring.log + Datas(items[..r.count]))
            && (forall k :: 0 <= k < r.count ==> Takes(policy, WithFirst(s.ring, items, k), items[k]))
            && (r.count < |items| ==> !Takes(policy, s'.ring, items[r.count]))
            && (r.Failed? ==> r.error == TooLarge)
            && (r.Failed? <==> r.count < |items| && |items[r.count].data| > s.ring.payloadSize)
    decreases |items|
  {
    hide *;
    if items == [] {
      BatchNone(cfg, policy, s, items);
    } else {
      var it, rest := items[0], items[1..];
      NoLogOne(cfg, policy, s, it);
      BatchStep(cfg, policy, s, items);
      var (s1, v) := PublishOne(cfg, policy, s, it);
      DatasNone(items);
      WithNone(s.ring, items);
      if v == Accepted {
        NoLogBatch(cfg, policy, s1, rest);
        var (s', r) := PublishBatch(cfg, policy, s1, rest);
        DatasStep(items, r.count);
        Regroup(s.ring.log, [it.data], Datas(rest[..r.count]));
        FlippedLater(policy, items, s', r);
        forall k | 0 <= k < r.count + 1 ensures Takes(policy, WithFirst(s.ring, items, k), items[k]) {
          if k > 0 {
            WithMore(s.ring, items, k - 1);
            WithTable(s.ring.(log := s.ring.log + [it.data]), it.after, rest, k - 1);
            TakesSame(policy, WithFirst(s1.ring, rest, k - 1), WithFirst(s.ring, items, k), items[k]);
          } else {
            TakesSame(policy, s.ring, WithFirst(s.ring, items, 0), it);
          }
        }
      } else {
        TakesSame(policy, s.ring, s1.ring, it);
      }
    }
  }

  /** The ring with the first `k` messages of a batch. */
  function WithFirst(v: Contents, items: seq<Item>, k: nat): Contents
    requires k <= |items|
  {
    v.(log := v.log + Datas(items[..k]))
  }

  lemma {:induction false} WithNone(v: Contents, items: seq<Item>)
    ensures WithFirst(v, items, 0) == v
  {
    assert v.log + [] == v.log;
  }

  lemma {:induction false} WithMore(v: Contents, items: seq<Item>, k: nat)
    requires k < |items|
    ensures WithFirst(v, items, k + 1)
            == WithFirst(v.(log := v.log + [items[0].data]), items[1..], k)
  {
    DatasStep(items, k);
    hide Datas;
    Regroup(v.log, [items[0].data], Datas(items[1..][..k]));
  }

  lemma {:induction false} WithTable(v: Contents, cursors: seq<u64>, items: seq<Item>, k: nat)
    requires k <= |items|
    ensures WithFirst(v.(cursors := cursors), items, k) == WithFirst(v, items, k).(cursors := cursors)
  {
  }

  /** The cursor table of the ring itself does not matter, the write finds its own. */
  lemma {:induction false} TakesSame(policy: Policy, v: Contents, u: Contents, it: Item)
    requires u == v.(cursors := u.cursors)
    ensures Takes(policy, u, it) <==> Takes(policy, v, it)
  {
    hide Refuses;
  }

  // ── Lockstep ────────────────────────────────────────────────────────────────

  /** Every record of the log is the message at its position of the ring; those from before a restart are older
      than the ring. */
  predicate Mirrors(rs: seq<Record>, v: Contents) {
    forall i :: 0 <= i < |rs| ==>
      rs[i].cursor < Tail(v) && (rs[i].cursor >= v.base ==> rs[i].payload == v.log[rs[i].cursor - v.base])
  }

  /** The log can be appended to. */
  predicate Open(cfg: Config, a: AnyLog) {
    (if a.One? then Inv(V1, a.log) else WalV2.Inv2(cfg, a.state)) && !Wal.Wedged(a.Index())
  }

  /** The log ends at the ring's tail and mirrors the ring. */
  predicate Lockstep(cfg: Config, s: State) {
    s.wal.Some? ==> Mirror(cfg, s.wal.value, s.ring)
  }

  predicate Mirror(cfg: Config, a: AnyLog, v: Contents) {
    Open(cfg, a) && a.Index().pending == Tail(v) && Mirrors(Concat(a.Index().segments), v)
  }

  /** The bytes of a record that fills a slot. */
  function SlotBytes(l: Layout, n: nat): nat { if l.V1? then RECORD_FRAMING + n else Align8(RECORD_FRAMING + n) }

  lemma {:induction false} SlotBytesCover(l: Layout, n: nat, r: Record)
    requires |r.payload| <= n
    ensures RecordBytes(l, r) <= SlotBytes(l, n)
  {
  }

  /** Whatever fits a slot fits a record and a fresh segment of this log. */
  predicate Roomy(cfg: Config, s: State) {
    && s.wal.Some? && cfg.layout == s.wal.value.Layout()
    && 0 < s.ring.capacity < U32 && s.ring.payloadSize <= MAX_PAYLOAD_LEN
    && SEGMENT_HEADER_LEN + SlotBytes(cfg.layout, s.ring.payloadSize) <= cfg.segmentSizeMax
  }

  /** The second scan of a publish finds the ring full although the first did not. */
  predicate FlipsFull(policy: Policy, s: State, it: Item) {
    policy.Error? && !Saturated(Moved(s, it.before).ring) && Saturated(Moved(s, it.after).ring)
  }

  lemma {:induction false} MirrorsGrow(rs: seq<Record>, rs': seq<Record>, v: Contents, r: Record)
    requires Mirrors(rs, v) && Wal.Suffix(rs', rs + [r]) && r.cursor == Tail(v)
    ensures Mirrors(rs', Published(v, r.payload))
  {
    var k := |rs| + 1 - |rs'|;
    forall i | 0 <= i < |rs'|
      ensures rs'[i].cursor < Tail(v) + 1 &&
        (rs'[i].cursor >= v.base ==> rs'[i].payload == (v.log + [r.payload])[rs'[i].cursor - v.base])
    {
      assert rs'[i] == (rs + [r])[k + i];
    }
  }

  lemma {:induction false} MirrorsMoved(rs: seq<Record>, v: Contents, cursors: seq<u64>)
    requires Mirrors(rs, v)
    ensures Mirrors(rs, v.(cursors := cursors))
  {
  }

  /** The log that has the message as its newest record, and of the older segments as many as fit. */
  predicate Logged(cfg: Config, s: State, it: Item, w: AnyLog)
    requires s.wal.Some? && Tail(s.ring) < MAX_TAIL
  {
    Trimmed(cfg, WithRecord(cfg, s.wal.value.Index().segments, Record(Tail(s.ring), it.ts, it.data)),
            w.Index().segments)
  }

  lemma {:induction false} LogTakes(cfg: Config, s: State, it: Item)
    requires Roomy(cfg, s) && Lockstep(cfg, s) && |it.data| <= s.ring.payloadSize && Tail(s.ring) < MAX_TAIL
    ensures Logged(cfg, s, it, LogAppended(cfg, s.wal.value, Record(Tail(s.ring), it.ts, it.data)).0)
  {
    var a, r := s.wal.value, Record(Tail(s.ring), it.ts, it.data);
    SlotBytesCover(cfg.layout, s.ring.payloadSize, r);
    if a.One? { Wal.AppendExact(cfg, a.log, r); } else { WalV2.AppendExact(cfg, a.state, r); }
    hide Inv, WalV2.Inv2, Trimmed, WithRecord, Wal.Appended, WalV2.Appended, Mirrors, RecordBytes, SlotBytes;
  }

  /** The log takes the message: it can always take one that fits a slot. */
  lemma {:induction false} WalTakes(cfg: Config, s: State, it: Item)
    requires Roomy(cfg, s) && Lockstep(cfg, s) && |it.data| <= s.ring.payloadSize && Tail(s.ring) + 1 < MAX_TAIL
    ensures var (w, o) := LogAppended(cfg, s.wal.value, Record(Tail(s.ring), it.ts, it.data));
            o == Done && w.Layout() == cfg.layout && Mirror(cfg, w, Published(s.ring, it.data))
  {
    var a, r := s.wal.value, Record(Tail(s.ring), it.ts, it.data);
    SlotBytesCover(cfg.layout, s.ring.payloadSize, r);
    if a.One? { Wal.AppendNext(cfg, a.log, r); } else { WalV2.AppendNext(cfg, a.state, r); }
    hide Inv, WalV2.Inv2, Concat, Wal.Appended, WalV2.Appended, Mirrors, RecordBytes, SlotBytes;
    MirrorsGrow(Concat(a.Index().segments), Concat(LogAppended(cfg, a, r).0.Index().segments), s.ring, r);
  }

  /** One publish and lockstep, over either log: a refusal adds nothing to either side and an acceptance the message
      to both, except when the second scan finds the ring full although the first did not. Then, and only then, the
      log is one record ahead of the ring. */
  lemma {:induction false} OneKeeps(cfg: Config, policy: Policy, s: State, it: Item)
    requires Roomy(cfg, s) && Lockstep(cfg, s) && Tail(s.ring) + 1 < MAX_TAIL
    ensures var (s', v) := PublishOne(cfg, policy, s, it);
            && !v.WalFailed? && s'.ring.base == s.ring.base && Roomy(cfg, s')
            && s'.ring.payloadSize == s.ring.payloadSize && s'.ring.capacity == s.ring.capacity
            && (v == TooLarge <==> |it.data| > s.ring.payloadSize) && (v == TooLarge ==> s' == s)
            && (v == Accepted ==> s'.ring.log == s.ring.log + [it.data])
            && (v == RingFull ==> s'.ring.log == s.ring.log)
            && (v == RingFull <==> policy.Error? && |it.data| <= s.ring.payloadSize
                                   && (Saturated(Moved(s, it.before).ring) || Saturated(Moved(s, it.after).ring)))
            && (if v == Accepted || (v == RingFull && FlipsFull(policy, s, it)) then Logged(cfg, s, it, s'.wal.value)
                else s'.wal == s.wal)
            && (v == RingFull && !FlipsFull(policy, s, it) ==>
                  s' == Moved(s, it.before) && Saturated(Moved(s, it.before).ring))
            && (v != TooLarge ==> (Lockstep(cfg, s') <==> !FlipsFull(policy, s, it)))
            && (v != TooLarge && FlipsFull(policy, s, it) ==>
                  v == RingFull && s'.wal.value.Index().pending == Tail(s'.ring) + 1)
  {
    hide Lockstep, LogOne, IntoRing, Saturated, Logged;
    if |it.data| <= s.ring.payloadSize {
      LogPart(cfg, policy, s, it);
      LockstepMoved(cfg, s, it.before);
      var (s1, o) := LogOne(cfg, policy, s, it);
      if o.None? {
        RingPart(cfg, policy, s1, it);
        SameScan(s, s1, it.after);
      }
    }
  }

  /** The log either refuses because the ring is full, or takes the message and is one ahead of the ring. */
  lemma {:induction false} LogPart(cfg: Config, policy: Policy, s: State, it: Item)
    requires Roomy(cfg, s) && Lockstep(cfg, s) && |it.data| <= s.ring.payloadSize && Tail(s.ring) + 1 < MAX_TAIL
    ensures var (s1, o) := LogOne(cfg, policy, s, it);
            && s1.ring == Moved(s, it.before).ring && s1.wal.Some?
            && (if policy.Error? && Saturated(Moved(s, it.before).ring) then
                  s1 == Moved(s, it.before) && o == Some(RingFull)
                else
                  && o == None && AheadBy(cfg, s1, it.data) && s1.wal.value.Layout() == cfg.layout
                  && Logged(cfg, s, it, s1.wal.value))
  {
    WalTakes(cfg, s, it);
    LogTakes(cfg, s, it);
    hide Mirror, LogAppended, Saturated, Lockstep, Logged;
    MirrorMoved(cfg, LogAppended(cfg, s.wal.value, Record(Tail(s.ring), it.ts, it.data)).0, Published(s.ring, it.data),
      it.before);
    assert Published(s.ring, it.data).(cursors := it.before) == Published(Moved(s, it.before).ring, it.data);
  }

  /** The log holds one more message than the ring. */
  predicate AheadBy(cfg: Config, s: State, d: Payload) { s.wal.Some? && Mirror(cfg, s.wal.value, Published(s.ring, d)) }

  lemma {:induction false} MirrorMoved(cfg: Config, a: AnyLog, v: Contents, cursors: seq<u64>)
    requires Mirror(cfg, a, v)
    ensures Mirror(cfg, a, v.(cursors := cursors))
  {
    MirrorsMoved(Concat(a.Index().segments), v, cursors);
    hide Open, Concat, Mirrors;
  }

  lemma {:induction false} LockstepMoved(cfg: Config, s: State, cursors: seq<u64>)
    requires Lockstep(cfg, s)
    ensures Lockstep(cfg, Moved(s, cursors))
  {
    hide Mirror;
    if s.wal.Some? { MirrorMoved(cfg, s.wal.value, s.ring, cursors); }
  }

  lemma {:induction false} SameScan(s: State, s1: State, cursors: seq<u64>)
    requires s1.ring == s.ring.(cursors := s1.ring.cursors)
    ensures Moved(s1, cursors).ring == Moved(s, cursors).ring
  {
  }

  /** The ring catches up, or leaves the log ahead. */
  lemma {:induction false} RingPart(cfg: Config, policy: Policy, s: State, it: Item)
    requires AheadBy(cfg, s, it.data)
    ensures var (s', v) := IntoRing(policy, Moved(s, it.after), it.data);
            && s'.wal == s.wal && s'.ring.base == s.ring.base && s'.ring.payloadSize == s.ring.payloadSize
            && s'.ring.capacity == s.ring.capacity
            && (if policy.Error? && Saturated(Moved(s, it.after).ring) then
                  v == RingFull && s'.ring.log == s.ring.log && !Lockstep(cfg, s')
                  && s'.wal.value.Index().pending == Tail(s'.ring) + 1
                else v == Accepted && s'.ring.log == s.ring.log + [it.data] && Lockstep(cfg, s'))
  {
    MirrorMoved(cfg, s.wal.value, Published(s.ring, it.data), it.after);
    hide Open, Concat, Mirrors, Saturated;
    assert Published(s.ring, it.data).(cursors := it.after) == Published(Moved(s, it.after).ring, it.data);
  }

  // ── Batches ─────────────────────────────────────────────────────────────────

  /** Between the two scans no cursor is claimed or moved back, and none is moved past the tail. */
  predicate Calm(it: Item, tail: nat) {
    && |it.before| == |it.after|
    && (forall i :: 0 <= i < |it.before| ==> it.before[i] == UNCLAIMED || it.before[i] <= MAX_TAIL)
    && forall i :: 0 <= i < |it.after| ==>
         it.after[i] == UNCLAIMED || (it.before[i] != UNCLAIMED && it.before[i] <= it.after[i] <= tail)
  }

  lemma {:induction false} CalmDoesNotFlip(policy: Policy, s: State, it: Item)
    requires 0 < s.ring.capacity < U32 && Tail(s.ring) < MAX_TAIL && Calm(it, Tail(s.ring))
    ensures !FlipsFull(policy, s, it)
  {
    var a, b := Moved(s, it.before).ring, Moved(s, it.after).ring;
    assert Tail(a) == Tail(s.ring) == Tail(b);
    SaturatedIff(a);
    SaturatedIff(b);
    MinCursorIs(it.before);
    MinCursorIs(it.after);
    hide Saturated, MinCursor;
    if MinCursor(it.after).Some? {
      var i :| 0 <= i < |it.after| && it.after[i] == MinCursor(it.after).value;
      assert it.before[i] != UNCLAIMED;
    }
  }

  function Datas(items: seq<Item>): (ds: seq<Payload>)
    ensures |ds| == |items|
  {
    if items == [] then [] else [items[0].data] + Datas(items[1..])
  }

  /** The message that ended a batch flipped the ring full between its two scans. */
  predicate Flipped(policy: Policy, items: seq<Item>, s': State, r: BatchResult) {
    r.Sent? && r.count < |items| && FlipsFull(policy, s', items[r.count])
  }

  /** Any batch: the ring gets exactly the first `count` messages, and so does the log, except that it is one record
      ahead exactly if the message after them flipped the ring full between its two scans. The batch stops early
      only at a full ring, and fails only at a message too large for a slot. */
  lemma {:induction false} BatchExact(cfg: Config, policy: Policy, s: State, items: seq<Item>)
    requires Roomy(cfg, s) && Lockstep(cfg, s) && Tail(s.ring) + |items| < MAX_TAIL
    ensures var (s', r) := PublishBatch(cfg, policy, s, items);
            && Roomy(cfg, s') && r.count <= |items|
            && s'.ring.base == s.ring.base && s'.ring.log == s.ring.log + Datas(items[..r.count])
            && (Lockstep(cfg, s') <==> !Flipped(policy, items, s', r))
            && (Flipped(policy, items, s', r) ==> s'.wal.value.Index().pending == Tail(s'.ring) + 1)
            && (r.Sent? && r.count < |items| ==>
                  policy.Error? && |items[r.count].data| <= s.ring.payloadSize
                  && (Saturated(Moved(s', items[r.count].before).ring) || Flipped(policy, items, s', r)))
            && (r.Failed? ==> r.count < |items| && r.error == TooLarge && |items[r.count].data| > s.ring.payloadSize)
    decreases |items|
  {
    hide *;
    if items == [] {
      BatchNone(cfg, policy, s, items);
    } else {
      var it, rest := items[0], items[1..];
      var (s1, v) := PublishOne(cfg, policy, s, it);
      OneKeeps(cfg, policy, s, it);
      BatchStep(cfg, policy, s, items);
      if v == Accepted {
        AcceptedDoesNotFlip(cfg, policy, s, it);
        TailGrows(s.ring, s1.ring, it.data);
        BatchExact(cfg, policy, s1, rest);
        var (s', r) := PublishBatch(cfg, policy, s1, rest);
        DatasStep(items, r.count);
        Regroup(s.ring.log, [it.data], Datas(rest[..r.count]));
        FlippedLater(policy, items, s', r);
      } else {
        DatasNone(items);
        assert s.ring.log + [] == s.ring.log;
        FlippedNow(policy, s, s1, items);
      }
    }
  }

  lemma {:induction false} AcceptedDoesNotFlip(cfg: Config, policy: Policy, s: State, it: Item)
    requires Roomy(cfg, s) && Lockstep(cfg, s) && Tail(s.ring) + 1 < MAX_TAIL &&
      PublishOne(cfg, policy, s, it).1 == Accepted
    ensures Lockstep(cfg, PublishOne(cfg, policy, s, it).0)
  {
    OneKeeps(cfg, policy, s, it);
    hide *;
  }

  /** The rest of a batch ends where the batch ends. */
  lemma {:induction false} FlippedLater(policy: Policy, items: seq<Item>, s': State, r: BatchResult)
    requires items != [] && r.count <= |items[1..]|
    ensures Counted(r).count == r.count + 1 && (Counted(r).Sent? <==> r.Sent?) &&
      (r.Failed? ==> Counted(r).error == r.error)
    ensures Flipped(policy, items, s', Counted(r)) <==> Flipped(policy, items[1..], s', r)
    ensures r.count < |items| - 1 ==> items[r.count + 1] == items[1..][r.count]
  {
    hide FlipsFull;
  }

  /** The scans look at the tail and the table only, so a refused message is judged by the state it leaves. */
  lemma {:induction false} FlippedNow(policy: Policy, s: State, s1: State, items: seq<Item>)
    requires items != [] && s1.ring.base == s.ring.base && s1.ring.log == s.ring.log
    requires s1.ring.capacity == s.ring.capacity && s1.ring.payloadSize == s.ring.payloadSize
    ensures Flipped(policy, items, s1, Sent(0)) <==> FlipsFull(policy, s, items[0])
    ensures !Flipped(policy, items, s1, Failed(TooLarge, 0))
    ensures Saturated(Moved(s1, items[0].before).ring) <==> Saturated(Moved(s, items[0].before).ring)
  {
    hide MinCursor;
  }

  /** The records of a batch that starts at position `tail`. */
  function RecordsOf(items: seq<Item>, tail: nat): (rs: seq<Record>)
    requires tail + |items| <= MAX_TAIL
    ensures |rs| == |items|
  {
    if items == [] then [] else [Record(tail, items[0].ts, items[0].data)] + RecordsOf(items[1..], tail + 1)
  }

  /** How many messages of a batch the log got. */
  function LoggedCount(policy: Policy, items: seq<Item>, s': State, r: BatchResult): nat {
    if Flipped(policy, items, s', r) then r.count + 1 else r.count
  }

  /** The records of the log. */
  function Held(s: State): seq<Record> { if s.wal.Some? then Concat(s.wal.value.Index().segments) else [] }

  /** What the log of a batch holds: the end of what it held, with the messages, positions and timestamps of the batch
      behind it, the last of them included. */
  lemma {:induction false} BatchLogs(cfg: Config, policy: Policy, s: State, items: seq<Item>)
    requires Roomy(cfg, s) && Lockstep(cfg, s) && Tail(s.ring) + |items| < MAX_TAIL
    ensures var (s', r) := PublishBatch(cfg, policy, s, items);
            var n := LoggedCount(policy, items, s', r);
            && n <= |items| && Wal.Suffix(Held(s'), Held(s) + RecordsOf(items[..n], Tail(s.ring)))
            && if n > 0 then Held(s') != [] else s'.wal == s.wal
    decreases |items|
  {
    hide *;
    BatchExact(cfg, policy, s, items);
    var (s', r) := PublishBatch(cfg, policy, s, items);
    CountIs(policy, items, s', r);
    if items == [] {
      BatchNone(cfg, policy, s, items);
      NoneLogged(s, s, items);
    } else {
      var it, rest := items[0], items[1..];
      var (s1, v) := PublishOne(cfg, policy, s, it);
      OneKeeps(cfg, policy, s, it);
      BatchStep(cfg, policy, s, items);
      RoomyHasLog(cfg, s);
      RoomyHasLog(cfg, s1);
      if v == Accepted {
        AcceptedDoesNotFlip(cfg, policy, s, it);
        TailGrows(s.ring, s1.ring, it.data);
        LoggedEnds(cfg, s, it, s1);
        BatchLogs(cfg, policy, s1, rest);
        BatchExact(cfg, policy, s1, rest);
        var (s2, q) := PublishBatch(cfg, policy, s1, rest);
        FlippedLater(policy, items, s', q);
        CountIs(policy, rest, s2, q);
        LoggedMore(s, it, s1, rest, LoggedCount(policy, rest, s2, q), s');
        RecordsMore(items, Tail(s.ring), LoggedCount(policy, rest, s2, q));
      } else {
        FlippedNow(policy, s, s1, items);
        if v == RingFull && FlipsFull(policy, s, it) {
          LoggedEnds(cfg, s, it, s1);
          RecordsFirst(items, Tail(s.ring));
        } else {
          NoneLogged(s, s1, items);
        }
      }
    }
  }

  lemma {:induction false} CountIs(policy: Policy, items: seq<Item>, s': State, r: BatchResult)
    requires r.count <= |items|
    ensures LoggedCount(policy, items, s', r) == if Flipped(policy, items, s', r) then r.count + 1 else r.count
    ensures LoggedCount(policy, items, s', r) <= |items|
  {
    hide FlipsFull;
  }

  lemma {:induction false} RoomyHasLog(cfg: Config, s: State)
    requires Roomy(cfg, s)
    ensures s.wal.Some?
  {
  }

  lemma {:induction false} RecordsNone(items: seq<Item>, tail: nat)
    requires tail <= MAX_TAIL
    ensures RecordsOf(items[..0], tail) == []
  {
  }

  lemma {:induction false} RecordsMore(items: seq<Item>, tail: nat, n: nat)
    requires n < |items| && tail + |items| <= MAX_TAIL
    ensures RecordsOf(items[..n + 1], tail)
            == [Record(tail, items[0].ts, items[0].data)] + RecordsOf(items[1..][..n], tail + 1)
  {
    assert items[..n + 1][1..] == items[1..][..n];
  }

  lemma {:induction false} RecordsFirst(items: seq<Item>, tail: nat)
    requires items != [] && tail + |items| <= MAX_TAIL
    ensures RecordsOf(items[..1], tail) == [Record(tail, items[0].ts, items[0].data)]
  {
    RecordsMore(items, tail, 0);
    RecordsNone(items[1..], tail + 1);
    hide RecordsOf;
  }

  lemma {:induction false} NoneLogged(s: State, s': State, items: seq<Item>)
    requires s'.wal == s.wal && Tail(s.ring) <= MAX_TAIL
    ensures Wal.Suffix(Held(s'), Held(s) + RecordsOf(items[..0], Tail(s.ring)))
  {
    RecordsNone(items, Tail(s.ring));
    hide Concat, RecordsOf;
    assert Held(s) + [] == Held(s);
  }

  lemma {:induction false} LoggedEnds(cfg: Config, s: State, it: Item, s': State)
    requires s.wal.Some? && s'.wal.Some? && Tail(s.ring) < MAX_TAIL && Logged(cfg, s, it, s'.wal.value)
    ensures Wal.Suffix(Held(s'), Held(s) + [Record(Tail(s.ring), it.ts, it.data)]) && Held(s') != []
  {
    hide Concat, Trimmed, WithRecord;
    Wal.TrimmedEnds(cfg, s.wal.value.Index().segments, Record(Tail(s.ring), it.ts, it.data),
                    s'.wal.value.Index().segments);
  }

  /** One message and then the rest of a batch. */
  lemma {:induction false} LoggedMore(s: State, it: Item, s1: State, rest: seq<Item>, n: nat, s': State)
    requires Tail(s1.ring) == Tail(s.ring) + 1 && Tail(s1.ring) + |rest| <= MAX_TAIL && n <= |rest|
    requires Wal.Suffix(Held(s1), Held(s) + [Record(Tail(s.ring), it.ts, it.data)]) && Held(s1) != []
    requires Wal.Suffix(Held(s'), Held(s1) + RecordsOf(rest[..n], Tail(s1.ring)))
    requires if n > 0 then Held(s') != [] else s'.wal == s1.wal
    ensures Wal.Suffix(Held(s'), Held(s) + ([Record(Tail(s.ring), it.ts, it.data)]
                                            + RecordsOf(rest[..n], Tail(s.ring) + 1)))
    ensures Held(s') != []
  {
    hide RecordsOf, Concat, Wal.Suffix;
    var r, more := Record(Tail(s.ring), it.ts, it.data), RecordsOf(rest[..n], Tail(s1.ring));
    SuffixJoins(Held(s1), Held(s) + [r], more, Held(s'));
    Regroup(Held(s), [r], more);
  }

  lemma {:induction false} SuffixJoins<T>(a: seq<T>, b: seq<T>, x: seq<T>, c: seq<T>)
    requires Wal.Suffix(a, b) && Wal.Suffix(c, a + x)
    ensures Wal.Suffix(c, b + x)
  {
    assert (b + x)[|b| - |a|..] == a + x;
  }

  /** A calm batch ends in lockstep. */
  lemma {:induction false} BatchKeeps(cfg: Config, policy: Policy, s: State, items: seq<Item>)
    requires Roomy(cfg, s) && Lockstep(cfg, s) && Tail(s.ring) + |items| < MAX_TAIL
    requires forall k :: 0 <= k < |items| ==> Calm(items[k], Tail(s.ring) + k)
    ensures var (s', r) := PublishBatch(cfg, policy, s, items);
            && Lockstep(cfg, s') && s'.wal.Some? && r.count <= |items|
            && s'.ring.base == s.ring.base && s'.ring.log == s.ring.log + Datas(items[..r.count])
            && (r.Sent? && r.count < |items| ==>
                  policy.Error? && Saturated(Moved(s', items[r.count].before).ring))
  {
    BatchExact(cfg, policy, s, items);
    var (s', r) := PublishBatch(cfg, policy, s, items);
    hide Lockstep, Saturated, Calm, PublishBatch;
    if r.Sent? && r.count < |items| {
      assert Calm(items[r.count], Tail(s.ring) + r.count);
      assert Tail(s'.ring) == Tail(s.ring) + r.count;
      CalmDoesNotFlip(policy, s', items[r.count]);
    }
  }

  lemma {:induction false} BatchNone(cfg: Config, policy: Policy, s: State, items: seq<Item>)
    requires items == [] && Tail(s.ring) < MAX_TAIL
    ensures forall s', r :: r == Sent(0) ==> !Flipped(policy, items, s', r)
    ensures PublishBatch(cfg, policy, s, items) == (s, Sent(0)) && Datas(items[..0]) == [] &&
      s.ring.log + [] == s.ring.log
  {
  }

  lemma {:induction false} BatchStep(cfg: Config, policy: Policy, s: State, items: seq<Item>)
    requires items != [] && Tail(s.ring) + |items| < MAX_TAIL
    ensures var (s1, v) := PublishOne(cfg, policy, s, items[0]);
            && (v == Accepted ==>
                  && Tail(s1.ring) + |items[1..]| < MAX_TAIL
                  && var (s2, r) := PublishBatch(cfg, policy, s1, items[1..]);
                  PublishBatch(cfg, policy, s, items) == (s2, Counted(r)))
            && (v == RingFull ==> PublishBatch(cfg, policy, s, items) == (s1, Sent(0)))
            && (v == TooLarge ==> PublishBatch(cfg, policy, s, items) == (s1, Failed(v, 0)))
  {
    hide LogAppended, Saturated;
  }

  lemma {:induction false} TailGrows(v: Contents, v': Contents, d: Payload)
    requires v'.base == v.base && v'.log == v.log + [d]
    ensures Tail(v') == Tail(v) + 1
  {
  }

  lemma {:induction false} DatasStep(items: seq<Item>, n: nat)
    requires items != [] && n < |items|
    ensures Datas(items[..n + 1]) == [items[0].data] + Datas(items[1..][..n])
  {
    assert items[..n + 1][1..] == items[1..][..n];
  }

  lemma {:induction false} DatasNone(items: seq<Item>)
    ensures Datas(items[..0]) == []
  {
  }

  // ── What lockstep means ─────────────────────────────────────────────────────

  /** The log holds every position from its oldest one up to the tail, and at each that the ring knows the message
      of the ring. */
  lemma {:induction false} LockstepIsEquality(cfg: Config, s: State, p: nat)
    requires Lockstep(cfg, s) && s.wal.Some? && s.wal.value.Index().segments != []
    requires s.wal.value.Index().segments[0].first <= p < Tail(s.ring)
    ensures var ss := s.wal.value.Index().segments;
            var rs, i := Concat(ss), p - ss[0].first;
            && i < |rs| && rs[i].cursor == p && (p >= s.ring.base ==> rs[i].payload == s.ring.log[p - s.ring.base])
  {
    var w := s.wal.value.Index();
    OpenIsChained(cfg, s.wal.value);
    ConcatConsecutive(w.segments);
    Wal.EndOfChain(w.segments, w.pending);
    hide Concat, Open, Chained, EndsAt;
  }

  lemma {:induction false} OpenIsChained(cfg: Config, a: AnyLog)
    requires Open(cfg, a)
    ensures Chained(a.Index().segments) && EndsAt(a.Index().segments, a.Index().pending)
  {
    hide Chained, SizesOk, TotalBytes, SegmentBytes, EndsAt;
  }

  /** Creating a publisher over an existing v0.1 log moves the ring's tail to the next cursor of the log, and the two
      are in lockstep exactly if the log can be appended to. */
  lemma {:induction false} CreateAligns(cfg: Config, ss: seq<Segment>, v: Contents)
    requires Chained(ss) && Tail(v) == 0
    ensures var w := Wal.Opened(ss);
            var v' := v.(base := w.pending);
            && Tail(v') == w.pending
            && (Lockstep(cfg, State(v', Some(One(w)))) <==> ss == [] || ss[|ss| - 1].records != [])
  {
    var w := Wal.Opened(ss);
    if ss != [] {
      Wal.OpenKeeps(ss);
      ConcatConsecutive(ss);
      BeforeTail(Concat(ss), ss[0].first, v.(base := w.pending));
      hide Wal.Opened, Chained, Inv, Concat, Mirrors, Consecutive;
    } else {
      OpenedNothing(cfg, v);
    }
  }

  /** Records older than the ring. */
  lemma {:induction false} BeforeTail(rs: seq<Record>, first: nat, v: Contents)
    requires Consecutive(rs, first) && v.log == [] && first + |rs| == v.base
    ensures Mirrors(rs, v)
  {
  }

  lemma {:induction false} OpenedNothing(cfg: Config, v: Contents)
    requires Tail(v) == 0
    ensures var w := Wal.Opened([]);
            var v' := v.(base := w.pending);
            Tail(v') == w.pending && Lockstep(cfg, State(v', Some(One(w))))
  {
    assert Concat([]) == [];
  }

  // ── After a phantom record ──────────────────────────────────────────────────

  lemma {:induction false} AppendToNew(ss: seq<Segment>, s: Segment, r: Record)
    requires forall i :: 0 <= i < |ss| ==> ss[i].first != s.first
    ensures AppendTo(ss + [s], s.first, r) == ss + [s.(records := s.records + [r])]
  {
    if ss == [] {
      assert ss + [s] == [s];
    } else {
      AppendToNew(ss[1..], s, r);
      assert (ss + [s])[1..] == ss[1..] + [s];
    }
  }

  /** The log ahead by one record: the next publish offers it the cursor of its last record again. It refuses while
      the record fits the active segment; otherwise it rotates into a segment with the old cursor as its name, and
      then holds two records with that cursor, unless the last segment already has that name. */
  lemma {:induction false} AfterPhantom(cfg: Config, st: Log, r: Record)
    requires cfg.layout == V1 && Inv(V1, st) && st.writer.Some? && r.cursor + 1 == st.pending && Fits(r)
    ensures st.segments != []
    ensures st.activeBytes + RecordBytes(V1, r) <= cfg.segmentSizeMax ==>
      Wal.Appended(cfg, st, r) == (st, CursorRegressed)
    ensures st.activeBytes + RecordBytes(V1, r) > cfg.segmentSizeMax && !Wal.ActiveEmpty(st) ==>
              var last := st.segments[|st.segments| - 1];
              var rs := last.records;
              && rs[|rs| - 1].cursor == r.cursor
              && (last.first == r.cursor ==> Wal.Appended(cfg, st, r).1 == AlreadyExists)
              && (last.first < r.cursor ==>
                    var st' := Rotate(st, r.cursor).0;
                    && st'.writer.Some? && Wal.Appended(cfg, st, r) == (Wal.Pruned(cfg, Written(V1, st', r)), Done)
                    && Written(V1, st', r).segments == st.segments + [Segment(r.cursor, [r])])
  {
    hide SizesOk, TotalBytes, Wal.Pruned, RecordBytes, SegmentBytes;
    var ss, n := st.segments, |st.segments|;
    var last := ss[n - 1];
    if !Wal.ActiveEmpty(st) && st.activeBytes + RecordBytes(V1, r) > cfg.segmentSizeMax {
      assert Consecutive(last.records, last.first);
      forall i | 0 <= i < n - 1 ensures ss[i].first < last.first { ChainedOrder(ss, i, n - 1); }
      if last.first < r.cursor {
        InsertLast(ss, Segment(r.cursor, []));
        AppendToNew(ss, Segment(r.cursor, []), r);
        assert [] + [r] == [r];
      }
    }
  }

  /** The v2 log does not look at the cursor: it takes the record. If it fits the active segment, that segment then
      ends in two records with one cursor; otherwise the record starts a segment of that name behind the one that ends
      with the same cursor, unless that one has the name already. */
  lemma {:induction false} AfterPhantomV2(cfg: Config, s: WalV2.State, r: Record)
    requires cfg.layout == V2 && WalV2.Inv2(cfg, s) && s.log.writer.Some? && r.cursor + 1 == s.log.pending
    requires Fits(r) && WalV2.FitsFresh(cfg, r) && !Wal.ActiveEmpty(s.log)
    ensures s.log.segments != []
    ensures var last := s.log.segments[|s.log.segments| - 1];
            var (s', o) := WalV2.Appended(cfg, s, r);
            var ss := s'.log.segments;
            && last.records != [] && last.records[|last.records| - 1].cursor == r.cursor
            && (o == Done <==> s.log.activeBytes + RecordBytes(V2, r) <= cfg.segmentSizeMax || last.first < r.cursor)
            && (o != Done ==> o == AlreadyExists && last.first == r.cursor && Wal.Wedged(s'.log))
            && (o == Done ==> ss != [] && s'.log.pending == s.log.pending)
            && (o == Done && s.log.activeBytes + RecordBytes(V2, r) <= cfg.segmentSizeMax ==>
                  ss[|ss| - 1] == last.(records := last.records + [r]))
            && (o == Done && s.log.activeBytes + RecordBytes(V2, r) > cfg.segmentSizeMax ==>
                  ss[|ss| - 1] == Segment(r.cursor, [r]))
  {
    LastCursor(s.log);
    WalV2.WriterFacts(cfg, s);
    WalV2.ActiveBytesOf(s.log);
    if s.log.activeBytes + RecordBytes(V2, r) <= cfg.segmentSizeMax {
      AppendToLast(s.log.segments, r);
      BookedLast(cfg, s, r);
      hide Inv, RecordBytes, Wal.Pruned, AppendTo, Chained, EndsAt;
    } else {
      RotateAgain(cfg, s, r);
      if s.log.segments[|s.log.segments| - 1].first < r.cursor {
        BookedLast(cfg, WalV2.Rotated(cfg, s, r.cursor).0, r);
      }
      hide Inv, RecordBytes, Wal.Pruned, AppendTo, Chained, EndsAt, WalV2.Rotated;
    }
  }

  lemma {:induction false} LastCursor(st: Log)
    requires Inv(V2, st) && st.writer.Some? && !Wal.ActiveEmpty(st)
    ensures st.segments != [] && Chained(st.segments)
    ensures var last := st.segments[|st.segments| - 1];
            && last.records != [] && last.records[|last.records| - 1].cursor + 1 == st.pending
            && last.first < st.pending && st.writer.value.first == last.first
            && forall i :: 0 <= i < |st.segments| - 1 ==> st.segments[i].first < last.first
  {
    hide SizesOk, TotalBytes, SegmentBytes;
    var ss, n := st.segments, |st.segments|;
    assert Consecutive(ss[n - 1].records, ss[n - 1].first);
    forall i | 0 <= i < n - 1 ensures ss[i].first < ss[n - 1].first { ChainedOrder(ss, i, n - 1); }
  }

  /** A rotation to the cursor of the last record. */
  lemma {:induction false} RotateAgain(cfg: Config, s: WalV2.State, r: Record)
    requires s.log.writer.Some? && s.log.segments != [] && cfg.segmentSizeMax >= WalV2.MIN_SEGMENT
    requires var last := s.log.segments[|s.log.segments| - 1];
             && last.first <= r.cursor
             && forall i :: 0 <= i < |s.log.segments| - 1 ==> s.log.segments[i].first < last.first
    ensures var ss := s.log.segments;
            var (s', o) := WalV2.Rotated(cfg, s, r.cursor);
            if ss[|ss| - 1].first == r.cursor then o == AlreadyExists && Wal.Wedged(s'.log)
            else
              && o == Done && s'.log.writer.Some? && s'.log.writer.value.first == r.cursor
              && s'.log.segments == ss + [Segment(r.cursor, [])] && s'.tail == SEGMENT_HEADER_LEN
              && s'.log.pending == s.log.pending
              && AppendTo(s'.log.segments, r.cursor, r) == ss + [Segment(r.cursor, [r])]
  {
    var ss := s.log.segments;
    if ss[|ss| - 1].first < r.cursor {
      InsertLast(ss, Segment(r.cursor, []));
      AppendToNew(ss, Segment(r.cursor, []), r);
      assert [] + [r] == [r];
    }
  }

  /** The bookkeeping of a write leaves the segment it went to. */
  lemma {:induction false} BookedLast(cfg: Config, s: WalV2.State, r: Record)
    requires s.log.writer.Some?
    requires var ss := AppendTo(s.log.segments, s.log.writer.value.first, r);
             ss != [] && ss[|ss| - 1].first == s.log.writer.value.first
    ensures var s2 := WalV2.WrittenAt(s, r);
            var ss, ss' := AppendTo(s.log.segments, s.log.writer.value.first, r),
                           WalV2.Booked(cfg, s2, r, s2.tail).log.segments;
            ss' != [] && ss'[|ss'| - 1] == ss[|ss| - 1] && WalV2.Booked(cfg, s2, r, s2.tail).log.pending == r.cursor + 1
  {
    hide AppendTo, Enforce, RecordBytes;
    var s2 := WalV2.WrittenAt(s, r);
    var st := s2.log.(writer := Some(s2.log.writer.value.(pending := r.cursor + 1)), activeBytes := s2.tail,
                      pending := r.cursor + 1);
    EnforceLast(cfg, st);
    EnforcePending(cfg, st);
  }

  lemma {:induction false} EnforcePending(cfg: Config, st: Log)
    ensures Enforce(cfg, st).pending == st.pending
    decreases |st.segments|
  {
    FirstOtherInRange(st.segments, ActiveFirst(st));
    var i := FirstOther(st.segments, ActiveFirst(st));
    if st.retainedBytes + st.activeBytes > cfg.retentionBytes && i.Some? { EnforcePending(cfg, Delete(st, i.value)); }
  }

  // ── The object ──────────────────────────────────────────────────────────────

  predicate Distinct(cs: seq<nat>) { forall i, k :: 0 <= i < k < |cs| ==> cs[i] != cs[k] }

  function Elements(cs: seq<nat>): set<nat> { set i | 0 <= i < |cs| :: cs[i] }

  lemma {:induction false} ElementsGrow(cs: seq<nat>, x: nat)
    ensures Elements(cs + [x]) == Elements(cs) + {x}
    ensures Distinct(cs) && x !in Elements(cs) ==> Distinct(cs + [x])
  {
    assert (cs + [x])[|cs|] == x;
    forall i | 0 <= i < |cs| ensures (cs + [x])[i] == cs[i] {}
    forall c | c in Elements(cs) ensures c in Elements(cs + [x]) {
      var i :| 0 <= i < |cs| && cs[i] == c;
      assert (cs + [x])[i] == c;
    }
  }

  /** The client examined next is none of those still to come. */
  lemma {:induction false} ElementsHead(cs: seq<nat>, i: nat)
    requires i < |cs| && Distinct(cs)
    ensures Elements(cs[i..]) == {cs[i]} + Elements(cs[i + 1..]) && cs[i] !in Elements(cs[i + 1..])
    ensures Elements(cs[..i + 1]) == Elements(cs[..i]) + {cs[i]}
  {
    ElementsGrow(cs[..i], cs[i]);
    assert cs[..i + 1] == cs[..i] + [cs[i]];
    var t, u := cs[i..], cs[i + 1..];
    forall c | c in Elements(t) ensures c in {cs[i]} + Elements(u) {
      var k :| 0 <= k < |t| && t[k] == c;
      if k > 0 { assert u[k - 1] == c; }
    }
    forall c | c in {cs[i]} + Elements(u) ensures c in Elements(t) {
      if c == cs[i] { assert t[0] == c; } else { var k :| 0 <= k < |u| && u[k] == c; assert t[k + 1] == c; }
    }
  }

  /** `Vec::swap_remove` takes out client `i` and loses none of those still to come. */
  lemma {:induction false} SwapOut(cs: seq<nat>, i: nat)
    requires i < |cs| && Distinct(cs)
    ensures var cs' := Wakeup.SwapRemove(cs, i);
            Distinct(cs') && cs'[..i] == cs[..i] && Elements(cs'[i..]) == Elements(cs[i + 1..])
  {
    var cs' := Wakeup.SwapRemove(cs, i);
    var t, u := cs'[i..], cs[i + 1..];
    forall c | c in Elements(t) ensures c in Elements(u) {
      var k :| 0 <= k < |t| && t[k] == c;
      if k == 0 { assert u[|u| - 1] == c; } else { assert u[k - 1] == c; }
    }
    forall c | c in Elements(u) ensures c in Elements(t) {
      var k :| 0 <= k < |u| && u[k] == c;
      if k == |u| - 1 { assert t[0] == c; } else { assert t[k + 1] == c; }
    }
  }

  /** What a broadcast leaves: the clients, the flags, and the wakeups it sent. */
  datatype Round = Round(clients: seq<nat>, flags: seq<bool>, sent: seq<nat>)

  /** The rest of a broadcast in which `sent` were woken before. */
  function After(sent: seq<nat>, r: Round): Round { r.(sent := sent + r.sent) }

  lemma {:induction false} AfterNothing(r: Round)
    ensures After([], r) == r
  {
    assert [] + r.sent == r.sent;
  }

  lemma {:induction false} AfterMore(sent: seq<nat>, more: seq<nat>, r: Round)
    ensures After(sent, After(more, r)) == After(sent + more, r)
  {
    Regroup(sent, more, r.sent);
  }

  lemma {:induction false} SwapMembers(cs: seq<nat>, i: nat)
    requires i < |cs|
    ensures forall x :: x in Wakeup.SwapRemove(cs, i) ==> x in cs
  {
  }

  /** The loop of `broadcast_wakeup` from client `i` on; `alive` says whose wakeup goes through. */
  function Broadcast(cursors: seq<u64>, alive: set<nat>, cs: seq<nat>, i: nat, flags: seq<bool>): Round
    requires i <= |cs| && |flags| == |cursors| && forall c :: c in cs ==> c < |cursors|
    decreases |cs| - i
  {
    if i == |cs| then Round(cs, flags, [])
    else
      var c := cs[i];
      assert c in cs;
      SwapMembers(cs, i);
      if cursors[c] == UNCLAIMED then Broadcast(cursors, alive, Wakeup.SwapRemove(cs, i), i, flags)
      else if !flags[c] then Broadcast(cursors, alive, cs, i + 1, flags)
      else
        var r := if c in alive then Broadcast(cursors, alive, cs, i + 1, flags[c := false])
                 else Broadcast(cursors, alive, Wakeup.SwapRemove(cs, i), i, flags[c := false]);
        r.(sent := [c] + r.sent)
  }

  predicate Live(cursors: seq<u64>, c: nat) { c < |cursors| && cursors[c] != UNCLAIMED }

  /** A client is woken if it is live and has announced that it is about to sleep. */
  predicate Woken(cursors: seq<u64>, flags: seq<bool>, c: nat) { Live(cursors, c) && c < |flags| && flags[c] }

  /** A client stays if it is live and its wakeup, if it got one, went through. */
  predicate Stays(cursors: seq<u64>, flags: seq<bool>, alive: set<nat>, c: nat) {
    Live(cursors, c) && (Woken(cursors, flags, c) ==> c in alive)
  }

  ghost predicate KeptOk(cursors: seq<u64>, flags: seq<bool>, alive: set<nat>, due: set<nat>, kept: set<nat>) {
    forall c :: c in kept <==> c in due && Stays(cursors, flags, alive, c)
  }

  predicate FlagsOk(cursors: seq<u64>, flags: seq<bool>, due: set<nat>, flags': seq<bool>) {
    |flags'| == |flags| && forall c :: 0 <= c < |flags| ==> flags'[c] == (flags[c] && !(c in due && Live(cursors, c)))
  }

  ghost predicate SentOk(cursors: seq<u64>, flags: seq<bool>, due: set<nat>, sent: set<nat>) {
    forall c :: c in sent <==> c in due && Woken(cursors, flags, c)
  }

  /** The flags once client `c` was visited. */
  function Visited(cursors: seq<u64>, flags: seq<bool>, c: nat): (flags': seq<bool>)
    ensures |flags'| == |flags|
  {
    if Woken(cursors, flags, c) then flags[c := false] else flags
  }

  lemma {:induction false} VisitedOk(cursors: seq<u64>, flags: seq<bool>, alive: set<nat>, c: nat, due: set<nat>)
    requires c !in due && c < |flags| == |cursors|
    ensures var flags' := Visited(cursors, flags, c);
            && (forall kept :: KeptOk(cursors, flags', alive, due, kept) ==>
                  KeptOk(cursors, flags, alive, {c} + due,
                         if Stays(cursors, flags, alive, c) then {c} + kept else kept))
            && (forall r :: FlagsOk(cursors, flags', due, r) ==> FlagsOk(cursors, flags, {c} + due, r))
            && (forall sent :: SentOk(cursors, flags', due, sent) ==>
                  SentOk(cursors, flags, {c} + due, if Woken(cursors, flags, c) then {c} + sent else sent))
  {
  }

  /** Every client still to come is examined exactly once, although a removal moves the last one to its place: the
      live ones with a flag are woken, once each, and lose it; the others with a flag keep it; and exactly the live
      ones whose wakeup did not fail are kept. */
  lemma {:induction false} BroadcastExaminesAll(cursors: seq<u64>, alive: set<nat>, cs: seq<nat>, i: nat,
          flags: seq<bool>)
    requires i <= |cs| && |flags| == |cursors| && Distinct(cs) && forall c :: c in cs ==> c < |cursors|
    ensures var r, due := Broadcast(cursors, alive, cs, i, flags), Elements(cs[i..]);
            && |r.clients| >= i && r.clients[..i] == cs[..i]
            && KeptOk(cursors, flags, alive, due, Elements(r.clients[i..])) && Distinct(r.clients)
            && FlagsOk(cursors, flags, due, r.flags)
            && SentOk(cursors, flags, due, Elements(r.sent)) && Distinct(r.sent)
    decreases |cs| - i
  {
    if i < |cs| {
      var c := cs[i];
      assert c in cs;
      ElementsHead(cs, i);
      SwapOut(cs, i);
      SwapMembers(cs, i);
      BroadcastStep(cursors, alive, cs, i, flags);
      hide *;
      VisitedOk(cursors, flags, alive, c, Elements(cs[i + 1..]));
      var flags' := Visited(cursors, flags, c);
      if Stays(cursors, flags, alive, c) {
        BroadcastExaminesAll(cursors, alive, cs, i + 1, flags');
        var rest := Broadcast(cursors, alive, cs, i + 1, flags');
        KeptCons(rest.clients, cs, i);
        SentCons(cursors, flags', c, Elements(cs[i + 1..]), rest.sent);
      } else {
        BroadcastExaminesAll(cursors, alive, Wakeup.SwapRemove(cs, i), i, flags');
        SentCons(cursors, flags', c, Elements(cs[i + 1..]),
          Broadcast(cursors, alive, Wakeup.SwapRemove(cs, i), i, flags').sent);
      }
    }
  }

  lemma {:induction false} BroadcastStep(cursors: seq<u64>, alive: set<nat>, cs: seq<nat>, i: nat, flags: seq<bool>)
    requires i < |cs| && |flags| == |cursors| && forall c :: c in cs ==> c < |cursors|
    requires forall c :: c in Wakeup.SwapRemove(cs, i) ==> c < |cursors|
    ensures var c := cs[i];
            var flags' := Visited(cursors, flags, c);
            var rest := if Stays(cursors, flags, alive, c) then Broadcast(cursors, alive, cs, i + 1, flags')
                        else Broadcast(cursors, alive, Wakeup.SwapRemove(cs, i), i, flags');
            Broadcast(cursors, alive, cs, i, flags) ==
            Round(rest.clients, rest.flags, if Woken(cursors, flags, c) then [c] + rest.sent else rest.sent)
  {
    assert cs[i] in cs;
    SwapMembers(cs, i);
    hide Wakeup.SwapRemove;
  }

  lemma {:induction false} KeptCons(kept: seq<nat>, cs: seq<nat>, i: nat)
    requires i < |cs| && |kept| >= i + 1 && kept[..i + 1] == cs[..i + 1]
    ensures kept[..i] == cs[..i] && Elements(kept[i..]) == {cs[i]} + Elements(kept[i + 1..])
  {
    assert kept[..i] == kept[..i + 1][..i] && kept[i] == kept[..i + 1][i];
    assert kept[i..] == [cs[i]] + kept[i + 1..];
    ElementsCons(cs[i], kept[i + 1..]);
  }

  lemma {:induction false} SentCons(cursors: seq<u64>, flags: seq<bool>, c: nat, due: set<nat>, sent: seq<nat>)
    requires Distinct(sent) && SentOk(cursors, flags, due, Elements(sent)) && c !in due
    ensures Distinct([c] + sent) && Elements([c] + sent) == {c} + Elements(sent)
  {
    ElementsCons(c, sent);
    hide Elements, Distinct;
  }

  lemma {:induction false} ElementsCons(x: nat, cs: seq<nat>)
    ensures Elements([x] + cs) == {x} + Elements(cs)
    ensures Distinct(cs) && x !in Elements(cs) ==> Distinct([x] + cs)
  {
    var t := [x] + cs;
    forall c | c in Elements(t) ensures c in {x} + Elements(cs) {
      var k :| 0 <= k < |t| && t[k] == c;
      if k > 0 { assert cs[k - 1] == c; }
    }
    forall c | c in {x} + Elements(cs) ensures c in Elements(t) {
      if c == x { assert t[0] == c; } else { var k :| 0 <= k < |cs| && cs[k] == c; assert t[k + 1] == c; }
    }
  }

  /** `clients` holds the cursor index of each connected subscriber, `wakes` the wakeups sent. */
  class Publisher {
    const cfg: Config
    const policy: Policy
    const ring: RingBuffer
    const wal: Wal.Wal?
    var clients: seq<nat>
    var wakes: seq<nat>

    ghost predicate Valid()
      reads this, ring, ring.slots, ring.cursors, ring.flags, wal
    {
      && ring.Valid() && (wal != null ==> wal.cfg == cfg)
      && (forall i :: 0 <= i < |clients| ==> clients[i] < ring.flags.Length)
    }

    /** The state that publishing is about; the wakeup flags are not. */
    ghost function View(): State
      reads this, ring, ring.cursors, ring.flags, wal
    {
      State(ring.View().(flags := []), if wal == null then None else Some(One(wal.View())))
    }

    /** `create`, once the ring is made and the log opened. */
    constructor (cfg: Config, policy: Policy, ring: RingBuffer, wal: Wal.Wal?)
      requires ring.Valid() && ring.base == 0 && ring.log == []
      requires wal != null ==> wal.cfg == cfg && wal.pendingCursor < MAX_TAIL
      modifies ring`tail, ring`base
      ensures Valid() && this.ring == ring && this.wal == wal && this.policy == policy && this.cfg == cfg
      ensures ring.View() == old(ring.View()).(base := if wal == null then 0 else wal.pendingCursor)
    {
      this.cfg, this.policy, this.ring, this.wal := cfg, policy, ring, wal;
      clients, wakes := [], [];
      new;
      if wal != null {
        if wal.pendingCursor > ring.tail { ring.SetTail(wal.pendingCursor); }
      }
    }

    method LogItem(it: Item) returns (v: Option<Verdict>)
      requires Valid() && ring.tail < MAX_TAIL && |it.before| == ring.cursors.Length
      modifies ring.cursors, wal
      ensures Valid() && (View(), v) == LogOne(cfg, policy, old(View()), it)
    {
      hide Wal.Appended, MinCursor, RingProtocol.Full;
      if wal == null { return None; }
      ring.OthersMove(it.before);
      if policy.Error? {
        var full := ring.IsFull();
        if full { return Some(RingFull); }
      }
      var o := wal.Append(Record(ring.tail, it.ts, it.data));
      v := if o != Done then Some(WalFailed(o)) else None;
    }

    method RingItem(it: Item) returns (v: Verdict)
      requires Valid() && ring.tail + 1 < MAX_TAIL && |it.after| == ring.cursors.Length && |it.data| <= ring.payloadSize
      modifies ring`tail, ring`log, ring.slots, ring.cursors
      ensures Valid() && (View(), v) == IntoRing(policy, Moved(old(View()), it.after), it.data)
      ensures ring.flags[..] == old(ring.flags[..]) && old(ring.tail) <= ring.tail <= old(ring.tail) + 1
    {
      hide MinCursor, RingProtocol.Full;
      ring.OthersMove(it.after);
      var ok;
      if policy.Error? { ok := ring.TryPublish(it.data); } else { ok := ring.PublishDropOldest(it.data); }
      v := if ok then Accepted else RingFull;
    }

    /** The body of a publish, up to the broadcast. */
    method PublishItem(it: Item) returns (v: Verdict)
      requires Valid() && ring.tail + 1 < MAX_TAIL
      requires |it.before| == |it.after| == ring.cursors.Length
      modifies ring`tail, ring`log, ring.slots, ring.cursors, wal
      ensures Valid() && (View(), v) == PublishOne(cfg, policy, old(View()), it)
      ensures ring.flags[..] == old(ring.flags[..]) && old(ring.tail) <= ring.tail <= old(ring.tail) + 1
    {
      hide LogOne, IntoRing;
      if |it.data| > ring.payloadSize { return TooLarge; }
      var o := LogItem(it);
      if o.Some? { return o.value; }
      v := RingItem(it);
    }

    /** `accept_clients`: the pending connections become clients. */
    method AcceptClients(arrivals: seq<nat>)
      requires Valid() && forall c :: c in arrivals ==> c < ring.flags.Length
      modifies this`clients
      ensures Valid() && View() == old(View()) && clients == old(clients) + arrivals
    {
      forall i | 0 <= i < |arrivals| ensures arrivals[i] < ring.flags.Length { assert arrivals[i] in arrivals; }
      clients := clients + arrivals;
    }

    /** `publish`: a message that is not too large lets the pending connections in first, and one that is accepted is
        followed by the wakeups. */
    method Publish(it: Item, arrivals: seq<nat>, alive: set<nat>) returns (v: Verdict)
      requires Valid() && ring.tail + 1 < MAX_TAIL && forall c :: c in arrivals ==> c < ring.flags.Length
      requires |it.before| == |it.after| == ring.cursors.Length
      modifies this`clients, this`wakes, ring`tail, ring`log, ring.slots, ring.cursors, ring.flags, wal
      ensures Valid() && (View(), v) == PublishOne(cfg, policy, old(View()), it)
      ensures if v == Accepted then Announced(old(clients) + arrivals, old(ring.flags[..]), old(wakes), alive)
              else clients == old(clients) + (if v == TooLarge then [] else arrivals)
                   && wakes == old(wakes) && ring.flags[..] == old(ring.flags[..])
    {
      hide LogOne, IntoRing;
      if |it.data| > ring.payloadSize { return TooLarge; }
      AcceptClients(arrivals);
      v := PublishItem(it);
      assert v != TooLarge by { NotTooLarge(cfg, policy, old(View()), it); }
      if v == Accepted { BroadcastWakeup(alive); }
    }

    /** The clients, flags and wakeups are those that one broadcast makes of these. */
    ghost predicate Announced(cs: seq<nat>, fs: seq<bool>, sent: seq<nat>, alive: set<nat>)
      reads this, ring.cursors, ring.flags
    {
      && |fs| == ring.cursors.Length && (forall c :: c in cs ==> c < ring.cursors.Length)
      && var r := Broadcast(ring.cursors[..], alive, cs, 0, fs);
         clients == r.clients && ring.flags[..] == r.flags && wakes == sent + r.sent
    }

    /** `publish_many`: the pending connections are let in, and there is one round of wakeups for the whole batch, if
        anything was published. */
    method PublishMany(items: seq<Item>, arrivals: seq<nat>, alive: set<nat>) returns (r: BatchResult)
      requires Valid() && ring.tail + |items| < MAX_TAIL && forall c :: c in arrivals ==> c < ring.flags.Length
      requires forall it :: it in items ==> |it.before| == |it.after| == ring.cursors.Length
      modifies this`clients, this`wakes, ring`tail, ring`log, ring.slots, ring.cursors, ring.flags, wal
      ensures Valid() && (View(), r) == PublishBatch(cfg, policy, old(View()), items)
      ensures if r.count > 0 then Announced(old(clients) + arrivals, old(ring.flags[..]), old(wakes), alive)
              else clients == old(clients) + arrivals && wakes == old(wakes) && ring.flags[..] == old(ring.flags[..])
    {
      var count := 0;
      hide PublishOne, PublishBatch, Plus, Broadcast;
      AcceptClients(arrivals);
      PlusNothing(PublishBatch(cfg, policy, View(), items));
      assert items[0..] == items;
      while count < |items|
        invariant 0 <= count <= |items| && Valid() && ring.tail + (|items| - count) < MAX_TAIL
        invariant clients == old(clients) + arrivals && wakes == old(wakes) && ring.flags[..] == old(ring.flags[..])
        invariant Plus(PublishBatch(cfg, policy, View(), items[count..]), count) ==
          PublishBatch(cfg, policy, old(View()), items)
        decreases |items| - count
      {
        assert items[count..][0] == items[count] && items[count..][1..] == items[count + 1..];
        assert items[count] in items;
        BatchUnrolls(cfg, policy, View(), items[count..], count);
        var v := PublishItem(items[count]);
        if v == RingFull { break; }
        if v != Accepted {
          if count > 0 { BroadcastWakeup(alive); }
          return Failed(v, count);
        }
        count := count + 1;
      }
      if count == |items| { BatchEnds(cfg, policy, View(), count); }
      if count > 0 { BroadcastWakeup(alive); }
      r := Sent(count);
    }

    /** One turn of the loop of `broadcast_wakeup`. */
    method VisitClient(i: nat, alive: set<nat>) returns (i': nat)
      requires Valid() && i < |clients|
      modifies this`clients, this`wakes, ring.flags
      ensures Valid() && i' <= |clients| && |clients| - i' < old(|clients|) - i
      ensures |ring.flags[..]| == |ring.cursors[..]| && forall c :: c in clients ==> c < ring.cursors.Length
      ensures var more := if |wakes| > |old(wakes)| then [old(clients)[i]] else [];
              && wakes == old(wakes) + more
              && Broadcast(ring.cursors[..], alive, old(clients), i, old(ring.flags[..])) ==
                 After(more, Broadcast(ring.cursors[..], alive, clients, i', ring.flags[..]))
    {
      var idx := clients[i];
      assert idx in clients;
      SwapMembers(clients, i);
      if ring.cursors[idx] == UNCLAIMED {
        clients := Wakeup.SwapRemove(clients, i);
        return i;
      }
      var flagged := ring.TakeWakeflag(idx);
      if !flagged {
        assert ring.flags[..] == old(ring.flags[..]);
        return i + 1;
      }
      wakes := wakes + [idx];
      if idx in alive { return i + 1; }
      clients := Wakeup.SwapRemove(clients, i);
      i' := i;
    }

    /** `broadcast_wakeup`. */
    method BroadcastWakeup(alive: set<nat>)
      requires Valid()
      modifies this`clients, this`wakes, ring.flags
      ensures Valid() && View() == old(View())
      ensures Announced(old(clients), old(ring.flags[..]), old(wakes), alive)
    {
      hide Broadcast, After;
      var i := 0;
      ghost var goal, sent: seq<nat> := Broadcast(ring.cursors[..], alive, clients, 0, ring.flags[..]), [];
      AfterNothing(goal);
      while i < |clients|
        invariant 0 <= i <= |clients| && Valid()
        invariant goal == After(sent, Broadcast(ring.cursors[..], alive, clients, i, ring.flags[..]))
        invariant wakes == old(wakes) + sent
        decreases |clients| - i
      {
        ghost var before := wakes;
        var idx := clients[i];
        i := VisitClient(i, alive);
        ghost var more := if |wakes| > |before| then [idx] else [];
        AfterMore(sent, more, Broadcast(ring.cursors[..], alive, clients, i, ring.flags[..]));
        sent := sent + more;
      }
      BroadcastDone(ring.cursors[..], alive, clients, ring.flags[..]);
      AfterAll(sent, clients, ring.flags[..]);
    }
  }

  lemma {:induction false} AfterAll(sent: seq<nat>, cs: seq<nat>, flags: seq<bool>)
    ensures After(sent, Round(cs, flags, [])) == Round(cs, flags, sent)
  {
    assert sent + [] == sent;
  }

  lemma {:induction false} PlusNothing(r: (State, BatchResult))
    ensures Plus(r, 0) == r
  {
  }

  lemma {:induction false} BatchEnds(cfg: Config, policy: Policy, s: State, n: nat)
    requires Tail(s.ring) < MAX_TAIL
    ensures Plus(PublishBatch(cfg, policy, s, []), n) == (s, Sent(n))
  {
  }

  /** One turn of the loop of `publish_many`. */
  lemma {:induction false} BatchUnrolls(cfg: Config, policy: Policy, s: State, items: seq<Item>, n: nat)
    requires items != [] && Tail(s.ring) + |items| < MAX_TAIL
    ensures var (s1, v) := PublishOne(cfg, policy, s, items[0]);
            var r := Plus(PublishBatch(cfg, policy, s, items), n);
            if v == Accepted then
              Tail(s1.ring) + |items[1..]| < MAX_TAIL && r == Plus(PublishBatch(cfg, policy, s1, items[1..]), n + 1)
            else if v == RingFull then r == (s1, Sent(n))
            else r == (s1, Failed(v, n))
  {
    hide LogAppended, Saturated;
  }

  lemma {:induction false} NotTooLarge(cfg: Config, policy: Policy, s: State, it: Item)
    requires Tail(s.ring) < MAX_TAIL && |it.data| <= s.ring.payloadSize
    ensures PublishOne(cfg, policy, s, it).1 != TooLarge
  {
    hide LogAppended, Saturated;
  }

  lemma {:induction false} BroadcastDone(cursors: seq<u64>, alive: set<nat>, cs: seq<nat>, flags: seq<bool>)
    requires |flags| == |cursors| && forall c :: c in cs ==> c < |cursors|
    ensures Broadcast(cursors, alive, cs, |cs|, flags) == Round(cs, flags, [])
  {
  }
}
