/** The shared ring as a step relation: crates/mmbus/src/ring.rs at the grain of single loads and stores.

    One publisher and one possible subscriber per cursor-table entry take steps in any order. Memory is
    sequentially consistent, a slot's length and payload are written and read byte by byte, and the run starts
    from `RingBuffer::create`. */
module RingProtocol {
  import opened Bytes

  type Payload = seq<byte>

  /** The `seq` word of a slot: a position below 2^63 and the flag kept in bit 63. */
  datatype Word = Word(pos: nat, writing: bool)

  /** `mem` is the 4-byte length followed by the payload area. */
  datatype Slot = Slot(word: Word, mem: seq<byte>)

  /** `try_publish` (Error) or `publish_drop_oldest` (DropOldest). */
  datatype Policy = Error | DropOldest

  /** Where the publisher is inside a publish; each step does one shared access. */
  datatype Pub =
    | Idle
    | Scanning(data: Payload, i: nat, min: Option<nat>)
    | Marking(data: Payload)
    | Copying(data: Payload, k: nat)
    | Storing

  /** Where the tenant of a cursor entry is. */
  datatype Pc =
    | Free
    | Claimed
    | Synced(resync: nat)
    | Parked(resync: nat)
    | Ready(cursor: nat)
    | Probing(cursor: nat, effective: nat, tries: nat)
    | Fetching(cursor: nat, effective: nat, tries: nat, buf: seq<byte>)
    | Advancing(cursor: nat, effective: nat, payload: Payload)

  /** What a read gives the caller: the message of a position, or the report that it is too large for the buffer, with
      the length that was read. */
  datatype Seen = Message(pos: nat, payload: Payload) | TooLarge(pos: nat, len: nat)

  /** A tenant with its history: the position its reading started at, whether every position from there on was
      promised to it, and what its reads gave. */
  datatype Sub = Sub(pc: Pc, first: nat, promised: bool, got: seq<Seen>)

  /** `log` is a history variable: the payload committed at each position. */
  datatype Ring = Ring(
    capacity: nat, payloadSize: nat, policy: Policy,
    slots: seq<Slot>, tail: nat, cursors: seq<Option<nat>>,
    pub: Pub, subs: seq<Sub>, log: seq<Payload>)

  datatype Action =
    | Publish(data: Payload)
    | PubStep
    | Claim(j: nat, loaded: nat)
    | Resync(j: nat)
    | Start(j: nat, at: nat)
    | Park(j: nat)
    | Promote(j: nat, at: nat)
    | Poll(j: nat)
    | SubStep(j: nat)
    | Oversize(j: nat, room: nat)
    | Release(j: nat)

  const MAX_RETRIES: nat := 16
  const MAX_TAIL: nat := 0x8000_0000_0000_0000

  function SlotIndex(pos: nat, capacity: nat): (s: nat)
    requires capacity > 0
    ensures s < capacity && s <= pos && (pos < capacity ==> s == pos)
  {
    pos % capacity
  }

  /** What `write_slot` stores after the sequence word. */
  function Image(d: Payload): (b: seq<byte>)
    ensures |b| == 4 + |d|
  {
    LE(|d|, 4) + d
  }

  function MinOf(min: Option<nat>, cursor: Option<nat>): Option<nat> {
    match cursor
    case None => min
    case Some(c) => if min.Some? && min.value <= c then min else Some(c)
  }

  /** `tail.wrapping_sub(effective_min) >= capacity`, on 64-bit words. */
  predicate Full(tail: nat, min: Option<nat>, capacity: nat) {
    var effectiveMin := if min.Some? then min.value else tail;
    (tail - effectiveMin) % U64 >= capacity
  }

  predicate Shape(r: Ring) {
    && 0 < r.capacity < U32 && r.payloadSize < U32
    && |r.slots| == r.capacity && |r.cursors| == |r.subs|
    && forall s :: 0 <= s < |r.slots| ==> |r.slots[s].mem| == 4 + r.payloadSize
  }

  function Init(capacity: nat, payloadSize: nat, maxSubscribers: nat, policy: Policy): Ring {
    Ring(capacity, payloadSize, policy,
         seq(capacity, _ => Slot(Word(0, false), seq(4 + payloadSize, _ => 0))),
         0, seq(maxSubscribers, _ => None), Idle, seq(maxSubscribers, _ => Sub(Free, 0, false, [])), [])
  }

  // ── Steps ───────────────────────────────────────────────────────────────────

  predicate Enabled(r: Ring, a: Action) {
    match a
    case Publish(d) => r.pub.Idle? && |d| <= r.payloadSize && r.tail + 1 < MAX_TAIL
    case PubStep => !r.pub.Idle? && (r.pub.Copying? ==> r.pub.k <= 4 + |r.pub.data| <= 4 + r.payloadSize)
    case Claim(j, t0) => j < |r.subs| == |r.cursors| && r.subs[j].pc.Free? && r.cursors[j].None? && t0 <= r.tail
    case Resync(j) => j < |r.subs| && r.subs[j].pc.Claimed?
    case Start(j, at) => j < |r.subs| && r.subs[j].pc.Synced? && at <= r.subs[j].pc.resync
    case Park(j) => j < |r.subs| && r.subs[j].pc.Synced?
    case Promote(j, at) => j < |r.subs| && r.subs[j].pc.Parked? && r.subs[j].pc.resync <= at <= r.tail
    case Poll(j) => j < |r.subs| && r.subs[j].pc.Ready?
    case SubStep(j) =>
      && j < |r.subs|
      && (r.subs[j].pc.Probing? || r.subs[j].pc.Fetching? || r.subs[j].pc.Advancing?)
      && (r.subs[j].pc.Fetching? && |r.subs[j].pc.buf| >= 4 ==>
            |r.subs[j].pc.buf| <= 4 + FromLE(r.subs[j].pc.buf[..4]))
    case Oversize(j, room) =>
      && j < |r.subs| == |r.cursors| && r.subs[j].pc.Fetching? && |r.subs[j].pc.buf| == 4
      && room < FromLE(r.subs[j].pc.buf) <= r.payloadSize
    case Release(j) =>
      && j < |r.subs|
      && (r.subs[j].pc.Claimed? || r.subs[j].pc.Synced? || r.subs[j].pc.Parked? || r.subs[j].pc.Ready?)
  }

  /** One shared access of the publisher. */
  function PubNext(r: Ring): Ring
    requires Shape(r) && Enabled(r, PubStep)
  {
    var s := SlotIndex(r.tail, r.capacity);
    match r.pub
    case Scanning(d, i, min) =>
      if i < |r.cursors| then r.(pub := Scanning(d, i + 1, MinOf(min, r.cursors[i])))
      else if Full(r.tail, min, r.capacity) then r.(pub := Idle)
      else r.(pub := Marking(d))
    case Marking(d) =>
      r.(slots := r.slots[s := r.slots[s].(word := Word(r.tail, true))], pub := Copying(d, 0))
    case Copying(d, k) =>
      if k < 4 + |d| then
        r.(slots := r.slots[s := r.slots[s].(mem := r.slots[s].mem[k := Image(d)[k]])], pub := Copying(d, k + 1))
      else
        r.(slots := r.slots[s := r.slots[s].(word := Word(r.tail, false))], pub := Storing, log := r.log + [d])
    case Storing => r.(tail := r.tail + 1, pub := Idle)
  }

  /** Re-entering the retry loop of `try_receive` one attempt later. */
  function Retry(pc: Pc, effective: nat): Pc
    requires pc.Probing? || pc.Fetching?
  {
    if pc.tries <= 1 then Ready(pc.cursor) else Probing(pc.cursor, effective, pc.tries - 1)
  }

  /** One shared access of a reader; only the advance writes, to its own cursor entry. */
  function ReaderPc(r: Ring, pc: Pc): Pc
    requires Shape(r) && (pc.Probing? || pc.Fetching?)
    requires pc.Fetching? && |pc.buf| >= 4 ==> |pc.buf| <= 4 + FromLE(pc.buf[..4])
  {
    var slot := r.slots[SlotIndex(pc.effective, r.capacity)];
    match pc
    case Probing(c, e, t) =>
      if slot.word.writing then Retry(pc, e)
      else if slot.word.pos > e then Retry(pc, slot.word.pos)
      else if slot.word.pos < e then Ready(c)
      else Fetching(c, e, t, [])
    case Fetching(c, e, t, buf) =>
      if |buf| < 4 then Fetching(c, e, t, buf + [slot.mem[|buf|]])
      else if FromLE(buf[..4]) > r.payloadSize then Retry(pc, e)
      else if |buf| < 4 + FromLE(buf[..4]) then Fetching(c, e, t, buf + [slot.mem[|buf|]])
      else if slot.word != Word(e, false) then Retry(pc, if slot.word.pos > e then slot.word.pos else e)
      else Advancing(c, e, buf[4..])
  }

  function SetSub(r: Ring, j: nat, cursor: Option<nat>, sub: Sub): Ring
    requires j < |r.subs| == |r.cursors|
  {
    r.(cursors := r.cursors[j := cursor], subs := r.subs[j := sub])
  }

  /** A cursor store that lands in time: nothing from `at` on is overwritten yet, and no publish that has decided, or
      has scanned past the entry without meeting a cursor at or before `at`, is about to take the slot of `at`. */
  predicate InTime(r: Ring, j: nat, at: nat) {
    && r.tail - at <= r.capacity
    && (r.pub.Marking? || r.pub.Copying? || r.pub.Storing? ==> r.tail - at < r.capacity)
    && (r.pub.Scanning? && j < r.pub.i ==>
          r.tail - at < r.capacity || (r.pub.min.Some? && r.pub.min.value <= at))
  }

  function Next(r: Ring, a: Action): Ring
    requires Shape(r) && Enabled(r, a)
  {
    match a
    case Publish(d) => r.(pub := if r.policy.Error? then Scanning(d, 0, None) else Marking(d))
    case PubStep => PubNext(r)
    case Claim(j, t0) => SetSub(r, j, Some(t0), Sub(Claimed, 0, false, []))
    case Resync(j) => SetSub(r, j, r.cursors[j], r.subs[j].(pc := Synced(r.tail)))
    case Start(j, at) => SetSub(r, j, Some(at), Sub(Ready(at), at, InTime(r, j, at), []))
    case Park(j) => SetSub(r, j, Some(r.subs[j].pc.resync), r.subs[j].(pc := Parked(r.subs[j].pc.resync)))
    case Promote(j, at) => SetSub(r, j, Some(at), Sub(Ready(at), at, true, []))
    case Poll(j) =>
      var c := r.subs[j].pc.cursor;
      if c < r.tail then SetSub(r, j, r.cursors[j], r.subs[j].(pc := Probing(c, c, MAX_RETRIES))) else r
    case SubStep(j) =>
      if r.subs[j].pc.Advancing? then
        var Advancing(_, e, payload) := r.subs[j].pc;
        SetSub(r, j, Some(e + 1), r.subs[j].(pc := Ready(e + 1), got := r.subs[j].got + [Message(e, payload)]))
      else SetSub(r, j, r.cursors[j], r.subs[j].(pc := ReaderPc(r, r.subs[j].pc)))
    case Oversize(j, _) =>
      var Fetching(_, e, _, buf) := r.subs[j].pc;
      SetSub(r, j, Some(e + 1), r.subs[j].(pc := Ready(e + 1), got := r.subs[j].got + [TooLarge(e, FromLE(buf))]))
    case Release(j) => SetSub(r, j, None, Sub(Free, 0, false, []))
  }

  /** A run: every action was enabled when it was taken. */
  ghost predicate Reaches(r: Ring, actions: seq<Action>, r': Ring)
    decreases |actions|
  {
    if actions == [] then r' == r
    else Shape(r) && Enabled(r, actions[0]) && Reaches(Next(r, actions[0]), actions[1..], r')
  }

  // ── The invariant ───────────────────────────────────────────────────────────

  predicate LogOk(r: Ring) {
    && r.tail < MAX_TAIL
    && |r.log| == (if r.pub.Storing? then r.tail + 1 else r.tail)
    && (forall p :: 0 <= p < |r.log| ==> |r.log[p]| <= r.payloadSize)
    && (!r.pub.Idle? ==> r.tail + 1 < MAX_TAIL)
    && (r.pub.Scanning? || r.pub.Marking? || r.pub.Copying? ==> |r.pub.data| <= r.payloadSize)
    && (r.pub.Copying? ==> r.pub.k <= 4 + |r.pub.data|)
    && (r.pub.Scanning? && r.pub.min.Some? ==> r.pub.min.value <= r.tail)
  }

  /** The slot holds exactly what was published at `p`. */
  predicate Holds(slot: Slot, p: nat, log: seq<Payload>) {
    p < |log| && slot.word == Word(p, false) && Image(log[p]) <= slot.mem
  }

  predicate Rewriting(r: Ring, s: nat)
    requires r.capacity > 0
  {
    r.pub.Copying? && SlotIndex(r.tail, r.capacity) == s
  }

  predicate SlotOk(r: Ring, s: nat)
    requires r.capacity > 0 && s < |r.slots|
  {
    var slot := r.slots[s];
    if Rewriting(r, s) then
      && slot.word == Word(r.tail, true)
      && r.pub.k <= 4 + |r.pub.data| && r.pub.k <= |slot.mem|
      && slot.mem[..r.pub.k] == Image(r.pub.data)[..r.pub.k]
    else if s < |r.log| then Holds(slot, slot.word.pos, r.log) && SlotIndex(slot.word.pos, r.capacity) == s
    else slot.word == Word(0, false)
  }

  /** Once position `p` is committed, its slot never goes back before it. */
  predicate NotBefore(word: Word, p: nat) {
    word.pos >= p && (word.pos == p ==> !word.writing)
  }

  predicate SlotsOk(r: Ring)
    requires r.capacity > 0
  {
    && |r.slots| == r.capacity
    && (forall s :: 0 <= s < |r.slots| ==> SlotOk(r, s))
    && (forall p {:trigger SlotIndex(p, r.capacity)} :: 0 <= p < |r.log| ==>
         NotBefore(r.slots[SlotIndex(p, r.capacity)].word, p))
  }

  /** The bytes copied so far are those of position `e`, or the slot has visibly moved on. */
  predicate CopyOk(r: Ring, e: nat, buf: seq<byte>)
    requires 0 < r.capacity == |r.slots|
  {
    && e < |r.log|
    && (|buf| >= 4 ==> |buf| <= 4 + FromLE(buf[..4]))
    && (r.slots[SlotIndex(e, r.capacity)].word == Word(e, false) ==> buf <= Image(r.log[e]))
  }

  predicate PcOk(r: Ring, pc: Pc)
    requires 0 < r.capacity == |r.slots|
  {
    match pc
    case Free => true
    case Claimed => true
    case Synced(t) => t <= r.tail
    case Parked(t) => t <= r.tail
    case Ready(c) => c <= |r.log|
    case Probing(c, e, t) =>
      c < r.tail && c <= e && (e < |r.log| || (e == r.tail && r.slots[SlotIndex(e, r.capacity)].word == Word(e, true)))
    case Fetching(c, e, t, buf) => c < r.tail && c <= e && CopyOk(r, e, buf)
    case Advancing(c, e, payload) => c < r.tail && c <= e < |r.log| && payload == r.log[e]
  }

  /** A message is the one published at its position. */
  predicate Genuine(e: Seen, log: seq<Payload>) { e.pos < |log| && (e.Message? ==> e.payload == log[e.pos]) }

  /** And a report has its length. */
  predicate Exact(e: Seen, log: seq<Payload>) { Genuine(e, log) && (e.TooLarge? ==> e.len == |log[e.pos]|) }

  /** The positions increase, are below the cursor, and messages carry what was published there. */
  predicate HistoryOk(sub: Sub, log: seq<Payload>) {
    && (forall i :: 0 <= i < |sub.got| ==> Genuine(sub.got[i], log))
    && (forall i, k :: 0 <= i < k < |sub.got| ==> sub.got[i].pos < sub.got[k].pos)
    && (Reading(sub.pc) ==> forall i :: 0 <= i < |sub.got| ==> sub.got[i].pos < sub.pc.cursor)
  }

  predicate Reading(pc: Pc) {
    pc.Ready? || pc.Probing? || pc.Fetching? || pc.Advancing?
  }

  /** The first position the tenant may still need, if it was promised everything from some position on. */
  function Need(sub: Sub): Option<nat> {
    match sub.pc
    case Synced(t) => Some(t)
    case Parked(t) => Some(t)
    case _ => if Reading(sub.pc) && sub.promised then Some(sub.pc.cursor) else None
  }

  /** Under the Error policy nothing a tenant still needs is overwritten, now or by the write in progress. */
  predicate NeedOk(r: Ring, j: nat)
    requires j < |r.subs| == |r.cursors|
  {
    var need := Need(r.subs[j]);
    need.Some? && r.policy.Error? ==>
      var n := need.value;
      && r.cursors[j].Some? && r.cursors[j].value <= n
      && r.tail - n <= r.capacity
      && (r.pub.Marking? || r.pub.Copying? || r.pub.Storing? ==> r.tail - n < r.capacity)
      && (r.pub.Scanning? && j < r.pub.i ==>
            r.tail - n < r.capacity || (r.pub.min.Some? && r.pub.min.value <= n))
  }

  /** A promised tenant has received every position from its first one up to its cursor. */
  predicate PromiseKept(sub: Sub, log: seq<Payload>) {
    Reading(sub.pc) && sub.promised ==>
      && sub.pc.cursor == sub.first + |sub.got|
      && (forall i :: 0 <= i < |sub.got| ==> sub.got[i].pos == sub.first + i && Exact(sub.got[i], log))
      && (!sub.pc.Ready? ==> sub.pc.effective == sub.pc.cursor)
  }

  predicate SubOk(r: Ring, j: nat)
    requires 0 < r.capacity == |r.slots| && j < |r.subs| == |r.cursors|
  {
    && PcOk(r, r.subs[j].pc)
    && HistoryOk(r.subs[j], r.log)
    && NeedOk(r, j)
    && (r.policy.Error? ==> PromiseKept(r.subs[j], r.log))
    && (r.cursors[j].None? <==> r.subs[j].pc.Free?)
    && (r.cursors[j].Some? ==> r.cursors[j].value <= if r.subs[j].pc.Claimed? then r.tail else |r.log|)
  }

  predicate Inv(r: Ring) {
    && Shape(r) && LogOk(r) && SlotsOk(r)
    && forall j :: 0 <= j < |r.subs| ==> SubOk(r, j)
  }

  // ── Preservation ────────────────────────────────────────────────────────────

  lemma {:induction false} InitOk(capacity: nat, payloadSize: nat, maxSubscribers: nat, policy: Policy)
    requires 0 < capacity < U32 && payloadSize < U32
    ensures Inv(Init(capacity, payloadSize, maxSubscribers, policy))
  {
  }

  /** Positions that share a slot and lie less than a lap apart are the same. */
  lemma {:induction false} SameSlot(a: nat, b: nat, capacity: nat)
    requires capacity > 0 && SlotIndex(a, capacity) == SlotIndex(b, capacity) && a <= b < a + capacity
    ensures a == b
  {
    var d := b - a;
    assert b == a + d;
    var qa, qb := a / capacity, b / capacity;
    assert a == capacity * qa + a % capacity && b == capacity * qb + b % capacity;
    assert d == capacity * (qb - qa);
    if qb - qa >= 1 { MulGap(capacity, qb - qa); }
    if qb - qa <= -1 { MulGap(capacity, qb - qa); }
  }

  /** Mark: the slot of the new position starts its write; no reader can mistake it for an older one. */
  lemma {:induction false} MarkKeeps(r: Ring)
    requires Inv(r) && r.pub.Marking?
    ensures Inv(PubNext(r))
  {
    var r', s := PubNext(r), SlotIndex(r.tail, r.capacity);
    forall k | 0 <= k < |r'.slots| ensures SlotOk(r', k) { assert SlotOk(r, k); }
    forall j | 0 <= j < |r'.subs| ensures SubOk(r', j) { assert SubOk(r, j); }
  }

  lemma {:induction false} CopyKeeps(r: Ring)
    requires Inv(r) && r.pub.Copying? && r.pub.k < 4 + |r.pub.data|
    ensures Inv(PubNext(r))
  {
    var r', s := PubNext(r), SlotIndex(r.tail, r.capacity);
    assert SlotOk(r, s);
    var m, m' := r.slots[s].mem, r'.slots[s].mem;
    assert m'[..r.pub.k + 1] == m[..r.pub.k] + [Image(r.pub.data)[r.pub.k]];
    assert m'[..r.pub.k + 1] == Image(r.pub.data)[..r.pub.k + 1];
    forall k | 0 <= k < |r'.slots| ensures SlotOk(r', k) { assert SlotOk(r, k); }
    forall j | 0 <= j < |r'.subs| ensures SubOk(r', j) { assert SubOk(r, j); }
  }

  /** Commit: the slot now holds the new position, and every other slot what it held. */
  lemma {:induction false} CommitSlot(r: Ring, k: nat)
    requires Inv(r) && r.pub.Copying? && r.pub.k == 4 + |r.pub.data| && k < |r.slots|
    ensures SlotOk(PubNext(r), k)
  {
    var r', s := PubNext(r), SlotIndex(r.tail, r.capacity);
    assert SlotOk(r, k);
    hide SlotsOk, SubOk, SlotIndex;
    if k == s {
      assert Image(r.pub.data)[..r.pub.k] == Image(r.pub.data);
      assert r.slots[s].mem[..r.pub.k] == Image(r.pub.data);
      assert Holds(r'.slots[s], r.tail, r'.log);
    } else if k < |r.log| {
      assert r'.slots[k] == r.slots[k];
      assert Holds(r'.slots[k], r'.slots[k].word.pos, r'.log);
    }
  }

  lemma {:induction false} CommitSub(r: Ring, j: nat)
    requires Inv(r) && r.pub.Copying? && r.pub.k == 4 + |r.pub.data| && j < |r.subs|
    ensures SubOk(PubNext(r), j)
  {
    assert SubOk(r, j);
    hide SlotOk;
  }

  lemma {:induction false} CommitKeeps(r: Ring)
    requires Inv(r) && r.pub.Copying? && r.pub.k == 4 + |r.pub.data|
    ensures Inv(PubNext(r))
  {
    forall k | 0 <= k < |r.slots| ensures SlotOk(PubNext(r), k) { CommitSlot(r, k); }
    hide SlotOk;
    forall j | 0 <= j < |r.subs| ensures SubOk(PubNext(r), j) { CommitSub(r, j); }
  }

  /** Within one generation the wrapped subtraction is an ordinary one: cursors are never ahead of the log. */
  lemma {:induction false} FullExact(r: Ring)
    requires Inv(r) && r.pub.Scanning?
    ensures Full(r.tail, r.pub.min, r.capacity) <==> r.pub.min.Some? && r.tail - r.pub.min.value >= r.capacity
  {
  }

  /** Scan: the minimum so far bounds what every tenant already passed still needs. */
  lemma {:induction false} ScanSub(r: Ring, j: nat)
    requires Inv(r) && r.pub.Scanning? && r.pub.i < |r.cursors| && j < |r.subs|
    ensures SubOk(PubNext(r), j)
  {
    assert SubOk(r, j) && SubOk(r, r.pub.i);
    hide SlotOk, SlotsOk;
  }

  /** End of the scan: the write may start only if no slot still needed is a whole lap behind. */
  lemma {:induction false} DecideSub(r: Ring, j: nat)
    requires Inv(r) && r.pub.Scanning? && r.pub.i >= |r.cursors| && j < |r.subs|
    ensures SubOk(PubNext(r), j)
  {
    assert SubOk(r, j);
    hide SlotOk, SlotsOk;
    var need := Need(r.subs[j]);
    if need.Some? && r.policy.Error? && !Full(r.tail, r.pub.min, r.capacity) {
      var min := if r.pub.min.Some? then r.pub.min.value else r.tail;
      FullExact(r);
      assert r.tail - min < r.capacity;
    }
  }

  lemma {:induction false} ScanKeeps(r: Ring)
    requires Inv(r) && r.pub.Scanning?
    ensures Inv(PubNext(r))
  {
    var r' := PubNext(r);
    forall k | 0 <= k < |r'.slots| ensures SlotOk(r', k) { assert SlotOk(r, k); }
    hide SlotOk;
    if r.pub.i < |r.cursors| { assert SubOk(r, r.pub.i); }
    forall j | 0 <= j < |r.subs| ensures SubOk(r', j) {
      if r.pub.i < |r.cursors| { ScanSub(r, j); } else { DecideSub(r, j); }
    }
  }

  lemma {:induction false} StoreKeeps(r: Ring)
    requires Inv(r) && r.pub.Storing?
    ensures Inv(PubNext(r))
  {
    var r' := PubNext(r);
    forall k | 0 <= k < |r'.slots| ensures SlotOk(r', k) { assert SlotOk(r, k); }
    hide SlotOk;
    forall j | 0 <= j < |r.subs| ensures SubOk(r', j) { assert SubOk(r, j); }
  }

  lemma {:induction false} PublishKeeps(r: Ring, d: Payload)
    requires Inv(r) && Enabled(r, Publish(d))
    ensures Inv(Next(r, Publish(d)))
  {
    var r' := Next(r, Publish(d));
    forall k | 0 <= k < |r'.slots| ensures SlotOk(r', k) { assert SlotOk(r, k); }
    hide SlotOk;
    forall j | 0 <= j < |r.subs| ensures SubOk(r', j) { assert SubOk(r, j); }
  }

  /** A tenant's step touches its own entry only, so the invariant is kept if its own part is. */
  lemma {:induction false} OwnStep(r: Ring, j: nat, cursor: Option<nat>, sub: Sub)
    requires Inv(r) && j < |r.subs|
    requires SubOk(SetSub(r, j, cursor, sub), j)
    ensures Inv(SetSub(r, j, cursor, sub))
  {
    var r' := SetSub(r, j, cursor, sub);
    forall k | 0 <= k < |r'.slots| ensures SlotOk(r', k) { assert SlotOk(r, k); }
    hide SlotOk;
    forall k | 0 <= k < |r'.subs| ensures SubOk(r', k) { assert SubOk(r, k); }
  }

  lemma {:induction false} ClaimKeeps(r: Ring, a: Action)
    requires Inv(r) && Enabled(r, a) && (a.Claim? || a.Resync?)
    ensures Inv(Next(r, a))
  {
    assert SubOk(r, a.j);
    hide SlotOk, SlotsOk, SlotIndex;
    if a.Claim? {
      OwnStep(r, a.j, Some(a.loaded), Sub(Claimed, 0, false, []));
    } else {
      OwnStep(r, a.j, r.cursors[a.j], r.subs[a.j].(pc := Synced(r.tail)));
    }
  }

  lemma {:induction false} StartKeeps(r: Ring, a: Action)
    requires Inv(r) && Enabled(r, a) && (a.Start? || a.Park? || a.Promote?)
    ensures Inv(Next(r, a))
  {
    assert SubOk(r, a.j);
    hide SlotOk, SlotsOk, SlotIndex;
    match a {
      case Start(j, at) => OwnStep(r, j, Some(at), Sub(Ready(at), at, InTime(r, j, at), []));
      case Park(j) => OwnStep(r, j, Some(r.subs[j].pc.resync), r.subs[j].(pc := Parked(r.subs[j].pc.resync)));
      case Promote(j, at) => OwnStep(r, j, Some(at), Sub(Ready(at), at, true, []));
    }
  }

  lemma {:induction false} PollKeeps(r: Ring, a: Action)
    requires Inv(r) && Enabled(r, a) && (a.Poll? || a.Release?)
    ensures Inv(Next(r, a))
  {
    assert SubOk(r, a.j);
    hide SlotOk, SlotsOk;
    if a.Release? {
      OwnStep(r, a.j, None, Sub(Free, 0, false, []));
    } else {
      var c := r.subs[a.j].pc.cursor;
      if c < r.tail { OwnStep(r, a.j, r.cursors[a.j], r.subs[a.j].(pc := Probing(c, c, MAX_RETRIES))); }
    }
  }

  /** A promised reader finds its position in place: never overwritten, never being overwritten. */
  lemma {:induction false} PromisedSlot(r: Ring, j: nat)
    requires Inv(r) && r.policy.Error? && j < |r.subs| && r.subs[j].promised
    requires Reading(r.subs[j].pc) && r.subs[j].pc.cursor < r.tail
    ensures var c := r.subs[j].pc.cursor;
            r.slots[SlotIndex(c, r.capacity)].word == Word(c, false) &&
            Holds(r.slots[SlotIndex(c, r.capacity)], c, r.log)
  {
    var c := r.subs[j].pc.cursor;
    var s := SlotIndex(c, r.capacity);
    assert SubOk(r, j) && SlotOk(r, s);
    assert r.tail - c <= r.capacity && (r.pub.Copying? || r.pub.Storing? ==> r.tail - c < r.capacity);
    if Rewriting(r, s) {
      SameSlot(c, r.tail, r.capacity);
    } else {
      assert NotBefore(r.slots[s].word, c);
      SameSlot(c, r.slots[s].word.pos, r.capacity);
    }
  }

  /** What a slot's word can be once position `e` was committed there. */
  lemma {:induction false} WordAfter(r: Ring, e: nat)
    requires Inv(r) && e < |r.log|
    ensures var w := r.slots[SlotIndex(e, r.capacity)].word;
            && (w == Word(e, false) || w.pos > e)
            && (w.writing ==> w.pos == r.tail && SlotIndex(r.tail, r.capacity) == SlotIndex(e, r.capacity))
            && (!w.writing ==> w.pos < |r.log|)
    ensures var slot := r.slots[SlotIndex(e, r.capacity)];
            slot.word == Word(e, false) ==> Holds(slot, e, r.log)
  {
    var s := SlotIndex(e, r.capacity);
    assert SlotOk(r, s) && NotBefore(r.slots[s].word, e);
  }

  /** A byte of the slot extends the copy; a copy that passes the second check is the published payload. */
  lemma {:induction false} FetchPc(r: Ring, pc: Pc)
    requires Inv(r) && pc.Fetching? && PcOk(r, pc)
    ensures PcOk(r, ReaderPc(r, pc))
  {
    var Fetching(c, e, t, buf) := pc;
    var s := SlotIndex(e, r.capacity);
    WordAfter(r, e);
    hide SlotsOk, SubOk, SlotIndex;
    if r.slots[s].word == Word(e, false) { FetchedBytes(r, s, e, buf); }
    var pc' := ReaderPc(r, pc);
    if pc'.Fetching? { LonelyByte(buf, r.slots[s].mem[|buf|]); }
  }

  /** The length is decoded once its four bytes are there, and bytes after them do not change it. */
  lemma {:induction false} LonelyByte(buf: seq<byte>, b: byte)
    ensures |buf| >= 4 ==> (buf + [b])[..4] == buf[..4]
    ensures |buf| == 3 ==> |buf + [b]| <= 4 + FromLE((buf + [b])[..4])
  {
  }

  lemma {:induction false} ProbePc(r: Ring, pc: Pc)
    requires Inv(r) && pc.Probing? && PcOk(r, pc)
    ensures PcOk(r, ReaderPc(r, pc))
  {
    if pc.effective < |r.log| { WordAfter(r, pc.effective); }
    hide SlotsOk, SubOk, SlotIndex;
  }

  /** A promised reader is never turned away from its position: it copies and then advances. */
  lemma {:induction false} PromisedStep(r: Ring, j: nat)
    requires Inv(r) && r.policy.Error? && Enabled(r, SubStep(j)) && r.subs[j].promised && !r.subs[j].pc.Advancing?
    ensures var pc' := ReaderPc(r, r.subs[j].pc);
            (pc'.Fetching? || pc'.Advancing?) && pc'.effective == pc'.cursor == r.subs[j].pc.cursor
  {
    var pc := r.subs[j].pc;
    assert SubOk(r, j);
    PromisedSlot(r, j);
    hide SlotsOk, SlotIndex;
    if pc.Fetching? { FetchedBytes(r, SlotIndex(pc.effective, r.capacity), pc.effective, pc.buf); }
  }

  lemma {:induction false} AdvanceKeeps(r: Ring, j: nat)
    requires Inv(r) && Enabled(r, SubStep(j)) && r.subs[j].pc.Advancing?
    ensures Inv(Next(r, SubStep(j)))
  {
    assert SubOk(r, j);
    hide SlotsOk, SlotOk, SlotIndex;
    var Advancing(c, e, payload) := r.subs[j].pc;
    OwnStep(r, j, Some(e + 1), r.subs[j].(pc := Ready(e + 1), got := r.subs[j].got + [Message(e, payload)]));
  }

  lemma {:induction false} ReadKeeps(r: Ring, j: nat)
    requires Inv(r) && Enabled(r, SubStep(j)) && !r.subs[j].pc.Advancing?
    ensures Inv(Next(r, SubStep(j)))
  {
    assert SubOk(r, j);
    var sub := r.subs[j];
    var pc' := ReaderPc(r, sub.pc);
    if sub.pc.Probing? { ProbePc(r, sub.pc); } else { FetchPc(r, sub.pc); }
    if r.policy.Error? && sub.promised { PromisedStep(r, j); }
    assert Reading(pc') && pc'.cursor == sub.pc.cursor;
    hide SlotsOk, SlotIndex, ReaderPc, PcOk, SlotOk;
    OwnStep(r, j, r.cursors[j], sub.(pc := pc'));
  }

  /** While the slot still carries position `e`, the next byte read is the next byte published. */
  lemma {:induction false} FetchedBytes(r: Ring, s: nat, e: nat, buf: seq<byte>)
    requires Shape(r) && LogOk(r) && s < |r.slots| && Holds(r.slots[s], e, r.log) && buf <= Image(r.log[e])
    ensures |buf| >= 4 ==> FromLE(buf[..4]) == |r.log[e]|
    ensures |buf| < 4 + |r.log[e]| ==> buf + [r.slots[s].mem[|buf|]] <= Image(r.log[e])
    ensures |buf| == 4 + |r.log[e]| ==> buf[4..] == r.log[e]
  {
    var image := Image(r.log[e]);
    if |buf| >= 4 {
      assert buf[..4] == LE(|r.log[e]|, 4);
      RoundTrip32(|r.log[e]|);
    }
  }

  /** An oversize report: of a promised reader it names the length of the published message. */
  lemma {:induction false} OversizeKeeps(r: Ring, a: Action)
    requires Inv(r) && Enabled(r, a) && a.Oversize?
    ensures Inv(Next(r, a))
  {
    assert SubOk(r, a.j);
    var Fetching(c, e, t, buf) := r.subs[a.j].pc;
    assert buf[..4] == buf;
    if r.policy.Error? && r.subs[a.j].promised {
      PromisedSlot(r, a.j);
      FetchedBytes(r, SlotIndex(e, r.capacity), e, buf);
    }
    hide SlotsOk, SlotOk, SlotIndex;
    OwnStep(r, a.j, Some(e + 1), r.subs[a.j].(pc := Ready(e + 1), got := r.subs[a.j].got + [TooLarge(e, FromLE(buf))]));
  }

  lemma {:induction false} StepKeeps(r: Ring, a: Action)
    requires Inv(r) && Enabled(r, a)
    ensures Inv(Next(r, a))
  {
    match a {
      case Publish(d) => PublishKeeps(r, d);
      case PubStep =>
        match r.pub {
          case Scanning(_, _, _) => ScanKeeps(r);
          case Marking(_) => MarkKeeps(r);
          case Copying(_, k) => if k < 4 + |r.pub.data| { CopyKeeps(r); } else { CommitKeeps(r); }
          case Storing => StoreKeeps(r);
        }
      case Claim(_, _) => ClaimKeeps(r, a);
      case Resync(_) => ClaimKeeps(r, a);
      case Start(_, _) => StartKeeps(r, a);
      case Park(_) => StartKeeps(r, a);
      case Promote(_, _) => StartKeeps(r, a);
      case Poll(_) => PollKeeps(r, a);
      case Release(_) => PollKeeps(r, a);
      case Oversize(_, _) => OversizeKeeps(r, a);
      case SubStep(j) => if r.subs[j].pc.Advancing? { AdvanceKeeps(r, j); } else { ReadKeeps(r, j); }
    }
  }

  lemma {:induction false} RunKeeps(r: Ring, actions: seq<Action>, r': Ring)
    requires Inv(r) && Reaches(r, actions, r')
    ensures Inv(r')
    decreases |actions|
  {
    hide Inv, Enabled, Next, Shape;
    if actions != [] {
      StepKeeps(r, actions[0]);
      RunKeeps(Next(r, actions[0]), actions[1..], r');
    }
  }

  lemma {:induction false} PolicyFixed(r: Ring, actions: seq<Action>, r': Ring)
    requires Reaches(r, actions, r')
    ensures r'.policy == r.policy && r'.capacity == r.capacity && |r'.subs| == |r.subs|
    decreases |actions|
  {
    if actions != [] { PolicyFixed(Next(r, actions[0]), actions[1..], r'); }
  }

  // ── Main results, over every run from creation ──────────────────────────────

  /** No torn read: under either policy every payload handed out is exactly what was published at its position,
      and a subscriber's positions, those of its oversize reports included, strictly increase. */
  lemma {:induction false} NoTornRead(capacity: nat, payloadSize: nat, maxSubscribers: nat, policy: Policy,
          actions: seq<Action>, r: Ring, j: nat)
    requires 0 < capacity < U32 && payloadSize < U32
    requires Reaches(Init(capacity, payloadSize, maxSubscribers, policy), actions, r) && j < |r.subs|
    ensures var got := r.subs[j].got;
            && (forall i :: 0 <= i < |got| ==> Genuine(got[i], r.log))
            && (forall i, k :: 0 <= i < k < |got| ==> got[i].pos < got[k].pos)
  {
    InitOk(capacity, payloadSize, maxSubscribers, policy);
    RunKeeps(Init(capacity, payloadSize, maxSubscribers, policy), actions, r);
    assert SubOk(r, j);
  }

  /** Exactly-once FIFO: under the Error policy a subscriber that starts at the tail it resynchronised with, or
      is promoted from a parked cursor, gets that position, the next, and so on, each with its payload or, if that is
      too large for the caller's buffer, with a report of its length. */
  lemma {:induction false} ExactlyOnceFifo(capacity: nat, payloadSize: nat, maxSubscribers: nat, actions: seq<Action>,
          r: Ring, j: nat)
    requires 0 < capacity < U32 && payloadSize < U32
    requires Reaches(Init(capacity, payloadSize, maxSubscribers, Error), actions, r)
    requires j < |r.subs| && Reading(r.subs[j].pc) && r.subs[j].promised
    ensures var sub := r.subs[j];
            && sub.pc.cursor == sub.first + |sub.got| <= |r.log|
            && (forall i :: 0 <= i < |sub.got| ==> sub.got[i].pos == sub.first + i && Exact(sub.got[i], r.log))
            && r.tail - sub.pc.cursor <= r.capacity
  {
    InitOk(capacity, payloadSize, maxSubscribers, Error);
    PolicyFixed(Init(capacity, payloadSize, maxSubscribers, Error), actions, r);
    RunKeeps(Init(capacity, payloadSize, maxSubscribers, Error), actions, r);
    assert SubOk(r, j);
  }

  /** No cursor runs ahead of the tail, except by the one position whose sequence word is committed and whose
      tail store is still to come. */
  lemma {:induction false} CursorsBehindLog(capacity: nat, payloadSize: nat, maxSubscribers: nat, policy: Policy,
          actions: seq<Action>, r: Ring, j: nat)
    requires 0 < capacity < U32 && payloadSize < U32
    requires Reaches(Init(capacity, payloadSize, maxSubscribers, policy), actions, r)
    requires j < |r.subs| == |r.cursors| && r.cursors[j].Some?
    ensures r.cursors[j].value <= r.tail + 1
    ensures r.cursors[j].value == r.tail + 1 ==> r.pub.Storing?
  {
    InitOk(capacity, payloadSize, maxSubscribers, policy);
    RunKeeps(Init(capacity, payloadSize, maxSubscribers, policy), actions, r);
    assert SubOk(r, j);
  }

  /** Under the Error policy a promised reader that passed the tail check meets neither a retry nor the
      defensive `None`: its position is in place, and its next access moves it on. */
  lemma {:induction false} NeverTurnedAway(capacity: nat, payloadSize: nat, maxSubscribers: nat, actions: seq<Action>,
          r: Ring, j: nat)
    requires 0 < capacity < U32 && payloadSize < U32
    requires Reaches(Init(capacity, payloadSize, maxSubscribers, Error), actions, r)
    requires j < |r.subs| && r.subs[j].promised && (r.subs[j].pc.Probing? || r.subs[j].pc.Fetching?)
    ensures Shape(r) && Enabled(r, SubStep(j))
    ensures var pc' := ReaderPc(r, r.subs[j].pc); pc'.Advancing? || (pc'.Fetching? && pc'.effective == pc'.cursor)
    ensures r.slots[SlotIndex(r.subs[j].pc.cursor, r.capacity)].word == Word(r.subs[j].pc.cursor, false)
  {
    InitOk(capacity, payloadSize, maxSubscribers, Error);
    PolicyFixed(Init(capacity, payloadSize, maxSubscribers, Error), actions, r);
    RunKeeps(Init(capacity, payloadSize, maxSubscribers, Error), actions, r);
    assert SubOk(r, j);
    PromisedStep(r, j);
    PromisedSlot(r, j);
  }

  /** A message too large for the caller's buffer is reported before the second sequence check. The length is that of
      the published message if the slot has not moved on by then, which the Error policy guarantees to a promised
      reader. */
  lemma {:induction false} ReportIsExact(capacity: nat, payloadSize: nat, maxSubscribers: nat, policy: Policy,
          actions: seq<Action>, r: Ring, j: nat, room: nat)
    requires 0 < capacity < U32 && payloadSize < U32
    requires Reaches(Init(capacity, payloadSize, maxSubscribers, policy), actions, r) && Enabled(r, Oversize(j, room))
    ensures Shape(r) && r.subs[j].pc.effective < |r.log|
    ensures var pc := r.subs[j].pc;
            var word := r.slots[SlotIndex(pc.effective, r.capacity)].word;
            && (word == Word(pc.effective, false) ==> FromLE(pc.buf) == |r.log[pc.effective]| > room)
            && (policy.Error? && r.subs[j].promised ==> word == Word(pc.effective, false))
  {
    InitOk(capacity, payloadSize, maxSubscribers, policy);
    PolicyFixed(Init(capacity, payloadSize, maxSubscribers, policy), actions, r);
    RunKeeps(Init(capacity, payloadSize, maxSubscribers, policy), actions, r);
    assert SubOk(r, j);
    var pc := r.subs[j].pc;
    var s := SlotIndex(pc.effective, r.capacity);
    assert pc.buf[..4] == pc.buf;
    WordAfter(r, pc.effective);
    if policy.Error? && r.subs[j].promised { PromisedSlot(r, j); }
    hide SlotsOk, SlotIndex;
    if r.slots[s].word == Word(pc.effective, false) { FetchedBytes(r, s, pc.effective, pc.buf); }
  }

  /** The zeroed slot 0 passes both sequence checks for position 0 before anything is published, and would be
      handed out as an empty message: only the tail check in front of the loop keeps a reader out of it. */
  lemma {:induction false} SlotZeroNeedsTailCheck(r: Ring, maxSubscribers: nat)
    requires Shape(r) && r == Init(r.capacity, r.payloadSize, maxSubscribers, r.policy)
    ensures ReaderPc(r, Probing(0, 0, MAX_RETRIES)) == Fetching(0, 0, MAX_RETRIES, [])
    ensures FromLE([0, 0, 0, 0][..4]) == 0
    ensures ReaderPc(r, Fetching(0, 0, MAX_RETRIES, [0, 0, 0, 0])) == Advancing(0, 0, [])
    ensures forall j :: 0 <= j < maxSubscribers ==> !Enabled(r, SubStep(j))
  {
    hide FromLE;
    ZeroLength();
    assert [0, 0, 0, 0][..4] == [0, 0, 0, 0];
  }
}
