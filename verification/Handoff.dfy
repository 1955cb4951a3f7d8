/** From replay to the live ring: `connect_with`, `next_wal_record` and `receive_into` of
    crates/mmbus/src/subscriber.rs, for a subscriber that starts at an explicit cursor behind the ring, while the
    publisher of crates/mmbus/src/publisher.rs publishes under the Error policy.

    A publish appends to the log, scans the cursors again, and then stores the tail; the subscriber's steps fall
    anywhere between. After a refused second scan the log is one record ahead of the ring, and the next publish offers
    it the same cursor again: the v2 log takes it, and so does the v0.1 log if it rotates (module Publisher).
    `snapshot` distinguishes the v0.1 log, whose reader looks at the length of a file when it opens it, from the v2
    log, whose reader follows the tail. What is appended can be read at once, and retention keeps the segments that a
    replay has listed. */
module Handoff {
  import opened Bytes
  import opened WalRecord
  import opened SegmentLog
  import opened RingBuffer
  import RingProtocol

  type Payload = RingProtocol.Payload

  /** An open segment file: the next record to look at, and how many it had when it was opened. */
  datatype Reader = Reader(k: nat, limit: nat)

  /** `tail` is the tail loaded after the handshake; the replay lists `n` segments from index `at` of the log on, and
      is at the one with index `at + pos`. `overtook` is a history variable: the tail at the promotion, if the
      replay had already handed out a record for that position. */
  datatype Phase =
    | Claimed
    | Loaded(tail: nat)
    | Listed(tail: nat, at: nat, n: nat)
    | Replaying(tail: nat, at: nat, n: nat, pos: nat, open: Option<Reader>)
    | Live(overtook: Option<nat>)

  /** The subscriber: its entry in the ring's cursor table, its own cursor, and what it has handed out. `read` and
      `taken` are history variables: the replay has looked at the records before index `read`, and handed out the
      last `taken` of them. */
  datatype Sub = Sub(entry: nat, phase: Phase, cursor: nat, got: seq<(nat, Payload)>, read: nat, taken: nat)

  /** Where the publisher is: before the append, before the second scan, or with the write decided. */
  datatype Pub = Idle | Appended | Writing

  /** `records` is everything that was ever appended to the log, and `cuts` says where in it the segment files that
      are left start. `posted` holds the message of each position, `tail` of which are in the ring; if there is one
      more, it is the one appended last. `from` is the cursor the subscriber asked for, `others` the smallest cursor
      of all other subscribers. */
  datatype World = World(
    capacity: nat, snapshot: bool, from: nat, records: seq<Record>, cuts: seq<nat>, posted: seq<Payload>, tail: nat,
    others: Option<nat>, pub: Pub)

  datatype State = State(w: World, sub: Option<Sub>)

  datatype Action =
    | Append(d: Payload, ts: u64, rotate: bool)
    | Recheck
    | Store
    | Others(min: Option<nat>)
    | Prune
    | Claim(loaded: nat)
    | LoadTail
    | List
    | Park
    | Open
    | Read
    | Promote
    | Receive

  // ── Segments ────────────────────────────────────────────────────────────────

  function CutEnd(w: World, i: nat): nat {
    if i + 1 < |w.cuts| then w.cuts[i + 1] else |w.records|
  }

  /** A file is named by the cursor of its first record; an empty last one by the next cursor. */
  function NameOf(w: World, i: nat): nat
    requires i < |w.cuts|
  {
    if w.cuts[i] < |w.records| then w.records[w.cuts[i]].cursor else |w.posted|
  }

  function SegOf(w: World, i: nat): Segment
    requires i < |w.cuts|
  {
    Segment(NameOf(w, i), if w.cuts[i] <= CutEnd(w, i) <= |w.records| then w.records[w.cuts[i]..CutEnd(w, i)] else [])
  }

  function Segs(w: World): seq<Segment> { seq(|w.cuts|, i requires 0 <= i < |w.cuts| => SegOf(w, i)) }

  /** How many records the file has. */
  function SegLen(w: World, i: nat): nat
    requires i < |w.cuts|
  {
    if w.cuts[i] <= CutEnd(w, i) then CutEnd(w, i) - w.cuts[i] else 0
  }

  /** A later record has the same cursor: a publish was refused by the ring after its append, and the next one was
      appended with the cursor of that record. */
  predicate Superseded(records: seq<Record>, j: nat) {
    j + 1 < |records| && records[j + 1].cursor == records[j].cursor
  }

  // ── The steps ───────────────────────────────────────────────────────────────

  /** The smallest claimed cursor, and the full check of the ring with it. */
  function MinEntry(s: State): Option<nat> {
    RingProtocol.MinOf(s.w.others, if s.sub.Some? then Some(s.sub.value.entry) else None)
  }

  predicate RingFull(s: State) { RingProtocol.Full(s.w.tail, MinEntry(s), s.w.capacity) }

  predicate Replays(s: State) { s.sub.Some? && s.sub.value.phase.Replaying? }

  /** The ring has refused the last record of the log. */
  predicate OneAhead(w: World) { w.pub.Idle? && |w.posted| == w.tail + 1 }

  /** A new segment takes the name of the next record, so it needs a last segment that has a record and another
      name. */
  predicate CanRotate(w: World) {
    w.cuts != [] && w.cuts[|w.cuts| - 1] < |w.records| && NameOf(w, |w.cuts| - 1) != w.tail
  }

  /** A segment is open and has not shrunk. */
  predicate Reads(w: World, sub: Sub) {
    && sub.phase.Replaying? && sub.phase.open.Some? && sub.phase.at + sub.phase.pos < |w.cuts|
    && sub.phase.open.value.limit <= SegLen(w, sub.phase.at + sub.phase.pos)
    && CutEnd(w, sub.phase.at + sub.phase.pos) <= |w.records|
  }

  predicate Enabled(s: State, a: Action) {
    match a
    case Append(_, _, rotate) =>
      && s.w.pub.Idle? && !RingFull(s) && s.w.tail <= |s.w.posted| && s.w.tail + 1 < RingProtocol.MAX_TAIL
      && (rotate ==> CanRotate(s.w)) && (OneAhead(s.w) && s.w.snapshot ==> rotate)
    case Recheck => s.w.pub.Appended?
    case Store => s.w.pub.Writing?
    case Others(m) => m.Some? ==> m.value <= RingProtocol.MAX_TAIL
    case Prune =>
      && |s.w.cuts| > 1
      && (s.sub.Some? && s.sub.value.phase.Listed? ==> s.sub.value.phase.at > 0)
      && (Replays(s) ==> s.sub.value.phase.at > 0)
    case Claim(t0) => s.sub.None? && t0 <= s.w.tail
    case LoadTail => s.sub.Some? && s.sub.value.phase.Claimed?
    case List =>
      && s.sub.Some? && s.sub.value.phase.Loaded? && s.w.from + s.w.capacity < s.sub.value.phase.tail
      && s.w.cuts != [] && s.w.from >= NameOf(s.w, 0)
    case Park => s.sub.Some? && s.sub.value.phase.Listed? && s.sub.value.phase.at < |s.w.cuts|
    case Open => Replays(s) && s.sub.value.phase.open.None? && s.sub.value.phase.pos < s.sub.value.phase.n
                 && s.sub.value.phase.at + s.sub.value.phase.pos < |s.w.cuts|
    case Read => s.sub.Some? && Reads(s.w, s.sub.value)
    case Promote => Replays(s) && s.sub.value.phase.open.None? && s.sub.value.phase.pos == s.sub.value.phase.n
    case Receive =>
      && 0 < s.w.capacity && s.sub.Some? && s.sub.value.phase.Live?
      && s.sub.value.cursor < s.w.tail <= |s.w.posted|
  }

  /** Indices into the log after its first segment went. */
  function Shifted(p: Phase): Phase {
    match p
    case Claimed => p
    case Loaded(_) => p
    case Listed(t, at, n) => if at == 0 then p else Listed(t, at - 1, n)
    case Replaying(t, at, n, pos, open) => if at == 0 then p else Replaying(t, at - 1, n, pos, open)
    case Live(_) => p
  }

  function SetSub(s: State, sub: Sub): State { s.(sub := Some(sub)) }

  /** The ring as this subscriber's reads find it. */
  function RingOf(w: World): Contents
    requires w.tail <= |w.posted|
  {
    Contents(w.capacity, 0, 0, w.posted[..w.tail], [], [])
  }

  /** The log with one more record, in a new segment or the active one. Its cursor is the ring's tail. */
  function Grown(w: World, d: Payload, ts: u64, rotate: bool): World
    requires w.tail <= |w.posted| && w.tail < RingProtocol.MAX_TAIL
  {
    w.(records := w.records + [Record(w.tail, ts, d)], posted := w.posted[..w.tail] + [d], pub := Appended,
       cuts := if w.cuts == [] || rotate then w.cuts + [|w.records|] else w.cuts)
  }

  function Next(s: State, a: Action): State
    requires Enabled(s, a)
  {
    match a
    case Append(d, ts, rotate) => s.(w := Grown(s.w, d, ts, rotate))
    case Recheck => s.(w := s.w.(pub := if RingFull(s) then Idle else Writing))
    case Store => s.(w := s.w.(tail := s.w.tail + 1, pub := Idle))
    case Others(m) => s.(w := s.w.(others := m))
    case Prune =>
      var s' := s.(w := s.w.(cuts := s.w.cuts[1..]));
      if s.sub.Some? then SetSub(s', s.sub.value.(phase := Shifted(s.sub.value.phase))) else s'
    case Claim(t0) => SetSub(s, Sub(t0, Claimed, s.w.from, [], 0, 0))
    case LoadTail => SetSub(s, s.sub.value.(phase := Loaded(s.w.tail)))
    case List =>
      var at := Containing(Segs(s.w), s.w.from);
      SetSub(s, s.sub.value.(phase := Listed(s.sub.value.phase.tail, at, |s.w.cuts| - at)))
    case Park =>
      var Listed(t, at, n) := s.sub.value.phase;
      SetSub(s, s.sub.value.(entry := t, phase := Replaying(t, at, n, 0, None), read := s.w.cuts[at]))
    case Open =>
      var p := s.sub.value.phase;
      SetSub(s, s.sub.value.(phase := p.(open := Some(Reader(0, SegLen(s.w, p.at + p.pos))))))
    case Read => SetSub(s, ReadNext(s.w, s.sub.value))
    case Promote => SetSub(s, Promoted(s.w, s.sub.value))
    case Receive =>
      var sub := s.sub.value;
      var r := Readable(RingOf(s.w), sub.cursor);
      if r.None? then s
      else
        var (next, d) := r.value;
        SetSub(s, sub.(entry := next, cursor := next, got := sub.got + [(next - 1, d)]))
  }

  /** The end of the replay: the entry in the ring is brought up to the cursor. */
  function Promoted(w: World, sub: Sub): Sub {
    sub.(entry := sub.cursor, phase := Live(if sub.cursor > w.tail then Some(w.tail) else None))
  }

  /** The open file has nothing more for this reader. */
  predicate AtFileEnd(w: World, sub: Sub)
    requires Reads(w, sub)
  {
    var p := sub.phase;
    p.open.value.k >= (if w.snapshot then p.open.value.limit else SegLen(w, p.at + p.pos))
  }

  /** `WalReplayer::next`, one record or one end of file. */
  function ReadNext(w: World, sub: Sub): Sub
    requires Reads(w, sub)
  {
    var Replaying(tail, at, n, pos, open) := sub.phase;
    var k, limit := open.value.k, open.value.limit;
    if AtFileEnd(w, sub) then sub.(phase := Replaying(tail, at, n, pos + 1, None))
    else
      var r := w.records[w.cuts[at + pos] + k];
      var on := sub.(phase := Replaying(tail, at, n, pos, Some(Reader(k + 1, limit))), read := sub.read + 1);
      if r.cursor < w.from then on
      else on.(cursor := r.cursor + 1, got := sub.got + [(r.cursor, r.payload)], taken := sub.taken + 1)
  }

  ghost predicate Reaches(s: State, actions: seq<Action>, s': State)
    decreases |actions|
  {
    if actions == [] then s' == s else Enabled(s, actions[0]) && Reaches(Next(s, actions[0]), actions[1..], s')
  }

  /** A log in lockstep with the ring, nobody connected. It may repeat cursors from before. */
  predicate Start(s: State) {
    && s.sub.None? && 0 < s.w.capacity < U32 && WalOk(s.w) && s.w.pub.Idle? && |s.w.posted| == s.w.tail
    && (s.w.others.Some? ==> s.w.others.value <= RingProtocol.MAX_TAIL)
  }

  // ── The invariant ───────────────────────────────────────────────────────────

  /** Each record has the cursor of the one before it, or the next. */
  predicate Stepped(records: seq<Record>) {
    forall i :: 0 <= i < |records| - 1 ==> records[i].cursor <= records[i + 1].cursor <= records[i].cursor + 1
  }

  /** The last record of a cursor is the message of that position. */
  predicate Mirrors(records: seq<Record>, posted: seq<Payload>) {
    forall j :: 0 <= j < |records| ==>
      && records[j].cursor < |posted|
      && (Superseded(records, j) || records[j].payload == posted[records[j].cursor])
  }

  predicate CutsOk(cuts: seq<nat>, end: nat) {
    && (forall i :: 0 <= i < |cuts| ==> cuts[i] <= end)
    && (forall i, j :: 0 <= i < j < |cuts| ==> cuts[i] < cuts[j])
  }

  predicate WalOk(w: World) {
    && w.tail <= |w.posted| <= w.tail + 1 && w.tail < RingProtocol.MAX_TAIL
    && (!w.pub.Idle? ==> |w.posted| == w.tail + 1 < RingProtocol.MAX_TAIL)
    && Stepped(w.records) && Mirrors(w.records, w.posted) && CutsOk(w.cuts, |w.records|)
    && (w.records != [] ==> w.records[|w.records| - 1].cursor + 1 == |w.posted|)
    && (w.tail < |w.posted| ==> w.records != [])
    && (w.posted != [] ==> w.cuts != [])
  }

  /** The records before index `e` go up to the position before `tail`. */
  predicate Covers(records: seq<Record>, e: nat, tail: nat) {
    0 < e <= |records| && tail <= records[e - 1].cursor + 1
  }

  /** The listed segments are there, cover the loaded tail, and the first of them starts at or before the asked
      cursor. */
  predicate ListOk(w: World, tail: nat, at: nat, n: nat) {
    && 0 < n && at + n <= |w.cuts| && w.from + 1 < tail && Covers(w.records, CutEnd(w, at + n - 1), tail)
    && w.cuts[at] < |w.records| && w.records[w.cuts[at]].cursor <= w.from
  }

  /** A reader of a finished segment sees all of it; one of the last listed segment at least what was there when the
      tail was loaded. */
  predicate ReaderOk(w: World, p: Phase)
    requires p.Replaying? && p.open.Some? && p.at + p.pos < |w.cuts|
  {
    var i, rd := p.at + p.pos, p.open.value;
    && rd.k <= SegLen(w, i) && (w.snapshot ==> rd.k <= rd.limit) && rd.limit <= SegLen(w, i)
    && (p.pos < p.n - 1 ==> rd.limit == SegLen(w, i))
    && (p.pos == p.n - 1 ==> Covers(w.records, w.cuts[i] + rd.limit, p.tail))
  }

  /** Where the replay stands: in its file, or past the loaded tail at the end. */
  predicate PlaceOk(w: World, p: Phase, read: nat)
    requires p.Replaying? && p.at + p.n <= |w.cuts|
  {
    && p.pos <= p.n
    && if p.pos < p.n then
         && read == w.cuts[p.at + p.pos] + (if p.open.Some? then p.open.value.k else 0)
         && (p.open.Some? ==> ReaderOk(w, p))
       else p.open.None? && Covers(w.records, read, p.tail)
  }

  predicate ReplayOk(w: World, sub: Sub) {
    var p := sub.phase;
    p.Replaying? ==>
      && ListOk(w, p.tail, p.at, p.n) && PlaceOk(w, p, sub.read) && sub.entry == p.tail <= w.tail
      && |sub.got| == sub.taken && w.cuts[p.at] + sub.taken <= sub.read <= |w.records|
      && forall j :: w.cuts[p.at] <= j < sub.read - sub.taken ==> w.records[j].cursor < w.from
  }

  /** Where the replay has got to: past the last record it handed out. */
  function Reached(w: World, sub: Sub): nat {
    if 0 < sub.taken && 0 < sub.read <= |w.records| then w.records[sub.read - 1].cursor + 1 else w.from
  }

  /** The replay handed out the `taken` records before index `read` of the log, one after the other, */
  predicate FromLog(records: seq<Record>, read: nat, taken: nat, got: seq<(nat, Payload)>)
    requires taken <= read <= |records| && taken <= |got|
  {
    forall i :: 0 <= i < taken ==> got[i] == (records[read - taken + i].cursor, records[read - taken + i].payload)
  }

  /** and the ring the positions from `base` on. */
  predicate FromRing(posted: seq<Payload>, tail: nat, base: nat, taken: nat, got: seq<(nat, Payload)>)
    requires taken <= |got| && tail <= |posted|
  {
    forall i :: taken <= i < |got| ==> got[i].0 == base + i - taken && got[i].0 < tail && got[i].1 == posted[got[i].0]
  }

  predicate GotOk(w: World, sub: Sub) {
    && sub.taken <= sub.read <= |w.records| && sub.taken <= |sub.got| && w.tail <= |w.posted|
    && (sub.taken > 0 ==> w.records[sub.read - sub.taken].cursor == w.from)
    && sub.cursor == Reached(w, sub) + |sub.got| - sub.taken
    && FromLog(w.records, sub.read, sub.taken, sub.got)
    && FromRing(w.posted, w.tail, Reached(w, sub), sub.taken, sub.got)
  }

  /** A position not overwritten yet, nor by the publish in progress. */
  predicate Within(w: World, c: nat) {
    w.tail <= c + w.capacity && (!w.pub.Idle? ==> w.tail < c + w.capacity)
  }

  predicate PhaseOk(w: World, sub: Sub) {
    var p := sub.phase;
    && (p.Claimed? || p.Loaded? || p.Listed? ==> sub.got == [] && sub.taken == 0)
    && (p.Loaded? || p.Listed? || p.Replaying? ==> sub.entry <= p.tail <= w.tail && Within(w, p.tail))
    && (p.Claimed? ==> sub.entry <= w.tail)
    && (p.Listed? ==> ListOk(w, p.tail, p.at, p.n))
    && ReplayOk(w, sub)
    && (p.Live? ==>
          && sub.entry == sub.cursor <= |w.posted| && Within(w, sub.cursor)
          && (p.overtook.Some? ==> p.overtook.value <= w.tail)
          && (sub.cursor > w.tail <==> p.overtook == Some(w.tail)))
  }

  predicate SubOk(w: World, sub: Sub) { GotOk(w, sub) && PhaseOk(w, sub) }

  predicate Inv(s: State) {
    && 0 < s.w.capacity < U32 && WalOk(s.w) && (s.w.others.Some? ==> s.w.others.value <= RingProtocol.MAX_TAIL)
    && (s.sub.Some? ==> SubOk(s.w, s.sub.value))
  }

  // ── Records in order ────────────────────────────────────────────────────────

  lemma {:induction false} Climbs(records: seq<Record>, i: nat, j: nat)
    requires Stepped(records) && i <= j < |records|
    ensures records[i].cursor <= records[j].cursor <= records[i].cursor + (j - i)
    decreases j - i
  {
    if i < j { Climbs(records, i, j - 1); }
  }

  // ── The log grows ───────────────────────────────────────────────────────────

  /** What an append leaves alone. */
  predicate Extends(w: World, w': World) {
    && w.records <= w'.records && w.cuts <= w'.cuts && w'.from == w.from && w'.snapshot == w.snapshot
    && w'.tail == w.tail && w.tail <= |w.posted| && w.tail <= |w'.posted| && w'.posted[..w.tail] == w.posted[..w.tail]
    && (forall i :: |w.cuts| <= i < |w'.cuts| ==> w'.cuts[i] == |w.records|)
  }

  lemma {:induction false} GrownSteps(w: World, d: Payload, ts: u64, rotate: bool)
    requires WalOk(w) && w.pub.Idle? && w.tail + 1 < RingProtocol.MAX_TAIL && (rotate ==> CanRotate(w))
    ensures Stepped(Grown(w, d, ts, rotate).records)
    ensures Mirrors(Grown(w, d, ts, rotate).records, Grown(w, d, ts, rotate).posted)
  {
    var w' := Grown(w, d, ts, rotate);
    hide CutsOk;
    forall j | 0 <= j < |w'.records|
      ensures w'.records[j].cursor < |w'.posted|
      ensures Superseded(w'.records, j) || w'.records[j].payload == w'.posted[w'.records[j].cursor]
    {
      if j < |w.records| {
        Climbs(w.records, j, |w.records| - 1);
        assert Superseded(w.records, j) ==> Superseded(w'.records, j);
      }
    }
  }

  lemma {:induction false} GrownCuts(w: World, d: Payload, ts: u64, rotate: bool)
    requires WalOk(w) && w.pub.Idle? && w.tail + 1 < RingProtocol.MAX_TAIL && (rotate ==> CanRotate(w))
    ensures var w' := Grown(w, d, ts, rotate); CutsOk(w'.cuts, |w'.records|) && w'.cuts != [] && Extends(w, w')
  {
    hide Stepped, Mirrors;
    var w' := Grown(w, d, ts, rotate);
    if rotate {
      forall i | 0 <= i < |w.cuts| ensures w.cuts[i] < |w.records| {
        if i < |w.cuts| - 1 { assert w.cuts[i] < w.cuts[|w.cuts| - 1]; }
      }
    }
  }

  lemma {:induction false} AppendWal(s: State, a: Action)
    requires WalOk(s.w) && Enabled(s, a) && a.Append?
    ensures WalOk(Next(s, a).w) && Extends(s.w, Next(s, a).w)
  {
    GrownSteps(s.w, a.d, a.ts, a.rotate);
    GrownCuts(s.w, a.d, a.ts, a.rotate);
    hide Stepped, Mirrors, CutsOk, Extends, RingFull, CanRotate;
  }

  lemma {:induction false} CutEndExtends(w: World, w': World, i: nat)
    requires Extends(w, w') && CutsOk(w.cuts, |w.records|) && i < |w.cuts|
    ensures CutEnd(w, i) <= CutEnd(w', i) <= |w'.records| && w'.cuts[i] == w.cuts[i] <= CutEnd(w, i) <= |w.records|
    ensures i + 1 < |w.cuts| ==> CutEnd(w', i) == CutEnd(w, i)
    ensures SegLen(w, i) <= SegLen(w', i) && (i + 1 < |w.cuts| ==> SegLen(w', i) == SegLen(w, i))
  {
    if i + 1 < |w.cuts| { assert w.cuts[i] < w.cuts[i + 1] && w'.cuts[i + 1] == w.cuts[i + 1]; }
  }

  lemma {:induction false} CoversOn(records: seq<Record>, records': seq<Record>, e: nat, e': nat, tail: nat)
    requires Covers(records, e, tail) && records <= records' && Stepped(records') && e <= e' <= |records'|
    ensures Covers(records', e', tail)
  {
    Climbs(records', e - 1, e' - 1);
  }

  lemma {:induction false} ListExtends(w: World, w': World, tail: nat, at: nat, n: nat)
    requires ListOk(w, tail, at, n) && Extends(w, w') && CutsOk(w.cuts, |w.records|) && Stepped(w'.records)
    ensures ListOk(w', tail, at, n)
  {
    CutEndExtends(w, w', at + n - 1);
    CoversOn(w.records, w'.records, CutEnd(w, at + n - 1), CutEnd(w', at + n - 1), tail);
    assert w'.cuts[at] == w.cuts[at];
    hide Covers, Stepped, CutEnd;
  }

  lemma {:induction false} PlaceExtends(w: World, w': World, p: Phase, read: nat)
    requires p.Replaying? && p.at + p.n <= |w.cuts| && PlaceOk(w, p, read)
    requires Extends(w, w') && CutsOk(w.cuts, |w.records|) && Stepped(w'.records)
    ensures p.at + p.n <= |w'.cuts| && PlaceOk(w', p, read)
  {
    var i := p.at + p.pos;
    if p.pos < p.n {
      CutEndExtends(w, w', i);
      if p.open.Some? && p.pos == p.n - 1 {
        var e := w.cuts[i] + p.open.value.limit;
        CoversOn(w.records, w'.records, e, e, p.tail);
      }
    } else {
      CoversOn(w.records, w'.records, read, read, p.tail);
    }
    hide Covers, Stepped, CutEnd, CutsOk, SegLen;
  }

  /** What a replay has set up and read is not disturbed by a growing log. */
  lemma {:induction false} ReplayExtends(w: World, w': World, sub: Sub)
    requires ReplayOk(w, sub) && Extends(w, w') && CutsOk(w.cuts, |w.records|) && Stepped(w'.records)
    ensures ReplayOk(w', sub)
  {
    var p := sub.phase;
    if p.Replaying? {
      ListExtends(w, w', p.tail, p.at, p.n);
      PlaceExtends(w, w', p, sub.read);
      AtListed(w, p.tail, p.at, p.n);
      assert w'.cuts[p.at] == w.cuts[p.at];
      hide ListOk, PlaceOk, CutsOk, Stepped;
    }
  }

  lemma {:induction false} AtListed(w: World, tail: nat, at: nat, n: nat)
    requires ListOk(w, tail, at, n)
    ensures 0 < n && at + n <= |w.cuts|
  {
  }

  lemma {:induction false} GotExtends(w: World, w': World, sub: Sub)
    requires GotOk(w, sub) && Extends(w, w')
    ensures GotOk(w', sub)
  {
    assert Reached(w', sub) == Reached(w, sub);
    RingExtends(w.posted, w'.posted, w.tail, Reached(w, sub), sub.taken, sub.got);
    hide FromRing, Reached;
  }

  lemma {:induction false} RingExtends(posted: seq<Payload>, posted': seq<Payload>, tail: nat, base: nat, taken: nat,
                                       got: seq<(nat, Payload)>)
    requires taken <= |got| && tail <= |posted| && tail <= |posted'| && posted'[..tail] == posted[..tail]
    requires FromRing(posted, tail, base, taken, got)
    ensures FromRing(posted', tail, base, taken, got)
  {
    forall p | 0 <= p < tail ensures posted'[p] == posted[p] { assert posted'[..tail][p] == posted[..tail][p]; }
  }

  /** A ring that is not full has room for everything its smallest cursor, and so every cursor, still needs. */
  lemma {:induction false} RoomFor(s: State)
    requires s.sub.Some? && !RingFull(s) && 0 < s.w.capacity < U32 && s.w.tail < RingProtocol.MAX_TAIL
    requires s.w.others.Some? ==> s.w.others.value <= RingProtocol.MAX_TAIL
    requires s.sub.value.entry <= RingProtocol.MAX_TAIL
    ensures s.w.tail < s.sub.value.entry + s.w.capacity
  {
    var m := MinEntry(s).value;
    assert m <= s.sub.value.entry;
    if m <= s.w.tail { RemainderIs(s.w.tail - m, U64, 0, s.w.tail - m); }
  }

  lemma {:induction false} EntryBound(s: State)
    requires Inv(s) && s.sub.Some?
    ensures s.sub.value.entry <= s.w.tail + 1
  {
    hide Mirrors, Stepped, CutsOk, ListOk, ReplayOk, GotOk;
  }

  lemma {:induction false} PhaseExtends(w: World, w': World, sub: Sub)
    requires PhaseOk(w, sub) && WalOk(w) && WalOk(w') && Extends(w, w') && |w.posted| <= |w'.posted|
    requires w'.capacity == w.capacity && w.tail < sub.entry + w.capacity
    ensures PhaseOk(w', sub)
  {
    var p := sub.phase;
    ReplayExtends(w, w', sub);
    if p.Listed? { ListExtends(w, w', p.tail, p.at, p.n); }
    hide Extends, Stepped, Mirrors, CutsOk, ListOk, ReplayOk;
  }

  lemma {:induction false} AppendKeeps(s: State, a: Action)
    requires Inv(s) && Enabled(s, a) && a.Append?
    ensures Inv(Next(s, a))
  {
    AppendWal(s, a);
    var s' := Next(s, a);
    if s.sub.Some? {
      EntryBound(s);
      RoomFor(s);
      GotExtends(s.w, s'.w, s.sub.value);
      PhaseExtends(s.w, s'.w, s.sub.value);
    }
    hide Extends, GotOk, PhaseOk, RingFull, CanRotate, WalOk;
  }

  // ── The ring, retention, connecting ─────────────────────────────────────────

  /** The ring's part of a publish leaves the log alone. */
  lemma {:induction false} RingKeeps(s: State, a: Action)
    requires Inv(s) && Enabled(s, a) && (a.Recheck? || a.Store? || a.Others?)
    ensures Inv(Next(s, a))
  {
    hide Mirrors, Stepped, CutsOk, ListOk, RingFull;
    if s.sub.Some? {
      var w' := Next(s, a).w;
      SameLog(s.w, w', s.sub.value);
      hide GotOk, ReplayOk;
      if s.sub.value.phase.Listed? {
        var p := s.sub.value.phase;
        SameList(s.w, w', p.tail, p.at, p.n);
      }
    }
  }

  lemma {:induction false} SameLog(w: World, w': World, sub: Sub)
    requires GotOk(w, sub) && ReplayOk(w, sub) && w' == w.(tail := w'.tail, pub := w'.pub, others := w'.others)
    requires w.tail <= w'.tail <= |w.posted|
    ensures GotOk(w', sub) && ReplayOk(w', sub)
  {
    assert Reached(w', sub) == Reached(w, sub);
    RingLater(w.posted, w.tail, w'.tail, Reached(w, sub), sub.taken, sub.got);
    var p := sub.phase;
    if p.Replaying? {
      SameList(w, w', p.tail, p.at, p.n);
      AtListed(w, p.tail, p.at, p.n);
      SamePlace(w, w', p, sub.read);
    }
    hide ListOk, PlaceOk, FromRing, Reached;
  }

  lemma {:induction false} RingLater(posted: seq<Payload>, tail: nat, tail': nat, base: nat, taken: nat,
                                     got: seq<(nat, Payload)>)
    requires taken <= |got| && tail <= tail' <= |posted| && FromRing(posted, tail, base, taken, got)
    ensures FromRing(posted, tail', base, taken, got)
  {
  }

  lemma {:induction false} SamePlace(w: World, w': World, p: Phase, read: nat)
    requires p.Replaying? && p.at + p.n <= |w.cuts| && PlaceOk(w, p, read)
    requires w' == w.(tail := w'.tail, pub := w'.pub, others := w'.others)
    ensures PlaceOk(w', p, read)
  {
  }

  lemma {:induction false} SameList(w: World, w': World, tail: nat, at: nat, n: nat)
    requires ListOk(w, tail, at, n) && w' == w.(tail := w'.tail, pub := w'.pub, others := w'.others)
    ensures ListOk(w', tail, at, n)
  {
  }

  /** The log without its first segment file. */
  function Shorter(w: World): World
    requires |w.cuts| > 1
  {
    w.(cuts := w.cuts[1..])
  }

  lemma {:induction false} ListShifts(w: World, tail: nat, at: nat, n: nat)
    requires ListOk(w, tail, at, n) && at > 0 && |w.cuts| > 1
    ensures ListOk(Shorter(w), tail, at - 1, n)
  {
    assert w.cuts[1..][at - 1] == w.cuts[at] && CutEnd(Shorter(w), at - 1 + n - 1) == CutEnd(w, at + n - 1);
    hide Covers;
  }

  lemma {:induction false} PlaceShifts(w: World, p: Phase, read: nat)
    requires p.Replaying? && p.at > 0 && p.at + p.n <= |w.cuts| && |w.cuts| > 1 && PlaceOk(w, p, read)
    ensures Shifted(p).at + p.n <= |w.cuts[1..]| && PlaceOk(Shorter(w), Shifted(p), read)
  {
    var i := p.at + p.pos;
    if p.pos < p.n { assert w.cuts[1..][i - 1] == w.cuts[i] && CutEnd(Shorter(w), i - 1) == CutEnd(w, i); }
    hide Covers, CutEnd;
  }

  lemma {:induction false} ReplayShifts(w: World, sub: Sub)
    requires ReplayOk(w, sub) && sub.phase.Replaying? && sub.phase.at > 0 && |w.cuts| > 1
    ensures ReplayOk(Shorter(w), sub.(phase := Shifted(sub.phase)))
  {
    var p := sub.phase;
    AtListed(w, p.tail, p.at, p.n);
    ListShifts(w, p.tail, p.at, p.n);
    PlaceShifts(w, p, sub.read);
    assert Shorter(w).cuts[p.at - 1] == w.cuts[p.at];
    hide ListOk, PlaceOk;
  }

  lemma {:induction false} PruneSub(w: World, sub: Sub)
    requires SubOk(w, sub) && |w.cuts| > 1
    requires sub.phase.Listed? || sub.phase.Replaying? ==> sub.phase.at > 0
    ensures SubOk(Shorter(w), sub.(phase := Shifted(sub.phase)))
  {
    var p, w', sub' := sub.phase, Shorter(w), sub.(phase := Shifted(sub.phase));
    GotShorter(w, sub);
    if p.Listed? { ListShifts(w, p.tail, p.at, p.n); }
    if p.Replaying? { ReplayShifts(w, sub); } else { NoReplay(w', sub'); }
    hide ListOk, GotOk, ReplayOk, Shorter;
    SameTail(w);
  }

  lemma {:induction false} SameTail(w: World)
    requires |w.cuts| > 1
    ensures var w' := Shorter(w);
            w'.tail == w.tail && w'.capacity == w.capacity && w'.pub == w.pub && w'.posted == w.posted
  {
  }

  lemma {:induction false} GotShorter(w: World, sub: Sub)
    requires GotOk(w, sub) && |w.cuts| > 1
    ensures GotOk(Shorter(w), sub.(phase := Shifted(sub.phase)))
  {
    var w', sub' := Shorter(w), sub.(phase := Shifted(sub.phase));
    hide Shifted;
    assert Reached(w', sub') == Reached(w, sub);
  }

  lemma {:induction false} NoReplay(w: World, sub: Sub)
    requires !sub.phase.Replaying?
    ensures ReplayOk(w, sub)
  {
  }

  lemma {:induction false} PruneKeeps(s: State)
    requires Inv(s) && Enabled(s, Prune)
    ensures Inv(Next(s, Prune))
  {
    assert WalOk(Shorter(s.w)) by { hide SubOk, Stepped, Mirrors; }
    hide WalOk, SubOk, Shifted;
    if s.sub.Some? { PruneSub(s.w, s.sub.value); }
  }

  /** The listed segments start at one whose name is at or before the asked cursor, and go on to the active one. */
  lemma {:induction false} ListIs(w: World, tail: nat)
    requires WalOk(w) && w.cuts != [] && NameOf(w, 0) <= w.from && w.from + 1 < tail <= w.tail
    ensures var at := Containing(Segs(w), w.from); at < |w.cuts| && ListOk(w, tail, at, |w.cuts| - at)
  {
    hide *;
    SegsAt(w, 0);
    ContainingIs(Segs(w), w.from);
    SegsAt(w, Containing(Segs(w), w.from));
    ListFrom(w, tail, Containing(Segs(w), w.from));
  }

  lemma {:induction false} SegsAt(w: World, i: nat)
    requires w.cuts != []
    ensures |Segs(w)| == |w.cuts| && (i < |w.cuts| ==> Segs(w)[i].first == NameOf(w, i))
  {
  }

  lemma {:induction false} ListFrom(w: World, tail: nat, at: nat)
    requires WalOk(w) && at < |w.cuts| && NameOf(w, at) <= w.from && w.from + 1 < tail <= w.tail
    ensures ListOk(w, tail, at, |w.cuts| - at)
  {
    hide Stepped, Mirrors, CutsOk;
    assert w.cuts[at] <= |w.records| by { AllCuts(w.cuts, |w.records|, at); }
  }

  lemma {:induction false} AllCuts(cuts: seq<nat>, end: nat, i: nat)
    requires CutsOk(cuts, end) && i < |cuts|
    ensures cuts[i] <= end
  {
  }

  lemma {:induction false} ContainingIs(segs: seq<Segment>, c: nat)
    requires segs != [] && segs[0].first <= c
    ensures var at := Containing(segs, c); at < |segs| && segs[at].first <= c
  {
    if |segs| > 1 && segs[1].first <= c { ContainingIs(segs[1..], c); }
  }

  lemma {:induction false} ConnectKeeps(s: State, a: Action)
    requires Inv(s) && Enabled(s, a) && (a.Claim? || a.LoadTail? || a.List?)
    ensures Inv(Next(s, a))
  {
    hide ListOk, Segs, Containing, NameOf, Mirrors, Stepped, CutsOk;
    if a.List? {
      ListIs(s.w, s.sub.value.phase.tail);
      GotStays(s.w, s.sub.value, Next(s, a).sub.value);
    } else if a.LoadTail? {
      GotStays(s.w, s.sub.value, Next(s, a).sub.value);
    }
  }

  lemma {:induction false} GotStays(w: World, sub: Sub, sub': Sub)
    requires GotOk(w, sub) && sub' == sub.(entry := sub'.entry, phase := sub'.phase)
    ensures GotOk(w, sub')
  {
    assert Reached(w, sub') == Reached(w, sub);
  }

  // ── The replay ──────────────────────────────────────────────────────────────

  lemma {:induction false} ParkKeeps(s: State)
    requires Inv(s) && Enabled(s, Park)
    ensures Inv(Next(s, Park))
  {
    hide Mirrors, Stepped, CutsOk;
    var sub := s.sub.value;
    AtListed(s.w, sub.phase.tail, sub.phase.at, sub.phase.n);
    ParkGot(s.w, sub, Next(s, Park).sub.value);
    hide GotOk, ListOk;
    AtRecord(s.w, sub.phase.tail, sub.phase.at, sub.phase.n);
  }

  lemma {:induction false} AtRecord(w: World, tail: nat, at: nat, n: nat)
    requires ListOk(w, tail, at, n)
    ensures 0 < n && at + n <= |w.cuts| && w.cuts[at] < |w.records|
  {
  }

  lemma {:induction false} ParkGot(w: World, sub: Sub, sub': Sub)
    requires GotOk(w, sub) && sub.taken == 0 && sub.got == [] && sub'.read <= |w.records|
    requires sub' == sub.(entry := sub'.entry, phase := sub'.phase, read := sub'.read)
    ensures GotOk(w, sub')
  {
  }

  lemma {:induction false} OpenKeeps(s: State)
    requires Inv(s) && Enabled(s, Open)
    ensures Inv(Next(s, Open))
  {
    hide Mirrors, Stepped, CutsOk;
    var sub, sub' := s.sub.value, Next(s, Open).sub.value;
    GotStays(s.w, sub, sub');
    hide GotOk;
    OpenReplay(s.w, sub);
    hide ReplayOk, ListOk;
  }

  lemma {:induction false} OpenReplay(w: World, sub: Sub)
    requires ReplayOk(w, sub) && sub.phase.Replaying? && sub.phase.open.None? && sub.phase.pos < sub.phase.n
    requires CutsOk(w.cuts, |w.records|)
    ensures var p := sub.phase;
            && p.at + p.pos < |w.cuts|
            && ReplayOk(w, sub.(phase := p.(open := Some(Reader(0, SegLen(w, p.at + p.pos))))))
  {
    var p := sub.phase;
    AtListed(w, p.tail, p.at, p.n);
    if p.pos == p.n - 1 { LastCovers(w, p.tail, p.at, p.n); }
    hide ListOk, Covers, SegLen;
  }

  lemma {:induction false} LastCovers(w: World, tail: nat, at: nat, n: nat)
    requires ListOk(w, tail, at, n) && CutsOk(w.cuts, |w.records|)
    ensures var i := at + n - 1;
            Covers(w.records, w.cuts[i] + SegLen(w, i), tail)
  {
  }

  /** A drained replay has handed out a record at or past the position before the loaded tail. */
  lemma {:induction false} DrainedPhase(w: World, sub: Sub)
    requires WalOk(w) && SubOk(w, sub) && sub.phase.Replaying? && sub.phase.pos == sub.phase.n
    ensures 0 < sub.taken == |sub.got| && sub.read <= |w.records|
    ensures sub.phase.tail <= sub.cursor == w.records[sub.read - 1].cursor + 1 <= |w.posted|
  {
    var at := sub.phase.at;
    AtRecord(w, sub.phase.tail, at, sub.phase.n);
    assert w.records[w.cuts[at]].cursor <= w.from;
    assert sub.read != w.cuts[at];
    hide Stepped, CutsOk, FromLog, FromRing, CutEnd;
  }

  lemma {:induction false} PromoteKeeps(s: State)
    requires Inv(s) && Enabled(s, Promote)
    ensures Inv(Next(s, Promote))
  {
    hide WalOk, GotOk, PhaseOk;
    DrainedPhase(s.w, s.sub.value);
    PromotePhase(s.w, s.sub.value);
    GotStays(s.w, s.sub.value, Next(s, Promote).sub.value);
  }

  lemma {:induction false} PromotePhase(w: World, sub: Sub)
    requires PhaseOk(w, sub) && sub.phase.Replaying? && sub.phase.tail <= sub.cursor <= |w.posted|
    ensures PhaseOk(w, Promoted(w, sub))
  {
    NoReplay(w, Promoted(w, sub));
    hide ReplayOk, ListOk;
  }

  /** Where an open replay stands. */
  lemma {:induction false} ReadsAt(w: World, sub: Sub)
    requires WalOk(w) && SubOk(w, sub) && Reads(w, sub)
    ensures sub.phase.Replaying? && sub.phase.open.Some?
    ensures var p := sub.phase;
            && p.pos < p.n && p.at + p.n <= |w.cuts| && ReaderOk(w, p)
            && sub.read == w.cuts[p.at + p.pos] + p.open.value.k <= |w.records|
            && CutEnd(w, p.at + p.pos) == w.cuts[p.at + p.pos] + SegLen(w, p.at + p.pos) <= |w.records|
            && (p.pos + 1 < p.n ==> w.cuts[p.at + p.pos + 1] == CutEnd(w, p.at + p.pos))
            && w.cuts[p.at] + sub.taken <= sub.read && w.cuts[p.at] < |w.records|
            && w.records[w.cuts[p.at]].cursor <= w.from
  {
    hide Stepped, Mirrors, ReaderOk, GotOk, Covers;
  }

  /** A replay that has moved on in what it lists. */
  lemma {:induction false} PhaseMoves(w: World, sub: Sub, sub': Sub)
    requires PhaseOk(w, sub) && sub.phase.Replaying? && sub'.phase.Replaying? && sub'.entry == sub.entry
    requires var p, p' := sub.phase, sub'.phase;
             p'.tail == p.tail && p'.at == p.at && p'.n == p.n && p.at + p.n <= |w.cuts|
    requires PlaceOk(w, sub'.phase, sub'.read) && |sub'.got| == sub'.taken && sub.phase.at < |w.cuts|
    requires w.cuts[sub.phase.at] + sub'.taken <= sub'.read <= |w.records|
    requires BelowFrom(w.records, w.from, w.cuts[sub.phase.at], sub'.read - sub'.taken)
    ensures PhaseOk(w, sub')
  {
    hide ListOk, PlaceOk;
  }

  lemma {:induction false} BelowIs(w: World, sub: Sub)
    requires SubOk(w, sub) && sub.phase.Replaying?
    ensures var at := sub.phase.at;
            && 0 < sub.phase.n && at + sub.phase.n <= |w.cuts| && |sub.got| == sub.taken && GotOk(w, sub)
            && PhaseOk(w, sub)
            && w.cuts[at] + sub.taken <= sub.read <= |w.records|
            && BelowFrom(w.records, w.from, w.cuts[at], sub.read - sub.taken)
  {
    hide GotOk, PlaceOk;
  }

  /** The end of a file: on to the next one, which starts where this one ends, or to the end of the replay. */
  lemma {:induction false} EndKeeps(w: World, sub: Sub)
    requires WalOk(w) && SubOk(w, sub) && Reads(w, sub) && AtFileEnd(w, sub)
    ensures SubOk(w, ReadNext(w, sub))
  {
    hide *;
    ReadsAt(w, sub);
    BelowIs(w, sub);
    EndPlace(w, sub);
    EndIs(w, sub);
    GotStays(w, sub, ReadNext(w, sub));
    PhaseMoves(w, sub, ReadNext(w, sub));
    BothOk(w, ReadNext(w, sub));
  }

  lemma {:induction false} BothOk(w: World, sub: Sub)
    requires GotOk(w, sub) && PhaseOk(w, sub)
    ensures SubOk(w, sub)
  {
  }

  lemma {:induction false} EndIs(w: World, sub: Sub)
    requires Reads(w, sub) && AtFileEnd(w, sub)
    ensures var p := sub.phase;
            ReadNext(w, sub) == sub.(phase := Replaying(p.tail, p.at, p.n, p.pos + 1, None))
  {
    hide AtFileEnd, SegLen, CutEnd;
  }

  lemma {:induction false} EndPlace(w: World, sub: Sub)
    requires WalOk(w) && SubOk(w, sub) && Reads(w, sub) && AtFileEnd(w, sub)
    ensures var p := sub.phase;
            p.at + p.n <= |w.cuts| && PlaceOk(w, Replaying(p.tail, p.at, p.n, p.pos + 1, None), sub.read)
  {
    hide *;
    ReadsAt(w, sub);
    FileDone(w, sub);
    var p := sub.phase;
    if p.pos == p.n - 1 { FarEnough(w, p, sub.read); }
    PlaceAfter(w, p, sub.read);
  }

  lemma {:induction false} FileDone(w: World, sub: Sub)
    requires Reads(w, sub) && AtFileEnd(w, sub) && ReaderOk(w, sub.phase)
    ensures var p := sub.phase;
            && p.open.value.limit <= p.open.value.k <= SegLen(w, p.at + p.pos)
            && (p.pos < p.n - 1 ==> p.open.value.k == SegLen(w, p.at + p.pos))
  {
    hide SegLen, CutEnd, Covers;
  }

  lemma {:induction false} PlaceAfter(w: World, p: Phase, read: nat)
    requires p.Replaying? && p.pos < p.n && p.at + p.n <= |w.cuts|
    requires p.pos + 1 < p.n ==> read == w.cuts[p.at + p.pos + 1]
    requires p.pos + 1 == p.n ==> Covers(w.records, read, p.tail)
    ensures PlaceOk(w, Replaying(p.tail, p.at, p.n, p.pos + 1, None), read)
  {
    hide Covers;
  }

  lemma {:induction false} FarEnough(w: World, p: Phase, read: nat)
    requires WalOk(w) && p.Replaying? && p.open.Some? && p.at + p.pos < |w.cuts| && ReaderOk(w, p) && p.pos == p.n - 1
    requires w.cuts[p.at + p.pos] + p.open.value.limit <= read <= |w.records|
    ensures Covers(w.records, read, p.tail)
  {
    CoversOn(w.records, w.records, w.cuts[p.at + p.pos] + p.open.value.limit, read, p.tail);
    hide Stepped, Mirrors, CutsOk, Covers, SegLen;
  }

  /** The record a replay looks at is skipped while it is below the asked cursor. The first one that is handed out is
      the one asked for, and what follows has the position of the one before it or the next. */
  lemma {:induction false} RecordIs(w: World, sub: Sub)
    requires WalOk(w) && SubOk(w, sub) && Reads(w, sub) && !AtFileEnd(w, sub)
    ensures sub.read < |w.records|
    ensures var r := w.records[sub.read];
            && (r.cursor < w.from ==> sub.taken == 0)
            && (r.cursor >= w.from ==> if sub.taken == 0 then r.cursor == w.from
                 else sub.cursor - 1 <= r.cursor <= sub.cursor)
            && ReadNext(w, sub) ==
               var on := sub.(phase := OneOn(sub.phase), read := sub.read + 1);
               if r.cursor < w.from then on
               else on.(cursor := r.cursor + 1, got := sub.got + [(r.cursor, r.payload)], taken := sub.taken + 1)
  {
    hide *;
    ReadsAt(w, sub);
    BelowIs(w, sub);
    NotAtEnd(w, sub);
    NextCursor(w, sub);
  }

  lemma {:induction false} NotAtEnd(w: World, sub: Sub)
    requires Reads(w, sub) && !AtFileEnd(w, sub) && ReaderOk(w, sub.phase)
    requires sub.read == w.cuts[sub.phase.at + sub.phase.pos] + sub.phase.open.value.k
    requires var i := sub.phase.at + sub.phase.pos; w.cuts[i] + SegLen(w, i) <= |w.records|
    ensures sub.read < |w.records|
    ensures var r := w.records[sub.read];
            ReadNext(w, sub) ==
            var on := sub.(phase := OneOn(sub.phase), read := sub.read + 1);
            if r.cursor < w.from then on
            else on.(cursor := r.cursor + 1, got := sub.got + [(r.cursor, r.payload)], taken := sub.taken + 1)
  {
    hide SegLen, CutEnd, Covers;
  }

  lemma {:induction false} NextCursor(w: World, sub: Sub)
    requires WalOk(w) && GotOk(w, sub) && |sub.got| == sub.taken && sub.read < |w.records| && sub.phase.Replaying?
    requires var at := sub.phase.at;
             && at < |w.cuts| && w.cuts[at] + sub.taken <= sub.read && w.cuts[at] < |w.records|
             && w.records[w.cuts[at]].cursor <= w.from
             && BelowFrom(w.records, w.from, w.cuts[at], sub.read - sub.taken)
    ensures var r := w.records[sub.read];
            && (r.cursor < w.from ==> sub.taken == 0)
            && (r.cursor >= w.from ==> if sub.taken == 0 then r.cursor == w.from
                 else sub.cursor - 1 <= r.cursor <= sub.cursor)
  {
    hide Mirrors, CutsOk, Stepped, FromLog, FromRing;
    if sub.taken > 0 { Climbs(w.records, sub.read - sub.taken, sub.read); }
    if sub.read > w.cuts[sub.phase.at] { Climbs(w.records, sub.read - 1, sub.read); }
  }

  function OneOn(p: Phase): Phase
    requires p.Replaying? && p.open.Some?
  {
    Replaying(p.tail, p.at, p.n, p.pos, Some(Reader(p.open.value.k + 1, p.open.value.limit)))
  }

  /** Handing out the record at `read`. */
  lemma {:induction false} GotGrows(w: World, sub: Sub, sub': Sub)
    requires GotOk(w, sub) && |sub.got| == sub.taken && sub.read < |w.records|
    requires sub.taken == 0 ==> w.records[sub.read].cursor == w.from
    requires var r := w.records[sub.read];
             sub' == sub.(phase := sub'.phase, read := sub.read + 1, cursor := r.cursor + 1,
                          got := sub.got + [(r.cursor, r.payload)], taken := sub.taken + 1)
    ensures GotOk(w, sub')
  {
  }

  lemma {:induction false} GotSkips(w: World, sub: Sub, sub': Sub)
    requires GotOk(w, sub) && sub.taken == 0 && |sub.got| == 0 && sub.read < |w.records|
    requires sub' == sub.(phase := sub'.phase, read := sub.read + 1)
    ensures GotOk(w, sub')
  {
  }

  lemma {:induction false} StepPlace(w: World, sub: Sub)
    requires WalOk(w) && SubOk(w, sub) && Reads(w, sub) && !AtFileEnd(w, sub)
    ensures sub.phase.at + sub.phase.n <= |w.cuts| && PlaceOk(w, OneOn(sub.phase), sub.read + 1)
  {
    hide *;
    ReadsAt(w, sub);
    FileGoesOn(w, sub);
    PlaceOn(w, sub.phase, sub.read);
  }

  lemma {:induction false} FileGoesOn(w: World, sub: Sub)
    requires Reads(w, sub) && !AtFileEnd(w, sub) && ReaderOk(w, sub.phase)
    ensures var p := sub.phase;
            && p.open.value.k < SegLen(w, p.at + p.pos) && (w.snapshot ==> p.open.value.k < p.open.value.limit)
  {
    hide SegLen, CutEnd, Covers;
  }

  lemma {:induction false} PlaceOn(w: World, p: Phase, read: nat)
    requires p.Replaying? && p.open.Some? && p.pos < p.n && p.at + p.n <= |w.cuts| && ReaderOk(w, p)
    requires read == w.cuts[p.at + p.pos] + p.open.value.k
    requires p.open.value.k < SegLen(w, p.at + p.pos) && (w.snapshot ==> p.open.value.k < p.open.value.limit)
    ensures PlaceOk(w, OneOn(p), read + 1)
  {
    hide Covers, SegLen;
  }

  lemma {:induction false} OneOnIs(w: World, sub: Sub)
    requires Reads(w, sub)
    ensures var p := sub.phase;
            && p.Replaying? && p.open.Some?
            && var q := OneOn(p);
               q.Replaying? && q.tail == p.tail && q.at == p.at && q.n == p.n
  {
    hide SegLen, CutEnd;
  }

  /** The records before the first one handed out, one record on. */
  predicate BelowFrom(records: seq<Record>, from: nat, lo: nat, hi: int) {
    hi <= |records| && forall j :: lo <= j < hi ==> records[j].cursor < from
  }

  lemma {:induction false} BelowOn(records: seq<Record>, from: nat, lo: nat, read: nat, taken: nat, taken': nat)
    requires lo + taken <= read < |records| && BelowFrom(records, from, lo, read - taken)
    requires if records[read].cursor < from then taken == 0 == taken' else taken' == taken + 1
    ensures lo + taken' <= read + 1 && BelowFrom(records, from, lo, read + 1 - taken')
  {
  }

  lemma {:induction false} StepReplay(w: World, sub: Sub, sub': Sub)
    requires WalOk(w) && SubOk(w, sub) && Reads(w, sub) && !AtFileEnd(w, sub) && sub.read < |w.records|
    requires sub'.phase == OneOn(sub.phase) && sub'.read == sub.read + 1 && sub'.entry == sub.entry
    requires sub'.taken == |sub'.got|
    requires if w.records[sub.read].cursor < w.from then sub.taken == 0 == sub'.taken else sub'.taken == sub.taken + 1
    ensures PhaseOk(w, sub')
  {
    OneOnIs(w, sub);
    hide *;
    BelowIs(w, sub);
    StepPlace(w, sub);
    BelowOn(w.records, w.from, w.cuts[sub.phase.at], sub.read, sub.taken, sub'.taken);
    PhaseMoves(w, sub, sub');
  }

  lemma {:induction false} ReadSub(w: World, sub: Sub)
    requires WalOk(w) && SubOk(w, sub) && Reads(w, sub)
    ensures SubOk(w, ReadNext(w, sub))
  {
    if AtFileEnd(w, sub) {
      EndKeeps(w, sub);
    } else {
      RecordIs(w, sub);
      BelowIs(w, sub);
      var sub' := ReadNext(w, sub);
      hide WalOk, GotOk, PhaseOk, ReadNext, AtFileEnd;
      if w.records[sub.read].cursor < w.from { GotSkips(w, sub, sub'); } else { GotGrows(w, sub, sub'); }
      StepReplay(w, sub, sub');
    }
  }

  lemma {:induction false} ReadKeeps(s: State)
    requires Inv(s) && Enabled(s, Read)
    ensures Inv(Next(s, Read))
  {
    hide WalOk, SubOk, ReadNext;
    ReadSub(s.w, s.sub.value);
  }

  /** What each step does to log and ring: an append adds its record at the tail, the last step of a publish moves the
      tail, retention takes the oldest segment and leaves the others, and the subscriber changes nothing of it. */
  lemma {:induction false} StepWorld(s: State, a: Action)
    requires Inv(s) && Enabled(s, a)
    ensures var w, w' := s.w, Next(s, a).w;
            && w'.records == w.records + (if a.Append? then [Record(w.tail, a.ts, a.d)] else [])
            && w'.tail == w.tail + (if a.Store? then 1 else 0)
            && (a.Prune? ==> Segs(w') == Segs(w)[1..] && w' == w.(cuts := w'.cuts))
            && w'.others == (if a.Others? then a.min else w.others)
            && (!a.Append? && !a.Recheck? && !a.Store? && !a.Others? && !a.Prune? ==> w' == w)
  {
    hide SegOf, ReadNext, Promoted, SubOk;
    if a.Prune? {
      var w, w' := s.w, Next(s, a).w;
      forall i | 0 <= i < |w'.cuts| ensures Segs(w')[i] == Segs(w)[1..][i] { PrunedSeg(w, w', i); }
    }
  }

  lemma {:induction false} PrunedSeg(w: World, w': World, i: nat)
    requires w.cuts != [] && w' == w.(cuts := w.cuts[1..]) && i < |w'.cuts|
    ensures SegOf(w', i) == SegOf(w, i + 1)
  {
  }

  // ── The live ring ───────────────────────────────────────────────────────────

  lemma {:induction false} ReceiveIs(s: State)
    requires Inv(s) && Enabled(s, Receive)
    ensures var sub := s.sub.value;
            Next(s, Receive) == SetSub(s, sub.(entry := sub.cursor + 1, cursor := sub.cursor + 1,
                                               got := sub.got + [(sub.cursor, s.w.posted[sub.cursor])]))
  {
    hide WalOk, GotOk, ReplayOk, ListOk, Readable, RingOf;
    assert Within(s.w, s.sub.value.cursor);
    ReceiveFinds(s.w, s.sub.value.cursor);
  }

  lemma {:induction false} ReceiveFinds(w: World, c: nat)
    requires 0 < w.capacity && c < w.tail <= |w.posted| && w.tail <= c + w.capacity
    ensures Readable(RingOf(w), c) == Some((c + 1, w.posted[c]))
  {
    SkipIsExact(RingOf(w), c);
    hide Readable, WindowPos;
  }

  lemma {:induction false} GotLive(w: World, sub: Sub, sub': Sub)
    requires GotOk(w, sub) && sub.cursor < w.tail
    requires sub' == sub.(entry := sub'.entry, cursor := sub.cursor + 1,
      got := sub.got + [(sub.cursor, w.posted[sub.cursor])])
    ensures GotOk(w, sub')
  {
    assert Reached(w, sub') == Reached(w, sub);
    hide Reached;
  }

  lemma {:induction false} ReceiveKeeps(s: State)
    requires Inv(s) && Enabled(s, Receive)
    ensures Inv(Next(s, Receive))
  {
    ReceiveIs(s);
    var sub, sub' := s.sub.value, Next(s, Receive).sub.value;
    GotLive(s.w, sub, sub');
    NoReplay(s.w, sub');
    hide Mirrors, Stepped, CutsOk, GotOk, ReplayOk, ListOk, Readable, WindowPos;
  }

  lemma {:induction false} StepKeeps(s: State, a: Action)
    requires Inv(s) && Enabled(s, a)
    ensures Inv(Next(s, a))
  {
    hide Inv, Next;
    match a {
      case Append(_, _, _) => AppendKeeps(s, a);
      case Recheck => RingKeeps(s, a);
      case Store => RingKeeps(s, a);
      case Others(_) => RingKeeps(s, a);
      case Prune => PruneKeeps(s);
      case Claim(_) => ConnectKeeps(s, a);
      case LoadTail => ConnectKeeps(s, a);
      case List => ConnectKeeps(s, a);
      case Park => ParkKeeps(s);
      case Open => OpenKeeps(s);
      case Promote => PromoteKeeps(s);
      case Read => ReadKeeps(s);
      case Receive => ReceiveKeeps(s);
    }
  }

  lemma {:induction false} RunKeeps(s: State, actions: seq<Action>, s': State)
    requires Inv(s) && Reaches(s, actions, s')
    ensures Inv(s')
    decreases |actions|
  {
    hide Inv, Enabled, Next;
    if actions != [] {
      StepKeeps(s, actions[0]);
      RunKeeps(Next(s, actions[0]), actions[1..], s');
    }
  }

  // ── Main results ────────────────────────────────────────────────────────────

  lemma {:induction false} StartOk(s: State)
    requires Start(s)
    ensures Inv(s)
  {
  }

  /** The positions handed out go from the asked one up to the subscriber's cursor without a gap. */
  predicate Unbroken(from: nat, cursor: nat, got: seq<(nat, Payload)>) {
    && (if got == [] then cursor == from else got[0].0 == from && got[|got| - 1].0 + 1 == cursor)
    && forall i :: 0 <= i < |got| - 1 ==> got[i].0 <= got[i + 1].0 <= got[i].0 + 1
  }

  /** What was handed out is the asked position, the next, and so on, each once and with its message. */
  predicate InOrder(w: World, got: seq<(nat, Payload)>) {
    forall i :: 0 <= i < |got| ==>
      got[i].0 == w.from + i && got[i].0 < |w.posted| && got[i].1 == w.posted[got[i].0]
  }

  /** No record that the replay handed out is followed by another one with its cursor, unless it is the last one that
      the replay read and the record that took its place carries the same message. */
  predicate Clean(w: World, sub: Sub) {
    forall j :: sub.read - sub.taken <= j < sub.read && 0 <= j && Superseded(w.records, j) ==>
      && j == sub.read - 1 && w.records[j].cursor < |w.posted|
      && w.records[j].payload == w.posted[w.records[j].cursor]
  }

  /** Without a repeated cursor the cursors go up one by one. */
  lemma {:induction false} Rises(records: seq<Record>, a: nat, i: nat)
    requires Stepped(records) && a + i < |records|
    requires forall j :: a <= j < a + i ==> !Superseded(records, j)
    ensures records[a + i].cursor == records[a].cursor + i
    decreases i
  {
    if i > 0 {
      Rises(records, a, i - 1);
      assert !Superseded(records, a + i - 1);
    }
  }

  lemma {:induction false} CleanRises(w: World, sub: Sub, i: nat)
    requires WalOk(w) && GotOk(w, sub) && Clean(w, sub) && i < sub.taken
    ensures w.records[sub.read - sub.taken + i].cursor == w.from + i
  {
    hide Stepped, Mirrors, CutsOk, FromLog, FromRing, Superseded, Reached;
    Rises(w.records, sub.read - sub.taken, i);
  }

  lemma {:induction false} CleanIsInOrder(w: World, sub: Sub)
    requires WalOk(w) && GotOk(w, sub) && Clean(w, sub)
    ensures InOrder(w, sub.got)
  {
    hide Stepped, CutsOk, Superseded;
    var a := sub.read - sub.taken;
    if sub.taken > 0 { CleanRises(w, sub, sub.taken - 1); }
    forall i | 0 <= i < |sub.got|
      ensures sub.got[i].0 == w.from + i && sub.got[i].0 < |w.posted| && sub.got[i].1 == w.posted[sub.got[i].0]
    {
      if i < sub.taken {
        CleanRises(w, sub, i);
        assert sub.got[i] == (w.records[a + i].cursor, w.records[a + i].payload);
        assert Superseded(w.records, a + i) || w.records[a + i].payload == w.posted[w.records[a + i].cursor];
      }
    }
  }

  lemma {:induction false} InOrderIsClean(w: World, sub: Sub)
    requires WalOk(w) && GotOk(w, sub) && InOrder(w, sub.got)
    ensures Clean(w, sub)
  {
    hide Stepped, CutsOk, FromRing, Mirrors;
    var a := sub.read - sub.taken;
    forall j | a <= j < sub.read && Superseded(w.records, j)
      ensures j == sub.read - 1 && w.records[j].cursor < |w.posted|
      ensures w.records[j].payload == w.posted[w.records[j].cursor]
    {
      assert sub.got[j - a] == (w.records[j].cursor, w.records[j].payload);
      if j < sub.read - 1 {
        SeenTwice(w, sub, j);
        assert false;
      }
    }
  }

  lemma {:induction false} SeenTwice(w: World, sub: Sub, j: nat)
    requires GotOk(w, sub) && sub.read - sub.taken <= j < sub.read - 1 && Superseded(w.records, j)
    ensures var i := j - (sub.read - sub.taken); i + 1 < |sub.got| && sub.got[i].0 == sub.got[i + 1].0
  {
    var a := sub.read - sub.taken;
    assert sub.got[j - a].0 == w.records[a + (j - a)].cursor;
    assert sub.got[j + 1 - a].0 == w.records[a + (j + 1 - a)].cursor;
  }

  lemma {:induction false} UnbrokenIs(w: World, sub: Sub)
    requires WalOk(w) && GotOk(w, sub)
    ensures Unbroken(w.from, sub.cursor, sub.got)
  {
    hide Mirrors, CutsOk;
    var a, n := sub.read - sub.taken, sub.taken;
    forall i | 0 <= i < |sub.got| - 1 ensures sub.got[i].0 <= sub.got[i + 1].0 <= sub.got[i].0 + 1 {
      if i + 1 < n {
        assert sub.got[i].0 == w.records[a + i].cursor && sub.got[i + 1].0 == w.records[a + (i + 1)].cursor;
        Climbs(w.records, a + i, a + i + 1);
      } else if i + 1 == n {
        assert sub.got[i].0 == w.records[a + i].cursor;
      }
    }
    if n > 0 {
      assert sub.got[0].0 == w.records[a + 0].cursor;
      if n == |sub.got| { assert sub.got[n - 1].0 == w.records[a + (n - 1)].cursor; }
    }
  }

  /** A live subscriber is never a lap behind and at most one past the tail; and it is past the tail exactly from a
      promotion that overtook a record's ring write until that write, or that of the record that takes its place,
      lands. */
  predicate LiveOk(w: World, sub: Sub) {
    sub.phase.Live? ==>
      && sub.entry == sub.cursor <= w.tail + 1 && w.tail <= sub.cursor + w.capacity
      && (sub.entry == w.tail + 1 <==> sub.phase.overtook == Some(w.tail))
  }

  /** The handoff, over every run of either log, with the subscriber's steps between the append, the second scan and
      the tail store of any publish: nothing is ever left out between the asked position and the cursor; and what is
      handed out is each position once, in order and with its message, if and only if no record that the replay
      handed out has been, or is, followed by another one with its cursor. */
  lemma {:induction false} NoGapNoDuplicate(start: State, actions: seq<Action>, s: State)
    requires Start(start) && Reaches(start, actions, s) && s.sub.Some?
    ensures var w, sub := s.w, s.sub.value;
            && w.tail <= |w.posted| <= w.tail + 1 && sub.taken <= sub.read <= |w.records|
            && Unbroken(w.from, sub.cursor, sub.got) && (InOrder(w, sub.got) <==> Clean(w, sub)) && LiveOk(w, sub)
  {
    hide *;
    StartOk(start);
    RunKeeps(start, actions, s);
    SubFacts(s);
    UnbrokenIs(s.w, s.sub.value);
    if Clean(s.w, s.sub.value) { CleanIsInOrder(s.w, s.sub.value); }
    if InOrder(s.w, s.sub.value.got) { InOrderIsClean(s.w, s.sub.value); }
  }

  lemma {:induction false} SubFacts(s: State)
    requires Inv(s) && s.sub.Some?
    ensures s.w.tail <= |s.w.posted| <= s.w.tail + 1 && WalOk(s.w) && GotOk(s.w, s.sub.value)
    ensures s.sub.value.taken <= s.sub.value.read <= |s.w.records| && LiveOk(s.w, s.sub.value)
  {
    hide Mirrors, Stepped, CutsOk, ReplayOk, ListOk, FromLog, FromRing;
  }

  /** A position is handed out twice, exactly: the replay has read two records with one cursor. */
  lemma {:induction false} TwiceIff(start: State, actions: seq<Action>, s: State)
    requires Start(start) && Reaches(start, actions, s) && s.sub.Some?
    ensures var w, sub := s.w, s.sub.value;
            (exists i :: 0 <= i < |sub.got| - 1 && sub.got[i].0 == sub.got[i + 1].0) <==>
            (exists j :: sub.read - sub.taken <= j < sub.read - 1 && 0 <= j && Superseded(w.records, j))
  {
    hide Inv, Reaches, Start, WalOk, FromRing, LiveOk;
    StartOk(start);
    RunKeeps(start, actions, s);
    SubFacts(s);
    var w, sub := s.w, s.sub.value;
    var a := sub.read - sub.taken;
    if i :| 0 <= i < |sub.got| - 1 && sub.got[i].0 == sub.got[i + 1].0 {
      TwiceInLog(w, sub, i);
      assert Superseded(w.records, a + i);
    }
    if j :| a <= j < sub.read - 1 && 0 <= j && Superseded(w.records, j) {
      SeenTwice(w, sub, j);
    }
  }

  /** The ring hands out no position twice. */
  lemma {:induction false} TwiceInLog(w: World, sub: Sub, i: nat)
    requires GotOk(w, sub) && i < |sub.got| - 1 && sub.got[i].0 == sub.got[i + 1].0
    ensures i + 1 < sub.taken
    ensures var a := sub.read - sub.taken; w.records[a + i].cursor == w.records[a + i + 1].cursor
  {
    var a := sub.read - sub.taken;
    if i < sub.taken { assert sub.got[i].0 == w.records[a + i].cursor; }
    if i + 1 < sub.taken { assert sub.got[i + 1].0 == w.records[a + (i + 1)].cursor; }
  }

  // ── When a cursor is repeated ───────────────────────────────────────────────

  /** In this run a publish is appended while the log is one ahead. */
  ghost predicate Repeats(s: State, actions: seq<Action>)
    decreases |actions|
  {
    actions != [] && Enabled(s, actions[0]) &&
    ((actions[0].Append? && OneAhead(s.w)) || Repeats(Next(s, actions[0]), actions[1..]))
  }

  predicate NoneRepeated(records: seq<Record>) { forall j :: 0 <= j < |records| ==> !Superseded(records, j) }

  /** The log gets ahead of the idle publisher exactly by a second scan that refuses an appended record. */
  lemma {:induction false} RefusalGoesAhead(s: State, a: Action)
    requires Inv(s) && Enabled(s, a)
    ensures OneAhead(Next(s, a).w) && !OneAhead(s.w) <==> a.Recheck? && RingFull(s)
  {
    hide Mirrors, Stepped, CutsOk, SubOk, RingFull, Readable, ReadNext, Containing, Segs;
  }

  /** An append repeats a cursor exactly if the log is one ahead; no other step does. */
  lemma {:induction false} RepeatStep(s: State, a: Action)
    requires Inv(s) && Enabled(s, a)
    ensures NoneRepeated(Next(s, a).w.records) <==> NoneRepeated(s.w.records) && !(a.Append? && OneAhead(s.w))
  {
    hide Mirrors, Stepped, CutsOk, SubOk, RingFull, Readable, ReadNext, Containing, Segs, CanRotate;
    if a.Append? {
      var rs, rs', n := s.w.records, Next(s, a).w.records, |s.w.records|;
      assert rs' == rs + [Record(s.w.tail, a.ts, a.d)];
      if n > 0 { assert Superseded(rs', n - 1) <==> OneAhead(s.w); }
      if !NoneRepeated(rs) {
        var j :| 0 <= j < n && Superseded(rs, j);
        assert Superseded(rs', j);
      }
      if !NoneRepeated(rs') {
        var j :| 0 <= j <= n && Superseded(rs', j);
        if j < n - 1 { assert Superseded(rs, j); }
      }
    }
  }

  /** A log that repeated no cursor repeats one exactly if in the run a publish was appended after a refused one. */
  lemma {:induction false} RepeatedIff(s: State, actions: seq<Action>, s': State)
    requires Inv(s) && Reaches(s, actions, s')
    ensures NoneRepeated(s'.w.records) <==> NoneRepeated(s.w.records) && !Repeats(s, actions)
    decreases |actions|
  {
    hide Inv, Enabled, Next, NoneRepeated, OneAhead;
    if actions != [] {
      StepKeeps(s, actions[0]);
      RepeatStep(s, actions[0]);
      RepeatedIff(Next(s, actions[0]), actions[1..], s');
    }
  }

  /** So where no refused publish was followed by another one, the handoff is seamless. */
  lemma {:induction false} SeamlessUnlessRepeated(start: State, actions: seq<Action>, s: State)
    requires Start(start) && Reaches(start, actions, s) && s.sub.Some?
    requires NoneRepeated(start.w.records) && !Repeats(start, actions)
    ensures InOrder(s.w, s.sub.value.got) && s.sub.value.cursor == s.w.from + |s.sub.value.got|
  {
    StartOk(start);
    RepeatedIff(start, actions, s);
    NoGapNoDuplicate(start, actions, s);
    hide Inv, Reaches, Start, Superseded, Repeats;
  }

  // ── Promotion and the second scan ───────────────────────────────────────────

  /** The subscriber has handed out a record of the position that is in the log and not yet in the ring. */
  predicate ReadAhead(w: World, sub: Sub) {
    |w.posted| == w.tail + 1 && sub.got != [] && sub.got[|sub.got| - 1].0 == w.tail
  }

  /** The promotion that overtakes, exactly: the entry lands one past the tail if and only if a record was appended
      whose ring write has not landed, and the replay has handed out that position. Otherwise it lands between the
      tail it was parked at and the tail. */
  lemma {:induction false} PromotionOvertakesIff(start: State, actions: seq<Action>, s: State)
    requires Start(start) && Reaches(start, actions, s) && Enabled(s, Promote)
    ensures Replays(s) && Next(s, Promote).sub.Some?
    ensures var e := Next(s, Promote).sub.value.entry;
            && s.sub.value.phase.tail <= e <= s.w.tail + 1
            && (e == s.w.tail + 1 <==> ReadAhead(s.w, s.sub.value))
  {
    StartOk(start);
    RunKeeps(start, actions, s);
    SubFacts(s);
    DrainedPhase(s.w, s.sub.value);
    UnbrokenIs(s.w, s.sub.value);
    hide WalOk, SubOk, GotOk, Reaches, Start;
  }

  /** And it is not held up: a live subscriber behind the tail receives the position of its cursor next. */
  lemma {:induction false} LiveReceivesNext(start: State, actions: seq<Action>, s: State)
    requires Start(start) && Reaches(start, actions, s) && s.sub.Some? && s.sub.value.phase.Live?
    requires s.sub.value.cursor < s.w.tail
    ensures Enabled(s, Receive) && s.w.tail <= |s.w.posted|
    ensures var sub := s.sub.value;
            Next(s, Receive) == SetSub(s, sub.(entry := sub.cursor + 1, cursor := sub.cursor + 1,
                                               got := sub.got + [(sub.cursor, s.w.posted[sub.cursor])]))
  {
    StartOk(start);
    RunKeeps(start, actions, s);
    SubFacts(s);
    assert Enabled(s, Receive) by { hide WalOk, GotOk, SubOk; }
    hide *;
    ReceiveIs(s);
  }

  /** The second scan, exactly: it refuses the record if and only if the smallest cursor is a lap behind the tail or
      past it. */
  lemma {:induction false} RecheckRefusesIff(s: State)
    requires Inv(s) && s.w.pub.Appended?
    ensures Next(s, Recheck).w.pub.Idle? <==>
            MinEntry(s).Some? && (MinEntry(s).value + s.w.capacity <= s.w.tail || MinEntry(s).value > s.w.tail)
  {
    if s.sub.Some? { EntryBound(s); }
    var m := MinEntry(s);
    hide Mirrors, Stepped, CutsOk, SubOk;
    if m.Some? && m.value > s.w.tail {
      RemainderIs(s.w.tail - m.value, U64, -1, s.w.tail - m.value + U64);
    } else if m.Some? {
      RemainderIs(s.w.tail - m.value, U64, 0, s.w.tail - m.value);
    }
  }

  /** With no other subscriber an appended record is refused by the ring if and only if the one subscriber's entry is
      past the tail or a lap behind it. The first is a promotion that overtook the record, and the second a claim with
      a stale tail, for which the replay has not been set up yet. */
  lemma {:induction false} LoneRecheckRefusesIff(start: State, actions: seq<Action>, s: State)
    requires Start(start) && Reaches(start, actions, s) && s.w.pub.Appended? && s.w.others.None?
    ensures Next(s, Recheck).w.pub.Idle? <==>
            s.sub.Some? && (s.sub.value.entry > s.w.tail || s.sub.value.entry + s.w.capacity <= s.w.tail)
    ensures s.sub.Some? ==>
              var sub := s.sub.value;
              && (sub.entry > s.w.tail <==> sub.phase == Live(Some(s.w.tail)))
              && (sub.entry + s.w.capacity <= s.w.tail ==> sub.phase.Claimed? || sub.phase.Loaded? || sub.phase.Listed?)
  {
    StartOk(start);
    RunKeeps(start, actions, s);
    RecheckRefusesIff(s);
    hide WalOk, GotOk, ReplayOk, Reaches, Start;
    if s.sub.Some? { EntryIs(s); }
  }

  lemma {:induction false} EntryIs(s: State)
    requires Inv(s) && s.sub.Some? && s.w.pub.Appended?
    ensures var sub := s.sub.value;
            && (sub.entry > s.w.tail <==> sub.phase == Live(Some(s.w.tail)))
            && (sub.entry + s.w.capacity <= s.w.tail ==> sub.phase.Claimed? || sub.phase.Loaded? || sub.phase.Listed?)
  {
    hide Mirrors, Stepped, CutsOk, GotOk, ListOk, PlaceOk;
  }

  /** A subscriber alone past the tail, and a publisher between publishes. */
  predicate Blocked(s: State) {
    && s.w.pub.Idle? && s.w.others.None? && 0 < s.w.capacity < U32 && s.w.tail < RingProtocol.MAX_TAIL
    && s.sub.Some? && s.sub.value.phase.Live? && s.sub.value.entry == s.sub.value.cursor == s.w.tail + 1
  }

  lemma {:induction false} BlockedStep(s: State, a: Action)
    requires Blocked(s) && Enabled(s, a) && !a.Others?
    ensures Blocked(Next(s, a))
    ensures var w, w' := s.w, Next(s, a).w; w'.tail == w.tail && w'.records == w.records && w'.posted == w.posted
  {
    RemainderIs(-1, U64, -1, U64 - 1);
    hide CanRotate, ReadNext, Containing, Segs, Readable;
  }

  lemma {:induction false} BlockedForGood(s: State, later: seq<Action>, s': State)
    requires Blocked(s) && Reaches(s, later, s') && forall a :: a in later ==> !a.Others?
    ensures Blocked(s') && s'.w.tail == s.w.tail && s'.w.records == s.w.records && s'.w.posted == s.w.posted
    decreases |later|
  {
    if later != [] {
      assert later[0] in later;
      BlockedStep(s, later[0]);
      hide Blocked, Enabled, Next;
      forall a | a in later[1..] ensures a in later {}
      BlockedForGood(Next(s, later[0]), later[1..], s');
    }
  }

  /** Overtaking an append, to its end: the lone subscriber's promotion past the tail makes the second scan refuse the
      record, and as long as no other subscriber turns up no later publish gets through either: neither the ring nor
      the log grows again. */
  lemma {:induction false} PromotedInsidePublish(start: State, actions: seq<Action>, s: State, later: seq<Action>,
          s': State)
    requires Start(start) && Reaches(start, actions, s) && s.w.pub.Appended? && s.w.others.None?
    requires s.sub.Some? && s.sub.value.phase.Live? && s.sub.value.entry == s.w.tail + 1
    requires Reaches(Next(s, Recheck), later, s') && forall a :: a in later ==> !a.Others?
    ensures Next(s, Recheck).w.pub.Idle? && s'.w.pub.Idle? && s'.w.tail == s.w.tail && s'.w.records == s.w.records
  {
    LoneRecheckRefusesIff(start, actions, s);
    StartOk(start);
    RunKeeps(start, actions, s);
    SubFacts(s);
    assert Blocked(Next(s, Recheck)) by { hide Reaches, Start, SubOk, GotOk; }
    hide Inv, Reaches, Start, Next;
    BlockedForGood(Next(s, Recheck), later, s');
  }

  // ── Runs that show it ───────────────────────────────────────────────────────

  lemma {:induction false} Extend(s: State, actions: seq<Action>, s': State, a: Action)
    requires Reaches(s, actions, s') && Enabled(s', a)
    ensures Reaches(s, actions + [a], Next(s', a))
    decreases |actions|
  {
    hide Next, Enabled;
    if actions == [] {
      assert [] + [a] == [a] && [a][1..] == [];
      assert Reaches(Next(s', a), [a][1..], Next(s', a));
    } else {
      Extend(Next(s, actions[0]), actions[1..], s', a);
      assert (actions + [a])[1..] == actions[1..] + [a];
    }
  }

  /** Reached from an empty bus with a ring of one slot. */
  ghost predicate Occurs(snapshot: bool, s: State) {
    exists actions :: Reaches(Bus(snapshot, [], [], [], 0, None, Idle, None), actions, s)
  }

  lemma {:induction false} Go(snapshot: bool, s: State, a: Action, s': State)
    requires Occurs(snapshot, s) && Enabled(s, a) && Next(s, a) == s'
    ensures Occurs(snapshot, s')
  {
    hide Enabled, Next;
    var s0 := Bus(snapshot, [], [], [], 0, None, Idle, None);
    var actions :| Reaches(s0, actions, s);
    Extend(s0, actions, s, a);
  }

  function Bus(snapshot: bool, records: seq<Record>, cuts: seq<nat>, posted: seq<Payload>, tail: nat,
               others: Option<nat>, pub: Pub, sub: Option<Sub>): State
  {
    State(World(1, snapshot, 0, records, cuts, posted, tail, others, pub), sub)
  }

  /** A record of an empty message. */
  function Plain(p: nat): Record
    requires p < 8
  {
    Record(p, 0, [])
  }

  /** One publish that nobody disturbs. */
  lemma {:induction false} PublishedOne(snapshot: bool)
    ensures Occurs(snapshot, Bus(snapshot, [Plain(0)], [0], [[]], 1, None, Idle, None))
  {
    var s0 := Bus(snapshot, [], [], [], 0, None, Idle, None);
    assert Reaches(s0, [], s0);
    hide Occurs, Reaches;
    Go(snapshot, s0, Append([], 0, false), Bus(snapshot, [Plain(0)], [0], [[]], 0, None, Appended, None));
    Go(snapshot, Bus(snapshot, [Plain(0)], [0], [[]], 0, None, Appended, None), Recheck,
       Bus(snapshot, [Plain(0)], [0], [[]], 0, None, Writing, None));
    Go(snapshot, Bus(snapshot, [Plain(0)], [0], [[]], 0, None, Writing, None), Store,
       Bus(snapshot, [Plain(0)], [0], [[]], 1, None, Idle, None));
  }

  /** And a second record that is in the log only. */
  lemma {:induction false} AppendedTwo(snapshot: bool, sub: Option<Sub>)
    requires sub.Some? ==> sub.value.entry == 1
    requires Occurs(snapshot, Bus(snapshot, [Plain(0)], [0], [[]], 1, None, Idle, sub))
    ensures Occurs(snapshot, Bus(snapshot, [Plain(0), Plain(1)], [0], [[], []], 1, None, Appended, sub))
  {
    hide Occurs;
    var s := Bus(snapshot, [Plain(0)], [0], [[]], 1, None, Idle, sub);
    assert !RingFull(s);
    var one: seq<Payload> := [[]];
    assert one[..1] + [[]] == [[], []] && [Plain(0)] + [Plain(1)] == [Plain(0), Plain(1)];
    Go(snapshot, s, Append([], 0, false), Bus(snapshot, [Plain(0), Plain(1)], [0], [[], []], 1, None, Appended, sub));
  }

  /** A claim with a stale tail turns an appended record away, although the subscriber has not overtaken anything. */
  lemma {:induction false} StaleClaimRefuses(snapshot: bool) returns (s: State)
    ensures Occurs(snapshot, s) && s.w.pub.Appended? && s.w.others.None?
    ensures s.sub == Some(Sub(0, Claimed, 0, [], 0, 0)) && s.w.tail == 1
    ensures Next(s, Recheck).w.pub.Idle?
  {
    PublishedOne(snapshot);
    AppendedTwo(snapshot, None);
    hide Occurs;
    s := Bus(snapshot, [Plain(0), Plain(1)], [0], [[], []], 1, None, Appended, Some(Sub(0, Claimed, 0, [], 0, 0)));
    Go(snapshot, Bus(snapshot, [Plain(0), Plain(1)], [0], [[], []], 1, None, Appended, None), Claim(0), s);
  }

  // ── A position handed out twice ─────────────────────────────────────────────

  /** The records of a bus whose second publish was refused by the ring and whose third was not. */
  function Repeated(): seq<Record> { [Plain(0), Plain(1), Record(1, 0, [1])] }

  /** The v0.1 log takes the third only into a new segment. */
  function RepeatedCuts(snapshot: bool): seq<nat> { if snapshot then [0, 2] else [0] }

  function RepeatedBus(snapshot: bool, tail: nat, pub: Pub, sub: Option<Sub>): State {
    Bus(snapshot, Repeated(), RepeatedCuts(snapshot), [[], [1]], tail, None, pub, sub)
  }

  lemma {:induction false} RefusedOne(snapshot: bool)
    ensures Occurs(snapshot, Bus(snapshot, [Plain(0), Plain(1)], [0], [[], []], 1, None, Idle, None))
  {
    PublishedOne(snapshot);
    AppendedTwo(snapshot, None);
    hide Occurs;
    Go(snapshot, Bus(snapshot, [Plain(0), Plain(1)], [0], [[], []], 1, None, Appended, None), Others(Some(0)),
       Bus(snapshot, [Plain(0), Plain(1)], [0], [[], []], 1, Some(0), Appended, None));
    Go(snapshot, Bus(snapshot, [Plain(0), Plain(1)], [0], [[], []], 1, Some(0), Appended, None), Recheck,
       Bus(snapshot, [Plain(0), Plain(1)], [0], [[], []], 1, Some(0), Idle, None));
    Go(snapshot, Bus(snapshot, [Plain(0), Plain(1)], [0], [[], []], 1, Some(0), Idle, None), Others(None),
       Bus(snapshot, [Plain(0), Plain(1)], [0], [[], []], 1, None, Idle, None));
  }

  lemma {:induction false} RepeatedOne(snapshot: bool)
    ensures Occurs(snapshot, RepeatedBus(snapshot, 2, Idle, None))
  {
    RefusedOne(snapshot);
    hide Occurs;
    var s := Bus(snapshot, [Plain(0), Plain(1)], [0], [[], []], 1, None, Idle, None);
    RepeatIs(snapshot, s);
    Go(snapshot, s, Append([1], 0, snapshot), RepeatedBus(snapshot, 1, Appended, None));
    Go(snapshot, RepeatedBus(snapshot, 1, Appended, None), Recheck, RepeatedBus(snapshot, 1, Writing, None));
    Go(snapshot, RepeatedBus(snapshot, 1, Writing, None), Store, RepeatedBus(snapshot, 2, Idle, None));
  }

  lemma {:induction false} RepeatIs(snapshot: bool, s: State)
    requires s == Bus(snapshot, [Plain(0), Plain(1)], [0], [[], []], 1, None, Idle, None)
    ensures Enabled(s, Append([1], 0, snapshot))
    ensures Next(s, Append([1], 0, snapshot)) == RepeatedBus(snapshot, 1, Appended, None)
  {
    var two: seq<Payload> := [[], []];
    assert two[..1] + [[1]] == [[], [1]];
    assert [Plain(0), Plain(1)] + [Record(1, 0, [1])] == Repeated();
    assert [0] + [2] == [0, 2];
    assert CanRotate(s.w);
    assert !RingFull(s);
  }

  /** The subscriber whose replay of that log has read `read` records. */
  function Rereading(snapshot: bool, pos: nat, open: Option<Reader>, read: nat): Option<Sub>
    requires read <= 3
  {
    var cursor := if read == 3 then 2 else read;
    Some(Sub(2, Replaying(2, 0, |RepeatedCuts(snapshot)|, pos, open), cursor, Handed(read), read, read))
  }

  function Handed(n: nat): seq<(nat, Payload)>
    requires n <= 3
  {
    if n == 0 then [] else Handed(n - 1) + [if n == 3 then (1, [1]) else (n - 1, [])]
  }

  lemma {:induction false} RepeatedListed(snapshot: bool)
    ensures Occurs(snapshot, RepeatedBus(snapshot, 2, Idle, Rereading(snapshot, 0, None, 0)))
  {
    RepeatedOne(snapshot);
    hide Occurs;
    var n := |RepeatedCuts(snapshot)|;
    Go(snapshot, RepeatedBus(snapshot, 2, Idle, None), Claim(2),
       RepeatedBus(snapshot, 2, Idle, Some(Sub(2, Claimed, 0, [], 0, 0))));
    Go(snapshot, RepeatedBus(snapshot, 2, Idle, Some(Sub(2, Claimed, 0, [], 0, 0))), LoadTail,
       RepeatedBus(snapshot, 2, Idle, Some(Sub(2, Loaded(2), 0, [], 0, 0))));
    FirstHoldsZero(snapshot);
    Go(snapshot, RepeatedBus(snapshot, 2, Idle, Some(Sub(2, Loaded(2), 0, [], 0, 0))), List,
       RepeatedBus(snapshot, 2, Idle, Some(Sub(2, Listed(2, 0, n), 0, [], 0, 0))));
    Go(snapshot, RepeatedBus(snapshot, 2, Idle, Some(Sub(2, Listed(2, 0, n), 0, [], 0, 0))), Park,
       RepeatedBus(snapshot, 2, Idle, Rereading(snapshot, 0, None, 0)));
  }

  lemma {:induction false} FirstHoldsZero(snapshot: bool)
    ensures var w := RepeatedBus(snapshot, 2, Idle, None).w;
            NameOf(w, 0) == 0 && Containing(Segs(w), 0) == 0
  {
    var w := RepeatedBus(snapshot, 2, Idle, None).w;
    SegsAt(w, 0);
    SegsAt(w, 1);
    hide Segs;
  }

  lemma {:induction false} ReadAgain(snapshot: bool, pos: nat, k: nat, limit: nat, read: nat)
    requires read < 3 && pos < |RepeatedCuts(snapshot)| && read == RepeatedCuts(snapshot)[pos] + k && k < limit
    requires limit == SegLen(RepeatedBus(snapshot, 2, Idle, None).w, pos)
    requires Occurs(snapshot, RepeatedBus(snapshot, 2, Idle, Rereading(snapshot, pos, Some(Reader(k, limit)), read)))
    ensures Occurs(snapshot,
      RepeatedBus(snapshot, 2, Idle, Rereading(snapshot, pos, Some(Reader(k + 1, limit)), read + 1)))
  {
    hide Occurs;
    Go(snapshot, RepeatedBus(snapshot, 2, Idle, Rereading(snapshot, pos, Some(Reader(k, limit)), read)), Read,
       RepeatedBus(snapshot, 2, Idle, Rereading(snapshot, pos, Some(Reader(k + 1, limit)), read + 1)));
  }

  lemma {:induction false} FileTurn(snapshot: bool, pos: nat, read: nat)
    requires read <= 3 && pos < |RepeatedCuts(snapshot)|
    requires var len := SegLen(RepeatedBus(snapshot, 2, Idle, None).w, pos);
             Occurs(snapshot, RepeatedBus(snapshot, 2, Idle, Rereading(snapshot, pos, Some(Reader(len, len)), read)))
    ensures Occurs(snapshot, RepeatedBus(snapshot, 2, Idle, Rereading(snapshot, pos + 1, None, read)))
  {
    hide Occurs;
    var len := SegLen(RepeatedBus(snapshot, 2, Idle, None).w, pos);
    Go(snapshot, RepeatedBus(snapshot, 2, Idle, Rereading(snapshot, pos, Some(Reader(len, len)), read)), Read,
       RepeatedBus(snapshot, 2, Idle, Rereading(snapshot, pos + 1, None, read)));
  }

  lemma {:induction false} FileOpened(snapshot: bool, pos: nat, read: nat)
    requires read <= 3 && pos < |RepeatedCuts(snapshot)| && read == RepeatedCuts(snapshot)[pos]
    requires Occurs(snapshot, RepeatedBus(snapshot, 2, Idle, Rereading(snapshot, pos, None, read)))
    ensures var len := SegLen(RepeatedBus(snapshot, 2, Idle, None).w, pos);
            Occurs(snapshot, RepeatedBus(snapshot, 2, Idle, Rereading(snapshot, pos, Some(Reader(0, len)), read)))
  {
    hide Occurs;
    var len := SegLen(RepeatedBus(snapshot, 2, Idle, None).w, pos);
    Go(snapshot, RepeatedBus(snapshot, 2, Idle, Rereading(snapshot, pos, None, read)), Open,
       RepeatedBus(snapshot, 2, Idle, Rereading(snapshot, pos, Some(Reader(0, len)), read)));
  }

  lemma {:induction false} RepeatedDrained(snapshot: bool)
    ensures Occurs(snapshot, RepeatedBus(snapshot, 2, Idle, Rereading(snapshot, |RepeatedCuts(snapshot)|, None, 3)))
  {
    RepeatedListed(snapshot);
    Lengths(snapshot);
    hide Occurs, Rereading;
    FileOpened(snapshot, 0, 0);
    var n := if snapshot then 2 else 3;
    ReadAgain(snapshot, 0, 0, n, 0);
    ReadAgain(snapshot, 0, 1, n, 1);
    if snapshot {
      FileTurn(snapshot, 0, 2);
      FileOpened(snapshot, 1, 2);
      ReadAgain(snapshot, 1, 0, 1, 2);
      FileTurn(snapshot, 1, 3);
    } else {
      ReadAgain(snapshot, 0, 2, n, 2);
      FileTurn(snapshot, 0, 3);
    }
  }

  lemma {:induction false} Lengths(snapshot: bool)
    ensures SegLen(RepeatedBus(snapshot, 2, Idle, None).w, 0) == if snapshot then 2 else 3
    ensures snapshot ==> SegLen(RepeatedBus(snapshot, 2, Idle, None).w, 1) == 1
  {
  }

  /** A run of either log from the empty bus in which a subscriber hands out position 1 twice, the first time with a
      message that the ring refused. */
  lemma {:induction false} DuplicateRun(snapshot: bool) returns (actions: seq<Action>, s: State)
    ensures Start(Bus(snapshot, [], [], [], 0, None, Idle, None))
    ensures Reaches(Bus(snapshot, [], [], [], 0, None, Idle, None), actions, s)
    ensures s.sub.Some? && s.sub.value.phase == Live(None) && s.w.posted == [[], [1]]
    ensures s.sub.value.got == [(0, []), (1, []), (1, [1])]
  {
    RepeatedDrained(snapshot);
    var sub := Rereading(snapshot, |RepeatedCuts(snapshot)|, None, 3).value;
    s := RepeatedBus(snapshot, 2, Idle, Some(sub.(phase := Live(None))));
    assert Handed(3) == [(0, []), (1, []), (1, [1])] by {
      assert Handed(1) == [(0, [])];
      assert Handed(2) == [(0, []), (1, [])];
    }
    Go(snapshot, RepeatedBus(snapshot, 2, Idle, Some(sub)), Promote, s);
    actions :| Reaches(Bus(snapshot, [], [], [], 0, None, Idle, None), actions, s);
  }

  // ── A promotion past the tail ───────────────────────────────────────────────

  /** A bus with `n` records, all but perhaps the last of them in the ring, in one file. */
  function PlainBus(snapshot: bool, n: nat, tail: nat, others: Option<nat>, pub: Pub, sub: Option<Sub>): State
    requires n <= 3
  {
    Bus(snapshot, Plains(n), if n == 0 then [] else [0], Blanks(n), tail, others, pub, sub)
  }

  function Plains(n: nat): (rs: seq<Record>)
    requires n <= 3
    ensures |rs| == n && forall i :: 0 <= i < n ==> rs[i] == Record(i, 0, [])
  {
    if n == 0 then [] else Plains(n - 1) + [Plain(n - 1)]
  }

  function Blanks(n: nat): (ds: seq<Payload>)
    ensures |ds| == n && forall i :: 0 <= i < n ==> ds[i] == []
  {
    if n == 0 then [] else Blanks(n - 1) + [[]]
  }

  lemma {:induction false} PlainAppend(snapshot: bool, n: nat, sub: Option<Sub>)
    requires 0 < n <= 2 && (sub.Some? ==> sub.value.entry == n)
    requires Occurs(snapshot, PlainBus(snapshot, n, n, None, Idle, sub))
    ensures Occurs(snapshot, PlainBus(snapshot, n + 1, n, None, Appended, sub))
  {
    hide Occurs;
    var s := PlainBus(snapshot, n, n, None, Idle, sub);
    assert !RingFull(s);
    assert Blanks(n)[..n] == Blanks(n);
    Go(snapshot, s, Append([], 0, false), PlainBus(snapshot, n + 1, n, None, Appended, sub));
  }

  lemma {:induction false} PublishedTwo(snapshot: bool)
    ensures Occurs(snapshot, PlainBus(snapshot, 2, 2, None, Idle, None))
  {
    PublishedOne(snapshot);
    assert Plains(1) == [Plain(0)] && Blanks(1) == [[]];
    hide Occurs, Plains, Blanks;
    PlainAppend(snapshot, 1, None);
    Go(snapshot, PlainBus(snapshot, 2, 1, None, Appended, None), Recheck,
      PlainBus(snapshot, 2, 1, None, Writing, None));
    Go(snapshot, PlainBus(snapshot, 2, 1, None, Writing, None), Store, PlainBus(snapshot, 2, 2, None, Idle, None));
  }

  /** The subscriber at the moment its reader stands before record `k` of the three. */
  function Reading(k: nat): Option<Sub>
    requires k <= 3
  {
    Some(Sub(2, Replaying(2, 0, 1, 0, Some(Reader(k, 3))), k, HandedPlain(k), k, k))
  }

  function HandedPlain(k: nat): (got: seq<(nat, Payload)>)
    requires k <= 3
  {
    if k == 0 then [] else HandedPlain(k - 1) + [(k - 1, [])]
  }

  lemma {:induction false} ZeroFirst(snapshot: bool)
    ensures var w := PlainBus(snapshot, 2, 2, None, Idle, None).w;
            NameOf(w, 0) == 0 && Containing(Segs(w), 0) == 0
  {
    var w := PlainBus(snapshot, 2, 2, None, Idle, None).w;
    SegsAt(w, 0);
    hide Segs;
  }

  /** Connected, its segment listed, and then a record appended before the segment is opened. */
  lemma {:induction false} OpenedAfterAppend(snapshot: bool)
    ensures Occurs(snapshot, PlainBus(snapshot, 3, 2, None, Appended, Reading(0)))
  {
    PublishedTwo(snapshot);
    hide Occurs, Plains, Blanks;
    Go(snapshot, PlainBus(snapshot, 2, 2, None, Idle, None), Claim(2),
       PlainBus(snapshot, 2, 2, None, Idle, Some(Sub(2, Claimed, 0, [], 0, 0))));
    Go(snapshot, PlainBus(snapshot, 2, 2, None, Idle, Some(Sub(2, Claimed, 0, [], 0, 0))), LoadTail,
       PlainBus(snapshot, 2, 2, None, Idle, Some(Sub(2, Loaded(2), 0, [], 0, 0))));
    ZeroFirst(snapshot);
    var listed := Some(Sub(2, Listed(2, 0, 1), 0, [], 0, 0));
    Go(snapshot, PlainBus(snapshot, 2, 2, None, Idle, Some(Sub(2, Loaded(2), 0, [], 0, 0))), List,
       PlainBus(snapshot, 2, 2, None, Idle, listed));
    PlainAppend(snapshot, 2, listed);
    var parked := Some(Sub(2, Replaying(2, 0, 1, 0, None), 0, [], 0, 0));
    Go(snapshot, PlainBus(snapshot, 3, 2, None, Appended, listed), Park,
      PlainBus(snapshot, 3, 2, None, Appended, parked));
    Go(snapshot, PlainBus(snapshot, 3, 2, None, Appended, parked), Open,
      PlainBus(snapshot, 3, 2, None, Appended, Reading(0)));
  }

  lemma {:induction false} ReadOne(snapshot: bool, k: nat)
    requires k < 3 && Occurs(snapshot, PlainBus(snapshot, 3, 2, None, Appended, Reading(k)))
    ensures Occurs(snapshot, PlainBus(snapshot, 3, 2, None, Appended, Reading(k + 1)))
  {
    hide Occurs, Plains, Blanks;
    Go(snapshot, PlainBus(snapshot, 3, 2, None, Appended, Reading(k)), Read,
       PlainBus(snapshot, 3, 2, None, Appended, Reading(k + 1)));
  }

  /** Alone, and promoted past the tail. */
  function Overtaken(): Sub { Sub(3, Live(Some(2)), 3, HandedPlain(3), 3, 3) }

  lemma {:induction false} Overtakes(snapshot: bool)
    ensures Occurs(snapshot, PlainBus(snapshot, 3, 2, None, Appended, Some(Overtaken())))
  {
    OpenedAfterAppend(snapshot);
    hide Occurs, Plains, Blanks, HandedPlain;
    ReadOne(snapshot, 0);
    ReadOne(snapshot, 1);
    ReadOne(snapshot, 2);
    var drained := Some(Sub(2, Replaying(2, 0, 1, 1, None), 3, HandedPlain(3), 3, 3));
    Go(snapshot, PlainBus(snapshot, 3, 2, None, Appended, Reading(3)), Read,
      PlainBus(snapshot, 3, 2, None, Appended, drained));
    Go(snapshot, PlainBus(snapshot, 3, 2, None, Appended, drained), Promote,
       PlainBus(snapshot, 3, 2, None, Appended, Some(Overtaken())));
  }

  /** A run from an empty bus, with either reader, to a lone subscriber promoted past the tail between an append and
      its second scan. */
  lemma {:induction false} OvertakingRun(snapshot: bool) returns (actions: seq<Action>, s: State)
    ensures Start(Bus(snapshot, [], [], [], 0, None, Idle, None))
    ensures Reaches(Bus(snapshot, [], [], [], 0, None, Idle, None), actions, s)
    ensures s.w.pub.Appended? && s.w.others.None? && s.sub.Some? && s.sub.value.phase == Live(Some(s.w.tail))
    ensures s.sub.value.entry == s.w.tail + 1
  {
    Overtakes(snapshot);
    s := PlainBus(snapshot, 3, 2, None, Appended, Some(Overtaken()));
    actions :| Reaches(Bus(snapshot, [], [], [], 0, None, Idle, None), actions, s);
  }

  // ── A refused message in place of the published one ─────────────────────────

  function ReplacedBus(snapshot: bool, tail: nat, pub: Pub): State {
    Bus(snapshot, Plains(3) + [Record(2, 0, [1])], if snapshot then [0, 3] else [0], [[], [], [1]], tail, Some(2), pub,
        Some(Overtaken()))
  }

  lemma {:induction false} ReplaceIs(snapshot: bool)
    ensures var s := PlainBus(snapshot, 3, 2, Some(2), Idle, Some(Overtaken()));
            && Enabled(s, Append([1], 0, snapshot))
            && Next(s, Append([1], 0, snapshot)) == ReplacedBus(snapshot, 2, Appended)
  {
    var s := PlainBus(snapshot, 3, 2, Some(2), Idle, Some(Overtaken()));
    assert !RingFull(s) && CanRotate(s.w);
    assert Blanks(3)[..2] + [[1]] == [[], [], [1]];
    assert [0] + [3] == [0, 3];
    hide RingFull, CanRotate;
  }

  /** A run of either log from the empty bus in which a subscriber hands out, for a position, a message that the ring
      refused, and never the one that was published there in its place. */
  lemma {:induction false} RefusedInsteadRun(snapshot: bool) returns (actions: seq<Action>, s: State)
    ensures Start(Bus(snapshot, [], [], [], 0, None, Idle, None))
    ensures Reaches(Bus(snapshot, [], [], [], 0, None, Idle, None), actions, s)
    ensures s.w.pub.Idle? && s.w.tail == 3 && s.w.posted == [[], [], [1]]
    ensures s.sub == Some(Overtaken()) && |HandedPlain(3)| == 3 && HandedPlain(3)[2] == (2, [])
  {
    Overtakes(snapshot);
    RefusedInstead(snapshot);
    s := ReplacedBus(snapshot, 3, Idle);
    actions :| Reaches(Bus(snapshot, [], [], [], 0, None, Idle, None), actions, s);
  }

  lemma {:induction false} RefusedInstead(snapshot: bool)
    requires Occurs(snapshot, PlainBus(snapshot, 3, 2, None, Appended, Some(Overtaken())))
    ensures Occurs(snapshot, ReplacedBus(snapshot, 3, Idle))
  {
    hide Occurs, Plains, Blanks, HandedPlain;
    var sub := Some(Overtaken());
    RemainderIs(-1, U64, -1, U64 - 1);
    Go(snapshot, PlainBus(snapshot, 3, 2, None, Appended, sub), Recheck, PlainBus(snapshot, 3, 2, None, Idle, sub));
    Go(snapshot, PlainBus(snapshot, 3, 2, None, Idle, sub), Others(Some(2)),
      PlainBus(snapshot, 3, 2, Some(2), Idle, sub));
    ReplaceIs(snapshot);
    Go(snapshot, PlainBus(snapshot, 3, 2, Some(2), Idle, sub), Append([1], 0, snapshot),
      ReplacedBus(snapshot, 2, Appended));
    Go(snapshot, ReplacedBus(snapshot, 2, Appended), Recheck, ReplacedBus(snapshot, 2, Writing));
    Go(snapshot, ReplacedBus(snapshot, 2, Writing), Store, ReplacedBus(snapshot, 3, Idle));
  }
}
