/** The ring as an object: crates/mmbus/src/ring.rs between two shared accesses of anybody else.

    What concurrent steps do to a reader or a writer is the subject of module RingProtocol; here each method runs
    alone. Slots hold the sequence word without its writing bit and the payload. */
module RingBuffer {
  import opened Bytes
  import opened RingProtocol

  const UNCLAIMED: u64 := 0xFFFF_FFFF_FFFF_FFFF

  datatype Cell = Cell(pos: nat, payload: Payload)

  /** What the ring means: the messages published since the tail was set to `base`, and the two tables. */
  datatype Contents = Contents(
    capacity: nat, payloadSize: nat, base: nat, log: seq<Payload>, cursors: seq<u64>, flags: seq<bool>)

  function Tail(v: Contents): nat { v.base + |v.log| }

  // ── Cursors ─────────────────────────────────────────────────────────────────

  /** The smallest claimed cursor. */
  function MinCursor(cs: seq<u64>): Option<nat> {
    if cs == [] then None
    else
      var m, c := MinCursor(cs[..|cs| - 1]), cs[|cs| - 1];
      if c == UNCLAIMED then m else if m.None? || c < m.value then Some(c) else m
  }

  lemma {:induction false} MinCursorIs(cs: seq<u64>)
    ensures MinCursor(cs).None? <==> forall i :: 0 <= i < |cs| ==> cs[i] == UNCLAIMED
    ensures MinCursor(cs).Some? ==> MinCursor(cs).value in cs && MinCursor(cs).value != UNCLAIMED
    ensures MinCursor(cs).Some? ==> forall i :: 0 <= i < |cs| ==> cs[i] == UNCLAIMED || MinCursor(cs).value <= cs[i]
  {
    if cs != [] { MinCursorIs(cs[..|cs| - 1]); }
  }

  function FirstUnclaimed(cs: seq<u64>): (i: nat)
    ensures i <= |cs| && (i < |cs| ==> cs[i] == UNCLAIMED) && forall k :: 0 <= k < i ==> cs[k] != UNCLAIMED
  {
    if cs == [] || cs[0] == UNCLAIMED then 0 else 1 + FirstUnclaimed(cs[1..])
  }

  predicate Saturated(v: Contents) { Full(Tail(v), MinCursor(v.cursors), v.capacity) }

  // ── Positions and slots ─────────────────────────────────────────────────────

  /** The position that the slot of `c` holds once everything before `tail` is published. */
  function WindowPos(c: nat, tail: nat, capacity: nat): (q: nat)
    requires c < tail && capacity > 0
    ensures c <= q
  {
    var laps := (tail - 1 - c) / capacity;
    MulNonNegative(capacity, laps);
    c + capacity * laps
  }

  lemma {:induction false} MulNonNegative(a: nat, b: nat)
    ensures a * b >= 0
  {
  }

  /** It is the only one of the slot within the last lap, and `c` itself if `c` is within it. */
  lemma {:induction false} WindowPosIs(c: nat, tail: nat, capacity: nat)
    requires c < tail && capacity > 0
    ensures var q := WindowPos(c, tail, capacity);
            && tail - capacity <= q < tail && SlotIndex(q, capacity) == SlotIndex(c, capacity)
            && (c >= tail - capacity ==> q == c)
            && forall p: nat :: tail - capacity <= p < tail && SlotIndex(p, capacity) == SlotIndex(c, capacity) ==>
                 p == q
  {
    var d, laps := tail - 1 - c, (tail - 1 - c) / capacity;
    var q := WindowPos(c, tail, capacity);
    assert d == capacity * laps + d % capacity;
    assert tail - capacity <= q < tail;
    AddLaps(c, capacity, laps);
    if c >= tail - capacity {
      if laps >= 1 { MulGap(capacity, laps); }
      SameSlot(c, q, capacity);
    }
    forall p: nat | tail - capacity <= p < tail && SlotIndex(p, capacity) == SlotIndex(c, capacity) ensures p == q {
      if p <= q { SameSlot(p, q, capacity); } else { SameSlot(q, p, capacity); }
    }
  }

  lemma {:induction false} AddLaps(c: nat, capacity: nat, laps: nat)
    requires capacity > 0
    ensures capacity * laps >= 0 && SlotIndex(c + capacity * laps, capacity) == SlotIndex(c, capacity)
  {
    var h, r := c / capacity, c % capacity;
    assert c + capacity * laps == capacity * (h + laps) + r by {
      assert capacity * (h + laps) == capacity * h + capacity * laps;
    }
    MulNonNegative(capacity, laps);
    RemainderIs(c + capacity * laps, capacity, h + laps, r);
  }

  // ── Publishing and receiving ────────────────────────────────────────────────

  function Published(v: Contents, d: Payload): Contents { v.(log := v.log + [d]) }

  function TryPublished(v: Contents, d: Payload): (Contents, bool) {
    if Saturated(v) then (v, false) else (Published(v, d), true)
  }

  /** What a subscriber at `c` gets: the cursor after it, and the payload. */
  function Readable(v: Contents, c: nat): Option<(nat, Payload)>
    requires v.capacity > 0
  {
    if c >= Tail(v) then None
    else
      var q := WindowPos(c, Tail(v), v.capacity);
      WindowPosIs(c, Tail(v), v.capacity);
      if q >= v.base then Some((q + 1, v.log[q - v.base]))
      else if c == 0 then Some((1, []))
      else None
  }

  function Advanced(v: Contents, idx: nat, cursor: u64): Contents
    requires idx < |v.cursors|
  {
    v.(cursors := v.cursors[idx := cursor])
  }

  class RingBuffer {
    const capacity: nat
    const payloadSize: nat
    const slots: array<Cell>
    const cursors: array<u64>
    const flags: array<bool>
    var tail: nat
    ghost var base: nat
    ghost var log: seq<Payload>

    ghost predicate Valid()
      reads this, slots, cursors, flags
    {
      && 0 < capacity < U32 && slots.Length == capacity && cursors.Length == flags.Length
      && tail == base + |log| && tail < MAX_TAIL
      && (forall p: nat {:trigger SlotIndex(p, capacity)} ::
            base <= p < tail && tail - capacity <= p ==> slots[SlotIndex(p, capacity)] == Cell(p, log[p - base]))
      && (forall p: nat {:trigger SlotIndex(p, capacity)} ::
            tail <= p < base + capacity ==> slots[SlotIndex(p, capacity)] == Cell(0, []))
    }

    ghost function View(): Contents
      reads this, cursors, flags
    {
      Contents(capacity, payloadSize, base, log, cursors[..], flags[..])
    }

    constructor (capacity: nat, payloadSize: nat, maxSubscribers: nat)
      requires 0 < capacity < U32
      ensures Valid() && fresh(slots) && fresh(cursors) && fresh(flags)
      ensures View() == Contents(capacity, payloadSize, 0, [], seq(maxSubscribers, _ => UNCLAIMED),
        seq(maxSubscribers, _ => false))
    {
      this.capacity, this.payloadSize := capacity, payloadSize;
      slots := new Cell[capacity](_ => Cell(0, []));
      cursors := new u64[maxSubscribers](_ => UNCLAIMED);
      flags := new bool[maxSubscribers](_ => false);
      tail, base, log := 0, 0, [];
    }

    // ── The two tables ────────────────────────────────────────────────────────

    method SetWakeflag(idx: nat)
      requires Valid() && idx < flags.Length
      modifies flags
      ensures Valid() && View() == old(View()).(flags := old(flags[..])[idx := true])
    {
      flags[idx] := true;
    }

    method ClearWakeflag(idx: nat)
      requires Valid() && idx < flags.Length
      modifies flags
      ensures Valid() && View() == old(View()).(flags := old(flags[..])[idx := false])
    {
      flags[idx] := false;
    }

    method TakeWakeflag(idx: nat) returns (was: bool)
      requires Valid() && idx < flags.Length
      modifies flags
      ensures Valid() && was == old(flags[idx]) && View() == old(View()).(flags := old(flags[..])[idx := false])
    {
      was := flags[idx];
      flags[idx] := false;
    }

    /** The first free entry is taken, and no wakeup of its last tenant is left behind. */
    method ClaimCursor(initial: u64) returns (slot: Option<nat>)
      requires Valid()
      modifies cursors, flags
      ensures Valid()
      ensures var i, v := FirstUnclaimed(old(cursors[..])), old(View());
              if i == |v.cursors| then slot == None && View() == v
              else slot == Some(i) && View() == Advanced(v, i, initial).(flags := v.flags[i := false])
    {
      var i := 0;
      while i < cursors.Length
        invariant 0 <= i <= cursors.Length && Valid() && View() == old(View())
        invariant i <= FirstUnclaimed(old(cursors[..]))
      {
        if cursors[i] == UNCLAIMED {
          cursors[i] := initial;
          ClearWakeflag(i);
          return Some(i);
        }
        i := i + 1;
      }
      slot := None;
    }

    method SetCursor(idx: nat, value: u64)
      requires Valid() && idx < cursors.Length
      modifies cursors
      ensures Valid() && View() == Advanced(old(View()), idx, value)
    {
      cursors[idx] := value;
    }

    method ReleaseCursor(idx: nat)
      requires Valid() && idx < cursors.Length
      modifies cursors
      ensures Valid() && View() == Advanced(old(View()), idx, UNCLAIMED)
    {
      cursors[idx] := UNCLAIMED;
    }

    /** The subscribers move: the cursor table is what the next scan finds. */
    method OthersMove(to: seq<u64>)
      requires Valid() && |to| == cursors.Length
      modifies cursors
      ensures Valid() && View() == old(View()).(cursors := to)
    {
      forall i | 0 <= i < cursors.Length {
        cursors[i] := to[i];
      }
      assert cursors[..] == to;
    }

    method MinActiveCursor() returns (min: Option<nat>)
      ensures min == MinCursor(cursors[..])
    {
      min := None;
      for i := 0 to cursors.Length
        invariant min == MinCursor(cursors[..i])
      {
        var c := cursors[i];
        assert cursors[..i + 1] == cursors[..i] + [c];
        if c != UNCLAIMED {
          min := Some(if min.None? || c < min.value then c else min.value);
        }
      }
      assert cursors[..cursors.Length] == cursors[..];
    }

    // ── The producer ──────────────────────────────────────────────────────────

    method IsFull() returns (full: bool)
      requires Valid()
      ensures full == Saturated(View())
    {
      var min := MinActiveCursor();
      var effectiveMin := if min.Some? then min.value else tail;
      full := (tail - effectiveMin) % U64 >= capacity;
    }

    method WriteSlot(data: Payload)
      requires Valid() && |data| <= payloadSize && tail + 1 < MAX_TAIL
      modifies this`tail, this`log, slots
      ensures Valid() && View() == Published(old(View()), data)
    {
      var s := SlotIndex(tail, capacity);
      slots[s] := Cell(tail, data);
      tail, log := tail + 1, log + [data];
      forall p: nat | base <= p < tail && tail - capacity <= p
        ensures slots[SlotIndex(p, capacity)] == Cell(p, log[p - base])
      {
        if SlotIndex(p, capacity) == s { SameSlot(p, tail - 1, capacity); }
      }
      forall p: nat | tail <= p < base + capacity ensures slots[SlotIndex(p, capacity)] == Cell(0, []) {
        if SlotIndex(p, capacity) == s { SameSlot(tail - 1, p, capacity); }
      }
    }

    method TryPublish(data: Payload) returns (ok: bool)
      requires Valid() && |data| <= payloadSize && tail + 1 < MAX_TAIL
      modifies this`tail, this`log, slots
      ensures Valid() && (View(), ok) == TryPublished(old(View()), data)
    {
      var full := IsFull();
      if full { return false; }
      WriteSlot(data);
      ok := true;
    }

    method PublishDropOldest(data: Payload) returns (ok: bool)
      requires Valid() && |data| <= payloadSize && tail + 1 < MAX_TAIL
      modifies this`tail, this`log, slots
      ensures Valid() && ok && View() == Published(old(View()), data)
    {
      WriteSlot(data);
      ok := true;
    }

    /** Only before the first publish: the tail moves without a message. */
    method SetTail(value: nat)
      requires Valid() && base == 0 && log == [] && value < MAX_TAIL
      modifies this`tail, this`base
      ensures Valid() && View() == old(View()).(base := value)
    {
      forall p: nat | value <= p < value + capacity ensures slots[SlotIndex(p, capacity)] == Cell(0, []) {
        assert SlotIndex(SlotIndex(p, capacity), capacity) == SlotIndex(p, capacity);
      }
      tail, base := value, value;
    }

    // ── The subscribers ───────────────────────────────────────────────────────

    /** What the slot of an old cursor holds. */
    lemma {:induction false} SlotOf(c: nat)
      requires Valid() && c < tail
      ensures var q := WindowPos(c, tail, capacity);
              && SlotIndex(q, capacity) == SlotIndex(c, capacity)
              && slots[SlotIndex(c, capacity)] == if q >= base then Cell(q, log[q - base]) else Cell(0, [])
    {
      WindowPosIs(c, tail, capacity);
      var q := WindowPos(c, tail, capacity);
      AddLaps(q, capacity, 1);
      assert SlotIndex(q + capacity, capacity) == SlotIndex(q, capacity);
    }

    /** The read loop with nobody writing: at most one step forward to what the slot holds now. */
    method TryReceive(idx: nat, localCursor: nat) returns (r: Option<(nat, Payload)>)
      requires Valid() && idx < cursors.Length
      modifies cursors
      ensures Valid() && r == Readable(old(View()), localCursor)
      ensures r.None? ==> View() == old(View())
      ensures r.Some? ==> r.value.0 <= MAX_TAIL && View() == Advanced(old(View()), idx, r.value.0)
    {
      r := None;
      if localCursor >= tail { return; }
      SlotOf(localCursor);
      WindowPosIs(localCursor, tail, capacity);
      hide WindowPos, SlotIndex;
      ghost var q := WindowPos(localCursor, tail, capacity);
      var effective := localCursor;
      var tries := 0;
      while tries < MAX_RETRIES
        invariant 0 <= tries <= 1 && effective == (if tries == 0 then localCursor else q)
        invariant tries == 1 ==> q >= base
        invariant Valid() && View() == old(View()) && r.None?
      {
        var cell := slots[SlotIndex(effective, capacity)];
        if cell.pos > effective {
          effective, tries := cell.pos, tries + 1;
          continue;
        }
        if cell.pos < effective { return; }
        cursors[idx] := effective + 1;
        return Some((effective + 1, cell.payload));
      }
    }

    /** The same into a buffer of the caller: a payload that is too large is skipped and reported as `None`. */
    method TryReceiveIntoSlice(idx: nat, localCursor: nat, out: array<byte>) returns (r: Option<(nat, Option<nat>)>)
      requires Valid() && idx < cursors.Length
      modifies cursors, out
      ensures Valid() && (r.None? <==> Readable(old(View()), localCursor).None?)
      ensures r.None? ==> View() == old(View()) && out[..] == old(out[..])
      ensures r.Some? ==>
                var (c, payload) := Readable(old(View()), localCursor).value;
                && r.value.0 == c <= MAX_TAIL && View() == Advanced(old(View()), idx, c)
                && r.value.1 == (if |payload| > out.Length then None else Some(|payload|))
                && out[..] == (if |payload| > out.Length then old(out[..]) else payload + old(out[..])[|payload|..])
    {
      r := None;
      if localCursor >= tail { return; }
      SlotOf(localCursor);
      WindowPosIs(localCursor, tail, capacity);
      hide WindowPos, SlotIndex;
      ghost var q := WindowPos(localCursor, tail, capacity);
      var effective := localCursor;
      var tries := 0;
      while tries < MAX_RETRIES
        invariant 0 <= tries <= 1 && effective == (if tries == 0 then localCursor else q)
        invariant tries == 1 ==> q >= base
        invariant Valid() && View() == old(View()) && r.None? && out[..] == old(out[..])
      {
        var cell := slots[SlotIndex(effective, capacity)];
        if cell.pos > effective {
          effective, tries := cell.pos, tries + 1;
          continue;
        }
        if cell.pos < effective { return; }
        cursors[idx] := effective + 1;
        if |cell.payload| > out.Length { return Some((effective + 1, None)); }
        forall k | 0 <= k < |cell.payload| {
          out[k] := cell.payload[k];
        }
        return Some((effective + 1, Some(|cell.payload|)));
      }
    }
  }

  // ── What the methods amount to ──────────────────────────────────────────────

  /** DropOldest skips exactly: a subscriber that is behind gets the one position of its slot within the last lap,
      its own position if that is not overwritten, with the payload published there. When the tail was moved
      forward first, a slot that is still unwritten gives nothing; and slot 0 gives an empty message that nobody
      published. */
  lemma {:induction false} SkipIsExact(v: Contents, c: nat)
    requires v.capacity > 0
    ensures Readable(v, c).Some? ==> c < Tail(v)
    ensures c < Tail(v) ==>
              var q := WindowPos(c, Tail(v), v.capacity);
              && Tail(v) - v.capacity <= q < Tail(v) && SlotIndex(q, v.capacity) == SlotIndex(c, v.capacity)
              && (c >= Tail(v) - v.capacity ==> q == c)
              && (q >= v.base ==> Readable(v, c) == Some((q + 1, v.log[q - v.base])))
              && (q < v.base ==> Readable(v, c) == if c == 0 then Some((1, [])) else None)
    ensures v.base == 0 ==> (Readable(v, c).Some? <==> c < Tail(v))
  {
    if c < Tail(v) { WindowPosIs(c, Tail(v), v.capacity); }
    hide WindowPos, SlotIndex;
  }

  /** The phantom message, exactly: position 0 is asked for and nothing was written to slot 0 since the tail was
      moved. */
  lemma {:induction false} PhantomIff(v: Contents)
    requires v.capacity > 0 && Tail(v) > 0
    ensures WindowPos(0, Tail(v), v.capacity) < v.base <==>
            forall p: nat :: v.base <= p < Tail(v) ==> SlotIndex(p, v.capacity) != 0
    ensures WindowPos(0, Tail(v), v.capacity) < v.base ==> Readable(v, 0) == Some((1, []))
  {
    WindowPosIs(0, Tail(v), v.capacity);
    var q := WindowPos(0, Tail(v), v.capacity);
    assert SlotIndex(0, v.capacity) == 0;
    forall p: nat | q < v.base <= p < Tail(v) ensures SlotIndex(p, v.capacity) != 0 {
      if p < Tail(v) - v.capacity { assert false; }
    }
    hide WindowPos, SlotIndex;
  }

  /** When the ring refuses: some cursor is claimed, and the smallest is a lap behind the tail or, because the
      difference wraps around, ahead of it. */
  lemma {:induction false} SaturatedIff(v: Contents)
    requires 0 < v.capacity < U32 && Tail(v) < MAX_TAIL
    requires forall i :: 0 <= i < |v.cursors| ==> v.cursors[i] == UNCLAIMED || v.cursors[i] <= MAX_TAIL
    ensures var m := MinCursor(v.cursors);
            Saturated(v) <==> m.Some? && (m.value + v.capacity <= Tail(v) || m.value > Tail(v))
  {
    MinCursorIs(v.cursors);
    var m := MinCursor(v.cursors);
    if m.Some? && m.value > Tail(v) {
      RemainderIs(Tail(v) - m.value, U64, -1, Tail(v) - m.value + U64);
    } else if m.Some? {
      RemainderIs(Tail(v) - m.value, U64, 0, Tail(v) - m.value);
    }
  }

  /** A table of subscribers that read what there can be: each entry is free or a position. */
  predicate Sane(cursors: seq<u64>) {
    forall i :: 0 <= i < |cursors| ==> cursors[i] == UNCLAIMED || cursors[i] <= MAX_TAIL
  }

  predicate Claimed(cursors: seq<u64>, i: nat) { i < |cursors| && cursors[i] != UNCLAIMED }

  /** Somebody is a lap behind the tail, or there are subscribers and all of them are past it. */
  ghost predicate Refuses(cursors: seq<u64>, tail: nat, capacity: nat) {
    || (exists i: nat :: Claimed(cursors, i) && cursors[i] + capacity <= tail)
    || ((exists i: nat :: Claimed(cursors, i)) && forall i: nat :: Claimed(cursors, i) ==> cursors[i] > tail)
  }

  lemma {:induction false} RefusesIff(v: Contents)
    requires 0 < v.capacity < U32 && Tail(v) < MAX_TAIL && Sane(v.cursors)
    ensures Saturated(v) <==> Refuses(v.cursors, Tail(v), v.capacity)
  {
    SaturatedIff(v);
    MinCursorIs(v.cursors);
    hide MinCursor, Saturated;
    var m, cs := MinCursor(v.cursors), v.cursors;
    if m.None? {
      forall i: nat ensures !Claimed(cs, i) {}
    } else {
      var i: nat :| i < |cs| && cs[i] == m.value;
      assert Claimed(cs, i);
      forall k: nat | Claimed(cs, k) ensures cs[k] >= m.value {}
    }
  }

  function PublishAll(v: Contents, ds: seq<Payload>): Contents {
    if ds == [] then v else TryPublished(PublishAll(v, ds[..|ds| - 1]), ds[|ds| - 1]).0
  }

  /** `StartPos::Explicit` is not held back to the tail: if every claimed cursor lies beyond it, no publish under
      the Error policy ever goes through, whatever is tried and however often. */
  lemma {:induction false} AheadBlocksForGood(v: Contents, ds: seq<Payload>)
    requires 0 < v.capacity < U32 && Tail(v) < MAX_TAIL
    requires forall i :: 0 <= i < |v.cursors| ==> v.cursors[i] == UNCLAIMED || Tail(v) < v.cursors[i] <= MAX_TAIL
    requires exists i :: 0 <= i < |v.cursors| && v.cursors[i] != UNCLAIMED
    ensures PublishAll(v, ds) == v
    decreases |ds|
  {
    MinCursorIs(v.cursors);
    SaturatedIff(v);
    if ds != [] { AheadBlocksForGood(v, ds[..|ds| - 1]); }
  }

  // ── A subscriber that nothing reaches ───────────────────────────────────────

  /** A publish, and the cursor table as it finds it. */
  datatype Attempt = Attempt(data: Payload, cursors: seq<u64>)

  /** Entry `idx` stays at `c`; the others do what they like. */
  predicate Waits(attempts: seq<Attempt>, idx: nat, c: nat) {
    forall k :: 0 <= k < |attempts| ==> TableOk(attempts[k].cursors, idx, c)
  }

  predicate TableOk(cursors: seq<u64>, idx: nat, c: nat) {
    && idx < |cursors| && cursors[idx] == c
    && forall i :: 0 <= i < |cursors| ==> cursors[i] == UNCLAIMED || cursors[i] <= MAX_TAIL
  }

  /** The publishes under the Error policy, one after the other. */
  function TryAll(v: Contents, attempts: seq<Attempt>): Contents {
    if attempts == [] then v
    else
      var a := attempts[|attempts| - 1];
      TryPublished(TryAll(v, attempts[..|attempts| - 1]).(cursors := a.cursors), a.data).0
  }

  /** A ring in which a subscriber at `c` fills it up at the latest a lap past `c`. */
  predicate Held(v: Contents, v': Contents, c: nat) {
    && v'.capacity == v.capacity && v'.base == v.base && c < Tail(v')
    && (Tail(v') <= c + v.capacity || Tail(v') == Tail(v))
  }

  lemma {:induction false} HeldStep(v: Contents, v': Contents, a: Attempt, idx: nat, c: nat)
    requires 0 < v.capacity < U32 && Held(v, v', c) && TableOk(a.cursors, idx, c) && c < Tail(v) && Tail(v') < MAX_TAIL
    ensures Held(v, TryPublished(v'.(cursors := a.cursors), a.data).0, c)
    ensures Tail(TryPublished(v'.(cursors := a.cursors), a.data).0) <= Tail(v') + 1
  {
    var u := v'.(cursors := a.cursors);
    SaturatedIff(u);
    MinCursorIs(u.cursors);
    hide Saturated, MinCursor;
    assert u.cursors[idx] == c;
  }

  lemma {:induction false} HeldAll(v: Contents, attempts: seq<Attempt>, idx: nat, c: nat)
    requires 0 < v.capacity < U32 && c < Tail(v) && Tail(v) + |attempts| < MAX_TAIL && Waits(attempts, idx, c)
    ensures Held(v, TryAll(v, attempts), c) && Tail(TryAll(v, attempts)) <= Tail(v) + |attempts|
    decreases |attempts|
  {
    if attempts != [] {
      var n := |attempts| - 1;
      assert Waits(attempts[..n], idx, c) && TableOk(attempts[n].cursors, idx, c);
      HeldAll(v, attempts[..n], idx, c);
      hide Waits, TableOk, TryPublished;
      HeldStep(v, TryAll(v, attempts[..n]), attempts[n], idx, c);
    }
  }

  /** Nothing is ever read at `c`, whatever is published and whatever the other subscribers do. */
  ghost predicate Starves(v: Contents, idx: nat, c: nat)
    requires 0 < v.capacity
  {
    forall attempts :: Waits(attempts, idx, c) && Tail(v) + |attempts| < MAX_TAIL ==>
      TryAll(v, attempts).capacity > 0 && Readable(TryAll(v, attempts), c) == None
  }

  /** `set_tail` before anything is written can leave subscriber and publisher waiting for each other for good: a
      subscriber whose entry is at or behind the tail never reads anything in any continuation if and only if it is
      behind the tail and its slot has not been written. And the ring is then full a lap past its cursor. */
  lemma {:induction false} StarvesIff(v: Contents, idx: nat, c: nat)
    requires 0 < v.capacity < U32 && Tail(v) + 1 < MAX_TAIL && idx < |v.cursors| && c <= Tail(v)
    ensures Starves(v, idx, c) <==> c < Tail(v) && Readable(v, c) == None
    ensures Starves(v, idx, c) ==> forall attempts :: Waits(attempts, idx, c) && Tail(v) + |attempts| < MAX_TAIL ==>
              Tail(TryAll(v, attempts)) <= c + v.capacity || TryAll(v, attempts).log == v.log
  {
    hide Readable, WindowPos, Saturated, Waits;
    if c < Tail(v) && Readable(v, c) == None {
      forall attempts | Waits(attempts, idx, c) && Tail(v) + |attempts| < MAX_TAIL
        ensures TryAll(v, attempts).capacity > 0 && Readable(TryAll(v, attempts), c) == None
      {
        HeldAll(v, attempts, idx, c);
        StaysUnread(v, TryAll(v, attempts), c);
      }
    } else {
      CanRead(v, idx, c);
    }
    forall attempts | c < Tail(v) && Waits(attempts, idx, c) && Tail(v) + |attempts| < MAX_TAIL
      ensures Tail(TryAll(v, attempts)) <= c + v.capacity || TryAll(v, attempts).log == v.log
    {
      HeldAll(v, attempts, idx, c);
      LogPrefix(v, attempts);
    }
  }

  lemma {:induction false} LogPrefix(v: Contents, attempts: seq<Attempt>)
    ensures v.log <= TryAll(v, attempts).log && TryAll(v, attempts).base == v.base
    decreases |attempts|
  {
    hide Saturated;
    if attempts != [] { LogPrefix(v, attempts[..|attempts| - 1]); }
  }

  lemma {:induction false} StaysUnread(v: Contents, v': Contents, c: nat)
    requires v.capacity > 0 && Held(v, v', c) && c < Tail(v) && Readable(v, c) == None
    ensures v'.capacity > 0 && Readable(v', c) == None
  {
    SkipIsExact(v, c);
    SkipIsExact(v', c);
    hide Readable, WindowPos;
    assert WindowPos(c, Tail(v), v.capacity) < v.base;
  }

  /** With something to read now, or standing at the tail, there is a continuation in which it reads. */
  lemma {:induction false} CanRead(v: Contents, idx: nat, c: nat)
    requires 0 < v.capacity < U32 && Tail(v) + 1 < MAX_TAIL && idx < |v.cursors| && c <= Tail(v)
    requires c == Tail(v) || Readable(v, c).Some?
    ensures !Starves(v, idx, c)
  {
    if c < Tail(v) {
      var none: seq<Attempt> := [];
      assert Waits(none, idx, c) && TryAll(v, none) == v && Tail(v) + |none| < MAX_TAIL;
      hide Readable;
    } else {
      var table: seq<u64> := seq(idx + 1, i => if i == idx then c else UNCLAIMED);
      var one := [Attempt([], table)];
      assert one[0].cursors[idx] == c;
      assert Waits(one, idx, c);
      var u := v.(cursors := table);
      SaturatedIff(u);
      MinCursorIs(table);
      assert TryAll(v, one[..0]) == v;
      hide Saturated, MinCursor, Readable;
      assert TryAll(v, one) == Published(u, []);
      SkipIsExact(Published(u, []), c);
    }
  }
}
