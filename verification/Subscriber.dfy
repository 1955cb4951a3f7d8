/** A subscriber as an object: where it starts, its replay and its reads; crates/mmbus/src/subscriber.rs.

    The transport handshake and sleeping are left to the environment: modules Wakeup and Handoff treat the
    interleavings, here each call runs alone. */
module Subscriber {
  import opened Bytes
  import opened WalRecord
  import opened SegmentLog
  import opened RingBuffer
  import opened WalReplay
  import RingProtocol

  type Payload = RingProtocol.Payload

  datatype StartPos = Now | HistoryBack(n: nat) | Explicit(c: nat)

  /** Where a subscriber is placed: its own cursor, its entry in the ring's table, and the index of the segment its
      replay starts at, if it has one. */
  datatype Placement =
    | Placed(cursor: nat, entry: nat, replayFrom: Option<nat>)
    | Refused(requested: nat, oldest: nat)

  function Named(names: seq<nat>): (ss: seq<Segment>)
    ensures |ss| == |names| && forall i :: 0 <= i < |names| ==> ss[i] == Segment(names[i], [])
  {
    if names == [] then [] else Named(names[..|names| - 1]) + [Segment(names[|names| - 1], [])]
  }

  /** The start position against the tail, and for one behind the ring against the segment files. */
  function Place(start: StartPos, tail: nat, capacity: nat, names: seq<nat>): Placement {
    match start
    case Now => Placed(tail, tail, None)
    case HistoryBack(n) => Placed(SubSat(tail, n), SubSat(tail, n), None)
    case Explicit(c) =>
      var ringOldest := SubSat(tail, capacity);
      if c >= ringOldest then Placed(c, c, None)
      else if names == [] then Refused(c, ringOldest)
      else if c < names[0] then Refused(c, names[0])
      else Placed(c, tail, Some(Containing(Named(names), c)))
  }

  /** Only an explicit cursor past the tail puts the entry past the tail; an entry a lap behind comes only from
      asking for that much history; and a replay parks it at the tail. */
  lemma {:induction false} PlacedEntry(start: StartPos, tail: nat, capacity: nat, names: seq<nat>)
    requires Place(start, tail, capacity, names).Placed?
    ensures var p := Place(start, tail, capacity, names);
            && (p.entry > tail <==> start.Explicit? && start.c > tail)
            && (p.entry + capacity < tail <==> start.HistoryBack? && start.n > capacity && tail > capacity)
            && (p.replayFrom.Some? <==> start.Explicit? && start.c + capacity < tail)
            && (p.replayFrom.Some? ==> p.entry == tail && p.replayFrom.value < |names|)
            && (p.replayFrom.None? ==> p.entry == p.cursor)
  {
  }

  /** The placement, start by start. `Now` starts at the tail, a history that many messages before it or at the very
      first, and a cursor at itself. Only a cursor that the ring no longer reaches is replayed, from the last segment
      named at or below it, with the entry parked at the tail; and only such a cursor is refused, exactly if no segment
      is old enough. Every other entry is the cursor. */
  lemma {:induction false} PlacedExactly(start: StartPos, tail: nat, capacity: nat, names: seq<nat>)
    requires forall i, k :: 0 <= i < k < |names| ==> names[i] < names[k]
    ensures var p, gone := Place(start, tail, capacity, names), start.Explicit? && start.c + capacity < tail;
            && (p.Refused? <==> gone && forall i :: 0 <= i < |names| ==> start.c < names[i])
            && (p.Refused? ==> p.requested == start.c
                               && p.oldest == if names == [] then tail - capacity else names[0])
            && (p.Placed? && start.Now? ==> p.cursor == tail)
            && (p.Placed? && start.HistoryBack? ==> p.cursor == if start.n <= tail then tail - start.n else 0)
            && (p.Placed? && start.Explicit? ==> p.cursor == start.c)
            && (p.Placed? ==> p.entry == if gone then tail else p.cursor)
            && (p.Placed? ==> (p.replayFrom.Some? <==> gone))
            && (p.Placed? && gone ==>
                  var k := p.replayFrom.value;
                  && k < |names| && names[k] <= start.c
                  && forall i :: k < i < |names| ==> start.c < names[i])
  {
    if start.Explicit? && start.c + capacity < tail && names != [] && names[0] <= start.c {
      ContainingIsLast(Named(names), start.c);
    }
  }

  lemma {:induction false} ContainingIsLast(ss: seq<Segment>, c: nat)
    requires ss != [] && ss[0].first <= c && forall i, k :: 0 <= i < k < |ss| ==> ss[i].first < ss[k].first
    ensures var k := Containing(ss, c);
            k < |ss| && ss[k].first <= c && forall i :: k < i < |ss| ==> c < ss[i].first
  {
    if |ss| > 1 && ss[1].first <= c { ContainingIsLast(ss[1..], c); }
  }

  /** Everything that reading from `c` hands out while nothing is published. */
  function Drain(v: Contents, c: nat): seq<Payload>
    requires v.capacity > 0
    decreases if c <= Tail(v) then Tail(v) - c else 0
  {
    SkipIsExact(v, c);
    var r := Readable(v, c);
    if r.None? then [] else [r.value.1] + Drain(v, r.value.0)
  }

  /** From a position that the ring still has, draining gives everything published from there on. */
  lemma {:induction false} DrainIsRest(v: Contents, c: nat)
    requires v.capacity > 0 && v.base <= c <= Tail(v) && Tail(v) <= c + v.capacity
    ensures Drain(v, c) == v.log[c - v.base..]
    decreases Tail(v) - c
  {
    SkipIsExact(v, c);
    hide Readable, WindowPos;
    if c < Tail(v) { DrainIsRest(v, c + 1); }
  }

  /** What a subscriber asks for is what it gets: with the publisher idle, a tail that was never set, and no more than
      a lap asked for, a history of `n` drains to the last `n` messages, or to all of them if there are fewer. */
  lemma {:induction false} HistoryDrains(v: Contents, n: nat, names: seq<nat>)
    requires v.capacity > 0 && v.base == 0 && n <= v.capacity
    ensures var p := Place(HistoryBack(n), Tail(v), v.capacity, names);
            p.Placed? && Drain(v, p.cursor) == if n <= |v.log| then v.log[|v.log| - n..] else v.log
  {
    DrainIsRest(v, if n <= |v.log| then |v.log| - n else 0);
    hide Drain;
    assert v.log[0..] == v.log;
  }

  /** And so does an explicit cursor that the ring still reaches, a tail that was set included: to everything from there
      on. One at the tail or past it, as `Now` is, drains to nothing. */
  lemma {:induction false} ExplicitDrains(v: Contents, c: nat, names: seq<nat>)
    requires v.capacity > 0 && v.base <= c && Tail(v) <= c + v.capacity
    ensures var p := Place(Explicit(c), Tail(v), v.capacity, names);
            p.Placed? && Drain(v, p.cursor) == if c <= Tail(v) then v.log[c - v.base..] else []
    ensures var p := Place(Now, Tail(v), v.capacity, names); p.Placed? && Drain(v, p.cursor) == []
  {
    if c <= Tail(v) { DrainIsRest(v, c); }
  }

  /** What the placement does to a publisher under the Error policy that has no other subscriber: it is turned away
      at once exactly by a start past the tail or one a full lap back. */
  lemma {:induction false} PlacedBlocksIff(v: Contents, idx: nat, start: StartPos, names: seq<nat>)
    requires 0 < v.capacity < U32 && Tail(v) < RingProtocol.MAX_TAIL && idx < |v.cursors|
    requires forall i :: 0 <= i < |v.cursors| && i != idx ==> v.cursors[i] == UNCLAIMED
    requires Place(start, Tail(v), v.capacity, names).Placed?
    requires Place(start, Tail(v), v.capacity, names).entry <= RingProtocol.MAX_TAIL
    ensures var e := Place(start, Tail(v), v.capacity, names).entry;
            Saturated(Advanced(v, idx, e)) <==> e > Tail(v) || e + v.capacity <= Tail(v)
    ensures start.Now? ==> !Saturated(Advanced(v, idx, Place(start, Tail(v), v.capacity, names).entry))
  {
    var e := Place(start, Tail(v), v.capacity, names).entry;
    var v' := Advanced(v, idx, e);
    assert v'.cursors[idx] == e;
    MinCursorIs(v'.cursors);
    SaturatedIff(v');
    hide Saturated, MinCursor;
  }

  /** A publisher restarted over a log moves the tail of its empty ring to the end of that log. A subscriber that is
      then placed in the ring at or behind the tail starves exactly if it is behind it and not at position 0, although
      the log may have all it asks for. */
  lemma {:induction false} RestartStarvesIff(v: Contents, idx: nat, start: StartPos, names: seq<nat>)
    requires 0 < v.capacity < U32 && v.log == [] && Tail(v) + 1 < RingProtocol.MAX_TAIL && idx < |v.cursors|
    requires var p := Place(start, Tail(v), v.capacity, names); p.Placed? && p.replayFrom.None? && p.entry <= Tail(v)
    ensures var e := Place(start, Tail(v), v.capacity, names).entry;
            Starves(v, idx, e) <==> 0 < e < Tail(v)
  {
    var e := Place(start, Tail(v), v.capacity, names).entry;
    StarvesIff(v, idx, e);
    SkipIsExact(v, e);
    hide Readable, WindowPos, Starves;
  }

  /** What one look at the replay gives. */
  datatype Step = Nothing | Got(payload: Payload) | Failed(error: Failure)

  /** Cursors stay below 2^63. */
  predicate Tame(items: seq<Item>) {
    forall i :: 0 <= i < |items| && items[i].Rec? ==> items[i].record.cursor < RingProtocol.MAX_TAIL
  }

  lemma {:induction false} SameReads(v: Contents, v': Contents, c: nat)
    requires v.capacity > 0 && v' == v.(cursors := v'.cursors)
    ensures Readable(v', c) == Readable(v, c)
  {
    hide WindowPos;
  }

  /** A subscriber connected to a ring. */
  class Subscriber {
    const ring: RingBuffer
    const idx: nat
    var cursor: nat
    var replay: Replayer?

    ghost predicate Valid()
      reads this, ring, ring.slots, ring.cursors, ring.flags, replay, if replay != null then {replay.current} else {}
    {
      ring.Valid() && idx < ring.cursors.Length && cursor <= RingProtocol.MAX_TAIL &&
        (replay != null ==> replay.Valid())
    }

    /** What the replay still has to give. */
    ghost function Replayed(crc: Checksum): seq<Item>
      requires replay != null ==> replay.Valid()
      reads this, replay, if replay != null then {replay.current} else {}
    {
      if replay == null then [] else replay.Remaining(crc)
    }

    constructor (ring: RingBuffer, idx: nat, cursor: nat, replay: Replayer?)
      requires ring.Valid() && idx < ring.cursors.Length && cursor <= RingProtocol.MAX_TAIL
      requires replay != null ==> replay.Valid()
      ensures Valid() && this.ring == ring && this.idx == idx && this.cursor == cursor && this.replay == replay
    {
      this.ring, this.idx, this.cursor, this.replay := ring, idx, cursor, replay;
    }

    /** `next_wal_record`: a record moves the cursor past it, an error ends the replay where it is, and the end of
        the replay brings the entry in the ring up to the cursor. */
    method NextWalRecord(crc: Checksum) returns (r: Step)
      requires Valid() && Tame(Replayed(crc))
      modifies this`cursor, this`replay, ring.cursors, replay, if replay != null then {replay.current} else {}
      ensures Valid()
      ensures var todo, v := old(Replayed(crc)), old(ring.View());
              if old(replay) == null then r == Nothing && replay == null && cursor == old(cursor) && ring.View() == v
              else if todo == [] then
                r == Nothing && replay == null && cursor == old(cursor) && ring.View() == Advanced(v, idx, cursor)
              else if todo[0].Fail? then
                r == Failed(todo[0].error) && replay == null && cursor == old(cursor) && ring.View() == v
              else
                && r == Got(todo[0].record.payload) && replay == old(replay) && cursor == todo[0].record.cursor + 1
                && ring.View() == v && Replayed(crc) == todo[1..]
    {
      hide RingBuffer.Valid, WalReplay.Above, WalReplay.FilesItems, WalReplay.RestItems, RingProtocol.SlotIndex;
      if replay == null { return Nothing; }
      ghost var todo := Replayed(crc);
      var one := replay.Next(crc);
      assert ring.View() == old(ring.View());
      if one.None? {
        replay := null;
        ring.SetCursor(idx, cursor);
        return Nothing;
      }
      assert todo[0] == one.value && todo[1..] == replay.Remaining(crc);
      match one.value {
        case Rec(record) =>
          cursor := record.cursor + 1;
          r := Got(record.payload);
        case Fail(error) =>
          replay := null;
          r := Failed(error);
      }
    }

    /** `try_receive_into`: the replay first, then the ring. A replay error is swallowed, and the read goes on in the
        ring from wherever the cursor is. */
    method TryReceiveInto(crc: Checksum) returns (out: Option<Payload>)
      requires Valid() && Tame(Replayed(crc))
      modifies this`cursor, this`replay, ring.cursors, replay, if replay != null then {replay.current} else {}
      ensures Valid()
      ensures var todo, v, c := old(Replayed(crc)), old(ring.View()), old(cursor);
              if old(replay) != null && todo != [] && todo[0].Rec? then
                out == Some(todo[0].record.payload) && cursor == todo[0].record.cursor + 1 && ring.View() == v
                && replay == old(replay) && Replayed(crc) == todo[1..]
              else
                && replay == null
                && match Readable(v, c)
                   case None =>
                     out == None && cursor == c
                     && ring.View() == (if old(replay) != null && todo == [] then Advanced(v, idx, c) else v)
                   case Some((next, payload)) =>
                     out == Some(payload) && cursor == next && ring.View() == Advanced(v, idx, next)
    {
      assert ring.capacity > 0;
      hide RingBuffer.Valid, WalReplay.Above, WalReplay.FilesItems, WalReplay.RestItems, WalReplay.FileItems, Tame;
      hide Readable, WindowPos, Tail, WalReplay.Replayer.Pending, RingProtocol.SlotIndex;
      var step := NextWalRecord(crc);
      if step.Got? { return Some(step.payload); }
      SameReads(old(ring.View()), ring.View(), cursor);
      var r := ring.TryReceive(idx, cursor);
      if r.None? { return None; }
      cursor := r.value.0;
      out := Some(r.value.1);
    }

    /** `arm_wakeup`, and the part of `wait_readable` before it sleeps: the flag stays set exactly if there is nothing
        to read. */
    method ArmWakeup() returns (ready: bool)
      requires Valid()
      modifies ring.flags
      ensures Valid() && (ready <==> cursor < ring.tail)
      ensures ring.View() == old(ring.View()).(flags := old(ring.flags[..])[idx := !ready])
    {
      ring.SetWakeflag(idx);
      ready := cursor < ring.tail;
      if ready { ring.ClearWakeflag(idx); }
    }
  }
}
