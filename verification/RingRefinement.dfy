/** The ring object and the ring protocol are the same ring: a call of the protocol that nobody interrupts does
    exactly what the method of module RingBuffer is proved to do. */
module RingRefinement {
  import opened Bytes
  import opened RingProtocol
  import B = RingBuffer

  /** The cursor table as words. */
  function Entries(cs: seq<Option<nat>>): (t: seq<u64>)
    requires forall i :: 0 <= i < |cs| && cs[i].Some? ==> cs[i].value < B.UNCLAIMED
    ensures |t| == |cs| && forall i :: 0 <= i < |cs| ==> t[i] == if cs[i].Some? then cs[i].value else B.UNCLAIMED
  {
    if cs == [] then []
    else
      var n := |cs| - 1;
      Entries(cs[..n]) + [if cs[n].Some? then cs[n].value else B.UNCLAIMED]
  }

  predicate Small(r: Ring) {
    forall i :: 0 <= i < |r.cursors| && r.cursors[i].Some? ==> r.cursors[i].value < B.UNCLAIMED
  }

  /** What an idle ring of the protocol means as an object; the wakeup flags are not part of the protocol. */
  function ViewOf(r: Ring): B.Contents
    requires Small(r)
  {
    B.Contents(r.capacity, r.payloadSize, 0, r.log, Entries(r.cursors), [])
  }

  /** `n` steps of the publisher and of nobody else. */
  ghost predicate PubRuns(r: Ring, n: nat, r': Ring)
    decreases n
  {
    if n == 0 then r' == r
    else Shape(r) && Enabled(r, PubStep) && PubRuns(PubNext(r), n - 1, r')
  }

  /** `n` steps of subscriber `j` and of nobody else. */
  ghost predicate SubRuns(r: Ring, j: nat, n: nat, r': Ring)
    decreases n
  {
    if n == 0 then r' == r
    else Shape(r) && Enabled(r, SubStep(j)) && SubRuns(Next(r, SubStep(j)), j, n - 1, r')
  }

  lemma {:induction false} InvSmall(r: Ring)
    requires Inv(r)
    ensures Small(r) && Shape(r) && (!r.pub.Idle? ==> Enabled(r, PubStep))
    ensures r.pub.Idle? ==> |r.log| == r.tail < MAX_TAIL
  {
    forall i | 0 <= i < |r.cursors| && r.cursors[i].Some? ensures r.cursors[i].value < B.UNCLAIMED {
      assert SubOk(r, i);
    }
  }

  // ── Publishing ──────────────────────────────────────────────────────────────

  /** The scan from entry `i` on. */
  function MinFrom(cs: seq<Option<nat>>, i: nat, min: Option<nat>): Option<nat>
    requires i <= |cs|
    decreases |cs| - i
  {
    if i == |cs| then min else MinFrom(cs, i + 1, MinOf(min, cs[i]))
  }

  lemma {:induction false} MinFromIs(cs: seq<Option<nat>>, i: nat, min: Option<nat>)
    requires i <= |cs|
    ensures var m := MinFrom(cs, i, min);
            && (m.None? <==> min.None? && forall k :: i <= k < |cs| ==> cs[k].None?)
            && (m.Some? ==> m == min || exists k :: i <= k < |cs| && cs[k] == m)
            && (m.Some? ==>
                  && (min.Some? ==> m.value <= min.value)
                  && forall k :: i <= k < |cs| && cs[k].Some? ==> m.value <= cs[k].value)
    decreases |cs| - i
  {
    if i < |cs| { MinFromIs(cs, i + 1, MinOf(min, cs[i])); }
  }

  /** The scan of the protocol and the minimum of the object agree. */
  lemma {:induction false} SameMin(cs: seq<Option<nat>>)
    requires forall i :: 0 <= i < |cs| && cs[i].Some? ==> cs[i].value < B.UNCLAIMED
    ensures MinFrom(cs, 0, None) == B.MinCursor(Entries(cs))
  {
    hide MinFrom, B.MinCursor;
    MinFromIs(cs, 0, None);
    B.MinCursorIs(Entries(cs));
    SameLeast(cs, Entries(cs), MinFrom(cs, 0, None), B.MinCursor(Entries(cs)));
  }

  lemma {:induction false} SameLeast(cs: seq<Option<nat>>, t: seq<u64>, m: Option<nat>, b: Option<nat>)
    requires |t| == |cs| && forall i :: 0 <= i < |cs| ==> t[i] == if cs[i].Some? then cs[i].value else B.UNCLAIMED
    requires forall i :: 0 <= i < |cs| && cs[i].Some? ==> cs[i].value < B.UNCLAIMED
    requires m.None? <==> forall k :: 0 <= k < |cs| ==> cs[k].None?
    requires m.Some? ==>
               && (exists k :: 0 <= k < |cs| && cs[k] == m)
               && forall k :: 0 <= k < |cs| && cs[k].Some? ==> m.value <= cs[k].value
    requires b.None? <==> forall i :: 0 <= i < |t| ==> t[i] == B.UNCLAIMED
    requires b.Some? ==>
               && b.value in t && b.value != B.UNCLAIMED
               && forall i :: 0 <= i < |t| ==> t[i] == B.UNCLAIMED || b.value <= t[i]
    ensures m == b
  {
    if m.Some? {
      var k :| 0 <= k < |cs| && cs[k] == m;
      assert t[k] == m.value;
    }
    if b.Some? {
      var k :| 0 <= k < |cs| && t[k] == b.value;
      assert cs[k] == Some(b.value);
    }
  }

  /** The publisher's private and shared progress leaves everything else alone. */
  predicate SameTables(r: Ring, r': Ring) {
    r'.cursors == r.cursors && r'.subs == r.subs && r'.capacity == r.capacity && r'.payloadSize == r.payloadSize
    && r'.policy == r.policy
  }

  lemma {:induction false} PubOne(r: Ring)
    requires Inv(r) && !r.pub.Idle?
    ensures Enabled(r, PubStep) && Shape(r) && Inv(PubNext(r)) && SameTables(r, PubNext(r))
    ensures forall n: nat, r' :: PubRuns(PubNext(r), n, r') ==> PubRuns(r, n + 1, r')
  {
    InvSmall(r);
    StepKeeps(r, PubStep);
    hide Inv;
  }

  /** The scan runs to its decision. */
  lemma {:induction false} ScanAlone(r: Ring) returns (n: nat, r': Ring)
    requires Inv(r) && r.pub.Scanning? && r.pub.i <= |r.cursors|
    ensures PubRuns(r, n, r') && Inv(r') && SameTables(r, r') && r'.log == r.log && r'.tail == r.tail
    ensures r'.pub == if Full(r.tail, MinFrom(r.cursors, r.pub.i, r.pub.min), r.capacity) then Idle
      else Marking(r.pub.data)
    decreases |r.cursors| - r.pub.i
  {
    PubOne(r);
    var r1 := PubNext(r);
    if r.pub.i == |r.cursors| {
      assert PubRuns(r1, 0, r1);
      return 1, r1;
    }
    hide Inv, Full;
    n, r' := ScanAlone(r1);
    n := n + 1;
  }

  /** Mark, every byte, commit, tail store. */
  lemma {:induction false} WriteAlone(r: Ring) returns (n: nat, r': Ring)
    requires Inv(r) && (r.pub.Marking? || r.pub.Copying?)
    ensures PubRuns(r, n, r') && Inv(r') && SameTables(r, r') && r'.pub.Idle?
    ensures r'.log == r.log + [r.pub.data] && r'.tail == r.tail + 1
    decreases r.pub.Marking?, if r.pub.Copying? then 4 + |r.pub.data| - r.pub.k else 0
  {
    PubOne(r);
    var r1 := PubNext(r);
    if r.pub.Copying? && r.pub.k >= 4 + |r.pub.data| {
      PubOne(r1);
      var r2 := PubNext(r1);
      assert PubRuns(r2, 0, r2);
      assert PubRuns(r1, 1, r2);
      return 2, r2;
    }
    hide Inv;
    n, r' := WriteAlone(r1);
    n := n + 1;
  }

  lemma {:induction false} RunsOn(r: Ring, m: nat, r1: Ring, n: nat, r2: Ring)
    requires PubRuns(r, m, r1) && PubRuns(r1, n, r2)
    ensures PubRuns(r, m + n, r2)
    decreases m
  {
    hide PubNext, Shape, Enabled;
    if m > 0 { RunsOn(PubNext(r), m - 1, r1, n, r2); }
  }

  lemma {:induction false} DecisionIs(r: Ring, d: Payload)
    requires Inv(r) && r.pub.Idle? && Small(r)
    ensures B.TryPublished(ViewOf(r), d) ==
            if Full(r.tail, MinFrom(r.cursors, 0, None), r.capacity) then (ViewOf(r), false)
            else (B.Published(ViewOf(r), d), true)
  {
    InvSmall(r);
    SameMin(r.cursors);
    hide Inv, MinFrom, B.MinCursor, Entries, Full;
  }

  lemma {:induction false} ViewOfTables(r: Ring, r': Ring, d: Payload)
    requires SameTables(r, r') && Small(r) && Small(r')
    ensures r'.log == r.log ==> ViewOf(r') == ViewOf(r)
    ensures r'.log == r.log + [d] ==> ViewOf(r') == B.Published(ViewOf(r), d)
  {
    hide Entries;
  }

  lemma {:induction false} PublishStarts(r: Ring, d: Payload)
    requires Inv(r) && r.pub.Idle? && Enabled(r, Publish(d))
    ensures Small(r) && Shape(r) && Inv(Next(r, Publish(d)))
    ensures Next(r, Publish(d)) == r.(pub := if r.policy.Error? then Scanning(d, 0, None) else Marking(d))
  {
    InvSmall(r);
    StepKeeps(r, Publish(d));
    hide Inv;
  }

  lemma {:induction false} TablesOn(r: Ring, p: Pub, r1: Ring, r2: Ring)
    ensures SameTables(r, r.(pub := p))
    ensures SameTables(r.(pub := p), r1) ==> SameTables(r, r1)
    ensures SameTables(r, r1) && SameTables(r1, r2) ==> SameTables(r, r2)
    ensures SameTables(r, r1) ==> r1.subs == r.subs
  {
  }

  /** An uninterrupted publish is the publish of the object, under either policy. */
  lemma {:induction false} PublishAlone(r: Ring, d: Payload) returns (n: nat, r': Ring)
    requires Inv(r) && r.pub.Idle? && Enabled(r, Publish(d))
    ensures Shape(r) && PubRuns(Next(r, Publish(d)), n, r') && Inv(r') && r'.pub.Idle? && r'.subs == r.subs
    ensures Small(r) && Small(r')
    ensures ViewOf(r') == if r.policy.Error? then B.TryPublished(ViewOf(r), d).0 else B.Published(ViewOf(r), d)
  {
    hide *;
    PublishStarts(r, d);
    DecisionIs(r, d);
    var r0 := Next(r, Publish(d));
    if r.policy.Error? {
      var m, r1 := ScanAlone(r0);
      if r1.pub.Idle? {
        n, r' := m, r1;
        TablesOn(r, r0.pub, r1, r1);
      } else {
        var k;
        k, r' := WriteAlone(r1);
        n := m + k;
        RunsOn(r0, m, r1, k, r');
        TablesOn(r, r0.pub, r1, r');
      }
    } else {
      n, r' := WriteAlone(r0);
      TablesOn(r, r0.pub, r', r');
    }
    InvSmall(r');
    ViewOfTables(r, r', d);
  }

  // ── Receiving ───────────────────────────────────────────────────────────────

  /** With the publisher idle the slot of an old cursor holds the one position of its slot in the last lap. */
  lemma {:induction false} SlotHoldsWindow(r: Ring, c: nat)
    requires Inv(r) && r.pub.Idle? && c < r.tail
    ensures var q := B.WindowPos(c, r.tail, r.capacity);
            && q < |r.log| && SlotIndex(q, r.capacity) == SlotIndex(c, r.capacity)
            && r.slots[SlotIndex(c, r.capacity)].word == Word(q, false)
            && Holds(r.slots[SlotIndex(c, r.capacity)], q, r.log)
  {
    var q := B.WindowPos(c, r.tail, r.capacity);
    B.WindowPosIs(c, r.tail, r.capacity);
    var s := SlotIndex(q, r.capacity);
    assert SlotOk(r, s) && NotBefore(r.slots[s].word, q);
    hide B.WindowPos, SubOk;
    SameSlot(q, r.slots[s].word.pos, r.capacity);
  }

  /** One step of subscriber `j` while nobody else moves. */
  lemma {:induction false} SubOne(r: Ring, j: nat)
    requires Inv(r) && Enabled(r, SubStep(j))
    ensures Shape(r) && Inv(Next(r, SubStep(j)))
    ensures forall n: nat, r' :: SubRuns(Next(r, SubStep(j)), j, n, r') ==> SubRuns(r, j, n + 1, r')
  {
    InvSmall(r);
    StepKeeps(r, SubStep(j));
    hide Inv, Next;
  }

  /** The copy of a slot that holds position `e` runs to the published payload. */
  lemma {:induction false} FetchAlone(r: Ring, j: nat) returns (n: nat, r': Ring)
    requires Inv(r) && r.pub.Idle? && j < |r.subs| && r.subs[j].pc.Fetching?
    requires var e := r.subs[j].pc.effective; e < |r.log| && Holds(r.slots[SlotIndex(e, r.capacity)], e, r.log)
    ensures var pc := r.subs[j].pc;
            && SubRuns(r, j, n, r') && Inv(r')
            && r' == r.(subs := r.subs[j := r.subs[j].(pc := Advancing(pc.cursor, pc.effective, r.log[pc.effective]))])
    decreases 4 + |r.log[r.subs[j].pc.effective]| - |r.subs[j].pc.buf|
  {
    var Fetching(c, e, t, buf) := r.subs[j].pc;
    assert SubOk(r, j);
    assert buf <= Image(r.log[e]) && |r.log[e]| <= r.payloadSize;
    FetchedBytes(r, SlotIndex(e, r.capacity), e, buf);
    SubOne(r, j);
    var r1 := Next(r, SubStep(j));
    if |buf| == 4 + |r.log[e]| {
      assert SubRuns(r1, j, 0, r1);
      assert r.cursors[j := r.cursors[j]] == r.cursors;
      return 1, r1;
    }
    assert r1.subs[j].pc == Fetching(c, e, t, buf + [r.slots[SlotIndex(e, r.capacity)].mem[|buf|]]);
    hide Inv, Holds, SubRuns;
    n, r' := FetchAlone(r1, j);
    n := n + 1;
  }

  lemma {:induction false} SubRunsOn(r: Ring, j: nat, m: nat, r1: Ring, n: nat, r2: Ring)
    requires SubRuns(r, j, m, r1) && SubRuns(r1, j, n, r2)
    ensures SubRuns(r, j, m + n, r2)
    decreases m
  {
    hide Next, Shape, Enabled;
    if m > 0 { SubRunsOn(Next(r, SubStep(j)), j, m - 1, r1, n, r2); }
  }

  /** A subscriber with a new place in its own code, and nothing else. */
  function WithPc(r: Ring, j: nat, pc: Pc): Ring
    requires j < |r.subs|
  {
    r.(subs := r.subs[j := r.subs[j].(pc := pc)])
  }

  /** From the retry loop with attempts to spare to the copy of the position that the slot holds. */
  lemma {:induction false} ProbeAlone(r: Ring, j: nat) returns (n: nat, r': Ring)
    requires Inv(r) && r.pub.Idle? && j < |r.subs| && r.subs[j].pc.Probing?
    requires var pc := r.subs[j].pc;
             && pc.cursor < r.tail
             && (pc.effective == pc.cursor || pc.effective == B.WindowPos(pc.cursor, r.tail, r.capacity))
             && pc.tries >= (if pc.effective == pc.cursor then 3 else 2)
    ensures var c, q := r.subs[j].pc.cursor, B.WindowPos(r.subs[j].pc.cursor, r.tail, r.capacity);
            && SubRuns(r, j, n, r') && Inv(r')
            && exists t :: r' == WithPc(r, j, Fetching(c, q, t, []))
    decreases r.subs[j].pc.tries
  {
    var Probing(c, e, t) := r.subs[j].pc;
    SlotHoldsWindow(r, c);
    SubOne(r, j);
    var q := B.WindowPos(c, r.tail, r.capacity);
    var r1 := Next(r, SubStep(j));
    assert r.cursors[j := r.cursors[j]] == r.cursors;
    if e == q {
      assert r1 == WithPc(r, j, Fetching(c, q, t, []));
      assert SubRuns(r1, j, 0, r1);
      return 1, r1;
    }
    assert r1 == WithPc(r, j, Probing(c, q, t - 1));
    hide Inv, Holds, SubRuns, B.WindowPos, SlotIndex;
    n, r' := ProbeAlone(r1, j);
    n := n + 1;
    var t' :| r' == WithPc(r1, j, Fetching(c, q, t', []));
    assert r' == WithPc(r, j, Fetching(c, q, t', []));
  }

  /** The read, step after step: look, copy, advance. */
  lemma {:induction false} ReadAlone(r: Ring, j: nat) returns (n: nat, r': Ring)
    requires Inv(r) && r.pub.Idle? && j < |r.subs| == |r.cursors| && r.subs[j].pc.Probing? &&
      r.subs[j].pc.cursor < r.tail
    requires r.subs[j].pc.effective == r.subs[j].pc.cursor && r.subs[j].pc.tries == MAX_RETRIES
    ensures var q := B.WindowPos(r.subs[j].pc.cursor, r.tail, r.capacity);
            && SubRuns(r, j, n, r') && Inv(r') && q < |r.log|
            && r' == r.(subs := r.subs[j := r.subs[j].(pc := Ready(q + 1),
                 got := r.subs[j].got + [Message(q, r.log[q])])],
                        cursors := r.cursors[j := Some(q + 1)])
  {
    var c := r.subs[j].pc.cursor;
    SlotHoldsWindow(r, c);
    var q := B.WindowPos(c, r.tail, r.capacity);
    hide Inv, Holds, SubRuns, B.WindowPos, SlotIndex;
    var n1, r2 := ProbeAlone(r, j);
    var n2, r3 := FetchAlone(r2, j);
    assert r3 == WithPc(r, j, Advancing(c, q, r.log[q]));
    SubOne(r3, j);
    r' := Next(r3, SubStep(j));
    AdvanceRun(r3, j);
    SubRunsOn(r2, j, n2, r3, 1, r');
    SubRunsOn(r, j, n1, r2, n2 + 1, r');
    n := n1 + (n2 + 1);
  }

  lemma {:induction false} PollIs(r: Ring, j: nat)
    requires Inv(r) && r.pub.Idle? && Enabled(r, Poll(j))
    ensures j < |r.subs| == |r.cursors| && r.subs[j].pc.Ready? && Inv(Next(r, Poll(j)))
    ensures Next(r, Poll(j)) ==
            if r.subs[j].pc.cursor < r.tail then
              WithPc(r, j, Probing(r.subs[j].pc.cursor, r.subs[j].pc.cursor, MAX_RETRIES))
            else r
  {
    StepKeeps(r, Poll(j));
    hide SlotsOk, SubOk, LogOk;
    assert r.cursors[j := r.cursors[j]] == r.cursors;
  }

  /** What the object would hand out. */
  lemma {:induction false} ReadableIs(r: Ring, c: nat)
    requires Inv(r) && r.pub.Idle? && Small(r)
    ensures c >= r.tail ==> B.Readable(ViewOf(r), c) == None
    ensures c < r.tail ==>
              var q := B.WindowPos(c, r.tail, r.capacity);
              q < |r.log| && B.Readable(ViewOf(r), c) == Some((q + 1, r.log[q]))
  {
    InvSmall(r);
    B.SkipIsExact(ViewOf(r), c);
    hide Inv, B.Readable, B.WindowPos, Entries;
  }

  /** An uninterrupted read is the read of the object: it hands out what `Readable` says and moves the entry in the
      ring past it, or finds nothing and changes nothing. */
  lemma {:induction false} ReceiveAlone(r: Ring, j: nat) returns (n: nat, r': Ring)
    requires Inv(r) && r.pub.Idle? && Enabled(r, Poll(j)) && j < |r.subs| == |r.cursors|
    ensures SubRuns(Next(r, Poll(j)), j, n, r') && Inv(r') && Small(r) && r.subs[j].pc.Ready?
    ensures var sub, got := r.subs[j], B.Readable(ViewOf(r), r.subs[j].pc.cursor);
            if got.None? then r' == r
            else
              && got.value.0 > 0
              && r' == r.(subs := r.subs[j := sub.(pc := Ready(got.value.0),
                   got := sub.got + [Message(got.value.0 - 1, got.value.1)])],
                          cursors := r.cursors[j := Some(got.value.0)])
  {
    InvSmall(r);
    PollIs(r, j);
    ReadableIs(r, r.subs[j].pc.cursor);
    var r1 := Next(r, Poll(j));
    if r.subs[j].pc.cursor >= r.tail {
      assert SubRuns(r1, j, 0, r1);
      return 0, r;
    }
    hide Inv, Small, Enabled, Next, SubRuns, B.WindowPos, B.Readable, ViewOf;
    n, r' := ReadAlone(r1, j);
  }

  lemma {:induction false} AdvanceRun(r: Ring, j: nat)
    requires Shape(r) && Enabled(r, SubStep(j))
    ensures SubRuns(r, j, 1, Next(r, SubStep(j)))
  {
    assert SubRuns(Next(r, SubStep(j)), j, 0, Next(r, SubStep(j)));
  }
}
