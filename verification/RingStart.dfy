/** Starting behind the tail: when `StartPos::HistoryBack` or an explicit cursor inside the ring loses messages under
    the Error policy, and when a report of an oversize message is wrong. */
module RingStart {
  import opened Bytes
  import opened RingProtocol
  import opened RingRefinement
  import B = RingBuffer

  /** A run in which subscriber `j` does not leave. */
  ghost predicate Continues(r: Ring, j: nat, actions: seq<Action>, r': Ring)
    decreases |actions|
  {
    if actions == [] then r' == r
    else
      && Shape(r) && Enabled(r, actions[0]) && actions[0] != Release(j)
      && Continues(Next(r, actions[0]), j, actions[1..], r')
  }

  ghost predicate CanGo(r: Ring, j: nat, r': Ring) { exists actions :: Continues(r, j, actions, r') }

  lemma {:induction false} Stay(r: Ring, j: nat)
    ensures CanGo(r, j, r)
  {
    assert Continues(r, j, [], r);
  }

  lemma {:induction false} Extend(r: Ring, j: nat, actions: seq<Action>, r': Ring, a: Action)
    requires Continues(r, j, actions, r') && Shape(r') && Enabled(r', a) && a != Release(j)
    ensures Continues(r, j, actions + [a], Next(r', a))
    decreases |actions|
  {
    hide Next, Enabled, Shape;
    if actions == [] {
      assert [] + [a] == [a] && [a][1..] == [];
      assert Continues(Next(r', a), j, [a][1..], Next(r', a));
    } else {
      Extend(Next(r, actions[0]), j, actions[1..], r', a);
      assert (actions + [a])[1..] == actions[1..] + [a];
    }
  }

  lemma {:induction false} Go(from: Ring, j: nat, r: Ring, a: Action)
    requires CanGo(from, j, r) && Inv(r) && Enabled(r, a) && a != Release(j)
    ensures Shape(r) && CanGo(from, j, Next(r, a)) && Inv(Next(r, a))
  {
    InvSmall(r);
    StepKeeps(r, a);
    hide Inv, Next, Enabled;
    var actions :| Continues(from, j, actions, r);
    Extend(from, j, actions, r, a);
  }

  lemma {:induction false} GoPub(from: Ring, j: nat, r: Ring, n: nat, r': Ring)
    requires CanGo(from, j, r) && Inv(r) && PubRuns(r, n, r')
    ensures CanGo(from, j, r') && Inv(r')
    decreases n
  {
    hide Inv, PubNext, Enabled;
    if n > 0 {
      Go(from, j, r, PubStep);
      PubStepIs(r);
      GoPub(from, j, PubNext(r), n - 1, r');
    }
  }

  lemma {:induction false} PubStepIs(r: Ring)
    requires Shape(r) && Enabled(r, PubStep)
    ensures Next(r, PubStep) == PubNext(r)
  {
  }

  lemma {:induction false} GoSub(from: Ring, j: nat, r: Ring, n: nat, r': Ring)
    requires CanGo(from, j, r) && Inv(r) && SubRuns(r, j, n, r')
    ensures CanGo(from, j, r') && Inv(r')
    decreases n
  {
    hide Inv, Next, Enabled;
    if n > 0 {
      Go(from, j, r, SubStep(j));
      GoSub(from, j, Next(r, SubStep(j)), n - 1, r');
    }
  }

  /** Rings that differ only in tenant `k` and its entry. */
  predicate OnlyTenant(r: Ring, k: nat, r': Ring) {
    && r' == r.(cursors := r'.cursors, subs := r'.subs)
    && |r'.cursors| == |r.cursors| && |r'.subs| == |r.subs|
    && (forall m :: 0 <= m < |r.cursors| && m != k ==> r'.cursors[m] == r.cursors[m])
    && (forall m :: 0 <= m < |r.subs| && m != k ==> r'.subs[m] == r.subs[m])
  }

  lemma {:induction false} TenantStep(r: Ring, k: nat, a: Action)
    requires Inv(r) && Enabled(r, a) && ((a.SubStep? && a.j == k) || (a.Release? && a.j == k))
    ensures OnlyTenant(r, k, Next(r, a))
    ensures a.Release? ==> Next(r, a).cursors[k].None?
    ensures a.SubStep? && r.subs[k].pc.Advancing? ==> Next(r, a).subs[k].pc.Ready?
    ensures a.SubStep? && !r.subs[k].pc.Advancing? ==> Next(r, a).subs[k].pc == ReaderPc(r, r.subs[k].pc)
  {
    hide SlotsOk, SubOk, LogOk, ReaderPc;
  }

  function TriesLeft(pc: Pc): nat { if pc.Probing? || pc.Fetching? then pc.tries else 0 }

  function BytesLeft(r: Ring, pc: Pc): int { if pc.Fetching? then 4 + r.payloadSize - |pc.buf| else 0 }

  lemma {:induction false} ReaderProgress(r: Ring, pc: Pc)
    requires Shape(r) && (pc.Probing? || pc.Fetching?)
    requires pc.Fetching? && |pc.buf| >= 4 ==> |pc.buf| <= 4 + FromLE(pc.buf[..4])
    ensures var pc' := ReaderPc(r, pc);
            || pc'.Ready? || pc'.Advancing?
            || ((pc'.Probing? || pc'.Fetching?) && TriesLeft(pc') < TriesLeft(pc))
            || (pc.Probing? && pc'.Fetching? && TriesLeft(pc') == TriesLeft(pc))
            || (pc.Fetching? && pc'.Fetching? && TriesLeft(pc') == TriesLeft(pc)
                && BytesLeft(r, pc') < BytesLeft(r, pc) && BytesLeft(r, pc) >= 0)
  {
    hide SlotIndex;
  }

  /** Any other subscriber can leave, whatever it is doing, while everybody else stands still. */
  lemma {:induction false} GetsOut(from: Ring, j: nat, r: Ring, k: nat) returns (r': Ring)
    requires CanGo(from, j, r) && Inv(r) && k != j && k < |r.subs| == |r.cursors|
    ensures CanGo(from, j, r') && Inv(r') && OnlyTenant(r, k, r') && r'.cursors[k].None?
    decreases TriesLeft(r.subs[k].pc), r.subs[k].pc.Probing?, BytesLeft(r, r.subs[k].pc), r.subs[k].pc.Advancing?
  {
    TenantFacts(r, k);
    var pc := r.subs[k].pc;
    if pc.Free? { return r; }
    if pc.Probing? || pc.Fetching? || pc.Advancing? {
      Go(from, j, r, SubStep(k));
      TenantStep(r, k, SubStep(k));
      if !pc.Advancing? { ReaderProgress(r, pc); }
      var r1 := Next(r, SubStep(k));
      hide Inv, CanGo, ReaderPc, Next, Enabled;
      if r1.subs[k].pc.Ready? || r1.subs[k].pc.Advancing? {
        r' := Leaves(from, j, r1, k);
      } else {
        r' := GetsOut(from, j, r1, k);
      }
    } else {
      r' := Leaves(from, j, r, k);
    }
  }

  lemma {:induction false} TenantFacts(r: Ring, k: nat)
    requires Inv(r) && k < |r.subs| == |r.cursors|
    ensures Shape(r) && (r.subs[k].pc.Free? <==> r.cursors[k].None?)
    ensures var pc := r.subs[k].pc;
            && (pc.Probing? || pc.Fetching? || pc.Advancing? ==> Enabled(r, SubStep(k)))
            && (pc.Claimed? || pc.Synced? || pc.Parked? || pc.Ready? ==> Enabled(r, Release(k)))
    ensures r.subs[k].pc.Fetching? && |r.subs[k].pc.buf| >= 4 ==>
              |r.subs[k].pc.buf| <= 4 + FromLE(r.subs[k].pc.buf[..4])
  {
    assert SubOk(r, k);
  }

  /** From a place outside the read loop, or one access before it. */
  lemma {:induction false} Leaves(from: Ring, j: nat, r: Ring, k: nat) returns (r': Ring)
    requires CanGo(from, j, r) && Inv(r) && k != j && k < |r.subs| == |r.cursors|
    requires !r.subs[k].pc.Free? && !r.subs[k].pc.Probing? && !r.subs[k].pc.Fetching?
    ensures CanGo(from, j, r') && Inv(r') && OnlyTenant(r, k, r') && r'.cursors[k].None?
  {
    TenantFacts(r, k);
    var r1 := r;
    if r.subs[k].pc.Advancing? {
      Go(from, j, r, SubStep(k));
      TenantStep(r, k, SubStep(k));
      r1 := Next(r, SubStep(k));
    }
    hide Inv, CanGo, Next;
    TenantFacts(r1, k);
    Go(from, j, r1, Release(k));
    TenantStep(r1, k, Release(k));
    r' := Next(r1, Release(k));
  }

  /** Rings that differ only in the entries from `i` on and their tenants, which are gone. */
  predicate Cleared(r: Ring, j: nat, i: nat, r': Ring) {
    && r' == r.(cursors := r'.cursors, subs := r'.subs)
    && |r'.cursors| == |r.cursors| && |r'.subs| == |r.subs|
    && (forall k :: 0 <= k < |r.cursors| && (k < i || k == j) ==> r'.cursors[k] == r.cursors[k])
    && (forall k :: i <= k < |r.cursors| && k != j ==> r'.cursors[k].None?)
    && (j < |r.subs| ==> r'.subs[j] == r.subs[j])
  }

  lemma {:induction false} ClearFrom(from: Ring, j: nat, r: Ring, i: nat) returns (r': Ring)
    requires CanGo(from, j, r) && Inv(r) && j < i <= |r.cursors| == |r.subs|
    ensures CanGo(from, j, r') && Inv(r') && Cleared(r, j, i, r')
    decreases |r.cursors| - i
  {
    hide Inv, CanGo;
    if i == |r.cursors| { return r; }
    var r1 := GetsOut(from, j, r, i);
    r' := ClearFrom(from, j, r1, i + 1);
  }

  /** With every entry still to come gone the scan ends with the minimum it has. */
  lemma {:induction false} MinOfCleared(cs: seq<Option<nat>>, i: nat, min: Option<nat>)
    requires i <= |cs| && forall k :: i <= k < |cs| ==> cs[k].None?
    ensures MinFrom(cs, i, min) == min
    decreases |cs| - i
  {
    if i < |cs| { MinOfCleared(cs, i + 1, min); }
  }

  /** The publisher alone ends its publish; a write that is decided goes through. */
  lemma {:induction false} PubFinishes(from: Ring, j: nat, r: Ring) returns (r': Ring)
    requires CanGo(from, j, r) && Inv(r) && (r.pub.Scanning? ==> r.pub.i <= |r.cursors|)
    ensures CanGo(from, j, r') && Inv(r') && SameTables(r, r') && r'.pub.Idle?
    ensures r'.tail ==
            if r.pub.Idle? || (r.pub.Scanning? && Full(r.tail, MinFrom(r.cursors, r.pub.i, r.pub.min), r.capacity))
            then r.tail else r.tail + 1
  {
    hide Inv, CanGo, PubRuns, Full, MinFrom;
    if r.pub.Idle? {
      r' := r;
    } else if r.pub.Scanning? {
      var n, r1 := ScanAlone(r);
      GoPub(from, j, r, n, r1);
      if r1.pub.Idle? { return r1; }
      var m;
      m, r' := WriteAlone(r1);
      GoPub(from, j, r1, m, r');
    } else if r.pub.Storing? {
      StoringOne(r);
      Go(from, j, r, PubStep);
      PubStepIs(r);
      r' := PubNext(r);
    } else {
      var n;
      n, r' := WriteAlone(r);
      GoPub(from, j, r, n, r');
    }
  }

  lemma {:induction false} StoringOne(r: Ring)
    requires Inv(r) && r.pub.Storing?
    ensures Shape(r) && Enabled(r, PubStep) && PubNext(r) == r.(tail := r.tail + 1, pub := Idle)
  {
    InvSmall(r);
  }

  // ── Starting in time ────────────────────────────────────────────────────────

  /** The scan counts from 0 to the number of entries. */
  lemma {:induction false} ScanInRange(r: Ring, actions: seq<Action>, r': Ring)
    requires Inv(r) && Reaches(r, actions, r') && (r.pub.Scanning? ==> r.pub.i <= |r.cursors|)
    ensures r'.pub.Scanning? ==> r'.pub.i <= |r'.cursors|
    decreases |actions|
  {
    if actions != [] {
      StepKeeps(r, actions[0]);
      ScanStep(r, actions[0]);
      hide Inv, Next, Enabled, Shape;
      ScanInRange(Next(r, actions[0]), actions[1..], r');
    }
  }

  lemma {:induction false} ScanStep(r: Ring, a: Action)
    requires Shape(r) && Enabled(r, a) && (r.pub.Scanning? ==> r.pub.i <= |r.cursors|)
    ensures Next(r, a).pub.Scanning? ==> Next(r, a).pub.i <= |Next(r, a).cursors|
  {
    hide ReaderPc, InTime;
  }

  lemma {:induction false} StartIs(r: Ring, j: nat, at: nat)
    requires Inv(r) && Enabled(r, Start(j, at))
    ensures Shape(r) && j < |r.subs| == |r.cursors|
    ensures var r1 := Next(r, Start(j, at));
            && Inv(r1)
            && r1 == r.(cursors := r.cursors[j := Some(at)],
                 subs := r.subs[j := Sub(Ready(at), at, InTime(r, j, at), [])])
  {
    StepKeeps(r, Start(j, at));
    hide Inv, InTime;
  }

  /** Entries of claimed cursors are not past the tail while a publish is still scanning. */
  lemma {:induction false} ScanMinInLog(r: Ring)
    requires Inv(r) && r.pub.Scanning?
    ensures r.pub.min.Some? ==> r.pub.min.value <= r.tail
    ensures r.tail < MAX_TAIL && 0 < r.capacity < U32
  {
  }

  /** A start that is not in time: the others leave, the publish goes through, and the slot is gone. */
  lemma {:induction false} Overtakes(from: Ring, j: nat, r: Ring, at: nat) returns (r': Ring)
    requires CanGo(from, j, r) && Inv(r) && j < |r.subs| == |r.cursors|
    requires (r.pub.Scanning? ==> r.pub.i <= |r.cursors|) && !InTime(r, j, at)
    ensures CanGo(from, j, r') && Inv(r') && r'.pub.Idle? && r'.tail - at > r'.capacity
    ensures j < |r'.subs| == |r'.cursors| && r'.subs[j] == r.subs[j] && r'.cursors[j] == r.cursors[j]
  {
    var r1 := r;
    if r.pub.Scanning? && r.tail - at <= r.capacity {
      r1 := ClearFrom(from, j, r, r.pub.i);
      MinOfCleared(r1.cursors, r.pub.i, r.pub.min);
      ScanMinInLog(r);
      NotFull(r.tail, r.pub.min, r.capacity, at);
    }
    hide Inv, CanGo, Full, MinFrom, Reaches;
    r' := PubFinishes(from, j, r1);
  }

  lemma {:induction false} NotFull(tail: nat, min: Option<nat>, capacity: nat, at: nat)
    requires tail < MAX_TAIL && 0 < capacity < U32 && (min.Some? ==> at < min.value <= tail) && tail - at == capacity
    ensures !Full(tail, min, capacity)
  {
  }

  /** A start that is not in time can lose its first message: a run in which the subscriber's first message is a
      later one. */
  lemma {:induction false} LateStartSkips(r: Ring, j: nat, at: nat) returns (r': Ring)
    requires Inv(r) && (r.pub.Scanning? ==> r.pub.i <= |r.cursors|)
    requires Enabled(r, Start(j, at)) && !InTime(r, j, at)
    ensures Shape(r) && CanGo(Next(r, Start(j, at)), j, r') && j < |r'.subs| && r'.subs[j].pc.Ready?
    ensures r'.subs[j].first == at && |r'.subs[j].got| == 1 && r'.subs[j].got[0].pos > at
  {
    StartIs(r, j, at);
    var r1 := Next(r, Start(j, at));
    Stay(r1, j);
    LateStays(r, j, at);
    hide Inv, InTime, Next, CanGo, SubRuns, B.Readable, ViewOf;
    var r2 := Overtakes(r1, j, r1, at);
    r' := ReadsLater(r1, j, r2, at);
  }

  lemma {:induction false} LateStays(r: Ring, j: nat, at: nat)
    requires Inv(r) && Enabled(r, Start(j, at))
    ensures Shape(r) && InTime(Next(r, Start(j, at)), j, at) == InTime(r, j, at)
    ensures Next(r, Start(j, at)).pub == r.pub
  {
    StartIs(r, j, at);
    hide Inv;
  }

  /** A reader more than a lap behind an idle publisher is handed a later position. */
  lemma {:induction false} ReadsLater(from: Ring, j: nat, r: Ring, at: nat) returns (r': Ring)
    requires CanGo(from, j, r) && Inv(r) && r.pub.Idle? && j < |r.subs| == |r.cursors| && r.tail - at > r.capacity
    requires r.subs[j].pc == Ready(at) && r.subs[j].got == []
    ensures CanGo(from, j, r') && j < |r'.subs| && r'.subs[j].pc.Ready? && r'.subs[j].first == r.subs[j].first
    ensures |r'.subs[j].got| == 1 && r'.subs[j].got[0].pos > at
  {
    InvSmall(r);
    ReadableIs(r, at);
    B.WindowPosIs(at, r.tail, r.capacity);
    hide Inv, CanGo, SubRuns, B.Readable, ViewOf, Next, B.WindowPos, SlotIndex;
    var n;
    n, r' := ReceiveAlone(r, j);
    Go(from, j, r, Poll(j));
    GoSub(from, j, Next(r, Poll(j)), n, r');
  }

  /** What the tenant has handed out is `at`, the next, and so on, each with its message. */
  predicate InSequence(sub: Sub, at: nat, log: seq<Payload>) {
    forall i :: 0 <= i < |sub.got| ==> sub.got[i].pos == at + i && Exact(sub.got[i], log)
  }

  /** Still reading from where it started. */
  predicate SameStay(sub: Sub, sub': Sub) {
    Reading(sub'.pc) && sub'.first == sub.first && sub'.promised == sub.promised
  }

  lemma {:induction false} StayStep(r: Ring, j: nat, a: Action)
    requires Shape(r) && Enabled(r, a) && a != Release(j)
    requires j < |r.subs| == |r.cursors| && Reading(r.subs[j].pc)
    ensures j < |Next(r, a).subs| == |Next(r, a).cursors| && SameStay(r.subs[j], Next(r, a).subs[j])
    ensures Next(r, a).policy == r.policy
  {
    hide InTime, FromLE;
  }

  lemma {:induction false} StayKeeps(r: Ring, j: nat, actions: seq<Action>, r': Ring)
    requires Inv(r) && Continues(r, j, actions, r') && j < |r.subs| == |r.cursors| && Reading(r.subs[j].pc)
    ensures Inv(r') && j < |r'.subs| && SameStay(r.subs[j], r'.subs[j]) && r'.policy == r.policy
    decreases |actions|
  {
    if actions != [] {
      StepKeeps(r, actions[0]);
      StayStep(r, j, actions[0]);
      hide Inv, Next, Enabled, Shape;
      StayKeeps(Next(r, actions[0]), j, actions[1..], r');
    }
  }

  /** A start in time gets everything from its position on, whatever happens next. */
  lemma {:induction false} TimelyStartKeeps(r: Ring, j: nat, at: nat, actions: seq<Action>, r': Ring)
    requires Inv(r) && r.policy.Error? && Enabled(r, Start(j, at)) && InTime(r, j, at)
    requires Shape(r) && Continues(Next(r, Start(j, at)), j, actions, r')
    ensures j < |r'.subs| && InSequence(r'.subs[j], at, r'.log)
  {
    StartIs(r, j, at);
    var r1 := Next(r, Start(j, at));
    hide Inv, InTime, Next, Enabled, Shape, Continues, InSequence;
    StayKeeps(r1, j, actions, r');
    PromisedInSequence(r', j);
  }

  lemma {:induction false} PromisedInSequence(r: Ring, j: nat)
    requires Inv(r) && r.policy.Error? && j < |r.subs| && Reading(r.subs[j].pc) && r.subs[j].promised
    ensures InSequence(r.subs[j], r.subs[j].first, r.log)
  {
    assert SubOk(r, j);
    hide SlotsOk, NeedOk, PcOk;
  }

  lemma {:induction false} InitScan(capacity: nat, payloadSize: nat, maxSubscribers: nat, policy: Policy,
          actions: seq<Action>, r: Ring)
    requires 0 < capacity < U32 && payloadSize < U32
    requires Reaches(Init(capacity, payloadSize, maxSubscribers, policy), actions, r)
    ensures Inv(r) && (r.pub.Scanning? ==> r.pub.i <= |r.cursors|) && r.policy == policy
  {
    InitOk(capacity, payloadSize, maxSubscribers, policy);
    RunKeeps(Init(capacity, payloadSize, maxSubscribers, policy), actions, r);
    ScanInRange(Init(capacity, payloadSize, maxSubscribers, policy), actions, r);
    PolicyFixed(Init(capacity, payloadSize, maxSubscribers, policy), actions, r);
    hide Inv;
  }

  /** Whatever happens while the tenant stays, it is handed `at`, the next, and so on. */
  ghost predicate Lossless(r: Ring, j: nat, at: nat) {
    forall later, r' :: Continues(r, j, later, r') ==> j < |r'.subs| && InSequence(r'.subs[j], at, r'.log)
  }

  lemma {:induction false} OneLoss(r: Ring, j: nat, at: nat, later: seq<Action>, r': Ring)
    requires Continues(r, j, later, r') && j < |r'.subs| && |r'.subs[j].got| > 0 && r'.subs[j].got[0].pos > at
    ensures !Lossless(r, j, at)
  {
    assert !InSequence(r'.subs[j], at, r'.log);
    hide Continues, InSequence;
  }

  /** Starting behind the tail under the Error policy, exactly: from every reachable ring, a subscriber that starts
      at `at` is handed `at`, the next, and so on in every continuation if and only if its cursor store is in time. */
  lemma {:induction false} StartIsLosslessIff(capacity: nat, payloadSize: nat, maxSubscribers: nat,
          actions: seq<Action>, r: Ring, j: nat, at: nat)
    requires 0 < capacity < U32 && payloadSize < U32
    requires Reaches(Init(capacity, payloadSize, maxSubscribers, Error), actions, r) && Enabled(r, Start(j, at))
    ensures Shape(r)
    ensures InTime(r, j, at) <==>
            Lossless(Next(r, Start(j, at)), j, at)
  {
    InitScan(capacity, payloadSize, maxSubscribers, Error, actions, r);
    StartIs(r, j, at);
    hide Inv, Reaches, InTime, Next, Enabled;
    if InTime(r, j, at) {
      forall later, r' | Continues(Next(r, Start(j, at)), j, later, r')
        ensures j < |r'.subs| && InSequence(r'.subs[j], at, r'.log)
      {
        TimelyStartKeeps(r, j, at, later, r');
      }
    } else {
      var r' := LateStartSkips(r, j, at);
      var later :| Continues(Next(r, Start(j, at)), j, later, r');
      OneLoss(Next(r, Start(j, at)), j, at, later, r');
    }
  }

  /** `StartPos::Now` starts at the tail it loaded, and that is always in time. */
  lemma {:induction false} NowIsInTime(r: Ring, j: nat)
    requires Inv(r) && r.policy.Error? && j < |r.subs| && r.subs[j].pc.Synced?
    ensures InTime(r, j, r.subs[j].pc.resync)
  {
    assert SubOk(r, j);
    hide SlotsOk, PcOk;
  }

  // ── Two runs ────────────────────────────────────────────────────────────────

  lemma {:induction false} ToReaches(r: Ring, j: nat, actions: seq<Action>, r': Ring)
    requires Continues(r, j, actions, r')
    ensures Reaches(r, actions, r')
    decreases |actions|
  {
    hide Next, Enabled, Shape;
    if actions != [] { ToReaches(Next(r, actions[0]), j, actions[1..], r'); }
  }

  /** One whole publish while nobody else moves. */
  lemma {:induction false} PublishOnce(from: Ring, j: nat, r: Ring, d: Payload) returns (r': Ring)
    requires CanGo(from, j, r) && Inv(r) && r.pub.Idle? && Enabled(r, Publish(d))
    requires r.policy.Error? ==> !Full(r.tail, MinFrom(r.cursors, 0, None), r.capacity)
    ensures CanGo(from, j, r') && Inv(r') && SameTables(r, r') && r'.pub.Idle? && r'.tail == r.tail + 1
  {
    PublishStarts(r, d);
    Go(from, j, r, Publish(d));
    hide Inv, CanGo, Full, MinFrom;
    r' := PubFinishes(from, j, Next(r, Publish(d)));
  }

  /** The state of one subscriber of a ring with one slot and one entry. */
  predicate Lone(r: Ring, tail: nat, cursor: Option<nat>, pc: Pc) {
    && r.capacity == 1 && r.payloadSize == 8 && r.tail == tail && r.pub.Idle? && |r.subs| == 1
    && r.cursors == [cursor] && r.subs[0].pc == pc
  }

  /** One message, and then a subscriber that has loaded the tail behind it. */
  lemma {:induction false} SyncedAtOne() returns (r: Ring)
    ensures CanGo(Init(1, 8, 1, Error), 1, r) && Inv(r) && r.policy.Error? && Lone(r, 1, Some(1), Synced(1))
  {
    var r0 := Init(1, 8, 1, Error);
    InitOk(1, 8, 1, Error);
    Stay(r0, 1);
    hide Inv, CanGo;
    assert Lone(r0, 0, None, Free) && r0.policy.Error?;
    var r1 := PublishOnce(r0, 1, r0, []);
    Go(r0, 1, r1, Claim(0, 1));
    var r2 := Next(r1, Claim(0, 1));
    Go(r0, 1, r2, Resync(0));
    r := Next(r2, Resync(0));
  }

  /** A subscriber that asks for the one message the ring still holds, and never sees it: the next publish is let
      through because the entry still shows the tail. */
  lemma {:induction false} HistoryStartLosesAMessage() returns (before: seq<Action>, r: Ring, r': Ring)
    ensures Reaches(Init(1, 8, 1, Error), before, r) && Shape(r) && Enabled(r, Start(0, 0))
    ensures r.subs[0].pc == Synced(1) && !InTime(r, 0, 0)
    ensures CanGo(Next(r, Start(0, 0)), 0, r') && |r'.subs| == 1 && |r'.subs[0].got| == 1 && r'.subs[0].got[0].pos > 0
  {
    var r0 := Init(1, 8, 1, Error);
    var r3 := SyncedAtOne();
    hide Inv, CanGo;
    assert MinFrom(r3.cursors, 0, None) == Some(1);
    r := PublishOnce(r0, 1, r3, []);
    before := CanGoRun(r0, 1, r);
    assert r.tail == 2 && r.subs == r3.subs;
    r' := LateStartSkips(r, 0, 0);
    assert |r'.subs| == 1 by { SubsStay(Next(r, Start(0, 0)), 0, r'); }
  }

  lemma {:induction false} CanGoRun(r: Ring, j: nat, r': Ring) returns (actions: seq<Action>)
    requires CanGo(r, j, r')
    ensures Reaches(r, actions, r')
  {
    hide Continues, Reaches;
    actions :| Continues(r, j, actions, r');
    ToReaches(r, j, actions, r');
  }

  lemma {:induction false} SubsStay(r: Ring, j: nat, r': Ring)
    requires CanGo(r, j, r')
    ensures |r'.subs| == |r.subs|
  {
    var actions := CanGoRun(r, j, r');
    PolicyFixed(r, actions, r');
    hide CanGo;
  }

  lemma {:induction false} PublishDrop(from: Ring, j: nat, r: Ring, d: Payload) returns (r': Ring)
    requires CanGo(from, j, r) && Inv(r) && r.pub.Idle? && Enabled(r, Publish(d)) && r.policy.DropOldest?
    ensures CanGo(from, j, r') && Inv(r') && SameTables(r, r') && r'.pub.Idle? && r'.tail == r.tail + 1
    ensures r'.log == r.log + [d]
  {
    PublishStarts(r, d);
    Go(from, j, r, Publish(d));
    hide Inv, CanGo;
    var n;
    n, r' := WriteAlone(Next(r, Publish(d)));
    GoPub(from, j, Next(r, Publish(d)), n, r');
  }

  /** One byte of the length. */
  lemma {:induction false} LengthByte(from: Ring, j: nat, r: Ring, e: nat, mem: seq<byte>, k: nat) returns (r': Ring)
    requires CanGo(from, j, r) && Inv(r) && |r.subs| == |r.cursors| == 1 && k < 4 <= |mem| && e < |r.log|
    requires Shape(r) && r.slots[SlotIndex(e, r.capacity)].mem == mem
    requires r.subs[0].pc == Fetching(0, e, MAX_RETRIES, mem[..k])
    ensures CanGo(from, j, r') && Inv(r') && Shape(r')
    ensures r' == r.(subs := [r.subs[0].(pc := Fetching(0, e, MAX_RETRIES, mem[..k + 1]))])
  {
    assert mem[..k + 1] == mem[..k] + [mem[k]];
    Go(from, j, r, SubStep(0));
    hide Inv, CanGo, SlotIndex;
    r' := Next(r, SubStep(0));
    assert r.cursors[0 := r.cursors[0]] == r.cursors;
  }

  lemma {:induction false} StartedAtZero() returns (r: Ring)
    ensures Inv(r) && Shape(r) && CanGo(Init(1, 8, 1, DropOldest), 1, r) && r.policy.DropOldest?
    ensures Lone(r, 0, Some(0), Ready(0)) && r.log == []
  {
    var r0 := Init(1, 8, 1, DropOldest);
    InitOk(1, 8, 1, DropOldest);
    Stay(r0, 1);
    hide Inv, CanGo;
    Go(r0, 1, r0, Claim(0, 0));
    var r1 := Next(r0, Claim(0, 0));
    Go(r0, 1, r1, Resync(0));
    var r2 := Next(r1, Resync(0));
    Go(r0, 1, r2, Start(0, 0));
    r := Next(r2, Start(0, 0));
  }

  /** An empty message is published, and the reader passes its first sequence check. */
  lemma {:induction false} AtTheLength() returns (r: Ring)
    ensures Inv(r) && Shape(r) && CanGo(Init(1, 8, 1, DropOldest), 1, r) && r.policy.DropOldest?
    ensures Lone(r, 1, Some(0), Fetching(0, 0, MAX_RETRIES, [])) && r.log == [[]]
  {
    hide Inv, CanGo, Init;
    var r0 := Init(1, 8, 1, DropOldest);
    var r1 := StartedAtZero();
    var r2 := PublishDrop(r0, 1, r1, []);
    Go(r0, 1, r2, Poll(0));
    SlotHoldsWindow(r2, 0);
    r := FirstLook(r0, Next(r2, Poll(0)));
  }

  /** The four bytes of the length, whatever they are by then. */
  lemma {:induction false} ReadsLength(from: Ring, r: Ring, len: nat) returns (r': Ring)
    requires CanGo(from, 1, r) && Inv(r) && Shape(r) && Lone(r, r.tail, Some(0), Fetching(0, 0, MAX_RETRIES, []))
    requires len < U32 && LE(len, 4) <= r.slots[SlotIndex(0, r.capacity)].mem && |r.log| > 0
    ensures CanGo(from, 1, r') && Shape(r') && r' == r.(subs := r'.subs) && |r'.subs| == 1
    ensures r'.subs[0].pc == Fetching(0, 0, MAX_RETRIES, LE(len, 4)) && FromLE(LE(len, 4)) == len
  {
    hide Inv, CanGo, LE, FromLE, SlotIndex;
    RoundTrip32(len);
    var mem := r.slots[SlotIndex(0, r.capacity)].mem;
    assert mem[..0] == [] && mem[..4] == LE(len, 4);
    var r1 := LengthByte(from, 1, r, 0, mem, 0);
    var r2 := LengthByte(from, 1, r1, 0, mem, 1);
    var r3 := LengthByte(from, 1, r2, 0, mem, 2);
    r' := LengthByte(from, 1, r3, 0, mem, 3);
  }

  /** The slot of position 0 in a ring of one slot, after the second publish. */
  lemma {:induction false} SlotAfterTwo(r: Ring)
    requires Inv(r) && r.pub.Idle? && r.capacity == 1 && r.tail == 2 && |r.log| == 2
    ensures Shape(r) && LE(|r.log[1]|, 4) <= r.slots[SlotIndex(0, r.capacity)].mem
  {
    SlotHoldsWindow(r, 0);
    WindowOfOne();
    var mem := r.slots[SlotIndex(0, r.capacity)].mem;
    hide LE, SlotIndex, SlotsOk, SubOk;
    assert Image(r.log[1]) <= mem;
    assert Image(r.log[1])[..4] == LE(|r.log[1]|, 4);
  }

  /** Under DropOldest a report can be wrong: the slot is overwritten between the first sequence check and the four
      bytes of the length, and an empty message is reported as one of five bytes and skipped. */
  lemma {:induction false} ReportCanBeWrong() returns (actions: seq<Action>, r: Ring)
    ensures Reaches(Init(1, 8, 1, DropOldest), actions, r) && Shape(r) && Enabled(r, Oversize(0, 3))
    ensures r.subs[0].pc.effective == 0 < |r.log| && |r.log[0]| == 0 && FromLE(r.subs[0].pc.buf) == 5
  {
    hide Inv, CanGo, LE, FromLE, Image;
    var r0, five := Init(1, 8, 1, DropOldest), [0, 0, 0, 0, 0];
    var r1 := AtTheLength();
    var r2 := PublishDrop(r0, 1, r1, five);
    assert r2.log == [[], five];
    SlotAfterTwo(r2);
    r := ReadsLength(r0, r2, 5);
    actions := CanGoRun(r0, 1, r);
  }

  lemma {:induction false} WindowOfOne()
    ensures B.WindowPos(0, 2, 1) == 1
  {
  }

  lemma {:induction false} FirstLook(from: Ring, r: Ring) returns (r': Ring)
    requires CanGo(from, 1, r) && Inv(r) && Shape(r) && |r.subs| == |r.cursors| == 1
    requires r.subs[0].pc == Probing(0, 0, MAX_RETRIES) && r.slots[SlotIndex(0, r.capacity)].word == Word(0, false)
    ensures CanGo(from, 1, r') && Inv(r') && Shape(r')
    ensures r' == r.(subs := [r.subs[0].(pc := Fetching(0, 0, MAX_RETRIES, []))])
  {
    Go(from, 1, r, SubStep(0));
    hide Inv, CanGo, SlotIndex;
    r' := Next(r, SubStep(0));
    assert r.cursors[0 := r.cursors[0]] == r.cursors;
  }
}
