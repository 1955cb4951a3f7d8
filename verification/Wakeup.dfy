/** The eventcount handshake between `broadcast_wakeup` and sleeping subscribers, as a step relation:
    crates/mmbus/src/publisher.rs, crates/mmbus/src/subscriber.rs and the wakeup flags of crates/mmbus/src/ring.rs.

    A wakeup is a token; the eventfd is in semaphore mode, so a sleeper takes one at a time. */
module Wakeup {
  import opened Bytes

  /** Where the publisher is: between publishes, between a tail store and its broadcast, or at client `i` of the
      broadcast loop, before its cursor check, its flag swap or its wakeup. */
  datatype Pub = Idle | Stored | Visiting(i: nat) | Taking(i: nat) | Waking(i: nat)

  datatype Pc = Claiming | Draining | Flagged | Blocked | Clearing | Gone

  /** How far the publisher knows a subscriber; `at` is the tail when its connection was accepted. */
  datatype Stage = Handshaking | Pending | Accepted(at: nat) | Reaped

  /** One subscriber, from claiming a cursor entry to its end. `tokens` are the wakeups not yet taken. */
  datatype Tenant = Tenant(idx: nat, cursor: nat, pc: Pc, tokens: nat, stage: Stage)

  /** `clients` is the publisher's list (by tenant); `holder` says who holds each cursor entry. */
  datatype Bus = Bus(
    tail: nat, pub: Pub, clients: seq<nat>, flags: seq<bool>, holder: seq<Option<nat>>, tenants: seq<Tenant>)

  datatype Action =
    | Accept(k: nat)
    | Store
    | Begin
    | Visit
    | Take
    | Wake(delivered: bool)
    | Claim(entry: nat)
    | ClearStale(k: nat)
    | Connect(k: nat, start: nat)
    | Read(k: nat, upTo: nat)
    | Arm(k: nat)
    | Recheck(k: nat)
    | TakeToken(k: nat)
    | TimeOut(k: nat)
    | Clear(k: nat)
    | Drop(k: nat)
    | Die(k: nat)

  function Init(maxSubscribers: nat): Bus {
    Bus(0, Idle, [], seq(maxSubscribers, _ => false), seq(maxSubscribers, _ => None), [])
  }

  predicate At(b: Bus, k: nat, pc: Pc) { k < |b.tenants| && b.tenants[k].pc == pc }

  /** The publisher is through with this subscriber, or never heard of it and never will. */
  predicate Retired(t: Tenant) { t.stage.Reaped? || (t.pc.Gone? && t.stage.Handshaking?) }

  predicate Enabled(b: Bus, a: Action) {
    match a
    case Accept(k) => b.pub.Idle? && k < |b.tenants| && b.tenants[k].stage.Pending?
    case Store => b.pub.Idle? || b.pub.Stored?
    case Begin => b.pub.Stored?
    case Visit => b.pub.Visiting?
    case Take => b.pub.Taking? && b.pub.i < |b.clients| && EntryOk(b, b.clients[b.pub.i])
    case Wake(ok) => b.pub.Waking? && b.pub.i < |b.clients| && EntryOk(b, b.clients[b.pub.i]) &&
                     (!ok ==> b.tenants[b.clients[b.pub.i]].pc.Gone?)
    case Claim(idx) => idx < |b.holder| && b.holder[idx].None?
    case ClearStale(k) => At(b, k, Claiming)
    case Connect(k, c) => At(b, k, Draining) && b.tenants[k].stage.Handshaking? && c <= b.tail
    case Read(k, to) => At(b, k, Draining) && !b.tenants[k].stage.Handshaking? && b.tenants[k].cursor < to <= b.tail
    case Arm(k) => At(b, k, Draining) && !b.tenants[k].stage.Handshaking?
    case Recheck(k) => At(b, k, Flagged)
    case TakeToken(k) => At(b, k, Blocked) && b.tenants[k].tokens > 0
    case TimeOut(k) => At(b, k, Blocked)
    case Clear(k) => At(b, k, Clearing)
    case Drop(k) => At(b, k, Draining)
    case Die(k) => k < |b.tenants| && !b.tenants[k].pc.Gone?
  }

  predicate EntryOk(b: Bus, k: nat) { k < |b.tenants| && b.tenants[k].idx < |b.flags| == |b.holder| }

  predicate Shape(b: Bus) {
    && |b.flags| == |b.holder|
    && (forall k :: 0 <= k < |b.tenants| ==> b.tenants[k].idx < |b.holder|)
    && (forall i :: 0 <= i < |b.clients| ==> b.clients[i] < |b.tenants|)
  }

  /** `Vec::swap_remove`: the last element takes the place of the removed one. */
  function SwapRemove(s: seq<nat>, i: nat): (r: seq<nat>)
    requires i < |s|
    ensures |r| == |s| - 1
    ensures forall k :: 0 <= k < |r| ==> r[k] == if k == i then s[|s| - 1] else s[k]
  {
    s[i := s[|s| - 1]][..|s| - 1]
  }

  function SetTenant(b: Bus, k: nat, t: Tenant): Bus
    requires k < |b.tenants|
  {
    b.(tenants := b.tenants[k := t])
  }

  function SetFlag(b: Bus, k: nat, value: bool, pc: Pc): Bus
    requires EntryOk(b, k)
  {
    b.(flags := b.flags[b.tenants[k].idx := value], tenants := b.tenants[k := b.tenants[k].(pc := pc)])
  }

  /** Forget client `i`; what follows it is examined at the same index. */
  function Reap(b: Bus, i: nat): Bus
    requires i < |b.clients| && b.clients[i] < |b.tenants|
  {
    var k := b.clients[i];
    b.(clients := SwapRemove(b.clients, i), pub := Visiting(i),
      tenants := b.tenants[k := b.tenants[k].(stage := Reaped)])
  }

  function Next(b: Bus, a: Action): Bus
    requires Shape(b) && Enabled(b, a)
  {
    match a
    case Accept(k) => SetTenant(b, k, b.tenants[k].(stage := Accepted(b.tail))).(clients := b.clients + [k])
    case Store => b.(tail := b.tail + 1, pub := Stored)
    case Begin => b.(pub := if b.clients == [] then Idle else Visiting(0))
    case Visit =>
      var i := b.pub.i;
      if i >= |b.clients| then b.(pub := Idle)
      else if b.holder[b.tenants[b.clients[i]].idx].None? then Reap(b, i)
      else b.(pub := Taking(i))
    case Take =>
      var idx := b.tenants[b.clients[b.pub.i]].idx;
      b.(flags := b.flags[idx := false], pub := if b.flags[idx] then Waking(b.pub.i) else Visiting(b.pub.i + 1))
    case Wake(ok) =>
      var k := b.clients[b.pub.i];
      if ok then SetTenant(b, k, b.tenants[k].(tokens := b.tenants[k].tokens + 1)).(pub := Visiting(b.pub.i + 1))
      else Reap(b, b.pub.i)
    case Claim(idx) =>
      b.(holder := b.holder[idx := Some(|b.tenants|)],
        tenants := b.tenants + [Tenant(idx, 0, Claiming, 0, Handshaking)])
    case ClearStale(k) => SetFlag(b, k, false, Draining)
    case Connect(k, c) => SetTenant(b, k, b.tenants[k].(stage := Pending, cursor := c))
    case Read(k, to) => SetTenant(b, k, b.tenants[k].(cursor := to))
    case Arm(k) => SetFlag(b, k, true, Flagged)
    case Recheck(k) =>
      SetTenant(b, k, b.tenants[k].(pc := if b.tenants[k].cursor < b.tail then Clearing else Blocked))
    case TakeToken(k) => SetTenant(b, k, b.tenants[k].(pc := Clearing, tokens := b.tenants[k].tokens - 1))
    case TimeOut(k) => SetTenant(b, k, b.tenants[k].(pc := Clearing))
    case Clear(k) => SetFlag(b, k, false, Draining)
    case Drop(k) => SetTenant(b, k, b.tenants[k].(pc := Gone)).(holder := b.holder[b.tenants[k].idx := None])
    case Die(k) => SetTenant(b, k, b.tenants[k].(pc := Gone))
  }

  /** A cursor entry is claimed again only after the publisher is through with its earlier tenants. */
  predicate NoEarlyReuse(b: Bus, a: Action) {
    a.Claim? ==> forall k :: 0 <= k < |b.tenants| && b.tenants[k].idx == a.entry ==> Retired(b.tenants[k])
  }

  /** A run in which, if `careful`, no entry is reused early. The code itself does not enforce that. */
  ghost predicate Reaches(careful: bool, b: Bus, actions: seq<Action>, b': Bus)
    decreases |actions|
  {
    if actions == [] then b' == b
    else
      && Shape(b) && Enabled(b, actions[0]) && (careful ==> NoEarlyReuse(b, actions[0]))
      && Reaches(careful, Next(b, actions[0]), actions[1..], b')
  }

  // ── The invariant ───────────────────────────────────────────────────────────

  predicate ListOk(b: Bus) {
    && (forall i, j :: 0 <= i < j < |b.clients| ==> b.clients[i] != b.clients[j])
    && (forall i :: 0 <= i < |b.clients| ==> b.clients[i] < |b.tenants| && b.tenants[b.clients[i]].stage.Accepted?)
    && (forall k :: 0 <= k < |b.tenants| && b.tenants[k].stage.Accepted? ==> k in b.clients)
    && (b.pub.Taking? || b.pub.Waking? ==> b.pub.i < |b.clients|)
  }

  /** Whoever is not gone holds its entry, and nobody the publisher still deals with shares it. */
  predicate EntriesOk(b: Bus)
    requires Shape(b)
  {
    && (forall k :: 0 <= k < |b.tenants| && !b.tenants[k].pc.Gone? ==>
          b.holder[b.tenants[k].idx] == Some(k) && !Retired(b.tenants[k]))
    && (forall k, m :: 0 <= k < m < |b.tenants| && !Retired(b.tenants[k]) && !Retired(b.tenants[m]) ==>
          b.tenants[k].idx != b.tenants[m].idx)
  }

  predicate Waiting(t: Tenant) { (t.pc.Flagged? || t.pc.Blocked?) && t.tokens == 0 }

  /** A waiting subscriber's flag is up, unless the publisher has just taken it to wake exactly this one. */
  predicate FlagOk(b: Bus, k: nat)
    requires EntryOk(b, k)
  {
    Waiting(b.tenants[k]) ==>
      b.flags[b.tenants[k].idx] || (b.pub.Waking? && b.pub.i < |b.clients| && b.clients[b.pub.i] == k)
  }

  /** Client `k` stands at or after position `i` of the list. */
  predicate Ahead(b: Bus, i: nat, k: nat) { exists p :: i <= p < |b.clients| && b.clients[p] == k }

  predicate YetToVisit(b: Bus, k: nat) {
    match b.pub
    case Idle => false
    case Stored => true
    case Visiting(i) => Ahead(b, i, k)
    case Taking(i) => Ahead(b, i, k)
    case Waking(i) => Ahead(b, i, k)
  }

  /** Blocked without a token on a message stored after its connection was accepted. */
  predicate Stranded(b: Bus, k: nat)
    requires k < |b.tenants|
  {
    var t := b.tenants[k];
    t.pc.Blocked? && t.tokens == 0 && t.stage.Accepted? && t.stage.at < b.tail && t.cursor < b.tail
  }

  predicate VisitOk(b: Bus, k: nat)
    requires k < |b.tenants|
  {
    && (Stranded(b, k) ==> YetToVisit(b, k))
    && (b.tenants[k].stage.Accepted? ==> b.tenants[k].stage.at <= b.tail)
  }

  predicate Inv(b: Bus) {
    && Shape(b) && ListOk(b) && EntriesOk(b)
    && forall k :: 0 <= k < |b.tenants| ==> FlagOk(b, k) && VisitOk(b, k)
  }

  // ── Preservation ────────────────────────────────────────────────────────────

  lemma {:induction false} PublisherKeeps(b: Bus, a: Action)
    requires Inv(b) && Enabled(b, a) && (a.Store? || a.Begin? || a.Accept?)
    ensures Inv(Next(b, a))
  {
    var b' := Next(b, a);
    forall k | 0 <= k < |b'.tenants| ensures FlagOk(b', k) && VisitOk(b', k) {
      assert FlagOk(b, k) && VisitOk(b, k);
      if a.Begin? && b.tenants[k].stage.Accepted? { assert k in b.clients; }
    }
  }

  lemma {:induction false} SwapRemoveAhead(b: Bus, i: nat, k: nat)
    requires i < |b.clients| && b.clients[i] != k && Ahead(b, i, k) && b.clients[i] < |b.tenants|
    ensures Ahead(Reap(b, i), i, k)
  {
    var p :| i <= p < |b.clients| && b.clients[p] == k;
    var q := if p == |b.clients| - 1 then i else p;
    assert Reap(b, i).clients[q] == k;
  }

  /** Only the reaped client leaves the list. */
  lemma {:induction false} ReapList(b: Bus, i: nat)
    requires Shape(b) && ListOk(b) && i < |b.clients|
    ensures ListOk(Reap(b, i))
  {
    var b' := Reap(b, i);
    forall k | 0 <= k < |b'.tenants| && b'.tenants[k].stage.Accepted? ensures k in b'.clients {
      assert k in b.clients;
      var p :| 0 <= p < |b.clients| && b.clients[p] == k;
      assert b'.clients[if p == |b.clients| - 1 then i else p] == k;
    }
  }

  lemma {:induction false} ReapEntries(b: Bus, i: nat)
    requires Shape(b) && EntriesOk(b) && i < |b.clients| && b.tenants[b.clients[i]].pc.Gone?
    ensures Shape(Reap(b, i)) && EntriesOk(Reap(b, i))
  {
    var c, b' := b.clients[i], Reap(b, i);
    assert b'.tenants[c].idx == b.tenants[c].idx && Retired(b'.tenants[c]);
  }

  lemma {:induction false} ReapSub(b: Bus, i: nat, k: nat)
    requires Shape(b) && (b.pub == Visiting(i) || b.pub == Waking(i)) && i < |b.clients| && k < |b.tenants|
    requires b.tenants[b.clients[i]].pc.Gone? && FlagOk(b, k) && VisitOk(b, k)
    ensures Shape(Reap(b, i)) && FlagOk(Reap(b, i), k) && VisitOk(Reap(b, i), k)
  {
    hide Ahead, SwapRemove;
    if Stranded(Reap(b, i), k) { SwapRemoveAhead(b, i, k); }
  }

  lemma {:induction false} ReapKeeps(b: Bus)
    requires Inv(b) && (b.pub.Visiting? || b.pub.Waking?) && b.pub.i < |b.clients|
    requires b.tenants[b.clients[b.pub.i]].pc.Gone?
    ensures Inv(Reap(b, b.pub.i))
  {
    ReapList(b, b.pub.i);
    ReapEntries(b, b.pub.i);
    hide ListOk, EntriesOk, FlagOk, VisitOk;
    forall k | 0 <= k < |b.tenants| ensures FlagOk(Reap(b, b.pub.i), k) && VisitOk(Reap(b, b.pub.i), k) {
      ReapSub(b, b.pub.i, k);
    }
  }

  /** The flag swap concerns one waiting subscriber only: the client it is taken from. */
  lemma {:induction false} TakeKeeps(b: Bus)
    requires Inv(b) && Enabled(b, Take)
    ensures Inv(Next(b, Take))
  {
    var b', i := Next(b, Take), b.pub.i;
    var c := b.clients[i];
    forall k | 0 <= k < |b'.tenants| ensures FlagOk(b', k) && VisitOk(b', k) {
      assert FlagOk(b, k) && VisitOk(b, k);
      if Waiting(b.tenants[k]) && k != c { assert b.tenants[k].idx != b.tenants[c].idx; }
      hide EntriesOk;
      if Stranded(b, k) { AheadStep(b, i, k, b'); }
    }
  }

  /** Moving past client `i` leaves every other one ahead. */
  lemma {:induction false} AheadStep(b: Bus, i: nat, k: nat, b': Bus)
    requires i < |b.clients| && Ahead(b, i, k) && b'.clients == b.clients
    ensures Ahead(b', i, k) && (b.clients[i] != k ==> Ahead(b', i + 1, k))
  {
    var p :| i <= p < |b.clients| && b.clients[p] == k;
    assert b'.clients[p] == k;
  }

  lemma {:induction false} VisitKeeps(b: Bus, a: Action)
    requires Inv(b) && Enabled(b, a) && (a.Visit? || a.Wake?)
    ensures Inv(Next(b, a))
  {
    var b', i := Next(b, a), b.pub.i;
    if i < |b.clients| && ((a.Visit? && b.holder[b.tenants[b.clients[i]].idx].None?) || a == Wake(false)) {
      ReapKeeps(b);
    } else {
      VisitLists(b, a);
      forall k | 0 <= k < |b'.tenants| ensures FlagOk(b', k) && VisitOk(b', k) {
        hide ListOk, EntriesOk, FlagOk, VisitOk, Next;
        VisitTenant(b, a, k);
      }
      hide ListOk, EntriesOk, Shape, FlagOk, VisitOk, Next;
    }
  }

  lemma {:induction false} VisitTenant(b: Bus, a: Action, k: nat)
    requires Shape(b) && ListOk(b) && Enabled(b, a) && (a.Visit? || a.Wake?) && k < |b.tenants|
    requires b.pub.i < |b.clients| ==>
               !(a.Visit? && b.holder[b.tenants[b.clients[b.pub.i]].idx].None?) && a != Wake(false)
    requires FlagOk(b, k) && VisitOk(b, k)
    ensures EntryOk(Next(b, a), k) && FlagOk(Next(b, a), k) && VisitOk(Next(b, a), k)
  {
    if Stranded(b, k) && b.pub.i < |b.clients| { AheadStep(b, b.pub.i, k, Next(b, a)); }
    hide ListOk, Ahead, Reap;
  }

  lemma {:induction false} VisitLists(b: Bus, a: Action)
    requires Inv(b) && Enabled(b, a) && (a.Visit? || a.Wake?)
    requires b.pub.i < |b.clients| ==>
               !(a.Visit? && b.holder[b.tenants[b.clients[b.pub.i]].idx].None?) && a != Wake(false)
    ensures Shape(Next(b, a)) && ListOk(Next(b, a)) && EntriesOk(Next(b, a)) && |Next(b, a).tenants| == |b.tenants|
  {
    hide FlagOk, VisitOk;
  }

  /** A subscriber's step that leaves flags and entries alone. */
  lemma {:induction false} OwnStep(b: Bus, k: nat, t: Tenant)
    requires Inv(b) && k < |b.tenants|
    requires t.idx == b.tenants[k].idx &&
      (t.stage == b.tenants[k].stage || (b.tenants[k].stage.Handshaking? && t.stage.Pending?))
    requires (t.pc.Gone? || !b.tenants[k].pc.Gone?) && (Retired(b.tenants[k]) ==> Retired(t)) &&
      (!t.pc.Gone? ==> !Retired(t))
    requires FlagOk(SetTenant(b, k, t), k) && VisitOk(SetTenant(b, k, t), k)
    ensures Inv(SetTenant(b, k, t))
  {
    var b' := SetTenant(b, k, t);
    assert EntriesOk(b');
    assert ListOk(b');
    hide ListOk, EntriesOk;
    forall m | 0 <= m < |b'.tenants| ensures FlagOk(b', m) && VisitOk(b', m) {
      assert FlagOk(b, m) && VisitOk(b, m);
      if m != k && Stranded(b', m) { SameList(b, b', m); }
    }
  }

  lemma {:induction false} SameList(b: Bus, b': Bus, k: nat)
    requires b'.clients == b.clients && b'.pub == b.pub && YetToVisit(b, k)
    ensures YetToVisit(b', k)
  {
    if b.pub.Visiting? || b.pub.Taking? || b.pub.Waking? {
      var p :| b.pub.i <= p < |b.clients| && b.clients[p] == k;
      assert b'.clients[p] == k;
    }
  }

  lemma {:induction false} PlainKeeps(b: Bus, a: Action)
    requires Inv(b) && Enabled(b, a)
    requires a.Connect? || a.Read? || a.Recheck? || a.TakeToken? || a.TimeOut? || a.Die?
    ensures Inv(Next(b, a))
  {
    var t := b.tenants[a.k];
    assert FlagOk(b, a.k) && VisitOk(b, a.k);
    var t' := Next(b, a).tenants[a.k];
    assert Next(b, a) == SetTenant(b, a.k, t');
    hide ListOk;
    OwnStep(b, a.k, t');
  }

  /** A subscriber raising or lowering its own flag: nobody else that waits shares the entry. */
  lemma {:induction false} FlagKeeps(b: Bus, a: Action)
    requires Inv(b) && Enabled(b, a) && (a.ClearStale? || a.Arm? || a.Clear?)
    ensures Inv(Next(b, a))
  {
    var b' := Next(b, a);
    FlagLists(b, a);
    hide ListOk, Shape;
    forall m | 0 <= m < |b'.tenants| ensures FlagOk(b', m) && VisitOk(b', m) {
      assert FlagOk(b, m) && VisitOk(b, m);
      if m != a.k && Waiting(b.tenants[m]) { assert b.tenants[m].idx != b.tenants[a.k].idx; }
      hide ListOk, EntriesOk;
      if m != a.k && Stranded(b', m) { SameList(b, b', m); }
    }
  }

  lemma {:induction false} FlagLists(b: Bus, a: Action)
    requires Inv(b) && Enabled(b, a) && (a.ClearStale? || a.Arm? || a.Clear?)
    ensures Shape(Next(b, a)) && ListOk(Next(b, a)) && EntriesOk(Next(b, a)) && |Next(b, a).tenants| == |b.tenants|
  {
    hide FlagOk, VisitOk;
  }

  lemma {:induction false} EntryKeeps(b: Bus, a: Action)
    requires Inv(b) && Enabled(b, a) && NoEarlyReuse(b, a) && (a.Claim? || a.Drop?)
    ensures Inv(Next(b, a))
  {
    var b' := Next(b, a);
    assert EntriesOk(b');
    assert ListOk(b');
    hide ListOk, EntriesOk;
    forall m | 0 <= m < |b'.tenants| ensures FlagOk(b', m) && VisitOk(b', m) {
      if m < |b.tenants| {
        assert FlagOk(b, m) && VisitOk(b, m);
        if Stranded(b', m) { SameList(b, b', m); }
      }
    }
  }

  lemma {:induction false} StepKeeps(b: Bus, a: Action)
    requires Inv(b) && Enabled(b, a) && NoEarlyReuse(b, a)
    ensures Inv(Next(b, a))
  {
    if a.Store? || a.Begin? || a.Accept? { PublisherKeeps(b, a); }
    else if a.Take? { TakeKeeps(b); }
    else if a.Visit? || a.Wake? { VisitKeeps(b, a); }
    else if a.ClearStale? || a.Arm? || a.Clear? { FlagKeeps(b, a); }
    else if a.Claim? || a.Drop? { EntryKeeps(b, a); }
    else { PlainKeeps(b, a); }
  }

  lemma {:induction false} RunKeeps(b: Bus, actions: seq<Action>, b': Bus)
    requires Inv(b) && Reaches(true, b, actions, b')
    ensures Inv(b')
    decreases |actions|
  {
    hide Inv, Enabled, Next, Shape, NoEarlyReuse;
    if actions != [] {
      StepKeeps(b, actions[0]);
      RunKeeps(Next(b, actions[0]), actions[1..], b');
    }
  }

  // ── Main results ────────────────────────────────────────────────────────────

  /** No lost wakeup: in every run without early reuse of cursor entries, a connected subscriber blocked without
      a token on an unread message stored since its acceptance still has its flag up, or is being woken, and the
      publisher has yet to visit it. So none is blocked like that while the publisher is idle. */
  lemma {:induction false} NoLostWakeup(maxSubscribers: nat, actions: seq<Action>, b: Bus, k: nat)
    requires Reaches(true, Init(maxSubscribers), actions, b) && k < |b.tenants|
    ensures Stranded(b, k) ==>
              && k in b.clients && YetToVisit(b, k) && EntryOk(b, k)
              && (b.flags[b.tenants[k].idx] || (b.pub.Waking? && b.pub.i < |b.clients| && b.clients[b.pub.i] == k))
    ensures b.pub.Idle? ==> !Stranded(b, k)
  {
    RunKeeps(Init(maxSubscribers), actions, b);
    assert FlagOk(b, k) && VisitOk(b, k);
  }

  // ── What early reuse of a cursor entry does ─────────────────────────────────

  lemma {:induction false} Extend(b: Bus, actions: seq<Action>, b': Bus, a: Action)
    requires Reaches(false, b, actions, b') && Shape(b') && Enabled(b', a)
    ensures Reaches(false, b, actions + [a], Next(b', a))
    decreases |actions|
  {
    hide Next, Enabled, Shape;
    if actions == [] {
      assert [] + [a] == [a] && [a][1..] == [];
      assert Reaches(false, Next(b', a), [a][1..], Next(b', a));
    } else {
      Extend(Next(b, actions[0]), actions[1..], b', a);
      assert (actions + [a])[1..] == actions[1..] + [a];
    }
  }

  ghost predicate CanReach(b: Bus, b': Bus) { exists actions :: Reaches(false, b, actions, b') }

  lemma {:induction false} Stay(b: Bus)
    ensures CanReach(b, b)
  {
    assert Reaches(false, b, [], b);
  }

  lemma {:induction false} Go(b: Bus, b': Bus, a: Action)
    requires CanReach(b, b') && Shape(b') && Enabled(b', a)
    ensures CanReach(b, Next(b', a))
  {
    var actions :| Reaches(false, b, actions, b');
    Extend(b, actions, b', a);
  }

  /** A blocked subscriber whose flag is down and whose entry somebody holds. */
  predicate Forgotten(b: Bus, k: nat) {
    && EntryOk(b, k) && Waiting(b.tenants[k]) && b.tenants[k].pc.Blocked?
    && !b.flags[b.tenants[k].idx] && b.tenants[k].stage.Accepted?
  }

  /** With its flag down, a blocked subscriber is passed over by the rest of the broadcast. */
  lemma {:induction false} RestOfBroadcast(from: Bus, b: Bus, k: nat) returns (end: Bus)
    requires CanReach(from, b) && Shape(b) && b.pub.Visiting? && Forgotten(b, k)
    requires b.holder[b.tenants[k].idx].Some?
    ensures CanReach(from, end) && end.pub.Idle? && Forgotten(end, k)
    ensures end.tail == b.tail && |end.tenants| == |b.tenants| && end.tenants[k] == b.tenants[k]
    decreases |b.clients| - b.pub.i
  {
    hide CanReach, Reaches;
    Go(from, b, Visit);
    var b1 := Next(b, Visit);
    if b.pub.i >= |b.clients| { return b1; }
    if b1.pub.Visiting? { end := RestOfBroadcast(from, b1, k); return; }
    Go(from, b1, Take);
    var b2 := Next(b1, Take);
    if b2.pub.Visiting? { end := RestOfBroadcast(from, b2, k); return; }
    Go(from, b2, Wake(true));
    end := RestOfBroadcast(from, Next(b2, Wake(true)), k);
  }

  /** When the first listed client is a leftover of an earlier tenant of the entry, the next broadcast spends
      the new tenant's flag on waking the leftover, and the new tenant sleeps on an unread message. */
  lemma {:induction false} LeftoverStealsWakeup(from: Bus, b: Bus, k: nat) returns (end: Bus)
    requires CanReach(from, b) && Shape(b) && b.pub.Idle? && b.clients != [] && EntryOk(b, k)
    requires Waiting(b.tenants[k]) && b.tenants[k].pc.Blocked? && b.tenants[k].stage.Accepted?
    requires b.tenants[k].stage.at <= b.tail && b.tenants[k].cursor <= b.tail
    requires b.clients[0] != k && b.tenants[b.clients[0]].idx == b.tenants[k].idx && b.holder[b.tenants[k].idx].Some?
    ensures CanReach(from, end) && end.pub.Idle? && |end.tenants| == |b.tenants| && EntryOk(end, k) && Stranded(end, k)
  {
    hide CanReach, Reaches;
    Go(from, b, Store);
    var b1 := Next(b, Store);
    Go(from, b1, Begin);
    var b2 := Next(b1, Begin);
    Go(from, b2, Visit);
    var b3 := Next(b2, Visit);
    Go(from, b3, Take);
    var b4 := Next(b3, Take);
    if b4.pub.Waking? {
      Go(from, b4, Wake(true));
      end := RestOfBroadcast(from, Next(b4, Wake(true)), k);
    } else {
      end := RestOfBroadcast(from, b4, k);
    }
  }

  /** Subscriber `k` claims entry 0, connects at the tail and is accepted. */
  lemma {:induction false} Join(from: Bus, b: Bus, k: nat) returns (b4: Bus)
    requires CanReach(from, b) && Shape(b) && b.pub.Idle? && |b.holder| == 1 && b.holder[0].None? && k == |b.tenants|
    ensures CanReach(from, b4) && Shape(b4) && |b4.tenants| == k + 1 && b4.pub.Idle? && b4.tail == b.tail
    ensures b4.tenants == b.tenants + [Tenant(0, b.tail, Draining, 0, Accepted(b.tail))]
    ensures b4.clients == b.clients + [k] && b4.holder == [Some(k)]
  {
    hide CanReach, Reaches;
    Go(from, b, Claim(0));
    var b1 := Next(b, Claim(0));
    Go(from, b1, ClearStale(k));
    var b2 := Next(b1, ClearStale(k));
    Go(from, b2, Connect(k, b.tail));
    var b3 := Next(b2, Connect(k, b.tail));
    Go(from, b3, Accept(k));
    b4 := Next(b3, Accept(k));
  }

  lemma {:induction false} Leave(from: Bus, b: Bus, k: nat) returns (b1: Bus)
    requires CanReach(from, b) && Shape(b) && b.pub.Idle? && At(b, k, Draining) && b.holder == [Some(k)]
    ensures CanReach(from, b1) && Shape(b1) && b1.pub.Idle? && b1.tail == b.tail && b1.clients == b.clients
    ensures b1.tenants == b.tenants[k := b.tenants[k].(pc := Gone)] && b1.holder == [None] && b.tenants[k].idx == 0
  {
    Go(from, b, Drop(k));
    b1 := Next(b, Drop(k));
  }

  lemma {:induction false} Sleep(from: Bus, b: Bus, k: nat) returns (b2: Bus)
    requires CanReach(from, b) && Shape(b) && b.pub.Idle? && At(b, k, Draining) && b.tenants[k].cursor == b.tail
    requires b.tenants[k].stage.Accepted?
    ensures CanReach(from, b2) && Shape(b2) && b2.pub.Idle? && b2.tail == b.tail && b2.clients == b.clients
    ensures b2.tenants == b.tenants[k := b.tenants[k].(pc := Blocked)] && b2.holder == b.holder
  {
    Go(from, b, Arm(k));
    var b1 := Next(b, Arm(k));
    Go(from, b1, Recheck(k));
    b2 := Next(b1, Recheck(k));
  }

  /** The code does not enforce that condition, and without it wakeups do get lost: a subscriber leaves, another
      claims its entry before the next broadcast, and sleeps for good on the message published next. */
  lemma {:induction false} EarlyReuseLosesWakeup() returns (end: Bus)
    ensures CanReach(Init(1), end) && end.pub.Idle? && |end.tenants| == 2 && EntryOk(end, 1) && Stranded(end, 1)
  {
    hide CanReach, Next, Enabled, Stranded;
    Stay(Init(1));
    var b := Join(Init(1), Init(1), 0);
    b := Leave(Init(1), b, 0);
    b := Join(Init(1), b, 1);
    b := Sleep(Init(1), b, 1);
    end := LeftoverStealsWakeup(Init(1), b, 1);
  }

  // ── Who is woken, exactly ───────────────────────────────────────────────────

  /** The peers whose wakeup fails; only a process that is gone can be one. */
  predicate DeafOk(b: Bus, deaf: set<nat>) { forall k :: k in deaf ==> k < |b.tenants| && b.tenants[k].pc.Gone? }

  /** One turn of the broadcast loop, uninterrupted: cursor check, flag swap, wakeup. */
  function Turn(b: Bus, deaf: set<nat>): (b': Bus)
    requires Shape(b) && DeafOk(b, deaf) && b.pub.Visiting? && b.pub.i < |b.clients|
    ensures Shape(b') && DeafOk(b', deaf) && b'.pub.Visiting? && |b'.clients| - b'.pub.i < |b.clients| - b.pub.i
    ensures b'.pub.i <= |b'.clients|
  {
    var c := b.clients[b.pub.i];
    var b1 := Next(b, Visit);
    if b1.pub.Visiting? then b1
    else
      var b2 := Next(b1, Take);
      if b2.pub.Visiting? then b2 else Next(b2, Wake(c !in deaf))
  }

  /** The rest of a broadcast, uninterrupted, and the clients in the order in which it visits them. */
  function Round(b: Bus, deaf: set<nat>): (Bus, seq<nat>)
    requires Shape(b) && DeafOk(b, deaf) && b.pub.Visiting? && b.pub.i <= |b.clients|
    decreases |b.clients| - b.pub.i
  {
    if b.pub.i == |b.clients| then (Next(b, Visit), [])
    else
      var (end, order) := Round(Turn(b, deaf), deaf);
      (end, [b.clients[b.pub.i]] + order)
  }

  /** Another client of the same entry is visited before `k`. */
  predicate Stolen(ts: seq<Tenant>, order: seq<nat>, k: nat) {
    order != [] && order[0] != k &&
    ((order[0] < |ts| && k < |ts| && ts[order[0]].idx == ts[k].idx) || Stolen(ts, order[1..], k))
  }

  predicate Listed(b: Bus) { forall i, j :: 0 <= i < j < |b.clients| ==> b.clients[i] != b.clients[j] }

  /** What a turn does: the visited client loses the flag of its entry, and nobody else's tenant changes. */
  lemma {:induction false} TurnIs(b: Bus, deaf: set<nat>)
    requires Shape(b) && DeafOk(b, deaf) && b.pub.Visiting? && b.pub.i < |b.clients|
    ensures var c, b' := b.clients[b.pub.i], Turn(b, deaf);
            var idx := b.tenants[c].idx;
            var flagged := b.holder[idx].Some? && b.flags[idx];
            && b'.tail == b.tail && b'.holder == b.holder && |b'.tenants| == |b.tenants|
            && (forall m :: 0 <= m < |b.tenants| ==> b'.tenants[m].idx == b.tenants[m].idx)
            && (forall m :: 0 <= m < |b.tenants| && m != c ==> b'.tenants[m] == b.tenants[m])
            && b'.flags == (if flagged then b.flags[idx := false] else b.flags)
            && (b.holder[idx].Some? && c !in deaf ==>
                  && b'.clients == b.clients && b'.pub.i == b.pub.i + 1
                  && b'.tenants[c] == (if flagged then b.tenants[c].(tokens := b.tenants[c].tokens + 1)
                       else b.tenants[c]))
  {
    var c := b.clients[b.pub.i];
    assert b.flags[b.tenants[c].idx := false] == b.flags || b.flags[b.tenants[c].idx];
  }

  /** Those still to come, apart from the visited one, are still to come, and nobody else. */
  lemma {:induction false} TurnAhead(b: Bus, deaf: set<nat>, k: nat)
    requires Shape(b) && DeafOk(b, deaf) && b.pub.Visiting? && b.pub.i < |b.clients| && Listed(b)
    ensures var b' := Turn(b, deaf);
            && Listed(b') && (Ahead(b', b'.pub.i, k) <==> Ahead(b, b.pub.i, k) && k != b.clients[b.pub.i])
  {
    var i, b' := b.pub.i, Turn(b, deaf);
    TurnClients(b, deaf);
    if b'.clients == b.clients {
      if Ahead(b, i, k) && k != b.clients[i] { var p :| i <= p < |b.clients| && b.clients[p] == k; }
      if Ahead(b', i + 1, k) { var p :| i + 1 <= p < |b.clients| && b.clients[p] == k; }
    } else {
      SwapRemoved(b.clients, i, k);
    }
    hide Turn;
  }

  lemma {:induction false} TurnClients(b: Bus, deaf: set<nat>)
    requires Shape(b) && DeafOk(b, deaf) && b.pub.Visiting? && b.pub.i < |b.clients|
    ensures var b' := Turn(b, deaf);
            || (b'.clients == b.clients && b'.pub.i == b.pub.i + 1)
            || (b'.clients == SwapRemove(b.clients, b.pub.i) && b'.pub.i == b.pub.i)
  {
    hide SwapRemove;
  }

  lemma {:induction false} SwapRemoved(s: seq<nat>, i: nat, k: nat)
    requires i < |s| && forall p, q :: 0 <= p < q < |s| ==> s[p] != s[q]
    ensures var r := SwapRemove(s, i);
            && (forall p, q :: 0 <= p < q < |r| ==> r[p] != r[q])
            && ((exists p :: i <= p < |r| && r[p] == k) <==> (exists p :: i <= p < |s| && s[p] == k) && k != s[i])
  {
    var r, n := SwapRemove(s, i), |s| - 1;
    hide SwapRemove;
    if p :| i <= p < |s| && s[p] == k && k != s[i] {
      if p == n { assert r[i] == k; } else { assert r[p] == k; }
    }
    if p :| i <= p < |r| && r[p] == k {
      if p == i { assert s[n] == k; } else { assert s[p] == k; }
    }
  }

  /** A subscriber whose flag is down, or that is not to come any more, is left as it is by the rest of the
      broadcast. */
  lemma {:induction false} PassedOver(b: Bus, deaf: set<nat>, k: nat)
    requires Shape(b) && DeafOk(b, deaf) && b.pub.Visiting? && b.pub.i <= |b.clients| && Listed(b)
    requires EntryOk(b, k) && k !in deaf && b.holder[b.tenants[k].idx].Some?
    requires !b.flags[b.tenants[k].idx] || !Ahead(b, b.pub.i, k)
    ensures var end := Round(b, deaf).0;
            end.pub.Idle? && end.tail == b.tail && |end.tenants| == |b.tenants| && end.tenants[k] == b.tenants[k]
    decreases |b.clients| - b.pub.i
  {
    if b.pub.i < |b.clients| {
      TurnIs(b, deaf);
      TurnAhead(b, deaf, k);
      assert Ahead(b, b.pub.i, b.clients[b.pub.i]);
      hide Turn, Ahead, Listed;
      PassedOver(Turn(b, deaf), deaf, k);
    }
  }

  /** Who is woken, exactly: of an uninterrupted broadcast the client `k` with its flag up gets its token if and only
      if no other client of the same entry is visited before it. */
  lemma {:induction false} WokenIff(b: Bus, deaf: set<nat>, k: nat)
    requires Shape(b) && DeafOk(b, deaf) && b.pub.Visiting? && b.pub.i <= |b.clients| && Listed(b)
    requires EntryOk(b, k) && k !in deaf && b.holder[b.tenants[k].idx].Some? && b.flags[b.tenants[k].idx]
    requires Ahead(b, b.pub.i, k)
    ensures var (end, order) := Round(b, deaf);
            && end.pub.Idle? && end.tail == b.tail && |end.tenants| == |b.tenants|
            && end.tenants[k] == if Stolen(b.tenants, order, k) then b.tenants[k]
                                 else b.tenants[k].(tokens := b.tenants[k].tokens + 1)
    decreases |b.clients| - b.pub.i
  {
    var c, b' := b.clients[b.pub.i], Turn(b, deaf);
    TurnIs(b, deaf);
    TurnAhead(b, deaf, k);
    var order := Round(b', deaf).1;
    assert Round(b, deaf).1 == [c] + order && ([c] + order)[1..] == order;
    StolenOn(b.tenants, c, order, k);
    SameEntries(b.tenants, b'.tenants, order, k);
    hide Turn, Ahead, Listed, Stolen;
    if c == k || b.tenants[c].idx == b.tenants[k].idx {
      PassedOver(b', deaf, k);
    } else {
      WokenIff(b', deaf, k);
    }
  }

  lemma {:induction false} StolenOn(ts: seq<Tenant>, c: nat, order: seq<nat>, k: nat)
    requires c < |ts| && k < |ts|
    ensures Stolen(ts, [c] + order, k) <==> c != k && (ts[c].idx == ts[k].idx || Stolen(ts, order, k))
  {
    assert ([c] + order)[1..] == order;
  }

  lemma {:induction false} SameEntries(ts: seq<Tenant>, ts': seq<Tenant>, order: seq<nat>, k: nat)
    requires |ts'| == |ts| && forall m :: 0 <= m < |ts| ==> ts'[m].idx == ts[m].idx
    ensures Stolen(ts', order, k) == Stolen(ts, order, k)
  {
    if order != [] { SameEntries(ts, ts', order[1..], k); }
  }

  lemma {:induction false} RoundReaches(from: Bus, b: Bus, deaf: set<nat>)
    requires CanReach(from, b) && Shape(b) && DeafOk(b, deaf) && b.pub.Visiting? && b.pub.i <= |b.clients|
    ensures CanReach(from, Round(b, deaf).0)
    decreases |b.clients| - b.pub.i
  {
    if b.pub.i == |b.clients| {
      Go(from, b, Visit);
    } else {
      TurnReaches(from, b, deaf);
      hide CanReach, Turn;
      RoundReaches(from, Turn(b, deaf), deaf);
    }
  }

  lemma {:induction false} TurnReaches(from: Bus, b: Bus, deaf: set<nat>)
    requires CanReach(from, b) && Shape(b) && DeafOk(b, deaf) && b.pub.Visiting? && b.pub.i < |b.clients|
    ensures CanReach(from, Turn(b, deaf))
  {
    hide CanReach;
    var c := b.clients[b.pub.i];
    Go(from, b, Visit);
    var b1 := Next(b, Visit);
    if !b1.pub.Visiting? {
      Go(from, b1, Take);
      var b2 := Next(b1, Take);
      if !b2.pub.Visiting? { Go(from, b2, Wake(c !in deaf)); }
    }
  }

  /** The tail store and the start of the broadcast. */
  function Announced(b: Bus): Bus
    requires Shape(b) && b.pub.Idle?
  {
    Next(Next(b, Store), Begin)
  }

  // ── What holds in every run, reuse of entries included ──────────────────────

  /** Whoever is not gone holds its entry, and is not past the tail. */
  predicate TenantOk(b: Bus, k: nat)
    requires EntryOk(b, k)
  {
    var t := b.tenants[k];
    && (!t.pc.Gone? ==> b.holder[t.idx] == Some(k)) && t.cursor <= b.tail
    && (t.stage.Accepted? ==> t.stage.at <= b.tail)
  }

  predicate Loose(b: Bus) {
    Shape(b) && ListOk(b) && forall k :: 0 <= k < |b.tenants| ==> TenantOk(b, k)
  }

  lemma {:induction false} LooseReap(b: Bus, i: nat)
    requires Loose(b) && i < |b.clients| && b.tenants[b.clients[i]].pc.Gone?
    ensures Loose(Reap(b, i))
  {
    ReapList(b, i);
    var b' := Reap(b, i);
    hide ListOk;
    forall k | 0 <= k < |b'.tenants| ensures EntryOk(b', k) && TenantOk(b', k) { assert TenantOk(b, k); }
  }

  lemma {:induction false} LooseList(b: Bus, a: Action)
    requires Loose(b) && Enabled(b, a)
    requires !((a.Visit? && b.pub.i < |b.clients| && b.holder[b.tenants[b.clients[b.pub.i]].idx].None?) ||
      a == Wake(false))
    ensures Shape(Next(b, a)) && ListOk(Next(b, a))
  {
    hide TenantOk;
    if a.Accept? { LooseAccept(b, a.k); }
    else if a.Claim? { LooseClaim(b, a.entry); }
    else {
      assert SameStages(b, Next(b, a));
      hide Next;
      StagesKeep(b, Next(b, a));
    }
  }

  /** Nobody joins or leaves the list, and nobody's acceptance changes. */
  predicate SameStages(b: Bus, b': Bus) {
    && b'.clients == b.clients && |b'.tenants| == |b.tenants| && |b'.holder| == |b.holder| && |b'.flags| == |b.flags|
    && (b'.pub.Taking? || b'.pub.Waking? ==> b'.pub.i < |b.clients|)
    && forall k :: 0 <= k < |b.tenants| ==>
         && b'.tenants[k].idx == b.tenants[k].idx
         && (b'.tenants[k].stage.Accepted? <==> b.tenants[k].stage.Accepted?)
  }

  lemma {:induction false} StagesKeep(b: Bus, b': Bus)
    requires Shape(b) && ListOk(b) && SameStages(b, b')
    ensures Shape(b') && ListOk(b')
  {
  }

  lemma {:induction false} LooseAccept(b: Bus, k: nat)
    requires Shape(b) && ListOk(b) && Enabled(b, Accept(k))
    ensures Shape(Next(b, Accept(k))) && ListOk(Next(b, Accept(k)))
  {
    var b' := Next(b, Accept(k));
    assert b'.clients[|b.clients|] == k;
    forall m | m in b.clients ensures m in b'.clients {}
  }

  lemma {:induction false} LooseClaim(b: Bus, e: nat)
    requires Shape(b) && ListOk(b) && Enabled(b, Claim(e))
    ensures Shape(Next(b, Claim(e))) && ListOk(Next(b, Claim(e)))
  {
  }

  lemma {:induction false} LooseStep(b: Bus, a: Action)
    requires Loose(b) && Enabled(b, a)
    ensures Loose(Next(b, a))
  {
    if (a.Visit? && b.pub.i < |b.clients| && b.holder[b.tenants[b.clients[b.pub.i]].idx].None?) || a == Wake(false) {
      var c := b.clients[b.pub.i];
      assert TenantOk(b, c);
      LooseReap(b, b.pub.i);
    } else {
      LooseOther(b, a);
    }
  }

  /** A step that forgets no client. */
  lemma {:induction false} LooseOther(b: Bus, a: Action)
    requires Loose(b) && Enabled(b, a) && a != Wake(false)
    requires !(a.Visit? && b.pub.i < |b.clients| && b.holder[b.tenants[b.clients[b.pub.i]].idx].None?)
    ensures Loose(Next(b, a))
  {
    LooseList(b, a);
    hide ListOk, Reap, SwapRemove;
    if a.Drop? { assert TenantOk(b, a.k); }
    var b' := Next(b, a);
    forall k | 0 <= k < |b'.tenants| ensures EntryOk(b', k) && TenantOk(b', k) {
      if k < |b.tenants| { assert TenantOk(b, k); }
    }
  }

  lemma {:induction false} LooseRun(b: Bus, actions: seq<Action>, b': Bus)
    requires Loose(b) && Reaches(false, b, actions, b')
    ensures Loose(b')
    decreases |actions|
  {
    hide Loose, Enabled, Next, Shape;
    if actions != [] {
      LooseStep(b, actions[0]);
      LooseRun(Next(b, actions[0]), actions[1..], b');
    }
  }

  /** A publish that nobody interrupts, from any state of any run: a blocked subscriber without a token is left asleep
      on the new message if and only if its flag is down, or another client of its entry is visited before it.
      Otherwise it has the token that wakes it. */
  lemma {:induction false} PublishWakesIff(maxSubscribers: nat, actions: seq<Action>, b: Bus, deaf: set<nat>, k: nat)
    requires Reaches(false, Init(maxSubscribers), actions, b) && b.pub.Idle? && DeafOk(b, deaf) && k < |b.tenants|
    requires b.tenants[k].pc.Blocked? && b.tenants[k].tokens == 0 && b.tenants[k].stage.Accepted?
    ensures EntryOk(b, k) && Shape(b) && Shape(Announced(b))
    ensures Announced(b).pub == Visiting(0) && DeafOk(Announced(b), deaf)
    ensures var (end, order) := Round(Announced(b), deaf);
            var lost := !b.flags[b.tenants[k].idx] || Stolen(b.tenants, order, k);
            && CanReach(Init(maxSubscribers), end) && end.pub.Idle? && |end.tenants| == |b.tenants|
            && (Stranded(end, k) <==> lost) && (!lost ==> Enabled(end, TakeToken(k)))
  {
    hide CanReach, Ahead, Stolen, Next, Reaches, ListOk;
    LooseInit(maxSubscribers);
    LooseRun(Init(maxSubscribers), actions, b);
    assert TenantOk(b, k);
    ListedAll(b, k);
    RunIsReach(Init(maxSubscribers), actions, b);
    AnnouncedIs(Init(maxSubscribers), b, deaf, k);
    RoundReaches(Init(maxSubscribers), Announced(b), deaf);
    if b.flags[b.tenants[k].idx] { WokenIff(Announced(b), deaf, k); } else { PassedOver(Announced(b), deaf, k); }
  }

  lemma {:induction false} LooseInit(maxSubscribers: nat)
    ensures Loose(Init(maxSubscribers))
  {
  }

  lemma {:induction false} RunIsReach(b: Bus, actions: seq<Action>, b': Bus)
    requires Reaches(false, b, actions, b')
    ensures CanReach(b, b')
  {
  }

  lemma {:induction false} ListedAll(b: Bus, k: nat)
    requires ListOk(b) && k < |b.tenants| && b.tenants[k].stage.Accepted?
    ensures Listed(b) && k in b.clients
  {
  }

  /** Where entries are not reused early, a blocked subscriber without a token finds its flag up whenever the
      publisher is idle. */
  lemma {:induction false} CarefulFlagIsUp(maxSubscribers: nat, actions: seq<Action>, b: Bus, k: nat)
    requires Reaches(true, Init(maxSubscribers), actions, b) && b.pub.Idle? && k < |b.tenants|
    requires b.tenants[k].pc.Blocked? && b.tenants[k].tokens == 0
    ensures EntryOk(b, k) && b.flags[b.tenants[k].idx]
  {
    RunKeeps(Init(maxSubscribers), actions, b);
    assert FlagOk(b, k);
  }

  // ── A flag taken by an earlier broadcast ────────────────────────────────────

  /** Two entries: subscriber 0 on entry 1, and on entry 0 subscriber 1, which has left, and its successor 2. */
  function Trio(tail: nat, pub: Pub, flag: bool, tokens: nat, x: Pc, k: Pc, cursor: nat): Bus {
    Bus(tail, pub, [0, 1, 2], [flag, false], [Some(2), if x.Gone? then None else Some(0)],
        [Tenant(1, 0, x, 0, Accepted(0)), Tenant(0, 0, Gone, tokens, Accepted(0)),
          Tenant(0, cursor, k, 0, Accepted(0))])
  }

  lemma {:induction false} Enter(from: Bus, b: Bus, e: nat, k: nat) returns (b': Bus)
    requires CanReach(from, b) && Shape(b) && b.pub.Idle? && e < |b.holder| && b.holder[e].None? && k == |b.tenants|
    requires !b.flags[e] && b.tail == 0
    ensures CanReach(from, b') && Shape(b')
    ensures b' == b.(clients := b.clients + [k], holder := b.holder[e := Some(k)],
                     tenants := b.tenants + [Tenant(e, 0, Draining, 0, Accepted(0))])
  {
    hide CanReach, Reaches;
    Go(from, b, Claim(e));
    var b1 := Next(b, Claim(e));
    Go(from, b1, ClearStale(k));
    var b2 := Next(b1, ClearStale(k));
    assert b2.flags == b.flags;
    Go(from, b2, Connect(k, 0));
    var b3 := Next(b2, Connect(k, 0));
    Go(from, b3, Accept(k));
    b' := Next(b3, Accept(k));
    assert b'.tenants == b.tenants + [Tenant(e, 0, Draining, 0, Accepted(0))];
  }

  lemma {:induction false} TrioMeets() returns (b: Bus)
    ensures b == Trio(0, Idle, false, 0, Draining, Draining, 0) && CanReach(Init(2), b)
  {
    hide CanReach, Reaches, Shape, Enabled, Next;
    Stay(Init(2));
    b := TrioStart();
    var left := b.(tenants := b.tenants[1 := b.tenants[1].(pc := Gone)], holder := [None, Some(0)]);
    assert Shape(b) && Enabled(b, Drop(1)) && Next(b, Drop(1)) == left && Shape(left) by { DropsOut(b); }
    Go(Init(2), b, Drop(1));
    b := Enter(Init(2), left, 0, 2);
    assert b.tenants == Trio(0, Idle, false, 0, Draining, Draining, 0).tenants;
  }

  lemma {:induction false} DropsOut(b: Bus)
    requires Shape(b) && |b.tenants| == 2 && b.tenants[1].idx == 0 && b.tenants[1].pc.Draining?
    requires b.holder == [Some(1), Some(0)]
    ensures var left := b.(tenants := b.tenants[1 := b.tenants[1].(pc := Gone)], holder := [None, Some(0)]);
            Enabled(b, Drop(1)) && Next(b, Drop(1)) == left && Shape(left)
  {
  }

  lemma {:induction false} TrioStart() returns (b: Bus)
    ensures CanReach(Init(2), b) && Shape(b)
    ensures b == Bus(0, Idle, [0, 1], [false, false], [Some(1), Some(0)],
                     [Tenant(1, 0, Draining, 0, Accepted(0)), Tenant(0, 0, Draining, 0, Accepted(0))])
  {
    Stay(Init(2));
    hide CanReach, Reaches;
    assert Init(2).flags == [false, false] && Init(2).holder == [None, None];
    b := Enter(Init(2), Init(2), 1, 0);
    b := Enter(Init(2), b, 0, 1);
  }

  /** The other way to be left asleep, from the start: the broadcast of one message wakes a leftover of the entry just
      after its new tenant has read that message and gone to sleep. Once another client is reaped the tenant comes
      first in the next broadcast, which nevertheless passes it over. */
  lemma {:induction false} FlagSpentEarlier() returns (actions: seq<Action>, b: Bus)
    ensures Reaches(false, Init(2), actions, b) && b == Trio(1, Idle, false, 1, Gone, Blocked, 1)
    ensures Shape(Announced(b)) && Announced(b).pub == Visiting(0) && DeafOk(Announced(b), {})
    ensures var (end, order) := Round(Announced(b), {});
            && !Stolen(b.tenants, order, 2) && CanReach(Init(2), end) && end.pub.Idle?
            && |end.tenants| == 3 && Stranded(end, 2)
  {
    var b0 := TrioMeets();
    b := FlagSpent(b0);
    actions :| Reaches(false, Init(2), actions, b);
    hide Stolen, Round, Next, Reaches;
    PublishWakesIff(2, actions, b, {}, 2);
    ReapedFirst(b);
  }

  /** With subscriber 0 gone, its successor in the list is visited first, and then the leftover. */
  lemma {:induction false} ReapedFirst(b: Bus)
    requires b == Trio(1, Idle, false, 1, Gone, Blocked, 1)
    requires Shape(Announced(b)) && Announced(b).pub == Visiting(0) && DeafOk(Announced(b), {})
    ensures !Stolen(b.tenants, Round(Announced(b), {}).1, 2)
  {
    var b1 := Announced(b);
    var b2 := Turn(b1, {});
    assert b2.clients == [2, 1];
    assert Round(b1, {}).1 == [0] + Round(b2, {}).1;
    assert Round(b2, {}).1 == [2] + Round(Turn(b2, {}), {}).1;
    StolenOn(b.tenants, 0, Round(b2, {}).1, 2);
    StolenOn(b.tenants, 2, Round(Turn(b2, {}), {}).1, 2);
  }

  lemma {:induction false} Move(b: Bus, a: Action, b': Bus)
    requires CanReach(Init(2), b) && Shape(b) && Enabled(b, a) && Next(b, a) == b'
    ensures CanReach(Init(2), b')
  {
    Go(Init(2), b, a);
    hide CanReach;
  }

  lemma {:induction false} TrioAnnounce()
    requires CanReach(Init(2), Trio(0, Idle, false, 0, Draining, Draining, 0))
    ensures CanReach(Init(2), Trio(1, Visiting(1), false, 0, Draining, Draining, 0))
  {
    hide CanReach, Reaches;
    Move(Trio(0, Idle, false, 0, Draining, Draining, 0), Store, Trio(1, Stored, false, 0, Draining, Draining, 0));
    Move(Trio(1, Stored, false, 0, Draining, Draining, 0), Begin,
      Trio(1, Visiting(0), false, 0, Draining, Draining, 0));
    Move(Trio(1, Visiting(0), false, 0, Draining, Draining, 0), Visit,
      Trio(1, Taking(0), false, 0, Draining, Draining, 0));
    Move(Trio(1, Taking(0), false, 0, Draining, Draining, 0), Take,
      Trio(1, Visiting(1), false, 0, Draining, Draining, 0));
  }

  lemma {:induction false} TrioReadAndSleep()
    requires CanReach(Init(2), Trio(1, Visiting(1), false, 0, Draining, Draining, 0))
    ensures CanReach(Init(2), Trio(1, Visiting(1), true, 0, Draining, Blocked, 1))
  {
    hide CanReach, Reaches;
    Move(Trio(1, Visiting(1), false, 0, Draining, Draining, 0), Read(2, 1),
      Trio(1, Visiting(1), false, 0, Draining, Draining, 1));
    Move(Trio(1, Visiting(1), false, 0, Draining, Draining, 1), Arm(2),
      Trio(1, Visiting(1), true, 0, Draining, Flagged, 1));
    Move(Trio(1, Visiting(1), true, 0, Draining, Flagged, 1), Recheck(2),
      Trio(1, Visiting(1), true, 0, Draining, Blocked, 1));
  }

  lemma {:induction false} TrioWakeLeftover()
    requires CanReach(Init(2), Trio(1, Visiting(1), true, 0, Draining, Blocked, 1))
    ensures CanReach(Init(2), Trio(1, Visiting(2), false, 1, Draining, Blocked, 1))
  {
    hide CanReach, Reaches;
    Move(Trio(1, Visiting(1), true, 0, Draining, Blocked, 1), Visit, Trio(1, Taking(1), true, 0, Draining, Blocked, 1));
    Move(Trio(1, Taking(1), true, 0, Draining, Blocked, 1), Take, Trio(1, Waking(1), false, 0, Draining, Blocked, 1));
    Move(Trio(1, Waking(1), false, 0, Draining, Blocked, 1), Wake(true),
      Trio(1, Visiting(2), false, 1, Draining, Blocked, 1));
  }

  lemma {:induction false} TrioPassOver()
    requires CanReach(Init(2), Trio(1, Visiting(2), false, 1, Draining, Blocked, 1))
    ensures CanReach(Init(2), Trio(1, Idle, false, 1, Draining, Blocked, 1))
  {
    hide CanReach, Reaches;
    Move(Trio(1, Visiting(2), false, 1, Draining, Blocked, 1), Visit,
      Trio(1, Taking(2), false, 1, Draining, Blocked, 1));
    Move(Trio(1, Taking(2), false, 1, Draining, Blocked, 1), Take,
      Trio(1, Visiting(3), false, 1, Draining, Blocked, 1));
    Move(Trio(1, Visiting(3), false, 1, Draining, Blocked, 1), Visit, Trio(1, Idle, false, 1, Draining, Blocked, 1));
  }

  lemma {:induction false} TrioLeaveEntry()
    requires CanReach(Init(2), Trio(1, Idle, false, 1, Draining, Blocked, 1))
    ensures CanReach(Init(2), Trio(1, Idle, false, 1, Gone, Blocked, 1))
  {
    hide CanReach, Reaches;
    Move(Trio(1, Idle, false, 1, Draining, Blocked, 1), Drop(0), Trio(1, Idle, false, 1, Gone, Blocked, 1));
  }

  lemma {:induction false} FlagSpent(b0: Bus) returns (b: Bus)
    requires b0 == Trio(0, Idle, false, 0, Draining, Draining, 0) && CanReach(Init(2), b0)
    ensures b == Trio(1, Idle, false, 1, Gone, Blocked, 1) && CanReach(Init(2), b)
  {
    hide *;
    TrioAnnounce();
    TrioReadAndSleep();
    TrioWakeLeftover();
    TrioPassOver();
    TrioLeaveEntry();
    b := Trio(1, Idle, false, 1, Gone, Blocked, 1);
  }

  lemma {:induction false} AnnouncedIs(from: Bus, b: Bus, deaf: set<nat>, k: nat)
    requires CanReach(from, b) && Shape(b) && DeafOk(b, deaf) && b.pub.Idle? && k in b.clients
    ensures Announced(b) == b.(tail := b.tail + 1, pub := Visiting(0)) && CanReach(from, Announced(b))
    ensures Ahead(Announced(b), 0, k)
  {
    hide CanReach;
    Go(from, b, Store);
    Go(from, Next(b, Store), Begin);
    var p :| 0 <= p < |b.clients| && b.clients[p] == k;
  }

  /** Only clients still to come are visited. */
  lemma {:induction false} OrderFromClients(b: Bus, deaf: set<nat>, m: nat)
    requires Shape(b) && DeafOk(b, deaf) && b.pub.Visiting? && b.pub.i <= |b.clients| && Listed(b)
    requires m in Round(b, deaf).1
    ensures Ahead(b, b.pub.i, m)
    decreases |b.clients| - b.pub.i
  {
    var c := b.clients[b.pub.i];
    assert Ahead(b, b.pub.i, c);
    if m != c {
      TurnAhead(b, deaf, m);
      hide Turn, Ahead, Listed;
      OrderFromClients(Turn(b, deaf), deaf, m);
    }
  }

  lemma {:induction false} NotStolen(ts: seq<Tenant>, order: seq<nat>, k: nat)
    requires forall m :: m in order && m != k && m < |ts| && k < |ts| ==> ts[m].idx != ts[k].idx
    ensures !Stolen(ts, order, k)
  {
    if order != [] {
      assert order[0] in order;
      forall m | m in order[1..] ensures m in order {}
      NotStolen(ts, order[1..], k);
    }
  }

  /** Where entries are not reused early, no wakeup is stolen. */
  lemma {:induction false} CarefulIsNeverStolen(b: Bus, deaf: set<nat>, k: nat)
    requires Inv(b) && DeafOk(b, deaf) && b.pub.Visiting? && b.pub.i <= |b.clients| && k in b.clients
    ensures !Stolen(b.tenants, Round(b, deaf).1, k)
  {
    var order := Round(b, deaf).1;
    forall m | m in order && m != k && m < |b.tenants| ensures b.tenants[m].idx != b.tenants[k].idx {
      OrderFromClients(b, deaf, m);
    }
    hide FlagOk, VisitOk;
    NotStolen(b.tenants, order, k);
  }

  // ── Who is not woken ────────────────────────────────────────────────────────

  /** Whoever is alive holds its entry, and whoever is reading has its flag down. */
  predicate Quiet(b: Bus) {
    && Shape(b)
    && forall k :: 0 <= k < |b.tenants| && !b.tenants[k].pc.Gone? ==>
         b.holder[b.tenants[k].idx] == Some(k) && (b.tenants[k].pc.Draining? ==> !b.flags[b.tenants[k].idx])
  }

  predicate ByPublisher(a: Action) { a.Accept? || a.Store? || a.Begin? || a.Visit? || a.Take? || a.Wake? }

  lemma {:induction false} QuietPublisher(b: Bus, a: Action)
    requires Quiet(b) && Enabled(b, a) && ByPublisher(a)
    ensures Quiet(Next(b, a))
  {
  }

  lemma {:induction false} QuietSubscriber(b: Bus, a: Action)
    requires Quiet(b) && Enabled(b, a) && !ByPublisher(a)
    ensures Quiet(Next(b, a))
  {
    hide SwapRemove, Reap;
  }

  lemma {:induction false} QuietStep(b: Bus, a: Action)
    requires Quiet(b) && Enabled(b, a)
    ensures Quiet(Next(b, a))
  {
    hide *;
    if ByPublisher(a) { QuietPublisher(b, a); } else { QuietSubscriber(b, a); }
  }

  lemma {:induction false} QuietRun(b: Bus, actions: seq<Action>, b': Bus)
    requires Quiet(b) && Reaches(false, b, actions, b')
    ensures Quiet(b')
    decreases |actions|
  {
    hide Quiet, Next, Enabled;
    if actions != [] {
      QuietStep(b, actions[0]);
      QuietRun(Next(b, actions[0]), actions[1..], b');
    }
  }

  /** What the flag is for: in every run, whatever is reused, a subscriber that is reading has its flag down, so the
      broadcast passes it over and wakes nobody for it. */
  lemma {:induction false} ReadingIsNotWoken(maxSubscribers: nat, actions: seq<Action>, b: Bus, k: nat)
    requires Reaches(false, Init(maxSubscribers), actions, b) && At(b, k, Draining)
    ensures Shape(b) && !b.flags[b.tenants[k].idx]
    ensures Enabled(b, Take) && b.clients[b.pub.i] == k ==> Next(b, Take) == b.(pub := Visiting(b.pub.i + 1))
  {
    QuietRun(Init(maxSubscribers), actions, b);
    hide Reaches;
    if Enabled(b, Take) && b.clients[b.pub.i] == k {
      assert b.flags[b.tenants[k].idx := false] == b.flags;
    }
  }

  /** A sleep ends by a wakeup that was sent to it, which it uses up, or by its time running out; and only the
      publisher's wakeup adds one. */
  lemma {:induction false} SleepEnds(b: Bus, a: Action, k: nat)
    requires Shape(b) && Enabled(b, a) && k < |b.tenants| <= |Next(b, a).tenants|
    ensures var t, t' := b.tenants[k], Next(b, a).tenants[k];
            && t'.tokens == t.tokens + (if a == Wake(true) && b.clients[b.pub.i] == k then 1 else 0)
                            - (if a == TakeToken(k) then 1 else 0)
            && (t.pc.Blocked? ==>
                  t'.pc == if a == TakeToken(k) || a == TimeOut(k) then Clearing
                           else if a == Die(k) then Gone else Blocked)
  {
    hide SwapRemove;
  }
}
