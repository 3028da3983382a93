/**
 The multi-session relay around its sub-connections: every slot is visited in turn, and a connect
 request takes a slot, reclaiming or evicting one when it has to, within a budget of sockets.
 */
module RelayLoop {
  import opened Wrappers
  import opened RelayStream
  import opened RelaySub

  const GRACE_MS: nat := 10000
  const NEVER: nat := UINT32 - 1

  function ActiveCount(subs: seq<Sub>): (n: nat)
    ensures n <= |subs|
  {
    if subs == [] then 0
    else ActiveCount(subs[..|subs| - 1]) + if subs[|subs| - 1].active then 1 else 0
  }

  /** Sockets in use: the control socket, and two for each active sub-connection. */
  function Sockets(subs: seq<Sub>): nat {
    1 + 2 * ActiveCount(subs)
  }

  lemma {:induction false} CountAfter(subs: seq<Sub>, i: nat, s: Sub)
    requires i < |subs|
    ensures ActiveCount(subs[i := s])
         == ActiveCount(subs) - (if subs[i].active then 1 else 0) + (if s.active then 1 else 0)
  {
    var n := |subs| - 1;
    if i == n {
      assert subs[i := s][..n] == subs[..n];
    } else {
      CountAfter(subs[..n], i, s);
      assert subs[i := s][..n] == subs[..n][i := s];
    }
  }

  lemma {:induction false} CountShrinks(subs: seq<Sub>, fewer: seq<Sub>)
    requires |subs| == |fewer|
    requires forall i :: 0 <= i < |subs| && fewer[i].active ==> subs[i].active
    ensures ActiveCount(fewer) <= ActiveCount(subs)
  {
    if subs != [] {
      CountShrinks(subs[..|subs| - 1], fewer[..|subs| - 1]);
    }
  }

  /** A connect request with all that the sockets, the heap and the key decoding answer to it. */
  datatype Request = Request(
    now: nat,
    bothClosed: seq<bool>,   // per slot: nothing to read and the peer gone, on both sockets
    waiting: seq<bool>,      // per slot: data waiting on either socket
    heapLow: bool,
    usable: bool,            // keys decode, and both sockets connect and authenticate
    c2d: Option<Key>,
    d2c: Option<Key>)

  predicate RequestFits(q: Request, n: nat) {
    |q.bothClosed| == n && |q.waiting| == n && KeyOk(q.c2d) && KeyOk(q.d2c)
  }

  predicate Reclaimable(s: Sub, closed: bool) {
    s.active && !s.draining && closed
  }

  predicate Evictable(s: Sub, waiting: bool, now: nat) {
    s.active && !waiting && Elapsed(now, s.lastActivity) > GRACE_MS
  }

  function Reclaimed(subs: seq<Sub>, q: Request): (r: seq<Sub>)
    requires RequestFits(q, |subs|)
  {
    seq(|subs|, i requires 0 <= i < |subs| =>
      if Reclaimable(subs[i], q.bothClosed[i]) then Closed(subs[i]) else subs[i])
  }

  /** The slot with the smallest activity stamp among those that may be evicted, the first of equals. */
  predicate IsVictim(subs: seq<Sub>, q: Request, v: nat)
    requires RequestFits(q, |subs|)
  {
    && v < |subs| && Evictable(subs[v], q.waiting[v], q.now)
    && forall j :: 0 <= j < |subs| && Evictable(subs[j], q.waiting[j], q.now) ==>
      subs[v].lastActivity <= subs[j].lastActivity && (j < v ==> subs[v].lastActivity < subs[j].lastActivity)
  }

  /** No slot may be evicted; one stamped with the largest time is never seen to be evictable. */
  predicate NoVictim(subs: seq<Sub>, q: Request)
    requires RequestFits(q, |subs|)
  {
    forall j :: 0 <= j < |subs| && Evictable(subs[j], q.waiting[j], q.now) ==> subs[j].lastActivity >= NEVER
  }

  predicate StampsFit(subs: seq<Sub>, now: nat) {
    now < UINT32 && forall j :: 0 <= j < |subs| ==> subs[j].lastActivity < UINT32
  }

  /**
   The slot that makes way is the longest idle exactly when the clock has wrapped since it was last active, or hasn't
   since any was that may be evicted.
   */
  lemma {:induction false} VictimIsLongestIdle(subs: seq<Sub>, q: Request, v: nat)
    requires RequestFits(q, |subs|) && StampsFit(subs, q.now) && IsVictim(subs, q, v)
    ensures (forall j :: 0 <= j < |subs| && Evictable(subs[j], q.waiting[j], q.now) ==>
               Elapsed(q.now, subs[j].lastActivity) <= Elapsed(q.now, subs[v].lastActivity))
      <==>
            (subs[v].lastActivity > q.now
             || forall j :: 0 <= j < |subs| && Evictable(subs[j], q.waiting[j], q.now) ==>
               subs[j].lastActivity <= q.now)
  {
    forall j | 0 <= j < |subs| {
      StampOrder(q.now, subs[v].lastActivity, subs[j].lastActivity);
    }
  }

  /** Of two stamps, the smaller has been idle at least as long, unless only the larger is of before the wrap. */
  lemma {:induction false} StampOrder(now: nat, smaller: nat, larger: nat)
    requires now < UINT32 && smaller < UINT32 && larger < UINT32
    ensures smaller <= larger ==>
      (Elapsed(now, larger) <= Elapsed(now, smaller) <==> smaller > now || larger <= now)
  {}

  /** A slot idle for 11 s makes way for one that has been idle for 32 s, as the clock wrapped 12 s ago. */
  lemma {:induction false} ShorterIdleIsTaken(s: Sub)
    ensures var a, b := s.(active := true, lastActivity := 1000), s.(active := true, lastActivity := UINT32 - 20000);
      var q := Request(12000, [false, false], [false, false], false, true, None, None);
      && IsVictim([a, b], q, 0) && Evictable(b, false, q.now)
      && Elapsed(q.now, a.lastActivity) == 11000 && Elapsed(q.now, b.lastActivity) == 32000
  {}

  predicate AllActive(subs: seq<Sub>) {
    forall i :: 0 <= i < |subs| ==> subs[i].active
  }

  predicate OverBudget(subs: seq<Sub>, maxSockets: nat) {
    Sockets(subs) + 2 > maxSockets
  }

  /** Which slot makes way: over the budget at once, and with every slot taken once the heap allows it. */
  predicate Evicts(m: seq<Sub>, q: Request, maxSockets: nat) {
    OverBudget(m, maxSockets) || (AllActive(m) && !(q.heapLow && ActiveCount(m) > 0))
  }

  function Evicted(m: seq<Sub>, victim: int): seq<Sub>
    requires victim < |m|
  {
    if victim < 0 then m else m[victim := Closed(m[victim])]
  }

  /** All that a connect request may do: victim and slot are negative when there is none. */
  ghost predicate ConnectStep(a: seq<Sub>, b: seq<Sub>, q: Request, maxSockets: nat, victim: int, slot: int)
    requires RequestFits(q, |a|)
  {
    var m := Reclaimed(a, q);
    && victim < |m|
    && (if Evicts(m, q, maxSockets) && !NoVictim(m, q) then victim >= 0 && IsVictim(m, q, victim) else victim < 0)
    && var e := Evicted(m, victim);
    // refused exactly when there is no room, no heap to spare, or no way to connect
    && (slot < 0 <==>
        || (OverBudget(m, maxSockets) && victim < 0)
        || (q.heapLow && ActiveCount(e) > 0)
        || AllActive(e)
        || !q.usable)
    && (if slot < 0 then b == e
        else
          && slot < |e|
          && !e[slot].active && (forall j :: 0 <= j < slot ==> e[j].active)
          && b == e[slot := Connected(e[slot], q.c2d, q.d2c, q.now)])
  }

  /** The active slot with the smallest stamp, the first of equals; one stamped with the largest time is never seen. */
  predicate IsOldest(subs: seq<Sub>, v: nat) {
    && v < |subs| && subs[v].active && subs[v].lastActivity < NEVER
    && forall j :: 0 <= j < |subs| && subs[j].active ==>
      subs[v].lastActivity <= subs[j].lastActivity && (j < v ==> subs[v].lastActivity < subs[j].lastActivity)
  }

  lemma {:induction false} OldestIsLongestIdle(subs: seq<Sub>, now: nat, v: nat)
    requires StampsFit(subs, now) && IsOldest(subs, v)
    ensures (forall j :: 0 <= j < |subs| && subs[j].active ==>
               Elapsed(now, subs[j].lastActivity) <= Elapsed(now, subs[v].lastActivity))
      <==>
            (subs[v].lastActivity > now
             || forall j :: 0 <= j < |subs| && subs[j].active ==> subs[j].lastActivity <= now)
  {
    forall j | 0 <= j < |subs| {
      StampOrder(now, subs[v].lastActivity, subs[j].lastActivity);
    }
  }

  predicate NoOldest(subs: seq<Sub>) {
    forall j :: 0 <= j < |subs| && subs[j].active ==> subs[j].lastActivity >= NEVER
  }

  /** When the heap is all but gone a slot is closed however busy it is; victim is negative when there is none. */
  ghost predicate CriticalStep(a: seq<Sub>, b: seq<Sub>, victim: int) {
    && victim < |a|
    && (if NoOldest(a) then victim < 0 else victim >= 0 && IsOldest(a, victim))
    && b == Evicted(a, victim)
  }

  predicate VisitsFit(a: seq<Sub>, vs: seq<Visit>) {
    |vs| == |a| && forall i :: 0 <= i < |a| ==> a[i].active ==> VisitPossible(a[i], vs[i])
  }

  ghost predicate VisitStep(a: seq<Sub>, b: seq<Sub>, vs: seq<Visit>)
    requires VisitsFit(a, vs)
  {
    |b| == |a| && forall i :: 0 <= i < |a| ==> b[i] == Visited(a[i], vs[i])
  }

  /** What holds between any two steps of the loop. */
  ghost predicate LoopOk(subs: seq<Sub>, maxSockets: nat) {
    && (forall i :: 0 <= i < |subs| ==> SubOk(subs[i]))
    && Sockets(subs) <= maxSockets
  }

  lemma {:induction false} VisitStepOk(a: seq<Sub>, b: seq<Sub>, vs: seq<Visit>, maxSockets: nat)
    requires LoopOk(a, maxSockets) && VisitsFit(a, vs) && VisitStep(a, b, vs)
    ensures LoopOk(b, maxSockets)
  {
    hide SubOk, Visited, VisitPossible;
    forall i | 0 <= i < |a| ensures SubOk(b[i]) && (b[i].active ==> a[i].active) {
      VisitedOk(a[i], vs[i]);
      VisitKeepsClosed(a[i], vs[i]);
    }
    CountShrinks(a, b);
  }

  lemma {:induction false} VisitKeepsClosed(s: Sub, v: Visit)
    requires s.active ==> VisitPossible(s, v)
    ensures !s.active ==> Visited(s, v) == s
  {}

  /** A connect keeps every flow right and the sockets within the budget, whatever it reclaims or evicts. */
  lemma {:induction false} ConnectStepOk(
    a: seq<Sub>, b: seq<Sub>, q: Request, maxSockets: nat, victim: int, slot: int)
    requires LoopOk(a, maxSockets) && RequestFits(q, |a|) && ConnectStep(a, b, q, maxSockets, victim, slot)
    ensures LoopOk(b, maxSockets)
  {
    hide SubOk, NoVictim;
    var m := Reclaimed(a, q);
    ReclaimedOk(a, q, maxSockets);
    EvictedOk(m, victim, maxSockets);
    if slot >= 0 {
      var e := Evicted(m, victim);
      CountAfter(e, slot, b[slot]);
      ConnectedOk(e[slot], q.c2d, q.d2c, q.now);
      BudgetAllows(m, e, victim, maxSockets);
    }
  }

  lemma {:induction false} ClosedOk(s: Sub)
    ensures SubOk(Closed(s)) && !Closed(s).active
  {}

  lemma {:induction false} ReclaimedOk(a: seq<Sub>, q: Request, maxSockets: nat)
    requires LoopOk(a, maxSockets) && RequestFits(q, |a|)
    ensures LoopOk(Reclaimed(a, q), maxSockets)
  {
    hide SubOk;
    forall i | 0 <= i < |a| ensures SubOk(Reclaimed(a, q)[i]) {
      ClosedOk(a[i]);
    }
    CountShrinks(a, Reclaimed(a, q));
  }

  lemma {:induction false} EvictedOk(m: seq<Sub>, victim: int, maxSockets: nat)
    requires LoopOk(m, maxSockets) && victim < |m|
    ensures LoopOk(Evicted(m, victim), maxSockets)
  {
    hide SubOk;
    if victim >= 0 {
      ClosedOk(m[victim]);
      CountAfter(m, victim, Closed(m[victim]));
    }
  }

  /** Closing an active slot makes room for another. */
  lemma {:induction false} BudgetAllows(m: seq<Sub>, e: seq<Sub>, victim: int, maxSockets: nat)
    requires victim < |m| && e == Evicted(m, victim) && Sockets(m) <= maxSockets
    requires victim < 0 ==> !OverBudget(m, maxSockets)
    requires victim >= 0 ==> m[victim].active
    ensures Sockets(e) + 2 <= maxSockets
  {
    if victim >= 0 {
      CountAfter(m, victim, Closed(m[victim]));
    }
  }

  /** Only slots whose peers are gone, or that were idle beyond the grace period, are ever closed by a connect. */
  lemma {:induction false} ConnectSparesBusySubs(
    a: seq<Sub>, b: seq<Sub>, q: Request, maxSockets: nat, victim: int, slot: int, i: nat)
    requires RequestFits(q, |a|) && ConnectStep(a, b, q, maxSockets, victim, slot)
    requires i < |a| && a[i].active && !Reclaimable(a[i], q.bothClosed[i])
    requires q.waiting[i] || Elapsed(q.now, a[i].lastActivity) <= GRACE_MS
    ensures b[i] == a[i]
  {}

  /** Two sockets are left, and a slot for them. */
  predicate Room(m: seq<Sub>, maxSockets: nat) {
    1 + 2 * ActiveCount(m) + 2 <= maxSockets && exists i :: 0 <= i < |m| && !m[i].active
  }

  predicate Idle(s: Sub, waiting: bool, now: nat) {
    s.active && !waiting && Elapsed(now, s.lastActivity) > GRACE_MS && s.lastActivity < NEVER
  }

  /** Some slot may make way. */
  predicate SomeIdle(m: seq<Sub>, q: Request)
    requires RequestFits(q, |m|)
  {
    exists i :: 0 <= i < |m| && Idle(m[i], q.waiting[i], q.now)
  }

  lemma {:induction false} VictimIffIdle(m: seq<Sub>, q: Request)
    requires RequestFits(q, |m|)
    ensures !NoVictim(m, q) <==> SomeIdle(m, q)
  {
    if !NoVictim(m, q) {
      var i :| 0 <= i < |m| && Evictable(m[i], q.waiting[i], q.now) && m[i].lastActivity < NEVER;
      assert Idle(m[i], q.waiting[i], q.now);
    }
    if SomeIdle(m, q) {
      var i :| 0 <= i < |m| && Idle(m[i], q.waiting[i], q.now);
      assert Evictable(m[i], q.waiting[i], q.now) && m[i].lastActivity < NEVER;
    }
  }

  /**
   A connect makes an idle slot give way exactly when the sockets are short, or all slots are taken and the heap is not
   the reason to refuse.
   */
  lemma {:induction false} EvictsExactly(
    a: seq<Sub>, b: seq<Sub>, q: Request, maxSockets: nat, victim: int, slot: int)
    requires RequestFits(q, |a|) && ConnectStep(a, b, q, maxSockets, victim, slot)
    ensures var m := Reclaimed(a, q);
      && (victim >= 0 <==>
            && SomeIdle(m, q)
            && (|| 1 + 2 * ActiveCount(m) + 2 > maxSockets
                || ((forall i :: 0 <= i < |m| ==> m[i].active) && !(q.heapLow && ActiveCount(m) > 0))))
      && (victim >= 0 ==> victim < |m| && Idle(m[victim], q.waiting[victim], q.now))
  {
    VictimIffIdle(Reclaimed(a, q), q);
  }

  /**
   A connect is served exactly when its sockets can be connected, there is room or an idle slot to give way, and the
   heap is not low, or no other slot is active then; and it is served with a slot that has just that connection.
   */
  lemma {:induction false} ServedExactly(
    a: seq<Sub>, b: seq<Sub>, q: Request, maxSockets: nat, victim: int, slot: int)
    requires RequestFits(q, |a|) && ConnectStep(a, b, q, maxSockets, victim, slot)
    requires forall i :: 0 <= i < |a| ==> SubOk(a[i])
    ensures var m := Reclaimed(a, q);
      slot >= 0 <==>
        && q.usable && (Room(m, maxSockets) || SomeIdle(m, q))
        && (q.heapLow ==> ActiveCount(m) <= if victim >= 0 then 1 else 0)
    ensures slot >= 0 ==>
      && slot < |b| && b[slot].active && b[slot].toLocal == Opened(q.c2d) && b[slot].toRvd == Opened(q.d2c)
      && b[slot].lastActivity == q.now && (slot == victim || !Reclaimed(a, q)[slot].active)
  {
    var m := Reclaimed(a, q);
    VictimIffIdle(m, q);
    var e := Evicted(m, victim);
    if victim >= 0 {
      CountAfter(m, victim, Closed(m[victim]));
      ClosedOk(m[victim]);
      assert !e[victim].active;
    }
    if slot >= 0 {
      ClosedOk(a[slot]);
      ClosedOk(m[slot]);
      ConnectedOk(e[slot], q.c2d, q.d2c, q.now);
    }
    hide SubOk, NoVictim, SomeIdle, IsVictim, Connected;
  }

  /** A connect closes only what it reclaims or evicts, and changes no other slot but the one it takes. */
  lemma {:induction false} ConnectChangesOnly(
    a: seq<Sub>, b: seq<Sub>, q: Request, maxSockets: nat, victim: int, slot: int, i: nat)
    requires RequestFits(q, |a|) && ConnectStep(a, b, q, maxSockets, victim, slot) && i < |a| && i != slot
    ensures |b| == |a|
    ensures b[i].active <==>
      a[i].active && i != victim && !(q.bothClosed[i] && !a[i].draining)
    ensures b[i].active ==> b[i] == a[i]
  {
    hide NoVictim, IsVictim, Connected, ActiveCount;
  }

  /** For want of heap a slot is closed if one is active whose stamp isn't the largest; it has the smallest. */
  lemma {:induction false} HeapEvictsExactly(a: seq<Sub>, b: seq<Sub>, victim: int)
    requires CriticalStep(a, b, victim)
    ensures victim >= 0 <==> exists i :: 0 <= i < |a| && a[i].active && a[i].lastActivity < NEVER
    ensures |b| == |a|
    ensures forall i :: 0 <= i < |a| ==>
      && (i != victim ==> b[i] == a[i])
      && (i == victim ==> a[i].active && !b[i].active)
      && (victim >= 0 && a[i].active ==> a[victim].lastActivity <= a[i].lastActivity)
  {}

  datatype Event = Visits(vs: seq<Visit>) | Connect(q: Request, victim: int, slot: int) | Critical(victim: int)

  ghost predicate Step(a: seq<Sub>, ev: Event, b: seq<Sub>, maxSockets: nat) {
    match ev
    case Visits(vs) => VisitsFit(a, vs) && VisitStep(a, b, vs)
    case Connect(q, victim, slot) => RequestFits(q, |a|) && ConnectStep(a, b, q, maxSockets, victim, slot)
    case Critical(victim) => CriticalStep(a, b, victim)
  }

  ghost predicate Run(states: seq<seq<Sub>>, events: seq<Event>, maxSockets: nat) {
    && |states| == |events| + 1
    && (forall i :: 0 <= i < |states[0]| ==> SubOk(states[0][i]) && !states[0][i].active)
    && forall k :: 0 <= k < |events| ==> Step(states[k], events[k], states[k + 1], maxSockets)
  }

  lemma {:induction false} NoneActive(subs: seq<Sub>)
    requires forall i :: 0 <= i < |subs| ==> !subs[i].active
    ensures ActiveCount(subs) == 0
  {
    if subs != [] {
      NoneActive(subs[..|subs| - 1]);
    }
  }

  /**
   In every state of every run, over slot reuse, partial writes and drains: each open flow's accepted
   bytes are a prefix of the transform of what was read, and with the parked ones all of it unless a
   write has failed, in which case the sub-connection is draining; and the sockets fit the budget.
   */
  lemma {:induction false} EveryReachableStateOk(
    states: seq<seq<Sub>>, events: seq<Event>, maxSockets: nat, k: nat)
    requires maxSockets >= 1 && Run(states, events, maxSockets) && k <= |events|
    ensures Sockets(states[k]) <= maxSockets
    ensures forall i :: 0 <= i < |states[k]| && states[k][i].active ==>
      var s := states[k][i];
      && FlowOk(s.toLocal) && FlowOk(s.toRvd)
      && (!s.draining ==> !s.toLocal.dead && !s.toRvd.dead)
  {
    ReachableOk(states, events, maxSockets, k);
    hide FlowOk;
  }

  lemma {:induction false} ReachableOk(states: seq<seq<Sub>>, events: seq<Event>, maxSockets: nat, k: nat)
    requires maxSockets >= 1 && Run(states, events, maxSockets) && k <= |events|
    ensures LoopOk(states[k], maxSockets)
  {
    hide SubOk, ConnectStep, VisitStep;
    if k == 0 {
      NoneActive(states[0]);
    } else {
      ReachableOk(states, events, maxSockets, k - 1);
      var a, b := states[k - 1], states[k];
      assert Step(a, events[k - 1], b, maxSockets);
      match events[k - 1]
      case Visits(vs) => VisitStepOk(a, b, vs, maxSockets);
      case Connect(q, victim, slot) => ConnectStepOk(a, b, q, maxSockets, victim, slot);
      case Critical(victim) => EvictedOk(a, victim, maxSockets);
    }
  }

  /** The slots, an array that lives as long as the relay. */
  class Relay {
    const subs: array<Sub>
    const maxSockets: nat

    constructor (n: nat, maxSockets: nat, blank: Sub)
      requires !blank.active && SubOk(blank) && maxSockets >= 1
      ensures fresh(subs) && subs.Length == n && this.maxSockets == maxSockets
      ensures LoopOk(subs[..], maxSockets)
    {
      subs := new Sub[n](_ => blank);
      this.maxSockets := maxSockets;
      new;
      NoneActive(subs[..]);
    }

    method FindEvictable(q: Request) returns (victim: int)
      requires RequestFits(q, subs.Length)
      ensures victim < 0 ==> NoVictim(subs[..], q)
      ensures victim >= 0 ==> IsVictim(subs[..], q, victim) && !NoVictim(subs[..], q)
    {
      victim := -1;
      var oldest := NEVER;
      for i := 0 to subs.Length
        invariant victim < i
        invariant oldest == if victim < 0 then NEVER else subs[victim].lastActivity
        invariant victim >= 0 ==> Evictable(subs[victim], q.waiting[victim], q.now) && oldest < NEVER
        invariant forall j :: 0 <= j < i && Evictable(subs[j], q.waiting[j], q.now) ==>
          oldest <= subs[j].lastActivity && (j < victim ==> oldest < subs[j].lastActivity)
      {
        var idle := Elapsed(q.now, subs[i].lastActivity);
        if !subs[i].active || (subs[i].bytesOut == 0 && idle < GRACE_MS) || q.waiting[i] {
          continue;
        }
        if idle > GRACE_MS && subs[i].lastActivity < oldest {
          oldest, victim := subs[i].lastActivity, i;
        }
      }
      assert victim >= 0 ==> Evictable(subs[..][victim], q.waiting[victim], q.now);
    }

    method FindOldest() returns (victim: int)
      ensures victim < 0 ==> NoOldest(subs[..])
      ensures victim >= 0 ==> IsOldest(subs[..], victim)
    {
      victim := -1;
      var oldest := NEVER;
      for i := 0 to subs.Length
        invariant victim < i
        invariant oldest == if victim < 0 then NEVER else subs[victim].lastActivity
        invariant victim >= 0 ==> subs[victim].active && oldest < NEVER
        invariant forall j :: 0 <= j < i && subs[j].active ==>
          oldest <= subs[j].lastActivity && (j < victim ==> oldest < subs[j].lastActivity)
      {
        if subs[i].active && subs[i].lastActivity < oldest {
          oldest, victim := subs[i].lastActivity, i;
        }
      }
    }

    /** Closes a slot when the heap is all but gone. */
    method RelieveHeap(q: Request) returns (victim: int)
      requires RequestFits(q, subs.Length)
      modifies subs
      ensures CriticalStep(old(subs[..]), subs[..], victim)
    {
      victim := FindOldest();
      if victim < 0 {
        victim := FindEvictable(q);
      }
      if victim >= 0 {
        subs[victim] := Closed(subs[victim]);
      }
    }

    method CountActive() returns (n: nat)
      ensures n == ActiveCount(subs[..])
    {
      n := 0;
      for i := 0 to subs.Length
        invariant n == ActiveCount(subs[..i])
      {
        assert subs[..i + 1][..i] == subs[..i];
        n := n + if subs[i].active then 1 else 0;
      }
      assert subs[..subs.Length] == subs[..];
    }

    method FindFree() returns (slot: int)
      ensures slot < 0 ==> AllActive(subs[..])
      ensures slot >= 0 ==>
        slot < subs.Length && !subs[slot].active && forall j :: 0 <= j < slot ==> subs[j].active
    {
      slot := 0;
      while slot < subs.Length && subs[slot].active
        invariant 0 <= slot <= subs.Length
        invariant forall j :: 0 <= j < slot ==> subs[j].active
      {
        slot := slot + 1;
      }
      if slot == subs.Length {
        slot := -1;
      }
    }

    method Reclaim(q: Request)
      requires RequestFits(q, subs.Length)
      modifies subs
      ensures subs[..] == Reclaimed(old(subs[..]), q)
    {
      for i := 0 to subs.Length
        invariant forall j :: 0 <= j < i ==> subs[j] == Reclaimed(old(subs[..]), q)[j]
        invariant forall j :: i <= j < subs.Length ==> subs[j] == old(subs[j])
      {
        if subs[i].active && !subs[i].draining && q.bothClosed[i] {
          subs[i] := Closed(subs[i]);
        }
      }
    }

    /** Handles a connect request; slot is the one now in use, and victim the one that made way. */
    method HandleConnect(q: Request) returns (victim: int, slot: int)
      requires RequestFits(q, subs.Length)
      modifies subs
      ensures victim < subs.Length && ConnectStep(old(subs[..]), subs[..], q, maxSockets, victim, slot)
    {
      Reclaim(q);
      ghost var m := subs[..];
      victim, slot := -1, -1;
      var n := CountActive();
      if 1 + 2 * n + 2 > maxSockets {
        victim := FindEvictable(q);
        if victim < 0 {
          return;
        }
        subs[victim] := Closed(subs[victim]);
      }
      assert subs[..] == Evicted(m, victim);
      assert victim >= 0 ==> !subs[victim].active;
      if q.heapLow {
        n := CountActive();
        if n > 0 {
          return;
        }
      }
      slot := FindFree();
      if slot < 0 {
        assert victim < 0;
        victim := FindEvictable(q);
        if victim < 0 {
          return;
        }
        subs[victim] := Closed(subs[victim]);
        slot := victim;
      }
      assert subs[..] == Evicted(m, victim);
      if !q.usable {
        slot := -1;
        return;
      }
      subs[slot] := Connected(subs[slot], q.c2d, q.d2c, q.now);
    }

    /** One round of the loop over the slots. */
    method VisitAll(vs: seq<Visit>)
      requires VisitsFit(subs[..], vs)
      modifies subs
      ensures VisitStep(old(subs[..]), subs[..], vs)
    {
      hide Visited, VisitPossible;
      for i := 0 to subs.Length
        invariant forall j :: 0 <= j < i ==> subs[j] == Visited(old(subs[j]), vs[j])
        invariant forall j :: i <= j < subs.Length ==> subs[j] == old(subs[j])
      {
        assert subs[i] == old(subs[..])[i];
        subs[i] := Visited(subs[i], vs[i]);
      }
    }
  }

  /** How many sub-connections each of several clients may have. */
  function SubsForClients(clients: nat, maxSockets: nat, maxSubs: nat): nat {
    var c := if clients < 1 then 1 else clients;
    var n := (maxSockets - c) / (c * 2);
    var atLeast := if n < 1 then 1 else n;
    if atLeast > maxSubs then maxSubs else atLeast
  }

  /** All the clients together stay within the budget exactly when it has room for one sub-connection each. */
  lemma {:induction false} ClientsFitBudget(clients: nat, maxSockets: nat, maxSubs: nat)
    requires clients >= 1 && maxSubs >= 1
    ensures clients * (1 + 2 * SubsForClients(clients, maxSockets, maxSubs)) <= maxSockets <==>
      3 * clients <= maxSockets
  {}
}
