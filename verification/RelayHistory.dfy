/** What each slot of the relay has passed on since it was last connected, over whole runs of the loop. */
module RelayHistory {
  import opened Wrappers
  import opened CtrStream
  import opened RelayStream
  import opened RelaySub
  import opened RelayLoop

  /** The keys a slot was last connected with and the passes made over its two directions since. */
  datatype History = History(c2d: Option<Key>, d2c: Option<Key>, local: seq<Io>, rvd: seq<Io>)

  /** What happened to slot i in the first k events; None if it was never connected. */
  function HistoryOf(states: seq<seq<Sub>>, events: seq<Event>, k: nat, i: nat): Option<History>
    requires k <= |events| && |states| == |events| + 1
  {
    if k == 0 then None
    else
      var h := HistoryOf(states, events, k - 1, i);
      match events[k - 1]
      case Connect(q, _, slot) => if slot == i then Some(History(q.c2d, q.d2c, [], [])) else h
      case Critical(_) => h
      case Visits(vs) =>
        if h.None? || i >= |states[k - 1]| || i >= |vs| || !states[k - 1][i].active then h
        else
          var s, v := states[k - 1][i], vs[i];
          Some(h.value.(local := h.value.local + LocalIos(s, v), rvd := h.value.rvd + RvdIos(s, v)))
  }

  lemma {:induction false} PassesMore(f: Flow, ios: seq<Io>, g: Flow, more: seq<Io>, h: Flow)
    requires Passes(f, ios, g) && Passes(g, more, h)
    ensures Passes(f, ios + more, h)
    decreases |ios|
  {
    if ios == [] {
      assert ios + more == more;
    } else {
      PassesMore(Pass(f, ios[0]), ios[1..], g, more, h);
      assert (ios + more)[1..] == ios[1..] + more;
    }
  }

  lemma {:induction false} FollowsMore(f: Flow, ios: seq<Io>, g: Flow, more: seq<Io>, h: Flow, open: bool)
    requires Follows(f, ios, g, true) && Follows(g, more, h, open)
    ensures Follows(f, ios + more, h, open)
  {
    var x :| Passes(g, more, x) && h == if open then x else x.(pending := []);
    PassesMore(f, ios, g, more, x);
  }

  lemma {:induction false} FollowsClosed(f: Flow, ios: seq<Io>, g: Flow, open: bool)
    requires Follows(f, ios, g, open)
    ensures Follows(f, ios, g.(pending := []), false)
  {
    var x :| Passes(f, ios, x) && g == if open then x else x.(pending := []);
    assert g.(pending := []) == x.(pending := []);
  }

  /** The slot's flows are what those passes made of new ones. */
  ghost predicate FollowsHistory(s: Sub, h: Option<History>) {
    && (s.active ==> h.Some?)
    && (h.Some? ==>
          && Follows(Opened(h.value.c2d), h.value.local, s.toLocal, s.active)
          && Follows(Opened(h.value.d2c), h.value.rvd, s.toRvd, s.active))
  }

  lemma {:induction false} ClosedFollows(s: Sub, h: Option<History>)
    requires FollowsHistory(s, h)
    ensures FollowsHistory(Closed(s), h)
  {
    if h.Some? {
      FollowsClosed(Opened(h.value.c2d), h.value.local, s.toLocal, s.active);
      FollowsClosed(Opened(h.value.d2c), h.value.rvd, s.toRvd, s.active);
    }
    hide Follows;
  }

  lemma {:induction false} ConnectedFollows(s: Sub, q: Request)
    requires SubOk(s) && !s.active
    ensures FollowsHistory(Connected(s, q.c2d, q.d2c, q.now), Some(History(q.c2d, q.d2c, [], [])))
  {
    assert Passes(Opened(q.c2d), [], Opened(q.c2d)) && Passes(Opened(q.d2c), [], Opened(q.d2c));
    assert Connected(s, q.c2d, q.d2c, q.now).toLocal == Opened(q.c2d);
    assert Connected(s, q.c2d, q.d2c, q.now).toRvd == Opened(q.d2c);
  }

  lemma {:induction false} VisitedFollows(s: Sub, v: Visit, h: History)
    requires FollowsHistory(s, Some(h)) && s.active && VisitPossible(s, v)
    ensures FollowsHistory(Visited(s, v), Some(h.(local := h.local + LocalIos(s, v), rvd := h.rvd + RvdIos(s, v))))
  {
    VisitFollows(s, v);
    var r := Visited(s, v);
    hide Follows, Visited, VisitPossible;
    FollowsMore(Opened(h.c2d), h.local, s.toLocal, LocalIos(s, v), r.toLocal, r.active);
    FollowsMore(Opened(h.d2c), h.rvd, s.toRvd, RvdIos(s, v), r.toRvd, r.active);
  }

  /** A connect request on one slot: nothing, a close, or a new connection, after a close or none. */
  lemma {:induction false} ConnectStepAt(
    a: seq<Sub>, b: seq<Sub>, q: Request, maxSockets: nat, victim: int, slot: int, i: nat)
    requires RequestFits(q, |a|) && ConnectStep(a, b, q, maxSockets, victim, slot) && i < |a|
    requires forall j :: 0 <= j < |a| ==> SubOk(a[j])
    ensures |b| == |a|
    ensures slot != i ==> b[i] == a[i] || b[i] == Closed(a[i])
    ensures slot == i ==>
      exists s :: SubOk(s) && !s.active && b[i] == Connected(s, q.c2d, q.d2c, q.now)
  {
    hide SubOk, NoVictim, IsVictim, Connected;
    var m := Reclaimed(a, q);
    var e := Evicted(m, victim);
    ClosedOk(a[i]);
    ClosedOk(m[i]);
    assert m[i] == a[i] || m[i] == Closed(a[i]);
    assert Closed(Closed(a[i])) == Closed(a[i]);
    assert e[i] == m[i] || e[i] == Closed(m[i]);
    assert SubOk(e[i]);
  }

  lemma {:induction false} ConnectFollows(
    a: seq<Sub>, b: seq<Sub>, q: Request, maxSockets: nat, victim: int, slot: int, i: nat, h: Option<History>)
    requires RequestFits(q, |a|) && ConnectStep(a, b, q, maxSockets, victim, slot) && i < |a|
    requires forall j :: 0 <= j < |a| ==> SubOk(a[j])
    requires FollowsHistory(a[i], h)
    ensures |b| == |a|
    ensures FollowsHistory(b[i], if slot == i then Some(History(q.c2d, q.d2c, [], [])) else h)
  {
    ConnectStepAt(a, b, q, maxSockets, victim, slot, i);
    hide ConnectStep, FollowsHistory, SubOk, Connected, Closed;
    if slot == i {
      var s :| SubOk(s) && !s.active && b[i] == Connected(s, q.c2d, q.d2c, q.now);
      ConnectedFollows(s, q);
    } else {
      ClosedFollows(a[i], h);
    }
  }

  /** In every state of every run each slot's two flows are what the passes since its last connect made of new ones. */
  lemma {:induction false} RunFollowsHistory(
    states: seq<seq<Sub>>, events: seq<Event>, maxSockets: nat, k: nat, i: nat)
    requires maxSockets >= 1 && Run(states, events, maxSockets) && k <= |events| && i < |states[0]|
    ensures |states[k]| == |states[0]| && FollowsHistory(states[k][i], HistoryOf(states, events, k, i))
  {
    hide SubOk, ConnectStep, FollowsHistory, Visited, VisitPossible;
    if k == 0 {
      NeverConnected(states[0][i]);
    } else {
      RunFollowsHistory(states, events, maxSockets, k - 1, i);
      ReachableOk(states, events, maxSockets, k - 1);
      var a, b, h := states[k - 1], states[k], HistoryOf(states, events, k - 1, i);
      assert Step(a, events[k - 1], b, maxSockets);
      match events[k - 1]
      case Visits(vs) =>
        if a[i].active {
          ActiveHasHistory(a[i], h);
          VisitedFollows(a[i], vs[i], h.value);
        } else {
          VisitKeepsClosed(a[i], vs[i]);
        }
      case Connect(q, victim, slot) => ConnectFollows(a, b, q, maxSockets, victim, slot, i, h);
      case Critical(victim) => ClosedFollows(a[i], h);
    }
  }

  lemma {:induction false} NeverConnected(s: Sub)
    requires !s.active
    ensures FollowsHistory(s, None)
  {}

  lemma {:induction false} ActiveHasHistory(s: Sub, h: Option<History>)
    requires FollowsHistory(s, h) && s.active
    ensures h.Some?
  {}

  /** What a flow has read and what its destination has accepted, by what the sockets gave and took. */
  ghost predicate PassedOn(f: Flow, key: Option<Key>, ios: seq<Io>) {
    && f.taken == GotAll(0, ios)
    && 0 <= TookAll(0, ios) <= |Image(key, GotAll(0, ios))|
    && f.accepted == Image(key, GotAll(0, ios))[..TookAll(0, ios)]
  }

  lemma {:induction false} FollowedIsPassedOn(key: Option<Key>, ios: seq<Io>, f: Flow, open: bool)
    requires KeyOk(key) && Follows(Opened(key), ios, f, open)
    ensures PassedOn(f, key, ios)
  {
    var x :| Passes(Opened(key), ios, x) && f == if open then x else x.(pending := []);
    PeerGetsWhatWasTaken(key, ios, x);
  }

  lemma {:induction false} HistoryKeysOk(
    states: seq<seq<Sub>>, events: seq<Event>, maxSockets: nat, k: nat, i: nat)
    requires Run(states, events, maxSockets) && k <= |events| && HistoryOf(states, events, k, i).Some?
    ensures var h := HistoryOf(states, events, k, i).value; KeyOk(h.c2d) && KeyOk(h.d2c)
  {
    hide ConnectStep, VisitStep;
    assert k > 0 ==> Step(states[k - 1], events[k - 1], states[k], maxSockets);
    if k > 0 && HistoryOf(states, events, k - 1, i).Some? {
      HistoryKeysOk(states, events, maxSockets, k - 1, i);
    }
  }

  /**
   In every state of every run: since a slot was last connected each of its destinations has got exactly the first
   bytes of the transform of all that the other side gave, as many as its writes took: no byte is lost, repeated or
   out of place, whatever was parked and however it was written.
   */
  lemma {:induction false} EverySlotPassesOn(
    states: seq<seq<Sub>>, events: seq<Event>, maxSockets: nat, k: nat, i: nat)
    requires maxSockets >= 1 && Run(states, events, maxSockets) && k <= |events| && i < |states[0]|
    ensures |states[k]| == |states[0]|
    ensures var h := HistoryOf(states, events, k, i);
      && (states[k][i].active ==> h.Some?)
      && (h.Some? ==>
            && PassedOn(states[k][i].toLocal, h.value.c2d, h.value.local)
            && PassedOn(states[k][i].toRvd, h.value.d2c, h.value.rvd))
  {
    RunFollowsHistory(states, events, maxSockets, k, i);
    var h := HistoryOf(states, events, k, i);
    if h.Some? {
      HistoryKeysOk(states, events, maxSockets, k, i);
      var s := states[k][i];
      hide PassedOn, Run, HistoryOf, Follows, KeyOk;
      FollowedIsPassedOn(h.value.c2d, h.value.local, s.toLocal, s.active);
      FollowedIsPassedOn(h.value.d2c, h.value.rvd, s.toRvd, s.active);
    }
  }

  lemma {:induction false} ConnectCounts(
    a: seq<Sub>, b: seq<Sub>, q: Request, maxSockets: nat, victim: int, slot: int, i: nat)
    requires RequestFits(q, |a|) && ConnectStep(a, b, q, maxSockets, victim, slot) && i < |a|
    requires (forall j :: 0 <= j < |a| ==> SubOk(a[j])) && Counted(a[i])
    ensures |b| == |a| && Counted(b[i])
  {
    ConnectStepAt(a, b, q, maxSockets, victim, slot, i);
    hide ConnectStep, SubOk;
  }

  /** In every state of every run the byte counts of a slot in use are of what it has read since it was connected. */
  lemma {:induction false} EverySlotCounts(
    states: seq<seq<Sub>>, events: seq<Event>, maxSockets: nat, k: nat, i: nat)
    requires maxSockets >= 1 && Run(states, events, maxSockets) && k <= |events| && i < |states[0]|
    ensures |states[k]| == |states[0]| && Counted(states[k][i])
  {
    hide SubOk, ConnectStep, Visited, VisitPossible;
    if k > 0 {
      EverySlotCounts(states, events, maxSockets, k - 1, i);
      ReachableOk(states, events, maxSockets, k - 1);
      var a, b := states[k - 1], states[k];
      assert Step(a, events[k - 1], b, maxSockets);
      match events[k - 1]
      case Visits(vs) =>
        if a[i].active {
          VisitCounts(a[i], vs[i]);
        } else {
          VisitKeepsClosed(a[i], vs[i]);
        }
      case Connect(q, victim, slot) => ConnectCounts(a, b, q, maxSockets, victim, slot, i);
      case Critical(victim) =>
    }
  }
}
