/**
 A sub-connection: two flows over one pair of sockets, serviced in alternating order until it starts
 draining, then flushed one pass at a time until it closes.
 */
module RelaySub {
  import opened Wrappers
  import opened CtrStream
  import opened RelayStream

  const STALL_MS: nat := 900000
  const DRAIN_MAX_MS: nat := 10000

  /** The value of a sub-connection's slot. Times are millis(), which wraps at 2^32. */
  datatype Sub = Sub(
    active: bool,
    draining: bool,
    dirFlip: bool,
    drainStart: nat,
    lastActivity: nat,
    bytesIn: nat,
    bytesOut: nat,
    toLocal: Flow,
    toRvd: Flow)

  /** The time since then, as 32-bit unsigned arithmetic has it. */
  function Elapsed(now: nat, then_: nat): nat {
    (now - then_) % UINT32
  }

  /** What the two sockets do in one visit; whether each has nothing more to read and was closed by its peer. */
  datatype Visit = Visit(now: nat, local: Io, rvd: Io, rvdClosed: bool, localClosed: bool)

  predicate VisitPossible(s: Sub, v: Visit) {
    && CtrOk(s.toLocal) && Possible(s.toLocal, v.local)
    && CtrOk(s.toRvd) && Possible(s.toRvd, v.rvd)
  }

  /** What a normal pass over one direction does besides moving bytes. */
  function Noted(s: Sub, f: Flow, io: Io, now: nat): (r: Sub)
    requires Sends(f.dead, |f.pending|, io.flushed)
  {
    var s1 := if FlushFails(f, io) || ForwardFails(f, io) then s.(draining := true, drainStart := now) else s;
    if Flushes(f, io) || (Reads(f, io) && !ForwardFails(f, io)) then s1.(lastActivity := now) else s1
  }

  function ServeLocal(s: Sub, io: Io, now: nat): Sub
    requires CtrOk(s.toLocal) && Possible(s.toLocal, io)
  {
    var s1 := Noted(s, s.toLocal, io, now).(toLocal := Pass(s.toLocal, io));
    if Reads(s.toLocal, io) && !ForwardFails(s.toLocal, io)
    then s1.(bytesIn := (s.bytesIn + |io.chunk|) % UINT32) else s1
  }

  function ServeRvd(s: Sub, io: Io, now: nat): Sub
    requires CtrOk(s.toRvd) && Possible(s.toRvd, io)
  {
    var s1 := Noted(s, s.toRvd, io, now).(toRvd := Pass(s.toRvd, io));
    if Reads(s.toRvd, io) && !ForwardFails(s.toRvd, io)
    then s1.(bytesOut := (s.bytesOut + |io.chunk|) % UINT32) else s1
  }

  function Closed(s: Sub): Sub {
    s.(active := false, draining := false, drainStart := 0,
       toLocal := s.toLocal.(pending := []), toRvd := s.toRvd.(pending := []))
  }

  /** A visit to a sub-connection that isn't draining. */
  function Normal(s: Sub, v: Visit): Sub
    requires VisitPossible(s, v)
  {
    var served := if s.dirFlip then ServeLocal(ServeRvd(s, v.rvd, v.now), v.local, v.now)
                  else ServeRvd(ServeLocal(s, v.local, v.now), v.rvd, v.now);
    var s1 := served.(dirFlip := !s.dirFlip);
    if v.rvdClosed || v.localClosed || Elapsed(v.now, s1.lastActivity) > STALL_MS then Closed(s1) else s1
  }

  /** A visit to one that is: both directions once, unless a write fails, then the test for closing. */
  function Drain(s: Sub, v: Visit): Sub
    requires VisitPossible(s, v)
  {
    if Elapsed(v.now, s.drainStart) >= DRAIN_MAX_MS then Closed(s)
    else
      var l, r := s.toLocal, s.toRvd;
      var s1 := s.(toLocal := Pass(l, v.local),
                   bytesIn := if Reads(l, v.local) then (s.bytesIn + |v.local.chunk|) % UINT32 else s.bytesIn);
      if FlushFails(l, v.local) || ForwardFails(l, v.local) then Closed(s1)
      else
        var s2 := s1.(toRvd := Pass(r, v.rvd),
                      bytesOut := if Reads(r, v.rvd) then (s.bytesOut + |v.rvd.chunk|) % UINT32 else s.bytesOut);
        if FlushFails(r, v.rvd) || ForwardFails(r, v.rvd) then Closed(s2)
        else
          var moved := Flushes(l, v.local) || Reads(l, v.local) || Flushes(r, v.rvd) || Reads(r, v.rvd);
          if !moved && v.localClosed then Closed(s2) else s2
  }

  function Visited(s: Sub, v: Visit): Sub
    requires s.active ==> VisitPossible(s, v)
  {
    if !s.active then s else if s.draining then Drain(s, v) else Normal(s, v)
  }

  /** A slot as a successful connect leaves it: what it has parked is left alone. */
  function Connected(s: Sub, c2d: Option<Key>, d2c: Option<Key>, now: nat): Sub {
    s.(active := true, lastActivity := now, bytesIn := 0, bytesOut := 0,
       toLocal := Opened(c2d).(pending := s.toLocal.pending), toRvd := Opened(d2c).(pending := s.toRvd.pending))
  }

  ghost predicate SubOk(s: Sub) {
    && (s.active ==> FlowOk(s.toLocal) && FlowOk(s.toRvd))
    && (!s.active ==> !s.draining && s.toLocal.pending == [] && s.toRvd.pending == [])
    // outside the drain no write has failed, so nothing has been lost
    && (s.active && !s.draining ==> !s.toLocal.dead && !s.toRvd.dead)
  }

  lemma {:induction false} LocalServedOk(s: Sub, io: Io, now: nat)
    requires s.active && FlowOk(s.toLocal) && FlowOk(s.toRvd) && Possible(s.toLocal, io)
    requires !s.draining ==> !s.toLocal.dead && !s.toRvd.dead
    ensures var r := ServeLocal(s, io, now);
      && r.active && FlowOk(r.toLocal) && r.toRvd == s.toRvd
      && (!r.draining ==> !r.toLocal.dead && !r.toRvd.dead)
  {
    PassOk(s.toLocal, io);
  }

  lemma {:induction false} RvdServedOk(s: Sub, io: Io, now: nat)
    requires s.active && FlowOk(s.toLocal) && FlowOk(s.toRvd) && Possible(s.toRvd, io)
    requires !s.draining ==> !s.toLocal.dead && !s.toRvd.dead
    ensures var r := ServeRvd(s, io, now);
      && r.active && FlowOk(r.toRvd) && r.toLocal == s.toLocal
      && (!r.draining ==> !r.toLocal.dead && !r.toRvd.dead)
  {
    PassOk(s.toRvd, io);
  }

  lemma {:induction false} NormalOk(s: Sub, v: Visit)
    requires SubOk(s) && s.active && !s.draining && VisitPossible(s, v)
    ensures SubOk(Normal(s, v))
  {
    hide Pass, FlowOk, Noted, Possible;
    if s.dirFlip {
      RvdServedOk(s, v.rvd, v.now);
      LocalServedOk(ServeRvd(s, v.rvd, v.now), v.local, v.now);
    } else {
      LocalServedOk(s, v.local, v.now);
      RvdServedOk(ServeLocal(s, v.local, v.now), v.rvd, v.now);
    }
  }

  lemma {:induction false} DrainOk(s: Sub, v: Visit)
    requires SubOk(s) && s.active && s.draining && VisitPossible(s, v)
    ensures SubOk(Drain(s, v))
  {
    hide Pass, FlowOk, FlushFails, ForwardFails, Flushes, Reads, Possible;
    PassOk(s.toLocal, v.local);
    PassOk(s.toRvd, v.rvd);
  }

  /** Every visit keeps both flows right, and a write that fails always starts the drain. */
  lemma {:induction false} VisitedOk(s: Sub, v: Visit)
    requires SubOk(s) && (s.active ==> VisitPossible(s, v))
    ensures SubOk(Visited(s, v))
  {
    hide Normal, Drain;
    if s.active && s.draining {
      DrainOk(s, v);
    } else if s.active {
      NormalOk(s, v);
    }
  }

  /** A slot that is used again starts with nothing of what it held: it was closed, so nothing is parked in it. */
  lemma {:induction false} ConnectedOk(s: Sub, c2d: Option<Key>, d2c: Option<Key>, now: nat)
    requires SubOk(s) && !s.active && KeyOk(c2d) && KeyOk(d2c)
    ensures SubOk(Connected(s, c2d, d2c, now))
    ensures var r := Connected(s, c2d, d2c, now);
      && r.toLocal == Opened(c2d) && r.toRvd == Opened(d2c)
      && r.active && !r.draining && r.lastActivity == now && r.bytesIn == r.bytesOut == 0
  {}

  // ---- What a visit does, by what the sockets did ----

  /** A write failed on a pass that began with so many bytes parked. */
  predicate Fails(parked: int, io: Io) {
    (parked > 0 && io.flushed < 0) || (Remaining(parked, io.flushed) == 0 && io.chunk != [] && io.wrote < 0)
  }

  /** Bytes were taken of what was parked, or read. */
  predicate Moves(parked: int, io: Io) {
    (parked > 0 && io.flushed > 0) || (Remaining(parked, io.flushed) == 0 && io.chunk != [])
  }

  /** The passes of a visit over the one direction. */
  function LocalIos(s: Sub, v: Visit): seq<Io> {
    if s.draining && Elapsed(v.now, s.drainStart) >= DRAIN_MAX_MS then [] else [v.local]
  }

  /** And over the other, which a drain leaves out once the first has failed. */
  function RvdIos(s: Sub, v: Visit): seq<Io> {
    if s.draining && (Elapsed(v.now, s.drainStart) >= DRAIN_MAX_MS || Fails(|s.toLocal.pending|, v.local)) then []
    else [v.rvd]
  }

  lemma {:induction false} FailsAsSeen(f: Flow, io: Io)
    requires Possible(f, io)
    ensures Fails(|f.pending|, io) <==> FlushFails(f, io) || ForwardFails(f, io)
    ensures Moves(|f.pending|, io) <==> Flushes(f, io) || Reads(f, io)
  {}

  /** When a drain closes: at the cap, at a failed write, or when nothing moved and the local peer has closed. */
  lemma {:induction false} DrainClosesExactly(s: Sub, v: Visit)
    requires s.active && s.draining && VisitPossible(s, v)
    ensures Drain(s, v).active <==>
      && Elapsed(v.now, s.drainStart) < DRAIN_MAX_MS
      && !Fails(|s.toLocal.pending|, v.local) && !Fails(|s.toRvd.pending|, v.rvd)
      && (Moves(|s.toLocal.pending|, v.local) || Moves(|s.toRvd.pending|, v.rvd) || !v.localClosed)
    ensures Drain(s, v).active ==> Drain(s, v).draining && Drain(s, v).drainStart == s.drainStart
  {
    FailsAsSeen(s.toLocal, v.local);
    FailsAsSeen(s.toRvd, v.rvd);
    hide Pass, Possible, FlushFails, ForwardFails, Flushes, Reads, Fails, Moves;
  }

  /** Bytes moved on a pass that starts no drain. */
  predicate Active(parked: int, io: Io) {
    (parked > 0 && io.flushed > 0) || (Moves(parked, io) && !Fails(parked, io))
  }

  /**
   When a live slot is closed, when it starts to drain, and what its clock is set to: a peer has closed or nothing has
   moved for too long, a write has failed, and bytes have moved.
   */
  lemma {:induction false} NormalClosesExactly(s: Sub, v: Visit)
    requires s.active && !s.draining && VisitPossible(s, v)
    ensures var r := Normal(s, v);
      var l, o := |s.toLocal.pending|, |s.toRvd.pending|;
      var last := if Active(l, v.local) || Active(o, v.rvd) then v.now else s.lastActivity;
      && (r.active <==> !v.rvdClosed && !v.localClosed && Elapsed(v.now, last) <= STALL_MS)
      && r.lastActivity == last && r.dirFlip == !s.dirFlip
      && (r.active ==> (r.draining <==> Fails(l, v.local) || Fails(o, v.rvd)))
      && (r.draining ==> r.drainStart == v.now)
  {
    FailsAsSeen(s.toLocal, v.local);
    FailsAsSeen(s.toRvd, v.rvd);
    hide Pass, Possible;
  }

  /** Passes over the flow, of which what was parked is dropped if the slot is closed then. */
  ghost predicate Follows(from: Flow, ios: seq<Io>, to: Flow, open: bool) {
    exists f :: Passes(from, ios, f) && to == if open then f else f.(pending := [])
  }

  lemma {:induction false} OnePass(f: Flow, io: Io, open: bool)
    requires CtrOk(f) && Possible(f, io)
    ensures Follows(f, [io], if open then Pass(f, io) else Pass(f, io).(pending := []), open)
  {
    assert [io][1..] == [];
    assert Passes(f, [io], Pass(f, io));
  }

  lemma {:induction false} NoPass(f: Flow)
    ensures Follows(f, [], f.(pending := []), false)
  {
    assert Passes(f, [], f);
  }

  function Left(f: Flow, open: bool): Flow {
    if open then f else f.(pending := [])
  }

  lemma {:induction false} NormalFlows(s: Sub, v: Visit)
    requires s.active && !s.draining && VisitPossible(s, v)
    ensures var r := Normal(s, v);
      r.toLocal == Left(Pass(s.toLocal, v.local), r.active) && r.toRvd == Left(Pass(s.toRvd, v.rvd), r.active)
  {
    hide Pass, Possible, FlushFails, ForwardFails, Flushes, Reads;
  }

  lemma {:induction false} DrainFlows(s: Sub, v: Visit)
    requires s.active && s.draining && VisitPossible(s, v)
    ensures var r := Drain(s, v);
      && r.toLocal == Left(if LocalIos(s, v) == [] then s.toLocal else Pass(s.toLocal, v.local), r.active)
      && r.toRvd == Left(if RvdIos(s, v) == [] then s.toRvd else Pass(s.toRvd, v.rvd), r.active)
      && (LocalIos(s, v) == [] || RvdIos(s, v) == [] ==> !r.active)
  {
    FailsAsSeen(s.toLocal, v.local);
    hide Pass, Possible, FlushFails, ForwardFails, Flushes, Reads, Fails;
  }

  /** A visit to a slot in use is just those passes over its two directions. */
  lemma {:induction false} VisitFollows(s: Sub, v: Visit)
    requires s.active && VisitPossible(s, v)
    ensures var r := Visited(s, v);
      && Follows(s.toLocal, LocalIos(s, v), r.toLocal, r.active)
      && Follows(s.toRvd, RvdIos(s, v), r.toRvd, r.active)
  {
    var open := Visited(s, v).active;
    OnePass(s.toLocal, v.local, open);
    OnePass(s.toRvd, v.rvd, open);
    NoPass(s.toLocal);
    NoPass(s.toRvd);
    if s.draining {
      DrainFlows(s, v);
    } else {
      NormalFlows(s, v);
    }
    hide Normal, Drain, Pass, Fails, Follows, Possible;
  }

  /** The slot's counters are of all that was read since it was connected, as 32 bits keep it, unless a write failed. */
  predicate Counted(s: Sub) {
    s.active ==>
      && (!s.toLocal.dead ==> s.bytesIn == |s.toLocal.taken| % UINT32)
      && (!s.toRvd.dead ==> s.bytesOut == |s.toRvd.taken| % UINT32)
  }

  /** What a pass reads, and when it comes to a failed write. */
  lemma {:induction false} PassReads(f: Flow, io: Io)
    requires CtrOk(f) && Possible(f, io)
    ensures var g := Pass(f, io);
      && (Reads(f, io) ==> |g.taken| == |f.taken| + |io.chunk|)
      && (!Reads(f, io) ==> |g.taken| == |f.taken|)
      && g.dead == (f.dead || FlushFails(f, io) || ForwardFails(f, io))
  {
    hide Crypt;
  }

  lemma {:induction false} CountGrows(count: nat, taken: nat, more: nat)
    requires count == taken % UINT32
    ensures (count + more) % UINT32 == (taken + more) % UINT32
  {}

  lemma {:induction false} VisitCounts(s: Sub, v: Visit)
    requires s.active && VisitPossible(s, v) && Counted(s)
    ensures Counted(Visited(s, v))
  {
    PassReads(s.toLocal, v.local);
    PassReads(s.toRvd, v.rvd);
    if !s.toLocal.dead {
      CountGrows(s.bytesIn, |s.toLocal.taken|, |v.local.chunk|);
    }
    if !s.toRvd.dead {
      CountGrows(s.bytesOut, |s.toRvd.taken|, |v.rvd.chunk|);
    }
    if s.draining {
      DrainCounts(s, v);
    } else {
      NormalCounts(s, v);
    }
    hide Normal, Drain;
  }

  lemma {:induction false} ServedIs(s: Sub, io: Io, now: nat)
    ensures CtrOk(s.toLocal) && Possible(s.toLocal, io) ==>
      && ServeLocal(s, io, now).toLocal == Pass(s.toLocal, io) && ServeLocal(s, io, now).toRvd == s.toRvd
      && ServeLocal(s, io, now).bytesOut == s.bytesOut && ServeLocal(s, io, now).dirFlip == s.dirFlip
      && ServeLocal(s, io, now).bytesIn ==
           if Reads(s.toLocal, io) && !ForwardFails(s.toLocal, io) then (s.bytesIn + |io.chunk|) % UINT32 else s.bytesIn
    ensures CtrOk(s.toRvd) && Possible(s.toRvd, io) ==>
      && ServeRvd(s, io, now).toRvd == Pass(s.toRvd, io) && ServeRvd(s, io, now).toLocal == s.toLocal
      && ServeRvd(s, io, now).bytesIn == s.bytesIn && ServeRvd(s, io, now).dirFlip == s.dirFlip
      && ServeRvd(s, io, now).bytesOut ==
           if Reads(s.toRvd, io) && !ForwardFails(s.toRvd, io) then (s.bytesOut + |io.chunk|) % UINT32 else s.bytesOut
  {
    hide Pass, Reads, FlushFails, ForwardFails, Flushes;
  }

  lemma {:induction false} NormalCounts(s: Sub, v: Visit)
    requires s.active && !s.draining && VisitPossible(s, v)
    ensures var r := Normal(s, v);
      && (!Pass(s.toLocal, v.local).dead ==>
            r.bytesIn == if Reads(s.toLocal, v.local) then (s.bytesIn + |v.local.chunk|) % UINT32 else s.bytesIn)
      && (!Pass(s.toRvd, v.rvd).dead ==>
            r.bytesOut == if Reads(s.toRvd, v.rvd) then (s.bytesOut + |v.rvd.chunk|) % UINT32 else s.bytesOut)
      && (r.active ==> r.toLocal == Pass(s.toLocal, v.local) && r.toRvd == Pass(s.toRvd, v.rvd))
  {
    PassReads(s.toLocal, v.local);
    PassReads(s.toRvd, v.rvd);
    hide Pass, Possible, Reads, FlushFails, ForwardFails, Flushes, ServeLocal, ServeRvd, Elapsed;
    if s.dirFlip {
      ServedIs(s, v.rvd, v.now);
      ServedIs(ServeRvd(s, v.rvd, v.now), v.local, v.now);
    } else {
      ServedIs(s, v.local, v.now);
      ServedIs(ServeLocal(s, v.local, v.now), v.rvd, v.now);
    }
  }

  lemma {:induction false} DrainCounts(s: Sub, v: Visit)
    requires s.active && s.draining && VisitPossible(s, v)
    ensures var r := Drain(s, v);
      r.active ==>
        && r.bytesIn == (if Reads(s.toLocal, v.local) then (s.bytesIn + |v.local.chunk|) % UINT32 else s.bytesIn)
        && r.bytesOut == (if Reads(s.toRvd, v.rvd) then (s.bytesOut + |v.rvd.chunk|) % UINT32 else s.bytesOut)
        && r.toLocal == Pass(s.toLocal, v.local) && r.toRvd == Pass(s.toRvd, v.rvd)
  {
    hide Pass, Possible, Reads, FlushFails, ForwardFails, Flushes;
  }

  /** The slot itself, with its two halves changed in place. */
  class RelaySlot {
    var active: bool
    var draining: bool
    var dirFlip: bool
    var drainStart: nat
    var lastActivity: nat
    var bytesIn: nat
    var bytesOut: nat
    const toLocal: Half
    const toRvd: Half

    ghost predicate Valid()
      reads this, toLocal, toRvd
    {
      toLocal.Valid() && toRvd.Valid() && toLocal != toRvd && toLocal.parked != toRvd.parked
    }

    /** Whether buf and cryptBuf can be used for reading and transforming. */
    ghost predicate Buffers(buf: array<Byte>, cryptBuf: array<Byte>) {
      && CHUNK <= buf.Length && CHUNK <= cryptBuf.Length && buf != cryptBuf
      && {buf, cryptBuf} !! {toLocal.parked, toRvd.parked}
    }

    ghost function View(): Sub
      reads this, toLocal, toRvd, toLocal.parked, toRvd.parked
      requires Valid()
    {
      Sub(active, draining, dirFlip, drainStart, lastActivity, bytesIn, bytesOut, toLocal.View(), toRvd.View())
    }

    constructor ()
      ensures Valid() && !active && SubOk(View())
    {
      active, draining, dirFlip := false, false, false;
      drainStart, lastActivity, bytesIn, bytesOut := 0, 0, 0, 0;
      toLocal := new Half();
      toRvd := new Half();
    }

    method Close()
      requires Valid()
      modifies this, toLocal, toRvd
      ensures Valid()
      ensures View() == Closed(old(View()))
    {
      active, draining, drainStart := false, false, 0;
      toLocal.parkedLen, toRvd.parkedLen := 0, 0;
    }

    /** The SRVD-to-local direction of a normal visit. */
    method RelayToLocal(io: Io, now: nat, buf: array<Byte>, cryptBuf: array<Byte>)
      requires Valid() && CtrOk(toLocal.View()) && Possible(toLocal.View(), io)
      requires Buffers(buf, cryptBuf)
      modifies this, toLocal, toLocal.parked, buf, cryptBuf
      ensures Valid()
      ensures View() == ServeLocal(old(View()), io, now)
    {
      hide Pass, Possible, FlushFails, ForwardFails, Flushes, Reads;
      var failed, flushed, read := toLocal.Serve(io, buf, cryptBuf);
      Note(failed, flushed || (read && !failed), now);
      bytesIn := if read && !failed then (bytesIn + |io.chunk|) % UINT32 else bytesIn;
    }

    /** The local-to-SRVD direction. */
    method RelayToRvd(io: Io, now: nat, buf: array<Byte>, cryptBuf: array<Byte>)
      requires Valid() && CtrOk(toRvd.View()) && Possible(toRvd.View(), io)
      requires Buffers(buf, cryptBuf)
      modifies this, toRvd, toRvd.parked, buf, cryptBuf
      ensures Valid()
      ensures View() == ServeRvd(old(View()), io, now)
    {
      hide Pass, Possible, FlushFails, ForwardFails, Flushes, Reads;
      var failed, flushed, read := toRvd.Serve(io, buf, cryptBuf);
      Note(failed, flushed || (read && !failed), now);
      bytesOut := if read && !failed then (bytesOut + |io.chunk|) % UINT32 else bytesOut;
    }

    method Note(failed: bool, moved: bool, now: nat)
      modifies this`draining, this`drainStart, this`lastActivity
      ensures draining == (failed || old(draining)) && drainStart == if failed then now else old(drainStart)
      ensures lastActivity == if moved then now else old(lastActivity)
    {
      if failed {
        draining, drainStart := true, now;
      }
      if moved {
        lastActivity := now;
      }
    }

    /** A visit that isn't part of a drain: the two directions in turn, the order alternating. */
    method Relay(v: Visit, buf: array<Byte>, cryptBuf: array<Byte>)
      requires Valid() && VisitPossible(View(), v)
      requires Buffers(buf, cryptBuf)
      modifies this, toLocal, toRvd, toLocal.parked, toRvd.parked, buf, cryptBuf
      ensures Valid()
      ensures View() == Normal(old(View()), v)
    {
      hide Pass, Possible, FlushFails, ForwardFails, Flushes, Reads;
      if dirFlip {
        RelayToRvd(v.rvd, v.now, buf, cryptBuf);
        RelayToLocal(v.local, v.now, buf, cryptBuf);
      } else {
        RelayToLocal(v.local, v.now, buf, cryptBuf);
        RelayToRvd(v.rvd, v.now, buf, cryptBuf);
      }
      dirFlip := !dirFlip;
      if v.rvdClosed || v.localClosed || Elapsed(v.now, lastActivity) > STALL_MS {
        Close();
      }
    }

    /** A visit to a draining sub-connection. */
    method DrainOnce(v: Visit, buf: array<Byte>, cryptBuf: array<Byte>)
      requires Valid() && VisitPossible(View(), v)
      requires Buffers(buf, cryptBuf)
      modifies this, toLocal, toRvd, toLocal.parked, toRvd.parked, buf, cryptBuf
      ensures Valid()
      ensures View() == Drain(old(View()), v)
    {
      hide Pass, Possible, FlushFails, ForwardFails, Flushes, Reads;
      var done := Elapsed(v.now, drainStart) >= DRAIN_MAX_MS;
      if !done {
        var failed, flushed, read := toLocal.Serve(v.local, buf, cryptBuf);
        var moved := flushed || read;
        bytesIn := if read then (bytesIn + |v.local.chunk|) % UINT32 else bytesIn;
        done := failed;
        if !done {
          failed, flushed, read := toRvd.Serve(v.rvd, buf, cryptBuf);
          moved := moved || flushed || read;
          bytesOut := if read then (bytesOut + |v.rvd.chunk|) % UINT32 else bytesOut;
          done := failed || (!moved && v.localClosed);
        }
      }
      if done {
        Close();
      }
    }

    /** Takes the slot for a new pair of sockets, which are connected by now. */
    method Connect(c2d: Option<Key>, d2c: Option<Key>, now: nat)
      requires Valid()
      modifies this, toLocal, toRvd
      ensures Valid() && View() == Connected(old(View()), c2d, d2c, now)
    {
      toLocal.Open(c2d);
      toRvd.Open(d2c);
      active, lastActivity, bytesIn, bytesOut := true, now, 0, 0;
    }
  }
}
