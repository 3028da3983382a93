/**
 The life of one bridged connection in the C srv: the main thread opens two sockets and a pipe, starts
 two relay threads, waits for one to report its exit, cancels and joins, and only then closes everything.

 Every step of the three threads is one atomic action, and actions interleave freely.
 */
module SocketPair {
  import opened Wrappers

  /** Where the main thread is. */
  datatype Pc =
    | OpenA | OpenB | OpenPipe | Authenticate | Create0 | Create1
    | ReadPipe
    | JoinExited(tid: nat)
    | Cancel(other: nat) | JoinCancelled(other: nat)
    | CancelBoth0 | CancelBoth1 | JoinBoth0 | JoinBoth1
    | ClosePipe | FreeA | FreeB
    | Done

  /** A relay thread runs, reports its id on the pipe, and terminates; a cancelled one terminates from anywhere. */
  datatype Life = NotStarted | Running | Reported | Terminated

  datatype Thread = Thread(life: Life, cancelled: bool, joins: nat, lost: bool)

  /** An end of the connection: how often it was opened and closed. */
  datatype Socket = Socket(opens: nat, closes: nat)

  datatype Sys = Sys(
    pc: Pc,
    thread0: Thread,
    thread1: Thread,
    notices: seq<nat>,
    pipe: Socket,
    a: Socket,
    b: Socket,
    failed: bool)
  {
    function Of(t: nat): Thread {
      if t == 0 then thread0 else thread1
    }

    function With(t: nat, th: Thread): Sys {
      if t == 0 then this.(thread0 := th) else this.(thread1 := th)
    }
  }

  const START: Sys :=
    Sys(OpenA, Thread(NotStarted, false, 0, false), Thread(NotStarted, false, 0, false), [],
        Socket(0, 0), Socket(0, 0), Socket(0, 0), false)

  /** One action. ok says how a call that can fail turns out. */
  datatype Act =
    | Main(ok: bool)
    | Use(t: nat)                    // reads its own socket or writes the other
    | Report(t: nat, ok: bool)       // writes its id to the pipe
    | Terminate(t: nat)
    | CancelLands(t: nat)

  predicate IsOpen(s: Socket) {
    s.opens == s.closes + 1
  }

  function Opened(s: Socket): Socket {
    s.(opens := s.opens + 1)
  }

  /** Freeing a socket that isn't open does nothing. */
  function Freed(s: Socket): Socket {
    if IsOpen(s) then s.(closes := s.closes + 1) else s
  }

  function Started(s: Sys, t: nat): Sys
  {
    s.With(t, s.Of(t).(life := Running))
  }

  function Cancelled(s: Sys, t: nat): Sys
  {
    s.With(t, s.Of(t).(cancelled := true))
  }

  /** A join returns only once its thread has terminated. */
  function Joined(s: Sys, t: nat, next: Pc): Option<Sys> {
    if t < 2 && s.Of(t).life == Terminated
    then Some(s.With(t, s.Of(t).(joins := s.Of(t).joins + 1)).(pc := next))
    else None
  }

  function MainStep(s: Sys, ok: bool): Option<Sys>
  {
    match s.pc
    case OpenA =>
      Some(if ok then s.(a := Opened(s.a), pc := OpenB) else s.(failed := true, pc := Done))
    case OpenB =>
      Some(if ok then s.(b := Opened(s.b), pc := OpenPipe)
           else s.(failed := true, a := Freed(s.a), pc := Done))
    case OpenPipe =>
      Some(if ok then s.(pipe := Opened(s.pipe), pc := Authenticate)
           else s.(failed := true, a := Freed(s.a), b := Freed(s.b), pc := Done))
    case Authenticate =>
      Some(if ok then s.(pc := Create0) else s.(failed := true, pc := ClosePipe))
    case Create0 =>
      Some(if ok then Started(s, 0).(pc := Create1) else s.(failed := true, pc := ClosePipe))
    case Create1 =>
      Some(if ok then Started(s, 1).(pc := ReadPipe) else s.(failed := true, pc := Cancel(0)))
    case ReadPipe =>
      if !ok then Some(s.(failed := true, pc := CancelBoth0))
      else if s.notices == [] then None
      else Some(s.(notices := s.notices[1..], pc := JoinExited(s.notices[0])))
    case JoinExited(tid) => Joined(s, tid, Cancel(if tid == 0 then 1 else 0))
    case Cancel(other) => if other < 2 then Some(Cancelled(s, other).(pc := JoinCancelled(other))) else None
    case JoinCancelled(other) => Joined(s, other, ClosePipe)
    case CancelBoth0 => Some(Cancelled(s, 0).(pc := CancelBoth1))
    case CancelBoth1 => Some(Cancelled(s, 1).(pc := JoinBoth0))
    case JoinBoth0 => Joined(s, 0, JoinBoth1)
    case JoinBoth1 => Joined(s, 1, ClosePipe)
    case ClosePipe => Some(s.(pipe := Freed(s.pipe), pc := FreeA))
    case FreeA => Some(s.(a := Freed(s.a), pc := FreeB))
    case FreeB => Some(s.(b := Freed(s.b), pc := Done))
    case Done => None
  }

  /** The state after an action, or None when the action can't happen. */
  function Next(s: Sys, act: Act): Option<Sys>
  {
    match act
    case Main(ok) => MainStep(s, ok)
    case Use(t) => if t < 2 && s.Of(t).life == Running then Some(s) else None
    case Report(t, ok) =>
      if t < 2 && s.Of(t).life == Running then
        var s1 := s.With(t, s.Of(t).(life := Reported, lost := !ok));
        Some(if ok then s1.(notices := s.notices + [t]) else s1)
      else None
    case Terminate(t) =>
      if t < 2 && s.Of(t).life == Reported
      then Some(s.With(t, s.Of(t).(life := Terminated))) else None
    case CancelLands(t) =>
      if t < 2 && s.Of(t).cancelled && s.Of(t).life in {Running, Reported}
      then Some(s.With(t, s.Of(t).(life := Terminated))) else None
  }

  predicate Alive(th: Thread) {
    th.life == Running || th.life == Reported
  }

  /** Whether thread t must have been started, must be unjoined, or may no longer be needed, at pc. */
  predicate ThreadFits(pc: Pc, t: nat, th: Thread) {
    match pc
    case OpenA | OpenB | OpenPipe | Authenticate | Create0 =>
      th.life == NotStarted && th.joins == 0 && !th.cancelled
    case Create1 => th.joins == 0 && !th.cancelled && (th.life == NotStarted <==> t == 1)
    case ReadPipe => th.joins == 0 && !th.cancelled && th.life != NotStarted
    case JoinExited(tid) => th.joins == 0 && !th.cancelled && th.life != NotStarted
    case Cancel(other) =>
      if t == other then th.joins == 0 && !th.cancelled && th.life != NotStarted else Settled(th)
    case JoinCancelled(other) =>
      if t == other then th.joins == 0 && th.cancelled && th.life != NotStarted else Settled(th)
    case CancelBoth0 => th.joins == 0 && !th.cancelled && th.life != NotStarted
    case CancelBoth1 => th.joins == 0 && (th.cancelled <==> t == 0) && th.life != NotStarted
    case JoinBoth0 => th.joins == 0 && th.cancelled && th.life != NotStarted
    case JoinBoth1 => if t == 1 then th.joins == 0 && th.cancelled && th.life != NotStarted else Settled(th)
    case ClosePipe | FreeA | FreeB | Done => Settled(th)
  }

  /** Never started, or terminated and joined exactly once. */
  predicate Settled(th: Thread) {
    (th.life == NotStarted && th.joins == 0) || (th.life == Terminated && th.joins == 1)
  }

  predicate SocketsFit(s: Sys) {
    match s.pc
    case OpenA => s.a == Socket(0, 0) && s.b == Socket(0, 0) && s.pipe == Socket(0, 0)
    case OpenB => s.a == Socket(1, 0) && s.b == Socket(0, 0) && s.pipe == Socket(0, 0)
    case OpenPipe => s.a == Socket(1, 0) && s.b == Socket(1, 0) && s.pipe == Socket(0, 0)
    case FreeA => s.a == Socket(1, 0) && s.b == Socket(1, 0) && s.pipe == Socket(1, 1)
    case FreeB => s.a == Socket(1, 1) && s.b == Socket(1, 0) && s.pipe == Socket(1, 1)
    case Done => s.a.opens == s.a.closes <= 1 && s.b.opens == s.b.closes <= 1 && s.pipe.opens == s.pipe.closes <= 1
    case _ => s.a == Socket(1, 0) && s.b == Socket(1, 0) && s.pipe == Socket(1, 0)
  }

  predicate Heard(s: Sys, t: nat) {
    s.Of(t).life in {Reported, Terminated} ==> s.Of(t).lost || t in s.notices
  }

  /** Every notice on the pipe is from a thread that has at least reported, each at most once. */
  predicate NoticesFit(s: Sys)
  {
    && (forall i :: 0 <= i < |s.notices| ==>
          s.notices[i] < 2 && s.Of(s.notices[i]).life in {Reported, Terminated})
    && (s.pc in {Create1, ReadPipe} ==> Heard(s, 0) && Heard(s, 1))
    && (s.pc.JoinExited? ==> s.pc.tid < 2 && s.Of(s.pc.tid).life in {Reported, Terminated})
    && (s.pc.Cancel? ==> s.pc.other < 2)
    && (s.pc.JoinCancelled? ==> s.pc.other < 2)
  }

  /** Success is reported only if both threads were started. */
  predicate ResultFits(s: Sys)
  {
    match s.pc
    case OpenA | OpenB | OpenPipe | Authenticate | Create0 | Create1 | ReadPipe => !s.failed
    case _ => s.failed || (s.thread0.life != NotStarted && s.thread1.life != NotStarted)
  }

  predicate Inv(s: Sys) {
    && ThreadFits(s.pc, 0, s.thread0) && ThreadFits(s.pc, 1, s.thread1)
    && SocketsFit(s) && NoticesFit(s) && ResultFits(s)
  }

  predicate Opening(pc: Pc) {
    pc in {OpenA, OpenB, OpenPipe, Authenticate, Create0, Create1}
  }

  predicate Closing(pc: Pc) {
    pc in {ClosePipe, FreeA, FreeB, Done}
  }

  lemma {:induction false} OpeningKeepsInv(s: Sys, ok: bool)
    requires Inv(s) && Opening(s.pc)
    ensures MainStep(s, ok).Some? && Inv(MainStep(s, ok).value)
  {}

  lemma {:induction false} ClosingKeepsInv(s: Sys, ok: bool)
    requires Inv(s) && Closing(s.pc) && MainStep(s, ok).Some?
    ensures Inv(MainStep(s, ok).value)
  {}

  lemma {:induction false} ReadingKeepsInv(s: Sys, ok: bool)
    requires Inv(s) && s.pc == ReadPipe && MainStep(s, ok).Some?
    ensures Inv(MainStep(s, ok).value)
  {}

  lemma {:induction false} JoiningKeepsInv(s: Sys, ok: bool)
    requires Inv(s) && !Opening(s.pc) && !Closing(s.pc) && s.pc != ReadPipe && MainStep(s, ok).Some?
    ensures Inv(MainStep(s, ok).value)
  {}

  /** A thread that has reported, or terminated, still fits. */
  lemma {:induction false} LifeMovesOn(pc: Pc, t: nat, th: Thread, life: Life, lost: bool)
    requires ThreadFits(pc, t, th) && Alive(th) && life in {Reported, Terminated}
    ensures ThreadFits(pc, t, th.(life := life, lost := lost))
  {}

  lemma {:induction false} OthersStay(s: Sys, r: Sys)
    requires SocketsFit(s) && ResultFits(s)
    requires r.pc == s.pc && r.a == s.a && r.b == s.b && r.pipe == s.pipe && r.failed == s.failed
    requires r.thread0.life == NotStarted ==> s.thread0.life == NotStarted
    requires r.thread1.life == NotStarted ==> s.thread1.life == NotStarted
    ensures SocketsFit(r) && ResultFits(r)
  {}

  lemma {:induction false} CancelledThreadsAreUnheard(pc: Pc, t: nat, th: Thread)
    requires ThreadFits(pc, t, th) && th.cancelled && Alive(th)
    ensures pc !in {Create1, ReadPipe}
  {}

  lemma {:induction false} ReportKeepsInv(s: Sys, t: nat, ok: bool)
    requires Inv(s) && Next(s, Report(t, ok)).Some?
    ensures Inv(Next(s, Report(t, ok)).value)
  {
    hide ThreadFits, SocketsFit, ResultFits;
    var r := Next(s, Report(t, ok)).value;
    LifeMovesOn(s.pc, t, s.Of(t), Reported, !ok);
    OthersStay(s, r);
    assert ok ==> r.notices[|s.notices|] == t;
    forall u | 0 <= u < 2 && u in s.notices ensures u in r.notices {}
  }

  lemma {:induction false} TerminationKeepsInv(s: Sys, act: Act)
    requires Inv(s) && (act.Terminate? || act.CancelLands?) && Next(s, act).Some?
    ensures Inv(Next(s, act).value)
  {
    hide ThreadFits, SocketsFit, ResultFits;
    var th := s.Of(act.t);
    LifeMovesOn(s.pc, act.t, th, Terminated, th.lost);
    OthersStay(s, Next(s, act).value);
    if act.CancelLands? {
      CancelledThreadsAreUnheard(s.pc, act.t, th);
    }
  }

  lemma {:induction false} NextKeepsInv(s: Sys, act: Act)
    requires Inv(s) && Next(s, act).Some?
    ensures Inv(Next(s, act).value)
  {
    hide Inv, MainStep;
    if act.Report? {
      ReportKeepsInv(s, act.t, act.ok);
    } else if act.Terminate? || act.CancelLands? {
      TerminationKeepsInv(s, act);
    } else if act.Use? {
    } else if Opening(s.pc) {
      OpeningKeepsInv(s, act.ok);
    } else if Closing(s.pc) {
      ClosingKeepsInv(s, act.ok);
    } else if s.pc == ReadPipe {
      ReadingKeepsInv(s, act.ok);
    } else {
      JoiningKeepsInv(s, act.ok);
    }
  }

  /** The state after a list of actions, as long as each of them can happen. */
  function After(acts: seq<Act>): (r: Option<Sys>)
    decreases |acts|
  {
    if acts == [] then Some(START)
    else
      var before := After(acts[..|acts| - 1]);
      if before.None? then None else Next(before.value, acts[|acts| - 1])
  }

  lemma {:induction false} AfterKeepsInv(acts: seq<Act>)
    requires After(acts).Some?
    ensures Inv(After(acts).value)
    decreases |acts|
  {
    if acts != [] {
      AfterKeepsInv(acts[..|acts| - 1]);
      NextKeepsInv(After(acts[..|acts| - 1]).value, acts[|acts| - 1]);
    }
  }

  /**
   In every interleaving and on every failure path: while a relay thread is alive, both sockets and the
   pipe are open, so none touches a freed one; no thread is ever joined twice; and when all is done each
   started thread was joined exactly once and each socket that was opened was closed exactly once.
   */
  lemma {:induction false} TeardownIsSafe(acts: seq<Act>)
    requires After(acts).Some?
    ensures var s := After(acts).value;
      && (forall t :: 0 <= t < 2 && Alive(s.Of(t)) ==> IsOpen(s.a) && IsOpen(s.b) && IsOpen(s.pipe))
      && (forall t :: 0 <= t < 2 ==> s.Of(t).joins <= 1)
      && (s.pc == Done ==>
        && (forall t :: 0 <= t < 2 ==> (s.Of(t).joins == 1 <==> s.Of(t).life != NotStarted))
        && s.a.opens == s.a.closes && s.b.opens == s.b.closes && s.pipe.opens == s.pipe.closes
        && (!s.failed ==> s.thread0.joins == 1 && s.thread1.joins == 1))
  {
    AfterKeepsInv(acts);
  }

  /** A thread that is cancelled or joined has been started and hasn't been joined before. */
  lemma {:induction false} OnlyUnjoinedAreCancelledOrJoined(acts: seq<Act>, t: nat, ok: bool)
    requires After(acts).Some? && t < 2 && MainStep(After(acts).value, ok).Some?
    requires var s, r := After(acts).value, MainStep(After(acts).value, ok).value;
      r.Of(t).cancelled != s.Of(t).cancelled || r.Of(t).joins != s.Of(t).joins
    ensures After(acts).value.Of(t).joins == 0 && After(acts).value.Of(t).life != NotStarted
  {
    AfterKeepsInv(acts);
  }

  /** Main actions left at most. */
  function MainLeft(pc: Pc): nat {
    match pc
    case OpenA => 14 case OpenB => 13 case OpenPipe => 12 case Authenticate => 11
    case Create0 => 10 case Create1 => 9 case ReadPipe => 8
    case CancelBoth0 => 7 case CancelBoth1 => 6 case JoinBoth0 => 5 case JoinBoth1 => 4
    case JoinExited(_) => 6 case Cancel(_) => 5 case JoinCancelled(_) => 4
    case ClosePipe => 3 case FreeA => 2 case FreeB => 1 case Done => 0
  }

  function LifeLeft(th: Thread): nat {
    match th.life
    case NotStarted => 3 case Running => 2 case Reported => 1 case Terminated => 0
  }

  function Left(s: Sys): nat
  {
    MainLeft(s.pc) + LifeLeft(s.thread0) + LifeLeft(s.thread1)
  }

  /** Every action but the use of a socket brings the end nearer. */
  lemma {:induction false} EveryActionMovesOn(s: Sys, act: Act)
    requires Inv(s) && Next(s, act).Some? && !act.Use?
    ensures Left(Next(s, act).value) < Left(s)
  {
    assert s.pc == Create0 ==> s.thread0.life == NotStarted;
    assert s.pc == Create1 ==> s.thread1.life == NotStarted;
    hide Inv;
    ActionMovesOn(s, act);
  }

  lemma {:induction false} ActionMovesOn(s: Sys, act: Act)
    requires Next(s, act).Some? && !act.Use?
    requires s.pc == Create0 ==> s.thread0.life == NotStarted
    requires s.pc == Create1 ==> s.thread1.life == NotStarted
    ensures Left(Next(s, act).value) < Left(s)
  {}

  function Moves(acts: seq<Act>): nat {
    if acts == [] then 0 else Moves(acts[..|acts| - 1]) + if acts[|acts| - 1].Use? then 0 else 1
  }

  /** So no run takes more than 20 of them. */
  lemma {:induction false} RunsAreShort(acts: seq<Act>)
    requires After(acts).Some?
    ensures Moves(acts) + Left(After(acts).value) <= 20
    decreases |acts|
  {
    if acts != [] {
      var init, last := acts[..|acts| - 1], acts[|acts| - 1];
      RunsAreShort(init);
      AfterKeepsInv(init);
      if !last.Use? {
        EveryActionMovesOn(After(init).value, last);
      }
    }
  }

  /** The main thread waits for a notice, and both relay threads have ended without one getting through. */
  predicate BothUnheard(s: Sys) {
    && s.pc == ReadPipe && s.notices == []
    && s.thread0.life == Terminated && s.thread1.life == Terminated
  }

  /**
   The teardown can't get stuck: short of the end some action is possible without any call failing, even when one
   thread's exit notice was lost on its way to the pipe, unless both threads have ended unheard.
   */
  lemma {:induction false} NeverStuck(acts: seq<Act>) returns (act: Act)
    requires After(acts).Some? && After(acts).value.pc != Done && !BothUnheard(After(acts).value)
    ensures Next(After(acts).value, act).Some? && !act.Use?
    ensures act.Main? || act.Report? ==> act.ok
  {
    AfterKeepsInv(acts);
    var s := After(acts).value;
    if MainStep(s, true).Some? {
      return Main(true);
    }
    var t := match s.pc
             case JoinExited(tid) => tid
             case JoinCancelled(other) => other
             case JoinBoth1 => 1
             case ReadPipe => if s.thread0.life == Terminated then 1 else 0
             case _ => 0;
    if s.Of(t).life == Running && !s.Of(t).cancelled {
      act := Report(t, true);
    } else if s.Of(t).life == Reported {
      act := Terminate(t);
    } else {
      act := CancelLands(t);
    }
  }

  /** There both notices were lost, and nothing can happen but that the read of the pipe fails. */
  lemma {:induction false} StuckOnceUnheard(acts: seq<Act>, act: Act)
    requires After(acts).Some? && BothUnheard(After(acts).value)
    ensures After(acts).value.thread0.lost && After(acts).value.thread1.lost
    ensures Next(After(acts).value, act).Some? ==> act == Main(false)
  {
    AfterKeepsInv(acts);
  }

  lemma {:induction false} AfterMore(acts: seq<Act>, act: Act)
    ensures After(acts).Some? ==> After(acts + [act]) == Next(After(acts).value, act)
  {
    assert (acts + [act])[..|acts|] == acts;
  }

  /** A run that comes to it: everything is opened and started, and then both threads fail to report. */
  lemma {:induction false} BothLost() returns (acts: seq<Act>)
    ensures After(acts).Some? && BothUnheard(After(acts).value)
  {
    acts := [];
    var s := START;
    for i := 0 to 6
      invariant After(acts) == Some(s)
      invariant s.pc == [OpenA, OpenB, OpenPipe, Authenticate, Create0, Create1, ReadPipe][i]
      invariant s.notices == []
      invariant s.thread0.life == if i <= 4 then NotStarted else Running
      invariant s.thread1.life == if i <= 5 then NotStarted else Running
    {
      AfterMore(acts, Main(true));
      acts, s := acts + [Main(true)], Next(s, Main(true)).value;
    }
    for t := 0 to 2
      invariant After(acts) == Some(s) && s.pc == ReadPipe && s.notices == []
      invariant s.thread0.life == if t == 0 then Running else Terminated
      invariant s.thread1.life == if t <= 1 then Running else Terminated
    {
      AfterMore(acts, Report(t, false));
      acts, s := acts + [Report(t, false)], Next(s, Report(t, false)).value;
      AfterMore(acts, Terminate(t));
      acts, s := acts + [Terminate(t)], Next(s, Terminate(t)).value;
    }
  }
}
