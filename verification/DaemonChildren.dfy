/**
 The daemon's children as its main loop handles them: the srv processes it forks for requests, the key
 checks it starts, and the one place where they are reaped, which tells both tables.

 The kernel is trusted not to give a child the pid of one that hasn't been reaped.
 */
module DaemonChildren {
  import opened Wrappers
  import opened Tables
  import opened SrvStarts
  import CS = ClientSessions
  import KC = KeyChecks

  /**
   children is what has been forked and not reaped; created and closed count the ready pipes the
   daemon has taken over and closed.
   */
  datatype Daemon = Daemon(
    starts: seq<Start>,
    watch: CS.Watch,
    children: set<int>,
    created: set<nat>,
    closed: multiset<nat>)

  datatype Event =
    | Serve(pid: int, pipe: Option<nat>, now: int, id: string, key: Option<string>, startMemory: bool, memory: bool)
    | Reap(pid: int, exit: Option<int>)
    | PollStarts(now: int, settled: set<nat>)
    | TickSessions(now: int, start: CS.Starter)

  /** Children that are started have pids that no child has, each its own. */
  ghost predicate PidsAreNew(start: CS.Starter, children: set<int>) {
    && (forall key :: start.pid(key) > 0 ==> start.pid(key) !in children)
    && forall key1, key2 :: start.pid(key1) > 0 && start.pid(key2) > 0 && key1 != key2 ==>
      start.pid(key1) != start.pid(key2)
  }

  /** What the kernel guarantees of an event. */
  ghost predicate Possible(d: Daemon, ev: Event) {
    match ev
    case Serve(pid, pipe, _, _, _, _, _) => pid > 0 && pid !in d.children && (pipe.Some? ==> pipe.value !in d.created)
    case Reap(pid, _) => pid in d.children
    case PollStarts(_, _) => true
    case TickSessions(_, start) =>
      PidsAreNew(start, d.children)
  }

  /** The children there are when the event's signals are sent. */
  function Alive(d: Daemon, ev: Event): set<int> {
    match ev
    case Serve(pid, _, _, _, _, _, _) => d.children + {pid}
    case Reap(pid, _) => d.children - {pid}
    case _ => d.children
  }

  function Targets(signals: seq<CS.Signal>): (r: seq<int>)
    ensures |r| == |signals|
  {
    seq(|signals|, i requires 0 <= i < |signals| => signals[i].pid)
  }

  function CheckPids(checks: seq<CS.KeyCheck>): set<int> {
    set i | 0 <= i < |checks| :: checks[i].pid
  }

  /** The daemon after an event, and the processes it signalled. */
  function Step(d: Daemon, ev: Event): (Daemon, seq<int>) {
    match ev
    case Serve(pid, pipe, now, id, key, startMemory, memory) =>
      var out := if pipe.None? then Outcome(d.starts, [], [])
                 else Watched(d.starts, pid, pipe.value, now, startMemory);
      var (watch, signals) := if key.None? then (d.watch, [])
                              else CS.Tracked(d.watch, id, key.value, pid, memory);
      (Daemon(out.starts, watch, d.children + {pid}, d.created + if pipe.None? then {} else {pipe.value},
              d.closed + multiset(out.closed)),
       Targets(signals))
    case Reap(pid, exit) =>
      var out := ReapedStart(d.starts, pid);
      var (watch, signals) := CS.Reap(d.watch, pid, exit);
      (Daemon(out.starts, watch, d.children - {pid}, d.created, d.closed + multiset(out.closed)), Targets(signals))
    case PollStarts(now, settled) =>
      var out := Polled(d.starts, 0, now, settled);
      (d.(starts := out.starts, closed := d.closed + multiset(out.closed)), out.killed)
    case TickSessions(now, start) =>
      var (watch, signals) := CS.Ticked(d.watch, now, start);
      (d.(watch := watch, children := d.children + CheckPids(watch.checks)), Targets(signals))
  }

  predicate StartsOk(starts: seq<Start>, children: set<int>) {
    && (forall i :: 0 <= i < |starts| ==> starts[i].pid in children)
    && forall i, j :: 0 <= i < j < |starts| ==> starts[i].pid != starts[j].pid
  }

  predicate SessionPidsOk(sessions: seq<CS.Session>, children: set<int>) {
    && (forall i :: 0 <= i < |sessions| ==> sessions[i].pid in children)
    && forall i, j :: 0 <= i < j < |sessions| ==> sessions[i].pid != sessions[j].pid
  }

  predicate CheckPidsOk(checks: seq<CS.KeyCheck>, children: set<int>) {
    && (forall i :: 0 <= i < |checks| ==> checks[i].pid in children)
    && forall i, j :: 0 <= i < j < |checks| ==> checks[i].pid != checks[j].pid
  }

  /** No process is both a session's and a check's. */
  predicate Apart(sessions: seq<CS.Session>, checks: seq<CS.KeyCheck>) {
    forall i, j :: 0 <= i < |sessions| && 0 <= j < |checks| ==> sessions[i].pid != checks[j].pid
  }

  predicate PipesOk(d: Daemon) {
    multiset(Pipes(d.starts)) + d.closed == multiset(d.created)
  }

  predicate Inv(d: Daemon) {
    && CS.WatchOk(d.watch)
    && StartsOk(d.starts, d.children)
    && SessionPidsOk(d.watch.sessions, d.children)
    && CheckPidsOk(d.watch.checks, d.children)
    && Apart(d.watch.sessions, d.watch.checks)
    && PipesOk(d)
  }

  predicate AllIn(pids: seq<int>, children: set<int>) {
    forall i :: 0 <= i < |pids| ==> pids[i] in children
  }

  /** Of a request served, only the new child is signalled, and only when its session's id is watched already. */
  lemma {:induction false} ServeOk(d: Daemon, ev: Event)
    requires Inv(d) && ev.Serve? && Possible(d, ev)
    ensures Inv(Step(d, ev).0) && AllIn(Step(d, ev).1, Alive(d, ev))
    ensures Step(d, ev).1 == if ev.key.Some? && CS.Watched(d.watch.sessions, ev.id) then [ev.pid] else []
  {
    hide CS.AtSignOf;
    ServeStartsOk(d, ev);
    if ev.key.Some? {
      CS.TrackKeepsOk(d.watch, ev.id, ev.key.value, ev.pid, ev.memory);
    }
    hide CS.WatchOk, PipesOk, Watched;
  }

  lemma {:induction false} ServeStartsOk(d: Daemon, ev: Event)
    requires Inv(d) && ev.Serve? && Possible(d, ev)
    ensures StartsOk(Step(d, ev).0.starts, d.children + {ev.pid}) && PipesOk(Step(d, ev).0)
  {
    hide CS.Tracked, CS.WatchOk;
    if ev.pipe.Some? {
      assert Pipes(d.starts + [Start(ev.pid, ev.pipe.value, ev.now)]) == Pipes(d.starts) + [ev.pipe.value];
      assert multiset(d.created + {ev.pipe.value}) == multiset(d.created) + multiset{ev.pipe.value};
    } else {
      assert d.created + {} == d.created;
    }
  }

  lemma {:induction false} EndSignalsSessions(sessions: seq<CS.Session>, key: string, children: set<int>)
    requires forall i :: 0 <= i < |sessions| ==> sessions[i].pid in children
    ensures forall s :: s in CS.Ended(sessions, key).1 ==> s.pid in children
    decreases |sessions|
  {
    if sessions != [] {
      EndSignalsSessions(sessions[..|sessions| - 1], key, children);
    }
  }

  lemma {:induction false} ReapStartsOk(d: Daemon, pid: int)
    requires Inv(d)
    ensures var out := ReapedStart(d.starts, pid);
      && StartsOk(out.starts, d.children - {pid})
      && multiset(Pipes(out.starts)) + d.closed + multiset(out.closed) == multiset(d.created)
  {
    var i := StartOf(d.starts, pid);
    if i < |d.starts| {
      SwapRemoved(d.starts, i);
      PipesSwapRemoved(d.starts, i);
    }
  }

  lemma {:induction false} ReapSessionOk(w: CS.Watch, pid: int, children: set<int>)
    requires SessionPidsOk(w.sessions, children) && CheckPidsOk(w.checks, children) && Apart(w.sessions, w.checks)
    requires CS.SessionOf(w.sessions, pid) < |w.sessions|
    ensures var fewer := SwapRemove(w.sessions, CS.SessionOf(w.sessions, pid));
      && SessionPidsOk(fewer, children - {pid}) && CheckPidsOk(w.checks, children - {pid})
      && Apart(fewer, w.checks)
  {}

  lemma {:induction false} ReapCheckOk(w: CS.Watch, pid: int, children: set<int>)
    requires SessionPidsOk(w.sessions, children) && CheckPidsOk(w.checks, children) && Apart(w.sessions, w.checks)
    requires CS.SessionOf(w.sessions, pid) == |w.sessions| && CS.CheckOf(w.checks, pid) < |w.checks|
    ensures var fewer := SwapRemove(w.checks, CS.CheckOf(w.checks, pid));
      && SessionPidsOk(w.sessions, children - {pid}) && CheckPidsOk(fewer, children - {pid})
      && Apart(w.sessions, fewer)
  {}

  lemma {:induction false} ReapWatchOk(w: CS.Watch, pid: int, exit: Option<int>, children: set<int>)
    requires CS.WatchOk(w) && SessionPidsOk(w.sessions, children) && CheckPidsOk(w.checks, children)
    requires Apart(w.sessions, w.checks)
    ensures var (r, signals) := CS.Reap(w, pid, exit);
      && CS.WatchOk(r) && SessionPidsOk(r.sessions, children - {pid}) && CheckPidsOk(r.checks, children - {pid})
      && Apart(r.sessions, r.checks) && forall s :: s in signals ==> s.pid in children - {pid}
  {
    CS.ReapKeepsOk(w, pid, exit);
    assert CS.SessionsOk(w.sessions, w.tracked);
    hide CS.WatchOk, CS.SessionsOk;
    var c := CS.CheckOf(w.checks, pid);
    if CS.SessionOf(w.sessions, pid) < |w.sessions| {
      ReapSessionOk(w, pid, children);
    } else if c < |w.checks| {
      ReapCheckOk(w, pid, children);
      if CS.Withdrawn(exit) {
        EndKeepsPids(w.sessions, w.checks[c].key, w.tracked);
        EndSignalsSessions(w.sessions, w.checks[c].key, children - {pid});
      }
    }
  }

  lemma {:induction false} EndKeepsPids(sessions: seq<CS.Session>, key: string, tracked: nat)
    requires CS.SessionsOk(sessions, tracked)
    ensures forall i :: 0 <= i < |sessions| ==> CS.Ended(sessions, key).0[i].pid == sessions[i].pid
  {
    CS.EndsEachOnce(sessions, key, 0);
  }

  lemma {:induction false} ReapOk(d: Daemon, ev: Event)
    requires Inv(d) && ev.Reap? && Possible(d, ev)
    ensures Inv(Step(d, ev).0) && AllIn(Step(d, ev).1, Alive(d, ev))
  {
    ReapStartsOk(d, ev.pid);
    ReapWatchOk(d.watch, ev.pid, ev.exit, d.children);
  }

  lemma {:induction false} PollOk(d: Daemon, ev: Event)
    requires Inv(d) && ev.PollStarts?
    ensures Inv(Step(d, ev).0) && AllIn(Step(d, ev).1, Alive(d, ev))
  {
    var out := Polled(d.starts, 0, ev.now, ev.settled);
    PollClosesWhatItDrops(d.starts, 0, ev.now, ev.settled);
    PollKeepsDistinct(d.starts, 0, ev.now, ev.settled, d.children);
    forall i | 0 <= i < |out.killed| ensures out.killed[i] in d.children {
      PollStopsOnlyTheLate(d.starts, 0, ev.now, ev.settled, out.killed[i]);
    }
  }

  lemma {:induction false} PollKeepsDistinct(
    starts: seq<Start>, i: nat, now: int, settled: set<nat>, children: set<int>)
    requires i <= |starts| && StartsOk(starts, children)
    ensures StartsOk(Polled(starts, i, now, settled).starts, children)
    decreases |starts| - i
  {
    if i < |starts| {
      if !Pending(starts[i], now, settled) {
        SwapRemoved(starts, i);
        PollKeepsDistinct(SwapRemove(starts, i), i, now, settled, children);
      } else {
        PollKeepsDistinct(starts, i + 1, now, settled, children);
      }
    }
  }

  predicate StartedBy(checks: seq<CS.KeyCheck>, from: nat, start: CS.Starter) {
    forall j :: from <= j < |checks| ==> checks[j].pid == start.pid(checks[j].key) && checks[j].pid > 0
  }

  lemma {:induction false} OverrunsAreChecks(checks: seq<CS.KeyCheck>, now: int, children: set<int>)
    requires forall i :: 0 <= i < |checks| ==> checks[i].pid in children
    ensures forall s :: s in CS.Overruns(checks, now) ==> s.pid in children
    decreases |checks|
  {
    if checks != [] {
      OverrunsAreChecks(checks[..|checks| - 1], now, children);
    }
  }

  /** What a tick does to the pids of the watch's tables. */
  lemma {:induction false} TickPids(w: CS.Watch, now: int, start: CS.Starter)
    requires CS.WatchOk(w)
    ensures var r := CS.Ticked(w, now, start).0;
      && w.checks <= r.checks && StartedBy(r.checks, |w.checks|, start) && |r.sessions| == |w.sessions|
      && forall j :: 0 <= j < |w.sessions| ==> r.sessions[j].pid == w.sessions[j].pid
  {
    CS.TickKeepsOk(w, now, start);
    var r := CS.Ticked(w, now, start).0;
    if w.interval > 0 {
      var nextDue := if w.nextDue == 0 then now + w.interval else w.nextDue;
      var marked := if now >= nextDue then CS.MarkDue(w.sessions) else w.sessions;
      KC.ScanStarts(marked, w.checks, 0, now, start);
    }
    forall j | 0 <= j < |w.sessions| ensures r.sessions[j].pid == w.sessions[j].pid {
      assert r.sessions[j].(due := false) == w.sessions[j].(due := false);
    }
  }

  lemma {:induction false} ChecksStayApart(
    checks: seq<CS.KeyCheck>, more: seq<CS.KeyCheck>, start: CS.Starter, children: set<int>)
    requires CheckPidsOk(checks, children) && checks <= more && StartedBy(more, |checks|, start) && CS.ChecksOk(more)
    requires PidsAreNew(start, children)
    ensures CheckPidsOk(more, children + CheckPids(more))
  {}

  lemma {:induction false} TickOk(d: Daemon, ev: Event)
    requires Inv(d) && ev.TickSessions? && Possible(d, ev)
    ensures Inv(Step(d, ev).0) && AllIn(Step(d, ev).1, Alive(d, ev))
  {
    var w := d.watch;
    CS.TickKeepsOk(w, ev.now, ev.start);
    TickPids(w, ev.now, ev.start);
    OverrunsAreChecks(w.checks, ev.now, d.children);
    var r := CS.Ticked(w, ev.now, ev.start).0;
    ChecksStayApart(w.checks, r.checks, ev.start, d.children);
  }

  lemma {:induction false} StepOk(d: Daemon, ev: Event)
    requires Inv(d) && Possible(d, ev)
    ensures Inv(Step(d, ev).0) && AllIn(Step(d, ev).1, Alive(d, ev))
  {
    hide Inv, Step;
    match ev
    case Serve(_, _, _, _, _, _, _) => ServeOk(d, ev);
    case Reap(_, _) => ReapOk(d, ev);
    case PollStarts(_, _) => PollOk(d, ev);
    case TickSessions(_, _) => TickOk(d, ev);
  }

  function Init(interval: nat): Daemon {
    Daemon([], CS.Init(interval), {}, {}, multiset{})
  }

  /** The daemon after a run. */
  function Run(interval: nat, events: seq<Event>): Daemon
    decreases |events|
  {
    if events == [] then Init(interval)
    else Step(Run(interval, events[..|events| - 1]), events[|events| - 1]).0
  }

  /** A run in which the kernel keeps to its guarantee. */
  ghost predicate RunPossible(interval: nat, events: seq<Event>) {
    forall k :: 0 <= k < |events| ==> Possible(Run(interval, events[..k]), events[k])
  }

  lemma {:induction false} RunOk(interval: nat, events: seq<Event>)
    requires RunPossible(interval, events)
    ensures Inv(Run(interval, events))
    decreases |events|
  {
    if events != [] {
      var init := events[..|events| - 1];
      assert forall k :: 0 <= k < |init| ==> init[..k] == events[..k];
      RunOk(interval, init);
      StepOk(Run(interval, init), events[|events| - 1]);
    }
  }

  /** Over every run, each signal goes to a child that hasn't been reaped. */
  lemma {:induction false} OnlyUnreapedAreSignalled(interval: nat, events: seq<Event>, k: nat)
    requires RunPossible(interval, events) && k < |events|
    ensures var d := Run(interval, events[..k]);
      AllIn(Step(d, events[k]).1, Alive(d, events[k]))
  {
    assert forall i :: 0 <= i < k ==> events[..k][..i] == events[..i];
    RunOk(interval, events[..k]);
    StepOk(Run(interval, events[..k]), events[k]);
  }

  /** Over every run, each ready pipe the daemon took over is still watched, or was closed once, but not both. */
  lemma {:induction false} EachPipeIsClosedOnce(interval: nat, events: seq<Event>, pipe: nat)
    requires RunPossible(interval, events)
    ensures var d := Run(interval, events);
      && d.closed[pipe] + multiset(Pipes(d.starts))[pipe] == (if pipe in d.created then 1 else 0)
      && (forall i, j :: 0 <= i < j < |d.starts| ==> d.starts[i].pid != d.starts[j].pid)
      && (forall i, j :: 0 <= i < j < |d.watch.sessions| ==> d.watch.sessions[i].pid != d.watch.sessions[j].pid)
      && forall i, j :: 0 <= i < j < |d.watch.checks| ==> d.watch.checks[i].pid != d.watch.checks[j].pid
  {
    RunOk(interval, events);
    var d := Run(interval, events);
    assert (multiset(Pipes(d.starts)) + d.closed)[pipe] == multiset(d.created)[pipe];
  }
}
