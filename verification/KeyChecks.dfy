/**
 When the keys of sessions are checked, over whole runs of the daemon's watch: what finds them due, what is started for
 them, what becomes of a check that takes too long, and whom a withdrawn key's end is sent to.
 */
module KeyChecks {
  import opened Wrappers
  import opened Tables
  import opened ClientSessions

  // ---- Checks that take too long ----

  /** The places of pid's checks that have taken too long. */
  function Late(checks: seq<KeyCheck>, pid: int, now: int): set<int> {
    set i | 0 <= i < |checks| && checks[i].pid == pid && now - checks[i].started > OVERRUN_SECS
  }

  lemma {:induction false} OverrunsAreLate(checks: seq<KeyCheck>, pid: int, now: int)
    ensures multiset(Overruns(checks, now))[Kill(pid)] == |Late(checks, pid, now)|
    ensures forall x :: x in Overruns(checks, now) ==> x.Kill?
    decreases |checks|
  {
    if checks != [] {
      var init, n := checks[..|checks| - 1], |checks| - 1;
      OverrunsAreLate(init, pid, now);
      assert forall i :: 0 <= i < n ==> init[i] == checks[i];
      var isLate := checks[n].pid == pid && now - checks[n].started > OVERRUN_SECS;
      assert Late(checks, pid, now) == Late(init, pid, now) + if isLate then {n} else {};
    }
  }

  /** A tick sends SIGKILL once for each check that has taken too long, and nothing else. */
  lemma {:induction false} TickKillsTheLate(w: Watch, now: int, start: Starter, pid: int)
    requires w.interval > 0
    ensures var signals := Ticked(w, now, start).1;
      && multiset(signals)[Kill(pid)] == |Late(w.checks, pid, now)|
      && forall x :: x in signals ==> x.Kill?
    ensures Kill(pid) in Ticked(w, now, start).1 <==>
      exists i :: 0 <= i < |w.checks| && w.checks[i].pid == pid && now - w.checks[i].started > OVERRUN_SECS
  {
    OverrunsAreLate(w.checks, pid, now);
    hide Overruns;
    var signals := Ticked(w, now, start).1;
    assert Kill(pid) in signals <==> multiset(signals)[Kill(pid)] > 0;
    if i :| 0 <= i < |w.checks| && w.checks[i].pid == pid && now - w.checks[i].started > OVERRUN_SECS {
      assert i in Late(w.checks, pid, now);
    } else {
      assert Late(w.checks, pid, now) == {};
    }
  }

  /** The checks from this index on were started now, with the pids their keys were started with. */
  predicate StartedNow(checks: seq<KeyCheck>, from: nat, now: int, start: Starter) {
    forall j :: from <= j < |checks| ==>
      checks[j].started == now && checks[j].pid == start.pid(checks[j].key) && checks[j].pid > 0
  }

  lemma {:induction false} ScanStarts(
    sessions: seq<Session>, checks: seq<KeyCheck>, i: nat, now: int, start: Starter)
    requires i <= |sessions|
    ensures StartedNow(Scan(sessions, checks, i, now, start).1, |checks|, now, start)
    decreases |sessions| - i
  {
    hide AtSignOf, ChecksOf, BeingChecked, ClearDue;
    if i < |sessions| && |checks| < MAX_KEY_CHECKS {
      var s := sessions[i];
      var cleared := ClearDue(sessions, s.key);
      if !s.due || s.ending || (!BeingChecked(checks, s.key) && Capped(checks, s.key)) {
        ScanStarts(sessions, checks, i + 1, now, start);
      } else if !BeingChecked(checks, s.key) && !start.copied(s.key) {
        assert Scan(sessions, checks, i, now, start) == (sessions, checks);
      } else if BeingChecked(checks, s.key) || start.pid(s.key) <= 0 {
        ScanStarts(cleared, checks, i + 1, now, start);
      } else {
        var started := checks + [KeyCheck(s.key, start.pid(s.key), now)];
        ScanStarts(cleared, started, i + 1, now, start);
        assert Scan(sessions, checks, i, now, start) == Scan(cleared, started, i + 1, now, start);
        assert Scan(cleared, started, i + 1, now, start).1[|checks|] == started[|checks|];
      }
    }
  }

  /** Event j started check c. */
  predicate Starts(ev: Event, c: KeyCheck) {
    ev.Tick? && ev.now == c.started && ev.start.pid(c.key) == c.pid > 0
  }

  lemma {:induction false} ApplyStarts(w: Watch, ev: Event, c: KeyCheck)
    requires c in Apply(w, ev).0.checks
    ensures c in w.checks || Starts(ev, c)
  {
    hide AtSignOf, ChecksOf, Scan, ClearDue, Ended, SessionOf, CheckOf;
    match ev
    case Track(_, _, _, _) =>
    case Tick(now, start) =>
      if w.interval > 0 {
        var nextDue := if w.nextDue == 0 then now + w.interval else w.nextDue;
        var marked := if now >= nextDue then MarkDue(w.sessions) else w.sessions;
        ScanStarts(marked, w.checks, 0, now, start);
        var r := Scan(marked, w.checks, 0, now, start).1;
        var j :| 0 <= j < |r| && r[j] == c;
        assert j < |w.checks| ==> w.checks[j] == c;
      }
    case Reaped(pid, exit) =>
      if SessionOf(w.sessions, pid) == |w.sessions| && CheckOf(w.checks, pid) < |w.checks| {
        SwapRemoved(w.checks, CheckOf(w.checks, pid));
      }
  }

  /** Every check there is was started by some tick of the run. */
  lemma {:induction false} ChecksWereStarted(interval: nat, events: seq<Event>, c: KeyCheck) returns (j: nat)
    requires c in Run(interval, events).0.checks
    ensures j < |events| && Starts(events[j], c)
    decreases |events|
  {
    var init, last := events[..|events| - 1], events[|events| - 1];
    ApplyStarts(Run(interval, init).0, last, c);
    hide Apply;
    if c in Run(interval, init).0.checks {
      j := ChecksWereStarted(interval, init, c);
    } else {
      j := |events| - 1;
    }
  }

  /** Over every run: a check is sent SIGKILL only by a tick, and more than the limit after the tick that started it. */
  lemma {:induction false} OnlyOverrunChecksAreKilled(interval: nat, events: seq<Event>, ev: Event, pid: int)
    returns (j: nat, c: KeyCheck)
    requires Kill(pid) in Apply(Run(interval, events).0, ev).1
    ensures j < |events| && Starts(events[j], c) && c.pid == pid
    ensures ev.Tick? && ev.now - events[j].now > OVERRUN_SECS
  {
    var w := Run(interval, events).0;
    OnlyTicksKill(w, ev, pid);
    TickKillsTheLate(w, ev.now, ev.start, pid);
    var i :| 0 <= i < |w.checks| && w.checks[i].pid == pid && ev.now - w.checks[i].started > OVERRUN_SECS;
    c := w.checks[i];
    j := ChecksWereStarted(interval, events, c);
  }

  lemma {:induction false} OnlyTicksKill(w: Watch, ev: Event, pid: int)
    requires Kill(pid) in Apply(w, ev).1
    ensures ev.Tick? && w.interval > 0
  {
    if ev.Reaped? {
      var c := CheckOf(w.checks, ev.pid);
      if c < |w.checks| {
        EndedSignals(w.sessions, w.checks[c].key, Kill(pid));
      }
    }
  }

  predicate IsEndOf(x: Signal, s: Session, key: string) {
    s.key == key && !s.ending && x == Terminate(s.pid, s.serial)
  }

  /** A key's end signals the very processes of its sessions. */
  lemma {:induction false} EndedSignals(sessions: seq<Session>, key: string, x: Signal)
    requires x in Ended(sessions, key).1
    ensures x.Terminate?
    ensures exists i :: 0 <= i < |sessions| && IsEndOf(x, sessions[i], key)
    decreases |sessions|
  {
    var init, last := sessions[..|sessions| - 1], sessions[|sessions| - 1];
    if x in Ended(init, key).1 {
      EndedSignals(init, key, x);
      var i :| 0 <= i < |init| && IsEndOf(x, init[i], key);
      assert sessions[i] == init[i];
    } else {
      assert IsEndOf(x, sessions[|sessions| - 1], key);
    }
  }

  // ---- When keys are checked ----

  /** The tick that the next time keys are due is counted from: the last one at which they were, or else the first. */
  function CountedFrom(interval: nat, events: seq<Event>): Option<int> {
    if events == [] then None
    else
      var from, last := CountedFrom(interval, events[..|events| - 1]), events[|events| - 1];
      if last.Tick? && (from == None || last.now - from.value >= interval) then Some(last.now) else from
  }

  /** Whether a tick of a run finds all keys due: an interval after the last one that did, or after the first tick. */
  predicate AllDue(interval: nat, events: seq<Event>, now: int) {
    CountedFrom(interval, events).Some? && now - CountedFrom(interval, events).value >= interval
  }

  predicate ClockIsPositive(events: seq<Event>) {
    forall i :: 0 <= i < |events| && events[i].Tick? ==> events[i].now > 0
  }

  lemma {:induction false} NextDueIs(interval: nat, events: seq<Event>)
    requires interval > 0 && ClockIsPositive(events)
    ensures var from := CountedFrom(interval, events);
      && Run(interval, events).0.nextDue == (if from == None then 0 else from.value + interval)
      && (from.Some? ==> from.value > 0)
    decreases |events|
  {
    RunOk(interval, events);
    hide Scan, Reap, Tracked, Overruns, WatchOk;
    if events != [] {
      var init, last := events[..|events| - 1], events[|events| - 1];
      NextDueIs(interval, init);
      RunOk(interval, init);
      OnlyTicksSetDue(Run(interval, init).0, last);
    }
  }

  lemma {:induction false} OnlyTicksSetDue(w: Watch, ev: Event)
    ensures !ev.Tick? ==> Apply(w, ev).0.nextDue == w.nextDue
  {
    hide Ended, SessionOf, CheckOf;
  }

  /** What has become of a session that was due when the scan came to it: it is under check, or can't be. */
  predicate LookedAt(after: seq<Session>, started: seq<KeyCheck>, j: nat, start: Starter)
    requires j < |after|
  {
    after[j].due || BeingChecked(started, after[j].key) || start.pid(after[j].key) <= 0
  }

  /** The scan clears a flag only of a key that is under check or can't be. */
  lemma {:induction false} ScanLooks(
    sessions: seq<Session>, checks: seq<KeyCheck>, i: nat, now: int, start: Starter, j: nat)
    requires i <= |sessions| && j < |sessions| && sessions[j].due
    ensures LookedAt(Scan(sessions, checks, i, now, start).0, Scan(sessions, checks, i, now, start).1, j, start)
    ensures Scan(sessions, checks, i, now, start).0[j].key == sessions[j].key
    decreases |sessions| - i
  {
    hide AtSignOf, ChecksOf;
    if i < |sessions| && |checks| < MAX_KEY_CHECKS {
      var s := sessions[i];
      var cleared := ClearDue(sessions, s.key);
      if !s.due || s.ending || (!BeingChecked(checks, s.key) && Capped(checks, s.key)) {
        ScanLooks(sessions, checks, i + 1, now, start, j);
      } else if BeingChecked(checks, s.key) || start.copied(s.key) {
        var started := if BeingChecked(checks, s.key) || start.pid(s.key) <= 0 then checks
                       else checks + [KeyCheck(s.key, start.pid(s.key), now)];
        assert started != checks ==> started[|checks|].key == s.key;
        if sessions[j].key == s.key {
          ClearedLooked(cleared, started, i + 1, now, start, j);
        } else {
          ScanLooks(cleared, started, i + 1, now, start, j);
        }
      }
    }
  }

  /** Keys under check stay so for the rest of the scan. */
  lemma {:induction false} ClearedLooked(
    sessions: seq<Session>, checks: seq<KeyCheck>, i: nat, now: int, start: Starter, j: nat)
    requires i <= |sessions| && j < |sessions| && LookedAt(sessions, checks, j, start) && !sessions[j].due
    ensures LookedAt(Scan(sessions, checks, i, now, start).0, Scan(sessions, checks, i, now, start).1, j, start)
    ensures Scan(sessions, checks, i, now, start).0[j].key == sessions[j].key
  {
    ScanKeepsKeys(sessions, checks, i, now, start);
    hide Scan;
    var started := Scan(sessions, checks, i, now, start).1;
    if BeingChecked(checks, sessions[j].key) {
      var k :| 0 <= k < |checks| && checks[k].key == sessions[j].key;
      assert started[k] == checks[k];
    }
  }

  lemma {:induction false} ScanKeepsKeys(
    sessions: seq<Session>, checks: seq<KeyCheck>, i: nat, now: int, start: Starter)
    requires i <= |sessions|
    ensures forall j :: 0 <= j < |sessions| ==> Scan(sessions, checks, i, now, start).0[j].key == sessions[j].key
    decreases |sessions| - i
  {
    hide AtSignOf, ChecksOf, BeingChecked;
    if i < |sessions| && |checks| < MAX_KEY_CHECKS {
      var s := sessions[i];
      var cleared := ClearDue(sessions, s.key);
      ScanKeepsKeys(sessions, checks, i + 1, now, start);
      ScanKeepsKeys(cleared, checks, i + 1, now, start);
      ScanKeepsKeys(cleared, checks + [KeyCheck(s.key, start.pid(s.key), now)], i + 1, now, start);
    }
  }

  /** No session is due after a scan that wasn't before. */
  lemma {:induction false} ScanSetsNoneDue(
    sessions: seq<Session>, checks: seq<KeyCheck>, i: nat, now: int, start: Starter)
    requires i <= |sessions|
    ensures SameButDue(sessions, Scan(sessions, checks, i, now, start).0)
    decreases |sessions| - i
  {
    hide AtSignOf, ChecksOf, BeingChecked;
    if i < |sessions| && |checks| < MAX_KEY_CHECKS {
      var s := sessions[i];
      var cleared := ClearDue(sessions, s.key);
      ScanSetsNoneDue(sessions, checks, i + 1, now, start);
      ScanSetsNoneDue(cleared, checks, i + 1, now, start);
      ScanSetsNoneDue(cleared, checks + [KeyCheck(s.key, start.pid(s.key), now)], i + 1, now, start);
    }
  }

  predicate WantsCheck(s: Session, key: string) {
    s.key == key && s.due && !s.ending
  }

  /** A check is started only of the key of some session that is due. */
  lemma {:induction false} ScanStartsTheDue(
    sessions: seq<Session>, checks: seq<KeyCheck>, i: nat, now: int, start: Starter, c: KeyCheck)
    requires i <= |sessions| && c in Scan(sessions, checks, i, now, start).1 && c !in checks
    ensures exists m :: 0 <= m < |sessions| && WantsCheck(sessions[m], c.key)
    decreases |sessions| - i
  {
    hide AtSignOf, ChecksOf;
    if i < |sessions| && |checks| < MAX_KEY_CHECKS {
      var s := sessions[i];
      var cleared := ClearDue(sessions, s.key);
      if !s.due || s.ending || (!BeingChecked(checks, s.key) && Capped(checks, s.key)) {
        ScanStartsTheDue(sessions, checks, i + 1, now, start, c);
      } else if BeingChecked(checks, s.key) || start.copied(s.key) {
        var started := if BeingChecked(checks, s.key) || start.pid(s.key) <= 0 then checks
                       else checks + [KeyCheck(s.key, start.pid(s.key), now)];
        if c in started {
          assert WantsCheck(sessions[i], c.key);
        } else {
          ScanStartsTheDue(cleared, started, i + 1, now, start, c);
          var m :| 0 <= m < |cleared| && WantsCheck(cleared[m], c.key);
          assert WantsCheck(sessions[m], c.key);
        }
      }
    }
  }

  /**
   Over every run: a tick that comes an interval or more after the last one that found the keys due, or after the first,
   has the key of each session checked that isn't ending, unless a limit is reached, the check can't be started or, from
   session k on, memory is short.
   */
  lemma {:induction false} AllKeysAreChecked(interval: nat, events: seq<Event>, now: int, start: Starter, j: nat)
    returns (k: nat)
    requires interval > 0 && ClockIsPositive(events) && AllDue(interval, events, now)
    requires j < |Run(interval, events).0.sessions| && !Run(interval, events).0.sessions[j].ending
    ensures var w := Run(interval, events).0;
      var r := Ticked(w, now, start).0;
      && |r.sessions| == |w.sessions|
      && (k == |r.sessions| || StoppedAt(r.sessions, k, start))
      && (j < k ==>
            || BeingChecked(r.checks, w.sessions[j].key) || Capped(r.checks, w.sessions[j].key)
            || start.pid(w.sessions[j].key) <= 0)
  {
    var w := Run(interval, events).0;
    RunOk(interval, events);
    NextDueIs(interval, events);
    k := TickLeavesOnlyCapped(w, now, start);
    ScanLooks(MarkDue(w.sessions), w.checks, 0, now, start, j);
    ScanSetsNoneDue(MarkDue(w.sessions), w.checks, 0, now, start);
    hide Scan, Run, WatchOk, Capped, BeingChecked, StoppedAt, CountedFrom;
  }

  predicate MayBeChecked(s: Session, key: string, allDue: bool) {
    s.key == key && !s.ending && (s.due || allDue)
  }

  /** And over every run: at any other tick only sessions that have been due since such a tick have theirs checked. */
  lemma {:induction false} OnlyDueKeysAreChecked(
    interval: nat, events: seq<Event>, now: int, start: Starter, c: KeyCheck)
    requires interval > 0 && ClockIsPositive(events)
    requires c in Ticked(Run(interval, events).0, now, start).0.checks && c !in Run(interval, events).0.checks
    ensures var w := Run(interval, events).0;
      exists m :: 0 <= m < |w.sessions| && MayBeChecked(w.sessions[m], c.key, AllDue(interval, events, now))
  {
    var w := Run(interval, events).0;
    RunOk(interval, events);
    NextDueIs(interval, events);
    var due := w.nextDue != 0 && now >= w.nextDue;
    var marked := if due then MarkDue(w.sessions) else w.sessions;
    hide Scan, Run, WatchOk, CountedFrom;
    ScanStartsTheDue(marked, w.checks, 0, now, start, c);
    var m :| 0 <= m < |marked| && WantsCheck(marked[m], c.key);
    assert MayBeChecked(w.sessions[m], c.key, AllDue(interval, events, now));
  }

  // ---- Whom a session's end is sent to ----

  /** Session s was tracked by event ev, with the process it has. */
  predicate Tracks(ev: Event, s: Session) {
    ev.Track? && ev.id == s.id && ev.key == s.key && ev.pid == s.pid
  }

  lemma {:induction false} ApplyTracks(w: Watch, ev: Event, s: Session)
    requires WatchOk(w) && s in Apply(w, ev).0.sessions
    ensures Tracks(ev, s) || exists t :: t in w.sessions && t.id == s.id && t.key == s.key && t.pid == s.pid
  {
    hide AtSignOf, ChecksOf, Scan, ChecksOk;
    var r := Apply(w, ev).0;
    var j :| 0 <= j < |r.sessions| && r.sessions[j] == s;
    match ev
    case Track(_, _, _, _) =>
    case Tick(now, start) =>
      TickKeepsOk(w, now, start);
      assert s.(due := false) == w.sessions[j].(due := false);
      assert w.sessions[j] in w.sessions;
    case Reaped(pid, exit) =>
      var i, c := SessionOf(w.sessions, pid), CheckOf(w.checks, pid);
      if i < |w.sessions| {
        SwapRemoved(w.sessions, i);
      } else if c < |w.checks| && Withdrawn(exit) {
        EndsEachOnce(w.sessions, w.checks[c].key, 0);
        assert w.sessions[j] in w.sessions;
      }
  }

  /** Every session there is was tracked by some event of the run, with its key and process. */
  lemma {:induction false} SessionsWereTracked(interval: nat, events: seq<Event>, s: Session) returns (j: nat)
    requires s in Run(interval, events).0.sessions
    ensures j < |events| && Tracks(events[j], s)
    decreases |events|
  {
    var init, last := events[..|events| - 1], events[|events| - 1];
    var w := Run(interval, init).0;
    RunOk(interval, init);
    ApplyTracks(w, last, s);
    hide Apply, WatchOk;
    if Tracks(last, s) {
      j := |events| - 1;
    } else {
      var t :| t in w.sessions && t.id == s.id && t.key == s.key && t.pid == s.pid;
      j := SessionsWereTracked(interval, init, t);
    }
  }

  /** Over every run: SIGTERM over a key goes to the process that some session with that very key was tracked with. */
  lemma {:induction false} EndsGoToTheirSessions(interval: nat, events: seq<Event>, ev: Event, x: Signal)
    returns (j: nat)
    requires x in Apply(Run(interval, events).0, ev).1 && x.Terminate?
    ensures var w := Run(interval, events).0;
      && ev.Reaped? && CheckOf(w.checks, ev.pid) < |w.checks|
      && j < |events| && events[j].Track?
      && events[j].pid == x.pid && events[j].key == w.checks[CheckOf(w.checks, ev.pid)].key
  {
    var w := Run(interval, events).0;
    if ev.Tick? && w.interval > 0 {
      OverrunsAreLate(w.checks, x.pid, ev.now);
    }
    hide Overruns;
    var key := w.checks[CheckOf(w.checks, ev.pid)].key;
    EndedSignals(w.sessions, key, x);
    var i :| 0 <= i < |w.sessions| && IsEndOf(x, w.sessions[i], key);
    j := SessionsWereTracked(interval, events, w.sessions[i]);
  }

  // ---- The limits, written out ----

  /** The atSign of a key is what it has from its last '@' on. */
  lemma {:induction false} AtSignIsTail(before: string, name: string)
    requires '@' !in name
    ensures AtSignOf(before + "@" + name) == "@" + name
    decreases |name|
  {
    var key := before + "@" + name;
    if name == "" {
      assert key[|key| - 1] == '@';
    } else {
      AtSignIsTail(before, name[..|name| - 1]);
      assert key[..|key| - 1] == before + "@" + name[..|name| - 1];
    }
  }

  lemma {:induction false} CountsThree(checks: seq<KeyCheck>, atSign: string, i: nat, j: nat, k: nat)
    requires i < j < k < |checks|
    requires AtSignOf(checks[i].key) == AtSignOf(checks[j].key) == AtSignOf(checks[k].key) == atSign
    ensures ChecksOf(checks, atSign) >= 3
  {
    CountsOne(checks[..j], atSign, i);
    CountsMore(checks[..k], atSign, j);
    CountsMore(checks, atSign, k);
    assert checks[..k][..j] == checks[..j];
  }

  lemma {:induction false} CountsOne(checks: seq<KeyCheck>, atSign: string, i: nat)
    requires i < |checks| && AtSignOf(checks[i].key) == atSign
    ensures ChecksOf(checks, atSign) >= 1
  {
    CountsMore(checks, atSign, i);
  }

  lemma {:induction false} CountsMore(checks: seq<KeyCheck>, atSign: string, i: nat)
    requires i < |checks| && AtSignOf(checks[i].key) == atSign
    ensures ChecksOf(checks, atSign) >= ChecksOf(checks[..i], atSign) + 1
    decreases |checks|
  {
    hide AtSignOf;
    if i < |checks| - 1 {
      CountsMore(checks[..|checks| - 1], atSign, i);
      assert checks[..|checks| - 1][..i] == checks[..i];
    }
  }

  /** In every reachable state at most four keys are under check, all different, and no three of one atSign. */
  lemma {:induction false} LimitsHold(interval: nat, events: seq<Event>)
    ensures var checks := Run(interval, events).0.checks;
      && |checks| <= 4
      && (forall i, j :: 0 <= i < j < |checks| ==> checks[i].key != checks[j].key)
      && forall i, j, k :: 0 <= i < j < k < |checks| ==>
        !(AtSignOf(checks[i].key) == AtSignOf(checks[j].key) == AtSignOf(checks[k].key))
  {
    RunOk(interval, events);
    var checks := Run(interval, events).0.checks;
    hide Run, AtSignOf, ChecksOf;
    forall i, j, k | 0 <= i < j < k < |checks|
      ensures !(AtSignOf(checks[i].key) == AtSignOf(checks[j].key) == AtSignOf(checks[k].key))
    {
      if AtSignOf(checks[i].key) == AtSignOf(checks[j].key) == AtSignOf(checks[k].key) {
        CountsThree(checks, AtSignOf(checks[i].key), i, j, k);
      }
    }
  }
}
