/**
 The session counter of the multi-session srv and the timeout that ends it.

 The control loop and the session threads share a counter and the time since which it is 0, under a
 mutex; each critical section is one action, and actions interleave freely with a clock that never goes back.
 */
module SessionCounter {
  import opened Wrappers

  const MAX_SESSIONS: nat := 128

  /** Where the control loop is; requests is how many of the lines just received are left. */
  datatype Control =
    | Top
    | Receive
    | Requests(requests: nat)
    | Accepting(requests: nat)   // below the cap when it looked
    | Creating(requests: nat)    // counted, its thread not created yet
    | Exited(timedOut: bool)

  /** A moment of the run: the time, and how many sessions had been accepted and not ended. */
  datatype Moment = Moment(time: int, sessions: nat)

  /** running and moments are the run's history; the program itself only has the counter. */
  datatype Srv = Srv(
    control: Control,
    active: int,
    idleSince: int,
    now: int,
    running: set<nat>,
    moments: seq<Moment>)

  datatype Act =
    | Clock(seconds: nat)
    | CheckTimeout
    | ReceiveNothing
    | ReceiveLines(n: nat)
    | ReceiveFails
    | SkipRequest
    | LookAtCap
    | OutOfMemory
    | CountSession
    | CreateThread(id: nat)
    | CreateFails
    | SessionEnds(id: nat)

  /** Sessions accepted and not yet ended. */
  function Sessions(s: Srv): nat {
    |s.running| + if s.control.Creating? then 1 else 0
  }

  function Expired(s: Srv, timeout: nat): bool {
    s.active == 0 && s.now - s.idleSince >= timeout
  }

  function SessionEnded(s: Srv): Srv {
    var s1 := s.(active := s.active - 1);
    if s1.active == 0 then s1.(idleSince := s.now) else s1
  }

  function Changed(s: Srv, act: Act, timeout: nat): Option<Srv> {
    match act
    case Clock(seconds) => Some(s.(now := s.now + seconds))
    case SessionEnds(id) =>
      if id in s.running then Some(SessionEnded(s.(running := s.running - {id}))) else None
    case CheckTimeout =>
      if !s.control.Top? then None
      else Some(s.(control := if Expired(s, timeout) then Exited(true) else Receive))
    case ReceiveNothing => if s.control.Receive? then Some(s.(control := Top)) else None
    case ReceiveLines(n) => if s.control.Receive? then Some(s.(control := Requests(n))) else None
    case ReceiveFails => if s.control.Receive? then Some(s.(control := Exited(false))) else None
    case SkipRequest =>
      if s.control.Requests? then
        Some(s.(control := if s.control.requests == 0 then Top else Requests(s.control.requests - 1)))
      else None
    case LookAtCap =>
      if s.control.Requests? && s.control.requests > 0 then
        var rest := s.control.requests - 1;
        Some(s.(control := if s.active >= MAX_SESSIONS then Requests(rest) else Accepting(rest)))
      else None
    case OutOfMemory => if s.control.Accepting? then Some(s.(control := Exited(false))) else None
    case CountSession =>
      if s.control.Accepting? then Some(s.(active := s.active + 1, control := Creating(s.control.requests)))
      else None
    case CreateThread(id) =>
      if s.control.Creating? && id !in s.running then
        Some(s.(running := s.running + {id}, control := Requests(s.control.requests)))
      else None
    case CreateFails =>
      if s.control.Creating? then Some(SessionEnded(s.(control := Exited(false)))) else None
  }

  /** One action, and the moment it leads to. */
  function Next(s: Srv, act: Act, timeout: nat): Option<Srv> {
    match Changed(s, act, timeout)
    case None => None
    case Some(r) => Some(r.(moments := r.moments + [Moment(r.now, Sessions(r))]))
  }

  function Begin(now: int): Srv {
    Srv(Top, 0, now, now, {}, [Moment(now, 0)])
  }

  function After(start: int, acts: seq<Act>, timeout: nat): Option<Srv>
    decreases |acts|
  {
    if acts == [] then Some(Begin(start))
    else
      match After(start, acts[..|acts| - 1], timeout)
      case None => None
      case Some(s) => Next(s, acts[|acts| - 1], timeout)
  }

  /** Some session was active at time t. */
  ghost predicate BusyAt(s: Srv, t: int) {
    exists i :: 0 <= i < |s.moments| && s.moments[i].time == t && s.moments[i].sessions > 0
  }

  /** No session was active at any moment after time t. */
  ghost predicate QuietAfter(s: Srv, t: int) {
    forall i :: 0 <= i < |s.moments| && s.moments[i].time > t ==> s.moments[i].sessions == 0
  }

  predicate Counted(s: Srv) {
    && s.active == Sessions(s) <= MAX_SESSIONS
    && (s.control.Accepting? ==> s.active < MAX_SESSIONS)
  }

  ghost predicate Inv(s: Srv, start: int) {
    && Counted(s)
    && (forall i :: 0 <= i < |s.moments| ==> s.moments[i].time <= s.now)
    && |s.moments| > 0 && s.moments[|s.moments| - 1] == Moment(s.now, Sessions(s))
    && start <= s.idleSince <= s.now
    && (s.active == 0 ==> QuietAfter(s, s.idleSince) && (s.idleSince == start || BusyAt(s, s.idleSince)))
  }

  /** How an action moves the counter, and the time it last came to 0. */
  lemma {:induction false} ChangedCounts(s: Srv, act: Act, timeout: nat)
    requires Counted(s) && Changed(s, act, timeout).Some?
    ensures var r := Changed(s, act, timeout).value;
      && Counted(r) && r.moments == s.moments && r.now >= s.now
      && (if r.active == 0 && s.active > 0 then r.idleSince == s.now == r.now else r.idleSince == s.idleSince)
  {}

  lemma {:induction false} NextKeepsInv(s: Srv, act: Act, timeout: nat, start: int)
    requires Inv(s, start) && Next(s, act, timeout).Some?
    ensures Inv(Next(s, act, timeout).value, start)
  {
    ChangedCounts(s, act, timeout);
    hide Changed, Counted;
    var r := Next(s, act, timeout).value;
    var n := |s.moments|;
    assert Sessions(Changed(s, act, timeout).value) == Sessions(r) == r.active && Sessions(s) == s.active by {
      CountedSessions(s);
      CountedSessions(Changed(s, act, timeout).value);
    }
    assert Counted(r) by {
      MomentsDontCount(Changed(s, act, timeout).value, r.moments);
    }
    hide Sessions;
    assert forall i :: 0 <= i < n ==> r.moments[i] == s.moments[i];
    if r.active == 0 {
      if s.active > 0 {
        assert r.moments[n - 1] == Moment(r.idleSince, Sessions(s));
        assert BusyAt(r, r.idleSince);
      } else if s.idleSince != start {
        var i :| 0 <= i < n && s.moments[i].time == s.idleSince && s.moments[i].sessions > 0;
        assert r.moments[i].time == r.idleSince;
      }
    }
  }

  lemma {:induction false} CountedSessions(s: Srv)
    ensures Counted(s) ==> s.active == Sessions(s)
  {}

  lemma {:induction false} MomentsDontCount(s: Srv, moments: seq<Moment>)
    ensures Counted(s.(moments := moments)) == Counted(s)
  {}

  lemma {:induction false} AfterKeepsInv(start: int, acts: seq<Act>, timeout: nat)
    requires After(start, acts, timeout).Some?
    ensures Inv(After(start, acts, timeout).value, start)
    decreases |acts|
  {
    if acts != [] {
      AfterKeepsInv(start, acts[..|acts| - 1], timeout);
      NextKeepsInv(After(start, acts[..|acts| - 1], timeout).value, acts[|acts| - 1], timeout, start);
    } else {
      assert QuietAfter(Begin(start), start);
    }
  }

  /** The counter is the number of sessions accepted and not yet ended, and never leaves its range. */
  lemma {:induction false} CounterIsExact(start: int, acts: seq<Act>, timeout: nat)
    requires After(start, acts, timeout).Some?
    ensures var s := After(start, acts, timeout).value;
      s.active == Sessions(s) && 0 <= s.active <= MAX_SESSIONS
  {
    AfterKeepsInv(start, acts, timeout);
  }

  /**
   A check of the timeout ends the srv exactly when it has been up that long and no session was active
   at any moment after timeout seconds ago.
   */
  lemma {:induction false} TimesOutExactlyWhenQuiet(start: int, acts: seq<Act>, timeout: nat)
    requires timeout > 0
    requires After(start, acts, timeout).Some? && After(start, acts, timeout).value.control == Top
    ensures var s := After(start, acts, timeout).value;
      Next(s, CheckTimeout, timeout).value.control == Exited(true)
      <==> s.now - start >= timeout && QuietAfter(s, s.now - timeout)
  {
    AfterKeepsInv(start, acts, timeout);
    var s := After(start, acts, timeout).value;
    var last := s.moments[|s.moments| - 1];
    if s.now - start >= timeout && QuietAfter(s, s.now - timeout) {
      assert last.time > s.now - timeout && last.sessions == 0;
      if s.idleSince != start {
        var i :| 0 <= i < |s.moments| && s.moments[i].time == s.idleSince && s.moments[i].sessions > 0;
        assert s.moments[i].time <= s.now - timeout;
      }
    }
  }

  /** Over whole runs: however a run that timed out got there, no session was active in its last timeout seconds. */
  lemma {:induction false} NoTimeoutWhileBusy(start: int, acts: seq<Act>, timeout: nat)
    requires timeout > 0
    requires acts != [] && acts[|acts| - 1] == CheckTimeout
    requires After(start, acts, timeout).Some? && After(start, acts, timeout).value.control == Exited(true)
    ensures var s := After(start, acts, timeout).value;
      QuietAfter(s, s.now - timeout) && s.active == 0
  {
    var init := acts[..|acts| - 1];
    var before := After(start, init, timeout).value;
    TimesOutExactlyWhenQuiet(start, init, timeout);
    AfterKeepsInv(start, acts, timeout);
    var s := After(start, acts, timeout).value;
    assert s.moments == before.moments + [Moment(s.now, Sessions(s))];
  }

  /** The srv was up long enough at the i-th action, a check of the timeout, with no session active for so long. */
  ghost predicate QuietCheck(start: int, acts: seq<Act>, timeout: nat, i: nat) {
    && i < |acts| && acts[i] == CheckTimeout && After(start, acts[..i], timeout).Some?
    && var s := After(start, acts[..i], timeout).value;
       s.control == Top && s.now - start >= timeout && QuietAfter(s, s.now - timeout)
  }

  lemma {:induction false} OnlyChecksTimeOut(s: Srv, act: Act, timeout: nat)
    requires Next(s, act, timeout).Some? && Next(s, act, timeout).value.control == Exited(true)
    ensures s.control == Exited(true) || (s.control == Top && act == CheckTimeout)
  {}

  /** Over whole runs: a srv that has timed out did so at such a check, whatever else ended or failed. */
  lemma {:induction false} TimedOutAtQuietCheck(start: int, acts: seq<Act>, timeout: nat) returns (i: nat)
    requires timeout > 0
    requires After(start, acts, timeout).Some? && After(start, acts, timeout).value.control == Exited(true)
    ensures QuietCheck(start, acts, timeout, i)
    decreases |acts|
  {
    var init, last := acts[..|acts| - 1], acts[|acts| - 1];
    var before := After(start, init, timeout).value;
    OnlyChecksTimeOut(before, last, timeout);
    hide Next, QuietAfter;
    if before.control == Exited(true) {
      i := TimedOutAtQuietCheck(start, init, timeout);
      assert acts[..i] == init[..i];
    } else {
      i := |acts| - 1;
      TimesOutExactlyWhenQuiet(start, init, timeout);
    }
  }

  /** Requests received and not handled yet. */
  function LeftOver(c: Control): nat {
    if c.Requests? || c.Accepting? || c.Creating? then c.requests else 0
  }

  /** Lines received in a run. */
  function Lines(acts: seq<Act>): nat {
    if acts == [] then 0
    else
      var last := acts[|acts| - 1];
      Lines(acts[..|acts| - 1]) + if last.ReceiveLines? then last.n else 0
  }

  /** Requests that were looked at in a run, or skipped. */
  function Handled(start: int, acts: seq<Act>, timeout: nat): nat
    decreases |acts|
  {
    if acts == [] then 0
    else
      var init, last := acts[..|acts| - 1], acts[|acts| - 1];
      var before := After(start, init, timeout);
      Handled(start, init, timeout) +
        if last == LookAtCap || (last == SkipRequest && before.Some? && LeftOver(before.value.control) > 0)
        then 1 else 0
  }

  lemma {:induction false} NextHandles(s: Srv, act: Act, timeout: nat)
    requires Next(s, act, timeout).Some?
    ensures var r := Next(s, act, timeout).value;
      r.control.Exited? ||
      LeftOver(r.control) == LeftOver(s.control) + (if act.ReceiveLines? then act.n else 0)
        - (if act == LookAtCap || (act == SkipRequest && LeftOver(s.control) > 0) then 1 else 0)
    ensures s.control.Exited? ==> Next(s, act, timeout).value.control.Exited?
  {}

  /** Over whole runs: until srv ends, each line it received is looked at or skipped once, or is still to come. */
  lemma {:induction false} EachLineIsHandledOnce(start: int, acts: seq<Act>, timeout: nat)
    requires After(start, acts, timeout).Some? && !After(start, acts, timeout).value.control.Exited?
    ensures Handled(start, acts, timeout) + LeftOver(After(start, acts, timeout).value.control) == Lines(acts)
    decreases |acts|
  {
    if acts != [] {
      var init := acts[..|acts| - 1];
      var before := After(start, init, timeout).value;
      NextHandles(before, acts[|acts| - 1], timeout);
      hide Next, LeftOver;
      EachLineIsHandledOnce(start, init, timeout);
    }
  }

  /** Over whole runs: a request is turned down exactly when 128 sessions are running. */
  lemma {:induction false} CapIsExact(start: int, acts: seq<Act>, timeout: nat)
    requires After(start, acts, timeout).Some?
    ensures var s := After(start, acts, timeout).value;
      var r := Next(s, LookAtCap, timeout);
      r.Some? ==>
        && (r.value.control.Requests? <==> |s.running| >= 128)
        && (r.value.control.Accepting? <==> |s.running| < 128)
  {
    AfterKeepsInv(start, acts, timeout);
  }
}
