/**
 The sessions the daemon watches, and the checks of the keys their clients signed with: a session
 whose key is found withdrawn is ended.

 What a started check's pid is, how a child ended and whether memory was to be had are given to each event.
 */
module ClientSessions {
  import opened Wrappers
  import opened Tables

  const MAX_KEY_CHECKS: nat := 4
  const MAX_KEY_CHECKS_PER_ATSIGN: nat := 2
  const OVERRUN_SECS: nat := 120
  const REVOKED: int := 10
  const DELETED: int := 11

  /** serial numbers the sessions in the order they were tracked; it is the run's history, not the program's. */
  datatype Session = Session(id: string, key: string, pid: int, ending: bool, due: bool, serial: nat)

  datatype KeyCheck = KeyCheck(key: string, pid: int, started: int)

  datatype Signal =
    | Terminate(pid: int, serial: nat)   // SIGTERM to a session whose key was withdrawn
    | Refuse(pid: int)                   // SIGTERM to a session with an id already watched
    | Kill(pid: int)                     // SIGKILL to a check that has overrun

  datatype Watch = Watch(
    sessions: seq<Session>,
    checks: seq<KeyCheck>,
    interval: nat,
    nextDue: int,
    tracked: nat)

  /**
   Whether there is memory for a copy of a key, and the pid that a check started for it would have, or one that
   isn't positive when it can't be started.
   */
  datatype Starter = Starter(copied: string -> bool, pid: string -> int)

  datatype Event =
    | Track(id: string, key: string, pid: int, memory: bool)
    | Tick(now: int, start: Starter)
    | Reaped(pid: int, exit: Option<int>)   // the exit code, or None for a child that was killed

  // ---- Tracking ----

  predicate Watched(sessions: seq<Session>, id: string) {
    exists i :: 0 <= i < |sessions| && sessions[i].id == id
  }

  function Tracked(w: Watch, id: string, key: string, pid: int, memory: bool): (Watch, seq<Signal>) {
    if Watched(w.sessions, id) then (w, [Refuse(pid)])
    else if !memory then (w, [])
    else (w.(sessions := w.sessions + [Session(id, key, pid, false, false, w.tracked)], tracked := w.tracked + 1), [])
  }

  // ---- Ticking ----

  /** The part of a key that names its atSign: from the last '@'. */
  function AtSignOf(key: string): string {
    if key == [] || key[|key| - 1] == '@' then (if key == [] then [] else "@")
    else AtSignOf(key[..|key| - 1]) + [key[|key| - 1]]
  }

  function ChecksOf(checks: seq<KeyCheck>, atSign: string): (n: nat)
    ensures n <= |checks|
  {
    if checks == [] then 0
    else
      ChecksOf(checks[..|checks| - 1], atSign) + if AtSignOf(checks[|checks| - 1].key) == atSign then 1 else 0
  }

  predicate BeingChecked(checks: seq<KeyCheck>, key: string) {
    exists i :: 0 <= i < |checks| && checks[i].key == key
  }

  function ClearDue(sessions: seq<Session>, key: string): (r: seq<Session>)
    ensures |r| == |sessions|
  {
    seq(|sessions|, i requires 0 <= i < |sessions| =>
      if sessions[i].key == key then sessions[i].(due := false) else sessions[i])
  }

  function MarkDue(sessions: seq<Session>): (r: seq<Session>)
    ensures |r| == |sessions|
  {
    seq(|sessions|, i requires 0 <= i < |sessions| => sessions[i].(due := true))
  }

  function Overruns(checks: seq<KeyCheck>, now: int): seq<Signal> {
    if checks == [] then []
    else
      var before := Overruns(checks[..|checks| - 1], now);
      var c := checks[|checks| - 1];
      if now - c.started > OVERRUN_SECS then before + [Kill(c.pid)] else before
  }

  /** The scan for sessions whose key is to be checked, from index i on. */
  function Scan(sessions: seq<Session>, checks: seq<KeyCheck>, i: nat, now: int, start: Starter)
    : (r: (seq<Session>, seq<KeyCheck>))
    requires i <= |sessions|
    ensures |r.0| == |sessions| && checks <= r.1
    decreases |sessions| - i
  {
    if i == |sessions| || |checks| >= MAX_KEY_CHECKS then (sessions, checks)
    else
      var s := sessions[i];
      if !s.due || s.ending then Scan(sessions, checks, i + 1, now, start)
      else if BeingChecked(checks, s.key) then Scan(ClearDue(sessions, s.key), checks, i + 1, now, start)
      else if ChecksOf(checks, AtSignOf(s.key)) >= MAX_KEY_CHECKS_PER_ATSIGN then
        Scan(sessions, checks, i + 1, now, start)
      else if !start.copied(s.key) then (sessions, checks)
      else
        var started := if start.pid(s.key) <= 0 then checks else checks + [KeyCheck(s.key, start.pid(s.key), now)];
        Scan(ClearDue(sessions, s.key), started, i + 1, now, start)
  }

  function Ticked(w: Watch, now: int, start: Starter): (Watch, seq<Signal>) {
    if w.interval == 0 then (w, [])
    else
      var nextDue := if w.nextDue == 0 then now + w.interval else w.nextDue;
      var due := now >= nextDue;
      var (sessions, checks) :=
        Scan(if due then MarkDue(w.sessions) else w.sessions, w.checks, 0, now, start);
      (w.(sessions := sessions, checks := checks, nextDue := if due then now + w.interval else nextDue),
       Overruns(w.checks, now))
  }

  // ---- Reaping ----

  /** The first session of process pid, or the number of sessions. */
  function SessionOf(sessions: seq<Session>, pid: int): (i: nat)
    ensures i <= |sessions|
    ensures i < |sessions| ==> sessions[i].pid == pid
    ensures forall j :: 0 <= j < i ==> sessions[j].pid != pid
  {
    if sessions == [] || sessions[0].pid == pid then 0 else 1 + SessionOf(sessions[1..], pid)
  }

  function CheckOf(checks: seq<KeyCheck>, pid: int): (i: nat)
    ensures i <= |checks|
    ensures i < |checks| ==> checks[i].pid == pid
    ensures forall j :: 0 <= j < i ==> checks[j].pid != pid
  {
    if checks == [] || checks[0].pid == pid then 0 else 1 + CheckOf(checks[1..], pid)
  }

  predicate Withdrawn(exit: Option<int>) {
    exit == Some(REVOKED) || exit == Some(DELETED)
  }

  /** Ends each session that key signed and that isn't ending yet. */
  function Ended(sessions: seq<Session>, key: string): (r: (seq<Session>, seq<Signal>))
    ensures |r.0| == |sessions|
  {
    if sessions == [] then ([], [])
    else
      var (before, signals) := Ended(sessions[..|sessions| - 1], key);
      var s := sessions[|sessions| - 1];
      if !s.ending && s.key == key
      then (before + [s.(ending := true)], signals + [Terminate(s.pid, s.serial)])
      else (before + [s], signals)
  }

  function Reap(w: Watch, pid: int, exit: Option<int>): (Watch, seq<Signal>) {
    var i := SessionOf(w.sessions, pid);
    if i < |w.sessions| then (w.(sessions := SwapRemove(w.sessions, i)), [])
    else
      var c := CheckOf(w.checks, pid);
      if c == |w.checks| then (w, [])
      else
        var w1 := w.(checks := SwapRemove(w.checks, c));
        if !Withdrawn(exit) then (w1, [])
        else var (sessions, signals) := Ended(w.sessions, w.checks[c].key); (w1.(sessions := sessions), signals)
  }

  // ---- Runs ----

  function Apply(w: Watch, ev: Event): (Watch, seq<Signal>) {
    match ev
    case Track(id, key, pid, memory) => Tracked(w, id, key, pid, memory)
    case Tick(now, start) => Ticked(w, now, start)
    case Reaped(pid, exit) => Reap(w, pid, exit)
  }

  function Init(interval: nat): Watch {
    Watch([], [], interval, 0, 0)
  }

  /** The table after a run, and every signal sent on the way. */
  function Run(interval: nat, events: seq<Event>): (Watch, seq<Signal>)
    decreases |events|
  {
    if events == [] then (Init(interval), [])
    else
      var (w, sent) := Run(interval, events[..|events| - 1]);
      var (w1, more) := Apply(w, events[|events| - 1]);
      (w1, sent + more)
  }

  /** What is under check: each key once, and no more than the limits allow. */
  predicate ChecksOk(checks: seq<KeyCheck>) {
    && |checks| <= MAX_KEY_CHECKS
    && (forall i, j :: 0 <= i < j < |checks| ==> checks[i].key != checks[j].key)
    && forall i :: 0 <= i < |checks| ==> ChecksOf(checks, AtSignOf(checks[i].key)) <= MAX_KEY_CHECKS_PER_ATSIGN
  }

  predicate SessionsOk(sessions: seq<Session>, tracked: nat) {
    && (forall i, j :: 0 <= i < j < |sessions| ==> sessions[i].id != sessions[j].id)
    && (forall i, j :: 0 <= i < j < |sessions| ==> sessions[i].serial != sessions[j].serial)
    && forall i :: 0 <= i < |sessions| ==> sessions[i].serial < tracked
  }

  predicate WatchOk(w: Watch) {
    ChecksOk(w.checks) && SessionsOk(w.sessions, w.tracked)
  }

  /** Why a session that is due hasn't been checked: the limit on all checks, or that on its atSign's. */
  predicate Capped(checks: seq<KeyCheck>, key: string) {
    |checks| >= MAX_KEY_CHECKS || ChecksOf(checks, AtSignOf(key)) >= MAX_KEY_CHECKS_PER_ATSIGN
  }

  /** Only the due flags may differ. */
  predicate SameButDue(a: seq<Session>, b: seq<Session>) {
    |a| == |b| && forall i :: 0 <= i < |a| ==> a[i].(due := false) == b[i].(due := false) && (b[i].due ==> a[i].due)
  }

  lemma {:induction false} ChecksOfPrefix(a: seq<KeyCheck>, b: seq<KeyCheck>, atSign: string)
    requires a <= b
    ensures ChecksOf(a, atSign) <= ChecksOf(b, atSign)
    decreases |b|
  {
    if |a| < |b| {
      ChecksOfPrefix(a, b[..|b| - 1], atSign);
    } else {
      assert a == b;
    }
  }

  lemma {:induction false} StartedOk(checks: seq<KeyCheck>, c: KeyCheck)
    requires ChecksOk(checks) && |checks| < MAX_KEY_CHECKS && !BeingChecked(checks, c.key)
    requires ChecksOf(checks, AtSignOf(c.key)) < MAX_KEY_CHECKS_PER_ATSIGN
    ensures ChecksOk(checks + [c])
  {}

  /** No session before index i is still due without a limit being the reason. */
  predicate CappedUpTo(sessions: seq<Session>, i: nat, checks: seq<KeyCheck>) {
    forall j :: 0 <= j < i && j < |sessions| && sessions[j].due && !sessions[j].ending ==>
      Capped(checks, sessions[j].key)
  }

  lemma {:induction false} ClearedCapped(
    sessions: seq<Session>, i: nat, checks: seq<KeyCheck>, started: seq<KeyCheck>)
    requires i < |sessions| && checks <= started && CappedUpTo(sessions, i, checks)
    ensures CappedUpTo(ClearDue(sessions, sessions[i].key), i + 1, started)
    ensures SameButDue(sessions, ClearDue(sessions, sessions[i].key))
  {
    var cleared := ClearDue(sessions, sessions[i].key);
    forall j | 0 <= j < i + 1 && cleared[j].due && !cleared[j].ending
      ensures Capped(started, cleared[j].key)
    {
      assert Capped(checks, sessions[j].key);
      ChecksOfPrefix(checks, started, AtSignOf(sessions[j].key));
    }
  }

  lemma {:induction false} SameButDueTrans(a: seq<Session>, b: seq<Session>, c: seq<Session>)
    requires SameButDue(a, b) && SameButDue(b, c)
    ensures SameButDue(a, c)
  {}

  /** The scan came no further than session k, as there was no memory for a copy of its key. */
  predicate StoppedAt(sessions: seq<Session>, k: nat, start: Starter) {
    k < |sessions| && sessions[k].due && !sessions[k].ending && !start.copied(sessions[k].key)
  }

  /** The scan keeps the limits, and leaves no session due, as far as it comes, that could have been checked. */
  lemma {:induction false} ScanOk(sessions: seq<Session>, checks: seq<KeyCheck>, i: nat, now: int, start: Starter)
    returns (k: nat)
    requires i <= |sessions| && ChecksOk(checks) && CappedUpTo(sessions, i, checks)
    ensures var (after, started) := Scan(sessions, checks, i, now, start);
      && ChecksOk(started) && SameButDue(sessions, after) && CappedUpTo(after, k, started)
      && (k == |after| || StoppedAt(after, k, start))
    decreases |sessions| - i
  {
    hide ChecksOk, AtSignOf, ChecksOf, SameButDue, ClearDue, BeingChecked;
    if i < |sessions| && |checks| < MAX_KEY_CHECKS {
      var s := sessions[i];
      if !s.due || s.ending || (!BeingChecked(checks, s.key) && Capped(checks, s.key)) {
        assert Scan(sessions, checks, i, now, start) == Scan(sessions, checks, i + 1, now, start);
        assert CappedUpTo(sessions, i + 1, checks);
        hide Scan, CappedUpTo, StoppedAt;
        k := ScanOk(sessions, checks, i + 1, now, start);
      } else if !BeingChecked(checks, s.key) && !start.copied(s.key) {
        k := i;
        SameAsItself(sessions);
      } else {
        var cleared, c := ClearDue(sessions, s.key), KeyCheck(s.key, start.pid(s.key), now);
        var started := if BeingChecked(checks, s.key) || start.pid(s.key) <= 0 then checks else checks + [c];
        if started != checks {
          StartedOk(checks, c);
        }
        ClearedCapped(sessions, i, checks, started);
        assert Scan(sessions, checks, i, now, start) == Scan(cleared, started, i + 1, now, start);
        hide Scan, CappedUpTo, Capped, StoppedAt;
        k := ScanOk(cleared, started, i + 1, now, start);
        SameButDueTrans(sessions, cleared, Scan(cleared, started, i + 1, now, start).0);
      }
    } else {
      k := |sessions|;
      ScanEnds(sessions, checks, i, now, start);
    }
  }

  lemma {:induction false} SameAsItself(sessions: seq<Session>)
    ensures SameButDue(sessions, sessions)
  {}

  /** A scan that has come to the end, or to the limit on all checks. */
  lemma {:induction false} ScanEnds(sessions: seq<Session>, checks: seq<KeyCheck>, i: nat, now: int, start: Starter)
    requires i <= |sessions| && (i == |sessions| || |checks| >= MAX_KEY_CHECKS) && CappedUpTo(sessions, i, checks)
    ensures Scan(sessions, checks, i, now, start) == (sessions, checks)
    ensures CappedUpTo(sessions, |sessions|, checks) && SameButDue(sessions, sessions)
  {}

  /**
   After a tick the keys under check are distinct and within both limits, and a session is still due,
   and not ending, only because one of the limits was reached, or from session k on because memory was short.
   */
  lemma {:induction false} TickLeavesOnlyCapped(w: Watch, now: int, start: Starter) returns (k: nat)
    requires WatchOk(w) && w.interval > 0
    ensures var r := Ticked(w, now, start).0;
      && ChecksOk(r.checks)
      && (k == |r.sessions| || StoppedAt(r.sessions, k, start))
      && forall j :: 0 <= j < k && r.sessions[j].due && !r.sessions[j].ending ==> Capped(r.checks, r.sessions[j].key)
  {
    var nextDue := if w.nextDue == 0 then now + w.interval else w.nextDue;
    k := ScanOk(if now >= nextDue then MarkDue(w.sessions) else w.sessions, w.checks, 0, now, start);
  }

  lemma {:induction false} TickKeepsOk(w: Watch, now: int, start: Starter)
    requires WatchOk(w)
    ensures WatchOk(Ticked(w, now, start).0)
    ensures |Ticked(w, now, start).0.sessions| == |w.sessions|
    ensures forall j :: 0 <= j < |w.sessions| ==>
      Ticked(w, now, start).0.sessions[j].(due := false) == w.sessions[j].(due := false)
  {
    if w.interval > 0 {
      var nextDue := if w.nextDue == 0 then now + w.interval else w.nextDue;
      var marked := if now >= nextDue then MarkDue(w.sessions) else w.sessions;
      var k := ScanOk(marked, w.checks, 0, now, start);
      var r := Ticked(w, now, start).0;
      assert SameButDue(marked, r.sessions);
      forall j | 0 <= j < |w.sessions|
        ensures r.sessions[j].(due := false) == w.sessions[j].(due := false)
      {
        assert marked[j].(due := false) == w.sessions[j].(due := false);
      }
      SameIdentities(w.sessions, r.sessions, w.tracked);
    }
  }

  lemma {:induction false} SameIdentities(a: seq<Session>, b: seq<Session>, tracked: nat)
    requires SessionsOk(a, tracked) && |a| == |b|
    requires forall i :: 0 <= i < |a| ==> a[i].id == b[i].id && a[i].serial == b[i].serial
    ensures SessionsOk(b, tracked)
  {}

  /** How many times session n has been sent SIGTERM over a withdrawn key. */
  function TermsOf(signals: seq<Signal>, n: nat): nat {
    if signals == [] then 0
    else
      var last := signals[|signals| - 1];
      TermsOf(signals[..|signals| - 1], n) + if last.Terminate? && last.serial == n then 1 else 0
  }

  /** Session n is tracked with a client that signed with key. */
  predicate HasWithKey(sessions: seq<Session>, n: nat, key: string) {
    exists j :: 0 <= j < |sessions| && sessions[j].serial == n && sessions[j].key == key
  }

  /** ev is the end of a key check that found the key of session n, tracked at that moment, withdrawn. */
  predicate Reports(w: Watch, ev: Event, n: nat) {
    && ev.Reaped? && (ev.exit == Some(REVOKED) || ev.exit == Some(DELETED))
    && SessionOf(w.sessions, ev.pid) == |w.sessions|
    && CheckOf(w.checks, ev.pid) < |w.checks|
    && HasWithKey(w.sessions, n, w.checks[CheckOf(w.checks, ev.pid)].key)
  }

  /** Some event of the run did. */
  predicate Reported(interval: nat, events: seq<Event>, n: nat)
    decreases |events|
  {
    events != []
    && (Reported(interval, events[..|events| - 1], n)
        || Reports(Run(interval, events[..|events| - 1]).0, events[|events| - 1], n))
  }

  lemma {:induction false} TermsAdd(a: seq<Signal>, b: seq<Signal>, n: nat)
    ensures TermsOf(a + b, n) == TermsOf(a, n) + TermsOf(b, n)
    decreases |b|
  {
    if b == [] {
      assert a + b == a;
    } else {
      TermsAdd(a, b[..|b| - 1], n);
      assert (a + b)[..|a + b| - 1] == a + b[..|b| - 1];
    }
  }

  lemma {:induction false} KillsAreNoTerms(checks: seq<KeyCheck>, now: int, n: nat)
    ensures TermsOf(Overruns(checks, now), n) == 0
    decreases |checks|
  {
    if checks != [] {
      KillsAreNoTerms(checks[..|checks| - 1], now, n);
      TermsAdd(Overruns(checks[..|checks| - 1], now), [Kill(checks[|checks| - 1].pid)], n);
    }
  }

  /** Ending a key's sessions marks each of them, and signals each that wasn't ending exactly once. */
  lemma {:induction false} EndsEachOnce(sessions: seq<Session>, key: string, n: nat)
    requires forall i, j :: 0 <= i < j < |sessions| ==> sessions[i].serial != sessions[j].serial
    ensures var r := Ended(sessions, key);
      && (forall j :: 0 <= j < |sessions| ==>
            r.0[j] == sessions[j].(ending := sessions[j].ending || sessions[j].key == key))
      && TermsOf(r.1, n) == if exists j :: 0 <= j < |sessions| && sessions[j].serial == n
                                && sessions[j].key == key && !sessions[j].ending then 1 else 0
    decreases |sessions|
  {
    if sessions != [] {
      var init, last := sessions[..|sessions| - 1], sessions[|sessions| - 1];
      EndsEachOnce(init, key, n);
      assert forall j :: 0 <= j < |init| ==> init[j] == sessions[j];
      TermsAdd(Ended(init, key).1, [Terminate(last.pid, last.serial)], n);
      assert TermsOf([Terminate(last.pid, last.serial)], n) == if last.serial == n then 1 else 0;
    }
  }

  /** The history that the table agrees with: a session is ending exactly when its key was reported. */
  ghost predicate Agrees(interval: nat, events: seq<Event>, w: Watch) {
    && (forall j :: 0 <= j < |w.sessions| ==>
          w.sessions[j].ending == Reported(interval, events, w.sessions[j].serial))
    && forall n: nat :: n >= w.tracked ==> !Reported(interval, events, n)
  }

  lemma {:induction false} TrackKeepsOk(w: Watch, id: string, key: string, pid: int, memory: bool)
    requires WatchOk(w)
    ensures WatchOk(Tracked(w, id, key, pid, memory).0)
  {}

  /** A new session is watched if there is memory for it, as neither due nor ending; nothing else changes. */
  lemma {:induction false} TrackAddsOne(w: Watch, id: string, key: string, pid: int, memory: bool)
    ensures var (r, signals) := Tracked(w, id, key, pid, memory);
      && r == w.(sessions := r.sessions, tracked := r.tracked) && w.sessions <= r.sessions
      && (Watched(r.sessions, id) <==> Watched(w.sessions, id) || memory)
      && (memory && !Watched(w.sessions, id) ==>
            && |r.sessions| == |w.sessions| + 1
            && var s := r.sessions[|w.sessions|];
               s.id == id && s.key == key && s.pid == pid && !s.ending && !s.due && s.serial == w.tracked)
      && (Watched(w.sessions, id) ==> signals == [Refuse(pid)]) && (!Watched(w.sessions, id) ==> signals == [])
  {
    var r := Tracked(w, id, key, pid, memory).0;
    assert r.sessions != w.sessions ==> r.sessions[|w.sessions|].id == id;
    assert forall i :: 0 <= i < |w.sessions| ==> r.sessions[i] == w.sessions[i];
  }

  lemma {:induction false} ReapKeepsOk(w: Watch, pid: int, exit: Option<int>)
    requires WatchOk(w)
    ensures WatchOk(Reap(w, pid, exit).0)
  {
    var i := SessionOf(w.sessions, pid);
    var c := CheckOf(w.checks, pid);
    if i < |w.sessions| {
      SwapRemoved(w.sessions, i);
    } else if c < |w.checks| {
      RemovedCheckOk(w.checks, c);
      if Withdrawn(exit) {
        EndsEachOnce(w.sessions, w.checks[c].key, 0);
        SameIdentities(w.sessions, Ended(w.sessions, w.checks[c].key).0, w.tracked);
      }
    }
  }

  lemma {:induction false} ChecksOfMultiset(a: seq<KeyCheck>, i: nat, atSign: string)
    requires i < |a|
    ensures ChecksOf(SwapRemove(a, i), atSign) <= ChecksOf(a, atSign)
    decreases |a|
  {
    var n := |a| - 1;
    if i == n {
      assert SwapRemove(a, i) == a[..n];
    } else {
      assert SwapRemove(a, i) == a[..n][i := a[n]];
      CountReplaced(a[..n], i, a[n], atSign);
    }
  }

  lemma {:induction false} CountReplaced(a: seq<KeyCheck>, i: nat, c: KeyCheck, atSign: string)
    requires i < |a|
    ensures ChecksOf(a[i := c], atSign)
         == ChecksOf(a, atSign) - (if AtSignOf(a[i].key) == atSign then 1 else 0)
            + (if AtSignOf(c.key) == atSign then 1 else 0)
    decreases |a|
  {
    var n := |a| - 1;
    if i == n {
      assert a[i := c][..n] == a[..n];
    } else {
      CountReplaced(a[..n], i, c, atSign);
      assert a[i := c][..n] == a[..n][i := c];
    }
  }

  lemma {:induction false} RemovedCheckOk(checks: seq<KeyCheck>, c: nat)
    requires ChecksOk(checks) && c < |checks|
    ensures ChecksOk(SwapRemove(checks, c))
  {
    SwapRemoved(checks, c);
    var r := SwapRemove(checks, c);
    forall i | 0 <= i < |r| ensures ChecksOf(r, AtSignOf(r[i].key)) <= MAX_KEY_CHECKS_PER_ATSIGN {
      assert r[i] in checks;
      ChecksOfMultiset(checks, c, AtSignOf(r[i].key));
    }
  }

  lemma {:induction false} RunOk(interval: nat, events: seq<Event>)
    ensures WatchOk(Run(interval, events).0)
    ensures Run(interval, events).0.interval == interval
    decreases |events|
  {
    if events != [] {
      RunOk(interval, events[..|events| - 1]);
      var w := Run(interval, events[..|events| - 1]).0;
      hide WatchOk;
      match events[|events| - 1]
      case Track(id, key, pid, memory) => TrackKeepsOk(w, id, key, pid, memory);
      case Tick(now, start) => TickKeepsOk(w, now, start);
      case Reaped(pid, exit) => ReapKeepsOk(w, pid, exit);
    }
  }

  /** One event: it signals session n just when it reports its key for the first time. */
  lemma {:induction false} ApplyTerms(interval: nat, events: seq<Event>, w: Watch, ev: Event, n: nat)
    requires WatchOk(w) && w == Run(interval, events).0 && Agrees(interval, events, w)
    ensures TermsOf(Apply(w, ev).1, n)
         == if Reports(w, ev, n) && !Reported(interval, events, n) then 1 else 0
  {
    match ev
    case Track(id, key, pid, memory) =>
      assert TermsOf([Refuse(pid)], n) == 0;
    case Tick(now, start) => KillsAreNoTerms(w.checks, now, n);
    case Reaped(pid, exit) =>
      var c := CheckOf(w.checks, pid);
      if SessionOf(w.sessions, pid) == |w.sessions| && c < |w.checks| && Withdrawn(exit) {
        EndsEachOnce(w.sessions, w.checks[c].key, n);
      }
  }

  lemma {:induction false} ApplyAgrees(interval: nat, events: seq<Event>, ev: Event)
    requires Agrees(interval, events, Run(interval, events).0)
    ensures Agrees(interval, events + [ev], Apply(Run(interval, events).0, ev).0)
  {
    var w := Run(interval, events).0;
    var more := events + [ev];
    assert more[..|events|] == events && more[|events|] == ev;
    RunOk(interval, events);
    forall n: nat ensures Reported(interval, more, n) <==> Reported(interval, events, n) || Reports(w, ev, n) {}
    hide Reported, Run;
    match ev
    case Track(id, key, pid, memory) =>
    case Tick(now, start) =>
      TickKeepsOk(w, now, start);
      var r := Ticked(w, now, start).0;
      forall j | 0 <= j < |r.sessions|
        ensures r.sessions[j].ending == Reported(interval, more, r.sessions[j].serial)
      {
        assert r.sessions[j].(due := false) == w.sessions[j].(due := false);
      }
    case Reaped(pid, exit) => ReapAgrees(w, pid, exit, ev);
  }

  lemma {:induction false} ReapAgrees(w: Watch, pid: int, exit: Option<int>, ev: Event)
    requires WatchOk(w) && ev == Reaped(pid, exit)
    ensures Reap(w, pid, exit).0.tracked == w.tracked
    ensures forall n: nat :: n >= w.tracked ==> !Reports(w, ev, n)
    ensures forall s :: s in Reap(w, pid, exit).0.sessions ==>
      exists t :: t in w.sessions && s.serial == t.serial && s.ending == (t.ending || Reports(w, ev, t.serial))
  {
    hide SessionOf, CheckOf, AtSignOf, ChecksOf, ChecksOk;
    var i := SessionOf(w.sessions, pid);
    var c := CheckOf(w.checks, pid);
    var r := Reap(w, pid, exit).0;
    if i < |w.sessions| {
      SwapRemoved(w.sessions, i);
    } else if c < |w.checks| && Withdrawn(exit) {
      var key := w.checks[c].key;
      EndsEachOnce(w.sessions, key, 0);
      forall s | s in r.sessions
        ensures exists t ::
          t in w.sessions && s.serial == t.serial && s.ending == (t.ending || Reports(w, ev, t.serial))
      {
        var j :| 0 <= j < |r.sessions| && r.sessions[j] == s;
        var t := w.sessions[j];
        assert Reports(w, ev, t.serial) <==> t.key == key;
        assert t in w.sessions;
      }
    }
  }

  lemma {:induction false} RunAgrees(interval: nat, events: seq<Event>)
    ensures Agrees(interval, events, Run(interval, events).0)
    decreases |events|
  {
    if events != [] {
      var init := events[..|events| - 1];
      RunAgrees(interval, init);
      ApplyAgrees(interval, init, events[|events| - 1]);
      assert init + [events[|events| - 1]] == events;
    }
  }

  /**
   Over every run: a session is sent SIGTERM over its key exactly once if a check of that key that
   finished while it was tracked found it revoked or deleted, and never otherwise.
   */
  lemma {:induction false} EndedExactlyOnceIfWithdrawn(interval: nat, events: seq<Event>, n: nat)
    ensures TermsOf(Run(interval, events).1, n) == if Reported(interval, events, n) then 1 else 0
    decreases |events|
  {
    if events != [] {
      var init, last := events[..|events| - 1], events[|events| - 1];
      EndedExactlyOnceIfWithdrawn(interval, init, n);
      RunOk(interval, init);
      RunAgrees(interval, init);
      var (w, sent) := Run(interval, init);
      ApplyTerms(interval, init, w, last, n);
      TermsAdd(sent, Apply(w, last).1, n);
    }
  }

  /** The two tables, changed in place; signals are what each call sends, in order. */
  class Sessions {
    var sessions: seq<Session>
    var checks: seq<KeyCheck>
    const interval: nat
    var nextDue: int
    var tracked: nat

    ghost function View(): Watch
      reads this
    {
      Watch(sessions, checks, interval, nextDue, tracked)
    }

    constructor (interval: nat)
      ensures View() == Init(interval)
    {
      sessions, checks, this.interval, nextDue, tracked := [], [], interval, 0, 0;
    }

    method FindSession(id: string) returns (found: bool)
      ensures found == Watched(sessions, id)
    {
      for i := 0 to |sessions|
        invariant forall j :: 0 <= j < i ==> sessions[j].id != id
      {
        if sessions[i].id == id {
          return true;
        }
      }
      return false;
    }

    method Track(id: string, key: string, pid: int, memory: bool)
      returns (isTracked: bool, signals: seq<Signal>)
      modifies this`sessions, this`tracked
      ensures (View(), signals) == Tracked(old(View()), id, key, pid, memory)
      ensures isTracked == (|sessions| > |old(sessions)|)
    {
      var duplicate := FindSession(id);
      if duplicate {
        return false, [Refuse(pid)];
      }
      if !memory {
        return false, [];
      }
      sessions := sessions + [Session(id, key, pid, false, false, tracked)];
      tracked := tracked + 1;
      return true, [];
    }

    method IsBeingChecked(key: string) returns (found: bool)
      ensures found == BeingChecked(checks, key)
    {
      for i := 0 to |checks|
        invariant forall j :: 0 <= j < i ==> checks[j].key != key
      {
        if checks[i].key == key {
          return true;
        }
      }
      return false;
    }

    method CountChecksOf(atSign: string) returns (n: nat)
      ensures n == ChecksOf(checks, atSign)
    {
      n := 0;
      for i := 0 to |checks|
        invariant n == ChecksOf(checks[..i], atSign)
      {
        assert checks[..i + 1][..i] == checks[..i];
        if AtSignOf(checks[i].key) == atSign {
          n := n + 1;
        }
      }
      assert checks[..|checks|] == checks;
    }

    method Clear(key: string)
      modifies this`sessions
      ensures sessions == ClearDue(old(sessions), key)
    {
      for i := 0 to |sessions|
        invariant |sessions| == |old(sessions)|
        invariant forall j :: 0 <= j < i ==> sessions[j] == ClearDue(old(sessions), key)[j]
        invariant forall j :: i <= j < |sessions| ==> sessions[j] == old(sessions)[j]
      {
        if sessions[i].key == key {
          sessions := sessions[i := sessions[i].(due := false)];
        }
      }
    }

    method KillOverruns(now: int) returns (signals: seq<Signal>)
      ensures signals == Overruns(checks, now)
    {
      signals := [];
      for i := 0 to |checks|
        invariant signals == Overruns(checks[..i], now)
      {
        assert checks[..i + 1][..i] == checks[..i];
        if now - checks[i].started > OVERRUN_SECS {
          signals := signals + [Kill(checks[i].pid)];
        }
      }
      assert checks[..|checks|] == checks;
    }

    method MarkAllDue()
      modifies this`sessions
      ensures sessions == MarkDue(old(sessions))
    {
      for i := 0 to |sessions|
        invariant |sessions| == |old(sessions)|
        invariant forall j :: 0 <= j < i ==> sessions[j] == old(sessions)[j].(due := true)
        invariant forall j :: i <= j < |sessions| ==> sessions[j] == old(sessions)[j]
      {
        sessions := sessions[i := sessions[i].(due := true)];
      }
    }

    /** Starts the checks that are due and that the limits allow. */
    method StartChecks(now: int, start: Starter)
      modifies this`sessions, this`checks
      ensures (sessions, checks) == Scan(old(sessions), old(checks), 0, now, start)
    {
      hide ClearDue;
      var i := 0;
      while i < |sessions| && |checks| < MAX_KEY_CHECKS
        invariant 0 <= i <= |sessions|
        invariant Scan(old(sessions), old(checks), 0, now, start) == Scan(sessions, checks, i, now, start)
      {
        var s := sessions[i];
        if s.due && !s.ending {
          var busy := IsBeingChecked(s.key);
          var n := CountChecksOf(AtSignOf(s.key));
          if busy {
            Clear(s.key);
          } else if n < MAX_KEY_CHECKS_PER_ATSIGN {
            if !start.copied(s.key) {
              return;
            }
            Clear(s.key);
            var pid := start.pid(s.key);
            if pid > 0 {
              checks := checks + [KeyCheck(s.key, pid, now)];
            }
          }
        }
        i := i + 1;
      }
    }

    method Tick(now: int, start: Starter) returns (signals: seq<Signal>)
      modifies this`sessions, this`checks, this`nextDue
      ensures (View(), signals) == Ticked(old(View()), now, start)
    {
      signals := [];
      if interval == 0 {
        return;
      }
      signals := KillOverruns(now);
      if nextDue == 0 {
        nextDue := now + interval;
      }
      if now >= nextDue {
        nextDue := now + interval;
        MarkAllDue();
      }
      StartChecks(now, start);
    }

    method EndSessionsOf(key: string) returns (signals: seq<Signal>)
      modifies this`sessions
      ensures (sessions, signals) == Ended(old(sessions), key)
    {
      signals := [];
      ghost var was := sessions;
      for i := 0 to |sessions|
        invariant |sessions| == |was|
        invariant (sessions[..i], signals) == Ended(was[..i], key)
        invariant sessions[i..] == was[i..]
      {
        assert was[..i + 1][..i] == was[..i];
        assert sessions[i] == sessions[i..][0] == was[i..][0] == was[i];
        ghost var done := sessions[..i];
        if !sessions[i].ending && sessions[i].key == key {
          signals := signals + [Terminate(sessions[i].pid, sessions[i].serial)];
          sessions := sessions[i := sessions[i].(ending := true)];
        }
        assert sessions[..i + 1] == done + [sessions[i]];
      }
      assert was[..|was|] == was && sessions[..|sessions|] == sessions;
    }

    /** Handles the exit of a child; isOurs tells whether it was a session's or a check's. */
    method Reaped(pid: int, exit: Option<int>) returns (isOurs: bool, signals: seq<Signal>)
      modifies this`sessions, this`checks
      ensures (View(), signals) == Reap(old(View()), pid, exit)
      ensures isOurs == (SessionOf(old(sessions), pid) < |old(sessions)| || CheckOf(old(checks), pid) < |old(checks)|)
    {
      var i := 0;
      while i < |sessions| && sessions[i].pid != pid
        invariant 0 <= i <= |sessions|
        invariant forall j :: 0 <= j < i ==> sessions[j].pid != pid
      {
        i := i + 1;
      }
      assert i == SessionOf(sessions, pid);
      if i < |sessions| {
        sessions := SwapRemove(sessions, i);
        return true, [];
      }
      var c := 0;
      while c < |checks| && checks[c].pid != pid
        invariant 0 <= c <= |checks|
        invariant forall j :: 0 <= j < c ==> checks[j].pid != pid
      {
        c := c + 1;
      }
      assert c == CheckOf(checks, pid);
      if c == |checks| {
        return false, [];
      }
      var key := checks[c].key;
      checks := SwapRemove(checks, c);
      signals := [];
      if Withdrawn(exit) {
        signals := EndSessionsOf(key);
      }
      return true, signals;
    }
  }
}
