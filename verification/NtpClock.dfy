/**
 Which network times the display's clock accepts: none before the firmware was built or before the last one
 it accepted, which it keeps across restarts, and after a first one in a session none more than an hour off.
 */
module NtpClock {
  import opened Wrappers
  import opened CivilDate

  const MARGIN: nat := 86400
  const MAX_JUMP: int := 3600
  const LONG_RANGE: nat := 0x1_0000_0000
  const LONG_MAX: int := 0x7FFF_FFFF

  /** lastGood is 0 until a time is accepted in this session; stored is kept across restarts. */
  datatype State = State(build: int, lastGood: int, stored: Option<int>, clock: int)

  function Floor(s: State): int {
    var floor := if s.build > MARGIN then s.build - MARGIN else s.build;
    if s.stored.Some? && s.stored.value > floor then s.stored.value else floor
  }

  /** A number as the 32 bits of a long keep it. */
  function Long(x: int): int {
    var r := x % LONG_RANGE;
    if r > LONG_MAX then r - LONG_RANGE else r
  }

  function LongAbs(x: int): int {
    if x < 0 then Long(-x) else x
  }

  predicate Accepts(s: State, before: int, after: int) {
    after >= Floor(s) && !(s.lastGood > 0 && LongAbs(Long(after - before)) > MAX_JUMP)
  }

  function Persisted(stored: Option<int>, t: int): Option<int> {
    if t > (if stored.Some? then stored.value else 0) then Some(t) else stored
  }

  datatype Event = Sync(before: int, reply: Option<int>) | Restart(clock: int)

  function Step(s: State, ev: Event): State {
    match ev
    case Restart(clock) => s.(lastGood := 0, clock := clock)
    case Sync(before, reply) =>
      match reply
      case None => s
      case Some(after) =>
        if Accepts(s, before, after)
        then s.(lastGood := after, stored := Persisted(s.stored, after), clock := after)
        else s.(clock := before)
  }

  /** Starts with the build time, which is 0 when the compiler's date can't be made out. */
  function Init(built: Moment, clock: int): State {
    State(if Epoch(built) > 0 then Epoch(built) else 0, 0, None, clock)
  }

  function Run(s: State, events: seq<Event>): State
    decreases |events|
  {
    if events == [] then s else Step(Run(s, events[..|events| - 1]), events[|events| - 1])
  }

  predicate Accepted(s: State, ev: Event) {
    ev.Sync? && ev.reply.Some? && Accepts(s, ev.before, ev.reply.value)
  }

  lemma {:induction false} StepRaisesFloor(s: State, ev: Event)
    requires s.build >= 0
    ensures Step(s, ev).build == s.build && Floor(Step(s, ev)) >= Floor(s) >= 0
    ensures Accepted(s, ev) ==> Floor(Step(s, ev)) >= ev.reply.value
  {}

  lemma {:induction false} RunRaisesFloor(s: State, events: seq<Event>, i: nat)
    requires s.build >= 0 && i <= |events|
    ensures Run(s, events).build == s.build
    ensures Floor(Run(s, events)) >= Floor(Run(s, events[..i])) >= 0
    decreases |events|
  {
    if i < |events| {
      RunRaisesFloor(s, events[..|events| - 1], i);
      assert events[..|events| - 1][..i] == events[..i];
      StepRaisesFloor(Run(s, events[..|events| - 1]), events[|events| - 1]);
    } else {
      assert events[..i] == events;
      if events != [] {
        RunRaisesFloor(s, events[..i - 1], i - 1);
        assert events[..i - 1][..i - 1] == events[..i - 1];
        StepRaisesFloor(Run(s, events[..i - 1]), events[i - 1]);
      }
    }
  }

  /**
   Over every run, restarts included: no time is accepted that is earlier than one accepted before, or earlier
   than a day before the firmware was built.
   */
  lemma {:induction false} AcceptedTimesNeverGoBack(built: Moment, clock: int, events: seq<Event>, i: nat, j: nat)
    requires i < j < |events|
    requires Accepted(Run(Init(built, clock), events[..i]), events[i])
    requires Accepted(Run(Init(built, clock), events[..j]), events[j])
    ensures events[i].reply.value <= events[j].reply.value
    ensures Epoch(built) - MARGIN <= events[i].reply.value
  {
    hide Epoch;
    var s := Init(built, clock);
    RunRaisesFloor(s, events[..i], 0);
    assert events[..i][..0] == [] && Floor(Run(s, [])) == Floor(s);
    StepRaisesFloor(Run(s, events[..i]), events[i]);
    assert events[..i + 1][..i] == events[..i];
    RunRaisesFloor(s, events[..j], i + 1);
    assert events[..j][..i + 1] == events[..i + 1];
  }

  lemma {:induction false} RejectionRestores(s: State, ev: Event)
    requires ev.Sync? && ev.reply.Some? && !Accepted(s, ev)
    ensures Step(s, ev) == s.(clock := ev.before)
  {}

  /** The last time accepted in a run; with session, in the session that the run ends in. */
  function LastAccepted(s: State, events: seq<Event>, session: bool): Option<int>
    decreases |events|
  {
    if events == [] then None
    else
      var init, last := events[..|events| - 1], events[|events| - 1];
      if session && last.Restart? then None
      else if Accepted(Run(s, init), last) then last.reply
      else LastAccepted(s, init, session)
  }

  /**
   Over every run: the time kept across restarts is the very last one accepted, and what is known of the session its
   last; so times that were rejected leave no trace.
   */
  lemma {:induction false} OnlyAcceptedTimesAreKept(built: Moment, clock: int, events: seq<Event>)
    ensures var s, r := Init(built, clock), Run(Init(built, clock), events);
      && r.stored == (if LastAccepted(s, events, false) == Some(0) then None else LastAccepted(s, events, false))
      && Some(r.lastGood) == (if LastAccepted(s, events, true) == None then Some(0) else LastAccepted(s, events, true))
      && Floor(r) >= 0 && (r.stored.Some? ==> r.stored.value > 0)
    decreases |events|
  {
    hide Epoch, Accepts;
    if events != [] {
      var init, last := events[..|events| - 1], events[|events| - 1];
      OnlyAcceptedTimesAreKept(built, clock, init);
      var before := Run(Init(built, clock), init);
      if Accepted(before, last) {
        AcceptedIsKept(before, last);
      } else if last.Sync? && last.reply.Some? {
        RejectionRestores(before, last);
      }
    }
  }

  lemma {:induction false} AcceptedIsKept(s: State, ev: Event)
    requires Accepted(s, ev) && Floor(s) >= 0 && (s.stored.Some? ==> s.stored.value > 0)
    ensures ev.reply.value >= 0 && Step(s, ev).stored == if ev.reply.value > 0 then ev.reply else None
    ensures Step(s, ev).lastGood == ev.reply.value && Floor(Step(s, ev)) >= 0
  {}

  /** The absolute value of a long is out of order for one value only. */
  lemma {:induction false} LongAbsIs(x: int)
    ensures var r := x % LONG_RANGE;
      LongAbs(Long(x)) == if r <= LONG_MAX then r else if r == LONG_MAX + 1 then -LONG_MAX - 1 else LONG_RANGE - r
  {
    var r := x % LONG_RANGE;
    if r > LONG_MAX + 1 {
      assert (LONG_RANGE - r) % LONG_RANGE == LONG_RANGE - r;
    }
  }

  /**
   Once a time has been accepted in the session, the next must be within the hour, counted in whole turns of a
   32-bit long; the one other change let through is half a turn, of which a long has no absolute value.
   */
  lemma {:induction false} JumpsAreBounded(s: State, before: int, after: int)
    requires s.lastGood > 0
    ensures Accepts(s, before, after) <==>
      && after >= Floor(s)
      && var r := (after - before) % LONG_RANGE;
      r <= MAX_JUMP || r >= LONG_RANGE - MAX_JUMP || r == LONG_MAX + 1
  {
    hide LongAbs, Long, Floor;
    LongAbsIs(after - before);
  }

  /** Before that, a time is accepted exactly from a day before the build and from the last one kept on. */
  lemma {:induction false} FirstSyncIsAccepted(s: State, before: int, after: int)
    requires s.lastGood <= 0
    ensures Accepts(s, before, after) <==>
      && after >= (if s.build > 86400 then s.build - 86400 else s.build)
      && (s.stored.Some? ==> after >= s.stored.value)
  {}

  /** So a change that a long can hold is of an hour at most. */
  lemma {:induction false} SmallJumpsAreWithinTheHour(s: State, before: int, after: int)
    requires s.lastGood > 0 && Accepts(s, before, after) && -LONG_MAX <= after - before <= LONG_MAX
    ensures -MAX_JUMP <= after - before <= MAX_JUMP
  {
    hide Floor, Accepts;
    JumpsAreBounded(s, before, after);
    var d := after - before;
    assert d % LONG_RANGE == if d >= 0 then d else d + LONG_RANGE;
  }

  /** A jump of a whole turn is let through. */
  lemma {:induction false} WholeTurnIsAccepted()
    ensures Accepts(State(0, 1, Some(1), 1), 1, 1 + LONG_RANGE)
  {}

  class Clock {
    const build: int
    var lastGood: int
    var stored: Option<int>
    var clock: int

    ghost function View(): State
      reads this
    {
      State(build, lastGood, stored, clock)
    }

    constructor (built: Moment, now: int)
      ensures View() == Init(built, now)
    {
      var t := Epoch(built);
      build := if t > 0 then t else 0;
      lastGood, stored, clock := 0, None, now;
    }

    method TimeFloor() returns (floor: int)
      ensures floor == Floor(View())
    {
      floor := build;
      if floor > MARGIN {
        floor := floor - MARGIN;
      }
      if stored.Some? {
        if stored.value > floor {
          floor := stored.value;
        }
      }
    }

    method PersistGood(t: int)
      modifies this`stored
      ensures stored == Persisted(old(stored), t)
    {
      var known := if stored.Some? then stored.value else 0;
      if t > known {
        stored := Some(t);
      }
    }

    /** What the network answers, if it does; the clock shows it until it is rejected. */
    method SyncTime(before: int, reply: Option<int>)
      modifies this
      ensures View() == Step(old(View()), Sync(before, reply))
    {
      if reply == None {
        return;
      }
      var after := reply.value;
      clock := after;
      var floor := TimeFloor();
      if after < floor {
        clock := before;
      } else if lastGood > 0 && LongAbs(Long(after - before)) > MAX_JUMP {
        clock := before;
      } else {
        lastGood := after;
        PersistGood(after);
      }
    }
  }
}
