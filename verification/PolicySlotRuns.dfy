/**
 The ESP32's policy checks over whole runs: where each envelope is, what lets one be handed on, which replies are
 taken, and whom the slot names.
 */
module PolicySlotRuns {
  import opened Wrappers
  import opened AtSign
  import opened PolicySlot
  import DC = PolicyCache
  import PC = PolicyCooldown

  /** The sizes a daemon is set up with. */
  datatype Setup = Setup(policy: string, cacheSize: nat, seed: nat)

  function Init(s: Setup): Daemon {
    Daemon(s.policy, EMPTY, s.seed % IDS, DC.Cleared(s.cacheSize), seq(PC.SLOTS, _ => PC.FREE), "", [], [], [])
  }

  function Run(s: Setup, events: seq<Event>): Daemon
    decreases |events|
  {
    if events == [] then Init(s) else Step(Run(s, events[..|events| - 1]), events[|events| - 1])
  }

  /**
   Over every run: each envelope ever parsed is in exactly one place (held by the slot, deleted once or handed on
   once), and a slot that is in use has the nonzero id that was drawn last.
   */
  lemma {:induction false} RunKeepsInv(s: Setup, events: seq<Event>)
    ensures Inv(Run(s, events))
    decreases |events|
  {
    if events == [] {
      assert forall e: nat :: Places(Init(s), e) == 0;
    } else {
      RunKeepsInv(s, events[..|events| - 1]);
      StepKeepsInv(Run(s, events[..|events| - 1]), events[|events| - 1]);
    }
  }

  // ---- What is handed on ----

  /** What a step adds to the log. */
  function New(d: Daemon, ev: Event): seq<Effect> {
    if d.log <= Step(d, ev).log then Step(d, ev).log[|d.log|..] else []
  }

  lemma {:induction false} EnvelopeAdds(d: Daemon, ev: Event, e: nat)
    requires ev.NptRequest?
    ensures d.log <= OnEnvelope(d, ev, e).log && OnEnvelope(d, ev, e).checks == d.checks
  {
    hide Cached, FirstRules, Shortened, NextId;
  }

  lemma {:induction false} RequestAdds(d: Daemon, ev: Event)
    requires ev.PingRequest? || ev.NptRequest?
    ensures d.log <= Step(d, ev).log && Step(d, ev).checks == d.checks
  {
    hide Cached, Normalized, Shortened, NextId, PC.After, PC.Allows;
    if ev.NptRequest? {
      hide OnEnvelope;
      var d1 := Throttled(d, ev.from, PC.Npt, ev.rateAt).0;
      EnvelopeAdds(d1.(senders := d1.senders + [ev.from]), ev, |d1.senders|);
    }
  }

  lemma {:induction false} AnswerAdds(d: Daemon, ev: Event)
    requires !ev.PingRequest? && !ev.NptRequest?
    ensures d.log <= Step(d, ev).log && (ev.DecryptFailure? ==> Step(d, ev).checks == d.checks)
  {
    hide DC.Stored, Normalized, Rules, SamePlain, NextId;
  }

  /** Each step only adds to the log. */
  lemma {:induction false} StepAdds(d: Daemon, ev: Event)
    ensures Step(d, ev).log == d.log + New(d, ev)
  {
    hide Step;
    if ev.PingRequest? || ev.NptRequest? {
      RequestAdds(d, ev);
    } else {
      AnswerAdds(d, ev);
    }
  }

  predicate Authorizes(reply: Reply) {
    reply.Success? && reply.body.Some? && reply.body.value.authorized
  }

  /** x hands on the envelope in the slot, for the reply to the request in flight says it is authorized. */
  predicate GrantedNow(d: Daemon, ev: Event, x: Effect)
    requires x.Handed?
  {
    && Answers(d, ev) && Authorizes(ev.reply)
    && d.slot.reqId == d.counter != 0
    && d.slot.envelope == Some(x.envelope) && x.envelope < |d.senders|
    && x.to == Shortened(d.senders[x.envelope])
    && x.rules == Rules(ev.reply.body.value.permitOpen)
  }

  /** x hands on a new envelope, for the latest decision about its sender is fresh and says it is authorized. */
  predicate GrantedBefore(d: Daemon, ev: Event, x: Effect)
    requires x.Handed?
  {
    && ev.NptRequest?
    && x.envelope == |d.senders| && x.to == ev.from
    && Normalized(ev.from, BUFFER_LEN).Some?
    && var latest := DC.Latest(d.checks, Normalized(ev.from, BUFFER_LEN).value);
    && latest.Some? && latest.value.decision.authorized
    && ev.lookupAt - latest.value.time < DC.TTL_MS
    && x.rules == FirstRules(latest.value.decision.permitOpen)
  }

  lemma {:induction false} HandedByResponse(d: Daemon, ev: Event, x: Effect)
    requires Inv(d) && ev.Response?
    ensures x in New(d, ev) && x.Handed? ==> GrantedNow(d, ev, x)
  {
    StepAdds(d, ev);
    hide DC.Stored, DC.Distinct, DC.HoldsLatest, Normalized, SamePlain, Rules, Accounted;
  }

  lemma {:induction false} CachedIsLatest(d: Daemon, from: string, now: int, copied: bool)
    requires CacheOk(d) && Cached(d, from, now, copied).Some?
    ensures Normalized(from, BUFFER_LEN).Some?
    ensures var latest := DC.Latest(d.checks, Normalized(from, BUFFER_LEN).value);
      && latest.Some? && latest.value.decision == Cached(d, from, now, copied).value
      && now - latest.value.time < DC.TTL_MS
  {}

  lemma {:induction false} HandedByNpt(d: Daemon, ev: Event, x: Effect)
    requires Inv(d) && ev.NptRequest? && x in New(d, ev) && x.Handed?
    ensures GrantedBefore(d, ev, x)
  {
    hide DC.Found, DC.Distinct, DC.HoldsLatest, PC.After, PC.Allows, Normalized, Rules, Accounted;
    var d1 := Throttled(d, ev.from, PC.Npt, ev.rateAt).0;
    var d2 := d1.(senders := d1.senders + [ev.from]);
    assert Cached(d2, ev.from, ev.lookupAt, ev.copied).Some?;
    CachedIsLatest(d2, ev.from, ev.lookupAt, ev.copied);
  }

  lemma {:induction false} NothingElseHands(d: Daemon, ev: Event, x: Effect)
    requires x in New(d, ev) && x.Handed?
    ensures ev.Response? || ev.NptRequest?
  {}

  /** c records an authorized reply to a request that was in flight during the run. */
  predicate WasAnswered(s: Setup, events: seq<Event>, c: DC.Check) {
    exists j :: 0 <= j < |events| && Records(Run(s, events[..j]), events[j], c)
  }

  predicate Records(d: Daemon, ev: Event, c: DC.Check) {
    && Answers(d, ev) && Authorizes(ev.reply)
    && Normalized(d.slot.name, BUFFER_LEN) == Some(c.atSign)
    && c.time == ev.now
    && c.decision == DecisionOf(ev.reply)
  }

  lemma {:induction false} StepRecords(d: Daemon, ev: Event, k: nat)
    requires k < |Step(d, ev).checks|
    ensures d.checks <= Step(d, ev).checks
    ensures k >= |d.checks| && Step(d, ev).checks[k].decision.authorized ==> Records(d, ev, Step(d, ev).checks[k])
  {
    hide DC.Stored, Normalized, Rules, OnPing, OnNpt, OnDecryptFailure;
    if ev.PingRequest? || ev.NptRequest? {
      RequestAdds(d, ev);
    } else {
      AnswerAdds(d, ev);
    }
  }

  lemma {:induction false} InitHasNoChecks(s: Setup)
    ensures Init(s).checks == []
  {}

  lemma {:induction false} AuthorizedChecksWereAnswered(s: Setup, events: seq<Event>, k: nat)
    requires k < |Run(s, events).checks| && Run(s, events).checks[k].decision.authorized
    ensures WasAnswered(s, events, Run(s, events).checks[k])
    decreases |events|
  {
    hide Step, Records, Init;
    if events == [] {
      InitHasNoChecks(s);
    } else {
      var init, n := events[..|events| - 1], |events| - 1;
      StepRecords(Run(s, init), events[n], k);
      if k < |Run(s, init).checks| {
        AuthorizedChecksWereAnswered(s, init, k);
        var c := Run(s, events).checks[k];
        var j :| 0 <= j < |init| && Records(Run(s, init[..j]), init[j], c);
        assert init[..j] == events[..j] && init[j] == events[j];
      }
    }
  }

  /** Either of those, the cached decision being one that such a reply made during the run. */
  predicate Granted(s: Setup, events: seq<Event>, ev: Event, x: Effect)
    requires x.Handed?
  {
    var d := Run(s, events);
    || GrantedNow(d, ev, x)
    || (GrantedBefore(d, ev, x)
        && var latest := DC.Latest(d.checks, Normalized(ev.from, BUFFER_LEN).value).value;
           WasAnswered(s, events, latest) && x.rules == latest.decision.permitOpen)
  }

  /**
   Over every run: an envelope is handed on only by an authorized reply, from the policy service, that bears
   the current nonzero id of the very slot that holds it, or by a fresh cached decision, its sender's
   latest, which such a reply made.
   */
  lemma {:induction false} HandedOnlyWhenGranted(s: Setup, events: seq<Event>, ev: Event)
    ensures forall x :: x in New(Run(s, events), ev) && x.Handed? ==> Granted(s, events, ev, x)
  {
    var d := Run(s, events);
    RunKeepsInv(s, events);
    forall x | x in New(d, ev) && x.Handed? ensures Granted(s, events, ev, x) {
      NothingElseHands(d, ev, x);
      if ev.Response? {
        HandedByResponse(d, ev, x);
      } else {
        HandedByNpt(d, ev, x);
        hide Inv, New;
        var name := Normalized(ev.from, BUFFER_LEN).value;
        DC.LatestIsSender(d.checks, name);
        var k :| 0 <= k < |d.checks| && d.checks[k] == DC.Latest(d.checks, name).value;
        AuthorizedChecksWereAnswered(s, events, k);
      }
    }
  }

  // ---- What ends a check ----

  /** The events that take the request out of the slot. */
  predicate Finishes(d: Daemon, ev: Event) {
    || (Answers(d, ev) && !ev.reply.Ack?)
    || (ev.Tick? && WaitOver(d.slot.startedAt, d.slot.progressAt, ev.now))
    || (ev.DecryptFailure? && ev.sender.Some? && SameCanonical(ev.sender.value, d.policy) && !ev.sent)
  }

  /**
   An NPT check in flight keeps the slot and its envelope, whatever else is asked, until an event that finishes
   it.
   */
  lemma {:induction false} NptIsNeverPreempted(d: Daemon, ev: Event)
    requires SlotOk(d) && d.slot.inUse && d.slot.kind.Npt?
    ensures Step(d, ev).slot.envelope == d.slot.envelope <==> !Finishes(d, ev)
    ensures !Finishes(d, ev) ==> Step(d, ev).slot.startedAt == d.slot.startedAt && Step(d, ev).slot.name == d.slot.name
    ensures ev.PingRequest? || ev.NptRequest? ==> Step(d, ev).slot == d.slot
    ensures Finishes(d, ev) ==> Step(d, ev).slot == EMPTY
  {}

  /** The reading of the clock that an event stamps the slot with. */
  function Stamp(ev: Event): int {
    if ev.PingRequest? || ev.NptRequest? then ev.startAt else ev.now
  }

  predicate ClockRuns(events: seq<Event>) {
    forall i, j :: 0 <= i < j < |events| ==> Stamp(events[i]) <= Stamp(events[j])
  }

  function LastTick(events: seq<Event>): Option<int> {
    if events == [] then None
    else if events[|events| - 1].Tick? then Some(events[|events| - 1].now)
    else LastTick(events[..|events| - 1])
  }

  predicate WaitedAtMost(slot: Slot, now: int, more: nat) {
    slot.inUse ==> now - slot.progressAt <= WAIT_MS + more && now - slot.startedAt <= WAIT_CAP_MS + more
  }

  lemma {:induction false} LastTickIsStamp(events: seq<Event>)
    ensures LastTick(events).Some? ==> exists i :: 0 <= i < |events| && Stamp(events[i]) == LastTick(events).value
    decreases |events|
  {
    if events != [] && !events[|events| - 1].Tick? {
      var init := events[..|events| - 1];
      LastTickIsStamp(init);
      assert LastTick(init).Some? ==> forall i :: 0 <= i < |init| ==> init[i] == events[i];
    }
  }

  /** A tick leaves nothing that has waited too long; other events only put the times forward. */
  lemma {:induction false} StepKeepsWait(d: Daemon, ev: Event, tick: int)
    ensures ev.Tick? ==> WaitedAtMost(Step(d, ev).slot, ev.now, 0)
    ensures WaitedAtMost(d.slot, tick, 0) && Stamp(ev) >= tick ==> WaitedAtMost(Step(d, ev).slot, tick, 0)
  {
    hide Normalized, Shortened, NextId, Cached, Rules, SamePlain, DC.Stored, PC.After, PC.Allows;
  }

  lemma {:induction false} WaitAtLastTick(s: Setup, events: seq<Event>)
    requires ClockRuns(events) && LastTick(events).Some?
    ensures WaitedAtMost(Run(s, events).slot, LastTick(events).value, 0)
    decreases |events|
  {
    hide Step, WaitedAtMost;
    var init, last := events[..|events| - 1], events[|events| - 1];
    if last.Tick? {
      StepKeepsWait(Run(s, init), last, last.now);
    } else {
      WaitAtLastTick(s, init);
      LastTickIsStamp(init);
      StepKeepsWait(Run(s, init), last, LastTick(init).value);
    }
  }

  /** Over every run: when the last tick was at most apart ms ago, the slot has waited for 30 s and that at most. */
  lemma {:induction false} WaitIsBounded(s: Setup, events: seq<Event>, now: int, apart: nat)
    requires ClockRuns(events) && LastTick(events).Some? && now - LastTick(events).value <= apart
    ensures WaitedAtMost(Run(s, events).slot, now, apart)
  {
    WaitAtLastTick(s, events);
  }

  // ---- Request ids ----

  /** The n-th id drawn after the counter was seeded. */
  function Id(seed: nat, n: nat): (id: nat)
    requires seed < IDS
    ensures id < IDS
  {
    if n == 0 then seed else NextId(Id(seed, n - 1))
  }

  lemma {:induction false} NextResidue(m: nat)
    ensures (m + 1) % (IDS - 1) == if m % (IDS - 1) == IDS - 2 then 0 else m % (IDS - 1) + 1
  {}

  lemma {:induction false} NextIdSteps(k: nat)
    requires k < IDS - 1
    ensures NextId(1 + k) == if k == IDS - 2 then 1 else k + 2
  {}

  lemma {:induction false} IdIsCyclic(seed: nat, n: nat)
    requires seed < IDS && n > 0
    ensures Id(seed, n) == 1 + (seed + n - 1) % (IDS - 1)
  {
    assert Id(seed, n) == NextId(Id(seed, n - 1));
    hide Id;
    if n > 1 {
      IdIsCyclic(seed, n - 1);
      NextResidue(seed + n - 2);
      NextIdSteps((seed + n - 2) % (IDS - 1));
    } else {
      FirstId(seed);
    }
  }

  lemma {:induction false} FirstId(seed: nat)
    requires seed < IDS
    ensures Id(seed, 0) == seed && NextId(seed) == 1 + seed % (IDS - 1)
  {}

  lemma {:induction false} SameResidue(a: nat, b: nat)
    requires a <= b
    ensures a % (IDS - 1) == b % (IDS - 1) <==> (b - a) % (IDS - 1) == 0
    decreases b
  {}

  /** Two ids drawn are the same exactly when whole cycles lie between them. */
  lemma {:induction false} IdsDiffer(seed: nat, i: nat, j: nat)
    requires seed < IDS && 0 < i <= j
    ensures Id(seed, i) == Id(seed, j) <==> (j - i) % (IDS - 1) == 0
  {
    hide Id;
    IdIsCyclic(seed, i);
    IdIsCyclic(seed, j);
    SameResidue(seed + i - 1, seed + j - 1);
    assert seed + j - 1 - (seed + i - 1) == j - i;
  }

  /** How many ids a run drew. */
  function Drawn(s: Setup, events: seq<Event>): nat
    decreases |events|
  {
    if events == [] then 0
    else
      var d := Run(s, events[..|events| - 1]);
      Drawn(s, events[..|events| - 1]) + if Step(d, events[|events| - 1]).counter == d.counter then 0 else 1
  }

  lemma {:induction false} StepDraws(d: Daemon, ev: Event)
    ensures Step(d, ev).counter == d.counter || Step(d, ev).counter == NextId(d.counter)
  {}

  lemma {:induction false} CounterIsLastDrawn(s: Setup, events: seq<Event>)
    ensures Run(s, events).counter == Id(s.seed % IDS, Drawn(s, events))
    decreases |events|
  {
    hide Step, NextId;
    if events != [] {
      var init := events[..|events| - 1];
      CounterIsLastDrawn(s, init);
      StepDraws(Run(s, init), events[|events| - 1]);
    }
  }

  lemma {:induction false} OtherRepliesAreIgnored(d: Daemon, ev: Event)
    requires Inv(d) && ev.Response? && ev.reqId != Some(d.counter)
    ensures Step(d, ev) == d
  {}

  /** A reply to any earlier request changes nothing, unless 2^32 - 1 or more have been sent since. */
  lemma {:induction false} StaleRepliesAreIgnored(s: Setup, events: seq<Event>, ev: Event, n: nat)
    requires ev.Response? && n > 0
    ensures ev.reqId == Some(Id(s.seed % IDS, n)) && 0 < Drawn(s, events) - n < IDS - 1 ==>
      Step(Run(s, events), ev) == Run(s, events)
  {
    hide Id, Drawn, Run, Step, Inv;
    var seed, k := s.seed % IDS, Drawn(s, events);
    CounterIsLastDrawn(s, events);
    RunKeepsInv(s, events);
    if ev.reqId == Some(Id(seed, n)) && 0 < k - n < IDS - 1 {
      IdsDiffer(seed, n, k);
      OtherRepliesAreIgnored(Run(s, events), ev);
    }
  }

  // ---- The sender's name in the slot ----

  lemma {:induction false} KeptOfSplit(s: string, k: nat)
    requires k <= |s|
    ensures Kept(s) == Kept(s[..k]) + Kept(s[k..])
    decreases |s|
  {
    if k == |s| {
      assert s[..k] == s && Kept(s[k..]) == [];
    } else {
      var init := s[..|s| - 1];
      KeptOfSplit(init, k);
      assert init[..k] == s[..k] && init[k..] == s[k..][..|s[k..]| - 1];
      assert s[k..][|s[k..]| - 1] == s[|s| - 1];
    }
  }

  /** What is cut off a long name, and what is left of it. */
  lemma {:induction false} ShortBody(from: string)
    requires |from| > NAME_MAX
    ensures var k := NAME_MAX - |from| + |Body(from)|;
      && 0 < k <= |Body(from)| && Body(Shortened(from)) == Body(from)[..k] && Body(from)[k..] == from[NAME_MAX..]
  {}

  lemma {:induction false} PrefixIsAllowed(body: string, k: nat)
    requires k <= |body| && forall i :: 0 <= i < |body| ==> !Forbidden(body[i])
    ensures forall i :: 0 <= i < k ==> !Forbidden(body[..k][i])
  {}

  /** What the slot cuts off a name holds dots only, if anything. */
  predicate OnlyDotsCut(from: string) {
    |from| <= NAME_MAX || forall i :: NAME_MAX <= i < |from| ==> from[i] == '.'
  }

  /**
   The name the slot keeps stands for the sender exactly when what was cut off it holds dots only: always for
   the atSigns of at most 63 characters.
   */
  lemma {:induction false} SlotNamesTheSender(from: string)
    requires Normalized(from, BUFFER_LEN).Some?
    ensures Normalized(Shortened(from), BUFFER_LEN) == Normalized(from, BUFFER_LEN) <==> OnlyDotsCut(from)
  {
    if |from| > NAME_MAX {
      ShortBody(from);
      var body, k := Body(from), NAME_MAX - |from| + |Body(from)|;
      KeptOfSplit(body, k);
      OnlyDots(from[NAME_MAX..]);
      assert (forall i :: NAME_MAX <= i < |from| ==> from[i] == '.') <==> Kept(from[NAME_MAX..]) == [] by {
        assert forall i :: NAME_MAX <= i < |from| ==> from[i] == from[NAME_MAX..][i - NAME_MAX];
      }
      hide Body, Kept, Shortened, Forbidden;
      PrefixIsAllowed(body, k);
      NormalizedIs(from, BUFFER_LEN);
      NormalizedIs(Shortened(from), BUFFER_LEN);
      if Kept(from[NAME_MAX..]) != [] {
        assert |Kept(body[..k])| < |Kept(body)|;
        assert |"@" + Kept(body[..k])| < |"@" + Kept(body)|;
      } else {
        assert Kept(body[..k]) + [] == Kept(body[..k]);
      }
    }
  }

  lemma {:induction false} OnlyDots(s: string)
    ensures Kept(s) == [] <==> forall i :: 0 <= i < |s| ==> s[i] == '.'
    decreases |s|
  {
    if s != [] {
      OnlyDots(s[..|s| - 1]);
    }
  }
}
