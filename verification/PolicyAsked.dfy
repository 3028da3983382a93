/**
 Whom the policy service was asked about: the sender when a request is first sent, and the name kept in the slot,
 which can be the sender's cut short, when it is sent again. Over whole runs, what is handed on rests on a reply about
 its own sender as long as no name is cut where it matters, and not otherwise.
 */
module PolicyAsked {
  import opened Wrappers
  import opened AtSign
  import opened PolicySlot
  import opened PolicySlotRuns
  import DC = PolicyCache
  import PC = PolicyCooldown

  /** The last request that was sent to the policy service. */
  function LastAsked(log: seq<Effect>): (r: Option<Effect>)
    ensures r.Some? ==> r.value.Asked? && r.value in log
  {
    if log == [] then None
    else if log[|log| - 1].Asked? then Some(log[|log| - 1])
    else LastAsked(log[..|log| - 1])
  }

  lemma {:induction false} AskedAfter(log: seq<Effect>, x: Effect)
    ensures LastAsked(log + [x]) == if x.Asked? then Some(x) else LastAsked(log)
  {}

  /** The request last sent is the slot's, about the sender or about the name that the slot keeps. */
  predicate AskedForSlot(d: Daemon) {
    var asked := LastAsked(d.log);
    && asked.Some? && asked.value.reqId == d.slot.reqId
    && (asked.value.client == d.asker || asked.value.client == d.slot.name)
  }

  predicate AskerOk(d: Daemon) {
    d.slot.inUse ==>
      && Normalized(d.asker, BUFFER_LEN).Some?
      && d.slot.name == Shortened(d.asker)
      && AskedForSlot(d)
      && (d.slot.envelope.Some? ==>
            d.slot.envelope.value < |d.senders| && d.senders[d.slot.envelope.value] == d.asker)
  }

  lemma {:induction false} DoKeepsAsker(d: Daemon, x: Effect)
    requires AskerOk(d) && !x.Asked?
    ensures AskerOk(Do(d, x))
  {
    AskedAfter(d.log, x);
    hide LastAsked, Normalized, Shortened;
  }

  /** A request put in the slot and sent is about its sender. */
  lemma {:induction false} QueuedKeepsAsker(
    d: Daemon, kind: PC.Kind, from: string, now: int, envelope: Option<nat>, sent: bool)
    requires Normalized(from, BUFFER_LEN).Some?
    requires envelope.Some? ==> envelope.value < |d.senders| && d.senders[envelope.value] == from
    ensures AskerOk(Send(Occupy(d, kind, from, now, envelope), from, sent))
  {
    hide Normalized, Shortened, NextId, LastAsked;
    AskedAfter(d.log, Asked(NextId(d.counter), from));
  }

  lemma {:induction false} PingKeepsAsker(d: Daemon, ev: Event)
    requires AskerOk(d) && ev.PingRequest?
    ensures AskerOk(OnPing(d, ev))
  {
    hide Normalized, Cached, Shortened, NextId, LastAsked, PC.After, PC.Allows, Send, Occupy;
    var (d1, limited) := Throttled(d, ev.from, PC.Ping, ev.rateAt);
    if !limited {
      DoKeepsAsker(d1, Heartbeat(ev.from));
      QueuedKeepsAsker(d1, PC.Ping, ev.from, ev.startAt, None, ev.sent);
    }
  }

  lemma {:induction false} EnvelopeKeepsAsker(d: Daemon, ev: Event, e: nat)
    requires AskerOk(d) && ev.NptRequest? && Normalized(ev.from, BUFFER_LEN).Some?
    requires e < |d.senders| && d.senders[e] == ev.from
    ensures AskerOk(OnEnvelope(d, ev, e))
  {
    var c := Cached(d, ev.from, ev.lookupAt, ev.copied);
    DoKeepsAsker(d, Handed(e, ev.from, if c.Some? then FirstRules(c.value.permitOpen) else []));
    DoKeepsAsker(d, Refused(ev.from));
    DoKeepsAsker(Do(d, Refused(ev.from)), Deleted(e));
    DoKeepsAsker(d, Deleted(e));
    var d1 := if d.slot.inUse then Cleanup(d) else d;
    QueuedKeepsAsker(d1, PC.Npt, ev.from, ev.startAt, Some(e), ev.sent);
    hide AskerOk, Normalized, Cached, Send, Occupy, FirstRules;
  }

  lemma {:induction false} NptKeepsAsker(d: Daemon, ev: Event)
    requires AskerOk(d) && ev.NptRequest?
    ensures AskerOk(OnNpt(d, ev))
  {
    hide Normalized, Shortened, LastAsked, PC.After, PC.Allows, OnEnvelope;
    var (d1, limited) := Throttled(d, ev.from, PC.Npt, ev.rateAt);
    if !limited && ev.parsed {
      var e, d2 := |d1.senders|, d1.(senders := d1.senders + [ev.from]);
      DoKeepsAsker(d2, Deleted(e));
      EnvelopeKeepsAsker(d2, ev, e);
    }
  }

  lemma {:induction false} AnswerKeepsAsker(d: Daemon, ev: Event)
    requires AskerOk(d) && (ev.Response? || ev.Tick?)
    ensures AskerOk(Step(d, ev))
  {
    hide Normalized, Shortened, LastAsked, Rules, SamePlain, DC.Stored;
  }

  lemma {:induction false} ResendKeepsAsker(d: Daemon, ev: Event)
    requires AskerOk(d) && ev.DecryptFailure?
    ensures AskerOk(OnDecryptFailure(d, ev))
  {
    AskedAfter(d.log, Asked(NextId(d.counter), d.slot.name));
    hide Normalized, Shortened, NextId, LastAsked;
  }

  lemma {:induction false} StepKeepsAsker(d: Daemon, ev: Event)
    requires AskerOk(d)
    ensures AskerOk(Step(d, ev))
  {
    hide AskerOk, OnPing, OnNpt, OnResponse, OnDecryptFailure, OnTick;
    match ev
    case PingRequest(_, _, _, _, _, _) => PingKeepsAsker(d, ev);
    case NptRequest(_, _, _, _, _, _, _, _) => NptKeepsAsker(d, ev);
    case DecryptFailure(_, _, _) => ResendKeepsAsker(d, ev);
    case _ => AnswerKeepsAsker(d, ev);
  }

  /**
   Over every run: while a request is in flight, the one last sent has its id and is about its sender or the name kept
   of it, and an envelope in the slot is that sender's.
   */
  lemma {:induction false} RunKeepsAsker(s: Setup, events: seq<Event>)
    ensures AskerOk(Run(s, events))
    decreases |events|
  {
    hide Step, AskedForSlot;
    if events != [] {
      RunKeepsAsker(s, events[..|events| - 1]);
      StepKeepsAsker(Run(s, events[..|events| - 1]), events[|events| - 1]);
    }
  }

  // ---- What a recorded check is about ----

  /** The reply to be taken now is to a request that was about sender. */
  predicate AskedAbout(d: Daemon, sender: string) {
    var asked := LastAsked(d.log);
    asked.Some? && asked.value.reqId == d.slot.reqId && SameCanonical(asked.value.client, sender)
  }

  /**
   Over every run: a decision is cached under its sender's own name exactly when no more than dots were cut off it; and
   under the name that the policy service was asked about exactly then, or when it was asked again about the name cut.
   */
  lemma {:induction false} RecordedNamesTheSender(s: Setup, events: seq<Event>, ev: Event)
    ensures var d := Run(s, events);
      Step(d, ev).checks != d.checks ==>
        && |Step(d, ev).checks| == |d.checks| + 1
        && var name := Some(Step(d, ev).checks[|d.checks|].atSign);
           var asked := LastAsked(d.log);
           && (name == Normalized(d.asker, BUFFER_LEN) <==> OnlyDotsCut(d.asker))
           && asked.Some? && asked.value.reqId == d.slot.reqId
           && (name == Normalized(asked.value.client, BUFFER_LEN) <==>
                 OnlyDotsCut(d.asker) || asked.value.client == d.slot.name)
  {
    var d := Run(s, events);
    RunKeepsAsker(s, events);
    hide Run, Normalized, Shortened, LastAsked, OnlyDotsCut, Rules, DC.Stored, OnPing, OnNpt;
    if ev.PingRequest? || ev.NptRequest? {
      RequestAdds(d, ev);
    } else {
      AnswerAdds(d, ev);
      if d.slot.inUse {
        SlotNamesTheSender(d.asker);
      }
    }
  }

  // ---- What is handed on ----

  /** Whose request it is, if it is one. */
  function Sender(ev: Event): string {
    if ev.PingRequest? || ev.NptRequest? then ev.from else ""
  }

  predicate OnlyDotsCutIn(events: seq<Event>) {
    forall i :: 0 <= i < |events| ==> OnlyDotsCut(Sender(events[i]))
  }

  lemma {:induction false} StepSetsAsker(d: Daemon, ev: Event)
    ensures Step(d, ev).asker == d.asker || Step(d, ev).asker == Sender(ev)
  {
    hide Normalized, Shortened, NextId, Cached, Rules, SamePlain, DC.Stored, PC.After, PC.Allows;
  }

  lemma {:induction false} AskerIsASender(s: Setup, events: seq<Event>)
    requires OnlyDotsCutIn(events)
    ensures OnlyDotsCut(Run(s, events).asker)
    decreases |events|
  {
    assert OnlyDotsCut("");
    hide Step, OnlyDotsCut;
    if events == [] {
      assert Run(s, events).asker == "";
    } else {
      AskerIsASender(s, events[..|events| - 1]);
      StepSetsAsker(Run(s, events[..|events| - 1]), events[|events| - 1]);
    }
  }

  /** Event j is an authorized reply, with these rules, to a request about sender, and it is taken. */
  ghost predicate AuthorizedBy(s: Setup, events: seq<Event>, j: nat, sender: string, rules: seq<string>)
    requires j < |events|
  {
    var d := Run(s, events[..j]);
    && Answers(d, events[j]) && Authorizes(events[j].reply)
    && AskedAbout(d, sender)
    && rules == Rules(events[j].reply.body.value.permitOpen)
  }

  /** Event j is such a reply, and it comes now or less than the time to live before ev. */
  ghost predicate AuthorizedInTime(
    s: Setup, events: seq<Event>, ev: Event, j: nat, sender: string, rules: seq<string>)
    requires j <= |events|
  {
    && AuthorizedBy(s, events + [ev], j, sender, rules)
    && (j < |events| ==> ev.NptRequest? && ev.lookupAt - events[j].now < DC.TTL_MS)
  }

  /** x rests on such a reply about the sender of its envelope. */
  ghost predicate RestsOnReply(s: Setup, events: seq<Event>, ev: Event, x: Effect)
    requires x.Handed?
  {
    var senders := Step(Run(s, events), ev).senders;
    && x.envelope < |senders|
    && exists j :: 0 <= j <= |events| && AuthorizedInTime(s, events, ev, j, senders[x.envelope], x.rules)
  }

  /** The reply that is taken is to a request about the slot's sender, whose name is cut of dots only. */
  lemma {:induction false} AskedAboutAsker(d: Daemon)
    requires AskerOk(d) && d.slot.inUse && OnlyDotsCut(d.asker)
    ensures AskedAbout(d, d.asker) && Normalized(d.slot.name, BUFFER_LEN) == Normalized(d.asker, BUFFER_LEN)
  {
    SlotNamesTheSender(d.asker);
    hide Normalized, Shortened, LastAsked, OnlyDotsCut;
  }

  lemma {:induction false} SendersStay(d: Daemon, ev: Event)
    requires ev.Response?
    ensures Step(d, ev).senders == d.senders
  {
    hide Normalized, Rules, SamePlain, DC.Stored;
  }

  lemma {:induction false} GrantedNowRests(s: Setup, events: seq<Event>, ev: Event, x: Effect)
    requires OnlyDotsCutIn(events) && x.Handed? && GrantedNow(Run(s, events), ev, x)
    ensures RestsOnReply(s, events, ev, x)
  {
    var d, n := Run(s, events), |events|;
    RunKeepsAsker(s, events);
    AskerIsASender(s, events);
    AskedAboutAsker(d);
    SendersStay(d, ev);
    assert (events + [ev])[..n] == events && (events + [ev])[n] == ev;
    hide Run, Step, AskedAbout, Rules, SamePlain, Authorizes, Shortened, AskedForSlot;
    assert AuthorizedInTime(s, events, ev, n, d.senders[x.envelope], x.rules);
  }

  lemma {:induction false} NewEnvelopeIsFrom(d: Daemon, ev: Event, x: Effect)
    requires ev.NptRequest? && x in New(d, ev) && x.Handed?
    ensures Step(d, ev).senders == d.senders + [ev.from]
  {
    hide Normalized, Shortened, NextId, Cached, FirstRules, PC.After, PC.Allows;
  }

  lemma {:induction false} RecordedRests(d: Daemon, ev: Event, c: DC.Check, from: string)
    requires AskerOk(d) && SlotOk(d) && OnlyDotsCut(d.asker) && Records(d, ev, c)
    requires Normalized(from, BUFFER_LEN) == Some(c.atSign)
    ensures AskedAbout(d, from) && c.decision.permitOpen == Rules(ev.reply.body.value.permitOpen)
  {
    AskedAboutAsker(d);
    hide Normalized, Shortened, LastAsked, OnlyDotsCut, Rules, SamePlain;
  }

  lemma {:induction false} InvHasSlot(d: Daemon)
    requires Inv(d)
    ensures SlotOk(d)
  {}

  lemma {:induction false} GrantedBeforeRests(s: Setup, events: seq<Event>, ev: Event, x: Effect, c: DC.Check)
    requires OnlyDotsCutIn(events) && x in New(Run(s, events), ev) && x.Handed? && ev.NptRequest?
    requires x.envelope == |Run(s, events).senders| && x.rules == c.decision.permitOpen
    requires Normalized(ev.from, BUFFER_LEN) == Some(c.atSign) && ev.lookupAt - c.time < DC.TTL_MS
    requires WasAnswered(s, events, c)
    ensures RestsOnReply(s, events, ev, x)
  {
    var d := Run(s, events);
    var j :| 0 <= j < |events| && Records(Run(s, events[..j]), events[j], c);
    NewEnvelopeIsFrom(d, ev, x);
    hide Run, New, Step, AskedAbout, Rules, SamePlain, Authorizes, Normalized, OnlyDotsCut, AskerOk, AskedForSlot;
    RunKeepsInv(s, events[..j]);
    RunKeepsAsker(s, events[..j]);
    AskerIsASender(s, events[..j]);
    InvHasSlot(Run(s, events[..j]));
    hide Inv;
    RecordedRests(Run(s, events[..j]), events[j], c, ev.from);
    assert (events + [ev])[..j] == events[..j] && (events + [ev])[j] == events[j];
    hide SlotOk;
    hide OnlyDotsCutIn, WasAnswered, Records;
    assert (d.senders + [ev.from])[x.envelope] == ev.from;
    assert AuthorizedInTime(s, events, ev, j, ev.from, x.rules);
  }

  lemma {:induction false} GrantedRests(s: Setup, events: seq<Event>, ev: Event, x: Effect)
    requires OnlyDotsCutIn(events) && x in New(Run(s, events), ev) && x.Handed? && Granted(s, events, ev, x)
    ensures RestsOnReply(s, events, ev, x)
  {
    var d := Run(s, events);
    hide New, Run, GrantedNow, OnlyDotsCutIn, RestsOnReply, WasAnswered, Normalized, FirstRules, DC.Latest;
    if GrantedNow(d, ev, x) {
      GrantedNowRests(s, events, ev, x);
    } else {
      var name := Normalized(ev.from, BUFFER_LEN).value;
      DC.LatestIsSender(d.checks, name);
      GrantedBeforeRests(s, events, ev, x, DC.Latest(d.checks, name).value);
    }
  }

  /**
   Over every run whose requests come from senders that nothing but dots is cut off: what is handed on rests on an
   authorized reply, with just these rules, to a request that was about the sender of the very envelope; and the reply
   comes now, or it came less than the time to live ago.
   */
  lemma {:induction false} HandedRestsOnReply(s: Setup, events: seq<Event>, ev: Event)
    requires OnlyDotsCutIn(events)
    ensures forall x :: x in New(Run(s, events), ev) && x.Handed? ==> RestsOnReply(s, events, ev, x)
  {
    HandedOnlyWhenGranted(s, events, ev);
    forall x | x in New(Run(s, events), ev) && x.Handed? ensures RestsOnReply(s, events, ev, x) {
      hide New, Run, Granted, RestsOnReply;
      GrantedRests(s, events, ev, x);
    }
  }

  // ---- And not otherwise ----

  const POLICY: string := "@p"
  const YES := DC.Decision(true, [])
  const RESEND := DecryptFailure(Some(POLICY), 0, true)

  function Npt(from: string): Event {
    NptRequest(from, 0, true, true, 0, 0, true, true)
  }

  function Grant(id: nat): Event {
    Response(POLICY, Some(id), Success(Some(YES)), 0, true)
  }

  /** A daemon with an envelope of from's in its slot, and nothing cached. */
  predicate Waits(s: Setup, d: Daemon, from: string) {
    && Normalized(from, BUFFER_LEN).Some?
    && d.policy == s.policy
    && d.slot == Slot(true, PC.Npt, 1, 0, 0, Shortened(from), Some(0)) && d.counter == 1
    && d.entries == DC.Cleared(s.cacheSize) && d.checks == []
    && d.cooldown == PC.After(Init(s).cooldown, Normalized(from, BUFFER_LEN).value, PC.Npt, 0)
    && d.asker == from && d.senders == [from]
    && d.log == [Asked(1, from)]
  }

  lemma {:induction false} FirstWaits(s: Setup, from: string)
    requires s.seed == 0 && Normalized(from, BUFFER_LEN).Some?
    ensures Waits(s, Step(Init(s), Npt(from)), from)
  {
    hide Normalized, Shortened, PC.After;
    var name := Normalized(from, BUFFER_LEN).value;
    assert PC.Find(Init(s).cooldown, name) == PC.SLOTS;
    assert PC.Allows(Init(s).cooldown, name, PC.Npt, 0);
    assert DC.FindName(DC.Cleared(s.cacheSize), name) == s.cacheSize;
  }

  lemma {:induction false} RunMore(s: Setup, events: seq<Event>, ev: Event)
    ensures Run(s, events + [ev]) == Step(Run(s, events), ev)
  {
    assert (events + [ev])[..|events|] == events;
  }

  lemma {:induction false} RunTwo(s: Setup, first: Event, second: Event)
    ensures Run(s, [first, second]) == Step(Step(Init(s), first), second)
  {
    RunMore(s, [], first);
    RunMore(s, [first], second);
    assert [] + [first] == [first] && [first] + [second] == [first, second];
    hide Step, Init;
  }

  lemma {:induction false} LettersAndDotsAreFine(c: char)
    requires 'a' <= c <= 'z' || c == '.'
    ensures !Forbidden(c)
  {}

  lemma {:induction false} PolicyIsCanonical()
    ensures Normalized(POLICY, BUFFER_LEN).Some?
  {
    assert Body(POLICY) == "p";
    LettersAndDotsAreFine('p');
    hide Forbidden;
    KeptStep("p", 0);
    NormalizedIs(POLICY, BUFFER_LEN);
  }

  /** A re-send asks about the name in the slot. */
  lemma {:induction false} ResentAboutTheSlot(s: Setup, d: Daemon, from: string)
    requires s.policy == POLICY && Waits(s, d, from)
    ensures var r := Step(d, RESEND);
      && r.slot == d.slot.(reqId := 2) && r.log == d.log + [Asked(2, Shortened(from))]
      && r.policy == POLICY && r.senders == [from]
  {
    PolicyIsCanonical();
    hide Normalized, Shortened, PC.After, DC.Cleared;
  }

  lemma {:induction false} GrantHands(d: Daemon, id: nat)
    requires d.policy == POLICY && d.slot.inUse && d.slot.reqId == id && d.slot.envelope == Some(0)
    ensures var r := Step(d, Grant(id));
      r.log == d.log + [Handed(0, d.slot.name, [])] && r.senders == d.senders
  {
    hide Normalized, DC.Stored;
  }

  /** All requests among the events are from's. */
  predicate OnlyFrom(events: seq<Event>, from: string) {
    forall i :: 0 <= i < |events| && (events[i].PingRequest? || events[i].NptRequest?) ==> events[i].from == from
  }

  /** Whatever happens while only from asks, nothing is handed on but by replies about it. */
  ghost predicate RestsAlways(from: string) {
    forall s: Setup, events: seq<Event>, ev: Event, x: Effect ::
      OnlyFrom(events, from) && x in New(Run(s, events), ev) && x.Handed? ==> RestsOnReply(s, events, ev, x)
  }

  lemma {:induction false} ShortSendersRest(from: string)
    requires OnlyDotsCut(from)
    ensures RestsAlways(from)
  {
    assert OnlyDotsCut("");
    forall s: Setup, events: seq<Event>, ev: Event, x: Effect |
      OnlyFrom(events, from) && x in New(Run(s, events), ev) && x.Handed?
      ensures RestsOnReply(s, events, ev, x)
    {
      hide New, Run, RestsOnReply, OnlyDotsCut;
      assert OnlyDotsCutIn(events);
      HandedRestsOnReply(s, events, ev);
    }
  }

  /** A request that is sent again is about the name that was cut, which the reply then stands for. */
  lemma {:induction false} ResentRun(from: string)
    requires Normalized(from, BUFFER_LEN).Some? && !OnlyDotsCut(from)
    ensures var s, events, ev := Setup(POLICY, 0, 0), [Npt(from), RESEND], Grant(2);
      var x := Handed(0, Shortened(from), []);
      x in New(Run(s, events), ev) && !RestsOnReply(s, events, ev, x)
  {
    var s, events, ev := Setup(POLICY, 0, 0), [Npt(from), RESEND], Grant(2);
    var x := Handed(0, Shortened(from), []);
    var d := Step(Init(s), Npt(from));
    FirstWaits(s, from);
    ResentAboutTheSlot(s, d, from);
    var r := Step(d, RESEND);
    RunTwo(s, Npt(from), RESEND);
    GrantHands(r, 2);
    StepAdds(r, ev);
    AskedAfter(d.log, Asked(2, Shortened(from)));
    SlotNamesTheSender(from);
    hide Run, Step, Shortened, Normalized, OnlyDotsCut;
    var all := events + [ev];
    assert all[..2] == events && all[0] == Npt(from) && all[1] == RESEND;
    assert !AskedAbout(r, from);
    forall j: nat | j <= 2 ensures !AuthorizedInTime(s, events, ev, j, from, x.rules) {}
  }

  /** Of a sender's requests alone: all that is handed on rests on replies about it exactly when only dots are cut. */
  lemma {:induction false} RestsExactlyWhenNamed(from: string)
    requires Normalized(from, BUFFER_LEN).Some?
    ensures RestsAlways(from) <==> OnlyDotsCut(from)
  {
    hide OnlyDotsCut, Normalized, RestsOnReply, New, Run, Shortened;
    if OnlyDotsCut(from) {
      ShortSendersRest(from);
    } else {
      ResentRun(from);
      assert OnlyFrom([Npt(from), RESEND], from);
    }
  }

  /** An authorized reply is cached under the name in the slot. */
  lemma {:induction false} GrantCaches(s: Setup, d: Daemon, from: string, name: string)
    requires s.policy == POLICY && s.cacheSize == 1 && Waits(s, d, from)
    requires Normalized(Shortened(from), BUFFER_LEN) == Some(name)
    ensures var r := Step(d, Grant(1));
      && r.slot == EMPTY && r.entries == [DC.Entry(true, name, 0, YES)]
      && r.cooldown == d.cooldown && r.senders == [from]
      && r.log == d.log + [Handed(0, Shortened(from), [])]
  {
    assert DC.Cleared(1) == [DC.FREE];
    hide Normalized, Shortened, PC.After;
  }

  /** Another sender isn't held up by the first one's request. */
  lemma {:induction false} OtherAllowed(s: Setup, name: string, other: string)
    requires name != other
    ensures PC.Allows(PC.After(Init(s).cooldown, name, PC.Npt, 0), other, PC.Npt, 0)
  {
    var slots := Init(s).cooldown;
    assert PC.Find(slots, name) == PC.SLOTS;
    var after := PC.After(slots, name, PC.Npt, 0);
    assert forall i :: 0 <= i < |after| && after[i].used ==> after[i].atSign == name;
    assert PC.Find(after, other) == PC.SLOTS;
  }

  lemma {:induction false} CachedHands(d: Daemon, other: string, name: string)
    requires Normalized(other, BUFFER_LEN) == Some(name)
    requires PC.Allows(d.cooldown, name, PC.Npt, 0)
    requires d.entries == [DC.Entry(true, name, 0, YES)]
    ensures var r := Step(d, Npt(other));
      r.log == d.log + [Handed(|d.senders|, other, [])] && r.senders == d.senders + [other]
  {
    hide Normalized, PC.Allows, PC.After;
  }

  /** The run that caches the reply under the name cut. */
  lemma {:induction false} CachingRun(from: string, first: string, name: string)
    requires Normalized(from, BUFFER_LEN) == Some(first) && Normalized(Shortened(from), BUFFER_LEN) == Some(name)
    ensures var s := Setup(POLICY, 1, 0);
      var r := Run(s, [Npt(from), Grant(1)]);
      && r.entries == [DC.Entry(true, name, 0, YES)] && r.senders == [from]
      && r.cooldown == PC.After(Init(s).cooldown, first, PC.Npt, 0)
      && r.log == [Asked(1, from), Handed(0, Shortened(from), [])]
  {
    var s := Setup(POLICY, 1, 0);
    FirstWaits(s, from);
    GrantCaches(s, Step(Init(s), Npt(from)), from, name);
    RunTwo(s, Npt(from), Grant(1));
    hide Run, Step, Shortened, Normalized, PC.After, Init;
  }

  /**
   A sender whose name is cut to that of another: what the policy service authorized for the one is handed on to the
   other, about whom it was never asked.
   */
  lemma {:induction false} CachedForAnother(from: string, other: string)
    requires Normalized(from, BUFFER_LEN).Some? && !OnlyDotsCut(from) && SameCanonical(Shortened(from), other)
    ensures var d := Run(Setup(POLICY, 1, 0), [Npt(from), Grant(1)]);
      && Handed(1, other, []) in New(d, Npt(other))
      && !SameCanonical(from, other)
      && forall y :: y in d.log && y.Asked? ==> y.client == from
  {
    var r := Run(Setup(POLICY, 1, 0), [Npt(from), Grant(1)]);
    var first, name := Normalized(from, BUFFER_LEN).value, Normalized(other, BUFFER_LEN).value;
    CachingRun(from, first, name);
    SlotNamesTheSender(from);
    OtherAllowed(Setup(POLICY, 1, 0), first, name);
    hide Run, Step, Shortened, Normalized, OnlyDotsCut, PC.Allows, PC.After, Init;
    CachedHands(r, other, name);
    StepAdds(r, Npt(other));
  }

  lemma {:induction false} KeptOfSum(s: string, t: string)
    ensures Kept(s + t) == Kept(s) + Kept(t)
  {
    KeptOfSplit(s + t, |s|);
    hide Kept;
    assert (s + t)[..|s|] == s && (s + t)[|s|..] == t;
  }

  lemma {:induction false} KeptOfLetter(c: char)
    requires 'a' <= c <= 'z'
    ensures Kept([c]) == [c]
  {}

  lemma {:induction false} DotsAreDropped(dots: string)
    requires forall i :: 0 <= i < |dots| ==> dots[i] == '.'
    ensures Kept("a") == "a" && Kept("a" + dots) == "a" && Kept("a" + dots + "b") == "ab"
  {
    OnlyDots(dots);
    KeptOfLetter('a');
    KeptOfLetter('b');
    KeptOfSum("a", dots);
    KeptOfSum("a" + dots, "b");
    hide Kept;
    assert "a" + [] == "a" && "a" + "b" == "ab";
  }

  lemma {:induction false} NormalizedOf(body: string)
    requires forall c :: c in body ==> 'a' <= c <= 'z' || c == '.'
    ensures 1 <= |Kept(body)| <= 55 ==> Normalized("@" + body, BUFFER_LEN) == Some("@" + Kept(body))
  {
    forall c | c in body ensures !Forbidden(c) {
      LettersAndDotsAreFine(c);
    }
    assert Body("@" + body) == body;
    hide Forbidden, Body, Kept;
    NormalizedIs("@" + body, BUFFER_LEN);
  }

  /** Such a pair of senders, and what comes of it. */
  lemma {:induction false} CutToAnother(dots: string, from: string)
    requires |dots| == 61 && (forall i :: 0 <= i < 61 ==> dots[i] == '.') && from == "@" + ("a" + dots + "b")
    ensures Normalized(from, BUFFER_LEN) == Some("@ab") && Normalized("@a", BUFFER_LEN) == Some("@a")
    ensures var d := Run(Setup(POLICY, 1, 0), [Npt(from), Grant(1)]);
      && Handed(1, "@a", []) in New(d, Npt("@a"))
      && forall y :: y in d.log && y.Asked? ==> y.client == from
  {
    assert from[63] == 'b' && from[..63] == "@" + ("a" + dots);
    assert Shortened(from) == from[..63] && !OnlyDotsCut(from);
    assert "@" + "a" == "@a" && "@" + "ab" == "@ab";
    DotsAreDropped(dots);
    hide Kept, Normalized, Shortened, OnlyDotsCut, Run, New;
    NormalizedOf("a" + dots + "b");
    NormalizedOf("a" + dots);
    NormalizedOf("a");
    CachedForAnother(from, "@a");
  }
}
