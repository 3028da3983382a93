/**
 What each event makes the ESP32 daemon do, told by what it has cached and what is in its slot; and over whole runs, who
 is sent a heartbeat or a refusal.
 */
module PolicyEffects {
  import opened Wrappers
  import opened AtSign
  import opened PolicySlot
  import opened PolicySlotRuns
  import DC = PolicyCache
  import PC = PolicyCooldown

  /** The decision about name that is cached and still fresh. */
  predicate Fresh(d: Daemon, i: nat, name: string, now: int) {
    && i < |d.entries| && d.entries[i].used && d.entries[i].atSign == name
    && now - d.entries[i].checkedAt < DC.TTL_MS
  }

  predicate NoneFresh(d: Daemon, name: string, now: int) {
    forall i :: 0 <= i < |d.entries| ==> !Fresh(d, i, name, now)
  }

  /** A request that isn't held up, from a sender with this canonical name. */
  predicate LetThrough(d: Daemon, ev: Event, name: string) {
    && (ev.PingRequest? || ev.NptRequest?)
    && Normalized(ev.from, BUFFER_LEN) == Some(name)
    && PC.Allows(d.cooldown, name, if ev.PingRequest? then PC.Ping else PC.Npt, ev.rateAt)
    && (ev.NptRequest? ==> ev.parsed && ev.valid)
  }

  lemma {:induction false} CachedIsFresh(d: Daemon, from: string, now: int, name: string, i: nat)
    requires CacheOk(d) && Normalized(from, BUFFER_LEN) == Some(name)
    ensures Fresh(d, i, name, now) ==> Cached(d, from, now, true) == Some(d.entries[i].decision)
    ensures NoneFresh(d, name, now) ==> Cached(d, from, now, true) == None
    ensures Cached(d, from, now, false) == None
  {
    var k := DC.FindName(d.entries, name);
    hide Normalized, DC.HoldsLatest;
    assert k < |d.entries| ==> (Fresh(d, k, name, now) <==> now - d.entries[k].checkedAt < DC.TTL_MS);
  }

  // ---- Requests ----

  lemma {:induction false} PingIs(d: Daemon, ev: Event, name: string)
    requires ev.PingRequest? && LetThrough(d, ev, name)
    ensures var c := Cached(d, ev.from, ev.lookupAt, ev.copied);
      Step(d, ev).log == d.log +
        (if c.Some? then (if c.value.authorized then [Heartbeat(ev.from)] else [])
         else if d.slot.inUse || !ev.sent then [] else [Asked(NextId(d.counter), ev.from)])
  {
    hide Normalized, PC.Allows, PC.After, NextId, Shortened, DC.Found;
  }

  lemma {:induction false} NptIs(d: Daemon, ev: Event, name: string)
    requires ev.NptRequest? && LetThrough(d, ev, name) && SlotOk(d)
    ensures var c, e := Cached(d, ev.from, ev.lookupAt, ev.copied), |d.senders|;
      Step(d, ev).log == d.log +
        (if c.Some? then
           (if c.value.authorized then [Handed(e, ev.from, FirstRules(c.value.permitOpen))]
            else [Refused(ev.from), Deleted(e)])
         else if (d.slot.inUse && d.slot.kind.Npt?) || !ev.sent then [Deleted(e)]
         else [Asked(NextId(d.counter), ev.from)])
  {
    hide Normalized, PC.Allows, PC.After, NextId, Shortened, DC.Found, FirstRules;
  }

  /** A fresh cached decision, if it can be copied, decides a request at once. */
  lemma {:induction false} CachedDecides(d: Daemon, ev: Event, name: string, i: nat)
    requires Inv(d) && LetThrough(d, ev, name) && ev.copied && Fresh(d, i, name, ev.lookupAt)
    ensures var c, e := d.entries[i].decision, |d.senders|;
      New(d, ev) ==
        if ev.PingRequest? then (if c.authorized then [Heartbeat(ev.from)] else [])
        else if c.authorized then [Handed(e, ev.from, FirstRules(c.permitOpen))]
        else [Refused(ev.from), Deleted(e)]
  {
    CachedIsFresh(d, ev.from, ev.lookupAt, name, i);
    StepAdds(d, ev);
    hide Step, Cached, Fresh, New;
    if ev.PingRequest? {
      PingIs(d, ev, name);
    } else {
      NptIs(d, ev, name);
    }
  }

  /** Without one the policy service is asked about the sender, if the slot can be had and the request be sent. */
  lemma {:induction false} OtherwiseAsked(d: Daemon, ev: Event, name: string)
    requires Inv(d) && LetThrough(d, ev, name) && (NoneFresh(d, name, ev.lookupAt) || !ev.copied)
    ensures var e := |d.senders|;
      var taken := d.slot.inUse && (ev.PingRequest? || d.slot.kind.Npt?);
      New(d, ev) ==
        if !taken && ev.sent then [Asked(NextId(d.counter), ev.from)]
        else if ev.PingRequest? then [] else [Deleted(e)]
  {
    CachedIsFresh(d, ev.from, ev.lookupAt, name, 0);
    StepAdds(d, ev);
    hide Step, Cached, NoneFresh, New, NextId;
    if ev.PingRequest? {
      PingIs(d, ev, name);
    } else {
      NptIs(d, ev, name);
    }
  }

  /** What fills the slot is the request that was asked about, with its envelope. */
  lemma {:induction false} AskedIsInSlot(d: Daemon, ev: Event, name: string)
    requires Inv(d) && LetThrough(d, ev, name) && (NoneFresh(d, name, ev.lookupAt) || !ev.copied) && ev.sent
    requires !(d.slot.inUse && (ev.PingRequest? || d.slot.kind.Npt?))
    ensures Step(d, ev).slot ==
      Slot(true, if ev.PingRequest? then PC.Ping else PC.Npt, NextId(d.counter), ev.startAt, ev.startAt,
        Shortened(ev.from), if ev.PingRequest? then None else Some(|d.senders|))
  {
    CachedIsFresh(d, ev.from, ev.lookupAt, name, 0);
    hide Normalized, PC.Allows, PC.After, NextId, Shortened, DC.Found, NoneFresh, Inv;
  }

  /** A request that is held up, or doesn't parse, does nothing; one that isn't valid loses its envelope. */
  lemma {:induction false} OthersDoNothing(d: Daemon, ev: Event)
    requires ev.PingRequest? || ev.NptRequest?
    requires forall name :: !LetThrough(d, ev, name)
    ensures New(d, ev) == [] || (ev.NptRequest? && ev.parsed && !ev.valid && New(d, ev) == [Deleted(|d.senders|)])
    ensures Step(d, ev).slot == d.slot
  {
    StepAdds(d, ev);
    var name := Normalized(ev.from, BUFFER_LEN);
    assert name.Some? ==> !LetThrough(d, ev, name.value);
    hide Normalized, PC.Allows, PC.After, New;
  }

  // ---- The end of a check ----

  lemma {:induction false} NewIs(d: Daemon, ev: Event, xs: seq<Effect>)
    requires Step(d, ev).log == d.log + xs
    ensures New(d, ev) == xs
  {
    hide Step;
    assert (d.log + xs)[|d.log|..] == xs;
  }

  lemma {:induction false} DoneTwice(log: seq<Effect>, x: Effect, y: Effect)
    ensures log + [x] + [y] == log + [x, y] && log + [] == log
  {}

  /** What is done for the request in the slot once it is authorized, with these rules, or isn't. */
  function Verdict(d: Daemon, authorized: bool, rules: seq<string>): seq<Effect> {
    match d.slot.envelope
    case None => if authorized then [Heartbeat(d.slot.name)] else []
    case Some(e) => if authorized then [Handed(e, d.slot.name, rules)] else [Refused(d.slot.name), Deleted(e)]
  }

  /** A reply that is taken, and isn't an ack, decides the request and empties the slot; any other does nothing. */
  lemma {:induction false} ReplyDecides(d: Daemon, ev: Event)
    requires Inv(d) && ev.Response?
    ensures var rules := if Authorizes(ev.reply) then Rules(ev.reply.body.value.permitOpen) else [];
      New(d, ev) == if Answers(d, ev) && !ev.reply.Ack? then Verdict(d, Authorizes(ev.reply), rules) else []
    ensures Answers(d, ev) && !ev.reply.Ack? ==> Step(d, ev).slot == EMPTY
  {
    hide Normalized, DC.Stored, SamePlain, Rules, New, Accounted, CacheOk;
    var done := Answers(d, ev) && !ev.reply.Ack?;
    var rules := if Authorizes(ev.reply) then Rules(ev.reply.body.value.permitOpen) else [];
    if d.slot.envelope.Some? {
      DoneTwice(d.log, Refused(d.slot.name), Deleted(d.slot.envelope.value));
    }
    NewIs(d, ev, if done then Verdict(d, Authorizes(ev.reply), rules) else []);
  }

  /** A wait that is over is a refusal. */
  lemma {:induction false} TimeoutDecides(d: Daemon, ev: Event)
    requires Inv(d) && ev.Tick?
    ensures New(d, ev) ==
      if d.slot.inUse && WaitOver(d.slot.startedAt, d.slot.progressAt, ev.now) then Verdict(d, false, []) else []
  {
    hide Normalized, DC.Stored, New, Accounted, CacheOk;
    var over := d.slot.inUse && WaitOver(d.slot.startedAt, d.slot.progressAt, ev.now);
    if d.slot.envelope.Some? {
      DoneTwice(d.log, Refused(d.slot.name), Deleted(d.slot.envelope.value));
    }
    NewIs(d, ev, if over then Verdict(d, false, []) else []);
  }

  /** A request sent again bears a new id and is about the name in the slot; one that can't be sent is given up. */
  lemma {:induction false} ResendDoes(d: Daemon, ev: Event)
    requires Inv(d) && ev.DecryptFailure?
    ensures New(d, ev) ==
      if !d.slot.inUse || ev.sender == None || !SameCanonical(ev.sender.value, d.policy) then []
      else if ev.sent then [Asked(NextId(d.counter), d.slot.name)]
      else if d.slot.envelope.Some? then [Deleted(d.slot.envelope.value)] else []
  {
    hide Normalized, NextId, New, Accounted, CacheOk;
    NewIs(d, ev,
      if !d.slot.inUse || ev.sender == None || !SameCanonical(ev.sender.value, d.policy) then []
      else if ev.sent then [Asked(NextId(d.counter), d.slot.name)]
      else if d.slot.envelope.Some? then [Deleted(d.slot.envelope.value)] else []);
  }

  /** What the end of a check leaves in the cache's history: the reply's decision, or none when it comes too late. */
  lemma {:induction false} EndIsRecorded(d: Daemon, ev: Event, name: string)
    requires d.slot.inUse && Normalized(d.slot.name, BUFFER_LEN) == Some(name)
    ensures Answers(d, ev) && !ev.reply.Ack? && !Authorizes(ev.reply) ==>
      exists p :: Step(d, ev).checks == d.checks + [DC.Check(name, DC.Decision(false, p), ev.now)]
    ensures Answers(d, ev) && Authorizes(ev.reply) ==>
      Step(d, ev).checks ==
        d.checks + [DC.Check(name, DC.Decision(true, Rules(ev.reply.body.value.permitOpen)), ev.now)]
    ensures ev.Tick? && WaitOver(d.slot.startedAt, d.slot.progressAt, ev.now) ==>
      Step(d, ev).checks == d.checks + [DC.Check(name, DC.Decision(false, []), ev.storeAt)]
  {
    hide Normalized, DC.Stored, SamePlain, Rules;
    assert Answers(d, ev) && !ev.reply.Ack? ==>
      Step(d, ev).checks == d.checks + [DC.Check(name, DecisionOf(ev.reply), ev.now)];
  }

  // ---- Over whole runs ----

  /** A ping is in the slot, and the reply to it says that it is authorized. */
  predicate PingGrantedNow(d: Daemon, ev: Event, x: Effect)
    requires x.Heartbeat?
  {
    && Answers(d, ev) && Authorizes(ev.reply)
    && d.slot.reqId == d.counter != 0 && d.slot.kind.Ping? && x.to == d.slot.name
  }

  /** The latest decision about the sender of a request is fresh; and whether it is authorized. */
  predicate DecidedBefore(d: Daemon, ev: Event, authorized: bool) {
    && (ev.PingRequest? || ev.NptRequest?)
    && Normalized(ev.from, BUFFER_LEN).Some?
    && var latest := DC.Latest(d.checks, Normalized(ev.from, BUFFER_LEN).value);
    && latest.Some? && latest.value.decision.authorized == authorized
    && ev.lookupAt - latest.value.time < DC.TTL_MS
  }

  /** The check of the envelope in the slot has ended without being authorized. */
  predicate DeniedNow(d: Daemon, ev: Event, x: Effect)
    requires x.Refused?
  {
    && d.slot.inUse && d.slot.envelope.Some? && d.slot.envelope.value < |d.senders|
    && x.to == d.slot.name == Shortened(d.senders[d.slot.envelope.value])
    && (|| (Answers(d, ev) && !ev.reply.Ack? && !Authorizes(ev.reply))
        || (ev.Tick? && WaitOver(d.slot.startedAt, d.slot.progressAt, ev.now)))
  }

  lemma {:induction false} RequestEffect(d: Daemon, ev: Event, x: Effect)
    requires Inv(d) && (ev.PingRequest? || ev.NptRequest?) && x in New(d, ev) && (x.Heartbeat? || x.Refused?)
    ensures x.to == ev.from && ev.PingRequest? == x.Heartbeat? && DecidedBefore(d, ev, x.Heartbeat?)
  {
    StepAdds(d, ev);
    assert exists name :: LetThrough(d, ev, name) by {
      if forall name :: !LetThrough(d, ev, name) {
        OthersDoNothing(d, ev);
      }
    }
    var name :| LetThrough(d, ev, name);
    hide Step, Cached, New, NextId, Accounted;
    if ev.PingRequest? {
      PingIs(d, ev, name);
    } else {
      NptIs(d, ev, name);
    }
    CachedIsLatest(d, ev.from, ev.lookupAt, ev.copied);
  }

  /**
   Over every run: a heartbeat is sent only for an authorized reply, from the policy service, that bears the current
   nonzero id of the ping in the slot, or for a ping whose sender's latest decision is fresh and authorized.
   */
  lemma {:induction false} HeartbeatOnlyWhenGranted(s: Setup, events: seq<Event>, ev: Event, x: Effect)
    requires x in New(Run(s, events), ev) && x.Heartbeat?
    ensures var d := Run(s, events);
      PingGrantedNow(d, ev, x) || (ev.PingRequest? && x.to == ev.from && DecidedBefore(d, ev, true))
  {
    var d := Run(s, events);
    RunKeepsInv(s, events);
    hide Run, New, Step, Answers, Authorizes, Rules;
    match ev
    case PingRequest(_, _, _, _, _, _) => RequestEffect(d, ev, x);
    case NptRequest(_, _, _, _, _, _, _, _) => RequestEffect(d, ev, x);
    case Response(_, _, _, _, _) => ReplyDecides(d, ev); HeldIsAnswered(d, ev);
    case DecryptFailure(_, _, _) => ResendDoes(d, ev);
    case Tick(_, _, _) => TimeoutDecides(d, ev);
  }

  lemma {:induction false} HeldIsAnswered(d: Daemon, ev: Event)
    requires Inv(d) && Answers(d, ev)
    ensures d.slot.inUse && d.slot.reqId == d.counter != 0 && (d.slot.kind.Ping? <==> d.slot.envelope == None)
    ensures d.slot.envelope.Some? ==>
      d.slot.envelope.value < |d.senders| && d.slot.name == Shortened(d.senders[d.slot.envelope.value])
  {}

  /** Over every run: a refusal is sent only for a check that ended unauthorized, or for a fresh denial. */
  lemma {:induction false} RefusedOnlyWhenDenied(s: Setup, events: seq<Event>, ev: Event, x: Effect)
    requires x in New(Run(s, events), ev) && x.Refused?
    ensures var d := Run(s, events);
      DeniedNow(d, ev, x) || (ev.NptRequest? && x.to == ev.from && DecidedBefore(d, ev, false))
  {
    var d := Run(s, events);
    RunKeepsInv(s, events);
    hide Run, New, Step, Authorizes, Rules, Shortened, SamePlain, Accounted, CacheOk;
    match ev
    case PingRequest(_, _, _, _, _, _) => RequestEffect(d, ev, x);
    case NptRequest(_, _, _, _, _, _, _, _) => RequestEffect(d, ev, x);
    case Response(_, _, _, _, _) => ReplyDecides(d, ev);
    case DecryptFailure(_, _, _) => ResendDoes(d, ev);
    case Tick(_, _, _) => TimeoutDecides(d, ev);
  }
}
