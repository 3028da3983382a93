/**
 The ESP32's policy checks in flight: one slot, filled by a ping or an NPT request, and emptied by the
 policy service's reply, by a wait that is over, or by a send that fails.

 The envelope of an NPT request is owned by whoever must free it; envelopes are numbered as they are
 parsed. Whether an envelope parses and its signature holds, whether a decision can be copied and whether
 a message can be sent are given with each event, as are the clock's readings.
 */
module PolicySlot {
  import opened Wrappers
  import opened AtSign
  import DC = PolicyCache
  import PC = PolicyCooldown

  const WAIT_MS: nat := 10000
  const WAIT_CAP_MS: nat := 30000
  const NAME_MAX: nat := 63
  const MAX_RULES: nat := 16
  const RULE_MAX: nat := 63
  const IDS: nat := 0x1_0000_0000

  datatype Slot = Slot(
    inUse: bool,
    kind: PC.Kind,
    reqId: nat,
    startedAt: int,
    progressAt: int,
    name: string,
    envelope: Option<nat>)

  type Table = s: seq<PC.Slot> | s != [] witness [PC.FREE]

  const EMPTY := Slot(false, PC.Ping, 0, 0, 0, "", None)

  /** What the daemon does that others see, or to an envelope. */
  datatype Effect =
    | Asked(reqId: nat, client: string)
    | Heartbeat(to: string)
    | Refused(to: string)
    | Deleted(envelope: nat)
    | Handed(envelope: nat, to: string, rules: seq<string>)

  /**
   asker is whose request was put in the slot last, senders has the sender of each envelope parsed so far,
   checks the decisions to be cached so far, and log what was done so far.
   */
  datatype Daemon = Daemon(
    policy: string,
    slot: Slot,
    counter: nat,
    entries: seq<DC.Entry>,
    cooldown: Table,
    asker: string,
    senders: seq<string>,
    checks: seq<DC.Check>,
    log: seq<Effect>)

  datatype Reply = Ack | Success(body: Option<DC.Decision>) | Failure

  datatype Event =
    | PingRequest(from: string, rateAt: int, lookupAt: int, startAt: int, copied: bool, sent: bool)
    | NptRequest(
        from: string,
        rateAt: int,
        parsed: bool,
        valid: bool,
        lookupAt: int,
        startAt: int,
        copied: bool,
        sent: bool)
    | Response(from: string, reqId: Option<nat>, reply: Reply, now: int, copied: bool)
    | DecryptFailure(sender: Option<string>, now: int, sent: bool)
    | Tick(now: int, storeAt: int, copied: bool)

  // ---- The pieces of a step ----

  /** The next request id: the counter wraps at 32 bits and skips 0. */
  function NextId(counter: nat): (id: nat)
    ensures 1 <= id < IDS
  {
    if (counter + 1) % IDS == 0 then 1 else (counter + 1) % IDS
  }

  function Shortened(name: string): (r: string)
    ensures |r| <= NAME_MAX
  {
    if |name| <= NAME_MAX then name else name[..NAME_MAX]
  }

  predicate SameCanonical(a: string, b: string) {
    Normalized(a, BUFFER_LEN).Some? && Normalized(a, BUFFER_LEN) == Normalized(b, BUFFER_LEN)
  }

  predicate WaitOver(startedAt: int, progressAt: int, now: int) {
    now - progressAt > WAIT_MS || now - startedAt > WAIT_CAP_MS
  }

  /** The first rules that fit their buffers; a rule too long is left out whole, never cut. */
  function Rules(rules: seq<string>): (r: seq<string>)
    ensures |r| <= MAX_RULES
  {
    if rules == [] then []
    else
      var r, last := Rules(rules[..|rules| - 1]), rules[|rules| - 1];
      if |last| <= RULE_MAX && |r| < MAX_RULES then r + [last] else r
  }

  /** Every rule kept is one of those sent, whole, and fits its buffer. */
  lemma {:induction false} RulesAreNeverCut(rules: seq<string>)
    ensures forall rule :: rule in Rules(rules) ==> rule in rules && |rule| <= RULE_MAX
    decreases |rules|
  {
    if rules != [] {
      RulesAreNeverCut(rules[..|rules| - 1]);
    }
  }

  predicate AllFit(rules: seq<string>) {
    |rules| <= MAX_RULES && forall i :: 0 <= i < |rules| ==> |rules[i]| <= RULE_MAX
  }

  /** One rule more: it is kept if it fits and there is room for it. */
  lemma {:induction false} RulesStep(rules: seq<string>, rule: string)
    ensures Rules(rules + [rule]) ==
      if |rule| <= RULE_MAX && |Rules(rules)| < MAX_RULES then Rules(rules) + [rule] else Rules(rules)
  {}

  /** Rules that fit are all kept, in order. */
  lemma {:induction false} RulesThatFitAreKept(rules: seq<string>)
    requires AllFit(rules)
    ensures Rules(rules) == rules
    decreases |rules|
  {
    if rules != [] {
      var init, last := rules[..|rules| - 1], rules[|rules| - 1];
      LastFits(rules);
      RulesThatFitAreKept(init);
      RulesStep(init, last);
      hide Rules, AllFit;
      assert init + [last] == rules;
    }
  }

  lemma {:induction false} LastFits(rules: seq<string>)
    requires AllFit(rules) && rules != []
    ensures AllFit(rules[..|rules| - 1]) && |rules| <= MAX_RULES && |rules[|rules| - 1]| <= RULE_MAX
  {}

  /** As many of a cached decision's rules as are handed on. */
  function FirstRules(rules: seq<string>): seq<string> {
    if |rules| <= MAX_RULES then rules else rules[..MAX_RULES]
  }

  function Do(d: Daemon, e: Effect): Daemon
  {
    d.(log := d.log + [e])
  }

  function Cleanup(d: Daemon): Daemon
  {
    (if d.slot.envelope.Some? then Do(d, Deleted(d.slot.envelope.value)) else d).(slot := EMPTY)
  }

  function Send(d: Daemon, client: string, sent: bool): Daemon
  {
    if sent then Do(d, Asked(d.slot.reqId, client)) else Cleanup(d)
  }

  /** Fills the slot. */
  function Occupy(d: Daemon, kind: PC.Kind, from: string, now: int, envelope: Option<nat>): Daemon
  {
    var id := NextId(d.counter);
    d.(slot := Slot(true, kind, id, now, now, Shortened(from), envelope), counter := id, asker := from)
  }

  /** Caches a decision for the sender the slot names. */
  function Remember(d: Daemon, decision: DC.Decision, now: int, copied: bool): Daemon
  {
    match Normalized(d.slot.name, BUFFER_LEN)
    case None => d
    case Some(name) =>
      var c := DC.Check(name, decision, now);
      d.(entries := DC.Stored(d.entries, c, copied), checks := d.checks + [c])
  }

  /** Throttles a request. */
  function Throttled(d: Daemon, from: string, kind: PC.Kind, now: int): (Daemon, bool)
  {
    match Normalized(from, BUFFER_LEN)
    case None => (d, true)
    case Some(name) =>
      (d.(cooldown := PC.After(d.cooldown, name, kind, now)), !PC.Allows(d.cooldown, name, kind, now))
  }

  function Cached(d: Daemon, from: string, now: int, copied: bool): Option<DC.Decision> {
    match Normalized(from, BUFFER_LEN)
    case None => None
    case Some(name) => DC.Found(d.entries, name, now, copied)
  }

  // ---- The steps ----

  function OnPing(d: Daemon, ev: Event): Daemon
    requires ev.PingRequest?
  {
    var (d1, limited) := Throttled(d, ev.from, PC.Ping, ev.rateAt);
    if limited then d1
    else
      match Cached(d1, ev.from, ev.lookupAt, ev.copied)
      case Some(c) => if c.authorized then Do(d1, Heartbeat(ev.from)) else d1
      case None =>
        if d1.slot.inUse then d1
        else Send(Occupy(d1, PC.Ping, ev.from, ev.startAt, None), ev.from, ev.sent)
  }

  /** An NPT request once its envelope, of number e, is verified. */
  function OnEnvelope(d: Daemon, ev: Event, e: nat): Daemon
    requires ev.NptRequest?
  {
    match Cached(d, ev.from, ev.lookupAt, ev.copied)
    case Some(c) =>
      if c.authorized then Do(d, Handed(e, ev.from, FirstRules(c.permitOpen)))
      else Do(Do(d, Refused(ev.from)), Deleted(e))
    case None =>
      if d.slot.inUse && d.slot.kind.Npt? then Do(d, Deleted(e))
      else
        var d1 := if d.slot.inUse then Cleanup(d) else d;
        Send(Occupy(d1, PC.Npt, ev.from, ev.startAt, Some(e)), ev.from, ev.sent)
  }

  function OnNpt(d: Daemon, ev: Event): Daemon
    requires ev.NptRequest?
  {
    var (d1, limited) := Throttled(d, ev.from, PC.Npt, ev.rateAt);
    if limited || !ev.parsed then d1
    else
      var e, d2 := |d1.senders|, d1.(senders := d1.senders + [ev.from]);
      if !ev.valid then Do(d2, Deleted(e)) else OnEnvelope(d2, ev, e)
  }

  /** A reply from the policy service to the request in flight. */
  predicate Answers(d: Daemon, ev: Event) {
    && ev.Response?
    && SamePlain(ev.from, d.policy)
    && d.slot.inUse
    && ev.reqId == Some(d.slot.reqId)
  }

  function DecisionOf(reply: Reply): DC.Decision {
    if reply.Success? && reply.body.Some?
    then reply.body.value.(permitOpen := Rules(reply.body.value.permitOpen))
    else DC.NO_DECISION
  }

  function OnDenied(d: Daemon): Daemon
  {
    Cleanup(if d.slot.envelope.Some? then Do(d, Refused(d.slot.name)) else d)
  }

  function OnResponse(d: Daemon, ev: Event): Daemon
    requires ev.Response?
  {
    if !Answers(d, ev) then d
    else if ev.reply.Ack? then d.(slot := d.slot.(progressAt := ev.now))
    else
      var decision := DecisionOf(ev.reply);
      var d1 := Remember(d, decision, ev.now, ev.copied);
      if !decision.authorized then OnDenied(d1)
      else
        match d.slot.envelope
        case None => Cleanup(Do(d1, Heartbeat(d.slot.name)))
        case Some(e) => Do(d1.(slot := EMPTY), Handed(e, d.slot.name, decision.permitOpen))
  }

  function OnDecryptFailure(d: Daemon, ev: Event): Daemon
    requires ev.DecryptFailure?
  {
    if !d.slot.inUse || ev.sender == None || !SameCanonical(ev.sender.value, d.policy) then d
    else
      var id := NextId(d.counter);
      Send(d.(slot := d.slot.(reqId := id, progressAt := ev.now), counter := id), d.slot.name, ev.sent)
  }

  function OnTick(d: Daemon, ev: Event): Daemon
    requires ev.Tick?
  {
    if d.slot.inUse && WaitOver(d.slot.startedAt, d.slot.progressAt, ev.now)
    then OnDenied(Remember(d, DC.NO_DECISION, ev.storeAt, ev.copied))
    else d
  }

  function Step(d: Daemon, ev: Event): Daemon
  {
    match ev
    case PingRequest(_, _, _, _, _, _) => OnPing(d, ev)
    case NptRequest(_, _, _, _, _, _, _, _) => OnNpt(d, ev)
    case Response(_, _, _, _, _) => OnResponse(d, ev)
    case DecryptFailure(_, _, _) => OnDecryptFailure(d, ev)
    case Tick(_, _, _) => OnTick(d, ev)
  }

  // ---- Where the envelopes are ----

  /** Whether x takes envelope e from the daemon. */
  predicate EndsEnvelope(x: Effect, e: nat) {
    (x.Deleted? || x.Handed?) && x.envelope == e
  }

  function Ends(log: seq<Effect>, e: nat): nat {
    if log == [] then 0
    else
      var last := log[|log| - 1];
      Ends(log[..|log| - 1], e) + if EndsEnvelope(last, e) then 1 else 0
  }

  /** How many places have envelope e: the slot, and each time it was deleted or handed on. */
  function Places(d: Daemon, e: nat): nat {
    Ends(d.log, e) + if d.slot.envelope == Some(e) then 1 else 0
  }

  ghost predicate Accounted(d: Daemon) {
    forall e: nat :: Places(d, e) == if e < |d.senders| then 1 else 0
  }

  predicate SlotOk(d: Daemon) {
    && d.counter < IDS
    && (!d.slot.inUse ==> d.slot == EMPTY)
    && (d.slot.inUse ==> d.slot.reqId == d.counter && d.slot.reqId != 0)
    && (d.slot.inUse ==> (d.slot.kind.Npt? <==> d.slot.envelope.Some?))
    && (d.slot.envelope.Some? ==>
          d.slot.envelope.value < |d.senders| && d.slot.name == Shortened(d.senders[d.slot.envelope.value]))
  }

  predicate CacheOk(d: Daemon) {
    DC.Distinct(d.entries) && DC.HoldsLatest(d.entries, d.checks)
  }

  ghost predicate Inv(d: Daemon) {
    SlotOk(d) && CacheOk(d) && Accounted(d)
  }

  lemma {:induction false} DoPlaces(d: Daemon, x: Effect)
    ensures forall e: nat :: Places(Do(d, x), e) == Places(d, e) + if EndsEnvelope(x, e) then 1 else 0
  {}

  lemma {:induction false} CleanupKeepsPlaces(d: Daemon)
    ensures forall e: nat :: Places(Cleanup(d), e) == Places(d, e)
  {}

  lemma {:induction false} SendKeepsPlaces(d: Daemon, client: string, sent: bool)
    ensures forall e: nat :: Places(Send(d, client, sent), e) == Places(d, e)
  {}

  lemma {:induction false} DeniedKeepsPlaces(d: Daemon)
    ensures forall e: nat :: Places(OnDenied(d), e) == Places(d, e)
  {
    if d.slot.envelope.Some? {
      DoPlaces(d, Refused(d.slot.name));
      CleanupKeepsPlaces(Do(d, Refused(d.slot.name)));
    } else {
      CleanupKeepsPlaces(d);
    }
  }

  lemma {:induction false} RememberKeeps(d: Daemon, decision: DC.Decision, now: int, copied: bool)
    requires CacheOk(d)
    ensures CacheOk(Remember(d, decision, now, copied))
    ensures forall e: nat :: Places(Remember(d, decision, now, copied), e) == Places(d, e)
  {}

  lemma {:induction false} PingKeepsInv(d: Daemon, ev: Event)
    requires Inv(d) && ev.PingRequest?
    ensures Inv(OnPing(d, ev))
  {
    hide DC.Found, DC.Distinct, DC.HoldsLatest, PC.After, PC.Allows, Normalized;
    var (d1, limited) := Throttled(d, ev.from, PC.Ping, ev.rateAt);
    assert forall e: nat :: Places(d1, e) == Places(d, e);
    if !limited {
      DoPlaces(d1, Heartbeat(ev.from));
      assert forall e: nat :: Places(Do(d1, Heartbeat(ev.from)), e) == Places(d1, e);
      if Cached(d1, ev.from, ev.lookupAt, ev.copied).None? && !d1.slot.inUse {
        var d2 := Occupy(d1, PC.Ping, ev.from, ev.startAt, None);
        assert forall e: nat :: Places(d2, e) == Places(d1, e);
        SendKeepsPlaces(d2, ev.from, ev.sent);
      }
    }
  }

  /** A daemon whose newest envelope isn't anywhere yet. */
  ghost predicate AccountedBut(d: Daemon, e: nat) {
    && e == |d.senders| - 1
    && forall k: nat :: Places(d, k) == if k < e then 1 else 0
  }

  predicate ReadyFor(d: Daemon, from: string, e: nat) {
    SlotOk(d) && CacheOk(d) && e == |d.senders| - 1 && d.senders[e] == from
  }

  lemma {:induction false} CachedEnvelopeKeepsInv(d: Daemon, from: string, e: nat, rules: seq<string>)
    requires ReadyFor(d, from, e) && AccountedBut(d, e)
    ensures Inv(Do(d, Handed(e, from, rules)))
    ensures Inv(Do(Do(d, Refused(from)), Deleted(e)))
    ensures Inv(Do(d, Deleted(e)))
  {
    hide DC.Distinct, DC.HoldsLatest;
    DoPlaces(d, Handed(e, from, rules));
    DoPlaces(d, Refused(from));
    DoPlaces(Do(d, Refused(from)), Deleted(e));
    DoPlaces(d, Deleted(e));
  }

  lemma {:induction false} QueuedEnvelopeKeepsInv(d: Daemon, ev: Event, e: nat)
    requires ev.NptRequest? && ReadyFor(d, ev.from, e) && AccountedBut(d, e) && !(d.slot.inUse && d.slot.kind.Npt?)
    ensures var d1 := if d.slot.inUse then Cleanup(d) else d;
      Inv(Send(Occupy(d1, PC.Npt, ev.from, ev.startAt, Some(e)), ev.from, ev.sent))
  {
    hide DC.Distinct, DC.HoldsLatest, Shortened;
    CleanupKeepsPlaces(d);
    var d1 := if d.slot.inUse then Cleanup(d) else d;
    var d2 := Occupy(d1, PC.Npt, ev.from, ev.startAt, Some(e));
    assert forall k: nat :: Places(d2, k) == Places(d1, k) + if k == e then 1 else 0;
    SendKeepsPlaces(d2, ev.from, ev.sent);
  }

  lemma {:induction false} EnvelopeKeepsInv(d: Daemon, ev: Event, e: nat)
    requires ev.NptRequest? && ReadyFor(d, ev.from, e) && AccountedBut(d, e)
    ensures Inv(OnEnvelope(d, ev, e))
  {
    hide Inv, Cached, Send, Occupy, Cleanup;
    var c := Cached(d, ev.from, ev.lookupAt, ev.copied);
    CachedEnvelopeKeepsInv(d, ev.from, e, if c.Some? then FirstRules(c.value.permitOpen) else []);
    if !(d.slot.inUse && d.slot.kind.Npt?) {
      QueuedEnvelopeKeepsInv(d, ev, e);
    }
  }

  lemma {:induction false} NptKeepsInv(d: Daemon, ev: Event)
    requires Inv(d) && ev.NptRequest?
    ensures Inv(OnNpt(d, ev))
  {
    hide DC.Distinct, DC.HoldsLatest, PC.After, PC.Allows, Normalized, OnEnvelope;
    var (d1, limited) := Throttled(d, ev.from, PC.Npt, ev.rateAt);
    assert forall e: nat :: Places(d1, e) == Places(d, e);
    if !limited && ev.parsed {
      var e, d2 := |d1.senders|, d1.(senders := d1.senders + [ev.from]);
      assert forall k: nat :: Places(d2, k) == Places(d1, k);
      DoPlaces(d2, Deleted(e));
      if ev.valid {
        EnvelopeKeepsInv(d2, ev, e);
      }
    }
  }

  lemma {:induction false} RememberOnlyCaches(d: Daemon, decision: DC.Decision, now: int, copied: bool)
    ensures var r := Remember(d, decision, now, copied); r == d.(entries := r.entries, checks := r.checks)
  {}

  lemma {:induction false} DeniedKeepsInv(d: Daemon)
    requires Inv(d)
    ensures Inv(OnDenied(d))
  {
    hide DC.Distinct, DC.HoldsLatest, Shortened;
    DeniedKeepsPlaces(d);
  }

  /** The envelope in the slot, or else the ping, once it is authorized. */
  lemma {:induction false} AuthorizedKeepsInv(d: Daemon, rules: seq<string>)
    requires Inv(d)
    ensures match d.slot.envelope
            case None => Inv(Cleanup(Do(d, Heartbeat(d.slot.name))))
            case Some(e) => Inv(Do(d.(slot := EMPTY), Handed(e, d.slot.name, rules)))
  {
    hide DC.Distinct, DC.HoldsLatest, Shortened;
    match d.slot.envelope
    case None =>
      DoPlaces(d, Heartbeat(d.slot.name));
      CleanupKeepsPlaces(Do(d, Heartbeat(d.slot.name)));
    case Some(e) =>
      DoPlaces(d.(slot := EMPTY), Handed(e, d.slot.name, rules));
      assert forall k: nat :: Places(d.(slot := EMPTY), k) == Places(d, k) - if k == e then 1 else 0;
  }

  lemma {:induction false} ResponseKeepsInv(d: Daemon, ev: Event)
    requires Inv(d) && ev.Response?
    ensures Inv(OnResponse(d, ev))
  {
    hide DC.Distinct, DC.HoldsLatest, Normalized, Rules, SamePlain, Shortened;
    if Answers(d, ev) && !ev.reply.Ack? {
      hide Ends, Remember, OnDenied;
      var decision := DecisionOf(ev.reply);
      RememberKeeps(d, decision, ev.now, ev.copied);
      var d1 := Remember(d, decision, ev.now, ev.copied);
      RememberOnlyCaches(d, decision, ev.now, ev.copied);
      if !decision.authorized {
        DeniedKeepsInv(d1);
      } else {
        AuthorizedKeepsInv(d1, decision.permitOpen);
      }
    } else {
      assert forall e: nat :: Places(OnResponse(d, ev), e) == Places(d, e);
    }
  }

  lemma {:induction false} DecryptFailureKeepsInv(d: Daemon, ev: Event)
    requires Inv(d) && ev.DecryptFailure?
    ensures Inv(OnDecryptFailure(d, ev))
  {
    hide DC.Distinct, DC.HoldsLatest, Normalized;
    var id := NextId(d.counter);
    var d1 := d.(slot := d.slot.(reqId := id, progressAt := ev.now), counter := id);
    assert forall e: nat :: Places(d1, e) == Places(d, e);
    SendKeepsPlaces(d1, d.slot.name, ev.sent);
  }

  lemma {:induction false} TickKeepsInv(d: Daemon, ev: Event)
    requires Inv(d) && ev.Tick?
    ensures Inv(OnTick(d, ev))
  {
    hide DC.Distinct, DC.HoldsLatest, Normalized;
    RememberKeeps(d, DC.NO_DECISION, ev.storeAt, ev.copied);
    DeniedKeepsPlaces(Remember(d, DC.NO_DECISION, ev.storeAt, ev.copied));
  }

  lemma {:induction false} StepKeepsInv(d: Daemon, ev: Event)
    requires Inv(d)
    ensures Inv(Step(d, ev))
  {
    hide Inv, OnPing, OnNpt, OnResponse, OnDecryptFailure, OnTick;
    match ev
    case PingRequest(_, _, _, _, _, _) => PingKeepsInv(d, ev);
    case NptRequest(_, _, _, _, _, _, _, _) => NptKeepsInv(d, ev);
    case Response(_, _, _, _, _) => ResponseKeepsInv(d, ev);
    case DecryptFailure(_, _, _) => DecryptFailureKeepsInv(d, ev);
    case Tick(_, _, _) => TickKeepsInv(d, ev);
  }
}
