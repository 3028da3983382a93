/** The ESP32 daemon's own fields and methods for its policy checks, each of which does a step of the model. */
module PolicyClient {
  import opened Wrappers
  import opened AtSign
  import opened PolicySlot
  import opened PolicySlotRuns
  import DC = PolicyCache
  import PC = PolicyCooldown

  class Client {
    const policy: string
    const cache: DC.Cache
    const throttle: PC.Cooldown
    var slot: Slot
    var counter: nat
    ghost var asker: string
    ghost var senders: seq<string>
    ghost var checks: seq<DC.Check>
    ghost var log: seq<Effect>

    ghost predicate Valid() {
      throttle.slots.Length > 0
    }

    ghost function View(): Daemon
      reads this, cache.entries, throttle.slots
      requires Valid()
    {
      Daemon(policy, slot, counter, cache.entries[..], throttle.slots[..], asker, senders, checks, log)
    }

    constructor (s: Setup)
      ensures Valid() && View() == Init(s) && fresh(cache.entries) && fresh(throttle.slots)
    {
      policy := s.policy;
      cache := new DC.Cache(s.cacheSize);
      throttle := new PC.Cooldown(PC.SLOTS);
      slot := EMPTY;
      counter := s.seed % IDS;
      asker, senders, checks, log := "", [], [], [];
    }

    method NextReqId() returns (id: nat)
      modifies this`counter
      ensures id == counter == NextId(old(counter))
    {
      counter := (counter + 1) % IDS;
      if counter == 0 {
        counter := (counter + 1) % IDS;
      }
      id := counter;
    }

    method CleanupPending()
      requires Valid()
      modifies this`slot, this`log
      ensures View() == Cleanup(old(View()))
    {
      if slot.envelope.Some? {
        log := log + [Deleted(slot.envelope.value)];
      }
      slot := EMPTY;
    }

    method SendRequest(client: string, sent: bool)
      requires Valid()
      modifies this`slot, this`log
      ensures View() == Send(old(View()), client, sent)
    {
      if sent {
        log := log + [Asked(slot.reqId, client)];
      } else {
        CleanupPending();
      }
    }

    method Fill(kind: PC.Kind, from: string, now: int, envelope: Option<nat>)
      requires Valid()
      modifies this`slot, this`counter, this`asker
      ensures View() == Occupy(old(View()), kind, from, now, envelope)
    {
      var id := NextReqId();
      slot := Slot(true, kind, id, now, now, Shortened(from), envelope);
      asker := from;
    }

    method CacheDecision(decision: DC.Decision, now: int, copied: bool)
      requires Valid()
      modifies cache.entries, this`checks
      ensures View() == Remember(old(View()), decision, now, copied)
    {
      hide Normalized, DC.SlotFor;
      var ok := cache.Store(slot.name, decision, now, copied);
      var n := Normalized(slot.name, BUFFER_LEN);
      if n.Some? {
        checks := checks + [DC.Check(n.value, decision, now)];
      }
    }

    method RateLimited(from: string, kind: PC.Kind, now: int) returns (limited: bool)
      requires Valid()
      modifies throttle.slots
      ensures View() == Throttled(old(View()), from, kind, now).0
      ensures limited == Throttled(old(View()), from, kind, now).1
    {
      hide Normalized, PC.Allows, PC.After;
      var allowed := throttle.Allow(from, kind, now);
      limited := !allowed;
    }

    method HandlePing(ev: Event)
      requires Valid() && ev.PingRequest?
      modifies this`slot, this`counter, this`asker, this`log, throttle.slots
      ensures View() == Step(old(View()), ev)
    {
      hide Normalized, DC.Found, Occupy, Send, Throttled, Do;
      var limited := RateLimited(ev.from, PC.Ping, ev.rateAt);
      if limited {
        return;
      }
      var cached := cache.Lookup(ev.from, ev.lookupAt, ev.copied);
      assert cached == Cached(View(), ev.from, ev.lookupAt, ev.copied);
      if cached.Some? {
        if cached.value.authorized {
          Log(Heartbeat(ev.from));
        }
        return;
      }
      if slot.inUse {
        return;
      }
      Fill(PC.Ping, ev.from, ev.startAt, None);
      SendRequest(ev.from, ev.sent);
    }

    ghost method Log(x: Effect)
      requires Valid()
      modifies this`log
      ensures View() == Do(old(View()), x)
    {
      log := log + [x];
    }

    method HandleEnvelope(ev: Event, e: nat)
      requires Valid() && ev.NptRequest?
      modifies this`slot, this`counter, this`asker, this`log
      ensures View() == OnEnvelope(old(View()), ev, e)
    {
      hide Normalized, DC.Found, Occupy, Send, Cleanup, Do, FirstRules;
      var cached := cache.Lookup(ev.from, ev.lookupAt, ev.copied);
      assert cached == Cached(View(), ev.from, ev.lookupAt, ev.copied);
      if cached.Some? {
        if cached.value.authorized {
          Log(Handed(e, ev.from, FirstRules(cached.value.permitOpen)));
        } else {
          Log(Refused(ev.from));
          Log(Deleted(e));
        }
        return;
      }
      if slot.inUse {
        if slot.kind.Ping? {
          CleanupPending();
        } else {
          Log(Deleted(e));
          return;
        }
      }
      Fill(PC.Npt, ev.from, ev.startAt, Some(e));
      SendRequest(ev.from, ev.sent);
    }

    /** newest is the number of the envelope the request brings. */
    method HandleNptRequest(ev: Event, newest: nat)
      requires Valid() && ev.NptRequest? && newest == |senders|
      modifies this, throttle.slots
      ensures View() == Step(old(View()), ev)
    {
      hide Normalized, OnEnvelope, Throttled, Do;
      var limited := RateLimited(ev.from, PC.Npt, ev.rateAt);
      if limited || !ev.parsed {
        return;
      }
      senders := senders + [ev.from];
      if !ev.valid {
        Log(Deleted(newest));
        return;
      }
      HandleEnvelope(ev, newest);
    }

    method Deny()
      requires Valid()
      modifies this`slot, this`log
      ensures View() == OnDenied(old(View()))
    {
      if slot.envelope.Some? {
        Log(Refused(slot.name));
      }
      CleanupPending();
    }

    method HandlePolicyResponse(ev: Event)
      requires Valid() && ev.Response?
      modifies this`slot, this`log, this`checks, cache.entries
      ensures View() == Step(old(View()), ev)
    {
      hide Remember, OnDenied, Rules, Do, Cleanup;
      if !SamePlain(ev.from, policy) || ev.reqId == None || !slot.inUse || slot.reqId != ev.reqId.value {
        return;
      }
      if ev.reply.Ack? {
        slot := slot.(progressAt := ev.now);
        return;
      }
      var decision := DC.NO_DECISION;
      if ev.reply.Success? && ev.reply.body.Some? {
        decision := ev.reply.body.value.(permitOpen := Rules(ev.reply.body.value.permitOpen));
      }
      CacheDecision(decision, ev.now, ev.copied);
      assert slot == old(slot);
      if !decision.authorized {
        Deny();
        return;
      }
      var name, envelope := slot.name, slot.envelope;
      if envelope == None {
        Log(Heartbeat(name));
        CleanupPending();
      } else {
        slot := EMPTY;
        Log(Handed(envelope.value, name, decision.permitOpen));
      }
    }

    method HandleDecryptFailure(ev: Event)
      requires Valid() && ev.DecryptFailure?
      modifies this`slot, this`counter, this`log
      ensures View() == Step(old(View()), ev)
    {
      hide Normalized, Send;
      if slot.inUse && ev.sender.Some? && SameCanonical(ev.sender.value, policy) {
        var id := NextReqId();
        slot := slot.(reqId := id, progressAt := ev.now);
        SendRequest(slot.name, ev.sent);
      }
    }

    method CheckTimeout(ev: Event)
      requires Valid() && ev.Tick?
      modifies this`slot, this`log, this`checks, cache.entries
      ensures View() == Step(old(View()), ev)
    {
      hide Remember, OnDenied;
      if slot.inUse && WaitOver(slot.startedAt, slot.progressAt, ev.now) {
        CacheDecision(DC.NO_DECISION, ev.storeAt, ev.copied);
        Deny();
      }
    }
  }
}
