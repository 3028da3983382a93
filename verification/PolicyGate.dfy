/**
 The gate in front of every request in policy mode: a fresh cached decision, or else a check that the
 throttle allows, whose outcome is cached.
 */
module PolicyGate {
  import opened Wrappers
  import opened AtSign
  import opened PolicyCache
  import PT = PolicyThrottle

  datatype Verdict = Allow | Deny | Drop

  /**
   A request, with the clock as each step reads it, whether each copy of a decision can be made, and what
   the policy service would answer: nothing when it can't be asked.
   */
  datatype Ask = Ask(
    client: string,
    kind: int,
    lookupAt: int,
    throttleAt: int,
    storeAt: int,
    lookupCopied: bool,
    storeCopied: bool,
    answer: Option<Decision>)

  datatype Gate = Gate(entries: seq<Entry>, slots: seq<PT.Slot>)

  /** What became of a request; made is the check it led to, if that was answered. */
  datatype Outcome = Outcome(gate: Gate, verdict: Verdict, decision: Decision, made: Option<Check>)

  function VerdictOf(d: Decision): Verdict {
    if d.authorized then Allow else Deny
  }

  function Gated(g: Gate, q: Ask): (r: Outcome)
    requires g.slots != []
    ensures |r.gate.slots| == |g.slots| && |r.gate.entries| == |g.entries|
  {
    match Normalized(q.client, BUFFER_LEN)
    case None => Outcome(g, Drop, NO_DECISION, None)
    case Some(name) =>
      var found := Found(g.entries, name, q.lookupAt, q.lookupCopied);
      var who := PT.Who(name, q.kind);
      if found.Some? then Outcome(g, VerdictOf(found.value), found.value, None)
      else if !PT.Allows(g.slots, who, q.throttleAt) then Outcome(g, Drop, NO_DECISION, None)
      else
        var g1 := g.(slots := PT.After(g.slots, who, q.throttleAt));
        match q.answer
        case None => Outcome(g1, Deny, NO_DECISION, None)
        case Some(d) =>
          var c := Check(name, d, q.storeAt);
          Outcome(g1.(entries := Stored(g1.entries, c, q.storeCopied)), VerdictOf(d), d, Some(c))
  }

  /** The gate and the answered checks after a run of requests. */
  function Run(size: nat, slots: nat, asks: seq<Ask>): (r: (Gate, seq<Check>))
    requires slots > 0
    ensures |r.0.slots| == slots && |r.0.entries| == size
    decreases |asks|
  {
    if asks == [] then (Gate(Cleared(size), PT.Cleared(slots)), [])
    else
      var (g, checks) := Run(size, slots, asks[..|asks| - 1]);
      var out := Gated(g, asks[|asks| - 1]);
      (out.gate, checks + if out.made.Some? then [out.made.value] else [])
  }

  predicate ClockRuns(asks: seq<Ask>) {
    && (forall i :: 0 <= i < |asks| ==> asks[i].lookupAt <= asks[i].throttleAt <= asks[i].storeAt)
    && forall i, j :: 0 <= i < j < |asks| ==> asks[i].storeAt <= asks[j].lookupAt
  }

  /** Every decision held is its sender's latest, whether or not every copy could be made. */
  lemma {:induction false} RunHoldsLatest(size: nat, slots: nat, asks: seq<Ask>)
    requires slots > 0
    ensures var (g, checks) := Run(size, slots, asks); Distinct(g.entries) && HoldsLatest(g.entries, checks)
    decreases |asks|
  {
    if asks != [] {
      var init, q := asks[..|asks| - 1], asks[|asks| - 1];
      RunHoldsLatest(size, slots, init);
      var (g, checks) := Run(size, slots, init);
      hide Stored, Found, Distinct, HoldsLatest, Normalized, PT.After, PT.Allows;
      var out := Gated(g, q);
      if out.made.Some? {
        var c := out.made.value;
        StoredDistinct(g.entries, c, q.storeCopied);
        StoredHoldsLatest(g.entries, checks, c, q.storeCopied);
      } else {
        assert checks + [] == checks;
      }
    }
  }

  lemma {:induction false} ChecksInPast(size: nat, slots: nat, asks: seq<Ask>, k: nat)
    requires slots > 0 && ClockRuns(asks) && k < |Run(size, slots, asks).1|
    ensures asks != [] && Run(size, slots, asks).1[k].time <= asks[|asks| - 1].storeAt
    decreases |asks|
  {
    if asks != [] {
      var init, q := asks[..|asks| - 1], asks[|asks| - 1];
      var checks := Run(size, slots, init).1;
      if k < |checks| {
        ChecksInPast(size, slots, init, k);
        assert init[|init| - 1] == asks[|init| - 1];
      }
    }
  }

  /** The latest answered check of the sender is what out allows q by, and is fresh or was made for it. */
  predicate LatestAllows(checks: seq<Check>, q: Ask, out: Outcome) {
    && Normalized(q.client, BUFFER_LEN).Some?
    && var latest := Latest(checks, Normalized(q.client, BUFFER_LEN).value);
    && latest.Some? && latest.value.decision == out.decision && out.decision.authorized
    && (out.made == latest || 0 <= q.lookupAt - latest.value.time < TTL_MS)
  }

  lemma {:induction false} RunOfMore(size: nat, slots: nat, asks: seq<Ask>, q: Ask)
    requires slots > 0
    ensures var (g, checks) := Run(size, slots, asks);
      var made := Gated(g, q).made;
      Run(size, slots, asks + [q]).1 == if made.Some? then checks + [made.value] else checks
  {
    assert (asks + [q])[..|asks|] == asks && (asks + [q])[|asks|] == q;
  }

  /** A cached decision is the latest of its sender's, and was stored less than the time to live before. */
  lemma {:induction false} CachedIsLatest(g: Gate, checks: seq<Check>, q: Ask)
    requires g.slots != [] && Distinct(g.entries) && HoldsLatest(g.entries, checks)
    requires Gated(g, q).verdict == Allow && Gated(g, q).made == None
    ensures var name := Normalized(q.client, BUFFER_LEN);
      && name.Some? && Latest(checks, name.value).Some?
      && var c := Latest(checks, name.value).value;
      c.decision == Gated(g, q).decision && c.decision.authorized && q.lookupAt - c.time < TTL_MS
  {
    hide PT.After, PT.Allows, Normalized, Stored, Latest;
    var i := FindName(g.entries, Normalized(q.client, BUFFER_LEN).value);
    assert g.entries[i].used;
  }

  lemma {:induction false} LatestInPast(size: nat, slots: nat, asks: seq<Ask>, q: Ask, name: string)
    requires slots > 0 && ClockRuns(asks + [q])
    ensures var c := Latest(Run(size, slots, asks).1, name); c.Some? ==> c.value.time <= q.lookupAt
  {
    hide Run;
    var checks := Run(size, slots, asks).1;
    if Latest(checks, name).Some? {
      LatestIsSender(checks, name);
      var k :| 0 <= k < |checks| && checks[k] == Latest(checks, name).value;
      assert forall j :: 0 <= j < |asks| ==> (asks + [q])[j] == asks[j];
      ChecksInPast(size, slots, asks, k);
      assert (asks + [q])[|asks|] == q;
    }
  }

  /**
   Over every run, even when copies fail: a request is allowed only with the decision of the latest
   answered check of the same canonical atSign; that check said authorized; and it was either made
   for this very request or stored less than the time to live before it.
   */
  lemma {:induction false} AllowsOnlyLatestAuthorized(size: nat, slots: nat, asks: seq<Ask>, q: Ask)
    requires slots > 0 && ClockRuns(asks + [q])
    ensures var out := Gated(Run(size, slots, asks).0, q);
      out.verdict == Allow ==> LatestAllows(Run(size, slots, asks + [q]).1, q, out)
  {
    var (g, checks) := Run(size, slots, asks);
    var out := Gated(g, q);
    RunOfMore(size, slots, asks, q);
    RunHoldsLatest(size, slots, asks);
    hide Run, ClockRuns, PT.After, PT.Allows, Normalized, Stored, Found, Distinct, HoldsLatest;
    if out.verdict == Allow && out.made == None {
      CachedIsLatest(g, checks, q);
      LatestInPast(size, slots, asks, q, Normalized(q.client, BUFFER_LEN).value);
    }
  }

  // ---- What is decided when ----

  /** The sender's latest decision is held, still fresh and can be copied. */
  predicate HeldFresh(g: Gate, checks: seq<Check>, q: Ask, name: string) {
    && q.lookupCopied && name in Names(g.entries)
    && Latest(checks, name).Some? && q.lookupAt - Latest(checks, name).value.time < TTL_MS
  }

  lemma {:induction false} HeldIsFound(size: nat, slots: nat, asks: seq<Ask>, q: Ask, name: string)
    requires slots > 0
    ensures var (g, checks) := Run(size, slots, asks);
      Found(g.entries, name, q.lookupAt, q.lookupCopied) ==
        if HeldFresh(g, checks, q, name) then Some(Latest(checks, name).value.decision) else None
  {
    var (g, checks) := Run(size, slots, asks);
    RunHoldsLatest(size, slots, asks);
    FoundExactly(g.entries, checks, name, q.lookupAt, q.lookupCopied);
  }

  /** Over every run: a decision held and fresh decides at once, and nothing changes. */
  lemma {:induction false} HeldDecides(size: nat, slots: nat, asks: seq<Ask>, q: Ask, name: string)
    requires slots > 0 && Normalized(q.client, BUFFER_LEN) == Some(name)
    requires HeldFresh(Run(size, slots, asks).0, Run(size, slots, asks).1, q, name)
    ensures var (g, checks) := Run(size, slots, asks);
      var latest := Latest(checks, name).value.decision;
      Gated(g, q) == Outcome(g, if latest.authorized then Allow else Deny, latest, None)
  {
    HeldIsFound(size, slots, asks, q, name);
    hide Run, Found, HeldFresh, Normalized;
  }

  /**
   Over every run: otherwise the throttle drops the request, or it is decided by what the policy service answers, which
   is then held if it can be copied; without an answer it is denied, and nothing is held.
   */
  lemma {:induction false} OtherwiseAnswered(size: nat, slots: nat, asks: seq<Ask>, q: Ask, name: string, now: int)
    requires slots > 0 && Normalized(q.client, BUFFER_LEN) == Some(name)
    requires !HeldFresh(Run(size, slots, asks).0, Run(size, slots, asks).1, q, name)
    ensures var g := Run(size, slots, asks).0;
      var out, let := Gated(g, q), PT.Allows(g.slots, PT.Who(name, q.kind), q.throttleAt);
      && (!let ==> out.verdict == Drop && out.gate == g && out.made == None)
      && (let && q.answer == None ==> out.verdict == Deny && out.made == None && out.gate.entries == g.entries)
      && (let && q.answer.Some? ==>
            && out.verdict == (if q.answer.value.authorized then Allow else Deny)
            && out.decision == q.answer.value && out.made == Some(Check(name, q.answer.value, q.storeAt))
            && (q.storeCopied && size > 0 && now - q.storeAt < TTL_MS ==>
                  Found(out.gate.entries, name, now, true) == q.answer))
  {
    var g := Run(size, slots, asks).0;
    HeldIsFound(size, slots, asks, q, name);
    RunHoldsLatest(size, slots, asks);
    if q.answer.Some? && size > 0 {
      StoredIsFound(g.entries, Check(name, q.answer.value, q.storeAt), now);
    }
    hide Run, Found, HeldFresh, Normalized, Stored, Distinct, HoldsLatest, PT.Allows, PT.After;
  }

  /** What a request asks of the throttle, if it gets that far. */
  function Reaching(g: Gate, q: Ask): Option<PT.Request> {
    match Normalized(q.client, BUFFER_LEN)
    case None => None
    case Some(name) =>
      if Found(g.entries, name, q.lookupAt, q.lookupCopied).Some? then None
      else Some(PT.Request(PT.Who(name, q.kind), q.throttleAt))
  }

  /** The requests of a run that got as far as the throttle. */
  function Reached(size: nat, slots: nat, asks: seq<Ask>): seq<PT.Request>
    requires slots > 0
    decreases |asks|
  {
    if asks == [] then []
    else
      var init, q := asks[..|asks| - 1], asks[|asks| - 1];
      var r := Reaching(Run(size, slots, init).0, q);
      if r.None? then Reached(size, slots, init) else Reached(size, slots, init) + [r.value]
  }

  lemma {:induction false} GatedSlots(g: Gate, q: Ask)
    requires g.slots != []
    ensures var r := Reaching(g, q);
      Gated(g, q).gate.slots == if r.None? then g.slots else PT.After(g.slots, r.value.who, r.value.now)
    ensures Gated(g, q).verdict == Drop ==>
      Normalized(q.client, BUFFER_LEN) == None ||
      (Reaching(g, q).Some? && !PT.Allows(g.slots, Reaching(g, q).value.who, Reaching(g, q).value.now))
    ensures Reaching(g, q).Some? ==> Reaching(g, q).value.now == q.throttleAt
  {
    hide Normalized, Found, Stored;
  }

  lemma {:induction false} OneMoreRequest(slots: nat, before: seq<PT.Request>, r: PT.Request)
    requires slots > 0
    ensures PT.Run(slots, before + [r]).0 == PT.After(PT.Run(slots, before).0, r.who, r.now)
  {
    assert (before + [r])[..|before|] == before;
    hide PT.After, PT.Allows;
  }

  /** The gate's throttle has seen just those. */
  lemma {:induction false} ThrottleSawReached(size: nat, slots: nat, asks: seq<Ask>)
    requires slots > 0
    ensures Run(size, slots, asks).0.slots == PT.Run(slots, Reached(size, slots, asks)).0
    decreases |asks|
  {
    hide Gated, Reaching, PT.After;
    if asks != [] {
      var init, q := asks[..|asks| - 1], asks[|asks| - 1];
      ThrottleSawReached(size, slots, init);
      var g := Run(size, slots, init).0;
      GatedSlots(g, q);
      if Reaching(g, q).Some? {
        OneMoreRequest(slots, Reached(size, slots, init), Reaching(g, q).value);
      }
    }
  }

  lemma {:induction false} ReachedInOrder(size: nat, slots: nat, asks: seq<Ask>)
    requires slots > 0 && ClockRuns(asks)
    ensures PT.ClockRuns(Reached(size, slots, asks))
    ensures forall r :: r in Reached(size, slots, asks) ==> asks != [] && r.now <= asks[|asks| - 1].storeAt
    decreases |asks|
  {
    hide Reaching, Run;
    if asks != [] {
      var init, q := asks[..|asks| - 1], asks[|asks| - 1];
      ReachedInOrder(size, slots, init);
      GatedSlots(Run(size, slots, init).0, q);
      assert init != [] ==> init[|init| - 1].storeAt <= q.lookupAt;
      var before := Reached(size, slots, init);
      forall r | r in before ensures r.now <= q.throttleAt {}
      assert forall i :: 0 <= i < |before| ==> before[i] in before;
    }
  }

  /** Over every run: a request is dropped only if its sender was let through for that kind within the interval. */
  lemma {:induction false} DroppedOnlyTooSoon(size: nat, slots: nat, asks: seq<Ask>, q: Ask, name: string)
    requires slots > 0 && ClockRuns(asks) && Normalized(q.client, BUFFER_LEN) == Some(name)
    ensures var hist := PT.Run(slots, Reached(size, slots, asks)).1;
      Gated(Run(size, slots, asks).0, q).verdict == Drop ==>
        exists k :: 0 <= k < |hist| && hist[k].who == PT.Who(name, q.kind)
                    && q.throttleAt - hist[k].time < PT.THROTTLE_MS
  {
    var g := Run(size, slots, asks).0;
    ThrottleSawReached(size, slots, asks);
    ReachedInOrder(size, slots, asks);
    GatedSlots(g, q);
    ReachingIs(g, q, name);
    hide Run, Reached, PT.Run, PT.Allows, PT.After, Normalized, Gated, Reaching;
    PT.RefusedOnlyTooSoon(slots, Reached(size, slots, asks), PT.Request(PT.Who(name, q.kind), q.throttleAt));
  }

  lemma {:induction false} ReachingIs(g: Gate, q: Ask, name: string)
    requires Normalized(q.client, BUFFER_LEN) == Some(name)
    ensures Reaching(g, q).Some? ==> Reaching(g, q).value == PT.Request(PT.Who(name, q.kind), q.throttleAt)
  {}

  class PolicyGate {
    const cache: Cache
    const throttle: PT.Throttle

    ghost predicate Valid() {
      throttle.slots.Length > 0
    }

    ghost function View(): Gate
      reads cache.entries, throttle.slots
    {
      Gate(cache.entries[..], throttle.slots[..])
    }

    constructor (size: nat)
      ensures Valid() && View() == Gate(Cleared(size), PT.Cleared(PT.SLOTS))
    {
      cache := new Cache(size);
      throttle := new PT.Throttle(PT.SLOTS);
    }

    method Decide(q: Ask) returns (verdict: Verdict, decision: Decision)
      requires Valid()
      modifies cache.entries, throttle.slots
      ensures View() == Gated(old(View()), q).gate
      ensures verdict == Gated(old(View()), q).verdict
      ensures verdict == Allow ==> decision == Gated(old(View()), q).decision
    {
      hide Stored, PT.Allows, Found, Normalized;
      decision := NO_DECISION;
      var found := cache.Lookup(q.client, q.lookupAt, q.lookupCopied);
      if found.Some? {
        decision := found.value;
      } else {
        var allowed := throttle.Allow(q.client, q.kind, q.throttleAt);
        if !allowed {
          return Drop, NO_DECISION;
        }
        if q.answer == None {
          return Deny, NO_DECISION;
        }
        decision := q.answer.value;
        var stored := cache.Store(q.client, decision, q.storeAt, q.storeCopied);
      }
      verdict := if decision.authorized then Allow else Deny;
    }
  }
}
