/**
 The table that spaces out policy checks: it remembers when a sender's last check of each kind was
 allowed, in a fixed number of slots, and forgets the one allowed longest ago when it is full.
 */
module PolicyThrottle {
  import opened Tables
  import opened Wrappers
  import opened AtSign

  const SLOTS: nat := 8
  const THROTTLE_MS: nat := 2000

  /** A canonical atSign and a kind of request. */
  datatype Who = Who(atSign: string, kind: int)

  datatype Slot = Slot(used: bool, who: Who, checkedAt: int)

  const FREE := Slot(false, Who("", 0), 0)

  /** A check that was allowed. */
  datatype Allowed = Allowed(who: Who, time: int)

  function Find(slots: seq<Slot>, who: Who): (i: nat)
    ensures i <= |slots|
    ensures i < |slots| ==> slots[i].used && slots[i].who == who
    ensures forall j :: 0 <= j < i ==> !(slots[j].used && slots[j].who == who)
  {
    if slots == [] || (slots[0].used && slots[0].who == who) then 0 else 1 + Find(slots[1..], who)
  }

  function FindFree(slots: seq<Slot>): (i: nat)
    ensures i <= |slots|
    ensures i < |slots| ==> !slots[i].used
    ensures forall j :: 0 <= j < i ==> slots[j].used
  {
    if slots == [] || !slots[0].used then 0 else 1 + FindFree(slots[1..])
  }

  function Oldest(slots: seq<Slot>): (i: nat)
    requires slots != []
    ensures i < |slots|
    ensures forall j :: 0 <= j < |slots| ==> slots[i].checkedAt <= slots[j].checkedAt
    ensures forall j :: 0 <= j < i ==> slots[i].checkedAt < slots[j].checkedAt
  {
    var last := |slots| - 1;
    if last == 0 then 0
    else
      var o := Oldest(slots[..last]);
      if slots[last].checkedAt < slots[o].checkedAt then last else o
  }

  function SlotFor(slots: seq<Slot>, who: Who): (i: nat)
    requires slots != []
    ensures i < |slots|
  {
    var found, free := Find(slots, who), FindFree(slots);
    if found < |slots| then found else if free < |slots| then free else Oldest(slots)
  }

  predicate Allows(slots: seq<Slot>, who: Who, now: int) {
    var i := Find(slots, who);
    i == |slots| || now - slots[i].checkedAt >= THROTTLE_MS
  }

  /** The table after a request; a refusal leaves it as it is. */
  function After(slots: seq<Slot>, who: Who, now: int): (r: seq<Slot>)
    requires slots != []
    ensures |r| == |slots|
  {
    if Allows(slots, who, now) then slots[SlotFor(slots, who) := Slot(true, who, now)] else slots
  }

  // ---- Runs ----

  predicate Distinct(slots: seq<Slot>) {
    forall i, j :: 0 <= i < j < |slots| && slots[i].used && slots[j].used ==> slots[i].who != slots[j].who
  }

  predicate TimesUpTo(hist: seq<Allowed>, now: int) {
    && (forall i, j :: 0 <= i < j < |hist| ==> hist[i].time <= hist[j].time)
    && forall i :: 0 <= i < |hist| ==> hist[i].time <= now
  }

  predicate InTable(slots: seq<Slot>, who: Who) {
    exists i :: 0 <= i < |slots| && slots[i].used && slots[i].who == who
  }

  /** Whoever else was allowed a check at time t or later. */
  function Others(hist: seq<Allowed>, who: Who, t: int): set<Who> {
    set i | 0 <= i < |hist| && hist[i].who != who && hist[i].time >= t :: hist[i].who
  }

  /** Every slot in use holds a check that was allowed, and no later one of the same sender and kind was. */
  predicate HoldsLatest(slots: seq<Slot>, hist: seq<Allowed>) {
    forall i :: 0 <= i < |slots| && slots[i].used ==>
      && Allowed(slots[i].who, slots[i].checkedAt) in hist
      && forall k :: 0 <= k < |hist| && hist[k].who == slots[i].who ==> hist[k].time <= slots[i].checkedAt
  }

  /** A check has been forgotten only once as many others as there are slots have been allowed since. */
  predicate ForgetsOnlyCrowded(slots: seq<Slot>, hist: seq<Allowed>) {
    forall k :: 0 <= k < |hist| && !InTable(slots, hist[k].who) ==>
      |Others(hist, hist[k].who, hist[k].time)| >= |slots|
  }

  predicate Inv(slots: seq<Slot>, hist: seq<Allowed>) {
    Distinct(slots) && HoldsLatest(slots, hist) && ForgetsOnlyCrowded(slots, hist)
  }

  function Held(slots: seq<Slot>): set<Who> {
    set i | 0 <= i < |slots| && slots[i].used :: slots[i].who
  }

  lemma {:induction false} HeldCount(slots: seq<Slot>)
    requires Distinct(slots) && forall i :: 0 <= i < |slots| ==> slots[i].used
    ensures |Held(slots)| == |slots|
    decreases |slots|
  {
    if slots != [] {
      var init, last := slots[..|slots| - 1], slots[|slots| - 1];
      HeldCount(init);
      assert Held(slots) == Held(init) + {last.who} && last.who !in Held(init);
    } else {
      assert Held(slots) == {};
    }
  }

  lemma {:induction false} OthersGrow(hist: seq<Allowed>, a: Allowed, who: Who, t: int)
    ensures Others(hist, who, t) <= Others(hist + [a], who, t)
    ensures |Others(hist, who, t)| <= |Others(hist + [a], who, t)|
  {
    var more := hist + [a];
    forall w | w in Others(hist, who, t) ensures w in Others(more, who, t) {
      var i :| 0 <= i < |hist| && hist[i].who != who && hist[i].time >= t && hist[i].who == w;
      assert more[i] == hist[i];
    }
    SubsetSize(Others(hist, who, t), Others(more, who, t));
  }

  /** Evicting the oldest of a full table: all the others were allowed no earlier, and so was the newcomer. */
  lemma {:induction false} EvictionIsCrowded(slots: seq<Slot>, hist: seq<Allowed>, a: Allowed, t: int)
    requires Distinct(slots) && HoldsLatest(slots, hist) && TimesUpTo(hist, a.time) && slots != []
    requires !InTable(slots, a.who) && FindFree(slots) == |slots|
    requires t <= slots[Oldest(slots)].checkedAt
    ensures |Others(hist + [a], slots[Oldest(slots)].who, t)| >= |slots|
  {
    var o := Oldest(slots);
    var who, more := slots[o].who, hist + [a];
    assert slots[o].used;
    HeldCount(slots);
    var crowd := Held(slots) - {who} + {a.who};
    assert a.who !in Held(slots) && who in Held(slots);
    assert |crowd| == |slots|;
    hide Distinct, FindFree, InTable;
    forall w | w in crowd ensures w in Others(more, who, t) {
      if w == a.who {
        assert more[|hist|] == a;
        assert Allowed(who, slots[o].checkedAt) in hist;
      } else {
        var j :| 0 <= j < |slots| && slots[j].used && slots[j].who == w;
        var k :| 0 <= k < |hist| && hist[k] == Allowed(w, slots[j].checkedAt);
        assert more[k] == hist[k];
      }
    }
    SubsetSize(crowd, Others(more, who, t));
  }

  lemma {:induction false} AllowedKeepsHoldsLatest(slots: seq<Slot>, hist: seq<Allowed>, who: Who, now: int)
    requires Distinct(slots) && HoldsLatest(slots, hist) && TimesUpTo(hist, now) && slots != []
    requires Allows(slots, who, now)
    ensures Distinct(After(slots, who, now))
    ensures HoldsLatest(After(slots, who, now), hist + [Allowed(who, now)])
  {}

  lemma {:induction false} AllowedKeepsInv(slots: seq<Slot>, hist: seq<Allowed>, who: Who, now: int)
    requires Inv(slots, hist) && TimesUpTo(hist, now) && slots != [] && Allows(slots, who, now)
    ensures Inv(After(slots, who, now), hist + [Allowed(who, now)])
  {
    var i, r, a := SlotFor(slots, who), After(slots, who, now), Allowed(who, now);
    var more := hist + [a];
    AllowedKeepsHoldsLatest(slots, hist, who, now);
    assert forall j :: 0 <= j < |slots| && j != i ==> r[j] == slots[j];
    forall k | 0 <= k < |more| && !InTable(r, more[k].who)
      ensures |Others(more, more[k].who, more[k].time)| >= |r|
    {
      assert r[i].used && r[i].who == who;
      assert k < |hist| && more[k] == hist[k];
      if InTable(slots, hist[k].who) {
        var j :| 0 <= j < |slots| && slots[j].used && slots[j].who == hist[k].who;
        assert j == i;
        assert hist[k].who != who;
        EvictionIsCrowded(slots, hist, a, hist[k].time);
      } else {
        OthersGrow(hist, a, hist[k].who, hist[k].time);
      }
    }
  }

  /** A request of a run. */
  datatype Request = Request(who: Who, now: int)

  function Cleared(size: nat): seq<Slot> {
    seq(size, _ => FREE)
  }

  /** The table and the checks allowed after a run of requests. */
  function Run(size: nat, requests: seq<Request>): (r: (seq<Slot>, seq<Allowed>))
    requires size > 0
    ensures |r.0| == size
    decreases |requests|
  {
    if requests == [] then (Cleared(size), [])
    else
      var (slots, hist) := Run(size, requests[..|requests| - 1]);
      var q := requests[|requests| - 1];
      (After(slots, q.who, q.now), if Allows(slots, q.who, q.now) then hist + [Allowed(q.who, q.now)] else hist)
  }

  predicate ClockRuns(requests: seq<Request>) {
    forall i, j :: 0 <= i < j < |requests| ==> requests[i].now <= requests[j].now
  }

  lemma {:induction false} RunInv(size: nat, requests: seq<Request>)
    requires size > 0 && ClockRuns(requests)
    ensures Inv(Run(size, requests).0, Run(size, requests).1)
    ensures requests != [] ==> TimesUpTo(Run(size, requests).1, requests[|requests| - 1].now)
    decreases |requests|
  {
    if requests != [] {
      var init, q := requests[..|requests| - 1], requests[|requests| - 1];
      RunInv(size, init);
      var (slots, hist) := Run(size, init);
      assert init == [] || init[|init| - 1].now <= q.now;
      if Allows(slots, q.who, q.now) {
        AllowedKeepsInv(slots, hist, q.who, q.now);
      }
    }
  }

  /**
   Over every run: a sender is allowed two checks of one kind within the interval only if, from the time
   of the first, at least as many other senders or kinds as there are slots were allowed one.
   */
  lemma {:induction false} SpacedUnlessCrowded(size: nat, requests: seq<Request>, q: Request, k: nat)
    requires size > 0 && ClockRuns(requests + [q])
    requires k < |Run(size, requests).1| && Run(size, requests).1[k].who == q.who
    ensures var (slots, hist) := Run(size, requests);
      Allows(slots, q.who, q.now) && q.now - hist[k].time < THROTTLE_MS ==>
      |Others(hist, q.who, hist[k].time)| >= size
  {
    var (slots, hist) := Run(size, requests);
    assert forall i :: 0 <= i < |requests| ==> (requests + [q])[i] == requests[i];
    RunInv(size, requests);
    if InTable(slots, q.who) {
      assert slots[Find(slots, q.who)].checkedAt >= hist[k].time;
    }
  }

  /** Over every run: a check is refused only if the sender was allowed one of that kind within the interval. */
  lemma {:induction false} RefusedOnlyTooSoon(size: nat, requests: seq<Request>, q: Request)
    requires size > 0 && ClockRuns(requests)
    ensures var (slots, hist) := Run(size, requests);
      !Allows(slots, q.who, q.now) ==>
        exists k :: 0 <= k < |hist| && hist[k].who == q.who && q.now - hist[k].time < THROTTLE_MS
  {
    var (slots, hist) := Run(size, requests);
    RunInv(size, requests);
    hide Run;
    if !Allows(slots, q.who, q.now) {
      var i := Find(slots, q.who);
      var k :| 0 <= k < |hist| && hist[k] == Allowed(q.who, slots[i].checkedAt);
    }
  }

  /**
   While its last check is remembered, a sender is allowed the next exactly once the interval has passed:
   refusals don't extend the wait.
   */
  lemma {:induction false} RefusalsDontExtendTheWait(
    size: nat, requests: seq<Request>, refused: seq<Request>, who: Who, now: int)
    requires size > 0
    requires forall i :: 0 <= i < |refused| ==> !Allows(Run(size, requests).0, refused[i].who, refused[i].now)
    ensures Run(size, requests + refused) == Run(size, requests)
    ensures Allows(Run(size, requests + refused).0, who, now) <==> Allows(Run(size, requests).0, who, now)
    decreases |refused|
  {
    if refused == [] {
      assert requests + refused == requests;
    } else {
      RefusalsDontExtendTheWait(size, requests, refused[..|refused| - 1], who, now);
      assert (requests + refused)[..|requests + refused| - 1] == requests + refused[..|refused| - 1];
    }
  }

  /** The slots, an array that is never resized. */
  class Throttle {
    const slots: array<Slot>

    constructor (size: nat)
      ensures slots[..] == Cleared(size) && fresh(slots)
    {
      slots := new Slot[size](_ => FREE);
    }

    /** Whether a check may go ahead, which is then recorded. */
    method Allow(atSign: string, kind: int, now: int) returns (allowed: bool)
      requires slots.Length > 0
      modifies slots
      ensures match Normalized(atSign, BUFFER_LEN)
              case None => !allowed && slots[..] == old(slots[..])
              case Some(name) =>
                && allowed == Allows(old(slots[..]), Who(name, kind), now)
                && slots[..] == After(old(slots[..]), Who(name, kind), now)
    {
      var name := Normalized(atSign, BUFFER_LEN);
      if name == None {
        return false;
      }
      var who := Who(name.value, kind);
      var slot := 0;
      while slot < slots.Length && !(slots[slot].used && slots[slot].who == who)
        invariant 0 <= slot <= slots.Length
        invariant forall j :: 0 <= j < slot ==> !(slots[j].used && slots[j].who == who)
      {
        slot := slot + 1;
      }
      assert slot == Find(slots[..], who);
      if slot < slots.Length {
        if now - slots[slot].checkedAt < THROTTLE_MS {
          return false;
        }
      } else {
        slot := FindSlot();
      }
      slots[slot] := Slot(true, who, now);
      return true;
    }

    /** A free slot, or else the oldest. */
    method FindSlot() returns (slot: nat)
      requires slots.Length > 0
      ensures slot == if FindFree(slots[..]) < slots.Length then FindFree(slots[..]) else Oldest(slots[..])
    {
      for i := 0 to slots.Length
        invariant forall j :: 0 <= j < i ==> slots[j].used
      {
        if !slots[i].used {
          assert i == FindFree(slots[..]);
          return i;
        }
      }
      assert FindFree(slots[..]) == |slots[..]|;
      slot := 0;
      for i := 1 to slots.Length
        invariant slot == Oldest(slots[..i])
      {
        assert slots[..i + 1][..i] == slots[..i];
        if slots[i].checkedAt < slots[slot].checkedAt {
          slot := i;
        }
      }
      assert slots[..slots.Length] == slots[..];
    }
  }
}
