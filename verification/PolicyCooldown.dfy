/**
 The ESP32's table that spaces out policy checks: one slot for each sender, with a time for each of two
 kinds of check, and the sender active longest ago forgotten when it is full.
 */
module PolicyCooldown {
  import opened Tables
  import opened Wrappers
  import opened AtSign

  const SLOTS: nat := 8
  const COOLDOWN_MS: nat := 2000

  datatype Kind = Ping | Npt

  datatype Slot = Slot(used: bool, atSign: string, ping: Option<int>, npt: Option<int>)
  {
    function At(kind: Kind): Option<int> {
      if kind.Ping? then ping else npt
    }

    function With(kind: Kind, now: int): Slot {
      if kind.Ping? then this.(ping := Some(now)) else this.(npt := Some(now))
    }
  }

  const FREE := Slot(false, "", None, None)
  const BEFORE_ALL: int := -0x8000_0000_0000_0000

  /** The later of a slot's two times. */
  function LastActive(s: Slot): int {
    var ping := if s.ping.Some? then s.ping.value else BEFORE_ALL;
    var npt := if s.npt.Some? then s.npt.value else BEFORE_ALL;
    if ping > npt then ping else npt
  }

  /** A check that was allowed. */
  datatype Allowed = Allowed(atSign: string, kind: Kind, time: int)

  function Find(slots: seq<Slot>, name: string): (i: nat)
    ensures i <= |slots|
    ensures i < |slots| ==> slots[i].used && slots[i].atSign == name
    ensures forall j :: 0 <= j < i ==> !(slots[j].used && slots[j].atSign == name)
  {
    if slots == [] || (slots[0].used && slots[0].atSign == name) then 0 else 1 + Find(slots[1..], name)
  }

  function FindFree(slots: seq<Slot>): (i: nat)
    ensures i <= |slots|
    ensures i < |slots| ==> !slots[i].used
    ensures forall j :: 0 <= j < i ==> slots[j].used
  {
    if slots == [] || !slots[0].used then 0 else 1 + FindFree(slots[1..])
  }

  function LeastActive(slots: seq<Slot>): (i: nat)
    requires slots != []
    ensures i < |slots|
    ensures forall j :: 0 <= j < |slots| ==> LastActive(slots[i]) <= LastActive(slots[j])
    ensures forall j :: 0 <= j < i ==> LastActive(slots[i]) < LastActive(slots[j])
  {
    var last := |slots| - 1;
    if last == 0 then 0
    else
      var o := LeastActive(slots[..last]);
      if LastActive(slots[last]) < LastActive(slots[o]) then last else o
  }

  predicate Allows(slots: seq<Slot>, name: string, kind: Kind, now: int) {
    var i := Find(slots, name);
    i == |slots| || slots[i].At(kind) == None || now - slots[i].At(kind).value >= COOLDOWN_MS
  }

  /** The slot of a sender that has none yet. */
  function NewSlot(slots: seq<Slot>): (i: nat)
    requires slots != []
    ensures i < |slots|
  {
    if FindFree(slots) < |slots| then FindFree(slots) else LeastActive(slots)
  }

  function After(slots: seq<Slot>, name: string, kind: Kind, now: int): (r: seq<Slot>)
    requires slots != []
    ensures |r| == |slots|
  {
    var i := Find(slots, name);
    if !Allows(slots, name, kind, now) then slots
    else if i < |slots| then slots[i := slots[i].With(kind, now)]
    else slots[NewSlot(slots) := FREE.(used := true, atSign := name).With(kind, now)]
  }

  // ---- Runs ----

  predicate TimesUpTo(hist: seq<Allowed>, now: int) {
    && (forall i, j :: 0 <= i < j < |hist| ==> hist[i].time <= hist[j].time)
    && forall i :: 0 <= i < |hist| ==> BEFORE_ALL <= hist[i].time <= now
  }

  predicate Distinct(slots: seq<Slot>) {
    forall i, j :: 0 <= i < j < |slots| && slots[i].used && slots[j].used ==> slots[i].atSign != slots[j].atSign
  }

  /** The senders other than name that were allowed a check at time t or later. */
  function Others(hist: seq<Allowed>, name: string, t: int): set<string> {
    set i | 0 <= i < |hist| && hist[i].atSign != name && hist[i].time >= t :: hist[i].atSign
  }

  /** The time a slot holds for a kind of check is that of the sender's latest such check. */
  predicate TimeOk(s: Slot, kind: Kind, hist: seq<Allowed>) {
    s.At(kind).Some? ==>
      && Allowed(s.atSign, kind, s.At(kind).value) in hist
      && forall k :: 0 <= k < |hist| && hist[k].atSign == s.atSign && hist[k].kind == kind ==>
        hist[k].time <= s.At(kind).value
  }

  predicate SlotOk(s: Slot, hist: seq<Allowed>) {
    (s.ping.Some? || s.npt.Some?) && TimeOk(s, Ping, hist) && TimeOk(s, Npt, hist)
  }

  predicate SlotsOk(slots: seq<Slot>, hist: seq<Allowed>) {
    forall i :: 0 <= i < |slots| && slots[i].used ==> SlotOk(slots[i], hist)
  }

  /** The table still knows when this check was last allowed. */
  predicate Remembers(slots: seq<Slot>, a: Allowed) {
    exists i :: 0 <= i < |slots| && slots[i].used && slots[i].atSign == a.atSign && slots[i].At(a.kind).Some?
  }

  predicate ForgetsOnlyCrowded(slots: seq<Slot>, hist: seq<Allowed>) {
    forall k :: 0 <= k < |hist| && !Remembers(slots, hist[k]) ==>
      |Others(hist, hist[k].atSign, hist[k].time)| >= |slots|
  }

  predicate Inv(slots: seq<Slot>, hist: seq<Allowed>) {
    Distinct(slots) && SlotsOk(slots, hist) && ForgetsOnlyCrowded(slots, hist)
  }

  function Held(slots: seq<Slot>): set<string> {
    set i | 0 <= i < |slots| && slots[i].used :: slots[i].atSign
  }

  lemma {:induction false} HeldCount(slots: seq<Slot>)
    requires Distinct(slots) && forall i :: 0 <= i < |slots| ==> slots[i].used
    ensures |Held(slots)| == |slots|
    decreases |slots|
  {
    if slots != [] {
      var init, last := slots[..|slots| - 1], slots[|slots| - 1];
      HeldCount(init);
      assert Held(slots) == Held(init) + {last.atSign} && last.atSign !in Held(init);
    } else {
      assert Held(slots) == {};
    }
  }

  lemma {:induction false} OthersGrow(hist: seq<Allowed>, a: Allowed, name: string, t: int)
    ensures |Others(hist, name, t)| <= |Others(hist + [a], name, t)|
  {
    var more := hist + [a];
    forall w | w in Others(hist, name, t) ensures w in Others(more, name, t) {
      var i :| 0 <= i < |hist| && hist[i].atSign != name && hist[i].time >= t && hist[i].atSign == w;
      assert more[i] == hist[i];
    }
    SubsetSize(Others(hist, name, t), Others(more, name, t));
  }

  /** A slot's last activity is a check of its sender that was allowed. */
  lemma {:induction false} ActivityInHistory(s: Slot, hist: seq<Allowed>) returns (k: nat)
    requires SlotOk(s, hist) && forall i :: 0 <= i < |hist| ==> BEFORE_ALL <= hist[i].time
    ensures k < |hist| && hist[k].atSign == s.atSign && hist[k].time == LastActive(s)
  {
    var kind := if s.ping.Some? && s.ping.value == LastActive(s) then Ping else Npt;
    assert s.At(Ping) == s.ping && s.At(Npt) == s.npt;
    assert s.At(kind) == Some(LastActive(s));
    k :| 0 <= k < |hist| && hist[k] == Allowed(s.atSign, kind, LastActive(s));
  }

  lemma {:induction false} EvictionIsCrowded(slots: seq<Slot>, hist: seq<Allowed>, a: Allowed, t: int)
    requires Distinct(slots) && SlotsOk(slots, hist) && TimesUpTo(hist, a.time) && slots != []
    requires Find(slots, a.atSign) == |slots| && FindFree(slots) == |slots|
    requires t <= LastActive(slots[LeastActive(slots)])
    ensures |Others(hist + [a], slots[LeastActive(slots)].atSign, t)| >= |slots|
  {
    var o := LeastActive(slots);
    var name, more := slots[o].atSign, hist + [a];
    HeldCount(slots);
    var crowd := Held(slots) - {name} + {a.atSign};
    assert slots[o].used && slots[o].atSign in Held(slots);
    assert a.atSign !in Held(slots);
    assert |crowd| == |slots|;
    forall w | w in crowd ensures w in Others(more, name, t) {
      if w == a.atSign {
        assert more[|hist|] == a;
        var k := ActivityInHistory(slots[o], hist);
      } else {
        var j :| 0 <= j < |slots| && slots[j].used && slots[j].atSign == w;
        var k := ActivityInHistory(slots[j], hist);
        assert more[k] == hist[k];
      }
    }
    SubsetSize(crowd, Others(more, name, t));
  }

  /** Where an allowed check is recorded. */
  function Place(slots: seq<Slot>, name: string): (i: nat)
    requires slots != []
    ensures i < |slots|
  {
    if Find(slots, name) < |slots| then Find(slots, name) else NewSlot(slots)
  }

  lemma {:induction false} AllowedKeepsSlots(slots: seq<Slot>, hist: seq<Allowed>, name: string, kind: Kind, now: int)
    requires Distinct(slots) && SlotsOk(slots, hist) && TimesUpTo(hist, now) && slots != []
    requires Allows(slots, name, kind, now)
    ensures Distinct(After(slots, name, kind, now))
    ensures SlotsOk(After(slots, name, kind, now), hist + [Allowed(name, kind, now)])
  {
    var r, more := After(slots, name, kind, now), hist + [Allowed(name, kind, now)];
    var p := Place(slots, name);
    assert more[|hist|] == Allowed(name, kind, now);
    assert forall k :: 0 <= k < |hist| ==> more[k] == hist[k];
    forall i | 0 <= i < |r| && r[i].used ensures SlotOk(r[i], more) {
      assert i != p ==> r[i] == slots[i] && r[i].atSign != name;
      assert TimeOk(r[i], kind, more);
      TimeKept(slots, hist, Allowed(name, kind, now), i, Ping);
      TimeKept(slots, hist, Allowed(name, kind, now), i, Npt);
    }
  }

  lemma {:induction false} TimeKept(slots: seq<Slot>, hist: seq<Allowed>, a: Allowed, i: nat, kind: Kind)
    requires Distinct(slots) && SlotsOk(slots, hist) && slots != [] && i < |slots|
    requires Allows(slots, a.atSign, a.kind, a.time) && TimesUpTo(hist, a.time)
    ensures var s := After(slots, a.atSign, a.kind, a.time)[i]; s.used ==> TimeOk(s, kind, hist + [a])
  {
    var s, more := After(slots, a.atSign, a.kind, a.time)[i], hist + [a];
    assert more[|hist|] == a && forall k :: 0 <= k < |hist| ==> more[k] == hist[k];
    if s.used && s.At(kind).Some? && (s.atSign != a.atSign || kind != a.kind) {
      assert slots[i].used && slots[i].At(kind) == s.At(kind) && slots[i].atSign == s.atSign;
      assert TimeOk(slots[i], kind, hist);
      var k :| 0 <= k < |hist| && hist[k] == Allowed(s.atSign, kind, s.At(kind).value);
      assert more[k] == hist[k];
    }
  }

  /** A check that is forgotten on account of another: its sender has just been evicted, or was forgotten already. */
  lemma {:induction false} ForgottenIsCrowded(slots: seq<Slot>, hist: seq<Allowed>, a: Allowed, k: nat)
    requires Inv(slots, hist) && TimesUpTo(hist, a.time) && slots != [] && Allows(slots, a.atSign, a.kind, a.time)
    requires k < |hist| && !Remembers(After(slots, a.atSign, a.kind, a.time), hist[k])
    ensures |Others(hist + [a], hist[k].atSign, hist[k].time)| >= |slots|
  {
    if Remembers(slots, hist[k]) {
      var j :| 0 <= j < |slots| && slots[j].used && slots[j].atSign == hist[k].atSign
        && slots[j].At(hist[k].kind).Some?;
      Evicted(slots, a, j, hist[k].kind);
      assert hist[k].time <= slots[j].At(hist[k].kind).value <= LastActive(slots[j]) by {
        assert SlotOk(slots[j], hist);
      }
      hide Inv, Others, After, Remembers, Find, LeastActive, LastActive;
      EvictionIsCrowded(slots, hist, a, hist[k].time);
    } else {
      OthersGrow(hist, a, hist[k].atSign, hist[k].time);
    }
  }

  /** A time that is no longer there was in the slot that has been taken, the one active longest ago. */
  lemma {:induction false} Evicted(slots: seq<Slot>, a: Allowed, j: nat, kind: Kind)
    requires slots != [] && Distinct(slots) && Allows(slots, a.atSign, a.kind, a.time)
    requires j < |slots| && slots[j].used && slots[j].At(kind).Some?
    requires !Remembers(After(slots, a.atSign, a.kind, a.time), Allowed(slots[j].atSign, kind, 0))
    ensures Find(slots, a.atSign) == |slots| && FindFree(slots) == |slots| && j == LeastActive(slots)
  {
    var r := After(slots, a.atSign, a.kind, a.time);
    hide Find, FindFree, LeastActive;
    assert forall i :: 0 <= i < |slots| && i != Place(slots, a.atSign) ==> r[i] == slots[i];
    assert r[j].used;
  }

  lemma {:induction false} AllowedKeepsInv(slots: seq<Slot>, hist: seq<Allowed>, name: string, kind: Kind, now: int)
    requires Inv(slots, hist) && TimesUpTo(hist, now) && slots != [] && Allows(slots, name, kind, now)
    ensures Inv(After(slots, name, kind, now), hist + [Allowed(name, kind, now)])
  {
    var r, a := After(slots, name, kind, now), Allowed(name, kind, now);
    var more := hist + [a];
    AllowedKeepsSlots(slots, hist, name, kind, now);
    assert Remembers(r, a) by {
      assert r[Place(slots, name)].used;
    }
    hide Others, TimesUpTo, Allows, After, Remembers, Distinct, SlotsOk;
    forall k | 0 <= k < |more| && !Remembers(r, more[k])
      ensures |Others(more, more[k].atSign, more[k].time)| >= |r|
    {
      assert k < |hist| && more[k] == hist[k];
      ForgottenIsCrowded(slots, hist, a, k);
    }
  }

  datatype Request = Request(atSign: string, kind: Kind, now: int)

  function Run(size: nat, requests: seq<Request>): (r: (seq<Slot>, seq<Allowed>))
    requires size > 0
    ensures |r.0| == size
    decreases |requests|
  {
    if requests == [] then (seq(size, _ => FREE), [])
    else
      var (slots, hist) := Run(size, requests[..|requests| - 1]);
      var q := requests[|requests| - 1];
      (After(slots, q.atSign, q.kind, q.now),
       if Allows(slots, q.atSign, q.kind, q.now) then hist + [Allowed(q.atSign, q.kind, q.now)] else hist)
  }

  predicate ClockRuns(requests: seq<Request>) {
    && (forall i :: 0 <= i < |requests| ==> BEFORE_ALL <= requests[i].now)
    && forall i, j :: 0 <= i < j < |requests| ==> requests[i].now <= requests[j].now
  }

  lemma {:induction false} RunInv(size: nat, requests: seq<Request>)
    requires size > 0 && ClockRuns(requests)
    ensures Inv(Run(size, requests).0, Run(size, requests).1)
    ensures requests != [] ==> TimesUpTo(Run(size, requests).1, requests[|requests| - 1].now)
    decreases |requests|
  {
    if requests != [] {
      var init, q := requests[..|requests| - 1], requests[|requests| - 1];
      RunInv(size, init);
      var (slots, hist) := Run(size, init);
      assert init == [] || init[|init| - 1].now <= q.now;
      if Allows(slots, q.atSign, q.kind, q.now) {
        AllowedKeepsInv(slots, hist, q.atSign, q.kind, q.now);
      }
    }
  }

  lemma {:induction false} RefusedWasAllowed(slots: seq<Slot>, hist: seq<Allowed>, name: string, kind: Kind, now: int)
    returns (k: nat)
    requires SlotsOk(slots, hist) && !Allows(slots, name, kind, now)
    ensures k < |hist| && hist[k].atSign == name && hist[k].kind == kind && now - hist[k].time < COOLDOWN_MS
  {
    var s := slots[Find(slots, name)];
    assert SlotOk(s, hist);
    k :| 0 <= k < |hist| && hist[k] == Allowed(name, kind, s.At(kind).value);
  }

  /** Over every run: a check is refused only if the sender was allowed one of that kind within the cooldown. */
  lemma {:induction false} RefusedOnlyTooSoon(size: nat, requests: seq<Request>, q: Request)
    requires size > 0 && ClockRuns(requests)
    ensures var (slots, hist) := Run(size, requests);
      !Allows(slots, q.atSign, q.kind, q.now) ==>
        exists k :: 0 <= k < |hist| && hist[k].atSign == q.atSign && hist[k].kind == q.kind
                    && q.now - hist[k].time < COOLDOWN_MS
  {
    var (slots, hist) := Run(size, requests);
    RunInv(size, requests);
    hide Run, ClockRuns, TimesUpTo, SlotsOk, Allows, ForgetsOnlyCrowded;
    if !Allows(slots, q.atSign, q.kind, q.now) {
      var k := RefusedWasAllowed(slots, hist, q.atSign, q.kind, q.now);
    }
  }

  /**
   Over every run: a sender is allowed two checks of one kind within the cooldown only if, from the time
   of the first, at least as many other senders as there are slots were allowed one.
   */
  lemma {:induction false} SpacedUnlessCrowded(size: nat, requests: seq<Request>, q: Request, k: nat)
    requires size > 0 && ClockRuns(requests + [q])
    requires k < |Run(size, requests).1|
    requires Run(size, requests).1[k].atSign == q.atSign && Run(size, requests).1[k].kind == q.kind
    ensures var (slots, hist) := Run(size, requests);
      Allows(slots, q.atSign, q.kind, q.now) && q.now - hist[k].time < COOLDOWN_MS ==>
      |Others(hist, q.atSign, hist[k].time)| >= size
  {
    var (slots, hist) := Run(size, requests);
    assert forall i :: 0 <= i < |requests| ==> (requests + [q])[i] == requests[i];
    RunInv(size, requests);
    if Remembers(slots, hist[k]) {
      var i :| 0 <= i < |slots| && slots[i].used && slots[i].atSign == q.atSign && slots[i].At(q.kind).Some?;
      assert i == Find(slots, q.atSign);
      assert SlotOk(slots[i], hist);
    }
  }

  class Cooldown {
    const slots: array<Slot>

    constructor (size: nat)
      ensures slots[..] == seq(size, _ => FREE) && fresh(slots)
    {
      slots := new Slot[size](_ => FREE);
    }

    method FindNewSlot() returns (slot: nat)
      requires slots.Length > 0
      ensures slot == NewSlot(slots[..])
    {
      for i := 0 to slots.Length
        invariant forall j :: 0 <= j < i ==> slots[j].used
      {
        if !slots[i].used {
          assert i == FindFree(slots[..]);
          return i;
        }
      }
      assert FindFree(slots[..]) == |slots[..]|;
      slot := 0;
      for i := 1 to slots.Length
        invariant slot == LeastActive(slots[..i])
      {
        assert slots[..i + 1][..i] == slots[..i];
        if LastActive(slots[i]) < LastActive(slots[slot]) {
          slot := i;
        }
      }
      assert slots[..slots.Length] == slots[..];
    }

    method Allow(atSign: string, kind: Kind, now: int) returns (allowed: bool)
      requires slots.Length > 0
      modifies slots
      ensures match Normalized(atSign, BUFFER_LEN)
              case None => !allowed && slots[..] == old(slots[..])
              case Some(name) =>
                && allowed == Allows(old(slots[..]), name, kind, now)
                && slots[..] == After(old(slots[..]), name, kind, now)
    {
      var name := Normalized(atSign, BUFFER_LEN);
      if name == None {
        return false;
      }
      var slot := 0;
      while slot < slots.Length && !(slots[slot].used && slots[slot].atSign == name.value)
        invariant 0 <= slot <= slots.Length
        invariant forall j :: 0 <= j < slot ==> !(slots[j].used && slots[j].atSign == name.value)
      {
        slot := slot + 1;
      }
      assert slot == Find(slots[..], name.value);
      if slot < slots.Length {
        var last := slots[slot].At(kind);
        if last.Some? && now - last.value < COOLDOWN_MS {
          return false;
        }
      } else {
        slot := FindNewSlot();
        slots[slot] := FREE.(used := true, atSign := name.value);
      }
      slots[slot] := slots[slot].With(kind, now);
      return true;
    }
  }
}
