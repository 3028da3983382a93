/**
 The cache of policy decisions: a fixed array of entries, searched in order, where a new decision takes
 the place of its sender's, or else a free one, or else the one made longest ago.
 */
module PolicyCache {
  import opened Tables
  import opened Wrappers
  import opened AtSign

  const TTL_MS: nat := 15000

  datatype Decision = Decision(authorized: bool, permitOpen: seq<string>)

  const NO_DECISION := Decision(false, [])

  datatype Entry = Entry(used: bool, atSign: string, checkedAt: int, decision: Decision)

  const FREE := Entry(false, "", 0, NO_DECISION)

  /** A finished check of a canonical atSign. */
  datatype Check = Check(atSign: string, decision: Decision, time: int)

  predicate Matches(e: Entry, name: string) {
    e.used && e.atSign == name
  }

  /** The first entry of name, or the number of entries. */
  function FindName(entries: seq<Entry>, name: string): (i: nat)
    ensures i <= |entries|
    ensures i < |entries| ==> Matches(entries[i], name)
    ensures forall j :: 0 <= j < i ==> !Matches(entries[j], name)
  {
    if entries == [] || Matches(entries[0], name) then 0 else 1 + FindName(entries[1..], name)
  }

  function FindFree(entries: seq<Entry>): (i: nat)
    ensures i <= |entries|
    ensures i < |entries| ==> !entries[i].used
    ensures forall j :: 0 <= j < i ==> entries[j].used
  {
    if entries == [] || !entries[0].used then 0 else 1 + FindFree(entries[1..])
  }

  /** The first of the entries with the earliest time. */
  function Oldest(entries: seq<Entry>): (i: nat)
    requires entries != []
    ensures i < |entries|
    ensures forall j :: 0 <= j < |entries| ==> entries[i].checkedAt <= entries[j].checkedAt
    ensures forall j :: 0 <= j < i ==> entries[i].checkedAt < entries[j].checkedAt
  {
    var last := |entries| - 1;
    if last == 0 then 0
    else
      var o := Oldest(entries[..last]);
      if entries[last].checkedAt < entries[o].checkedAt then last else o
  }

  function SlotFor(entries: seq<Entry>, name: string): (i: nat)
    requires entries != []
    ensures i < |entries|
  {
    var named, free := FindName(entries, name), FindFree(entries);
    if named < |entries| then named else if free < |entries| then free else Oldest(entries)
  }

  /** The decision for name, if there is one and it is fresh and can be copied. */
  function Found(entries: seq<Entry>, name: string, now: int, copied: bool): Option<Decision> {
    var i := FindName(entries, name);
    if i < |entries| && now - entries[i].checkedAt < TTL_MS && copied then Some(entries[i].decision) else None
  }

  /** The entries after a store; a copy that fails leaves the slot free. */
  function Stored(entries: seq<Entry>, c: Check, copied: bool): (r: seq<Entry>)
    ensures |r| == |entries|
  {
    if entries == [] then entries
    else
      var i := SlotFor(entries, c.atSign);
      if copied then entries[i := Entry(true, c.atSign, c.time, c.decision)]
      else entries[i := entries[i].(used := false, decision := NO_DECISION)]
  }

  // ---- The map the entries stand for ----

  /** The last check of name. */
  function Latest(checks: seq<Check>, name: string): Option<Check> {
    if checks == [] then None
    else if checks[|checks| - 1].atSign == name then Some(checks[|checks| - 1])
    else Latest(checks[..|checks| - 1], name)
  }

  function Names(entries: seq<Entry>): set<string> {
    set i | 0 <= i < |entries| && entries[i].used :: entries[i].atSign
  }

  function Senders(checks: seq<Check>): set<string> {
    set i | 0 <= i < |checks| :: checks[i].atSign
  }

  predicate Distinct(entries: seq<Entry>) {
    forall i, j :: 0 <= i < j < |entries| && entries[i].used && entries[j].used ==>
      entries[i].atSign != entries[j].atSign
  }

  /** Every entry in use is its sender's latest check. */
  predicate HoldsLatest(entries: seq<Entry>, checks: seq<Check>) {
    forall i :: 0 <= i < |entries| && entries[i].used ==>
      Latest(checks, entries[i].atSign) == Some(Check(entries[i].atSign, entries[i].decision, entries[i].checkedAt))
  }

  /** The clock never goes back, and reads at least now from here on. */
  predicate TimesUpTo(checks: seq<Check>, now: int) {
    && (forall i, j :: 0 <= i < j < |checks| ==> checks[i].time <= checks[j].time)
    && forall i :: 0 <= i < |checks| ==> checks[i].time <= now
  }

  /** A sender that isn't held was not checked later than any that is. */
  predicate DropsOldest(entries: seq<Entry>, checks: seq<Check>) {
    forall k, i :: 0 <= k < |checks| && checks[k].atSign !in Names(entries) && 0 <= i < |entries| && entries[i].used ==>
      checks[k].time <= entries[i].checkedAt
  }

  function Min(a: nat, b: nat): nat {
    if a < b then a else b
  }

  /** What the cache is to its history when every store succeeded. */
  predicate Refines(entries: seq<Entry>, checks: seq<Check>) {
    && Distinct(entries)
    && HoldsLatest(entries, checks)
    && |Names(entries)| == Min(|entries|, |Senders(checks)|)
    && DropsOldest(entries, checks)
  }

  function InUse(entries: seq<Entry>): (n: nat)
    ensures n <= |entries|
  {
    if entries == [] then 0
    else InUse(entries[..|entries| - 1]) + if entries[|entries| - 1].used then 1 else 0
  }

  lemma {:induction false} NamesCount(entries: seq<Entry>)
    requires Distinct(entries)
    ensures |Names(entries)| == InUse(entries)
    decreases |entries|
  {
    if entries == [] {
      assert Names(entries) == {};
    } else {
      var init, last := entries[..|entries| - 1], entries[|entries| - 1];
      NamesCount(init);
      if last.used {
        assert Names(entries) == Names(init) + {last.atSign} && last.atSign !in Names(init);
      } else {
        assert Names(entries) == Names(init);
      }
    }
  }

  lemma {:induction false} InUseAll(entries: seq<Entry>)
    ensures InUse(entries) == |entries| <==> forall i :: 0 <= i < |entries| ==> entries[i].used
    decreases |entries|
  {
    if entries != [] {
      var init := entries[..|entries| - 1];
      InUseAll(init);
      assert forall i :: 0 <= i < |init| ==> init[i] == entries[i];
    }
  }

  lemma {:induction false} LatestIsSender(checks: seq<Check>, name: string)
    ensures Latest(checks, name).Some? <==> name in Senders(checks)
    ensures Latest(checks, name).Some? ==>
      Latest(checks, name).value in checks && Latest(checks, name).value.atSign == name
    decreases |checks|
  {
    if checks != [] {
      var init, last := checks[..|checks| - 1], checks[|checks| - 1];
      LatestIsSender(init, name);
      assert Senders(checks) == Senders(init) + {last.atSign};
    }
  }

  lemma {:induction false} NamesAreSenders(entries: seq<Entry>, checks: seq<Check>)
    requires HoldsLatest(entries, checks)
    ensures Names(entries) <= Senders(checks)
  {
    forall i | 0 <= i < |entries| && entries[i].used ensures entries[i].atSign in Senders(checks) {
      LatestIsSender(checks, entries[i].atSign);
    }
  }

  lemma {:induction false} SendersGrow(checks: seq<Check>, c: Check)
    ensures Senders(checks + [c]) == Senders(checks) + {c.atSign}
  {
    var more := checks + [c];
    assert forall i :: 0 <= i < |checks| ==> more[i] == checks[i];
    assert more[|checks|] == c;
    assert c.atSign in Senders(more);
    forall n | n in Senders(checks) ensures n in Senders(more) {
      var i :| 0 <= i < |checks| && checks[i].atSign == n;
      assert more[i].atSign == n;
    }
  }

  /** A store replaces one slot; no other entry has the stored name. */
  lemma {:induction false} StoredDistinct(entries: seq<Entry>, c: Check, copied: bool)
    requires Distinct(entries)
    ensures Distinct(Stored(entries, c, copied))
    ensures !copied && entries != [] ==> c.atSign !in Names(Stored(entries, c, copied))
  {}

  lemma {:induction false} StoredHoldsLatest(entries: seq<Entry>, checks: seq<Check>, c: Check, copied: bool)
    requires Distinct(entries) && HoldsLatest(entries, checks)
    ensures HoldsLatest(Stored(entries, c, copied), checks + [c])
  {}

  lemma {:induction false} StoredNames(entries: seq<Entry>, c: Check)
    requires Distinct(entries) && entries != []
    ensures var i := SlotFor(entries, c.atSign);
      Names(Stored(entries, c, true)) ==
        (if entries[i].used then Names(entries) - {entries[i].atSign} else Names(entries))
          + {c.atSign}
  {
    var i, r := SlotFor(entries, c.atSign), Stored(entries, c, true);
    assert r[i].used && r[i].atSign == c.atSign;
    forall n | n in Names(entries) && (entries[i].used ==> n != entries[i].atSign) ensures n in Names(r) {
      var j :| 0 <= j < |entries| && entries[j].used && entries[j].atSign == n;
      assert r[j] == entries[j];
    }
  }

  lemma {:induction false} StoredCount(entries: seq<Entry>, checks: seq<Check>, c: Check)
    requires Distinct(entries) && HoldsLatest(entries, checks) && entries != []
    requires |Names(entries)| == Min(|entries|, |Senders(checks)|)
    ensures |Names(Stored(entries, c, true))| == Min(|entries|, |Senders(checks + [c])|)
  {
    var i := SlotFor(entries, c.atSign);
    StoredNames(entries, c);
    SendersGrow(checks, c);
    NamesAreSenders(entries, checks);
    NamesCount(entries);
    InUseAll(entries);
    NameHeld(entries, c.atSign);
    var names, senders := Names(entries), Senders(checks);
    assert entries[i].used ==> entries[i].atSign in names;
    assert FindFree(entries) < |entries| ==> |names| < |entries|;
    var dropped := if entries[i].used then {entries[i].atSign} else {};
    assert FindName(entries, c.atSign) < |entries| ==> dropped == {c.atSign};
    assert FindName(entries, c.atSign) == |entries| && FindFree(entries) < |entries| ==> dropped == {};
    CountsAfter(names, senders, c.atSign, dropped, |entries|);
  }

  /** The count of names held, when name takes the place of dropped. */
  lemma {:induction false} CountsAfter(
    names: set<string>, senders: set<string>, name: string, dropped: set<string>, size: nat)
    requires names <= senders && |names| == Min(size, |senders|) && dropped <= names && |dropped| <= 1 <= size
    requires name in names ==> dropped == {name}
    requires name !in names ==> if |names| < size then dropped == {} else |dropped| == 1
    ensures |names - dropped + {name}| == Min(size, |senders + {name}|)
  {
    var kept := names - dropped;
    assert |kept| == |names| - |dropped|;
    if name in names {
      assert kept + {name} == names && senders + {name} == senders;
    } else {
      assert name !in kept && |kept + {name}| == |kept| + 1;
      if |names| < size {
        SubsetOfSameSize(names, senders);
      } else {
        assert senders <= senders + {name};
        SubsetSize(senders, senders + {name});
      }
    }
  }

  lemma {:induction false} NameHeld(entries: seq<Entry>, name: string)
    ensures name in Names(entries) <==> FindName(entries, name) < |entries|
  {}

  lemma {:induction false} SubsetOfSameSize(a: set<string>, b: set<string>)
    requires a <= b && |a| == |b|
    ensures a == b
  {
    assert |b - a| == |b| - |a|;
  }

  lemma {:induction false} StoredDropsOldest(entries: seq<Entry>, checks: seq<Check>, c: Check)
    requires Distinct(entries) && HoldsLatest(entries, checks) && DropsOldest(entries, checks) && entries != []
    requires TimesUpTo(checks, c.time)
    ensures DropsOldest(Stored(entries, c, true), checks + [c])
  {
    var s, r, more := SlotFor(entries, c.atSign), Stored(entries, c, true), checks + [c];
    StoredNames(entries, c);
    forall k, i | 0 <= k < |more| && more[k].atSign !in Names(r) && 0 <= i < |r| && r[i].used
      ensures more[k].time <= r[i].checkedAt
    {
      assert k < |checks|;
      if i != s && checks[k].atSign in Names(entries) {
        // dropped just now, so it was in the slot of the oldest entry
        assert checks[k].atSign == entries[s].atSign;
        LatestIsLast(checks, checks[k].atSign, k);
      }
    }
  }

  lemma {:induction false} LatestIsLast(checks: seq<Check>, name: string, k: nat)
    requires k < |checks| && checks[k].atSign == name
    requires forall i, j :: 0 <= i < j < |checks| ==> checks[i].time <= checks[j].time
    ensures Latest(checks, name).Some? && checks[k].time <= Latest(checks, name).value.time
    decreases |checks|
  {
    if checks[|checks| - 1].atSign != name {
      LatestIsLast(checks[..|checks| - 1], name, k);
    }
  }

  /** A store that succeeds keeps the refinement, the clock not having gone back. */
  lemma {:induction false} StoreRefines(entries: seq<Entry>, checks: seq<Check>, c: Check)
    requires Refines(entries, checks) && TimesUpTo(checks, c.time) && entries != []
    ensures Refines(Stored(entries, c, true), checks + [c])
  {
    StoredDistinct(entries, c, true);
    StoredHoldsLatest(entries, checks, c, true);
    StoredCount(entries, checks, c);
    StoredDropsOldest(entries, checks, c);
  }

  /** A sender that is held is found exactly while its latest decision is fresh, if that can be copied; no other is. */
  lemma {:induction false} FoundExactly(entries: seq<Entry>, checks: seq<Check>, name: string, now: int, copied: bool)
    requires Distinct(entries) && HoldsLatest(entries, checks)
    ensures name in Names(entries) ==> Latest(checks, name).Some?
    ensures Found(entries, name, now, copied) ==
      if copied && name in Names(entries) && now - Latest(checks, name).value.time < TTL_MS
      then Some(Latest(checks, name).value.decision) else None
  {
    NameHeld(entries, name);
    var i := FindName(entries, name);
    assert i < |entries| ==> entries[i].atSign in Names(entries);
    if name in Names(entries) {
      var j :| 0 <= j < |entries| && entries[j].used && entries[j].atSign == name;
      assert Matches(entries[j], name);
    }
  }

  /** What has been stored is found until it is too old. */
  lemma {:induction false} StoredIsFound(entries: seq<Entry>, c: Check, now: int)
    requires Distinct(entries) && entries != []
    ensures Found(Stored(entries, c, true), c.atSign, now, true) ==
      if now - c.time < TTL_MS then Some(c.decision) else None
  {
    StoredDistinct(entries, c, true);
    var r := Stored(entries, c, true);
    assert Matches(r[SlotFor(entries, c.atSign)], c.atSign);
  }

  function Cleared(size: nat): seq<Entry> {
    seq(size, _ => FREE)
  }

  function StoredAll(size: nat, checks: seq<Check>): (r: seq<Entry>)
    ensures |r| == size
    decreases |checks|
  {
    if checks == [] then Cleared(size)
    else Stored(StoredAll(size, checks[..|checks| - 1]), checks[|checks| - 1], true)
  }

  /**
   After any stores at times that never go back, the cache holds as many senders as it has room for, each
   with its latest decision, and no sender it doesn't hold was stored later than one it does.
   */
  lemma {:induction false} CacheRefinesMap(size: nat, checks: seq<Check>)
    requires forall i, j :: 0 <= i < j < |checks| ==> checks[i].time <= checks[j].time
    ensures Refines(StoredAll(size, checks), checks)
    decreases |checks|
  {
    if checks == [] {
      assert Names(Cleared(size)) == {} && Senders(checks) == {};
    } else {
      var init, last := checks[..|checks| - 1], checks[|checks| - 1];
      CacheRefinesMap(size, init);
      assert init + [last] == checks;
      if size > 0 {
        StoreRefines(StoredAll(size, init), init, last);
      } else {
        assert Names(StoredAll(size, checks)) == {};
      }
    }
  }

  /** The entries, an array that is never resized. */
  class Cache {
    const entries: array<Entry>

    constructor (size: nat)
      ensures entries[..] == Cleared(size) && fresh(entries)
    {
      entries := new Entry[size](_ => FREE);
    }

    method Lookup(atSign: string, now: int, copied: bool) returns (decision: Option<Decision>)
      ensures decision == match Normalized(atSign, BUFFER_LEN)
                          case None => None
                          case Some(name) => Found(entries[..], name, now, copied)
    {
      var name := Normalized(atSign, BUFFER_LEN);
      if name == None {
        return None;
      }
      for i := 0 to entries.Length
        invariant forall j :: 0 <= j < i ==> !Matches(entries[j], name.value)
      {
        if !entries[i].used || entries[i].atSign != name.value {
          continue;
        }
        assert i == FindName(entries[..], name.value);
        if now - entries[i].checkedAt >= TTL_MS {
          return None;
        }
        return if copied then Some(entries[i].decision) else None;
      }
      return None;
    }

    method FindSlot(name: string) returns (slot: nat)
      requires entries.Length > 0
      ensures slot == SlotFor(entries[..], name)
    {
      for i := 0 to entries.Length
        invariant forall j :: 0 <= j < i ==> !Matches(entries[j], name)
      {
        if entries[i].used && entries[i].atSign == name {
          assert i == FindName(entries[..], name);
          return i;
        }
      }
      assert FindName(entries[..], name) == |entries[..]|;
      for i := 0 to entries.Length
        invariant forall j :: 0 <= j < i ==> entries[j].used
      {
        if !entries[i].used {
          assert i == FindFree(entries[..]);
          return i;
        }
      }
      assert FindFree(entries[..]) == |entries[..]|;
      slot := 0;
      for i := 1 to entries.Length
        invariant slot == Oldest(entries[..i])
      {
        assert entries[..i + 1][..i] == entries[..i];
        if entries[i].checkedAt < entries[slot].checkedAt {
          slot := i;
        }
      }
      assert entries[..entries.Length] == entries[..];
    }

    /** Holds a copy of decision; ok is false when there is no canonical atSign or the copy can't be made. */
    method Store(atSign: string, decision: Decision, now: int, copied: bool) returns (ok: bool)
      modifies entries
      ensures ok == (entries.Length == 0 || (Normalized(atSign, BUFFER_LEN).Some? && copied))
      ensures entries[..] == match Normalized(atSign, BUFFER_LEN)
                             case None => old(entries[..])
                             case Some(name) => Stored(old(entries[..]), Check(name, decision, now), copied)
    {
      if entries.Length == 0 {
        return true;
      }
      var name := Normalized(atSign, BUFFER_LEN);
      if name == None {
        return false;
      }
      var slot := FindSlot(name.value);
      entries[slot] := entries[slot].(used := false, decision := NO_DECISION);
      if !copied {
        return false;
      }
      entries[slot] := Entry(true, name.value, now, decision);
      return true;
    }
  }
}
