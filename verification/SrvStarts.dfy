/**
 The srv processes whose start is watched: each holds the read end of a pipe that is closed once the
 srv has reported, or has exited, or has been stopped for taking too long.
 */
module SrvStarts {
  import opened Tables

  const START_TIMEOUT_MS: nat := 15000

  /** pipe identifies the pipe for good, where a descriptor's number may be used again. */
  datatype Start = Start(pid: int, pipe: nat, startedMs: int)

  /** The table after a call, the pipes it closed and the processes it sent SIGTERM, in order. */
  datatype Outcome = Outcome(starts: seq<Start>, closed: seq<nat>, killed: seq<int>)

  function Watched(starts: seq<Start>, pid: int, pipe: nat, now: int, memory: bool): Outcome {
    if memory then Outcome(starts + [Start(pid, pipe, now)], [], []) else Outcome(starts, [pipe], [])
  }

  /** The pass over the table from index i on; settled holds the pipes whose srv has reported or closed its end. */
  function Polled(starts: seq<Start>, i: nat, now: int, settled: set<nat>): Outcome
    requires i <= |starts|
    decreases |starts| - i
  {
    if i == |starts| then Outcome(starts, [], [])
    else
      var s := starts[i];
      if s.pipe in settled || now - s.startedMs >= START_TIMEOUT_MS then
        var rest := Polled(SwapRemove(starts, i), i, now, settled);
        rest.(closed := [s.pipe] + rest.closed,
              killed := if s.pipe in settled then rest.killed else [s.pid] + rest.killed)
      else Polled(starts, i + 1, now, settled)
  }

  function StartOf(starts: seq<Start>, pid: int): (i: nat)
    ensures i <= |starts|
    ensures i < |starts| ==> starts[i].pid == pid
    ensures forall j :: 0 <= j < i ==> starts[j].pid != pid
  {
    if starts == [] || starts[0].pid == pid then 0 else 1 + StartOf(starts[1..], pid)
  }

  function ReapedStart(starts: seq<Start>, pid: int): Outcome {
    var i := StartOf(starts, pid);
    if i < |starts| then Outcome(SwapRemove(starts, i), [starts[i].pipe], []) else Outcome(starts, [], [])
  }

  function Pipes(starts: seq<Start>): (r: seq<nat>)
    ensures |r| == |starts|
  {
    seq(|starts|, i requires 0 <= i < |starts| => starts[i].pipe)
  }

  lemma {:induction false} PipesSwapRemoved(starts: seq<Start>, i: nat)
    requires i < |starts|
    ensures multiset(Pipes(starts)) == multiset(Pipes(SwapRemove(starts, i))) + multiset{starts[i].pipe}
  {
    assert Pipes(SwapRemove(starts, i)) == SwapRemove(Pipes(starts), i);
    SwapRemoved(Pipes(starts), i);
    assert starts[i].pipe in multiset(Pipes(starts)) by {
      assert Pipes(starts)[i] == starts[i].pipe;
    }
  }

  /** Neither settled nor started too long ago. */
  predicate Pending(s: Start, now: int, settled: set<nat>) {
    s.pipe !in settled && now - s.startedMs < START_TIMEOUT_MS
  }

  /** A pass closes exactly the pipes it drops from the table, once each, and keeps every other entry. */
  lemma {:induction false} PollClosesWhatItDrops(starts: seq<Start>, i: nat, now: int, settled: set<nat>)
    requires i <= |starts|
    ensures var r := Polled(starts, i, now, settled);
      multiset(Pipes(r.starts)) + multiset(r.closed) == multiset(Pipes(starts))
    decreases |starts| - i
  {
    if i < |starts| {
      var s := starts[i];
      if s.pipe in settled || now - s.startedMs >= START_TIMEOUT_MS {
        PipesSwapRemoved(starts, i);
        PollClosesWhatItDrops(SwapRemove(starts, i), i, now, settled);
      } else {
        PollClosesWhatItDrops(starts, i + 1, now, settled);
      }
    }
  }

  /** Only a watched process that has taken too long, and hasn't reported, is stopped. */
  predicate TooLate(starts: seq<Start>, pid: int, now: int, settled: set<nat>) {
    exists j :: 0 <= j < |starts| && starts[j].pid == pid && starts[j].pipe !in settled
      && now - starts[j].startedMs >= START_TIMEOUT_MS
  }

  lemma {:induction false} PollStopsOnlyTheLate(starts: seq<Start>, i: nat, now: int, settled: set<nat>, pid: int)
    requires i <= |starts| && pid in Polled(starts, i, now, settled).killed
    ensures TooLate(starts, pid, now, settled)
    decreases |starts| - i
  {
    var s := starts[i];
    if !Pending(s, now, settled) {
      var fewer := SwapRemove(starts, i);
      if pid in Polled(fewer, i, now, settled).killed {
        PollStopsOnlyTheLate(fewer, i, now, settled, pid);
        SwapRemoved(starts, i);
        var j :| 0 <= j < |fewer| && fewer[j].pid == pid && fewer[j].pipe !in settled
          && now - fewer[j].startedMs >= START_TIMEOUT_MS;
        assert fewer[j] in starts;
      }
    } else {
      PollStopsOnlyTheLate(starts, i + 1, now, settled, pid);
    }
  }

  /** Every pending entry is in the table still, as often as it was, and nothing else is. */
  lemma {:induction false} PollKeepsExactly(starts: seq<Start>, i: nat, now: int, settled: set<nat>, e: Start)
    requires i <= |starts|
    requires forall j :: 0 <= j < i ==> Pending(starts[j], now, settled)
    ensures multiset(Polled(starts, i, now, settled).starts)[e] ==
      if Pending(e, now, settled) then multiset(starts)[e] else 0
    decreases |starts| - i
  {
    if i < |starts| {
      if !Pending(starts[i], now, settled) {
        SwapRemoved(starts, i);
        PollKeepsExactly(SwapRemove(starts, i), i, now, settled, e);
      } else {
        PollKeepsExactly(starts, i + 1, now, settled, e);
      }
    } else {
      assert e in multiset(starts) ==> e in starts;
    }
  }

  /** A start is watched if there is memory for it, with its pipe and time; otherwise just its pipe is closed. */
  lemma {:induction false} WatchedExactly(starts: seq<Start>, pid: int, pipe: nat, now: int, memory: bool)
    ensures var r := Watched(starts, pid, pipe, now, memory);
      && (pipe in r.closed <==> !memory) && |r.closed| <= 1 && r.killed == []
      && multiset(r.starts) == multiset(starts) + if memory then multiset{Start(pid, pipe, now)} else multiset{}
  {}

  function Pids(starts: seq<Start>): (r: seq<int>)
    ensures |r| == |starts|
  {
    seq(|starts|, i requires 0 <= i < |starts| => starts[i].pid)
  }

  lemma {:induction false} PidsSwapRemoved(starts: seq<Start>, i: nat)
    requires i < |starts|
    ensures multiset(Pids(starts)) == multiset(Pids(SwapRemove(starts, i))) + multiset{starts[i].pid}
  {
    assert Pids(SwapRemove(starts, i)) == SwapRemove(Pids(starts), i);
    SwapRemoved(Pids(starts), i);
    assert starts[i].pid in multiset(Pids(starts)) by {
      assert Pids(starts)[i] == starts[i].pid;
    }
  }

  /** A process is stopped exactly when it is too late, and no more often than it is watched. */
  lemma {:induction false} PollStopsTheLateOnce(starts: seq<Start>, i: nat, now: int, settled: set<nat>, pid: int)
    requires i <= |starts|
    requires forall j :: 0 <= j < i ==> Pending(starts[j], now, settled)
    ensures pid in Polled(starts, i, now, settled).killed <==> TooLate(starts, pid, now, settled)
    ensures multiset(Polled(starts, i, now, settled).killed) <= multiset(Pids(starts))
    decreases |starts| - i
  {
    if i < |starts| {
      var s := starts[i];
      if !Pending(s, now, settled) {
        var fewer := SwapRemove(starts, i);
        PidsSwapRemoved(starts, i);
        SwapRemoved(starts, i);
        PollStopsTheLateOnce(fewer, i, now, settled, pid);
        LateStays(starts, i, now, settled, pid);
        hide TooLate;
      } else {
        PollStopsTheLateOnce(starts, i + 1, now, settled, pid);
      }
    }
  }

  /** Whether a process is too late, with one entry fewer. */
  lemma {:induction false} LateStays(starts: seq<Start>, i: nat, now: int, settled: set<nat>, pid: int)
    requires i < |starts| && !Pending(starts[i], now, settled)
    ensures TooLate(starts, pid, now, settled) <==>
      TooLate(SwapRemove(starts, i), pid, now, settled) || (starts[i].pid == pid && starts[i].pipe !in settled)
  {
    var fewer := SwapRemove(starts, i);
    SwapRemoved(starts, i);
    if TooLate(fewer, pid, now, settled) {
      var j :| 0 <= j < |fewer| && fewer[j].pid == pid && fewer[j].pipe !in settled
        && now - fewer[j].startedMs >= START_TIMEOUT_MS;
      assert fewer[j] in starts;
    }
    if TooLate(starts, pid, now, settled) && !(starts[i].pid == pid && starts[i].pipe !in settled) {
      var j :| 0 <= j < |starts| && starts[j].pid == pid && starts[j].pipe !in settled
        && now - starts[j].startedMs >= START_TIMEOUT_MS;
      assert j != i;
      assert starts[j] == if j == |starts| - 1 then fewer[i] else fewer[j];
    }
  }

  /** The table, changed in place. */
  class Starts {
    var starts: seq<Start>

    constructor ()
      ensures starts == []
    {
      starts := [];
    }

    method Forget(i: nat) returns (closed: nat)
      requires i < |starts|
      modifies this
      ensures starts == SwapRemove(old(starts), i) && closed == old(starts)[i].pipe
    {
      closed := starts[i].pipe;
      starts := SwapRemove(starts, i);
    }

    method Watch(pid: int, pipe: nat, now: int, memory: bool) returns (closed: seq<nat>)
      modifies this
      ensures Outcome(starts, closed, []) == Watched(old(starts), pid, pipe, now, memory)
    {
      if !memory {
        return [pipe];
      }
      starts := starts + [Start(pid, pipe, now)];
      return [];
    }

    method Poll(now: int, settled: set<nat>) returns (closed: seq<nat>, killed: seq<int>)
      modifies this
      ensures Outcome(starts, closed, killed) == Polled(old(starts), 0, now, settled)
    {
      closed, killed := [], [];
      var i := 0;
      while i < |starts|
        invariant 0 <= i <= |starts|
        invariant var rest := Polled(starts, i, now, settled);
          Polled(old(starts), 0, now, settled) == Outcome(rest.starts, closed + rest.closed, killed + rest.killed)
        decreases |starts| - i
      {
        ghost var rest := Polled(SwapRemove(starts, i), i, now, settled);
        if starts[i].pipe in settled {
          assert closed + ([starts[i].pipe] + rest.closed) == closed + [starts[i].pipe] + rest.closed;
          var c := Forget(i);
          closed := closed + [c];
        } else if now - starts[i].startedMs >= START_TIMEOUT_MS {
          assert closed + ([starts[i].pipe] + rest.closed) == closed + [starts[i].pipe] + rest.closed;
          assert killed + ([starts[i].pid] + rest.killed) == killed + [starts[i].pid] + rest.killed;
          killed := killed + [starts[i].pid];
          var c := Forget(i);
          closed := closed + [c];
        } else {
          i := i + 1;
        }
      }
      assert closed + [] == closed && killed + [] == killed;
    }

    method Reaped(pid: int) returns (closed: seq<nat>)
      modifies this
      ensures Outcome(starts, closed, []) == ReapedStart(old(starts), pid)
    {
      closed := [];
      var i := 0;
      while i < |starts| && starts[i].pid != pid
        invariant 0 <= i <= |starts|
        invariant forall j :: 0 <= j < i ==> starts[j].pid != pid
      {
        i := i + 1;
      }
      assert i == StartOf(starts, pid);
      if i < |starts| {
        var c := Forget(i);
        closed := [c];
      }
    }
  }
}
