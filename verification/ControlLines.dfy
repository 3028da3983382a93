/**
 The control channel's lines, read in two ways: the C srv receives chunks into an accumulator and cuts
 complete lines out of it, and the ESP32 reads one byte at a time.
 */
module ControlLines {
  import opened Wrappers
  import opened Chunks
  import opened CtrStream

  const NL: Byte := 10
  const NUL: Byte := 0
  const CAP: nat := 8192
  const RECEIVE_MAX: nat := 4095
  const MSG_SIZE: nat := 384

  predicate Holds(s: seq<Byte>, b: Byte) {
    exists i :: 0 <= i < |s| && s[i] == b
  }

  /** The requests a stream carries so far, and the line that isn't terminated yet. */
  datatype Scan = Scan(requests: seq<seq<Byte>>, tail: seq<Byte>)

  function Scanned(from: Scan, s: seq<Byte>): Scan
    decreases |s|
  {
    if s == [] then from
    else
      var r := Scanned(from, s[..|s| - 1]);
      if s[|s| - 1] != NL then r.(tail := r.tail + [s[|s| - 1]])
      else if r.tail == [] then r
      else Scan(r.requests + [r.tail], [])
  }

  const NOTHING: Scan := Scan([], [])

  /** A stream that is the lines ls, each terminated, and then tail. */
  function Unlines(ls: seq<seq<Byte>>, tail: seq<Byte>): seq<Byte> {
    if ls == [] then tail else ls[0] + [NL] + Unlines(ls[1..], tail)
  }

  function NonEmpty(ls: seq<seq<Byte>>): seq<seq<Byte>> {
    if ls == [] then [] else (if ls[0] == [] then [] else [ls[0]]) + NonEmpty(ls[1..])
  }

  lemma {:induction false} ScannedSplit(from: Scan, a: seq<Byte>, b: seq<Byte>)
    ensures Scanned(from, a + b) == Scanned(Scanned(from, a), b)
    decreases |b|
  {
    if b == [] {
      assert a + b == a;
    } else {
      ScannedSplit(from, a, b[..|b| - 1]);
      assert (a + b)[..|a + b| - 1] == a + b[..|b| - 1];
    }
  }

  lemma {:induction false} ScannedLine(from: Scan, line: seq<Byte>)
    requires !Holds(line, NL)
    ensures Scanned(from, line) == from.(tail := from.tail + line)
    decreases |line|
  {
    if line != [] {
      assert forall i :: 0 <= i < |line| - 1 ==> line[..|line| - 1][i] == line[i];
      ScannedLine(from, line[..|line| - 1]);
      assert line == line[..|line| - 1] + [line[|line| - 1]];
      assert from.tail + line == from.tail + line[..|line| - 1] + [line[|line| - 1]];
    } else {
      assert from.tail + line == from.tail;
    }
  }

  lemma {:induction false} ScannedWholeLine(found: seq<seq<Byte>>, line: seq<Byte>)
    requires !Holds(line, NL)
    ensures Scanned(Scan(found, []), line + [NL])
         == Scan(if line == [] then found else found + [line], [])
  {
    ScannedLine(Scan(found, []), line);
    assert [] + line == line;
    assert (line + [NL])[..|line|] == line;
  }

  /** What a scan finds is exactly the non-empty terminated lines, in order, and the unterminated rest. */
  lemma {:induction false} ScanFindsLines(found: seq<seq<Byte>>, ls: seq<seq<Byte>>, tail: seq<Byte>)
    requires !Holds(tail, NL) && forall i :: 0 <= i < |ls| ==> !Holds(ls[i], NL)
    ensures Scanned(Scan(found, []), Unlines(ls, tail)) == Scan(found + NonEmpty(ls), tail)
    decreases |ls|
  {
    hide Scanned, Holds;
    if ls == [] {
      ScannedLine(Scan(found, []), tail);
      assert [] + tail == tail && found + NonEmpty(ls) == found;
    } else {
      var more := if ls[0] == [] then found else found + [ls[0]];
      assert Unlines(ls, tail) == ls[0] + [NL] + Unlines(ls[1..], tail);
      NonEmptyStep(found, ls);
      hide Unlines, NonEmpty;
      ScannedSplit(Scan(found, []), ls[0] + [NL], Unlines(ls[1..], tail));
      ScannedWholeLine(found, ls[0]);
      ScanFindsLines(more, ls[1..], tail);
    }
  }

  lemma {:induction false} NonEmptyStep(found: seq<seq<Byte>>, ls: seq<seq<Byte>>)
    requires ls != []
    ensures found + NonEmpty(ls) == (if ls[0] == [] then found else found + [ls[0]]) + NonEmpty(ls[1..])
  {}

  lemma {:induction false} TailHoldsNoNewline(from: Scan, s: seq<Byte>)
    requires !Holds(from.tail, NL)
    ensures !Holds(Scanned(from, s).tail, NL)
    decreases |s|
  {
    if s != [] {
      TailHoldsNoNewline(from, s[..|s| - 1]);
    }
  }

  // ---- The C srv ----

  function UpToNul(s: seq<Byte>): (r: seq<Byte>)
    ensures r <= s && !Holds(r, NUL)
    ensures !Holds(s, NUL) ==> r == s
  {
    if s == [] || s[0] == NUL then [] else [s[0]] + UpToNul(s[1..])
  }

  /** How much of s is complete lines. */
  function CompleteLen(s: seq<Byte>): (n: nat)
    ensures n <= |s|
    ensures n > 0 ==> s[n - 1] == NL
    ensures forall i :: n <= i < |s| ==> s[i] != NL
  {
    if s == [] then 0
    else if s[|s| - 1] == NL then |s|
    else CompleteLen(s[..|s| - 1])
  }

  /** strtok_r with a newline for its only delimiter, called until it finds no more. */
  function Tokens(s: seq<Byte>): seq<seq<Byte>> {
    Scanned(NOTHING, s + [NL]).requests
  }

  /** One receive: the new accumulator, and the requests handed on. */
  function Received(acc: seq<Byte>, chunk: seq<Byte>): Scan {
    var all := (if |acc| + |chunk| > CAP then [] else acc) + chunk;
    var n := CompleteLen(all);
    if n == 0 then Scan([], all) else Scan(Tokens(UpToNul(all[..n])), all[n..])
  }

  function ReceivedAll(acc: seq<Byte>, chunks: seq<seq<Byte>>): Scan
    decreases |chunks|
  {
    if chunks == [] then Scan([], acc)
    else
      var before := ReceivedAll(acc, chunks[..|chunks| - 1]);
      var r := Received(before.tail, chunks[|chunks| - 1]);
      Scan(before.requests + r.requests, r.tail)
  }

  lemma {:induction false} RequestsAccumulate(found: seq<seq<Byte>>, tail: seq<Byte>, s: seq<Byte>)
    ensures Scanned(Scan(found, tail), s)
         == Scan(found + Scanned(Scan([], tail), s).requests, Scanned(Scan([], tail), s).tail)
    decreases |s|
  {
    if s == [] {
      assert found + [] == found;
    } else {
      RequestsAccumulate(found, tail, s[..|s| - 1]);
    }
  }

  lemma {:induction false} CompleteScans(lines: seq<Byte>, rest: seq<Byte>)
    requires !Holds(rest, NL) && lines != [] && lines[|lines| - 1] == NL
    ensures Scanned(NOTHING, lines + rest) == Scan(Tokens(lines), rest)
  {
    ScannedSplit(NOTHING, lines, rest);
    var done := Scanned(NOTHING, lines);
    assert done.tail == [];
    assert (lines + [NL])[..|lines|] == lines;
    ScannedLine(done, rest);
    assert [] + rest == rest;
  }

  lemma {:induction false} HoldsSplit(a: seq<Byte>, b: seq<Byte>, x: Byte)
    ensures Holds(a + b, x) <==> Holds(a, x) || Holds(b, x)
  {
    if Holds(a, x) {
      var i :| 0 <= i < |a| && a[i] == x;
      assert (a + b)[i] == x;
    }
    if Holds(b, x) {
      var i :| 0 <= i < |b| && b[i] == x;
      assert (a + b)[|a| + i] == x;
    }
  }

  lemma {:induction false} ScannedTail(acc: seq<Byte>, chunk: seq<Byte>)
    requires !Holds(acc, NL)
    ensures Scanned(Scan([], acc), chunk) == Scanned(NOTHING, acc + chunk)
  {
    hide Scanned, Holds;
    ScannedLine(NOTHING, acc);
    assert [] + acc == acc;
    ScannedSplit(NOTHING, acc, chunk);
  }

  lemma {:induction false} CompleteParts(s: seq<Byte>)
    ensures !Holds(s[CompleteLen(s)..], NL)
    ensures CompleteLen(s) == 0 ==> !Holds(s, NL)
  {}

  /** Without NULs and without an overflow, a receive does what scanning its chunk would do. */
  lemma {:induction false} ReceivedScans(acc: seq<Byte>, chunk: seq<Byte>)
    requires !Holds(acc, NL) && !Holds(acc, NUL) && !Holds(chunk, NUL) && |acc| + |chunk| <= CAP
    ensures Received(acc, chunk) == Scanned(Scan([], acc), chunk)
  {
    hide CompleteLen, UpToNul, Tokens, Scanned, Holds;
    var all := acc + chunk;
    CompleteParts(all);
    ScannedTail(acc, chunk);
    HoldsSplit(acc, chunk, NUL);
    var n := CompleteLen(all);
    if n == 0 {
      ScannedLine(NOTHING, all);
      assert [] + all == all;
    } else {
      var lines, rest := all[..n], all[n..];
      assert all == lines + rest;
      HoldsSplit(lines, rest, NUL);
      CompleteScans(lines, rest);
    }
  }

  lemma {:induction false} ReceivedTail(acc: seq<Byte>, chunk: seq<Byte>)
    requires |acc| + |chunk| <= CAP
    ensures var all, tail := acc + chunk, Received(acc, chunk).tail;
      |tail| <= |all| && tail == all[|all| - |tail|..] && !Holds(tail, NL)
  {
    CompleteParts(acc + chunk);
    hide CompleteLen, UpToNul, Tokens, Holds;
  }

  /** What doesn't fit the accumulator with what was there is taken as if nothing had been. */
  lemma {:induction false} OverflowDiscards(acc: seq<Byte>, chunk: seq<Byte>)
    requires |chunk| <= CAP
    ensures |acc| + |chunk| > CAP ==> Received(acc, chunk) == Received([], chunk)
  {
    hide CompleteLen, UpToNul, Tokens;
  }

  /** The accumulator always has room for what a receive leaves, which is unterminated. */
  lemma {:induction false} ReceivedFits(acc: seq<Byte>, chunk: seq<Byte>)
    requires |acc| <= CAP && |chunk| <= CAP
    ensures |Received(acc, chunk).tail| <= CAP && !Holds(Received(acc, chunk).tail, NL)
  {
    if |acc| + |chunk| > CAP {
      OverflowDiscards(acc, chunk);
      ReceivedTail([], chunk);
    } else {
      ReceivedTail(acc, chunk);
    }
    hide Received, Holds;
  }

  /** No receive finds the accumulator too full. */
  predicate Fits(chunks: seq<seq<Byte>>) {
    forall i :: 0 <= i < |chunks| ==>
      |Scanned(NOTHING, Flatten(chunks[..i])).tail| + |chunks[i]| <= CAP
  }

  /**
   However a stream without NULs is cut into receives, the requests handed on are exactly its non-empty
   terminated lines, in order, and the accumulator holds exactly the rest.
   */
  lemma {:induction false} AnyCutGivesTheLines(chunks: seq<seq<Byte>>)
    requires !Holds(Flatten(chunks), NUL) && Fits(chunks)
    ensures ReceivedAll([], chunks) == Scanned(NOTHING, Flatten(chunks))
    decreases |chunks|
  {
    if chunks != [] {
      var init, last := chunks[..|chunks| - 1], chunks[|chunks| - 1];
      FlattenSplit(chunks);
      var s := Flatten(init);
      HoldsSplit(s, last, NUL);
      assert forall i :: 0 <= i < |init| ==> init[..i] == chunks[..i];
      assert |Scanned(NOTHING, Flatten(chunks[..|init|])).tail| + |last| <= CAP;
      AnyCutGivesTheLines(init);
      var before := Scanned(NOTHING, s);
      TailHoldsNoNewline(NOTHING, s);
      TailIsSuffix(NOTHING, s);
      assert !Holds(before.tail, NUL);
      ReceivedScans(before.tail, last);
      ScannedSplit(NOTHING, s, last);
      RequestsAccumulate(before.requests, before.tail, last);
    }
  }

  lemma {:induction false} TailIsSuffix(from: Scan, s: seq<Byte>)
    requires from.tail == []
    ensures var t := Scanned(from, s).tail; |t| <= |s| && t == s[|s| - |t|..]
    decreases |s|
  {
    if s != [] {
      TailIsSuffix(from, s[..|s| - 1]);
    }
  }

  /** Lines of at most CAP - RECEIVE_MAX bytes always fit, whatever the cut. */
  lemma {:induction false} ShortLinesFit(chunks: seq<seq<Byte>>)
    requires forall i :: 0 <= i < |chunks| ==> |chunks[i]| <= RECEIVE_MAX
    requires forall n :: 0 <= n <= |Flatten(chunks)| ==>
      |Scanned(NOTHING, Flatten(chunks)[..n]).tail| <= CAP - RECEIVE_MAX
    ensures Fits(chunks)
  {
    forall i | 0 <= i < |chunks|
      ensures |Scanned(NOTHING, Flatten(chunks[..i])).tail| + |chunks[i]| <= CAP
    {
      FlattenPrefix(chunks, i);
    }
  }

  lemma {:induction false} FlattenPrefix(chunks: seq<seq<Byte>>, i: nat)
    requires i <= |chunks|
    ensures |Flatten(chunks[..i])| <= |Flatten(chunks)|
    ensures Flatten(chunks[..i]) == Flatten(chunks)[..|Flatten(chunks[..i])|]
    decreases |chunks|
  {
    if i == |chunks| {
      assert chunks[..i] == chunks;
    } else {
      FlattenPrefix(chunks[..|chunks| - 1], i);
      FlattenSplit(chunks);
      assert chunks[..|chunks| - 1][..i] == chunks[..i];
    }
  }

  /** The accumulator and the staging buffer of the control loop. */
  class LineBuffer {
    const lineBuf: array<Byte>
    const work: array<Byte>
    var lineLen: nat

    ghost predicate Valid()
      reads this
    {
      lineBuf.Length == CAP && work.Length == CAP + 1 && lineBuf != work && lineLen <= CAP
    }

    ghost function Contents(): seq<Byte>
      reads this, lineBuf
      requires Valid()
    {
      lineBuf[..lineLen]
    }

    constructor ()
      ensures Valid() && Contents() == [] && fresh(lineBuf) && fresh(work)
    {
      lineBuf := new Byte[CAP];
      work := new Byte[CAP + 1];
      lineLen := 0;
    }

    method Append(buffer: array<Byte>, len: nat)
      requires Valid() && lineLen + len <= CAP && len <= buffer.Length && buffer != lineBuf
      modifies this`lineLen, lineBuf
      ensures Valid() && Contents() == old(Contents()) + buffer[..len]
    {
      forall i | 0 <= i < len { lineBuf[lineLen + i] := buffer[i]; }
      lineLen := lineLen + len;
    }

    /** Moves the first n bytes to work, as a string, and the rest to the front. */
    method Stage(n: nat)
      requires Valid() && n <= lineLen
      modifies this`lineLen, lineBuf, work
      ensures Valid() && Contents() == old(Contents())[n..]
      ensures work[..n] == old(Contents())[..n] && work[n] == NUL
    {
      forall i | 0 <= i < n { work[i] := lineBuf[i]; }
      work[n] := NUL;
      forall i | 0 <= i < lineLen - n { lineBuf[i] := lineBuf[n + i]; }
      lineLen := lineLen - n;
    }

    /** Takes in the len bytes just received and hands on the requests they complete. */
    method Receive(buffer: array<Byte>, len: nat) returns (requests: seq<seq<Byte>>)
      requires Valid() && len <= RECEIVE_MAX && len <= buffer.Length && buffer != lineBuf && buffer != work
      modifies this`lineLen, lineBuf, work
      ensures Valid()
      ensures Scan(requests, Contents()) == Received(old(Contents()), old(buffer[..len]))
    {
      hide Tokens, UpToNul, CompleteLen;
      if lineLen + len > CAP {
        lineLen := 0;
      }
      Append(buffer, len);
      var completeLen := FindComplete();
      requests := [];
      if completeLen > 0 {
        Stage(completeLen);
        requests := ProcessRequests(completeLen);
      }
    }

    method FindComplete() returns (n: nat)
      requires Valid()
      ensures n == CompleteLen(Contents())
    {
      var j := lineLen;
      while j > 0 && lineBuf[j - 1] != NL
        invariant 0 <= j <= lineLen
        invariant CompleteLen(lineBuf[..lineLen]) == CompleteLen(lineBuf[..j])
      {
        assert lineBuf[..j][..j - 1] == lineBuf[..j - 1];
        j := j - 1;
      }
      n := j;
    }

    /** Where the token that starts at start ends: at a newline or at the end of the string. */
    method TokenEnd(start: nat, ghost s: seq<Byte>) returns (pos: nat)
      requires start <= |s| < work.Length && work[|s|] == NUL && work[..|s|] == s && !Holds(s, NUL)
      ensures start <= pos <= |s| && !Holds(s[start..pos], NL)
      ensures work[pos] == if pos < |s| then NL else NUL
      ensures pos < |s| ==> s[pos] == NL
    {
      pos := start;
      while work[pos] != NUL && work[pos] != NL
        invariant start <= pos <= |s| && !Holds(s[start..pos], NL)
        decreases |s| - pos
      {
        assert s[start..pos + 1] == s[start..pos] + [s[pos]];
        pos := pos + 1;
      }
    }

    /** The token that starts at start, where it ends, and whether the string goes on after it. */
    method NextToken(start: nat, ghost s: seq<Byte>) returns (stop: nat, token: seq<Byte>, more: bool)
      requires start <= |s| < work.Length && work[|s|] == NUL && work[..|s|] == s && !Holds(s, NUL)
      ensures start <= stop <= |s| && token == s[start..stop] && !Holds(token, NL)
      ensures more == (stop < |s|) && (more ==> s[stop] == NL)
    {
      stop := TokenEnd(start, s);
      assert s[start..stop] == work[..|s|][start..stop] == work[start..stop];
      token := work[start..stop];
      more := work[stop] != NUL;
    }

    /** Cuts the string in work, which ends at its first NUL, at its newlines. */
    method ProcessRequests(end: nat) returns (requests: seq<seq<Byte>>)
      requires end < work.Length && work[end] == NUL
      ensures requests == Tokens(UpToNul(work[..end]))
    {
      ghost var s := UpToNul(work[..end]);
      UpToNulEnds(work[..end]);
      assert work[|s|] == NUL && work[..|s|] == s && !Holds(s, NUL);
      assert Scanned(NOTHING, s[..0]) == NOTHING;
      hide UpToNul, Scanned, Tokens, Holds;
      requests := [];
      var pos, more := 0, true;
      while more
        invariant 0 <= pos <= |s| && (more ==> Scanned(NOTHING, s[..pos]) == Scan(requests, []))
        invariant !more ==> requests == Tokens(s)
        decreases |s| - pos, more
      {
        var stop, token;
        stop, token, more := NextToken(pos, s);
        TokenScans(s, pos, stop);
        if token != [] {
          requests := requests + [token];
        }
        pos := if more then stop + 1 else stop;
      }
    }
  }

  /** Scanning one more token, up to a newline or the end of the string. */
  lemma {:induction false} TokenScans(s: seq<Byte>, pos: nat, end: nat)
    requires pos <= end <= |s| && !Holds(s[pos..end], NL) && (end < |s| ==> s[end] == NL)
    requires Scanned(NOTHING, s[..pos]).tail == []
    ensures var found := Scanned(NOTHING, s[..pos]).requests;
      var more := if pos == end then found else found + [s[pos..end]];
      if end < |s| then Scanned(NOTHING, s[..end + 1]) == Scan(more, []) else Tokens(s) == more
  {
    var t := if end < |s| then s[..end + 1] else s + [NL];
    assert t == s[..pos] + (s[pos..end] + [NL]);
    ScannedSplit(NOTHING, s[..pos], s[pos..end] + [NL]);
    ScannedWholeLine(Scanned(NOTHING, s[..pos]).requests, s[pos..end]);
  }

  lemma {:induction false} UpToNulEnds(s: seq<Byte>)
    ensures var r := UpToNul(s); |r| == |s| || s[|r|] == NUL
  {
    if s != [] {
      UpToNulEnds(s[1..]);
    }
  }

  // ---- The ESP32 ----

  function Truncated(line: seq<Byte>): seq<Byte> {
    if |line| < MSG_SIZE then line else line[..MSG_SIZE - 1]
  }

  /** A line of up to 383 bytes is whole, and of a longer one just its first 383 are left. */
  lemma {:induction false} TruncatedExactly(line: seq<Byte>)
    ensures Truncated(line) <= line && |Truncated(line)| == if |line| < 383 then |line| else 383
  {}

  function TruncatedAll(ls: seq<seq<Byte>>): (r: seq<seq<Byte>>) {
    seq(|ls|, i requires 0 <= i < |ls| => Truncated(ls[i]))
  }

  /** The buffer that collects a line a byte at a time. */
  class MessageBuffer {
    const msg: array<Byte>
    var pos: nat

    ghost predicate Valid()
      reads this
    {
      msg.Length == MSG_SIZE && pos < MSG_SIZE
    }

    constructor ()
      ensures Valid() && pos == 0 && fresh(msg)
    {
      msg := new Byte[MSG_SIZE];
      pos := 0;
    }

    /** Takes one decoded byte; a newline ends the line, which is handed on unless it is empty. */
    method Take(b: Byte) returns (line: Option<seq<Byte>>)
      requires Valid()
      modifies this`pos, msg
      ensures Valid()
      ensures b != NL ==> line == None && msg[..pos] == Truncated(old(msg[..pos]) + [b])
      ensures b == NL ==> pos == 0 && line == if old(pos) == 0 then None else Some(old(msg[..pos]))
    {
      line := None;
      if b == NL {
        msg[pos] := NUL;
        if pos > 0 {
          line := Some(msg[..pos]);
        }
        pos := 0;
      } else if pos < MSG_SIZE - 1 {
        msg[pos] := b;
        pos := pos + 1;
      }
    }

    /**
     Reads a whole stream: what is handed on is each line the C srv would hand on, cut to what the
     buffer holds.
     */
    method ReadAll(stream: seq<Byte>) returns (lines: seq<seq<Byte>>)
      requires Valid() && pos == 0
      modifies this`pos, msg
      ensures Valid()
      ensures lines == TruncatedAll(Scanned(NOTHING, stream).requests)
      ensures msg[..pos] == Truncated(Scanned(NOTHING, stream).tail)
    {
      lines := [];
      for i := 0 to |stream|
        invariant Valid()
        invariant lines == TruncatedAll(Scanned(NOTHING, stream[..i]).requests)
        invariant msg[..pos] == Truncated(Scanned(NOTHING, stream[..i]).tail)
      {
        ghost var before := Scanned(NOTHING, stream[..i]);
        assert stream[..i + 1][..i] == stream[..i];
        var line := Take(stream[i]);
        if line.Some? {
          lines := lines + [line.value];
        }
      }
      assert stream[..|stream|] == stream;
    }
  }

  /** For lines that fit the ESP32's buffer, both readers hand on the same requests. */
  lemma {:induction false} BothReadersAgree(chunks: seq<seq<Byte>>)
    requires !Holds(Flatten(chunks), NUL) && Fits(chunks)
    requires forall i :: 0 <= i < |Scanned(NOTHING, Flatten(chunks)).requests| ==>
      |Scanned(NOTHING, Flatten(chunks)).requests[i]| < MSG_SIZE
    ensures TruncatedAll(Scanned(NOTHING, Flatten(chunks)).requests) == ReceivedAll([], chunks).requests
  {
    AnyCutGivesTheLines(chunks);
  }
}
