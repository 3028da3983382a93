/**
 How the daemon tells that a srv has started: it looks for a line of text in what the srv writes to a pipe, which
 comes in any pieces, with a buffer that it starts over whenever it is full.
 */
module ReadyPipe {
  import opened Chunks
  import opened Text

  const NUL: char := '\0'
  const MARKER: string := "rv started successfully"
  const SEEN_SIZE: nat := 48
  const WINDOW: nat := SEEN_SIZE - 1

  predicate OccursAt(s: string, i: nat) {
    i + |MARKER| <= |s| && s[i..i + |MARKER|] == MARKER
  }

  /** Whether the string in a buffer, which ends at its first NUL, holds the line. */
  predicate Reported(s: string) {
    exists i :: 0 <= i < |s| && OccursAt(s[..Find(s, NUL)], i)
  }

  /** What is in the buffer, and whether the line has been found in it. */
  datatype Watch = Watch(seen: string, settled: bool)

  /** One read. */
  function Fed(w: Watch, chunk: string): Watch {
    if w.settled then w
    else
      var all := w.seen + chunk;
      if Reported(all) then Watch(all, true) else Watch(if |all| == WINDOW then "" else all, false)
  }

  function FedAll(chunks: seq<string>): Watch
    decreases |chunks|
  {
    if chunks == [] then Watch("", false) else Fed(FedAll(chunks[..|chunks| - 1]), chunks[|chunks| - 1])
  }

  /** Reads take no more than the buffer has room for. */
  predicate ReadsFit(chunks: seq<string>)
    decreases |chunks|
  {
    chunks == [] ||
    (ReadsFit(chunks[..|chunks| - 1]) && var w := FedAll(chunks[..|chunks| - 1]);
    !w.settled ==> 0 < |chunks[|chunks| - 1]| <= WINDOW - |w.seen|)
  }

  /** The part of a stream that is in the buffer together, from a multiple of its size on. */
  function Block(s: string, k: nat): string
    requires k * WINDOW <= |s|
  {
    s[k * WINDOW..if (k + 1) * WINDOW <= |s| then (k + 1) * WINDOW else |s|]
  }

  /** Some block of the stream holds the whole line. */
  ghost predicate InSomeBlock(s: string) {
    exists k: nat :: k * WINDOW < |s| && Reported(Block(s, k))
  }

  lemma {:induction false} FindInLonger(s: string, t: string, c: char)
    ensures Find(s, c) < |s| ==> Find(s + t, c) == Find(s, c)
    ensures Find(s + t, c) >= Find(s, c)
  {
    if s != "" {
      assert (s + t)[1..] == s[1..] + t;
      FindInLonger(s[1..], t, c);
    }
  }

  lemma {:induction false} ReportedStays(s: string, t: string)
    requires Reported(s)
    ensures Reported(s + t)
  {
    FindInLonger(s, t, NUL);
    var shorter, longer := s[..Find(s, NUL)], (s + t)[..Find(s + t, NUL)];
    var i :| 0 <= i < |s| && OccursAt(shorter, i);
    assert shorter == longer[..|shorter|];
    assert longer[i..i + |MARKER|] == shorter[i..i + |MARKER|];
    assert OccursAt(longer, i);
  }

  lemma {:induction false} BlocksStay(s: string, t: string)
    ensures InSomeBlock(s) ==> InSomeBlock(s + t)
  {
    hide Reported;
    if InSomeBlock(s) {
      var k: nat :| k * WINDOW < |s| && Reported(Block(s, k));
      var before := if (k + 1) * WINDOW <= |s| then (k + 1) * WINDOW else |s|;
      var end := if (k + 1) * WINDOW <= |s + t| then (k + 1) * WINDOW else |s + t|;
      assert Block(s + t, k) == Block(s, k) + (s + t)[before..end];
      ReportedStays(Block(s, k), (s + t)[before..end]);
    }
  }

  /** The block that more of the stream goes on in is the only one that can come to hold the line by it. */
  lemma {:induction false} NewBlock(s: string, t: string, b: nat)
    requires b * WINDOW <= |s| < (b + 1) * WINDOW && 0 < |t| && |s + t| <= (b + 1) * WINDOW
    requires !InSomeBlock(s)
    ensures InSomeBlock(s + t) <==> Reported(s[b * WINDOW..] + t)
  {
    var u := s + t;
    assert Block(u, b) == s[b * WINDOW..] + t;
    forall k: nat | k * WINDOW < |u| && k != b ensures !Reported(Block(u, k)) {
      assert k < b && (k + 1) * WINDOW <= b * WINDOW <= |s|;
      assert Block(u, k) == Block(s, k);
      assert k * WINDOW < |s|;
    }
  }

  /** The line has been found exactly when it is in some block of s; until then block b has what is in the buffer. */
  ghost predicate Tracks(w: Watch, s: string, b: nat) {
    && (w.settled <==> InSomeBlock(s))
    && (!w.settled ==> b * WINDOW <= |s| < (b + 1) * WINDOW && w.seen == s[b * WINDOW..])
  }

  lemma {:induction false} FedTracks(w: Watch, s: string, b: nat, chunk: string) returns (next: nat)
    requires Tracks(w, s, b) && (!w.settled ==> 0 < |chunk| <= WINDOW - |w.seen|)
    ensures Tracks(Fed(w, chunk), s + chunk, next)
  {
    hide InSomeBlock, Reported;
    next := b;
    if w.settled {
      BlocksStay(s, chunk);
    } else {
      NewBlock(s, chunk, b);
      assert w.seen + chunk == (s + chunk)[b * WINDOW..];
      if |w.seen + chunk| == WINDOW {
        next := b + 1;
        assert (s + chunk)[next * WINDOW..] == "";
      }
    }
  }

  /**
   However the stream is cut into reads, the line is found exactly when it is within one block of the stream's;
   and until then the buffer holds what has come of the block that isn't full.
   */
  lemma {:induction false} FoundIffInSomeBlock(chunks: seq<string>) returns (b: nat)
    requires ReadsFit(chunks)
    ensures Tracks(FedAll(chunks), Flatten(chunks), b)
    decreases |chunks|
  {
    b := 0;
    if chunks != [] {
      var init, last := chunks[..|chunks| - 1], chunks[|chunks| - 1];
      b := FoundIffInSomeBlock(init);
      FlattenSplit(chunks);
      hide Tracks, Fed, Flatten;
      b := FedTracks(FedAll(init), Flatten(init), b, last);
    }
  }

  /** A line that the srv writes before much else is found, whatever the cut, once it is there. */
  lemma {:induction false} EarlyReportIsFound(chunks: seq<string>, before: string, after: string)
    requires ReadsFit(chunks) && Flatten(chunks) == before + MARKER + after
    requires NUL !in before && |before| + |MARKER| <= WINDOW
    ensures FedAll(chunks).settled
  {
    var s := Flatten(chunks);
    var block := Block(s, 0);
    assert block == s[..|block|] && |block| >= |before| + |MARKER|;
    assert s[..|before|] == before && s[|before|..|before| + |MARKER|] == MARKER;
    assert block[..|before|] == before && block[|before|..|before| + |MARKER|] == MARKER;
    var n := Find(block, NUL);
    assert block[..|before| + |MARKER|] == before + MARKER;
    MarkerHasNoNul();
    FoundPast(block, |before| + |MARKER|);
    assert block[..n][|before|..|before| + |MARKER|] == MARKER;
    assert OccursAt(block[..n], |before|);
    assert Reported(block);
    assert 0 * WINDOW < |s|;
    var b := FoundIffInSomeBlock(chunks);
  }

  /** The line starts too late in its block to end there. */
  predicate Straddles(i: nat) {
    i % WINDOW + |MARKER| > WINDOW
  }

  lemma {:induction false} PlaceInBlock(k: nat, i: nat)
    requires i + |MARKER| <= WINDOW
    ensures !Straddles(k * WINDOW + i)
  {
    MarkerHasNoNul();
  }

  lemma {:induction false} SliceOccurs(s: string, lo: nat, hi: nat, i: nat)
    requires lo <= hi <= |s|
    ensures OccursAt(s[lo..hi], i) ==> OccursAt(s, lo + i)
  {
    if i + |MARKER| <= hi - lo {
      SliceOfSlice(s, lo, hi, i, |MARKER|);
    }
  }

  lemma {:induction false} SliceOfSlice(s: string, lo: nat, hi: nat, i: nat, n: nat)
    requires lo <= hi <= |s| && i + n <= hi - lo
    ensures s[lo..hi][i..i + n] == s[lo + i..lo + i + n]
  {
    var a, b := s[lo..hi][i..i + n], s[lo + i..lo + i + n];
    assert |a| == |b| == n;
    assert forall j :: 0 <= j < n ==> a[j] == b[j];
  }

  lemma {:induction false} BlockOccurs(s: string, k: nat, i: nat)
    requires k * WINDOW < |s| && OccursAt(Block(s, k)[..Find(Block(s, k), NUL)], i)
    ensures OccursAt(s, k * WINDOW + i) && i + |MARKER| <= WINDOW
  {
    var block := Block(s, k);
    SliceOccurs(block, 0, Find(block, NUL), i);
    var end := if (k + 1) * WINDOW <= |s| then (k + 1) * WINDOW else |s|;
    assert block[0..Find(block, NUL)] == block[..Find(block, NUL)] && block == s[k * WINDOW..end];
    SliceOccurs(s, k * WINDOW, end, i);
  }

  lemma {:induction false} BlockIsMissed(s: string, k: nat)
    requires k * WINDOW < |s| && forall i: nat :: OccursAt(s, i) ==> Straddles(i)
    ensures !Reported(Block(s, k))
  {
    var block := Block(s, k);
    forall i: nat | i < |block| ensures !OccursAt(block[..Find(block, NUL)], i) {
      if OccursAt(block[..Find(block, NUL)], i) {
        BlockOccurs(s, k, i);
        PlaceInBlock(k, i);
      }
    }
  }

  /** A line that is there only across the ends of blocks is never found, whatever the cut. */
  lemma {:induction false} StraddlingIsMissed(chunks: seq<string>)
    requires ReadsFit(chunks) && forall i: nat :: OccursAt(Flatten(chunks), i) ==> Straddles(i)
    ensures !FedAll(chunks).settled
  {
    var s := Flatten(chunks);
    var b := FoundIffInSomeBlock(chunks);
    hide OccursAt, Straddles, Flatten, ReadsFit, FedAll, Block, Reported;
    forall k: nat | k * WINDOW < |s| ensures !Reported(Block(s, k)) {
      BlockIsMissed(s, k);
    }
  }

  /** Such an output: 30 other characters, and then the line, which comes in two reads. */
  lemma {:induction false} LateReportIsMissed(before: string)
    requires |before| == 30 && 'r' !in before
    ensures var s := before + MARKER;
      ReadsFit([s[..WINDOW], s[WINDOW..]]) && !FedAll([s[..WINDOW], s[WINDOW..]]).settled
  {
    MarkerHasNoNul();
    var s := before + MARKER;
    var first, second := s[..WINDOW], s[WINDOW..];
    assert MARKER[0] == 'r';
    forall i: nat | OccursAt(s, i) ensures i == 30 {
      assert s[i] == s[i..i + |MARKER|][0] == 'r';
    }
    forall i: nat ensures !OccursAt(first, i) {
      SliceOccurs(s, 0, WINDOW, i);
      assert s[0..WINDOW] == first;
    }
    hide OccursAt;
    FirstIsMissed(first);
    assert [first, second][..1] == [first] && Flatten([first, second]) == s by {
      FlattenSplit([first, second]);
      FlattenSplit([first]);
      assert [first, second][..1] == [first] && [first][..0] == [] && first + second == s;
    }
    StraddlingIsMissed([first, second]);
  }

  lemma {:induction false} FirstIsMissed(first: string)
    requires |first| == WINDOW && forall i: nat :: !OccursAt(first, i)
    ensures ReadsFit([first]) && FedAll([first]) == Watch("", false)
  {
    assert [first][..0] == [] && "" + first == first;
    var n := Find(first, NUL);
    forall i: nat | i < |first| ensures !OccursAt(first[..n], i) {
      SliceOccurs(first, 0, n, i);
      assert first[0..n] == first[..n];
    }
    assert !Reported(first);
    hide Reported;
    assert FedAll([first]) == Fed(FedAll([]), first);
  }

  lemma {:induction false} FoundPast(s: string, n: nat)
    requires n <= |s| && NUL !in s[..n]
    ensures Find(s, NUL) >= n
  {}

  lemma {:induction false} MarkerHasNoNul()
    ensures NUL !in MARKER && |MARKER| == 23
  {}

  /** The buffer, filled by each read from where the last one ended. */
  class Watcher {
    const seen: array<char>
    var seenLen: nat
    var settled: bool

    ghost predicate Valid()
      reads this, seen
    {
      seen.Length == SEEN_SIZE && seenLen <= SEEN_SIZE - 1 && (!settled ==> seenLen < SEEN_SIZE - 1)
    }

    ghost function View(): Watch
      reads this, seen
      requires Valid()
    {
      Watch(seen[..seenLen], settled)
    }

    constructor ()
      ensures Valid() && View() == Watch("", false) && fresh(seen)
    {
      seen := new char[SEEN_SIZE];
      seenLen, settled := 0, false;
    }

    /** Takes in what a read returned. */
    method Take(chunk: string)
      requires Valid() && !settled && 0 < |chunk| <= SEEN_SIZE - 1 - seenLen
      modifies this, seen
      ensures Valid() && View() == Fed(old(View()), chunk)
    {
      hide Reported;
      ghost var before := seen[..seenLen];
      for k := 0 to |chunk|
        invariant seenLen == old(seenLen) && settled == old(settled)
        invariant seen[..seenLen] == before && seen[seenLen..seenLen + k] == chunk[..k]
      {
        seen[seenLen + k] := chunk[k];
      }
      assert seen[..seenLen + |chunk|] == before + chunk;
      seenLen := seenLen + |chunk|;
      seen[seenLen] := NUL;
      var found := StrStr(seen[..seenLen]);
      if found {
        settled := true;
      } else if seenLen == SEEN_SIZE - 1 {
        seenLen := 0;
      }
    }

    /** strstr for the line. */
    static method StrStr(s: string) returns (found: bool)
      ensures found == Reported(s)
    {
      var n := Find(s, NUL);
      found := false;
      var i := 0;
      while i < n && !found
        invariant 0 <= i <= n
        invariant found <==> exists j :: 0 <= j < i && OccursAt(s[..n], j)
      {
        found := i + |MARKER| <= n && s[i..i + |MARKER|] == MARKER;
        assert i + |MARKER| <= n ==> s[..n][i..i + |MARKER|] == s[i..i + |MARKER|];
        assert found == OccursAt(s[..n], i);
        i := i + 1;
      }
      assert forall j :: n <= j ==> !OccursAt(s[..n], j) by {
        MarkerHasNoNul();
      }
    }
  }
}
