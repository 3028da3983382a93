/**
 One sub-connection of the ESP32's multi-session relay: bytes read from one socket are transformed
 and written to the other without blocking, and what the other doesn't take is parked.

 What the sockets do is given to each step: how much a write takes (a negative number for a hard
 error, permanent for that socket) and what a read returns (nothing when no data is waiting).
 */
module RelayStream {
  import opened Wrappers
  import opened CtrStream

  const CHUNK: nat := 1460
  const UINT32: nat := 0x1_0000_0000

  /** A key and the counter block it starts from. */
  datatype Key = Key(cipher: Cipher, iv: nat)

  predicate KeyOk(key: Option<Key>) {
    key.Some? ==> key.value.iv < COUNTERS
  }

  /** What the bytes of a stream must look like on the far side. */
  function Image(key: Option<Key>, s: seq<Byte>): seq<Byte> {
    if key.None? then s else Xored(key.value.cipher, key.value.iv, 0, s)
  }

  /**
   One direction of a sub-connection. key, taken and accepted are its history: the key it was set
   up with, every byte read from its source and every byte its destination took.
   */
  datatype Flow = Flow(
    key: Option<Key>,
    ctr: Option<Ctr>,
    taken: seq<Byte>,
    accepted: seq<Byte>,
    pending: seq<Byte>,
    dead: bool)

  function Opened(key: Option<Key>): Flow {
    Flow(key, if key.None? then None else Some(Start(key.value.cipher, key.value.iv)), [], [], [], false)
  }

  /** What the sockets do on one pass: the write of parked bytes, the read, the write of what was read. */
  datatype Io = Io(flushed: int, chunk: seq<Byte>, wrote: int)

  predicate Sends(dead: bool, len: nat, w: int) {
    -1 <= w <= len && (dead ==> w < 0)
  }

  predicate Possible(f: Flow, io: Io) {
    && Sends(f.dead, |f.pending|, io.flushed)
    && |io.chunk| <= CHUNK
    && Sends(Flush(f, io.flushed).dead, |io.chunk|, io.wrote)
  }

  predicate CtrOk(f: Flow) {
    f.ctr.Some? ==> f.ctr.value.off < BLOCK_LEN
  }

  /** Step 1: write what is parked. */
  function Flush(f: Flow, w: int): Flow
    requires Sends(f.dead, |f.pending|, w)
  {
    if f.pending == [] then f
    else if w < 0 then f.(dead := true)
    else f.(accepted := f.accepted + f.pending[..w], pending := f.pending[w..])
  }

  /** Step 2: once nothing is parked, read, transform and write, and park what wasn't taken. */
  function Forward(f: Flow, chunk: seq<Byte>, w: int): Flow
    requires CtrOk(f) && Sends(f.dead, |chunk|, w)
  {
    if f.pending != [] || chunk == [] then f
    else
      var (ctr, out) := if f.ctr.None? then (f.ctr, chunk)
                        else var (st, o) := Crypt(f.ctr.value, chunk); (Some(st), o);
      var read := f.(ctr := ctr, taken := f.taken + chunk);
      if w < 0 then read.(dead := true)
      else read.(accepted := f.accepted + out[..w], pending := out[w..])
  }

  function Pass(f: Flow, io: Io): Flow
    requires CtrOk(f) && Possible(f, io)
  {
    Forward(Flush(f, io.flushed), io.chunk, io.wrote)
  }

  predicate FlushFails(f: Flow, io: Io) {
    f.pending != [] && io.flushed < 0
  }

  predicate Flushes(f: Flow, io: Io) {
    f.pending != [] && io.flushed > 0
  }

  /** Whether the pass gets as far as reading something. */
  predicate Reads(f: Flow, io: Io)
    requires Sends(f.dead, |f.pending|, io.flushed)
  {
    Flush(f, io.flushed).pending == [] && io.chunk != []
  }

  predicate ForwardFails(f: Flow, io: Io)
    requires Sends(f.dead, |f.pending|, io.flushed)
  {
    Reads(f, io) && io.wrote < 0
  }

  /** What every pass keeps. */
  ghost predicate FlowOk(f: Flow) {
    && KeyOk(f.key)
    && f.key.Some? == f.ctr.Some?
    && (f.key.Some? ==> At(f.ctr.value, f.key.value.cipher, f.key.value.iv, |f.taken|))
    && |f.pending| <= CHUNK
    && f.accepted <= Image(f.key, f.taken)
    && (!f.dead ==> f.accepted + f.pending == Image(f.key, f.taken))
  }

  lemma {:induction false} OpenedOk(key: Option<Key>)
    requires KeyOk(key)
    ensures FlowOk(Opened(key))
  {}

  lemma {:induction false} ImageGrows(key: Option<Key>, s: seq<Byte>, more: seq<Byte>)
    ensures Image(key, s) <= Image(key, s + more)
    ensures key.Some? ==>
      Image(key, s + more) == Image(key, s) + Xored(key.value.cipher, key.value.iv, |s|, more)
  {
    if key.Some? {
      XoredSplit(key.value.cipher, key.value.iv, 0, s, more);
    }
  }

  lemma {:induction false} FlushOk(f: Flow, w: int)
    requires FlowOk(f) && Sends(f.dead, |f.pending|, w)
    ensures FlowOk(Flush(f, w))
  {}

  lemma {:induction false} WrittenAndParked(accepted: seq<Byte>, out: seq<Byte>, w: nat)
    requires w <= |out|
    ensures accepted + out[..w] + out[w..] == accepted + out
    ensures accepted + out[..w] <= accepted + out
  {}

  /** What the transform of the bytes just read is, and where it leaves the transformer. */
  lemma {:induction false} OutIsImage(f: Flow, chunk: seq<Byte>)
    requires FlowOk(f)
    ensures var out := if f.ctr.None? then chunk else Crypt(f.ctr.value, chunk).1;
      |out| == |chunk| && Image(f.key, f.taken + chunk) == Image(f.key, f.taken) + out
    ensures f.key.Some? ==>
      At(Crypt(f.ctr.value, chunk).0, f.key.value.cipher, f.key.value.iv, |f.taken + chunk|)
  {
    ImageGrows(f.key, f.taken, chunk);
    if f.key.Some? {
      CryptIsCtrMode(f.ctr.value, f.key.value.cipher, f.key.value.iv, |f.taken|, chunk);
    }
    hide Crypt, Xored, At;
  }

  /** What a read leaves, whether the write fails or not. */
  lemma {:induction false} ForwardIs(f: Flow, chunk: seq<Byte>, w: int)
    requires CtrOk(f) && Sends(f.dead, |chunk|, w) && f.pending == [] && chunk != []
    ensures var g := Forward(f, chunk, w);
      var out := if f.ctr.None? then chunk else Crypt(f.ctr.value, chunk).1;
      && g.key == f.key && g.taken == f.taken + chunk
      && g.ctr == (if f.ctr.None? then None else Some(Crypt(f.ctr.value, chunk).0))
      && |out| == |chunk|
      && (if w < 0 then g.dead && g.accepted == f.accepted && g.pending == []
          else g.dead == f.dead && g.accepted == f.accepted + out[..w] && g.pending == out[w..])
  {}

  lemma {:induction false} ForwardOk(f: Flow, chunk: seq<Byte>, w: int)
    requires FlowOk(f) && |chunk| <= CHUNK && Sends(f.dead, |chunk|, w)
    ensures FlowOk(Forward(f, chunk, w))
  {
    if f.pending == [] && chunk != [] {
      OutIsImage(f, chunk);
      ForwardIs(f, chunk, w);
      hide Forward, Crypt, Image, At, KeyOk;
      var out := if f.ctr.None? then chunk else Crypt(f.ctr.value, chunk).1;
      if w >= 0 {
        assert f.accepted + [] == f.accepted;
        WrittenAndParked(f.accepted, out, w);
      } else {
        assert f.accepted <= Image(f.key, f.taken) + out;
      }
    }
  }

  lemma {:induction false} PassOk(f: Flow, io: Io)
    requires FlowOk(f) && Possible(f, io)
    ensures FlowOk(Pass(f, io))
  {
    FlushOk(f, io.flushed);
    ForwardOk(Flush(f, io.flushed), io.chunk, io.wrote);
  }

  /** The flows that any number of passes can lead to. */
  ghost predicate Passes(f: Flow, ios: seq<Io>, g: Flow)
    decreases |ios|
  {
    if ios == [] then f == g
    else CtrOk(f) && Possible(f, ios[0]) && Passes(Pass(f, ios[0]), ios[1..], g)
  }

  lemma {:induction false} PassesOk(f: Flow, ios: seq<Io>, g: Flow)
    requires FlowOk(f) && Passes(f, ios, g)
    ensures FlowOk(g) && f.key == g.key
    decreases |ios|
  {
    if ios != [] {
      PassOk(f, ios[0]);
      PassesOk(Pass(f, ios[0]), ios[1..], g);
    }
  }

  /**
   Whatever the sockets did since a flow was opened, the peer that shares its key decrypts a prefix
   of what was read from the source, and that prefix lacks only the parked bytes while no write has failed.
   */
  lemma {:induction false} PeerSeesPrefix(key: Option<Key>, ios: seq<Io>, f: Flow)
    requires KeyOk(key) && Passes(Opened(key), ios, f)
    ensures Image(key, f.accepted) <= f.taken
    ensures !f.dead ==> |f.taken| == |f.accepted| + |f.pending| && |f.pending| <= CHUNK
  {
    OpenedOk(key);
    PassesOk(Opened(key), ios, f);
    var n := |f.accepted|;
    var image := Image(key, f.taken);
    assert |image| == |f.taken|;
    assert f.taken == f.taken[..n] + f.taken[n..];
    ImageGrows(key, f.taken[..n], f.taken[n..]);
    assert f.accepted == image[..n] == Image(key, f.taken[..n]);
    if key.Some? {
      XoredTwice(key.value.cipher, key.value.iv, 0, f.taken[..n]);
    }
    assert Image(key, f.accepted) == f.taken[..n];
  }

  // ---- What the sockets gave and took ----

  /** How many of so many bytes are left once a socket took w of them, a negative number for none. */
  function Remaining(n: int, w: int): int {
    if w < 0 then n else n - w
  }

  /** How many bytes the destination took on a pass that began with so many parked. */
  function Took(parked: int, io: Io): int {
    (if parked > 0 && io.flushed > 0 then io.flushed else 0)
      + if Remaining(parked, io.flushed) == 0 && io.wrote > 0 then io.wrote else 0
  }

  /** What was read on it. */
  function Got(parked: int, io: Io): seq<Byte> {
    if Remaining(parked, io.flushed) == 0 then io.chunk else []
  }

  /** How many are parked after it. */
  function Parks(parked: int, io: Io): int {
    if Remaining(parked, io.flushed) > 0 then Remaining(parked, io.flushed)
    else if io.wrote < 0 then 0 else |io.chunk| - io.wrote
  }

  function TookAll(parked: int, ios: seq<Io>): int
    decreases |ios|
  {
    if ios == [] then 0 else Took(parked, ios[0]) + TookAll(Parks(parked, ios[0]), ios[1..])
  }

  function GotAll(parked: int, ios: seq<Io>): seq<Byte>
    decreases |ios|
  {
    if ios == [] then [] else Got(parked, ios[0]) + GotAll(Parks(parked, ios[0]), ios[1..])
  }

  /** A pass accepts as many bytes as the writes took, takes in what the read gave, and parks what is left. */
  lemma {:induction false} PassTakes(f: Flow, io: Io)
    requires CtrOk(f) && Possible(f, io)
    ensures var g := Pass(f, io);
      && |g.accepted| == |f.accepted| + Took(|f.pending|, io)
      && g.taken == f.taken + Got(|f.pending|, io)
      && |g.pending| == Parks(|f.pending|, io)
      && g.key == f.key
  {
    hide Crypt;
  }

  lemma {:induction false} PassesTake(f: Flow, ios: seq<Io>, g: Flow)
    requires Passes(f, ios, g)
    ensures |g.accepted| == |f.accepted| + TookAll(|f.pending|, ios)
    ensures g.taken == f.taken + GotAll(|f.pending|, ios) && g.key == f.key
    decreases |ios|
  {
    if ios != [] {
      PassTakes(f, ios[0]);
      PassesTake(Pass(f, ios[0]), ios[1..], g);
    }
  }

  /**
   Since a flow was opened its destination got exactly the first bytes of the transform of all that its source gave:
   as many as its writes took.
   */
  lemma {:induction false} PeerGetsWhatWasTaken(key: Option<Key>, ios: seq<Io>, f: Flow)
    requires KeyOk(key) && Passes(Opened(key), ios, f)
    ensures f.taken == GotAll(0, ios)
    ensures 0 <= TookAll(0, ios) <= |Image(key, f.taken)| && f.accepted == Image(key, f.taken)[..TookAll(0, ios)]
  {
    OpenedOk(key);
    PassesOk(Opened(key), ios, f);
    PassesTake(Opened(key), ios, f);
  }

  /** memmove within one buffer. */
  method ShiftDown(a: array<Byte>, w: nat, len: nat)
    requires w <= len <= a.Length
    modifies a
    ensures a[..len - w] == old(a[w..len])
  {
    forall i | 0 <= i < len - w { a[i] := a[i + w]; }
  }

  /** One direction as the relay keeps it: an embedded cipher state and a fixed parking buffer. */
  class Half {
    var ctr: Option<Ctr>
    const parked: array<Byte>
    var parkedLen: nat
    ghost var key: Option<Key>
    ghost var taken: seq<Byte>
    ghost var accepted: seq<Byte>
    var dead: bool

    ghost predicate Valid()
      reads this
    {
      parked.Length == CHUNK && parkedLen <= CHUNK
    }

    ghost function View(): Flow
      reads this, parked
      requires Valid()
    {
      Flow(key, ctr, taken, accepted, parked[..parkedLen], dead)
    }

    constructor ()
      ensures Valid() && View() == Opened(None) && fresh(parked)
    {
      parked := new Byte[CHUNK];
      parkedLen := 0;
      ctr, key, taken, accepted, dead := None, None, [], [], false;
    }

    /** Starts a new stream, with a cipher state when the sub-connection is encrypted; what is parked stays. */
    method Open(k: Option<Key>)
      requires Valid()
      modifies this`ctr, this`key, this`taken, this`accepted, this`dead
      ensures View() == Opened(k).(pending := old(View()).pending)
    {
      ctr := if k.None? then None else Some(Start(k.value.cipher, k.value.iv));
      key, taken, accepted, dead := k, [], [], false;
    }

    /** Writes what is parked; w is what the socket takes of it. */
    method WriteParked(w: int)
      requires Valid() && Sends(dead, parkedLen, w)
      modifies this`parkedLen, this`accepted, this`dead, parked
      ensures Valid()
      ensures View() == Flush(old(View()), w)
    {
      if parkedLen > 0 {
        if w < 0 {
          dead := true;
        } else if w > 0 {
          accepted := accepted + parked[..w];
          if w < parkedLen {
            ShiftDown(parked, w, parkedLen);
          }
          parkedLen := parkedLen - w;
        }
      }
    }

    /** Relays the n bytes just read into buf; w is what the socket takes of them. */
    method Relay(buf: array<Byte>, n: nat, cryptBuf: array<Byte>, w: int)
      requires Valid() && CtrOk(View()) && parkedLen == 0 && 0 < n && Sends(dead, n, w)
      requires n <= CHUNK <= buf.Length && CHUNK <= cryptBuf.Length
      requires buf != cryptBuf && buf != parked && cryptBuf != parked
      modifies this, parked, cryptBuf
      ensures Valid()
      ensures View() == Forward(old(View()), old(buf[..n]), w)
    {
      taken := taken + buf[..n];
      var toSend := buf;
      if ctr.Some? {
        var (st, out) := Crypt(ctr.value, buf[..n]);
        ctr := Some(st);
        forall i | 0 <= i < n { cryptBuf[i] := out[i]; }
        assert cryptBuf[..n] == out;
        toSend := cryptBuf;
      }
      ghost var out := toSend[..n];
      if w < 0 {
        dead := true;
      } else {
        accepted := accepted + out[..w];
        if w < n {
          parkedLen := n - w;
          forall i | 0 <= i < n - w { parked[i] := toSend[w + i]; }
        }
        assert parked[..parkedLen] == out[w..];
      }
    }

    /** One pass: step 1, then a read into buf and step 2 unless something is still parked. */
    method Serve(io: Io, buf: array<Byte>, cryptBuf: array<Byte>)
      returns (failed: bool, flushed: bool, read: bool)
      requires Valid() && CtrOk(View()) && Possible(View(), io)
      requires CHUNK <= buf.Length && CHUNK <= cryptBuf.Length
      requires buf != cryptBuf && buf != parked && cryptBuf != parked
      modifies this, parked, buf, cryptBuf
      ensures Valid()
      ensures View() == Pass(old(View()), io)
      ensures flushed == Flushes(old(View()), io) && read == Reads(old(View()), io)
      ensures failed == (FlushFails(old(View()), io) || ForwardFails(old(View()), io))
      ensures (failed && read) == ForwardFails(old(View()), io)
    {
      flushed, read := parkedLen > 0 && io.flushed > 0, false;
      failed := parkedLen > 0 && io.flushed < 0;
      WriteParked(io.flushed);
      if parkedLen == 0 && io.chunk != [] {
        forall i | 0 <= i < |io.chunk| { buf[i] := io.chunk[i]; }
        assert buf[..|io.chunk|] == io.chunk;
        read, failed := true, io.wrote < 0;
        Relay(buf, |io.chunk|, cryptBuf, io.wrote);
      }
    }
  }
}
