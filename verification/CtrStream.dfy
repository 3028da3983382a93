/**
 The AES-CTR stream transformer that both daemons put between two sockets.

 The block cipher under one key is a function that nothing is known about; the counter block
 is read as a 128-bit big-endian integer that is incremented modulo 2^128 (section 6.5 and
 appendix B.1 of NIST SP 800-38A).
 */
module CtrStream {
  import opened Chunks

  type Byte = bv8

  const BLOCK_LEN: nat := 16
  const COUNTERS: nat := 0x1_0000_0000_0000_0000_0000_0000_0000_0000

  type Block = b: seq<Byte> | |b| == 16 witness [0, 0, 0, 0, 0, 0, 0, 0, 0, 0, 0, 0, 0, 0, 0, 0]
  type Cipher = nat -> Block

  /** The byte at position i of the key stream that starts from counter block iv. */
  function KeyByte(c: Cipher, iv: nat, i: nat): Byte {
    c((iv + i / BLOCK_LEN) % COUNTERS)[i % BLOCK_LEN]
  }

  /** CTR mode by its definition: what a stream becomes when s lies at position at of it. */
  function Xored(c: Cipher, iv: nat, at: nat, s: seq<Byte>): (r: seq<Byte>) {
    seq(|s|, i requires 0 <= i < |s| => s[i] ^ KeyByte(c, iv, at + i))
  }

  lemma {:induction false} XoredSplit(c: Cipher, iv: nat, at: nat, a: seq<Byte>, b: seq<Byte>)
    ensures Xored(c, iv, at, a + b) == Xored(c, iv, at, a) + Xored(c, iv, at + |a|, b)
  {}

  lemma {:induction false} XoredLast(c: Cipher, iv: nat, at: nat, s: seq<Byte>)
    requires s != []
    ensures Xored(c, iv, at, s)
         == Xored(c, iv, at, s[..|s| - 1]) + [s[|s| - 1] ^ KeyByte(c, iv, at + |s| - 1)]
  {}

  lemma {:induction false} XoredTwice(c: Cipher, iv: nat, at: nat, s: seq<Byte>)
    ensures Xored(c, iv, at, Xored(c, iv, at, s)) == s
  {}

  /** The state kept from one call to the next: next counter block, current key-stream block, offset in it. */
  datatype Ctr = Ctr(cipher: Cipher, counter: nat, block: Block, off: nat)

  const ZERO_BLOCK: Block := [0, 0, 0, 0, 0, 0, 0, 0, 0, 0, 0, 0, 0, 0, 0, 0]

  /** The state a transformer starts in. */
  function Start(c: Cipher, iv: nat): Ctr {
    Ctr(c, iv, ZERO_BLOCK, 0)
  }

  /** One byte: a fresh key-stream block is made whenever the offset is back at 0. */
  function StepByte(st: Ctr, b: Byte): (Ctr, Byte)
    requires st.off < BLOCK_LEN
  {
    var st1 := if st.off == 0
               then st.(counter := (st.counter + 1) % COUNTERS, block := st.cipher(st.counter))
               else st;
    (st1.(off := (st1.off + 1) % BLOCK_LEN), b ^ st1.block[st.off])
  }

  /** One call on the bytes of s. */
  function Crypt(st: Ctr, s: seq<Byte>): (r: (Ctr, seq<Byte>))
    requires st.off < BLOCK_LEN
    ensures r.0.off < BLOCK_LEN && |r.1| == |s|
    decreases |s|
  {
    if s == [] then (st, [])
    else
      var (st1, out) := Crypt(st, s[..|s| - 1]);
      var (st2, b) := StepByte(st1, s[|s| - 1]);
      (st2, out + [b])
  }

  /** Where the state of a stream started from c and iv must be after at bytes. */
  ghost predicate At(st: Ctr, c: Cipher, iv: nat, at: nat) {
    && st.cipher == c
    && st.off == at % BLOCK_LEN
    && st.counter == (iv + (at + BLOCK_LEN - 1) / BLOCK_LEN) % COUNTERS
    && (st.off != 0 ==> st.block == c((iv + at / BLOCK_LEN) % COUNTERS))
  }

  lemma {:induction false} StartAt(c: Cipher, iv: nat)
    requires iv < COUNTERS
    ensures At(Start(c, iv), c, iv, 0)
  {}

  lemma {:induction false} StepByteAt(st: Ctr, c: Cipher, iv: nat, at: nat, b: Byte)
    requires At(st, c, iv, at)
    ensures At(StepByte(st, b).0, c, iv, at + 1)
    ensures StepByte(st, b).1 == b ^ KeyByte(c, iv, at)
  {
    var q, r := at / BLOCK_LEN, at % BLOCK_LEN;
    assert at == q * BLOCK_LEN + r;
    if r == 0 {
      assert (at + 15) / BLOCK_LEN == q && (at + 16) / BLOCK_LEN == q + 1 && (at + 1) / BLOCK_LEN == q;
      CounterStep(iv + q);
    } else {
      assert (at + 15) / BLOCK_LEN == q + 1 && (at + 16) / BLOCK_LEN == q + 1;
    }
  }

  lemma {:induction false} CounterStep(n: nat)
    ensures (n % COUNTERS + 1) % COUNTERS == (n + 1) % COUNTERS
  {}

  /** A call made anywhere in a stream produces CTR mode's bytes for that position. */
  lemma {:induction false} CryptIsCtrMode(st: Ctr, c: Cipher, iv: nat, at: nat, s: seq<Byte>)
    requires At(st, c, iv, at)
    ensures At(Crypt(st, s).0, c, iv, at + |s|)
    ensures Crypt(st, s).1 == Xored(c, iv, at, s)
    decreases |s|
  {
    if s != [] {
      CryptIsCtrMode(st, c, iv, at, s[..|s| - 1]);
      StepByteAt(Crypt(st, s[..|s| - 1]).0, c, iv, at + |s| - 1, s[|s| - 1]);
      XoredLast(c, iv, at, s);
    }
  }

  /** One call for each chunk, the state carried along; the outputs in order. */
  function CryptAll(st: Ctr, chunks: seq<seq<Byte>>): (r: (Ctr, seq<Byte>))
    requires st.off < BLOCK_LEN
    decreases |chunks|
  {
    if chunks == [] then (st, [])
    else
      var (st1, out) := Crypt(st, chunks[0]);
      var (st2, rest) := CryptAll(st1, chunks[1..]);
      (st2, out + rest)
  }

  lemma {:induction false} ChunksAreCtrMode(st: Ctr, c: Cipher, iv: nat, at: nat, chunks: seq<seq<Byte>>)
    requires At(st, c, iv, at)
    ensures CryptAll(st, chunks).1 == Xored(c, iv, at, Flatten(chunks))
    decreases |chunks|
  {
    if chunks != [] {
      CryptIsCtrMode(st, c, iv, at, chunks[0]);
      ChunksAreCtrMode(Crypt(st, chunks[0]).0, c, iv, at + |chunks[0]|, chunks[1..]);
      XoredSplit(c, iv, at, chunks[0], Flatten(chunks[1..]));
    }
  }

  /** However a stream is cut into calls, the output is that of one call on all of it. */
  lemma {:induction false} AnySplitIsOneCall(c: Cipher, iv: nat, chunks: seq<seq<Byte>>)
    requires iv < COUNTERS
    ensures CryptAll(Start(c, iv), chunks).1 == Crypt(Start(c, iv), Flatten(chunks)).1
  {
    ChunksAreCtrMode(Start(c, iv), c, iv, 0, chunks);
    CryptIsCtrMode(Start(c, iv), c, iv, 0, Flatten(chunks));
  }

  /**
   A peer that starts from the same key and iv, and that receives the bytes in chunks of its own,
   ends up with what was put in at the other end.
   */
  lemma {:induction false} PeerRecovers(c: Cipher, iv: nat, sent: seq<seq<Byte>>, received: seq<seq<Byte>>)
    requires iv < COUNTERS
    requires Flatten(received) == CryptAll(Start(c, iv), sent).1
    ensures CryptAll(Start(c, iv), received).1 == Flatten(sent)
  {
    StartAt(c, iv);
    hide At, CryptAll, Flatten, Xored, Start;
    ChunksAreCtrMode(Start(c, iv), c, iv, 0, sent);
    ChunksAreCtrMode(Start(c, iv), c, iv, 0, received);
    XoredTwice(c, iv, 0, Flatten(sent));
  }

  /** The transformer object: the counter block, key-stream block and offset, changed in place by each call. */
  class Transformer {
    const cipher: Cipher
    var nonceCounter: nat
    const streamBlock: array<Byte>
    var ncOff: nat

    ghost predicate Valid()
      reads this, streamBlock
    {
      streamBlock.Length == BLOCK_LEN && ncOff < BLOCK_LEN
    }

    ghost function View(): Ctr
      reads this, streamBlock
      requires Valid()
    {
      Ctr(cipher, nonceCounter, streamBlock[..], ncOff)
    }

    constructor (cipher: Cipher, iv: nat)
      ensures Valid() && View() == Start(cipher, iv) && fresh(streamBlock)
    {
      this.cipher := cipher;
      nonceCounter := iv;
      ncOff := 0;
      streamBlock := new Byte[16](_ => 0);
      new;
      assert streamBlock[..] == ZERO_BLOCK;
    }

    method TransformByte(b: Byte) returns (r: Byte)
      requires Valid()
      modifies this`nonceCounter, this`ncOff, streamBlock
      ensures Valid()
      ensures (View(), r) == StepByte(old(View()), b)
    {
      if ncOff == 0 {
        var block := cipher(nonceCounter);
        nonceCounter := (nonceCounter + 1) % COUNTERS;
        forall j | 0 <= j < BLOCK_LEN { streamBlock[j] := block[j]; }
        assert streamBlock[..] == block;
      }
      r := b ^ streamBlock[ncOff];
      ncOff := (ncOff + 1) % BLOCK_LEN;
    }

    /** Transforms the first len bytes of input into output. */
    method Transform(len: nat, input: array<Byte>, output: array<Byte>)
      requires Valid() && len <= input.Length && len <= output.Length
      requires output != input && output != streamBlock && input != streamBlock
      modifies this`nonceCounter, this`ncOff, streamBlock, output
      ensures Valid()
      ensures View() == Crypt(old(View()), old(input[..len])).0
      ensures output[..len] == Crypt(old(View()), old(input[..len])).1
      ensures output[len..] == old(output[len..])
    {
      ghost var st0, out := View(), [];
      for i := 0 to len
        invariant Valid()
        invariant (View(), out) == Crypt(st0, input[..i]) && output[..i] == out
        invariant output[len..] == old(output[len..])
      {
        var r := TransformByte(input[i]);
        output[i] := r;
        out := out + [r];
        assert input[..i + 1][..i] == input[..i];
        assert Crypt(st0, input[..i + 1]) == (View(), out);
      }
    }
  }
}
