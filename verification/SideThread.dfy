/**
 One of the two threads of the C relay: it receives from its own socket, transforms in a second
 buffer and sends to the other side's socket until everything received has gone.
 */
module SideThread {
  import opened Wrappers
  import opened Chunks
  import opened CtrStream
  import opened RelayStream

  const READ_LEN: nat := 64
  const BUFFER_LEN: nat := READ_LEN + 16 + 1

  /** What one send returns: interrupted, failed, or the number of bytes taken. */
  datatype SendResult = WantWrite | Failed | Took(n: nat)

  /** How the thread's loop ends: the peer closed, the cipher or a send failed, or it was cancelled in a send. */
  datatype Ending = PeerClosed | CipherFailed | SendFailed | Cancelled

  lemma {:induction false} NothingYet(key: Option<Key>)
    ensures Flatten<Byte>([]) == [] && Image(key, []) == []
  {}

  class Side {
    const transformer: Transformer?
    const key: Option<Key>
    ghost var sent: seq<Byte>

    /** at is how many bytes have been transformed so far. */
    ghost predicate Valid(at: nat)
      reads this, transformer, if transformer == null then {} else {transformer.streamBlock}
    {
      && KeyOk(key) && key.Some? == (transformer != null)
      && (transformer != null ==> transformer.Valid() && At(transformer.View(), key.value.cipher, key.value.iv, at))
    }

    constructor (key: Option<Key>)
      requires KeyOk(key)
      ensures Valid(0) && sent == [] && this.key == key
      ensures transformer != null ==> fresh(transformer) && fresh(transformer.streamBlock)
    {
      this.key := key;
      if key.Some? {
        transformer := new Transformer(key.value.cipher, key.value.iv);
      } else {
        transformer := null;
      }
      sent := [];
      new;
      if key.Some? {
        StartAt(key.value.cipher, key.value.iv);
      }
    }

    /** Sends len bytes however the sends split them; results are what the sends return, in order. */
    method SendAll(toSend: array<Byte>, len: nat, results: seq<SendResult>)
      returns (rest: seq<SendResult>, failed: bool, cancelled: bool)
      requires len <= toSend.Length
      modifies this`sent
      ensures !failed && !cancelled ==> sent == old(sent) + toSend[..len]
      ensures old(sent) <= sent <= old(sent) + toSend[..len]
    {
      rest, failed, cancelled := results, false, false;
      var done := 0;
      while done < len
        invariant 0 <= done <= len && sent == old(sent) + toSend[..done]
        decreases |rest|
      {
        if rest == [] {
          cancelled := true;
          return;
        }
        var res := rest[0];
        rest := rest[1..];
        match res
        case WantWrite =>
        case Failed =>
          failed := true;
          return;
        case Took(n) =>
          var took := if n < len - done then n else len - done;
          sent := sent + toSend[done..done + took];
          assert toSend[..done + took] == toSend[..done] + toSend[done..done + took];
          done := done + took;
      }
    }

    /** The next len bytes, in buffer, as they are to be sent; before is all that preceded them. */
    method TransformChunk(buffer: array<Byte>, len: nat, output: array<Byte>, ghost before: seq<Byte>)
      returns (toSend: array<Byte>)
      requires Valid(|before|) && len <= buffer.Length && len <= output.Length && buffer != output
      requires transformer != null ==> transformer.streamBlock !in {buffer, output}
      modifies transformer, if transformer == null then {} else {transformer.streamBlock}, output
      ensures toSend in {buffer, output} && Valid(|before| + len)
      ensures Image(key, before) + toSend[..len] == Image(key, before + old(buffer[..len]))
    {
      ghost var chunk := buffer[..len];
      ImageGrows(key, before, chunk);
      toSend := buffer;
      if transformer != null {
        CryptIsCtrMode(transformer.View(), key.value.cipher, key.value.iv, |before|, chunk);
        transformer.Transform(len, buffer, output);
        toSend := output;
      }
    }

    /**
     The thread's loop over what is received. It sends the transform of all of it, or, when a send
     fails or the thread is cancelled, a prefix that reaches into the last chunk received, or, when the
     cipher fails at chunk badChunk, that of all chunks before.
     */
    method Handle(received: seq<seq<Byte>>, results: seq<SendResult>, badChunk: Option<nat>)
      returns (ending: Ending, chunks: nat)
      requires Valid(0) && sent == []
      requires forall i :: 0 <= i < |received| ==> 0 < |received[i]| <= READ_LEN
      modifies this`sent, transformer, if transformer == null then {} else {transformer.streamBlock}
      ensures chunks <= |received|
      ensures ending == PeerClosed ==> chunks == |received| && sent == Image(key, Flatten(received))
      ensures ending != PeerClosed ==>
        chunks > 0
        && Image(key, Flatten(received[..chunks - 1])) <= sent <= Image(key, Flatten(received[..chunks]))
      ensures ending == CipherFailed ==> sent == Image(key, Flatten(received[..chunks - 1]))
      ensures ending == CipherFailed <==> transformer != null && chunks > 0 && badChunk == Some(chunks - 1)
    {
      hide Image, Flatten, At;
      assert received[..0] == [] && Flatten<Byte>([]) == [] && Image(key, []) == [] by {
        NothingYet(key);
      }
      var buffer := new Byte[BUFFER_LEN];
      var output := new Byte[BUFFER_LEN];
      var rest := results;
      chunks := 0;
      while chunks < |received|
        invariant chunks <= |received|
        invariant Valid(|Flatten(received[..chunks])|)
        invariant sent == Image(key, Flatten(received[..chunks]))
        invariant transformer != null ==> transformer.streamBlock !in {buffer, output}
        invariant transformer != null && chunks > 0 ==> badChunk != Some(chunks - 1)
      {
        var chunk := received[chunks];
        ghost var before := Flatten(received[..chunks]);
        FlattenSplit(received[..chunks + 1]);
        assert received[..chunks + 1][..chunks] == received[..chunks];
        forall i | 0 <= i < |chunk| { buffer[i] := chunk[i]; }
        assert buffer[..|chunk|] == chunk;
        if transformer != null && badChunk == Some(chunks) {
          ImageGrows(key, before, chunk);
          chunks, ending := chunks + 1, CipherFailed;
          return;
        }
        var toSend := TransformChunk(buffer, |chunk|, output, before);
        chunks := chunks + 1;
        var failed, cancelled;
        rest, failed, cancelled := SendAll(toSend, |chunk|, rest);
        if failed || cancelled {
          ending := if failed then SendFailed else Cancelled;
          return;
        }
      }
      assert received[..chunks] == received;
      ending := PeerClosed;
    }
  }
}
