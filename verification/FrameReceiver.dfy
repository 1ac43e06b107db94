/** The page's reassembly state: `onChunk` and `drawFrame` of cloudflare/assets/view.html. */
module FrameReceivers {
  import opened FrameWire

  class FrameReceiver {
    var frameChunks: seq<seq<Byte>> // payload pieces of the frame in flight
    var frameBytes: int
    var blobs: seq<seq<Byte>> // every blob handed to the canvas
    ghost var held: seq<Part>
    ghost var drawn: seq<seq<Part>>

    ghost function Value(): Receiver
      reads this
    {
      Receiver(held, frameBytes, drawn)
    }

    ghost predicate Valid()
      reads this
    {
      && |frameChunks| == |held|
      && (forall i :: 0 <= i < |held| ==> frameChunks[i] == held[i].payload)
      && blobs == Images(drawn)
    }

    constructor ()
      ensures Valid() && Value() == IDLE
    {
      frameChunks, frameBytes, blobs := [], 0, [];
      held, drawn := [], [];
    }

    /** What `teardownPC` does to the reassembly: a frame in flight is dropped with its connection. */
    method Teardown()
      requires Valid()
      modifies this
      ensures Valid() && Value() == Receiver([], 0, old(Value()).drawn) && blobs == old(blobs)
    {
      frameChunks, frameBytes, held := [], 0, [];
    }

    method OnChunk(u8: Chunk)
      requires Valid()
      modifies this
      ensures Valid() && Value() == Receive(old(Value()), u8)
    {
      if |u8| < HEADER {
        return;
      }
      var len := Length(u8);
      if len + HEADER != |u8| {
        return;
      }
      var start, end := u8[0] % 2 == 1, u8[0] / 2 % 2 == 1;
      if start {
        frameChunks, frameBytes, held := [], 0, [];
      }
      if frameBytes > 0 || start {
        frameChunks := frameChunks + [u8[HEADER..]];
        held := held + [Part(start, end, u8[HEADER..])];
        frameBytes := frameBytes + len;
        if end { DrawFrame(); }
      }
    }

    method Joined() returns (blob: seq<Byte>)
      requires Valid()
      ensures blob == Blob(held)
    {
      blob := [];
      for i := 0 to |frameChunks|
        invariant blob == Blob(held[..i])
      {
        assert held[..i + 1] == held[..i] + [held[i]];
        BlobGrows(held[..i], held[i]);
        blob := blob + frameChunks[i];
      }
      assert held[..|held|] == held;
    }

    method DrawFrame()
      requires Valid()
      modifies this
      ensures Valid() && Value() == Receiver([], 0, old(drawn + [held]))
    {
      var blob := Joined();
      ImagesGrow(drawn, held);
      blobs := blobs + [blob];
      drawn := drawn + [held];
      frameChunks, frameBytes, held := [], 0, [];
    }
  }
}
