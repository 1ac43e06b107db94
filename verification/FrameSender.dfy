/** `webrtc_stream_send_frame`: one chunk buffer, rewritten for every send. */
module FrameSenders {
  import opened FrameWire

  lemma SliceOfPrefix<T>(s: seq<T>, len: nat, a: nat, b: nat)
    requires a <= b <= len <= |s|
    ensures s[..len][a..b] == s[a..b]
  {
  }

  /** The channel has accepted the parts of the frame up to offset `at`, after what it had before. */
  ghost predicate Sending(frame: Frame, at: nat, sends: nat, before: seq<Chunk>, taken: seq<Chunk>, rets: seq<Ret>) {
    var all := Parts(frame, 0);
    && at <= |frame| && sends <= |all| && Parts(frame, at) == all[sends..]
    && taken == before + EncodeAll(all[..sends])
    && forall j :: 0 <= j < sends && j < |rets| ==> rets[j] == Accepted
  }

  /** What is promised of a send: the channel has taken the chunks up to its first refusal, which the result names. */
  ghost predicate Sent(frame: Frame, before: seq<Chunk>, taken: seq<Chunk>, rets: seq<Ret>, res: Result) {
    var all := Parts(frame, 0);
    var k := Taken(|all|, rets);
    && taken == before + EncodeAll(all[..k])
    && res == if k == |all| then Ok else if rets[k] == WouldBlock then NoMem else Fail
  }

  lemma SendingBegins(frame: Frame, taken: seq<Chunk>, rets: seq<Ret>)
    ensures Sending(frame, 0, 0, taken, taken, rets)
  {
    assert Parts(frame, 0)[0..] == Parts(frame, 0);
  }

  lemma SendingGoesOn(frame: Frame, at: nat, sends: nat, before: seq<Chunk>, taken: seq<Chunk>, rets: seq<Ret>)
    requires Sending(frame, at, sends, before, taken, rets) && at < |frame|
    requires sends < |rets| ==> rets[sends] == Accepted
    ensures var n := PieceSize(|frame| - at);
            Sending(frame, at + n, sends + 1, before, taken + [Encode(PartAt(frame, at))], rets)
  {
    var all := Parts(frame, 0);
    PartsUnfold(frame, at);
    assert all[sends] == all[sends..][0] && all[sends + 1..] == all[sends..][1..];
    assert all[..sends + 1] == all[..sends] + [all[sends]];
    EncodeAllAppends(all[..sends], [all[sends]]);
    EncodeOne(all[sends]);
  }

  lemma EncodeOne(p: Part)
    ensures EncodeAll([p]) == [Encode(p)]
  {
    var rest: seq<Part> := [p][1..];
    assert rest == [] && EncodeAll([p]) == [Encode(p)] + EncodeAll(rest);
  }

  lemma SendingIsRefused(frame: Frame, at: nat, sends: nat, before: seq<Chunk>, taken: seq<Chunk>, rets: seq<Ret>)
    requires Sending(frame, at, sends, before, taken, rets) && at < |frame|
    requires sends < |rets| && rets[sends] != Accepted
    ensures Sent(frame, before, taken, rets, if rets[sends] == WouldBlock then NoMem else Fail)
  {
    PartsUnfold(frame, at);
    TakenUpTo(|Parts(frame, 0)|, rets, sends);
  }

  lemma SendingEnds(frame: Frame, sends: nat, before: seq<Chunk>, taken: seq<Chunk>, rets: seq<Ret>)
    requires Sending(frame, |frame|, sends, before, taken, rets)
    ensures Sent(frame, before, taken, rets, Ok)
  {
    TakenUpTo(|Parts(frame, 0)|, rets, sends);
  }

  lemma TakenUpTo(count: nat, rets: seq<Ret>, k: nat)
    requires k <= count && forall j :: 0 <= j < k && j < |rets| ==> rets[j] == Accepted
    requires k < count ==> k < |rets| && rets[k] != Accepted
    ensures Taken(count, rets) == k
  {
  }

  class FrameSender {
    const chunk: array<Byte> // room for one chunk on the wire
    var peerOpen: bool
    var channelOpen: bool
    var taken: seq<Chunk> // everything the data channel accepted, in order

    constructor ()
      ensures fresh(chunk) && chunk.Length == CHUNK_PAYLOAD_SIZE + HEADER
      ensures taken == [] && !peerOpen && !channelOpen
    {
      chunk := new Byte[CHUNK_PAYLOAD_SIZE + HEADER](_ => 0);
      taken, peerOpen, channelOpen := [], false, false;
    }

    method PackHeader(n: nat, first: bool, last: bool)
      requires chunk.Length == CHUNK_PAYLOAD_SIZE + HEADER
      modifies chunk
      ensures chunk[..HEADER] == Header(first, last, n)
    {
      chunk[0] := (if first then 1 else 0) + (if last then 2 else 0);
      chunk[1] := n / 0x100_0000 % 256;
      chunk[2] := n / 0x1_0000 % 256;
      chunk[3] := n / 0x100 % 256;
      chunk[4] := n % 256;
    }

    method CopyIn(buf: array<Byte>, at: nat, n: nat)
      requires buf != chunk && n + HEADER <= chunk.Length && at + n <= buf.Length
      modifies chunk
      ensures chunk[..HEADER] == old(chunk[..HEADER]) && chunk[HEADER..HEADER + n] == buf[at..at + n]
    {
      forall j | HEADER <= j < HEADER + n {
        chunk[j] := buf[at + (j - HEADER)];
      }
      ghost var copied, source := chunk[HEADER..HEADER + n], buf[at..at + n];
      forall i | 0 <= i < n
        ensures copied[i] == source[i]
      {
        assert chunk[HEADER + i] == buf[at + (HEADER + i - HEADER)];
      }
    }

    /** Writes the chunk of the frame's next part into the buffer. */
    method Pack(buf: array<Byte>, len: nat, at: nat) returns (n: nat)
      requires buf != chunk && chunk.Length == CHUNK_PAYLOAD_SIZE + HEADER
      requires at < len <= buf.Length
      modifies chunk
      ensures n == PieceSize(len - at) && chunk[..HEADER + n] == Encode(PartAt(buf[..len], at))
    {
      var left := len - at;
      n := if left > CHUNK_PAYLOAD_SIZE then CHUNK_PAYLOAD_SIZE else left;
      PackHeader(n, at == 0, n == left);
      CopyIn(buf, at, n);
      SliceOfPrefix(buf[..], len, at, at + n);
      assert buf[..][..len] == buf[..len];
      assert chunk[..HEADER + n] == chunk[..HEADER] + chunk[HEADER..HEADER + n];
    }

    /** The channel takes the frame's chunks up to its first refusal, and the result names the refusal. */
    method SendFrame(buf: array<Byte>, len: nat, rets: seq<Ret>) returns (res: Result)
      requires len <= buf.Length && buf != chunk && chunk.Length == CHUNK_PAYLOAD_SIZE + HEADER
      modifies this`taken, chunk
      ensures var frame := buf[..len];
              var all := Parts(frame, 0);
              var k := Taken(|all|, rets);
              if !peerOpen then res == InvalidState && taken == old(taken)
              else if !IsJpeg(frame) then res == InvalidSize && taken == old(taken)
              else if !channelOpen then res == InvalidState && taken == old(taken)
              else
                && taken == old(taken) + EncodeAll(all[..k])
                && res == if k == |all| then Ok else if rets[k] == WouldBlock then NoMem else Fail
      ensures res == InvalidSize <==>
              peerOpen && !exists inside: Frame :: buf[..len] == [0xFF, 0xD8] + inside + [0xFF, 0xD9]
    {
      JpegExactly(buf[..len]);
      ghost var frame := buf[..len];
      if !peerOpen {
        return InvalidState;
      }
      if len < 4 || buf[0] != 0xFF || buf[1] != 0xD8 || buf[len - 2] != 0xFF || buf[len - 1] != 0xD9 {
        return InvalidSize;
      }
      if !channelOpen {
        return InvalidState;
      }
      res := SendChunks(buf, len, rets);
    }

    /** Hands the next chunk to the channel, which answers `ret`. */
    method SendNext(buf: array<Byte>, len: nat, at: nat, ret: Ret) returns (n: nat)
      requires buf != chunk && chunk.Length == CHUNK_PAYLOAD_SIZE + HEADER
      requires at < len <= buf.Length
      modifies this`taken, chunk
      ensures n == PieceSize(len - at)
      ensures taken == old(taken) + if ret == Accepted then [Encode(PartAt(buf[..len], at))] else []
    {
      n := Pack(buf, len, at);
      if ret == Accepted { taken := taken + [chunk[..HEADER + n]]; }
    }

    method SendChunks(buf: array<Byte>, len: nat, rets: seq<Ret>) returns (res: Result)
      requires len <= buf.Length && buf != chunk && chunk.Length == CHUNK_PAYLOAD_SIZE + HEADER
      modifies this`taken, chunk
      ensures Sent(buf[..len], old(taken), taken, rets, res)
    {
      var at: nat, left: nat, sends: nat := 0, len, 0;
      ghost var frame, before := buf[..len], taken;
      SendingBegins(frame, taken, rets);
      while left > 0
        invariant at + left == len && buf[..len] == frame
        invariant Sending(frame, at, sends, before, taken, rets)
      {
        var ret := if sends < |rets| then rets[sends] else Accepted;
        if ret == Accepted {
          SendingGoesOn(frame, at, sends, before, taken, rets);
        } else {
          SendingIsRefused(frame, at, sends, before, taken, rets);
        }
        var n := SendNext(buf, len, at, ret);
        if ret != Accepted {
          assert taken + [] == taken;
          return if ret == WouldBlock then NoMem else Fail;
        }
        at, left, sends := at + n, left - n, sends + 1;
      }
      SendingEnds(frame, sends, before, taken, rets);
      res := Ok;
    }
  }
}
