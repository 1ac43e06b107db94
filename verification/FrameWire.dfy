/** The chunked frame format and the browser's reassembly of it, on sequences. */
module FrameWire {
  import opened Options

  type Byte = x: int | 0 <= x < 256

  type Frame = seq<Byte>
  type Chunk = seq<Byte> // as it crosses the data channel

  const CHUNK_PAYLOAD_SIZE: nat := 10_000
  const HEADER: nat := 5

  // ---- the format: [flag][4-byte big-endian length][payload] ----

  /** A chunk as its peers understand it. */
  datatype Part = Part(start: bool, end: bool, payload: seq<Byte>)

  function Header(start: bool, end: bool, n: nat): seq<Byte> {
    [(if start then 1 else 0) + (if end then 2 else 0),
     n / 0x100_0000 % 256, n / 0x1_0000 % 256, n / 0x100 % 256, n % 256]
  }

  function Encode(p: Part): Chunk {
    Header(p.start, p.end, |p.payload|) + p.payload
  }

  /** The length field as the browser's 32-bit shifts read it: signed. */
  function Length(c: Chunk): int
    requires |c| >= HEADER
  {
    var n: int := (((c[1] as int) * 256 + c[2]) * 256 + c[3]) * 256 + c[4];
    if c[1] >= 128 then n - 0x1_0000_0000 else n
  }

  /** What `onChunk` makes of a message; `None` is a short or mismatched one. */
  function Decode(c: Chunk): Option<Part> {
    if |c| < HEADER || Length(c) + HEADER != |c| then None
    else Some(Part(c[0] % 2 == 1, c[0] / 2 % 2 == 1, c[HEADER..]))
  }

  // ---- sending ----

  function PieceSize(left: nat): nat {
    if left > CHUNK_PAYLOAD_SIZE then CHUNK_PAYLOAD_SIZE else left
  }

  /** The part of a frame at offset `from`. */
  function PartAt(frame: Frame, from: nat): Part
    requires from < |frame|
  {
    var n := PieceSize(|frame| - from);
    Part(from == 0, from + n == |frame|, frame[from..from + n])
  }

  /** The parts of a frame from offset `from` on. */
  function Parts(frame: Frame, from: nat): seq<Part>
    requires from <= |frame|
    decreases |frame| - from
  {
    if from == |frame| then []
    else [PartAt(frame, from)] + Parts(frame, from + PieceSize(|frame| - from))
  }

  function EncodeAll(ps: seq<Part>): seq<Chunk> {
    if ps == [] then [] else [Encode(ps[0])] + EncodeAll(ps[1..])
  }

  datatype Ret = Accepted | WouldBlock | Failed

  /** How many of `count` sends the channel takes before its first refusal; `rets` is what it answers. */
  function Taken(count: nat, rets: seq<Ret>): (k: nat)
    ensures k <= count
    ensures forall j :: 0 <= j < k && j < |rets| ==> rets[j] == Accepted
    ensures k < count ==> k < |rets| && rets[k] != Accepted
  {
    if count == 0 then 0
    else if rets == [] then count
    else if rets[0] != Accepted then 0
    else 1 + Taken(count - 1, rets[1..])
  }

  datatype Result = Ok | NoMem | Fail | InvalidSize | InvalidState

  /** Start and end of image markers. */
  predicate IsJpeg(frame: Frame) {
    && |frame| >= 4
    && frame[0] == 0xFF && frame[1] == 0xD8
    && frame[|frame| - 2] == 0xFF && frame[|frame| - 1] == 0xD9
  }

  /** The frames that are sent: whatever stands between the two markers, however long. */
  lemma JpegExactly(frame: Frame)
    ensures IsJpeg(frame) <==> exists inside: Frame :: frame == [0xFF, 0xD8] + inside + [0xFF, 0xD9]
  {
    if IsJpeg(frame) {
      var inside := frame[2..|frame| - 2];
      assert frame == [0xFF, 0xD8] + inside + [0xFF, 0xD9];
    }
  }

  // ---- receiving ----

  /** The receiver: the parts of the frame in flight, its byte count, and the part lists drawn so far. */
  datatype Receiver = Receiver(held: seq<Part>, bytes: int, drawn: seq<seq<Part>>)

  const IDLE: Receiver := Receiver([], 0, [])

  function Feed(r: Receiver, p: Part): Receiver {
    var r1 := if p.start then Receiver([], 0, r.drawn) else r;
    if r1.bytes > 0 || p.start then
      if p.end then Receiver([], 0, r1.drawn + [r1.held + [p]])
      else Receiver(r1.held + [p], r1.bytes + |p.payload|, r1.drawn)
    else r1
  }

  function FeedAll(r: Receiver, ps: seq<Part>): Receiver
    decreases |ps|
  {
    if ps == [] then r else FeedAll(Feed(r, ps[0]), ps[1..])
  }

  /** The receiver on messages, as they come off the channel. */
  function Receive(r: Receiver, c: Chunk): Receiver {
    match Decode(c)
    case None => r
    case Some(p) => Feed(r, p)
  }

  function ReceiveAll(r: Receiver, cs: seq<Chunk>): Receiver
    decreases |cs|
  {
    if cs == [] then r else ReceiveAll(Receive(r, cs[0]), cs[1..])
  }

  /** The bytes of a part list, as the blob that is drawn. */
  function Blob(ps: seq<Part>): seq<Byte> {
    if ps == [] then [] else ps[0].payload + Blob(ps[1..])
  }

  function Images(drawn: seq<seq<Part>>): seq<seq<Byte>> {
    if drawn == [] then [] else [Blob(drawn[0])] + Images(drawn[1..])
  }

  // ---- facts about the format ----

  lemma Bytewise(n: nat)
    ensures n / 0x1_0000 == n / 0x100 / 0x100 && n == n / 0x100 * 0x100 + n % 0x100
  {
  }

  /** The four bytes of a length below 2^31, put together again. */
  lemma FourBytes(n: nat)
    requires n < 0x8000_0000
    ensures var b1, b2, b3, b4 := n / 0x100_0000 % 256, n / 0x1_0000 % 256, n / 0x100 % 256, n % 256;
            b1 < 128 && ((b1 * 256 + b2) * 256 + b3) * 256 + b4 == n
  {
    Bytewise(n);
    Bytewise(n / 0x100);
    Bytewise(n / 0x1_0000);
    assert n / 0x100_0000 < 128;
  }

  lemma ByteOf(n: nat, b: nat)
    requires n < 0x100 * b && b > 0
    ensures n / b % 256 == n / b
  {
    assert n / b < 0x100 by { assert n == b * (n / b) + n % b; }
  }

  /** A chunk on the wire: start is bit 0, end bit 1, then the payload's length with its highest byte first, then the
      payload. */
  lemma WireFormat(p: Part)
    requires |p.payload| < 0x1_0000_0000
    ensures var c := Encode(p);
            && c[0] == (if p.start then 1 else 0) + (if p.end then 2 else 0)
            && c[5..] == p.payload
            && var b1: int, b2: int, b3: int, b4: int := c[1], c[2], c[3], c[4];
               b1 * 0x100_0000 + b2 * 0x1_0000 + b3 * 0x100 + b4 == |p.payload|
  {
    var n := |p.payload|;
    Bytewise(n);
    Bytewise(n / 0x100);
    Bytewise(n / 0x1_0000);
    ByteOf(n, 0x100_0000);
    assert n / 0x100_0000 == n / 0x1_0000 / 0x100;
  }

  lemma LengthOfSmall(p: Part)
    requires |p.payload| < 0x8000_0000
    ensures Length(Encode(p)) == |p.payload|
  {
    var c, n := Encode(p), |p.payload|;
    FourBytes(n);
    assert c[1] == n / 0x100_0000 % 256 && c[2] == n / 0x1_0000 % 256 && c[3] == n / 0x100 % 256 && c[4] == n % 256;
  }

  lemma LengthIsSigned(c: Chunk)
    requires |c| >= HEADER
    ensures Length(c) < 0x8000_0000
  {
  }

  /** The browser reads a chunk as the firmware wrote it exactly up to the sign bit of its length. */
  lemma DecodeEncode(p: Part)
    ensures Decode(Encode(p)) == Some(p) <==> |p.payload| < 0x8000_0000
  {
    LengthIsSigned(Encode(p));
    if |p.payload| < 0x8000_0000 {
      LengthOfSmall(p);
      assert Encode(p)[HEADER..] == p.payload;
    }
  }

  /** A message is a chunk exactly if its length field, highest byte first and below 2^31, is the length of the rest. */
  lemma DecodeExactly(c: Chunk)
    ensures Decode(c).Some? <==>
            && 5 <= |c| < 5 + 0x8000_0000
            && var b1: int, b2: int, b3: int, b4: int := c[1], c[2], c[3], c[4];
               b1 * 0x100_0000 + b2 * 0x1_0000 + b3 * 0x100 + b4 == |c| - 5
    ensures Decode(c).Some? ==>
              && Decode(c).value.payload == c[5..]
              && (Decode(c).value.start <==> c[0] % 2 == 1) && (Decode(c).value.end <==> c[0] % 4 >= 2)
  {
    if |c| >= HEADER { LengthIsSigned(c); }
  }

  lemma {:induction false} ReceiveEncoded(r: Receiver, ps: seq<Part>)
    requires forall i :: 0 <= i < |ps| ==> |ps[i].payload| <= CHUNK_PAYLOAD_SIZE
    ensures ReceiveAll(r, EncodeAll(ps)) == FeedAll(r, ps)
    decreases |ps|
  {
    if ps != [] {
      DecodeEncode(ps[0]);
      assert EncodeAll(ps)[0] == Encode(ps[0]) && EncodeAll(ps)[1..] == EncodeAll(ps[1..]);
      ReceiveEncoded(Feed(r, ps[0]), ps[1..]);
    }
  }

  lemma {:induction false} EncodeAllAppends(a: seq<Part>, b: seq<Part>)
    ensures EncodeAll(a + b) == EncodeAll(a) + EncodeAll(b)
    decreases |a|
  {
    if a == [] {
      assert a + b == b;
    } else {
      assert (a + b)[1..] == a[1..] + b;
      EncodeAllAppends(a[1..], b);
    }
  }

  lemma {:induction false} BlobAppends(a: seq<Part>, b: seq<Part>)
    ensures Blob(a + b) == Blob(a) + Blob(b)
    decreases |a|
  {
    if a == [] {
      assert a + b == b;
    } else {
      assert (a + b)[1..] == a[1..] + b;
      BlobAppends(a[1..], b);
    }
  }

  lemma {:induction false} ImagesAppend(a: seq<seq<Part>>, b: seq<seq<Part>>)
    ensures Images(a + b) == Images(a) + Images(b)
    decreases |a|
  {
    if a == [] {
      assert a + b == b;
    } else {
      assert (a + b)[1..] == a[1..] + b;
      ImagesAppend(a[1..], b);
    }
  }

  lemma BlobGrows(a: seq<Part>, p: Part)
    ensures Blob(a + [p]) == Blob(a) + p.payload
  {
    BlobAppends(a, [p]);
    var rest: seq<Part> := [p][1..];
    assert rest == [] && Blob([p]) == p.payload + Blob(rest);
  }

  lemma ImagesGrow(a: seq<seq<Part>>, ps: seq<Part>)
    ensures Images(a + [ps]) == Images(a) + [Blob(ps)]
  {
    ImagesAppend(a, [ps]);
    var rest: seq<seq<Part>> := [ps][1..];
    assert rest == [] && Images([ps]) == [Blob(ps)] + Images(rest);
  }

  lemma PartsUnfold(frame: Frame, from: nat)
    requires from < |frame|
    ensures var rest := Parts(frame, from + PieceSize(|frame| - from));
            Parts(frame, from) == [PartAt(frame, from)] + rest && Parts(frame, from)[1..] == rest
  {
  }

  lemma FeedUnfolds(r: Receiver, p: Part, ps: seq<Part>)
    ensures FeedAll(r, [p] + ps) == FeedAll(Feed(r, p), ps)
  {
    assert ([p] + ps)[1..] == ps;
  }

  lemma BlobUnfolds(p: Part, ps: seq<Part>)
    ensures Blob([p] + ps) == p.payload + Blob(ps)
  {
    assert ([p] + ps)[1..] == ps;
  }

  /** Marks on the first and the last part, and no payload empty or too long. */
  predicate Marked(ps: seq<Part>, first: bool) {
    forall i :: 0 <= i < |ps| ==>
      && 0 < |ps[i].payload| <= CHUNK_PAYLOAD_SIZE
      && (ps[i].start <==> i == 0 && first) && (ps[i].end <==> i == |ps| - 1)
  }

  lemma MarkedGrows(p: Part, rest: seq<Part>)
    requires Marked(rest, false) && 0 < |p.payload| <= CHUNK_PAYLOAD_SIZE && (p.end <==> rest == [])
    ensures Marked([p] + rest, p.start)
  {
    var ps := [p] + rest;
    assert forall i :: 0 < i < |ps| ==> ps[i] == rest[i - 1];
  }

  lemma {:induction false} PartsMarked(frame: Frame, from: nat)
    requires from <= |frame|
    ensures Marked(Parts(frame, from), from == 0) && (Parts(frame, from) == [] <==> from == |frame|)
    decreases |frame| - from
  {
    if from < |frame| {
      var rest := Parts(frame, from + PieceSize(|frame| - from));
      PartsMarked(frame, from + PieceSize(|frame| - from));
      PartsUnfold(frame, from);
      MarkedGrows(PartAt(frame, from), rest);
    }
  }

  lemma {:induction false} PartsJoined(frame: Frame, from: nat)
    requires from <= |frame|
    ensures Blob(Parts(frame, from)) == frame[from..]
    decreases |frame| - from
  {
    if from < |frame| {
      var n := PieceSize(|frame| - from);
      PartsJoined(frame, from + n);
      PartsUnfold(frame, from);
      BlobUnfolds(PartAt(frame, from), Parts(frame, from + n));
      SplitFrame(frame, from, n);
    }
  }

  lemma {:induction false} PartsFull(frame: Frame, from: nat)
    requires from <= |frame|
    ensures var ps := Parts(frame, from);
            && (forall i :: 0 <= i < |ps| - 1 ==> |ps[i].payload| == 10_000)
            && (ps != [] ==> 1 <= |ps[|ps| - 1].payload| <= 10_000)
    decreases |frame| - from
  {
    if from < |frame| {
      var n := PieceSize(|frame| - from);
      PartsFull(frame, from + n);
      PartsUnfold(frame, from);
      var ps, rest := Parts(frame, from), Parts(frame, from + n);
      assert forall i :: 0 < i < |ps| ==> ps[i] == rest[i - 1];
    }
  }

  /** The parts of one frame: the marks are on the first and the last, all but the last have 10 000 bytes and that has 1
      to 10 000, and together they are the frame. */
  lemma PartsOf(frame: Frame, from: nat)
    requires from <= |frame|
    ensures var ps := Parts(frame, from);
            && (forall i :: 0 <= i < |ps| - 1 ==> |ps[i].payload| == 10_000)
            && (ps != [] ==> 1 <= |ps[|ps| - 1].payload| <= 10_000)
            && (forall i :: 0 <= i < |ps| ==> (ps[i].start <==> i == 0 && from == 0))
            && (forall i :: 0 <= i < |ps| ==> (ps[i].end <==> i == |ps| - 1))
            && (ps == [] <==> from == |frame|)
            && Blob(ps) == frame[from..]
  {
    PartsMarked(frame, from);
    PartsFull(frame, from);
    PartsJoined(frame, from);
  }

  lemma SplitFrame(frame: Frame, from: nat, n: nat)
    requires from + n <= |frame|
    ensures frame[from..] == frame[from..from + n] + frame[from + n..]
    ensures frame[..from + n] == frame[..from] + frame[from..from + n]
  {
  }
}
