/** Sender and receiver together, over refusing, losing and reordering channels. */
module FrameTheorems {
  import opened FrameWire

  // ---- an ordered channel that may refuse ----

  /** The receiver is in the middle of the frame: it holds what comes before offset `from`. */
  predicate HoldsUpTo(r: Receiver, frame: Frame, from: nat)
    requires from <= |frame|
  {
    from > 0 ==> r.bytes > 0 && Blob(r.held) == frame[..from]
  }

  lemma FeedInner(r: Receiver, frame: Frame, from: nat)
    requires from < |frame| && HoldsUpTo(r, frame, from) && from + PieceSize(|frame| - from) < |frame|
    ensures var r1 := Feed(r, PartAt(frame, from));
            r1.drawn == r.drawn && HoldsUpTo(r1, frame, from + PieceSize(|frame| - from))
  {
    SplitFrame(frame, from, PieceSize(|frame| - from));
    BlobGrows(if from == 0 then [] else r.held, PartAt(frame, from));
  }

  lemma FeedLast(r: Receiver, frame: Frame, from: nat)
    requires from < |frame| && HoldsUpTo(r, frame, from) && from + PieceSize(|frame| - from) == |frame|
    ensures Images(Feed(r, PartAt(frame, from)).drawn) == Images(r.drawn) + [frame]
  {
    var p, before := PartAt(frame, from), if from == 0 then [] else r.held;
    SplitFrame(frame, from, PieceSize(|frame| - from));
    BlobGrows(before, p);
    assert frame[..|frame|] == frame;
    ImagesGrow(r.drawn, before + [p]);
  }

  /** Feeding the first `k` parts of the rest of a frame: all of them draw it, fewer draw nothing. */
  lemma {:induction false} FeedRest(r: Receiver, frame: Frame, from: nat, k: nat)
    requires from < |frame| && k <= |Parts(frame, from)| && HoldsUpTo(r, frame, from)
    ensures Images(FeedAll(r, Parts(frame, from)[..k]).drawn) ==
            Images(r.drawn) + if k == |Parts(frame, from)| then [frame] else []
    decreases |frame| - from
  {
    var n := PieceSize(|frame| - from);
    var p, rest := PartAt(frame, from), Parts(frame, from + n);
    PartsUnfold(frame, from);
    if k == 0 {
      assert Images(r.drawn) + [] == Images(r.drawn);
    } else {
      assert ([p] + rest)[..k] == [p] + rest[..k - 1];
      FeedUnfolds(r, p, rest[..k - 1]);
      if from + n == |frame| {
        assert rest == [];
        FeedLast(r, frame, from);
      } else {
        FeedInner(r, frame, from);
        FeedRest(Feed(r, p), frame, from + n, k - 1);
      }
    }
  }

  /** One call of `webrtc_stream_send_frame` with the channel open, and what the channel answered. */
  datatype Call = Call(frame: Frame, rets: seq<Ret>)

  /** The parts the channel took of a call. */
  function TakenOf(c: Call): seq<Part> {
    if IsJpeg(c.frame) then Parts(c.frame, 0)[..Taken(|Parts(c.frame, 0)|, c.rets)] else []
  }

  /** The call returned ESP_OK. */
  predicate Succeeds(c: Call) {
    IsJpeg(c.frame) && Taken(|Parts(c.frame, 0)|, c.rets) == |Parts(c.frame, 0)|
  }

  function SentBy(c: Call): seq<Frame> {
    if Succeeds(c) then [c.frame] else []
  }

  function SentFrames(calls: seq<Call>): seq<Frame> {
    if calls == [] then [] else SentBy(calls[0]) + SentFrames(calls[1..])
  }

  /** Everything the channel took, as messages. */
  function Stream(calls: seq<Call>): seq<Chunk> {
    if calls == [] then [] else EncodeAll(TakenOf(calls[0])) + Stream(calls[1..])
  }

  lemma {:induction false} ReceiveAppends(r: Receiver, a: seq<Chunk>, b: seq<Chunk>)
    ensures ReceiveAll(r, a + b) == ReceiveAll(ReceiveAll(r, a), b)
    decreases |a|
  {
    if a == [] {
      assert a + b == b;
    } else {
      assert (a + b)[1..] == a[1..] + b;
      ReceiveAppends(Receive(r, a[0]), a[1..], b);
    }
  }

  lemma SizesOfTaken(c: Call)
    ensures forall i :: 0 <= i < |TakenOf(c)| ==> |TakenOf(c)[i].payload| <= CHUNK_PAYLOAD_SIZE
  {
    PartsOf(c.frame, 0);
  }

  lemma ReceiveCall(r: Receiver, c: Call)
    ensures Images(ReceiveAll(r, EncodeAll(TakenOf(c))).drawn) == Images(r.drawn) + SentBy(c)
  {
    SizesOfTaken(c);
    ReceiveEncoded(r, TakenOf(c));
    if IsJpeg(c.frame) {
      FeedRest(r, c.frame, 0, Taken(|Parts(c.frame, 0)|, c.rets));
    } else {
      assert Images(r.drawn) + [] == Images(r.drawn);
    }
  }

  lemma StreamUnfolds(c: Call, rest: seq<Call>)
    ensures Stream([c] + rest) == EncodeAll(TakenOf(c)) + Stream(rest)
    ensures SentFrames([c] + rest) == SentBy(c) + SentFrames(rest)
  {
    assert ([c] + rest)[1..] == rest;
  }

  lemma Regroup<T>(a: seq<T>, b: seq<T>, c: seq<T>)
    ensures (a + b) + c == a + (b + c)
  {
  }

  /** Whatever the channel refuses and wherever it does, and from any receiver state: the browser draws exactly the
      frames whose send returned ESP_OK, byte for byte and in order. */
  lemma {:induction false} DrawsExactlyTheSentFrames(r: Receiver, calls: seq<Call>)
    ensures Images(ReceiveAll(r, Stream(calls)).drawn) == Images(r.drawn) + SentFrames(calls)
    decreases |calls|
  {
    if calls == [] {
      assert Images(r.drawn) + [] == Images(r.drawn);
    } else {
      var c, rest := calls[0], calls[1..];
      var r1 := ReceiveAll(r, EncodeAll(TakenOf(c)));
      assert calls == [c] + rest;
      StreamUnfolds(c, rest);
      ReceiveAppends(r, EncodeAll(TakenOf(c)), Stream(rest));
      ReceiveCall(r, c);
      DrawsExactlyTheSentFrames(r1, rest);
      Regroup(Images(r.drawn), SentBy(c), SentFrames(rest));
    }
  }

  /** An intact frame delivered in one piece is drawn exactly, from any receiver state. */
  lemma IntactFrameIsDrawn(r: Receiver, frame: Frame)
    requires IsJpeg(frame)
    ensures Images(ReceiveAll(r, EncodeAll(Parts(frame, 0))).drawn) == Images(r.drawn) + [frame]
  {
    var all := Parts(frame, 0);
    assert all[..|all|] == all;
    ReceiveCall(r, Call(frame, []));
  }

  // ---- any parts at all ----

  lemma {:induction false} BytesAreHeld(r: Receiver, ps: seq<Part>)
    requires r.bytes == |Blob(r.held)|
    ensures FeedAll(r, ps).bytes == |Blob(FeedAll(r, ps).held)|
    decreases |ps|
  {
    if ps != [] {
      BlobGrows([], ps[0]);
      assert [] + [ps[0]] == [ps[0]];
      BlobGrows(r.held, ps[0]);
      BytesAreHeld(Feed(r, ps[0]), ps[1..]);
    }
  }

  /** After any parts whatever: a start begins a new frame and drops the one in flight, a later part joins the frame in
      flight exactly if that has bytes, and an end draws what there is. */
  lemma JoinsExactly(ps: seq<Part>, p: Part)
    ensures var r := FeedAll(IDLE, ps);
            var q := Feed(r, p);
            var frame := if p.start then [p] else r.held + [p];
            && (!p.start && Blob(r.held) == [] ==> q == r)
            && (p.start || Blob(r.held) != [] ==>
                  && q.drawn == (if p.end then r.drawn + [frame] else r.drawn)
                  && q.held == (if p.end then [] else frame)
                  && q.bytes == if p.end then 0 else |Blob(frame)|)
  {
    BytesAreHeld(IDLE, ps);
    BytesAreHeld(IDLE, ps + [p]);
    FeedLastOf(IDLE, ps, p);
    var none: seq<Part> := [];
    assert none + [p] == [p];
  }

  lemma {:induction false} FeedLastOf(r: Receiver, ps: seq<Part>, p: Part)
    ensures FeedAll(r, ps + [p]) == Feed(FeedAll(r, ps), p)
    decreases |ps|
  {
    if ps == [] {
      assert ps + [p] == [p] + [];
      FeedUnfolds(r, p, []);
    } else {
      assert ps + [p] == [ps[0]] + (ps[1..] + [p]);
      FeedUnfolds(r, ps[0], ps[1..] + [p]);
      FeedLastOf(Feed(r, ps[0]), ps[1..], p);
    }
  }

  // ---- a channel that loses, repeats and reorders ----

  /** A chunk of some JPEG frame that the device sent. */
  ghost predicate IsSentChunk(c: Chunk) {
    exists frame, i :: IsJpeg(frame) && 0 <= i < |Parts(frame, 0)| && c == Encode(Parts(frame, 0)[i])
  }

  /** What every sent part is like. */
  predicate Plausible(p: Part) {
    && p.payload != []
    && (p.start ==> |p.payload| >= 4 && p.payload[0] == 0xFF && p.payload[1] == 0xD8)
    && (p.end ==> p.payload[|p.payload| - 1] == 0xD9)
  }

  lemma {:induction false} PartsPlausible(frame: Frame, from: nat, i: nat)
    requires IsJpeg(frame) && from <= |frame| && i < |Parts(frame, from)|
    ensures Plausible(Parts(frame, from)[i])
    decreases |frame| - from
  {
    var n := PieceSize(|frame| - from);
    if i > 0 {
      assert Parts(frame, from)[i] == Parts(frame, from + n)[i - 1];
      PartsPlausible(frame, from + n, i - 1);
    }
  }

  lemma SentIsPlausible(c: Chunk)
    requires IsSentChunk(c)
    ensures Decode(c).Some? && Plausible(Decode(c).value)
  {
    var frame, i :| IsJpeg(frame) && 0 <= i < |Parts(frame, 0)| && c == Encode(Parts(frame, 0)[i]);
    PartsOf(frame, 0);
    PartsPlausible(frame, 0, i);
    DecodeEncode(Parts(frame, 0)[i]);
  }

  /** One start, at the front; no end yet. */
  predicate InFlight(ps: seq<Part>) {
    forall i :: 0 <= i < |ps| ==> Plausible(ps[i]) && !ps[i].end && (ps[i].start <==> i == 0)
  }

  /** One start, at the front, and one end, at the back. */
  predicate Framed(ps: seq<Part>) {
    && ps != []
    && forall i :: 0 <= i < |ps| ==> Plausible(ps[i]) && (ps[i].end <==> i == |ps| - 1) && (ps[i].start <==> i == 0)
  }

  predicate ReceiverInv(r: Receiver) {
    && InFlight(r.held)
    && r.bytes == |Blob(r.held)| && (r.held == [] <==> r.bytes == 0)
    && (forall i :: 0 <= i < |r.drawn| ==> Framed(r.drawn[i]))
  }

  lemma FeedKeepsInv(r: Receiver, p: Part)
    requires ReceiverInv(r) && Plausible(p)
    ensures ReceiverInv(Feed(r, p))
  {
    var held := if p.start then [] else r.held;
    BlobGrows(held, p);
  }

  lemma {:induction false} ReceiveAllKeepsInv(r: Receiver, cs: seq<Chunk>)
    requires ReceiverInv(r) && forall c :: c in cs ==> IsSentChunk(c)
    ensures ReceiverInv(ReceiveAll(r, cs))
    decreases |cs|
  {
    if cs != [] {
      assert IsSentChunk(cs[0]);
      SentIsPlausible(cs[0]);
      FeedKeepsInv(r, Decode(cs[0]).value);
      ReceiveAllKeepsInv(Receive(r, cs[0]), cs[1..]);
    }
  }

  lemma {:induction false} BlobEnds(ps: seq<Part>)
    requires ps != [] && forall i :: 0 <= i < |ps| ==> ps[i].payload != []
    ensures |Blob(ps)| >= |ps[0].payload| && Blob(ps)[..|ps[0].payload|] == ps[0].payload
    ensures var last := ps[|ps| - 1].payload; Blob(ps)[|Blob(ps)| - 1] == last[|last| - 1]
    decreases |ps|
  {
    if |ps| > 1 {
      BlobEnds(ps[1..]);
    } else {
      assert Blob(ps[1..]) == [];
    }
  }

  lemma FramedBlob(ps: seq<Part>)
    requires Framed(ps)
    ensures var blob := Blob(ps); |blob| >= 4 && blob[0] == 0xFF && blob[1] == 0xD8 && blob[|blob| - 1] == 0xD9
  {
    BlobEnds(ps);
    var first := ps[0].payload;
    assert Blob(ps)[0] == Blob(ps)[..|first|][0] && Blob(ps)[1] == Blob(ps)[..|first|][1];
  }

  /** However sent chunks are lost, repeated and reordered: every blob drawn has one start chunk, at its front, and one
      end chunk, at its back, begins FF D8 and ends D9; and the byte count is that of the bytes held. */
  lemma DrawnBlobsAreFramed(cs: seq<Chunk>)
    requires forall c :: c in cs ==> IsSentChunk(c)
    ensures var r := ReceiveAll(IDLE, cs);
            && r.bytes == |Blob(r.held)|
            && forall i :: 0 <= i < |r.drawn| ==>
                 var blob := Blob(r.drawn[i]);
                 && Framed(r.drawn[i]) && |blob| >= 4
                 && blob[0] == 0xFF && blob[1] == 0xD8 && blob[|blob| - 1] == 0xD9
  {
    ReceiveAllKeepsInv(IDLE, cs);
    var r := ReceiveAll(IDLE, cs);
    forall i | 0 <= i < |r.drawn|
      ensures var blob := Blob(r.drawn[i]);
              |blob| >= 4 && blob[0] == 0xFF && blob[1] == 0xD8 && blob[|blob| - 1] == 0xD9
    {
      FramedBlob(r.drawn[i]);
    }
  }

  // ---- what loss does to one frame ----

  /** The parts that arrive, in order; the others are lost. */
  function Kept(ps: seq<Part>, arrives: seq<bool>): seq<Part>
    requires |ps| == |arrives|
    decreases |ps|
  {
    if ps == [] then [] else (if arrives[0] then [ps[0]] else []) + Kept(ps[1..], arrives[1..])
  }

  lemma {:induction false} WithoutStartNothing(r: Receiver, ps: seq<Part>)
    requires r.bytes == 0 && forall i :: 0 <= i < |ps| ==> !ps[i].start
    ensures FeedAll(r, ps) == r
    decreases |ps|
  {
    if ps != [] { WithoutStartNothing(r, ps[1..]); }
  }

  /** At most the first part starts, at most the last one ends. */
  predicate OneFrame(ps: seq<Part>) {
    && (forall i :: 0 <= i < |ps| ==> ps[i].payload != [] && (ps[i].start ==> i == 0) && (ps[i].end ==> i == |ps| - 1))
  }

  /** Continuations follow the parts already held until an end part draws what there is. */
  lemma {:induction false} ContinuationsAreJoined(r: Receiver, ps: seq<Part>)
    requires r.bytes > 0 && OneFrame(ps) && (ps != [] ==> !ps[0].start)
    ensures FeedAll(r, ps).drawn == if ps != [] && ps[|ps| - 1].end then r.drawn + [r.held + ps] else r.drawn
    decreases |ps|
  {
    if ps != [] {
      assert [ps[0]] + ps[1..] == ps;
      assert (r.held + [ps[0]]) + ps[1..] == r.held + ps;
      if |ps| > 1 { ContinuationsAreJoined(Feed(r, ps[0]), ps[1..]); } else { assert ps == [ps[0]] && ps[1..] == []; }
    }
  }

  /** A start part and what follows of its frame. */
  lemma StartedDraws(ps: seq<Part>)
    requires ps != [] && OneFrame(ps) && ps[0].start
    ensures FeedAll(IDLE, ps).drawn == if ps[|ps| - 1].end then [ps] else []
  {
    var p, rest := ps[0], ps[1..];
    assert [p] + rest == ps;
    assert IDLE.held + [p] == [p];
    if |ps| > 1 {
      ContinuationsAreJoined(Receiver([p], |p.payload|, []), rest);
    } else {
      assert ps == [p] && rest == [];
    }
  }

  lemma KeptUnfolds(ps: seq<Part>, arrives: seq<bool>)
    requires |ps| == |arrives| && ps != []
    ensures Kept(ps, arrives) == (if arrives[0] then [ps[0]] else []) + Kept(ps[1..], arrives[1..])
    ensures ps == [ps[0]] + ps[1..] && arrives == [arrives[0]] + arrives[1..]
    ensures arrives[|ps| - 1] == if |ps| == 1 then arrives[0] else arrives[1..][|ps| - 2]
  {
  }

  lemma {:induction false} KeptHasNoStart(ps: seq<Part>, arrives: seq<bool>)
    requires |ps| == |arrives| && forall i :: 0 <= i < |ps| ==> !ps[i].start
    ensures forall i :: 0 <= i < |Kept(ps, arrives)| ==> !Kept(ps, arrives)[i].start
    decreases |ps|
  {
    if ps != [] { KeptHasNoStart(ps[1..], arrives[1..]); }
  }

  /** A subsequence of one frame's parts keeps their marks where they were. */
  lemma {:induction false} KeptMarks(ps: seq<Part>, arrives: seq<bool>)
    requires |ps| == |arrives| && ps != [] && OneFrame(ps) && ps[|ps| - 1].end
    ensures var ks := Kept(ps, arrives);
            && OneFrame(ks)
            && (ks != [] && ks[0].start ==> arrives[0])
            && (ks != [] && ks[|ks| - 1].end <==> arrives[|ps| - 1])
    decreases |ps|
  {
    KeptUnfolds(ps, arrives);
    if |ps| > 1 {
      KeptMarks(ps[1..], arrives[1..]);
      KeptHasNoStart(ps[1..], arrives[1..]);
    } else {
      assert Kept(ps[1..], arrives[1..]) == [];
    }
  }

  /** A lost part shortens the blob. */
  lemma {:induction false} KeptBlob(ps: seq<Part>, arrives: seq<bool>)
    requires |ps| == |arrives| && forall i :: 0 <= i < |ps| ==> ps[i].payload != []
    ensures |Blob(Kept(ps, arrives))| <= |Blob(ps)|
    ensures |Blob(Kept(ps, arrives))| == |Blob(ps)| <==> forall i :: 0 <= i < |ps| ==> arrives[i]
    decreases |ps|
  {
    if ps != [] {
      KeptUnfolds(ps, arrives);
      KeptBlob(ps[1..], arrives[1..]);
      var rest := Kept(ps[1..], arrives[1..]);
      if arrives[0] { assert ([ps[0]] + rest)[1..] == rest; } else { assert Kept(ps, arrives) == rest; }
    }
  }

  lemma {:induction false} KeptAll(ps: seq<Part>, arrives: seq<bool>)
    requires |ps| == |arrives| && forall i :: 0 <= i < |ps| ==> arrives[i]
    ensures Kept(ps, arrives) == ps
    decreases |ps|
  {
    if ps != [] { KeptAll(ps[1..], arrives[1..]); }
  }

  lemma LossDraws(ps: seq<Part>, arrives: seq<bool>)
    requires |ps| == |arrives| && ps != [] && OneFrame(ps) && ps[0].start && ps[|ps| - 1].end
    ensures var ks := Kept(ps, arrives);
            FeedAll(IDLE, ks).drawn == if arrives[0] && arrives[|ps| - 1] then [ks] else []
  {
    var ks := Kept(ps, arrives);
    KeptMarks(ps, arrives);
    KeptUnfolds(ps, arrives);
    if arrives[0] {
      StartedDraws(ks);
    } else {
      WithoutStartNothing(IDLE, ks);
    }
  }

  lemma {:induction false} KeptSizes(ps: seq<Part>, arrives: seq<bool>)
    requires |ps| == |arrives| && forall i :: 0 <= i < |ps| ==> |ps[i].payload| <= CHUNK_PAYLOAD_SIZE
    ensures forall i :: 0 <= i < |Kept(ps, arrives)| ==> |Kept(ps, arrives)[i].payload| <= CHUNK_PAYLOAD_SIZE
    decreases |ps|
  {
    if ps != [] { KeptSizes(ps[1..], arrives[1..]); }
  }

  /** When a frame loses chunks, the browser draws a blob exactly if its first and last chunk arrive, and the
      blob is the frame exactly if all of them do: a gap between them goes unnoticed. */
  lemma LossExactly(frame: Frame, arrives: seq<bool>)
    requires IsJpeg(frame) && |arrives| == |Parts(frame, 0)|
    ensures var n := |arrives|;
            var kept := Kept(Parts(frame, 0), arrives);
            var images := Images(ReceiveAll(IDLE, EncodeAll(kept)).drawn);
            && n > 0
            && images == (if arrives[0] && arrives[n - 1] then [Blob(kept)] else [])
            && (images == [frame] <==> forall i :: 0 <= i < n ==> arrives[i])
  {
    var ps := Parts(frame, 0);
    PartsOf(frame, 0);
    LossDraws(ps, arrives);
    KeptBlob(ps, arrives);
    KeptSizes(ps, arrives);
    ReceiveEncoded(IDLE, Kept(ps, arrives));
    ImagesGrow([], Kept(ps, arrives));
    assert frame[0..] == frame;
    if forall i :: 0 <= i < |arrives| ==> arrives[i] { KeptAll(ps, arrives); }
  }

  function Zeros(n: nat): (z: seq<Byte>)
    ensures |z| == n
  {
    if n == 0 then [] else [0] + Zeros(n - 1)
  }

  lemma ThreeParts(frame: Frame)
    requires |frame| == 20_001
    ensures |Parts(frame, 0)| == 3
  {
    PartsUnfold(frame, 0);
    PartsUnfold(frame, 10_000);
    PartsUnfold(frame, 20_000);
  }

  /** A gap is drawn: any JPEG of 20001 bytes whose middle chunk is lost gives one image, which is not the frame. */
  lemma GapIsDrawn(frame: Frame)
    requires IsJpeg(frame) && |frame| == 20_001
    ensures |Parts(frame, 0)| == 3
    ensures var images := Images(ReceiveAll(IDLE, EncodeAll(Kept(Parts(frame, 0), [true, false, true]))).drawn);
            |images| == 1 && images != [frame]
  {
    ThreeParts(frame);
    LossExactly(frame, [true, false, true]);
  }

  lemma GapHappens()
    ensures exists frame: Frame :: IsJpeg(frame) && |frame| == 20_001
  {
    var frame: Frame := [0xFF, 0xD8] + Zeros(19_997) + [0xFF, 0xD9];
    assert |frame| == 20_001;
    assert frame[19_999] == 0xFF && frame[20_000] == 0xD9;
  }
}
