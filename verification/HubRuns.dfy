/** Whole runs of the hub: the log of everything handed to sockets, read as viewer sessions. */
module HubRuns {
  import opened Options
  import opened HubModel
  import opened HubSafety
  import opened IceTypes

  // ---- reading a log as sessions ----

  /** Something handed to a socket in a step that was taken while `device` was live. */
  datatype Entry = Entry(device: Option<SocketId>, out: Output)

  function Noted(device: Option<SocketId>, outs: seq<Output>): seq<Entry> {
    seq(|outs|, i requires 0 <= i < |outs| => Entry(device, outs[i]))
  }

  predicate WasHanded(log: seq<Entry>, o: Output) {
    exists i :: 0 <= i < |log| && log[i].out == o
  }

  datatype Session = Idle | Open(viewer: SocketId, device: SocketId) | Broken

  /** A session opens with `ice_servers` to its viewer, under the device of that moment, and ends with one of
      `peer_gone` to that viewer or `viewer_gone` to that device; while it is open, answers go only to that
      viewer and offers only to that device. */
  function Advance(x: Session, n: Entry): Session {
    match n.out
    case Send(v, Servers(_)) => if x == Idle && n.device.Some? then Open(v, n.device.value) else Broken
    case Send(v, PeerGone(_)) => if x.Open? && x.viewer == v then Idle else Broken
    case Send(d, ViewerGone) => if x.Open? && x.device == d then Idle else Broken
    case Send(v, Answer(_)) => if x.Open? && x.viewer == v then x else Broken
    case Send(d, Offer(_, _)) => if x.Open? && x.device != d then Broken else x
    case _ => x
  }

  function Track(x: Session, log: seq<Entry>): Session
    decreases |log|
  {
    if log == [] then x else Track(Advance(x, log[0]), log[1..])
  }

  /** Who was sent `ice_servers`, in order. */
  function Claimed(log: seq<Entry>): seq<SocketId> {
    if log == [] then []
    else ClaimedBy(log[0]) + Claimed(log[1..])
  }

  function ClaimedBy(n: Entry): seq<SocketId> {
    if n.out.Send? && n.out.msg.Servers? then [n.out.to] else []
  }

  /** Whose session each `peer_gone` or `viewer_gone` ended, in order. */
  function Ended(x: Session, log: seq<Entry>): seq<SocketId>
    decreases |log|
  {
    if log == [] then [] else EndedBy(x, log[0]) + Ended(Advance(x, log[0]), log[1..])
  }

  function EndedBy(x: Session, n: Entry): seq<SocketId> {
    if n.out.Send? && (n.out.msg.PeerGone? || n.out.msg.ViewerGone?) && x.Open? then [x.viewer] else []
  }

  function OpenOnes(x: Session): seq<SocketId> {
    if x.Open? then [x.viewer] else []
  }

  lemma {:induction false} TrackAppends(x: Session, a: seq<Entry>, b: seq<Entry>)
    ensures Track(x, a + b) == Track(Track(x, a), b)
    decreases |a|
  {
    if a == [] {
      assert a + b == b;
    } else {
      assert (a + b)[1..] == a[1..] + b;
      TrackAppends(Advance(x, a[0]), a[1..], b);
    }
  }

  lemma {:induction false} ClaimedAppends(a: seq<Entry>, b: seq<Entry>)
    ensures Claimed(a + b) == Claimed(a) + Claimed(b)
    decreases |a|
  {
    if a == [] {
      assert a + b == b;
    } else {
      assert (a + b)[1..] == a[1..] + b;
      ClaimedAppends(a[1..], b);
    }
  }

  lemma {:induction false} BrokenStays(log: seq<Entry>)
    ensures Track(Broken, log) == Broken
  {
    if log != [] { BrokenStays(log[1..]); }
  }

  lemma Shift<T>(a: seq<T>, b: seq<T>, rest: seq<T>, c: seq<T>, d: seq<T>, e: seq<T>, f: seq<T>)
    requires a + b == c + d && d + rest == e + f
    ensures a + (b + rest) == (c + e) + f
  {
    assert a + (b + rest) == (a + b) + rest;
    assert (c + d) + rest == c + (d + rest);
    assert c + (e + f) == (c + e) + f;
  }

  /** In an unbroken log the sessions claimed are the sessions ended, in the same order, and the open one. */
  lemma {:induction false} ClaimedIsEndedAndOpen(x: Session, log: seq<Entry>)
    requires Track(x, log) != Broken
    ensures OpenOnes(x) + Claimed(log) == Ended(x, log) + OpenOnes(Track(x, log))
    decreases |log|
  {
    if log != [] {
      var y := Advance(x, log[0]);
      if y == Broken { BrokenStays(log[1..]); }
      ClaimedIsEndedAndOpen(y, log[1..]);
      assert OpenOnes(x) + ClaimedBy(log[0]) == EndedBy(x, log[0]) + OpenOnes(y);
      Shift(OpenOnes(x), ClaimedBy(log[0]), Claimed(log[1..]),
            EndedBy(x, log[0]), OpenOnes(y), Ended(y, log[1..]), OpenOnes(Track(x, log)));
    }
  }

  // ---- one step ----

  ghost function SessionAt(h: Hub): Session {
    if Holder(h).Some? && Device(h).Some? then Open(Holder(h).value, Device(h).value) else Idle
  }

  lemma TrackOne(x: Session, a: Entry)
    ensures Track(x, [a]) == Advance(x, a)
  {
    assert [a][1..] == [];
  }

  lemma ShortTracks(x: Session, d: Option<SocketId>, outs: seq<Output>)
    ensures outs == [] ==> Track(x, Noted(d, outs)) == x
    ensures |outs| == 1 ==> Track(x, Noted(d, outs)) == Advance(x, Entry(d, outs[0]))
    ensures |outs| == 2 ==> Track(x, Noted(d, outs)) == Advance(Advance(x, Entry(d, outs[0])), Entry(d, outs[1]))
  {
    var ns := Noted(d, outs);
    if |outs| == 1 { assert ns == [Entry(d, outs[0])]; TrackOne(x, ns[0]); }
    if |outs| == 2 { assert ns[1..] == [Entry(d, outs[1])]; TrackOne(Advance(x, ns[0]), ns[1]); }
  }

  lemma EvictionEnds(h: Hub)
    requires SlotInv(h)
    ensures Track(SessionAt(h), Noted(Device(h), Eviction(Holder(h)))) == Idle
  {
    ShortTracks(SessionAt(h), Device(h), Eviction(Holder(h)));
  }

  lemma DeviceConnectTracks(h: Hub, s: SocketId, id: string, now: Time)
    requires SlotInv(h) && s !in h.sockets
    ensures var (h', outs) := DeviceConnect(h, s, id, now);
            Track(SessionAt(h), Noted(Device(h), outs)) == SessionAt(h') == Idle
  {
    AfterDeviceConnect(h, s, id, now);
    EvictionEnds(h);
    var closing, evicting := Superseding(Device(h)), Eviction(Holder(h));
    var d := Device(h);
    assert Noted(d, closing + evicting) == Noted(d, closing) + Noted(d, evicting);
    TrackAppends(SessionAt(h), Noted(d, closing), Noted(d, evicting));
    ShortTracks(SessionAt(h), d, closing);
  }

  lemma CloseTracks(h: Hub, s: SocketId, now: Time)
    requires SlotInv(h) && s in h.sockets
    ensures var (h', outs) := Drop(h, s, now);
            Track(SessionAt(h), Noted(Device(h), outs)) == SessionAt(h')
  {
    AfterDrop(h, s, now);
    EvictionEnds(h);
    ShortTracks(SessionAt(h), Device(h), Drop(h, s, now).1);
  }

  lemma ViewerConnectTracks(h: Hub, s: SocketId, sid: Sid, minted: IceServers, now: Time)
    requires SlotInv(h) && Enabled(h, ViewerConnects(s, sid, minted, now))
    ensures var (h', outs) := ViewerConnect(h, s, sid, minted, now);
            Track(SessionAt(h), Noted(Device(h), outs)) == SessionAt(h')
  {
    AfterClaim(h, s, sid, now);
    ShortTracks(SessionAt(h), Device(h), ViewerConnect(h, s, sid, minted, now).1);
  }

  lemma ReceiveTracks(h: Hub, s: SocketId, m: Incoming, now: Time)
    requires SlotInv(h) && s in h.sockets
    ensures var (h', outs) := Receive(h, s, m, now);
            Track(SessionAt(h), Noted(Device(h), outs)) == SessionAt(h')
  {
    ShortTracks(SessionAt(h), Device(h), Receive(h, s, m, now).1);
  }

  lemma AlarmTracks(h: Hub, now: Time)
    requires SlotInv(h)
    ensures var (h', outs) := Alarm(h, now);
            Track(SessionAt(h), Noted(Device(h), outs)) == SessionAt(h')
  {
    ShortTracks(SessionAt(h), Device(h), Alarm(h, now).1);
  }

  /** Reading a step's outputs from the session of the old claim gives the session of the new claim. */
  lemma StepTracks(h: Hub, e: Event)
    requires Inv(h) && Enabled(h, e)
    ensures Track(SessionAt(h), Noted(Device(h), Step(h, e).1)) == SessionAt(Step(h, e).0)
  {
    match e
    case DeviceConnects(s, id, now) => DeviceConnectTracks(h, s, id, now);
    case ViewerConnects(s, sid, minted, now) => ViewerConnectTracks(h, s, sid, minted, now);
    case Receives(s, m, now) => ReceiveTracks(h, s, m, now);
    case Closes(s, now) => CloseTracks(h, s, now);
    case AlarmFires(now) => AlarmTracks(h, now);
  }

  // ---- runs ----

  /** A hub with the log of its outputs, every socket it ever saw, and the clock. */
  datatype World = World(hub: Hub, log: seq<Entry>, seen: set<SocketId>, clock: Time)

  const START: World := World(EMPTY, [], {}, 0)

  ghost predicate Possible(w: World, e: Event) {
    && Enabled(w.hub, e)
    && w.clock <= e.now
    && (e.DeviceConnects? || e.ViewerConnects? ==> e.sock !in w.seen)
  }

  ghost function Exec(w: World, e: Event): World
    requires Possible(w, e)
  {
    var (h, outs) := Step(w.hub, e);
    World(h, w.log + Noted(Device(w.hub), outs), if e.AlarmFires? then w.seen else w.seen + {e.sock}, e.now)
  }

  ghost predicate IsRun(w: World, es: seq<Event>)
    decreases |es|
  {
    es == [] || (Possible(w, es[0]) && IsRun(Exec(w, es[0]), es[1..]))
  }

  ghost function Play(w: World, es: seq<Event>): World
    requires IsRun(w, es)
    decreases |es|
  {
    if es == [] then w else Play(Exec(w, es[0]), es[1..])
  }

  ghost predicate NoRepeats(s: seq<SocketId>) {
    forall i, j :: 0 <= i < j < |s| ==> s[i] != s[j]
  }

  ghost predicate SeenOnly(w: World) {
    && w.hub.sockets.Keys <= w.seen
    && (forall v :: v in Claimed(w.log) ==> v in w.seen)
  }

  /** The servers kept for the claim are the ones its holder was sent. */
  ghost predicate HolderWasSent(w: World) {
    Holder(w.hub).Some? ==> WasHanded(w.log, Send(Holder(w.hub).value, Servers(w.hub.ice)))
  }

  ghost predicate RowInPast(w: World) {
    w.hub.row.Some? ==> w.hub.row.value.lastSeen.Some? && w.hub.row.value.firstSeen.Some?
                        && w.hub.row.value.lastSeen.value <= w.clock
  }

  ghost predicate WorldInv(w: World) {
    && Inv(w.hub)
    && Track(Idle, w.log) == SessionAt(w.hub)
    && SeenOnly(w)
    && NoRepeats(Claimed(w.log))
    && HolderWasSent(w)
    && RowInPast(w)
  }

  lemma {:induction false} NoneClaimed(log: seq<Entry>)
    requires forall n :: n in log ==> ClaimedBy(n) == []
    ensures Claimed(log) == []
  {
    if log != [] { NoneClaimed(log[1..]); }
  }

  lemma ClaimedByStep(h: Hub, e: Event)
    requires Inv(h) && Enabled(h, e)
    ensures var c := Claimed(Noted(Device(h), Step(h, e).1)); c == [] || (e.ViewerConnects? && c == [e.sock])
  {
    var ns := Noted(Device(h), Step(h, e).1);
    if e.ViewerConnects? && Admits(h) {
      assert ns == [Entry(Device(h), Send(e.sock, Servers(Some(e.minted))))];
      assert ns[1..] == [];
    } else {
      NoneClaimed(ns);
    }
  }

  lemma HandedStays(log: seq<Entry>, more: seq<Entry>, o: Output)
    requires WasHanded(log, o)
    ensures WasHanded(log + more, o)
  {
    var i :| 0 <= i < |log| && log[i].out == o;
    assert (log + more)[i].out == o;
  }

  lemma HolderKept(w: World, e: Event)
    requires WorldInv(w) && Possible(w, e)
    ensures HolderWasSent(Exec(w, e))
  {
    var h, h', ns := w.hub, Step(w.hub, e).0, Noted(Device(w.hub), Step(w.hub, e).1);
    if Holder(h).Some? {
      HandedStays(w.log, ns, Send(Holder(h).value, Servers(h.ice)));
    }
    match e
    case DeviceConnects(s, id, now) => AfterDeviceConnect(h, s, id, now);
    case ViewerConnects(s, sid, minted, now) =>
      AfterClaim(h, s, sid, now);
      if Admits(h) { assert (w.log + ns)[|w.log|].out == Send(s, Servers(Some(minted))); }
    case Receives(_, _, _) =>
    case Closes(s, now) => AfterDrop(h, s, now);
    case AlarmFires(_) =>
  }

  lemma NoRepeatsAppends(s: seq<SocketId>, v: SocketId)
    requires NoRepeats(s) && v !in s
    ensures NoRepeats(s + [v])
  {
  }

  lemma NoOtherSockets(h: Hub, e: Event)
    requires Enabled(h, e)
    ensures Step(h, e).0.sockets.Keys <= if e.AlarmFires? then h.sockets.Keys else h.sockets.Keys + {e.sock}
  {
  }

  lemma ClaimsKept(w: World, e: Event)
    requires WorldInv(w) && Possible(w, e)
    ensures SeenOnly(Exec(w, e)) && NoRepeats(Claimed(Exec(w, e).log))
  {
    var ns := Noted(Device(w.hub), Step(w.hub, e).1);
    ClaimedAppends(w.log, ns);
    ClaimedByStep(w.hub, e);
    NoOtherSockets(w.hub, e);
    if Claimed(ns) == [] {
      assert Claimed(w.log + ns) == Claimed(w.log);
    } else {
      NoRepeatsAppends(Claimed(w.log), e.sock);
    }
  }

  lemma RowKept(w: World, e: Event)
    requires WorldInv(w) && Possible(w, e)
    ensures RowInPast(Exec(w, e))
  {
  }

  lemma ExecKeepsInv(w: World, e: Event)
    requires WorldInv(w) && Possible(w, e)
    ensures WorldInv(Exec(w, e))
  {
    assert Inv(Exec(w, e).hub) by { StepKeepsInv(w.hub, e); }
    assert Track(Idle, Exec(w, e).log) == SessionAt(Exec(w, e).hub) by {
      StepTracks(w.hub, e);
      TrackAppends(Idle, w.log, Noted(Device(w.hub), Step(w.hub, e).1));
    }
    ClaimsKept(w, e);
    HolderKept(w, e);
    RowKept(w, e);
  }

  lemma {:induction false} PlayKeepsInv(w: World, es: seq<Event>)
    requires WorldInv(w) && IsRun(w, es)
    ensures WorldInv(Play(w, es))
    decreases |es|
  {
    if es != [] {
      ExecKeepsInv(w, es[0]);
      PlayKeepsInv(Exec(w, es[0]), es[1..]);
    }
  }

  lemma StartHolds()
    ensures WorldInv(START)
  {
  }
}
