/** The Durable Object against the Go hub it replaces, step by step over whole runs: they hand every
    socket the same messages and closes exactly while each step is aligned. */
module HubParity {
  import opened Options
  import opened IceTypes
  import opened HubModel
  import opened HubSafety
  import R = Registry

  /** The Go hub with its handlers run to completion between reads: `serving` are the viewer handlers in
      their read loop with their credentials, `shut` the viewers whose connection the server has closed,
      so that their next read only fails. */
  datatype Go = Go(slots: R.Slots, devices: set<SocketId>, serving: map<SocketId, IceServers>, shut: set<SocketId>)

  const GO_EMPTY: Go := Go(R.VACANT, {}, map[], {})

  function GoViewerConnect(g: Go, s: SocketId, minted: IceServers): (Go, seq<Output>) {
    if g.slots.conn.None? then
      (g, [Send(s, Error("device offline")), Close(s, NORMAL_CLOSURE, "device offline")])
    else if g.slots.viewer.Some? then
      (g, [Send(s, Error("busy: another viewer is already watching")),
           Close(s, POLICY_VIOLATION, "viewer slot busy")])
    else
      (g.(slots := R.TryClaim(g.slots, s), serving := g.serving[s := minted]), [Send(s, Servers(Some(minted)))])
  }

  /** A viewer handler returns: the deferred release and the unconditional `viewer_gone`. */
  function GoViewerReturn(g: Go, s: SocketId): (Go, seq<Output>) {
    (g.(slots := R.Release(g.slots, s), serving := g.serving - {s}, shut := g.shut - {s}),
     ToEach(g.slots.conn, ViewerGone))
  }

  /** A device handler returns: the deferred detach with its eviction. */
  function GoDeviceReturn(g: Go, s: SocketId): (Go, seq<Output>) {
    var evicted := if g.slots.viewer.Some? then {g.slots.viewer.value} else {};
    (g.(slots := R.Detach(g.slots, s), devices := g.devices - {s}, shut := g.shut + evicted),
     Eviction(g.slots.viewer))
  }

  /** A relay to an absent device fails, and the viewer handler returns. */
  function GoForward(g: Go, s: SocketId, msg: Message): (Go, seq<Output>) {
    if g.slots.conn.None? then GoViewerReturn(g, s) else (g, ToEach(g.slots.conn, msg))
  }

  function GoReceive(g: Go, s: SocketId, m: Incoming): (Go, seq<Output>) {
    if s in g.devices then
      match m
      case AnswerIn(sdp) => (g, ToEach(g.slots.viewer, Answer(sdp)))
      case CandidateIn(c) => (g, ToEach(g.slots.viewer, Candidate(c)))
      case _ => (g, [])
    else if s in g.serving && s !in g.shut then
      match m
      case OfferIn(sdp) => GoForward(g, s, Offer(sdp, Some(g.serving[s])))
      case CandidateIn(c) => GoForward(g, s, Candidate(c))
      case _ => (g, [])
    else (g, [])
  }

  function GoStep(g: Go, e: Event): (Go, seq<Output>) {
    match e
    case DeviceConnects(s, _, _) => (g.(slots := R.Attach(g.slots, s), devices := g.devices + {s}), [])
    case ViewerConnects(s, _, minted, _) => GoViewerConnect(g, s, minted)
    case Receives(s, m, _) => GoReceive(g, s, m)
    case Closes(s, _) =>
      if s in g.devices then GoDeviceReturn(g, s)
      else if s in g.serving then GoViewerReturn(g, s)
      else (g, [])
    case AlarmFires(_) => (g, [])
  }

  // ---- what is compared ----

  /** An idle close is a read timeout in the Go hub: what follows it is the socket's close event. */
  predicate IsTimeout(o: Output) {
    o.Close? && (o.why == "idle timeout" || o.why == "viewer idle")
  }

  function Told(outs: seq<Output>): seq<Output> {
    if outs == [] then [] else (if IsTimeout(outs[0]) then [] else [outs[0]]) + Told(outs[1..])
  }

  lemma {:induction false} ToldAll(outs: seq<Output>)
    requires forall o :: o in outs ==> !IsTimeout(o)
    ensures Told(outs) == outs
  {
    if outs != [] { ToldAll(outs[1..]); }
  }

  // ---- when the two hubs stand alike ----

  ghost predicate Alike(h: Hub, g: Go) {
    && Inv(h)
    && g.slots.conn == Device(h) && g.slots.viewer == Holder(h)
    && (forall s :: s in h.sockets && h.sockets[s].role == DeviceRole ==> Live(h.sockets[s]))
    && (forall s :: s in g.devices <==> Device(h) == Some(s))
    && (forall v :: v in g.serving ==> v in h.sockets && h.sockets[v].role == ViewerRole)
    && (forall v :: v in g.serving && v in g.shut <==> v in g.serving && Holder(h) != Some(v))
    && (Holder(h).Some? ==> Holder(h).value in g.serving && h.ice == Some(g.serving[Holder(h).value]))
    && g.shut <= g.serving.Keys
  }

  /** No overlapping device sockets; while a device is attached, viewers without the claim send no offers or
      candidates, and no evicted viewer's close is still to come. */
  ghost predicate Aligned(h: Hub, g: Go, e: Event)
    requires Enabled(h, e)
  {
    match e
    case DeviceConnects(_, _, _) => Device(h).None?
    case Receives(s, m, _) =>
      h.sockets[s].role == ViewerRole && Holder(h) != Some(s) && (m.OfferIn? || m.CandidateIn?) ==> Device(h).None?
    case Closes(s, _) => s in g.serving && Holder(h) != Some(s) ==> Device(h).None?
    case _ => true
  }

  // ---- one step ----

  lemma FirstDeviceParity(h: Hub, g: Go, s: SocketId, id: string, now: Time)
    requires Alike(h, g) && Enabled(h, DeviceConnects(s, id, now)) && Device(h).None?
    ensures var e := DeviceConnects(s, id, now);
            Told(Step(h, e).1) == GoStep(g, e).1 && Alike(Step(h, e).0, GoStep(g, e).0)
  {
    AfterDeviceConnect(h, s, id, now);
    StepKeepsInv(h, DeviceConnects(s, id, now));
    assert DeviceConnect(h, s, id, now).1 == [];
  }

  /** A second device is where the two part: the hub closes the first, the Go hub says nothing. */
  lemma SecondDeviceDiffers(h: Hub, s: SocketId, id: string, now: Time)
    requires Device(h).Some?
    ensures Told(DeviceConnect(h, s, id, now).1) != []
  {
    ToldAll(DeviceConnect(h, s, id, now).1);
  }

  lemma DeviceConnectParity(h: Hub, g: Go, s: SocketId, id: string, now: Time)
    requires Alike(h, g) && Enabled(h, DeviceConnects(s, id, now))
    ensures var e := DeviceConnects(s, id, now);
            && (Told(Step(h, e).1) == GoStep(g, e).1 <==> Aligned(h, g, e))
            && (Aligned(h, g, e) ==> Alike(Step(h, e).0, GoStep(g, e).0))
  {
    if Device(h).None? { FirstDeviceParity(h, g, s, id, now); } else { SecondDeviceDiffers(h, s, id, now); }
  }

  /** A socket that is new to the hub is new to its counterpart, and the old ones are where they were. */
  lemma ClaimKeepsServing(h: Hub, g: Go, s: SocketId, sid: Sid, minted: IceServers, now: Time)
    requires Alike(h, g) && Enabled(h, ViewerConnects(s, sid, minted, now))
    ensures var h' := ViewerConnect(h, s, sid, minted, now).0;
            && s !in g.serving && s !in g.shut
            && h'.sockets == h.sockets[s := Meta(ViewerRole, Some(sid), false)]
            && Inv(h') && Device(h') == Device(h)
            && Holder(h') == (if Admits(h) then Some(s) else Holder(h))
            && h'.ice == if Admits(h) then Some(minted) else h.ice
  {
    AfterClaim(h, s, sid, now);
    StepKeepsInv(h, ViewerConnects(s, sid, minted, now));
  }

  /** A rejected viewer's socket changes nothing in the comparison. */
  lemma AlikeWithGuest(h: Hub, g: Go, h': Hub, s: SocketId, sid: Sid)
    requires Alike(h, g) && Inv(h') && s !in h.sockets
    requires h' == h.(sockets := h.sockets[s := Meta(ViewerRole, Some(sid), false)])
    requires Device(h') == Device(h) && Holder(h') == Holder(h)
    ensures Alike(h', g)
  {
  }

  lemma RejectedParity(h: Hub, g: Go, s: SocketId, sid: Sid, minted: IceServers, now: Time)
    requires Alike(h, g) && Enabled(h, ViewerConnects(s, sid, minted, now)) && !Admits(h)
    ensures Told(ViewerConnect(h, s, sid, minted, now).1) == GoViewerConnect(g, s, minted).1
    ensures Alike(ViewerConnect(h, s, sid, minted, now).0, g) && GoViewerConnect(g, s, minted).0 == g
  {
    ClaimKeepsServing(h, g, s, sid, minted, now);
    ToldAll(ViewerConnect(h, s, sid, minted, now).1);
    AlikeWithGuest(h, g, ViewerConnect(h, s, sid, minted, now).0, s, sid);
  }

  lemma AdmittedParity(h: Hub, g: Go, s: SocketId, sid: Sid, minted: IceServers, now: Time)
    requires Alike(h, g) && Enabled(h, ViewerConnects(s, sid, minted, now)) && Admits(h)
    ensures Told(ViewerConnect(h, s, sid, minted, now).1) == GoViewerConnect(g, s, minted).1
    ensures Alike(ViewerConnect(h, s, sid, minted, now).0, GoViewerConnect(g, s, minted).0)
  {
    ClaimKeepsServing(h, g, s, sid, minted, now);
    ToldAll(ViewerConnect(h, s, sid, minted, now).1);
  }

  lemma ViewerConnectParity(h: Hub, g: Go, s: SocketId, sid: Sid, minted: IceServers, now: Time)
    requires Alike(h, g) && Enabled(h, ViewerConnects(s, sid, minted, now))
    ensures var e := ViewerConnects(s, sid, minted, now);
            && Told(Step(h, e).1) == GoStep(g, e).1
            && Alike(Step(h, e).0, GoStep(g, e).0)
  {
    if Admits(h) {
      AdmittedParity(h, g, s, sid, minted, now);
    } else {
      RejectedParity(h, g, s, sid, minted, now);
    }
  }

  lemma DeviceSays(h: Hub, g: Go, s: SocketId, m: Incoming, now: Time)
    requires Alike(h, g) && s in h.sockets && h.sockets[s].role == DeviceRole
    ensures var e := Receives(s, m, now);
            && (Told(Step(h, e).1) == GoStep(g, e).1 <==> Aligned(h, g, e))
            && Alike(Step(h, e).0, GoStep(g, e).0)
  {
    ToldAll(Receive(h, s, m, now).1);
    LiveIsDevice(h.sockets, s);
  }

  lemma AlikeWithoutStamp(h: Hub, g: Go, now: Time)
    requires Alike(h, g)
    ensures Alike(h.(viewerLast := Some(now)), g)
  {
  }

  lemma ViewerSays(h: Hub, g: Go, s: SocketId, m: Incoming, now: Time)
    requires Alike(h, g) && s in h.sockets && h.sockets[s].role == ViewerRole
    ensures var e := Receives(s, m, now);
            && (Told(Step(h, e).1) == GoStep(g, e).1 <==> Aligned(h, g, e))
            && Alike(Step(h, e).0, GoStep(g, e).0)
  {
    ToldAll(Receive(h, s, m, now).1);
    AlikeWithoutStamp(h, g, now);
  }

  lemma ReceiveParity(h: Hub, g: Go, s: SocketId, m: Incoming, now: Time)
    requires Alike(h, g) && s in h.sockets
    ensures var e := Receives(s, m, now);
            && (Told(Step(h, e).1) == GoStep(g, e).1 <==> Aligned(h, g, e))
            && Alike(Step(h, e).0, GoStep(g, e).0)
  {
    if h.sockets[s].role == DeviceRole { DeviceSays(h, g, s, m, now); } else { ViewerSays(h, g, s, m, now); }
  }

  lemma DeviceLeaves(h: Hub, g: Go, s: SocketId, now: Time)
    requires Alike(h, g) && s in h.sockets && h.sockets[s].role == DeviceRole
    ensures var e := Closes(s, now);
            && (Told(Step(h, e).1) == GoStep(g, e).1 <==> Aligned(h, g, e))
            && Alike(Step(h, e).0, GoStep(g, e).0)
  {
    LiveIsDevice(h.sockets, s);
    AfterDrop(h, s, now);
    StepKeepsInv(h, Closes(s, now));
    ToldAll(Drop(h, s, now).1);
  }

  lemma HolderLeaves(h: Hub, g: Go, s: SocketId, now: Time)
    requires Alike(h, g) && Holder(h) == Some(s)
    ensures var e := Closes(s, now);
            && (Told(Step(h, e).1) == GoStep(g, e).1 <==> Aligned(h, g, e))
            && Alike(Step(h, e).0, GoStep(g, e).0)
  {
    AfterDrop(h, s, now);
    StepKeepsInv(h, Closes(s, now));
    ToldAll(Drop(h, s, now).1);
  }

  lemma OtherLeaves(h: Hub, g: Go, s: SocketId, now: Time)
    requires Alike(h, g) && s in h.sockets && h.sockets[s].role == ViewerRole && Holder(h) != Some(s)
    ensures var e := Closes(s, now);
            && (Told(Step(h, e).1) == GoStep(g, e).1 <==> Aligned(h, g, e))
            && Alike(Step(h, e).0, GoStep(g, e).0)
  {
    AfterDrop(h, s, now);
    StepKeepsInv(h, Closes(s, now));
    ToldAll(Drop(h, s, now).1);
  }

  lemma CloseParity(h: Hub, g: Go, s: SocketId, now: Time)
    requires Alike(h, g) && s in h.sockets
    ensures var e := Closes(s, now);
            && (Told(Step(h, e).1) == GoStep(g, e).1 <==> Aligned(h, g, e))
            && Alike(Step(h, e).0, GoStep(g, e).0)
  {
    if h.sockets[s].role == DeviceRole {
      DeviceLeaves(h, g, s, now);
    } else if Holder(h) == Some(s) {
      HolderLeaves(h, g, s, now);
    } else {
      OtherLeaves(h, g, s, now);
    }
  }

  /** A device connects while another is there. */
  ghost predicate Overlaps(h: Hub, e: Event) {
    e.DeviceConnects? && Device(h).Some?
  }

  /** A step tells the same exactly if it is aligned, and leaves the two alike unless devices overlap in it. */
  lemma StepParity(h: Hub, g: Go, e: Event)
    requires Alike(h, g) && Enabled(h, e)
    ensures Told(Step(h, e).1) == GoStep(g, e).1 <==> Aligned(h, g, e)
    ensures Aligned(h, g, e) ==> !Overlaps(h, e)
    ensures !Overlaps(h, e) ==> Alike(Step(h, e).0, GoStep(g, e).0)
  {
    match e
    case DeviceConnects(s, id, now) => DeviceConnectParity(h, g, s, id, now);
    case ViewerConnects(s, sid, minted, now) => ViewerConnectParity(h, g, s, sid, minted, now);
    case Receives(s, m, now) => ReceiveParity(h, g, s, m, now);
    case Closes(s, now) => CloseParity(h, g, s, now);
    case AlarmFires(now) =>
      assert Alarm(h, now).1 == [] || Alarm(h, now).1[1..] == [];
      StepKeepsInv(h, e);
  }

  // ---- whole runs ----

  ghost predicate IsHubRun(h: Hub, es: seq<Event>)
    decreases |es|
  {
    es == [] || (Enabled(h, es[0]) && IsHubRun(Step(h, es[0]).0, es[1..]))
  }

  /** What each step told its sockets. */
  ghost function HubTrace(h: Hub, es: seq<Event>): seq<seq<Output>>
    requires IsHubRun(h, es)
    decreases |es|
  {
    if es == [] then [] else [Told(Step(h, es[0]).1)] + HubTrace(Step(h, es[0]).0, es[1..])
  }

  function GoTrace(g: Go, es: seq<Event>): seq<seq<Output>>
    decreases |es|
  {
    if es == [] then [] else [GoStep(g, es[0]).1] + GoTrace(GoStep(g, es[0]).0, es[1..])
  }

  ghost predicate AllAligned(h: Hub, g: Go, es: seq<Event>)
    requires IsHubRun(h, es)
    decreases |es|
  {
    es == [] || (Aligned(h, g, es[0]) && AllAligned(Step(h, es[0]).0, GoStep(g, es[0]).0, es[1..]))
  }

  /** The two hubs tell every socket the same, step for step, exactly on the runs whose steps are all aligned. */
  lemma {:induction false} ParityExactly(h: Hub, g: Go, es: seq<Event>)
    requires Alike(h, g) && IsHubRun(h, es)
    ensures HubTrace(h, es) == GoTrace(g, es) <==> AllAligned(h, g, es)
    decreases |es|
  {
    if es != [] {
      var h', g' := Step(h, es[0]).0, GoStep(g, es[0]).0;
      StepParity(h, g, es[0]);
      assert HubTrace(h, es)[0] == Told(Step(h, es[0]).1) && GoTrace(g, es)[0] == GoStep(g, es[0]).1;
      if Aligned(h, g, es[0]) {
        ParityExactly(h', g', es[1..]);
        assert HubTrace(h, es)[1..] == HubTrace(h', es[1..]) && GoTrace(g, es)[1..] == GoTrace(g', es[1..]);
      }
    }
  }

  lemma ParityFromTheStart(es: seq<Event>)
    requires IsHubRun(EMPTY, es)
    ensures HubTrace(EMPTY, es) == GoTrace(GO_EMPTY, es) <==> AllAligned(EMPTY, GO_EMPTY, es)
  {
    ParityExactly(EMPTY, GO_EMPTY, es);
  }

  // ---- the same in the hub's own terms ----

  /** The evicted viewers whose close is still to come. */
  ghost function Evicted(h: Hub, evicted: set<SocketId>, e: Event): set<SocketId>
    requires Enabled(h, e)
  {
    var h' := Step(h, e).0;
    (evicted + if Holder(h).Some? && Holder(h') != Holder(h) then {Holder(h).value} else {}) * h'.sockets.Keys
  }

  /** A device connects only when no other is there; while there is a device, viewers without the claim send no
      offers or candidates, and no evicted viewer's close comes in. */
  ghost predicate Tidy(h: Hub, evicted: set<SocketId>, e: Event)
    requires Enabled(h, e)
  {
    match e
    case DeviceConnects(_, _, _) => Device(h).None?
    case Receives(s, m, _) =>
      h.sockets[s].role == ViewerRole && Holder(h) != Some(s) && (m.OfferIn? || m.CandidateIn?) ==> Device(h).None?
    case Closes(s, _) => s in evicted ==> Device(h).None?
    case _ => true
  }

  ghost predicate AllTidy(h: Hub, evicted: set<SocketId>, es: seq<Event>)
    requires IsHubRun(h, es)
    decreases |es|
  {
    es == [] || (Tidy(h, evicted, es[0]) && AllTidy(Step(h, es[0]).0, Evicted(h, evicted, es[0]), es[1..]))
  }

  lemma TidyIsAligned(h: Hub, g: Go, e: Event)
    requires Alike(h, g) && Enabled(h, e)
    ensures Tidy(h, g.shut, e) <==> Aligned(h, g, e)
  {
  }

  lemma DeviceCloseEvicts(h: Hub, g: Go, s: SocketId, now: Time)
    requires Alike(h, g) && Device(h) == Some(s)
    ensures GoStep(g, Closes(s, now)).0.shut == Evicted(h, g.shut, Closes(s, now))
  {
    AfterDrop(h, s, now);
  }

  lemma ViewerCloseIsCounted(h: Hub, g: Go, s: SocketId, now: Time)
    requires Alike(h, g) && s in h.sockets && h.sockets[s].role == ViewerRole
    ensures GoStep(g, Closes(s, now)).0.shut == Evicted(h, g.shut, Closes(s, now))
  {
    AfterDrop(h, s, now);
  }

  lemma ClosesAreCounted(h: Hub, g: Go, s: SocketId, now: Time)
    requires Alike(h, g) && s in h.sockets
    ensures GoStep(g, Closes(s, now)).0.shut == Evicted(h, g.shut, Closes(s, now))
  {
    if h.sockets[s].role == DeviceRole {
      LiveIsDevice(h.sockets, s);
      DeviceCloseEvicts(h, g, s, now);
    } else {
      ViewerCloseIsCounted(h, g, s, now);
    }
  }

  lemma OnlyClosesEvict(h: Hub, evicted: set<SocketId>, e: Event)
    requires Inv(h) && Enabled(h, e) && !e.Closes? && evicted <= h.sockets.Keys
    requires e.DeviceConnects? ==> Device(h).None?
    ensures Evicted(h, evicted, e) == evicted
  {
    match e
    case DeviceConnects(s, id, now) => AfterDeviceConnect(h, s, id, now);
    case ViewerConnects(s, sid, minted, now) => AfterClaim(h, s, sid, now);
    case Receives(_, _, _) =>
    case AlarmFires(_) =>
  }

  /** The viewers the Go hub has closed are those evicted and not yet gone. */
  lemma ShutAreEvicted(h: Hub, g: Go, e: Event)
    requires Alike(h, g) && Enabled(h, e) && Aligned(h, g, e)
    ensures GoStep(g, e).0.shut == Evicted(h, g.shut, e)
  {
    if e.Closes? { ClosesAreCounted(h, g, e.sock, e.now); } else { OnlyClosesEvict(h, g.shut, e); }
  }

  lemma {:induction false} TidyRunsAreAligned(h: Hub, g: Go, es: seq<Event>)
    requires Alike(h, g) && IsHubRun(h, es)
    ensures AllTidy(h, g.shut, es) <==> AllAligned(h, g, es)
    decreases |es|
  {
    if es != [] {
      TidyIsAligned(h, g, es[0]);
      StepParity(h, g, es[0]);
      if Aligned(h, g, es[0]) {
        ShutAreEvicted(h, g, es[0]);
        TidyRunsAreAligned(Step(h, es[0]).0, GoStep(g, es[0]).0, es[1..]);
      }
    }
  }

  /** Parity in the hub's own terms: the two hubs tell every socket the same, step for step, exactly on the runs without
      overlapping device sockets in which, while there is a device, viewers without the claim stay silent and no close
      of an evicted viewer comes in. */
  lemma TidyParity(es: seq<Event>)
    requires IsHubRun(EMPTY, es)
    ensures HubTrace(EMPTY, es) == GoTrace(GO_EMPTY, es) <==> AllTidy(EMPTY, {}, es)
  {
    TidyRunsAreAligned(EMPTY, GO_EMPTY, es);
    ParityFromTheStart(es);
  }

  lemma Prepend(h: Hub, g: Go, e: Event, es: seq<Event>)
    requires Enabled(h, e) && IsHubRun(Step(h, e).0, es)
    ensures IsHubRun(h, [e] + es)
    ensures AllAligned(h, g, [e] + es) <==> Aligned(h, g, e) && AllAligned(Step(h, e).0, GoStep(g, e).0, es)
  {
    assert ([e] + es)[1..] == es;
  }

  /** The last step of the run below, from any state like the one it is taken in: the viewer evicted by the
      first device closes after the second has connected. */
  lemma EvictedCloseAfterReconnect(h: Hub, g: Go, d: SocketId, v: SocketId, now: Time)
    requires Alike(h, g) && Device(h) == Some(d) && Holder(h).None? && v in g.serving
    ensures Enabled(h, Closes(v, now))
    ensures Step(h, Closes(v, now)).1 == [] && GoStep(g, Closes(v, now)).1 == [Send(d, ViewerGone)]
    ensures !AllAligned(h, g, [Closes(v, now)] + [])
  {
    AfterDrop(h, v, now);
    Prepend(h, g, Closes(v, now), []);
  }

  /** Silent rejects, no overlapping devices and an evicted viewer's close before the next claim are not enough:
      a reconnect before that close is answered by the Go hub with a `viewer_gone` to the new device. */
  lemma ReconnectBeforeEvictedCloseDiffers(minted: IceServers)
    ensures var es := [DeviceConnects(0, "cam", 0)] + ([ViewerConnects(1, 1, minted, 1)] + ([Closes(0, 2)]
                        + ([DeviceConnects(2, "cam", 3)] + ([Closes(1, 4)] + []))));
            IsHubRun(EMPTY, es) && HubTrace(EMPTY, es) != GoTrace(GO_EMPTY, es)
  {
    var e0, e1 := DeviceConnects(0, "cam", 0), ViewerConnects(1, 1, minted, 1);
    var e2, e3 := Closes(0, 2), DeviceConnects(2, "cam", 3);
    var h1, g1 := Step(EMPTY, e0).0, GoStep(GO_EMPTY, e0).0;
    var h2, g2 := Step(h1, e1).0, GoStep(g1, e1).0;
    WatchedCamera(minted);
    var a, b := Reconnected(h2, g2, e2, e3);
    var (h3, g3) := a;
    var (h4, g4) := b;
    var es := [Closes(1, 4)] + [];
    EvictedCloseAfterReconnect(h4, g4, 2, 1, 4);
    assert !AllAligned(h4, g4, es);
    Prepend(h3, g3, e3, es);
    es := [e3] + es;
    Prepend(h2, g2, e2, es);
    es := [e2] + es;
    Prepend(h1, g1, e1, es);
    es := [e1] + es;
    Prepend(EMPTY, GO_EMPTY, e0, es);
    ParityFromTheStart([e0] + es);
  }

  lemma WatchedCamera(minted: IceServers)
    ensures var e0, e1 := DeviceConnects(0, "cam", 0), ViewerConnects(1, 1, minted, 1);
            var h1, g1 := Step(EMPTY, e0).0, GoStep(GO_EMPTY, e0).0;
            && Enabled(h1, e1)
            && var h2, g2 := Step(h1, e1).0, GoStep(g1, e1).0;
               Alike(h2, g2) && Device(h2) == Some(0) && g2.serving == map[1 := minted] && 2 !in h2.sockets
  {
    var e0, e1 := DeviceConnects(0, "cam", 0), ViewerConnects(1, 1, minted, 1);
    var h1, g1 := Step(EMPTY, e0).0, GoStep(GO_EMPTY, e0).0;
    AfterDeviceConnect(EMPTY, 0, "cam", 0);
    StepParity(EMPTY, GO_EMPTY, e0);
    assert h1.sockets == map[0 := Meta(DeviceRole, None, false)];
    AfterClaim(h1, 1, 1, 1);
    StepParity(h1, g1, e1);
  }

  lemma Reconnected(h: Hub, g: Go, gone: Event, back: Event) returns (a: (Hub, Go), b: (Hub, Go))
    requires Alike(h, g) && gone.Closes? && Device(h) == Some(gone.sock)
    requires back.DeviceConnects? && back.sock !in h.sockets
    ensures a == (Step(h, gone).0, GoStep(g, gone).0)
    ensures Enabled(a.0, back) && b == (Step(a.0, back).0, GoStep(a.1, back).0)
    ensures Alike(b.0, b.1) && Device(b.0) == Some(back.sock) && Holder(b.0).None? && b.1.serving == g.serving
  {
    AfterDrop(h, gone.sock, gone.now);
    StepParity(h, g, gone);
    a := (Step(h, gone).0, GoStep(g, gone).0);
    AfterDeviceConnect(a.0, back.sock, back.id, back.now);
    StepParity(a.0, a.1, back);
    b := (Step(a.0, back).0, GoStep(a.1, back).0);
  }
}
