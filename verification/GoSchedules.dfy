/** The Go hub with its handlers run between reads is one of the schedules of its critical sections; who is in its
    slots, and what its handlers relay, also where the two hubs part. */
module GoSchedules {
  import opened Options
  import opened IceTypes
  import opened HubModel
  import opened HubParity
  import S = GoSlots

  function GoAfter(g: Go, es: seq<Event>): Go
    decreases |es|
  {
    if es == [] then g else GoAfter(GoStep(g, es[0]).0, es[1..])
  }

  predicate Connects(e: Event) {
    e.DeviceConnects? || e.ViewerConnects?
  }

  /** No socket connects twice. */
  predicate AllNew(seen: set<SocketId>, es: seq<Event>)
    decreases |es|
  {
    es == [] ||
    (if Connects(es[0]) then es[0].sock !in seen && AllNew(seen + {es[0].sock}, es[1..]) else AllNew(seen, es[1..]))
  }

  function Seen(seen: set<SocketId>, e: Event): set<SocketId> {
    if Connects(e) then seen + {e.sock} else seen
  }

  // ---- the critical sections of an event ----

  function Sections(g: Go, e: Event): seq<S.Action> {
    match e
    case DeviceConnects(s, _, _) => [S.DeviceAccept(s), S.DeviceAttach(s)]
    case ViewerConnects(s, _, _, _) =>
      [S.ViewerArrive(s), S.ViewerCheck(s)] + if g.slots.conn.Some? then [S.ViewerClaim(s)] else []
    case Receives(s, m, _) =>
      if s !in g.devices && s in g.serving && s !in g.shut && g.slots.conn.None? && (m.OfferIn? || m.CandidateIn?)
      then [S.ViewerRelease(s)] else []
    case Closes(s, _) =>
      if s in g.devices then [S.DeviceDetach(s)] else if s in g.serving then [S.ViewerRelease(s)] else []
    case AlarmFires(_) => []
  }

  ghost predicate Stands(g: Go, y: S.System, seen: set<SocketId>) {
    && g.slots == y.slots
    && (forall s :: s in g.devices <==> s in y.devices && y.devices[s] == S.Serving)
    && (forall s :: s in g.serving <==> s in y.viewers && y.viewers[s] == S.Watching)
    && y.devices.Keys <= seen && y.viewers.Keys <= seen
  }

  lemma RunOne(y: S.System, a: S.Action, acts: seq<S.Action>)
    requires S.Ready(y, a) && S.IsSchedule(S.Act(y, a), acts)
    ensures S.IsSchedule(y, [a] + acts) && S.Run(y, [a] + acts) == S.Run(S.Act(y, a), acts)
  {
    S.Prepend(y, a, acts);
  }

  lemma DeviceStands(g: Go, y: S.System, seen: set<SocketId>, e: Event)
    requires Stands(g, y, seen) && e.DeviceConnects? && e.sock !in seen
    ensures S.IsSchedule(y, Sections(g, e)) && Stands(GoStep(g, e).0, S.Run(y, Sections(g, e)), Seen(seen, e))
  {
    var a, b := S.DeviceAccept(e.sock), S.DeviceAttach(e.sock);
    var y1 := S.Act(y, a);
    RunOne(y1, b, []);
    RunOne(y, a, [b] + []);
    assert Sections(g, e) == [a] + ([b] + []);
  }

  lemma ViewerStands(g: Go, y: S.System, seen: set<SocketId>, e: Event)
    requires Stands(g, y, seen) && e.ViewerConnects? && e.sock !in seen
    ensures S.IsSchedule(y, Sections(g, e)) && Stands(GoStep(g, e).0, S.Run(y, Sections(g, e)), Seen(seen, e))
  {
    var a, b, c := S.ViewerArrive(e.sock), S.ViewerCheck(e.sock), S.ViewerClaim(e.sock);
    var y1 := S.Act(y, a);
    var y2 := S.Act(y1, b);
    var rest := if g.slots.conn.Some? then [c] + [] else [];
    if g.slots.conn.Some? { RunOne(y2, c, []); }
    RunOne(y1, b, rest);
    RunOne(y, a, [b] + rest);
    assert Sections(g, e) == [a] + ([b] + rest);
  }

  lemma OneSection(g: Go, y: S.System, seen: set<SocketId>, e: Event)
    requires Stands(g, y, seen) && !Connects(e)
    ensures S.IsSchedule(y, Sections(g, e)) && Stands(GoStep(g, e).0, S.Run(y, Sections(g, e)), seen)
  {
    var acts := Sections(g, e);
    if acts != [] {
      RunOne(y, acts[0], []);
      assert acts == [acts[0]] + [];
    }
  }

  lemma StepStands(g: Go, y: S.System, seen: set<SocketId>, e: Event)
    requires Stands(g, y, seen) && (Connects(e) ==> e.sock !in seen)
    ensures S.IsSchedule(y, Sections(g, e)) && Stands(GoStep(g, e).0, S.Run(y, Sections(g, e)), Seen(seen, e))
  {
    if e.DeviceConnects? {
      DeviceStands(g, y, seen, e);
    } else if e.ViewerConnects? {
      ViewerStands(g, y, seen, e);
    } else {
      OneSection(g, y, seen, e);
    }
  }

  lemma {:induction false} RunAppends(y: S.System, a: seq<S.Action>, b: seq<S.Action>)
    requires S.IsSchedule(y, a) && S.IsSchedule(S.Run(y, a), b)
    ensures S.IsSchedule(y, a + b) && S.Run(y, a + b) == S.Run(S.Run(y, a), b)
    decreases |a|
  {
    if a == [] {
      assert a + b == b;
    } else {
      RunAppends(S.Act(y, a[0]), a[1..], b);
      assert a + b == [a[0]] + (a[1..] + b);
      RunOne(y, a[0], a[1..] + b);
    }
  }

  function Schedule(g: Go, es: seq<Event>): seq<S.Action>
    decreases |es|
  {
    if es == [] then [] else Sections(g, es[0]) + Schedule(GoStep(g, es[0]).0, es[1..])
  }

  lemma {:induction false} RunStands(g: Go, y: S.System, seen: set<SocketId>, es: seq<Event>)
    requires Stands(g, y, seen) && AllNew(seen, es)
    ensures S.IsSchedule(y, Schedule(g, es)) && GoAfter(g, es).slots == S.Run(y, Schedule(g, es)).slots
    decreases |es|
  {
    if es != [] {
      var acts, g' := Sections(g, es[0]), GoStep(g, es[0]).0;
      StepStands(g, y, seen, es[0]);
      RunStands(g', S.Run(y, acts), Seen(seen, es[0]), es[1..]);
      RunAppends(y, acts, Schedule(g', es[1..]));
    }
  }

  /** Over every run, the Go hub's slots are those of the schedule in which each event runs its critical sections at
      once; so what holds under any interleaving holds of it. */
  lemma GoHubIsScheduled(es: seq<Event>)
    requires AllNew({}, es)
    ensures var acts := Schedule(GO_EMPTY, es);
            S.IsSchedule(S.QUIET, acts) && GoAfter(GO_EMPTY, es).slots == S.Run(S.QUIET, acts).slots
  {
    RunStands(GO_EMPTY, S.QUIET, {}, es);
  }

  // ---- who is the device ----

  /** The steps after which a device handler no longer has the slot. */
  predicate Unseats(e: Event, s: SocketId) {
    e.DeviceConnects? || (e.Closes? && e.sock == s)
  }

  predicate Seated(es: seq<Event>, s: SocketId) {
    forall j :: 0 <= j < |es| ==> !Unseats(es[j], s)
  }

  predicate SeatedBy(es: seq<Event>, i: int, s: SocketId) {
    0 <= i < |es| && es[i].DeviceConnects? && es[i].sock == s && Seated(es[i + 1..], s)
  }

  lemma SeatedFurther(es: seq<Event>, s: SocketId)
    requires es != []
    ensures Seated(es, s) <==> !Unseats(es[0], s) && Seated(es[1..], s)
    ensures forall i: int :: i > 0 ==> (SeatedBy(es, i, s) <==> SeatedBy(es[1..], i - 1, s))
  {
    assert forall j :: 0 < j < |es| ==> es[j] == es[1..][j - 1] && es[j + 1..] == es[1..][j..];
  }

  predicate DeviceRuns(g: Go) {
    g.slots.conn.Some? ==> g.slots.conn.value in g.devices
  }

  lemma {:induction false} SeatFrom(g: Go, es: seq<Event>, s: SocketId)
    requires DeviceRuns(g)
    ensures GoAfter(g, es).slots.conn == Some(s) <==>
            (g.slots.conn == Some(s) && Seated(es, s)) || exists i :: SeatedBy(es, i, s)
    decreases |es|
  {
    if es != [] {
      SeatFrom(GoStep(g, es[0]).0, es[1..], s);
      SeatedFurther(es, s);
      if i :| SeatedBy(es[1..], i, s) { assert SeatedBy(es, i + 1, s); }
      if es[0].DeviceConnects? && es[0].sock == s && Seated(es[1..], s) { assert SeatedBy(es, 0, s); }
    }
  }

  /** Over every run the device of the Go hub is the one that connected last, until its close: also when its predecessor
      is still there. */
  lemma GoDeviceExactly(es: seq<Event>, s: SocketId)
    ensures GoAfter(GO_EMPTY, es).slots.conn == Some(s) <==>
            exists i :: 0 <= i < |es| && es[i].DeviceConnects? && es[i].sock == s && Seated(es[i + 1..], s)
  {
    SeatFrom(GO_EMPTY, es, s);
    if i :| SeatedBy(es, i, s) {
      assert es[i].DeviceConnects? && es[i].sock == s && Seated(es[i + 1..], s);
    }
    if i :| 0 <= i < |es| && es[i].DeviceConnects? && es[i].sock == s && Seated(es[i + 1..], s) {
      assert SeatedBy(es, i, s);
    }
  }

  /** Unlike under finer interleavings, a claim always has a device. */
  lemma {:induction false} ClaimHasDevice(g: Go, es: seq<Event>)
    requires g.slots.viewer.Some? ==> g.slots.conn.Some?
    ensures GoAfter(g, es).slots.viewer.Some? ==> GoAfter(g, es).slots.conn.Some?
    decreases |es|
  {
    if es != [] { ClaimHasDevice(GoStep(g, es[0]).0, es[1..]); }
  }

  // ---- what the handlers relay ----

  function Only(to: Option<SocketId>, msg: Message): seq<Output> {
    if to.Some? then [Send(to.value, msg)] else []
  }

  /** Any device handler relays to the claim, whether or not it has the slot, and moves nothing; a viewer handler relays
      to the device with its own credentials, and without a device it returns and gives up the slot; an evicted viewer
      and any other socket are not heard. */
  lemma GoRelaysExactly(g: Go, s: SocketId, m: Incoming)
    requires DeviceRuns(g)
    ensures var (g', outs) := GoReceive(g, s, m);
            var heard := s in g.serving && s !in g.devices && s !in g.shut;
            && (s in g.devices ==>
                  g' == g && outs == if m.AnswerIn? then Only(g.slots.viewer, Answer(m.sdp))
                                     else if m.CandidateIn? then Only(g.slots.viewer, Candidate(m.candidate))
                                     else [])
            && (heard && g.slots.conn.Some? ==>
                  g' == g && outs == if m.OfferIn? then Only(g.slots.conn, Offer(m.sdp, Some(g.serving[s])))
                                     else if m.CandidateIn? then Only(g.slots.conn, Candidate(m.candidate))
                                     else [])
            && (heard && g.slots.conn.None? && (m.OfferIn? || m.CandidateIn?) ==>
                  outs == [] && s !in g'.serving && g'.slots.viewer != Some(s)
                  && g'.slots.conn.None? && g'.devices == g.devices)
            && (s !in g.devices && !heard ==> g' == g && outs == [])
  {
  }

  /** A viewer's connect is answered by exactly one of three, whatever other handlers there are. */
  lemma GoAnswersExactly(g: Go, s: SocketId, sid: Sid, minted: IceServers, now: Time)
    ensures var (g', outs) := GoStep(g, ViewerConnects(s, sid, minted, now));
            if g.slots.conn.None? then
              g' == g && outs == [Send(s, Error("device offline")), Close(s, 1000, "device offline")]
            else if g.slots.viewer.Some? then
              g' == g && outs == [Send(s, Error("busy: another viewer is already watching")),
                                  Close(s, 1008, "viewer slot busy")]
            else
              && outs == [Send(s, Servers(Some(minted)))]
              && g'.slots.viewer == Some(s) && s in g'.serving && g'.serving[s] == minted
              && g'.slots.conn == g.slots.conn && g'.devices == g.devices && g'.shut == g.shut
  {
  }

  /** Any device handler that returns evicts whoever has the claim, also one that has been replaced; any viewer handler
      that returns tells whatever device there is, also one that never served it. */
  lemma GoReturnsExactly(g: Go, s: SocketId, now: Time)
    ensures var (g', outs) := GoStep(g, Closes(s, now));
            && (s in g.devices ==>
                  && outs == (if g.slots.viewer.None? then []
                              else [Send(g.slots.viewer.value, PeerGone("device disconnected")),
                                    Close(g.slots.viewer.value, 1000, "device disconnected")])
                  && g'.slots.viewer.None? && s !in g'.devices
                  && g'.slots.conn == (if g.slots.conn == Some(s) then None else g.slots.conn)
                  && (forall v :: g.slots.viewer == Some(v) ==> v in g'.shut))
            && (s !in g.devices && s in g.serving ==>
                  && outs == Only(g.slots.conn, ViewerGone)
                  && s !in g'.serving && g'.slots.conn == g.slots.conn
                  && g'.slots.viewer == if g.slots.viewer == Some(s) then None else g.slots.viewer)
            && (s !in g.devices && s !in g.serving ==> g' == g && outs == [])
  {
  }
}
