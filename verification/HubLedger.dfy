/** What a run leaves at the hub, read off its events: which sockets are open and with what attachment, who is the
    device, how long a claim lasts, what the presence row says, where the alarm stands, and what sockets are told. */
module HubLedger {
  import opened Options
  import opened IceTypes
  import opened HubModel
  import opened HubSafety
  import opened HubRuns
  import opened HubTheorems
  import opened HubHistory

  predicate Joins(e: Event, s: SocketId) {
    (e.DeviceConnects? || e.ViewerConnects?) && e.sock == s
  }

  predicate IsCloseOf(e: Event, s: SocketId) {
    e.Closes? && e.sock == s
  }

  predicate NoClose(es: seq<Event>, s: SocketId) {
    forall j :: 0 <= j < |es| ==> !IsCloseOf(es[j], s)
  }

  predicate NoDevice(es: seq<Event>) {
    forall j :: 0 <= j < |es| ==> !es[j].DeviceConnects?
  }

  lemma NoneOfUnfolds(es: seq<Event>, s: SocketId)
    requires es != []
    ensures NoClose(es, s) <==> !IsCloseOf(es[0], s) && NoClose(es[1..], s)
    ensures NoDevice(es) <==> !es[0].DeviceConnects? && NoDevice(es[1..])
  {
    assert forall j :: 0 < j < |es| ==> es[j] == es[1..][j - 1];
  }

  // ---- the sockets ----

  /** What an attachment has become after further events. */
  function Aged(m: Meta, es: seq<Event>): Meta {
    if m.role == DeviceRole && !NoDevice(es) then m.(stale := true) else m
  }

  function Attachment(e: Event): Meta
    requires e.DeviceConnects? || e.ViewerConnects?
  {
    if e.DeviceConnects? then Meta(DeviceRole, None, false) else Meta(ViewerRole, Some(e.sid), false)
  }

  /** What one event leaves of an attachment. */
  function AgedBy(m: Meta, e: Event): Meta {
    if m.role == DeviceRole && e.DeviceConnects? then m.(stale := true) else m
  }

  lemma OneStepAges(w: World, e: Event, s: SocketId)
    requires WorldInv(w) && Possible(w, e) && s in w.seen
    ensures var socks := Exec(w, e).hub.sockets;
            && s in Exec(w, e).seen
            && (s in socks <==> s in w.hub.sockets && !IsCloseOf(e, s))
            && (s in socks ==> socks[s] == AgedBy(w.hub.sockets[s], e))
  {
  }

  lemma AgedFurther(m: Meta, es: seq<Event>)
    requires es != []
    ensures Aged(AgedBy(m, es[0]), es[1..]) == Aged(m, es)
  {
    NoneOfUnfolds(es, 0);
  }

  /** An open socket stays until its close, and is superseded by the next device. */
  lemma {:induction false} SocketFate(w: World, es: seq<Event>, s: SocketId)
    requires WorldInv(w) && IsRun(w, es) && s in w.seen
    ensures var socks := Play(w, es).hub.sockets;
            && (s in socks <==> s in w.hub.sockets && NoClose(es, s))
            && (s in socks ==> socks[s] == Aged(w.hub.sockets[s], es))
    decreases |es|
  {
    if es != [] {
      ExecKeepsInv(w, es[0]);
      OneStepAges(w, es[0], s);
      SocketFate(Exec(w, es[0]), es[1..], s);
      NoneOfUnfolds(es, s);
      if s in w.hub.sockets { AgedFurther(w.hub.sockets[s], es); }
    }
  }

  /** The `i`-th event opens the socket, and it has not closed since. */
  predicate OpenedBy(es: seq<Event>, i: int, s: SocketId) {
    0 <= i < |es| && Joins(es[i], s) && NoClose(es[i + 1..], s)
  }

  lemma {:induction false} OpenedIsThere(w: World, es: seq<Event>, i: nat, s: SocketId)
    requires WorldInv(w) && IsRun(w, es) && OpenedBy(es, i, s)
    ensures var socks := Play(w, es).hub.sockets; s in socks && socks[s] == Aged(Attachment(es[i]), es[i + 1..])
    decreases |es|
  {
    var next := Exec(w, es[0]);
    ExecKeepsInv(w, es[0]);
    if i == 0 {
      SocketFate(next, es[1..], s);
    } else {
      assert es[1..][i - 1] == es[i] && es[1..][i..] == es[i + 1..];
      OpenedIsThere(next, es[1..], i - 1, s);
    }
  }

  lemma {:induction false} ThereWasOpened(w: World, es: seq<Event>, s: SocketId) returns (i: nat)
    requires WorldInv(w) && IsRun(w, es) && s in Play(w, es).hub.sockets && s !in w.seen
    ensures OpenedBy(es, i, s)
    decreases |es|
  {
    assert es != [];
    var next := Exec(w, es[0]);
    ExecKeepsInv(w, es[0]);
    NoOtherSockets(w.hub, es[0]);
    if s in next.seen {
      SocketFate(next, es[1..], s);
      i := 0;
    } else {
      i := ThereWasOpened(next, es[1..], s);
      i := i + 1;
      assert es[1..][i - 1] == es[i] && es[1..][i..] == es[i + 1..];
    }
  }

  /** The hub's sockets are those that were opened and have not closed; a viewer's carries the session id of its own
      connect, and a device's is stale exactly if another device has connected since. */
  lemma SocketsExactly(es: seq<Event>, s: SocketId)
    requires IsRun(START, es)
    ensures var socks := Play(START, es).hub.sockets;
            && (s in socks <==> exists i :: OpenedBy(es, i, s))
            && (forall i :: OpenedBy(es, i, s) ==>
                  s in socks &&
                  socks[s] == if es[i].ViewerConnects? then Meta(ViewerRole, Some(es[i].sid), false)
                              else Meta(DeviceRole, None, !NoDevice(es[i + 1..])))
  {
    StartHolds();
    if s in Play(START, es).hub.sockets { var i := ThereWasOpened(START, es, s); }
    forall i | OpenedBy(es, i, s)
      ensures var socks := Play(START, es).hub.sockets; s in socks && socks[s] == Aged(Attachment(es[i]), es[i + 1..])
    {
      OpenedIsThere(START, es, i, s);
    }
  }

  /** The device is the one that connected last, until its close. */
  lemma DeviceExactly(es: seq<Event>, s: SocketId)
    requires IsRun(START, es)
    ensures Device(Play(START, es).hub) == Some(s) <==>
            exists i :: OpenedBy(es, i, s) && es[i].DeviceConnects? && NoDevice(es[i + 1..])
  {
    var socks := Play(START, es).hub.sockets;
    Reached(es);
    SocketsExactly(es, s);
    if s in socks && Live(socks[s]) {
      LiveIsDevice(socks, s);
      var i :| OpenedBy(es, i, s);
      assert es[i].DeviceConnects? && NoDevice(es[i + 1..]);
    }
  }

  // ---- the claim ----

  lemma {:induction false} LostForGood(w: World, es: seq<Event>, v: SocketId)
    requires WorldInv(w) && IsRun(w, es) && v in w.seen && Holder(w.hub) != Some(v)
    ensures Holder(Play(w, es).hub) != Some(v)
    decreases |es|
  {
    if es != [] {
      ExecKeepsInv(w, es[0]);
      if es[0].AlarmFires? { AlarmMoves(w.hub, es[0].now); } else { StepMoves(w.hub, es[0]); }
      LostForGood(Exec(w, es[0]), es[1..], v);
    }
  }

  /** A claim lasts exactly until a device connects, its viewer's socket closes or its device's does. */
  lemma {:induction false} ClaimLastsExactly(w: World, es: seq<Event>, v: SocketId, d: SocketId)
    requires WorldInv(w) && IsRun(w, es) && Holder(w.hub) == Some(v) && Device(w.hub) == Some(d)
    ensures Holder(Play(w, es).hub) == Some(v) <==> NoDevice(es) && NoClose(es, v) && NoClose(es, d)
    ensures Holder(Play(w, es).hub) == Some(v) ==> Device(Play(w, es).hub) == Some(d)
    decreases |es|
  {
    if es != [] {
      var next := Exec(w, es[0]);
      ExecKeepsInv(w, es[0]);
      NoneOfUnfolds(es, v);
      NoneOfUnfolds(es, d);
      if es[0].DeviceConnects? || IsCloseOf(es[0], v) || IsCloseOf(es[0], d) {
        if es[0].Closes? { AfterDrop(w.hub, es[0].sock, es[0].now); } else { StepMoves(w.hub, es[0]); }
        LostForGood(next, es[1..], v);
      } else {
        if es[0].Closes? {
          AfterDrop(w.hub, es[0].sock, es[0].now);
        } else if es[0].AlarmFires? {
          AlarmMoves(w.hub, es[0].now);
        } else {
          StepMoves(w.hub, es[0]);
        }
        ClaimLastsExactly(next, es[1..], v, d);
      }
    }
  }

  /** The claim's stamp: the claim and every ping of a viewer socket date it; whatever ends a claim, and every device's
      connect and close, takes it away. */
  ghost function Stamped(h: Hub, e: Event, before: Option<Time>): Option<Time>
    requires Enabled(h, e)
  {
    match e
    case DeviceConnects(_, _, _) => None
    case ViewerConnects(_, _, _, now) => if Device(h).Some? && Holder(h).None? then Some(now) else before
    case Receives(s, m, now) => if m.PingIn? && h.sockets[s].role == ViewerRole then Some(now) else before
    case Closes(s, _) => if Device(h) == Some(s) || Holder(h) == Some(s) then None else before
    case AlarmFires(_) => before
  }

  ghost function StampedFor(w: World, es: seq<Event>, before: Option<Time>): Option<Time>
    requires IsRun(w, es)
    decreases |es|
  {
    if es == [] then before else StampedFor(Exec(w, es[0]), es[1..], Stamped(w.hub, es[0], before))
  }

  lemma StepStamps(h: Hub, e: Event)
    requires Inv(h) && Enabled(h, e)
    ensures Step(h, e).0.viewerLast == Stamped(h, e, h.viewerLast)
  {
    if e.Closes? {
      AfterDrop(h, e.sock, e.now);
      if Live(h.sockets[e.sock]) { LiveIsDevice(h.sockets, e.sock); }
      if h.viewerSid.Some? && Carries(h.sockets[e.sock], h.viewerSid.value) {
        CarrierIsHolder(h.sockets, e.sock, h.viewerSid.value);
      }
    }
  }

  lemma {:induction false} StampFrom(w: World, es: seq<Event>)
    requires WorldInv(w) && IsRun(w, es)
    ensures Play(w, es).hub.viewerLast == StampedFor(w, es, w.hub.viewerLast)
    decreases |es|
  {
    if es != [] {
      StepStamps(w.hub, es[0]);
      ExecKeepsInv(w, es[0]);
      StampFrom(Exec(w, es[0]), es[1..]);
    }
  }

  lemma ViewerStampExactly(es: seq<Event>)
    requires IsRun(START, es)
    ensures Play(START, es).hub.viewerLast == StampedFor(START, es, None)
  {
    StartHolds();
    StampFrom(START, es);
  }

  // ---- the presence row ----

  function FirstConnect(es: seq<Event>): Option<Time> {
    if es == [] then None else if es[0].DeviceConnects? then Some(es[0].now) else FirstConnect(es[1..])
  }

  /** The camera id of the last device connect, if there is one. */
  function LastId(es: seq<Event>, before: Option<string>): Option<string>
    decreases |es|
  {
    if es == [] then before else LastId(es[1..], if es[0].DeviceConnects? then Some(es[0].id) else before)
  }

  /** The device shows itself: it connects, it leaves, or an alarm finds it watched or heard within 90 s. */
  ghost predicate Shows(h: Hub, e: Event) {
    match e
    case DeviceConnects(_, _, _) => true
    case Closes(s, _) => Device(h) == Some(s)
    case AlarmFires(now) => Device(h).Some? && (Holder(h).Some? || now <= h.deviceLast.GetOr(0) + 90_000)
    case _ => false
  }

  ghost function LastShown(w: World, es: seq<Event>, before: Option<Time>): Option<Time>
    requires IsRun(w, es)
    decreases |es|
  {
    if es == [] then before
    else LastShown(Exec(w, es[0]), es[1..], if Shows(w.hub, es[0]) then Some(es[0].now) else before)
  }

  function FirstSeen(row: Option<Row>): Option<Time> {
    if row.Some? then row.value.firstSeen else None
  }

  function LastSeen(row: Option<Row>): Option<Time> {
    if row.Some? then row.value.lastSeen else None
  }

  lemma StepDates(h: Hub, e: Event)
    requires Inv(h) && Enabled(h, e)
    ensures var h' := Step(h, e).0;
            && (h'.row.Some? <==> h.row.Some? || e.DeviceConnects?)
            && FirstSeen(h'.row) == (if h.row.None? && e.DeviceConnects? then Some(e.now) else FirstSeen(h.row))
            && LastSeen(h'.row) == (if Shows(h, e) then Some(e.now) else LastSeen(h.row))
            && h'.deviceId == if e.DeviceConnects? then Some(e.id) else h.deviceId
  {
    if e.Closes? && Live(h.sockets[e.sock]) { LiveIsDevice(h.sockets, e.sock); }
  }

  lemma {:induction false} RowFrom(w: World, es: seq<Event>)
    requires WorldInv(w) && IsRun(w, es)
    ensures var h := Play(w, es).hub;
            && (h.row.Some? <==> w.hub.row.Some? || FirstConnect(es).Some?)
            && FirstSeen(h.row) == (if w.hub.row.None? then FirstConnect(es) else FirstSeen(w.hub.row))
            && LastSeen(h.row) == LastShown(w, es, LastSeen(w.hub.row))
            && h.deviceId == LastId(es, w.hub.deviceId)
    decreases |es|
  {
    if es != [] {
      StepDates(w.hub, es[0]);
      ExecKeepsInv(w, es[0]);
      RowFrom(Exec(w, es[0]), es[1..]);
    }
  }

  /** Over every run there is a row exactly from the first device connect on; it was first seen then, last seen when the
      device last showed itself, and is online exactly while there is a device. */
  lemma PresenceRowExactly(es: seq<Event>)
    requires IsRun(START, es)
    ensures var h := Play(START, es).hub;
            && h.row == (if FirstConnect(es).None? then None
                         else Some(Row(Device(h).Some?, FirstConnect(es), LastShown(START, es, None))))
            && h.deviceId == LastId(es, None)
  {
    StartHolds();
    Reached(es);
    RowFrom(START, es);
  }

  // ---- the alarm ----

  /** Half a minute after the device's connect and after every alarm it shows itself at; none after its close, and none
      after an alarm that finds it gone or closes it. */
  ghost function Rearmed(h: Hub, e: Event, before: Option<Time>): Option<Time> {
    if Shows(h, e) && !e.Closes? then Some(e.now + 30_000)
    else if Shows(h, e) || e.AlarmFires? then None
    else before
  }

  ghost function ArmedFor(w: World, es: seq<Event>, before: Option<Time>): Option<Time>
    requires IsRun(w, es)
    decreases |es|
  {
    if es == [] then before else ArmedFor(Exec(w, es[0]), es[1..], Rearmed(w.hub, es[0], before))
  }

  lemma StepRearms(h: Hub, e: Event)
    requires Inv(h) && Enabled(h, e)
    ensures Step(h, e).0.alarm == Rearmed(h, e, h.alarm)
  {
    if e.Closes? && Live(h.sockets[e.sock]) { LiveIsDevice(h.sockets, e.sock); }
  }

  lemma {:induction false} AlarmFrom(w: World, es: seq<Event>)
    requires WorldInv(w) && IsRun(w, es)
    ensures Play(w, es).hub.alarm == ArmedFor(w, es, w.hub.alarm)
    decreases |es|
  {
    if es != [] {
      StepRearms(w.hub, es[0]);
      ExecKeepsInv(w, es[0]);
      AlarmFrom(Exec(w, es[0]), es[1..]);
    }
  }

  /** Over every run the alarm stands where the device's connect and the alarms since have put it. */
  lemma AlarmExactly(es: seq<Event>)
    requires IsRun(START, es)
    ensures Play(START, es).hub.alarm == ArmedFor(START, es, None)
  {
    StartHolds();
    AlarmFrom(START, es);
  }

  // ---- what sockets are told ----

  /** A viewer's connect is answered by exactly one of three: no device, a taken slot, or the servers minted for it. */
  lemma ViewerIsAnswered(es: seq<Event>, s: SocketId, sid: Sid, minted: IceServers, now: Time)
    requires IsRun(START, es) && Possible(Play(START, es), ViewerConnects(s, sid, minted, now))
    ensures var h := Play(START, es).hub;
            Step(h, ViewerConnects(s, sid, minted, now)).1 ==
              if Device(h).None? then [Send(s, Error("device offline")), Close(s, 1000, "device offline")]
              else if Holder(h).Some? then
                [Send(s, Error("busy: another viewer is already watching")), Close(s, 1008, "viewer slot busy")]
              else [Send(s, Servers(Some(minted)))]
  {
    Reached(es);
  }

  /** A device's connect closes the device before it and evicts that one's viewer. */
  lemma TakeoverIsTold(es: seq<Event>, s: SocketId, id: string, now: Time)
    requires IsRun(START, es) && Possible(Play(START, es), DeviceConnects(s, id, now))
    ensures var h := Play(START, es).hub;
            Step(h, DeviceConnects(s, id, now)).1 ==
              (if Device(h).Some? then [Close(Device(h).value, 1000, "superseded")] else [])
              + (if Holder(h).Some? then [Send(Holder(h).value, PeerGone("device disconnected")),
                                          Close(Holder(h).value, 1000, "device disconnected")] else [])
  {
    Reached(es);
  }

  /** Offers and candidates of any viewer reach exactly the live device; the ping of any dates the claim. */
  lemma ViewerReachesDeviceOnly(es: seq<Event>, v: SocketId, m: Incoming, now: Time)
    requires IsRun(START, es) && v in Play(START, es).hub.sockets
    requires Play(START, es).hub.sockets[v].role == ViewerRole
    ensures var h := Play(START, es).hub;
            var (h', outs) := Receive(h, v, m, now);
            && (Device(h).None? ==> outs == [])
            && (Device(h).Some? && m.OfferIn? ==> outs == [Send(Device(h).value, Offer(m.sdp, h.ice))])
            && (Device(h).Some? && m.CandidateIn? ==> outs == [Send(Device(h).value, Candidate(m.candidate))])
            && (!m.OfferIn? && !m.CandidateIn? ==> outs == [])
            && h' == h.(viewerLast := if m.PingIn? then Some(now) else h.viewerLast)
  {
    Reached(es);
  }

  predicate PlainCode(n: Entry) {
    n.out.Close? ==> n.out.code == if n.out.why == "viewer slot busy" then 1008 else 1000
  }

  lemma StepCodes(h: Hub, e: Event)
    requires Inv(h) && Enabled(h, e)
    ensures forall n :: n in Noted(Device(h), Step(h, e).1) ==> PlainCode(n)
  {
  }

  lemma {:induction false} CodesFrom(w: World, es: seq<Event>)
    requires WorldInv(w) && IsRun(w, es) && forall n :: n in w.log ==> PlainCode(n)
    ensures forall n :: n in Play(w, es).log ==> PlainCode(n)
    decreases |es|
  {
    if es != [] {
      StepCodes(w.hub, es[0]);
      ExecKeepsInv(w, es[0]);
      CodesFrom(Exec(w, es[0]), es[1..]);
    }
  }

  /** Over every run a close is a policy violation exactly for a taken slot, and normal otherwise. */
  lemma CloseCodes(es: seq<Event>)
    requires IsRun(START, es)
    ensures forall n :: n in Play(START, es).log && n.out.Close? ==>
              n.out.code == if n.out.why == "viewer slot busy" then 1008 else 1000
  {
    StartHolds();
    CodesFrom(START, es);
  }
}
