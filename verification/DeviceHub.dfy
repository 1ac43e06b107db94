/** The Durable Object itself: storage keys, socket attachments, alarm and presence row as fields
    that the handlers of cloudflare/src/devicehub.ts reassign. Every handler takes the hub's value
    exactly where the state machine of HubModel takes it. */
module DeviceHubs {
  import opened Options
  import opened IceTypes
  import opened HubModel
  import opened HubSafety

  class DeviceHub {
    var sockets: Sockets // the runtime's socket set with each socket's attachment
    var deviceId: Option<string>
    var deviceLast: Option<Time>
    var viewerSid: Option<Sid>
    var viewerLast: Option<Time>
    var ice: Option<IceServers>
    var alarm: Option<Time>
    var row: Option<Row>
    var sent: seq<Output> // every send and close handed to the runtime, in order

    ghost function Value(): Hub
      reads this
    {
      Hub(sockets, deviceId, deviceLast, viewerSid, viewerLast, ice, alarm, row)
    }

    ghost predicate Valid()
      reads this
    {
      Inv(Value())
    }

    constructor ()
      ensures Valid() && Value() == EMPTY && sent == []
    {
      sockets, row, sent := map[], None, [];
      deviceId, deviceLast, viewerSid, viewerLast, ice, alarm := None, None, None, None, None, None;
    }

    method FindDevice() returns (r: Option<SocketId>)
      requires OneLive(sockets)
      ensures r == DeviceSocket(sockets)
    {
      var rest := sockets.Keys;
      while rest != {}
        invariant rest <= sockets.Keys
        invariant forall s :: s in sockets && s !in rest ==> !Live(sockets[s])
        decreases rest
      {
        var s :| s in rest;
        if Live(sockets[s]) {
          LiveIsDevice(sockets, s);
          return Some(s);
        }
        rest := rest - {s};
      }
      r := None;
    }

    method FindViewer() returns (r: Option<SocketId>)
      requires DistinctSids(sockets)
      ensures r == ViewerSocket(sockets, viewerSid)
    {
      if viewerSid == None {
        return None;
      }
      var rest := sockets.Keys;
      while rest != {}
        invariant rest <= sockets.Keys
        invariant forall s :: s in sockets && s !in rest ==> !Carries(sockets[s], viewerSid.value)
        decreases rest
      {
        var s :| s in rest;
        if Carries(sockets[s], viewerSid.value) {
          CarrierIsHolder(sockets, s, viewerSid.value);
          return Some(s);
        }
        rest := rest - {s};
      }
      r := None;
    }

    method SafeSend(to: Option<SocketId>, msg: Message)
      modifies this`sent
      ensures sent == old(sent) + ToEach(to, msg)
    {
      if to.Some? { sent := sent + [Send(to.value, msg)]; }
    }

    /** `peer_gone` and a close for the claim's holder, then the slot is free. */
    method EvictViewer()
      requires DistinctSids(sockets)
      modifies this`sent, this`viewerSid, this`viewerLast, this`ice
      ensures sent == old(sent + Eviction(ViewerSocket(sockets, viewerSid)))
      ensures viewerSid == None && viewerLast == None && ice == None
    {
      var viewer := FindViewer();
      SafeSend(viewer, PeerGone("device disconnected"));
      if viewer.Some? { sent := sent + [Close(viewer.value, NORMAL_CLOSURE, "device disconnected")]; }
      ClearViewerState();
    }

    method ClearViewerState()
      modifies this`viewerSid, this`viewerLast, this`ice
      ensures viewerSid == None && viewerLast == None && ice == None
    {
      viewerSid, viewerLast, ice := None, None, None;
    }

    /** The takeover loop of a device connect: every other live device socket is marked and closed. */
    method SupersedeOthers(ws: SocketId)
      requires ws !in sockets && OneLive(sockets)
      modifies this`sockets, this`sent
      ensures sockets == Superseded(old(sockets), ws)
      ensures sent == old(sent + Superseding(DeviceSocket(sockets)))
    {
      var rest := sockets.Keys;
      ghost var before, d := sockets, DeviceSocket(sockets);
      while rest != {}
        invariant rest <= sockets.Keys == before.Keys
        invariant forall s :: s in before && s in rest ==> sockets[s] == before[s]
        invariant forall s :: s in before && s !in rest ==> sockets[s] == Superseded(before, ws)[s]
        invariant sent == old(sent) + if d.Some? && d.value in rest then [] else Superseding(d)
        decreases rest
      {
        var s :| s in rest;
        if s != ws && Live(sockets[s]) {
          LiveIsDevice(before, s);
          sockets := sockets[s := sockets[s].(stale := true)];
          sent := sent + [Close(s, NORMAL_CLOSURE, "superseded")];
        }
        rest := rest - {s};
      }
    }

    /** The slots change hands: the old device is superseded, the old viewer evicted. */
    method TakeOver(ws: SocketId)
      requires ws !in sockets && SlotInv(Value())
      modifies this`sockets, this`sent, this`viewerSid, this`viewerLast, this`ice
      ensures sockets == Superseded(old(sockets), ws)
      ensures sent == old(sent + (Superseding(Device(Value())) + Eviction(Holder(Value()))))
      ensures viewerSid == None && viewerLast == None && ice == None
    {
      ghost var h, log := Value(), sent;
      SupersedeOthers(ws);
      assert ViewerSocket(sockets, viewerSid) == Holder(h) by {
        if h.viewerSid.Some? { CarrierIsHolder(sockets, Holder(h).value, h.viewerSid.value); }
      }
      EvictViewer();
      assert log + Superseding(Device(h)) + Eviction(Holder(h)) == log + (Superseding(Device(h)) + Eviction(Holder(h)));
    }

    method OnDeviceConnect(ws: SocketId, id: string, now: Time)
      requires Valid() && Enabled(Value(), DeviceConnects(ws, id, now))
      modifies this
      ensures Valid()
      ensures Value() == old(DeviceConnect(Value(), ws, id, now)).0
      ensures sent == old(sent) + old(DeviceConnect(Value(), ws, id, now)).1
    {
      StepKeepsInv(Value(), DeviceConnects(ws, id, now));
      deviceId := Some(id);
      TakeOver(ws);
      sockets := sockets[ws := Meta(DeviceRole, None, false)];
      deviceLast := Some(now);
      row := UpsertOnline(row, now);
      alarm := Some(now + ALARM_MS);
    }

    method OnViewerConnect(ws: SocketId, sid: Sid, minted: IceServers, now: Time)
      requires Valid() && Enabled(Value(), ViewerConnects(ws, sid, minted, now))
      modifies this
      ensures Valid()
      ensures Value() == old(ViewerConnect(Value(), ws, sid, minted, now)).0
      ensures sent == old(sent) + old(ViewerConnect(Value(), ws, sid, minted, now)).1
    {
      StepKeepsInv(Value(), ViewerConnects(ws, sid, minted, now));
      var device := FindDevice();
      sockets := sockets[ws := Meta(ViewerRole, Some(sid), false)];
      if device == None {
        sent := sent + [Send(ws, Error("device offline")), Close(ws, NORMAL_CLOSURE, "device offline")];
        return;
      }
      if viewerSid.Some? {
        sent := sent + [Send(ws, Error("busy: another viewer is already watching")),
                        Close(ws, POLICY_VIOLATION, "viewer slot busy")];
        return;
      }
      viewerSid := Some(sid);
      viewerLast := Some(now);
      ice := Some(minted);
      SafeSend(Some(ws), Servers(ice));
    }

    method WebSocketMessage(ws: SocketId, m: Incoming, now: Time)
      requires Valid() && Enabled(Value(), Receives(ws, m, now))
      modifies this
      ensures Valid()
      ensures Value() == old(Receive(Value(), ws, m, now)).0
      ensures sent == old(sent) + old(Receive(Value(), ws, m, now)).1
    {
      var meta := sockets[ws];
      if meta.stale {
        return;
      }
      if meta.role == DeviceRole {
        var viewer := FindViewer();
        match m
        case AnswerIn(sdp) => SafeSend(viewer, Answer(sdp));
        case CandidateIn(c) => SafeSend(viewer, Candidate(c));
        case PingIn => deviceLast := Some(now);
        case _ =>
      } else {
        var device := FindDevice();
        match m
        case OfferIn(sdp) => SafeSend(device, Offer(sdp, ice));
        case CandidateIn(c) => SafeSend(device, Candidate(c));
        case PingIn => viewerLast := Some(now);
        case _ =>
      }
    }

    method WebSocketClose(ws: SocketId, now: Time)
      requires Valid() && Enabled(Value(), Closes(ws, now))
      modifies this
      ensures Valid()
      ensures Value() == old(Drop(Value(), ws, now)).0
      ensures sent == old(sent) + old(Drop(Value(), ws, now)).1
    {
      StepKeepsInv(Value(), Closes(ws, now));
      var meta := sockets[ws];
      if !meta.stale {
        if meta.role == DeviceRole {
          EvictViewer();
          alarm := None;
          if deviceId.Some? { row := SetOffline(row, now); }
        } else if meta.sid.Some? && meta.sid == viewerSid {
          var device := FindDevice();
          ClearViewerState();
          SafeSend(device, ViewerGone);
        }
      }
      sockets := sockets - {ws};
    }

    method OnAlarm(now: Time)
      requires Valid() && Enabled(Value(), AlarmFires(now))
      modifies this
      ensures Valid()
      ensures Value() == old(Alarm(Value(), now)).0
      ensures sent == old(sent) + old(Alarm(Value(), now)).1
    {
      StepKeepsInv(Value(), AlarmFires(now));
      alarm := None;
      var device := FindDevice();
      if device.Some? {
        if viewerSid == None && now - deviceLast.GetOr(0) > DEVICE_IDLE_MS {
          sent := sent + [Close(device.value, NORMAL_CLOSURE, "idle timeout")];
          return;
        }
        if deviceId.Some? { row := TouchLastSeen(row, now); }
        alarm := Some(now + ALARM_MS);
      }
      if viewerSid.Some? && now - viewerLast.GetOr(0) > VIEWER_IDLE_MS {
        var viewer := FindViewer();
        if viewer.Some? { sent := sent + [Close(viewer.value, NORMAL_CLOSURE, "viewer idle")]; }
      }
    }
  }
}
