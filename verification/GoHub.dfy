/** The handlers of backend/internal/signaling/hub.go over one registry device, each run up to its next read. */
module GoHub {
  import opened Options
  import opened IceTypes
  import opened HubModel
  import opened HubParity
  import R = Registry

  class SignalingHub {
    const dev: R.Device
    var devices: set<SocketId> // device handlers in their read loop
    var serving: map<SocketId, IceServers> // viewer handlers in their read loop, with their credentials
    var shut: set<SocketId> // viewers whose connection the server has closed
    var sent: seq<Output>

    ghost function Value(): Go
      reads this, dev
    {
      Go(dev.Value(), devices, serving, shut)
    }

    constructor ()
      ensures Value() == GO_EMPTY && sent == [] && fresh(dev)
    {
      dev := new R.Device();
      devices, serving, shut, sent := {}, map[], {}, [];
    }

    method SendTo(to: Option<SocketId>, msg: Message)
      modifies this`sent
      ensures sent == old(sent) + ToEach(to, msg)
    {
      if to.Some? { sent := sent + [Send(to.value, msg)]; }
    }

    method DeviceAccepted(s: SocketId, now: Time)
      modifies this, dev
      ensures Value() == old(Value()).(slots := R.Attach(old(Value()).slots, s), devices := old(devices) + {s})
      ensures sent == old(sent)
    {
      dev.AttachConn(s, now);
      devices := devices + {s};
    }

    /** The deferred function of the device handler. */
    method DeviceReturns(s: SocketId, now: Time)
      modifies this, dev
      ensures Value() == GoDeviceReturn(old(Value()), s).0
      ensures sent == old(sent) + GoDeviceReturn(old(Value()), s).1
    {
      var viewer := dev.DetachConn(s, now);
      if viewer.Some? {
        SendTo(viewer, PeerGone("device disconnected"));
        sent := sent + [Close(viewer.value, NORMAL_CLOSURE, "device disconnected")];
        shut := shut + {viewer.value};
      }
      devices := devices - {s};
    }

    method ViewerAccepted(s: SocketId, minted: IceServers)
      modifies this, dev
      ensures Value() == GoViewerConnect(old(Value()), s, minted).0
      ensures sent == old(sent) + GoViewerConnect(old(Value()), s, minted).1
    {
      if dev.conn == None {
        sent := sent + [Send(s, Error("device offline")), Close(s, NORMAL_CLOSURE, "device offline")];
        return;
      }
      var ok := dev.TryClaimViewer(s);
      if !ok {
        sent := sent + [Send(s, Error("busy: another viewer is already watching")),
                        Close(s, POLICY_VIOLATION, "viewer slot busy")];
        return;
      }
      serving := serving[s := minted];
      SendTo(Some(s), Servers(Some(minted)));
    }

    /** The deferred function of the viewer handler. */
    method ViewerReturns(s: SocketId)
      modifies this, dev
      ensures Value() == GoViewerReturn(old(Value()), s).0
      ensures sent == old(sent) + GoViewerReturn(old(Value()), s).1
    {
      dev.ReleaseViewer(s);
      SendTo(dev.conn, ViewerGone);
      serving := serving - {s};
      shut := shut - {s};
    }

    method Forward(s: SocketId, msg: Message)
      modifies this, dev
      ensures Value() == GoForward(old(Value()), s, msg).0
      ensures sent == old(sent) + GoForward(old(Value()), s, msg).1
    {
      if dev.conn == None {
        ViewerReturns(s);
      } else {
        SendTo(dev.conn, msg);
      }
    }

    method MessageRead(s: SocketId, m: Incoming)
      modifies this, dev
      ensures Value() == GoReceive(old(Value()), s, m).0
      ensures sent == old(sent) + GoReceive(old(Value()), s, m).1
    {
      if s in devices {
        match m
        case AnswerIn(sdp) => SendTo(dev.viewer, Answer(sdp));
        case CandidateIn(c) => SendTo(dev.viewer, Candidate(c));
        case _ =>
      } else if s in serving && s !in shut {
        match m
        case OfferIn(sdp) => Forward(s, Offer(sdp, Some(serving[s])));
        case CandidateIn(c) => Forward(s, Candidate(c));
        case _ =>
      }
    }

    /** One event at one of the connections. */
    method Handle(e: Event)
      modifies this, dev
      ensures Value() == GoStep(old(Value()), e).0
      ensures sent == old(sent) + GoStep(old(Value()), e).1
    {
      match e
      case DeviceConnects(s, _, now) => DeviceAccepted(s, now);
      case ViewerConnects(s, _, minted, _) => ViewerAccepted(s, minted);
      case Receives(s, m, _) => MessageRead(s, m);
      case Closes(s, now) =>
        if s in devices {
          DeviceReturns(s, now);
        } else if s in serving {
          ViewerReturns(s);
        }
      case AlarmFires(_) =>
    }
  }
}
