/** What every run of the hub keeps: the slots, the cached ICE servers, the presence row
    and the bracketing of viewer sessions. */
module HubSafety {
  import opened Options
  import opened HubModel

  // ---- the slots ----

  ghost predicate OneLive(socks: Sockets) {
    forall i, j :: i in socks && j in socks && Live(socks[i]) && Live(socks[j]) ==> i == j
  }

  ghost predicate DistinctSids(socks: Sockets) {
    && (forall i :: i in socks && socks[i].role == ViewerRole ==> socks[i].sid.Some? && !socks[i].stale)
    && (forall i, j | i in socks && j in socks && socks[i].role == ViewerRole && socks[j].role == ViewerRole
          :: socks[i].sid == socks[j].sid ==> i == j)
  }

  /** A stored claim has its viewer socket, and the session has its device. */
  ghost predicate SlotInv(h: Hub) {
    && OneLive(h.sockets)
    && DistinctSids(h.sockets)
    && (h.viewerSid.Some? ==> Holder(h).Some? && Device(h).Some?)
  }

  lemma LiveIsDevice(socks: Sockets, s: SocketId)
    requires OneLive(socks) && s in socks && Live(socks[s])
    ensures DeviceSocket(socks) == Some(s)
  {
  }

  lemma CarrierIsHolder(socks: Sockets, s: SocketId, sid: Sid)
    requires DistinctSids(socks) && s in socks && Carries(socks[s], sid)
    ensures ViewerSocket(socks, Some(sid)) == Some(s)
  {
  }

  // ---- the cached servers and the presence row ----

  ghost predicate CacheInv(h: Hub) {
    h.ice.Some? <==> h.viewerSid.Some?
  }

  ghost predicate RowInv(h: Hub) {
    && (Device(h).Some? <==> h.row.Some? && h.row.value.online)
    && (Device(h).Some? ==> h.deviceId.Some? && h.deviceLast.Some?)
    && (h.viewerSid.Some? ==> h.viewerLast.Some?)
  }

  ghost predicate Inv(h: Hub) {
    SlotInv(h) && CacheInv(h) && RowInv(h)
  }

  // ---- what one step does to the two slots ----

  lemma AfterDeviceConnect(h: Hub, s: SocketId, id: string, now: Time)
    requires SlotInv(h) && s !in h.sockets
    ensures var h' := DeviceConnect(h, s, id, now).0;
            SlotInv(h') && Device(h') == Some(s) && h'.viewerSid.None?
  {
    var h' := DeviceConnect(h, s, id, now).0;
    assert h'.sockets[s] == Meta(DeviceRole, None, false);
    assert forall i :: i in h.sockets ==> i in h'.sockets && !Live(h'.sockets[i]);
    LiveIsDevice(h'.sockets, s);
  }

  lemma AfterClaim(h: Hub, s: SocketId, sid: Sid, now: Time)
    requires SlotInv(h) && s !in h.sockets
    requires forall i :: i in h.sockets ==> !Carries(h.sockets[i], sid)
    ensures var h' := Claim(h, s, sid, now).0;
            SlotInv(h') && Device(h') == Device(h) && Holder(h') == if Admits(h) then Some(s) else Holder(h)
  {
    var h' := Claim(h, s, sid, now).0;
    assert h'.sockets[s] == Meta(ViewerRole, Some(sid), false);
    assert forall i :: i in h.sockets ==> i in h'.sockets && h'.sockets[i] == h.sockets[i];
    if Device(h).Some? { LiveIsDevice(h'.sockets, Device(h).value); }
    if h.viewerSid.Some? {
      CarrierIsHolder(h'.sockets, Holder(h).value, h.viewerSid.value);
    } else if Admits(h) {
      CarrierIsHolder(h'.sockets, s, sid);
    }
  }

  /** Leaving takes a live device's session with it, frees the holder's own claim, and nothing else. */
  lemma AfterDrop(h: Hub, s: SocketId, now: Time)
    requires SlotInv(h) && s in h.sockets
    ensures var h' := Drop(h, s, now).0;
            && SlotInv(h')
            && Device(h') == (if Device(h) == Some(s) then None else Device(h))
            && (Device(h) == Some(s) || Holder(h) == Some(s) ==> h'.viewerSid.None?)
            && (Device(h) != Some(s) && Holder(h) != Some(s) ==>
                  Drop(h, s, now) == (h.(sockets := h.sockets - {s}), []) && Holder(h') == Holder(h))
  {
    var h' := Drop(h, s, now).0;
    assert forall i :: i in h'.sockets <==> i in h.sockets && i != s;
    if Live(h.sockets[s]) { LiveIsDevice(h.sockets, s); }
    if Device(h).Some? && Device(h) != Some(s) { LiveIsDevice(h'.sockets, Device(h).value); }
    if h.viewerSid.Some? {
      if Carries(h.sockets[s], h.viewerSid.value) {
        CarrierIsHolder(h.sockets, s, h.viewerSid.value);
      } else if Device(h) != Some(s) {
        CarrierIsHolder(h'.sockets, Holder(h).value, h.viewerSid.value);
      }
    }
  }

  lemma StepKeepsSlots(h: Hub, e: Event)
    requires SlotInv(h) && Enabled(h, e)
    ensures SlotInv(Step(h, e).0)
  {
    match e
    case DeviceConnects(s, id, now) => AfterDeviceConnect(h, s, id, now);
    case ViewerConnects(s, sid, minted, now) => AfterClaim(h, s, sid, now);
    case Receives(_, _, _) =>
    case Closes(s, now) => AfterDrop(h, s, now);
    case AlarmFires(_) =>
  }

  lemma StepKeepsInv(h: Hub, e: Event)
    requires Inv(h) && Enabled(h, e)
    ensures Inv(Step(h, e).0)
  {
    StepKeepsSlots(h, e);
    match e
    case DeviceConnects(s, id, now) => AfterDeviceConnect(h, s, id, now);
    case ViewerConnects(s, sid, minted, now) => AfterClaim(h, s, sid, now);
    case Receives(_, _, _) =>
    case Closes(s, now) => AfterDrop(h, s, now);
    case AlarmFires(_) =>
  }
}
