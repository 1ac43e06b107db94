/** The promises of the hub, over every run from an empty hub. */
module HubTheorems {
  import opened Options
  import opened IceTypes
  import opened HubModel
  import opened HubSafety
  import opened HubRuns

  lemma Reached(es: seq<Event>)
    requires IsRun(START, es)
    ensures WorldInv(Play(START, es))
  {
    StartHolds();
    PlayKeepsInv(START, es);
  }

  /** At most one device socket is not stale; a stored claim is carried by exactly one viewer socket
      and has a live device. */
  lemma SlotsAlways(es: seq<Event>)
    requires IsRun(START, es)
    ensures var h := Play(START, es).hub;
            && (forall i, j :: i in h.sockets && j in h.sockets && Live(h.sockets[i]) && Live(h.sockets[j]) ==> i == j)
            && (h.viewerSid.Some? ==>
                  && (exists d :: d in h.sockets && Live(h.sockets[d]))
                  && (exists v :: v in h.sockets && Carries(h.sockets[v], h.viewerSid.value)
                        && forall u :: u in h.sockets && Carries(h.sockets[u], h.viewerSid.value) ==> u == v))
  {
    Reached(es);
    var h := Play(START, es).hub;
    if h.viewerSid.Some? {
      var v := Holder(h).value;
      assert Carries(h.sockets[v], h.viewerSid.value);
      assert Live(h.sockets[Device(h).value]);
    }
  }

  /** Each claimed session ends at most once, by one `peer_gone` to its viewer or one `viewer_gone` to the device it
      was opened under; the only one that has not ended is the one holding the claim now, and no socket claims twice. */
  lemma SessionsEndOnce(es: seq<Event>)
    requires IsRun(START, es)
    ensures var w := Play(START, es);
            && Track(Idle, w.log) == SessionAt(w.hub)
            && Claimed(w.log) == Ended(Idle, w.log) + OpenOnes(SessionAt(w.hub))
            && NoRepeats(Claimed(w.log))
  {
    Reached(es);
    ClaimedIsEndedAndOpen(Idle, Play(START, es).log);
  }

  /** The close of a rejected, evicted or stale socket sends nothing and frees nothing. */
  lemma LateCloseIsInert(es: seq<Event>, s: SocketId, now: Time)
    requires IsRun(START, es) && Possible(Play(START, es), Closes(s, now))
    ensures var h := Play(START, es).hub;
            var (h', outs) := Step(h, Closes(s, now));
            Device(h) != Some(s) && Holder(h) != Some(s) ==>
              && outs == []
              && h' == h.(sockets := h.sockets - {s})
              && Device(h') == Device(h) && Holder(h') == Holder(h)
  {
    Reached(es);
    AfterDrop(Play(START, es).hub, s, now);
  }

  /** The close of one of the two that count: the holder's tells the device and frees the claim, the live
      device's evicts the holder, frees the claim, stops the alarm and takes the row offline. */
  lemma CloseEndsSession(es: seq<Event>, s: SocketId, now: Time)
    requires IsRun(START, es) && Possible(Play(START, es), Closes(s, now))
    ensures var h := Play(START, es).hub;
            var (h', outs) := Step(h, Closes(s, now));
            && (Holder(h) == Some(s) ==>
                  && Device(h).Some? && outs == [Send(Device(h).value, ViewerGone)]
                  && Holder(h').None? && h'.viewerSid.None? && Device(h') == Device(h) && h'.row == h.row)
            && (Device(h) == Some(s) ==>
                  && outs == (if Holder(h).None? then []
                              else [Send(Holder(h).value, PeerGone("device disconnected")),
                                    Close(Holder(h).value, 1000, "device disconnected")])
                  && Device(h').None? && h'.viewerSid.None? && h'.alarm.None?
                  && h'.row.Some? && !h'.row.value.online && h'.row.value.lastSeen == Some(now))
  {
    Reached(es);
    AfterDrop(Play(START, es).hub, s, now);
  }

  /** An offer from the claim's holder reaches the live device with the servers the holder was sent. */
  lemma OfferCarriesHoldersServers(es: seq<Event>, v: SocketId, sdp: string, now: Time)
    requires IsRun(START, es) && Holder(Play(START, es).hub) == Some(v)
    ensures var w := Play(START, es);
            && Device(w.hub).Some?
            && Receive(w.hub, v, OfferIn(sdp), now) ==
                 (w.hub, [Send(Device(w.hub).value, Offer(sdp, w.hub.ice))])
            && WasHanded(w.log, Send(v, Servers(w.hub.ice)))
            && (forall other :: WasHanded(w.log, Send(v, Servers(other))) ==> other == w.hub.ice)
  {
    Reached(es);
    var w := Play(START, es);
    forall other | WasHanded(w.log, Send(v, Servers(other)))
      ensures other == w.hub.ice
    {
      OneServersMessage(w.log, v, other, w.hub.ice);
    }
  }

  lemma HandedLater(log: seq<Entry>, o: Output)
    requires WasHanded(log, o) && log[0].out != o
    ensures WasHanded(log[1..], o)
  {
    var i :| 0 <= i < |log| && log[i].out == o;
    assert log[1..][i - 1].out == o;
  }

  lemma {:induction false} SentMeansClaimed(log: seq<Entry>, v: SocketId, servers: Option<IceServers>)
    requires WasHanded(log, Send(v, Servers(servers)))
    ensures v in Claimed(log)
  {
    if log[0].out != Send(v, Servers(servers)) {
      HandedLater(log, Send(v, Servers(servers)));
      SentMeansClaimed(log[1..], v, servers);
    }
  }

  lemma {:induction false} OneServersMessage(
    log: seq<Entry>, v: SocketId, a: Option<IceServers>, b: Option<IceServers>)
    requires NoRepeats(Claimed(log))
    requires WasHanded(log, Send(v, Servers(a))) && WasHanded(log, Send(v, Servers(b)))
    ensures a == b
  {
    var rest, first := log[1..], log[0].out;
    assert Claimed(log) == ClaimedBy(log[0]) + Claimed(rest);
    if first == Send(v, Servers(a)) || first == Send(v, Servers(b)) {
      assert Claimed(log)[0] == v;
      assert Claimed(rest) == Claimed(log)[1..];
      if first != Send(v, Servers(a)) {
        HandedLater(log, Send(v, Servers(a)));
        SentMeansClaimed(rest, v, a);
      }
      if first != Send(v, Servers(b)) {
        HandedLater(log, Send(v, Servers(b)));
        SentMeansClaimed(rest, v, b);
      }
    } else {
      assert NoRepeats(Claimed(rest)) by {
        assert Claimed(rest) == Claimed(log)[|ClaimedBy(log[0])|..];
      }
      HandedLater(log, Send(v, Servers(a)));
      HandedLater(log, Send(v, Servers(b)));
      OneServersMessage(rest, v, a, b);
    }
  }

  /** Whatever a device socket sends is relayed to the claim's holder or to nobody; a stale one moves nothing. */
  lemma DeviceReachesHolderOnly(es: seq<Event>, d: SocketId, m: Incoming, now: Time)
    requires IsRun(START, es) && d in Play(START, es).hub.sockets
    requires Play(START, es).hub.sockets[d].role == DeviceRole
    ensures var h := Play(START, es).hub;
            var (h', outs) := Receive(h, d, m, now);
            && (forall o :: o in outs ==> o.Send? && Holder(h) == Some(o.to) && Device(h) == Some(d))
            && (Holder(h).Some? && Device(h) == Some(d) && m.AnswerIn? ==>
                  outs == [Send(Holder(h).value, Answer(m.sdp))])
            && (Holder(h).Some? && Device(h) == Some(d) && m.CandidateIn? ==>
                  outs == [Send(Holder(h).value, Candidate(m.candidate))])
            && (Device(h) != Some(d) ==> h' == h)
  {
    Reached(es);
    var h := Play(START, es).hub;
    if Live(h.sockets[d]) { LiveIsDevice(h.sockets, d); }
  }

  /** The presence row reads online exactly while a device socket is live. */
  lemma PresenceExact(es: seq<Event>)
    requires IsRun(START, es)
    ensures var h := Play(START, es).hub;
            (h.row.Some? && h.row.value.online) <==> exists d :: d in h.sockets && Live(h.sockets[d])
  {
    Reached(es);
  }

  ghost predicate Later(a: Option<Row>, b: Option<Row>) {
    a.Some? ==>
      && b.Some? && b.value.firstSeen == a.value.firstSeen
      && a.value.lastSeen.Some? && b.value.lastSeen.Some?
      && a.value.lastSeen.value <= b.value.lastSeen.value
  }

  lemma StepNeverGoesBack(w: World, e: Event)
    requires WorldInv(w) && Possible(w, e)
    ensures Later(w.hub.row, Exec(w, e).hub.row)
  {
  }

  /** From any reached world on, `first_seen` is fixed and `last_seen` never goes back. */
  lemma {:induction false} PresenceNeverGoesBack(w: World, es: seq<Event>)
    requires WorldInv(w) && IsRun(w, es)
    ensures Later(w.hub.row, Play(w, es).hub.row)
    decreases |es|
  {
    if es != [] {
      var next := Exec(w, es[0]);
      ExecKeepsInv(w, es[0]);
      StepNeverGoesBack(w, es[0]);
      PresenceNeverGoesBack(next, es[1..]);
    }
  }
}
