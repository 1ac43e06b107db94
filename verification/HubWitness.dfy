/** Runs with alarms on time that show why the windows of HubTiming have their conditions. */
module HubWitness {
  import opened Options
  import opened HubModel
  import opened HubSafety
  import opened HubRuns
  import opened HubHistory
  import opened HubTiming
  import opened IceTypes

  const MINTED: IceServers := IceServers([], None)

  /** The run `es` from the empty hub, with its alarms on time, tells the story `t`. */
  ghost predicate Tells(es: seq<Event>, t: Story) {
    IsStory(PROLOGUE, es) && OnTime(PROLOGUE, es) && Recount(PROLOGUE, es) == t
  }

  lemma {:induction false} Appended(t: Story, es: seq<Event>, e: Event)
    requires IsStory(t, es) && OnTime(t, es)
    requires Possible(Recount(t, es).world, e) && OnTimeAt(Recount(t, es).world.hub, e)
    ensures IsStory(t, es + [e]) && OnTime(t, es + [e]) && Recount(t, es + [e]) == Tell(Recount(t, es), e)
    decreases |es|
  {
    if es == [] {
      assert es + [e] == [e] && [e][1..] == [];
    } else {
      assert (es + [e])[1..] == es[1..] + [e];
      Appended(Tell(t, es[0]), es[1..], e);
    }
  }

  lemma Continues(es: seq<Event>, t: Story, e: Event)
    requires Tells(es, t) && Possible(t.world, e) && OnTimeAt(t.world.hub, e)
    ensures Tells(es + [e], Tell(t, e))
  {
    Appended(PROLOGUE, es, e);
  }

  lemma TellsTruly(es: seq<Event>, t: Story)
    requires Tells(es, t)
    ensures TimedInv(t)
  {
    TimelyRecountKeepsInv(PROLOGUE, es);
  }

  /** A camera `d` with the claim held by `v`, the camera not told to close. */
  ghost predicate Watching(t: Story, d: SocketId, v: SocketId) {
    Device(t.world.hub) == Some(d) && Holder(t.world.hub) == Some(v) && t.device.told.None?
  }

  lemma FirstDevice() returns (es: seq<Event>, t: Story)
    ensures es == [DeviceConnects(0, "cam", 0)] && Tells(es, t)
    ensures t.world.hub.sockets == map[0 := Meta(DeviceRole, None, false)]
    ensures Device(t.world.hub) == Some(0) && t.world.hub.viewerSid.None? && t.world.hub.alarm == Some(30_000)
    ensures t.world.seen == {0} && t.world.clock == 0 && t.device == DeviceTale(Some(0), None, None)
  {
    var e := DeviceConnects(0, "cam", 0);
    AfterDeviceConnect(EMPTY, 0, "cam", 0);
    StartHolds();
    Continues([], PROLOGUE, e);
    es, t := [] + [e], Tell(PROLOGUE, e);
    assert t.world.hub.sockets == map[0 := Meta(DeviceRole, None, false)];
  }

  lemma FirstClaim(es: seq<Event>, t: Story) returns (t': Story)
    requires Tells(es, t) && t.world.hub.sockets == map[0 := Meta(DeviceRole, None, false)]
    requires Device(t.world.hub) == Some(0) && t.world.hub.viewerSid.None? && t.world.hub.alarm == Some(30_000)
    requires t.world.seen == {0} && t.world.clock == 0 && t.device.told.None?
    ensures Tells(es + [ViewerConnects(1, 1, MINTED, 1)], t') && Watching(t', 0, 1)
    ensures t'.device == t.device && t'.holder == HolderTale(Some(1), None, None, None)
    ensures t'.world.hub.sockets == t.world.hub.sockets[1 := Meta(ViewerRole, Some(1), false)]
    ensures t'.world.hub.alarm == t.world.hub.alarm && t'.world.seen == {0, 1} && t'.world.clock == 1
  {
    TellsTruly(es, t);
    var h, e := t.world.hub, ViewerConnects(1, 1, MINTED, 1);
    assert Enabled(h, e) && Admits(h);
    StepMoves(h, e);
    OnlyAlarmsClose(h, e);
    Continues(es, t, e);
    t' := Tell(t, e);
  }

  /** No socket and no session id from `next` on has been used. */
  ghost predicate FreshFrom(t: Story, next: nat) {
    && (forall i :: i in t.world.seen ==> i < next)
    && (forall i :: i in t.world.hub.sockets ==> i in t.world.seen)
    && (forall i :: i in t.world.hub.sockets && t.world.hub.sockets[i].sid.Some? ==>
          t.world.hub.sockets[i].sid.value < next)
  }

  lemma Opening() returns (es: seq<Event>, t: Story)
    ensures es == [DeviceConnects(0, "cam", 0), ViewerConnects(1, 1, MINTED, 1)]
    ensures Tells(es, t) && Watching(t, 0, 1) && FreshFrom(t, 2)
    ensures t.world.clock == 1 && t.world.hub.alarm == Some(30_000)
    ensures t.device == DeviceTale(Some(0), None, None) && t.holder == HolderTale(Some(1), None, None, None)
  {
    es, t := FirstDevice();
    t := FirstClaim(es, t);
    es := es + [ViewerConnects(1, 1, MINTED, 1)];
  }

  /** The alarm of a watched camera leaves the device alone. */
  lemma WatchedAlarm(es: seq<Event>, t: Story, d: SocketId, v: SocketId) returns (t': Story)
    requires Tells(es, t) && Watching(t, d, v)
    ensures Tells(es + [AlarmFires(t'.world.clock)], t') && Watching(t', d, v) && t'.device == t.device
    ensures t.world.hub.alarm == Some(t'.world.clock) && t'.world.hub.alarm == Some(t'.world.clock + 30_000)
    ensures t'.world.seen == t.world.seen && t'.world.hub.sockets == t.world.hub.sockets
    ensures t'.holder.heard == t.holder.heard && t'.holder.others == t.holder.others
    ensures !HolderSilent(t.holder, t'.world.clock) && t.holder.told.None? ==> t'.holder.told.None?
  {
    TellsTruly(es, t);
    var e := AlarmFires(t.world.hub.alarm.value);
    AlarmMoves(t.world.hub, e.now);
    Continues(es, t, e);
    t' := Tell(t, e);
  }

  /** The holder leaves. */
  lemma HolderCloses(es: seq<Event>, t: Story, d: SocketId, v: SocketId, now: Time) returns (t': Story)
    requires Tells(es, t) && Watching(t, d, v) && t.world.clock <= now <= t.world.hub.alarm.GetOr(0)
    ensures Tells(es + [Closes(v, now)], t') && t'.device == t.device
    ensures Device(t'.world.hub) == Some(d) && Holder(t'.world.hub).None?
    ensures t'.world.hub.alarm == t.world.hub.alarm && t'.world.clock == now
  {
    TellsTruly(es, t);
    var h, e := t.world.hub, Closes(v, now);
    AfterDrop(h, v, now);
    StepMoves(h, e);
    OnlyAlarmsClose(h, e);
    Continues(es, t, e);
    t' := Tell(t, e);
  }

  /** The live device sends something that is no ping. */
  lemma DeviceMurmurs(es: seq<Event>, t: Story, d: SocketId, now: Time) returns (t': Story)
    requires Tells(es, t) && Device(t.world.hub) == Some(d)
    requires t.world.hub.alarm.Some? && t.world.clock <= now <= t.world.hub.alarm.value
    ensures Tells(es + [Receives(d, OtherIn, now)], t')
    ensures t'.device == t.device && t'.world.hub == t.world.hub && t'.world.clock == now
  {
    TellsTruly(es, t);
    var h, e := t.world.hub, Receives(d, OtherIn, now);
    StepMoves(h, e);
    OnlyAlarmsClose(h, e);
    Continues(es, t, e);
    t' := Tell(t, e);
  }

  lemma TwoAlarms(es: seq<Event>, t: Story, d: SocketId, v: SocketId) returns (es': seq<Event>, t': Story)
    requires Tells(es, t) && Watching(t, d, v)
    ensures Tells(es', t') && Watching(t', d, v) && t'.device == t.device
    ensures t.world.hub.alarm == Some(t'.world.clock - 30_000)
    ensures t'.world.hub.alarm == Some(t'.world.clock + 30_000)
  {
    t' := WatchedAlarm(es, t, d, v);
    es' := es + [AlarmFires(t'.world.clock)];
    var t2 := WatchedAlarm(es', t', d, v);
    es' := es' + [AlarmFires(t2.world.clock)];
    t' := t2;
  }

  /** A device silent for 120 s and unwatched need not have been told: here its viewer left a second after the
      alarm of 120 s, and 149 s after its last sign of life it has not. */
  lemma SilentDeviceMayBeUntold()
    ensures exists es, t :: Tells(es, t)
              && Device(t.world.hub).Some? && Holder(t.world.hub).None? && t.device.told.None?
              && t.device.heard == Some(0) && t.world.clock == 149_000
  {
    var es, t := Opening();
    es, t := TwoAlarms(es, t, 0, 1);
    es, t := TwoAlarms(es, t, 0, 1);
    t := HolderCloses(es, t, 0, 1, 121_000);
    es := es + [Closes(1, 121_000)];
    t := DeviceMurmurs(es, t, 0, 149_000);
  }

  // ---- rejected pages keep a dead holder's claim ----

  /** The holder was last heard at `heard` and has not been told to close. */
  ghost predicate Holding(t: Story, d: SocketId, v: SocketId, heard: Time, next: nat) {
    && Watching(t, d, v) && FreshFrom(t, next) && v < next
    && t.holder.heard == Some(heard) && t.holder.told.None? && t.world.hub.alarm == Some(t.world.clock + 30_000)
  }

  /** A page `w` has been rejected, and its socket is still there. */
  ghost predicate Rejected(t: Story, d: SocketId, v: SocketId, w: SocketId) {
    && Watching(t, d, v) && FreshFrom(t, w + 1) && w != v && w != d
    && w in t.world.hub.sockets && t.world.hub.sockets[w].role == ViewerRole && w in t.world.seen
  }

  lemma PageIsRejected(h: Hub, w: SocketId, now: Time)
    requires Inv(h) && h.viewerSid.Some? && Enabled(h, ViewerConnects(w, w, MINTED, now))
    ensures var e := ViewerConnects(w, w, MINTED, now);
            && Step(h, e).0 == h.(sockets := h.sockets[w := Meta(ViewerRole, Some(w), false)])
            && Device(Step(h, e).0) == Device(h) && Holder(Step(h, e).0) == Holder(h)
            && !HolderSigns(h, e) && !ClosedBy(Holder(h), Step(h, e).1) && !ClosedBy(Device(h), Step(h, e).1)
  {
    AfterClaim(h, w, w, now);
  }

  lemma PageConnects(es: seq<Event>, t: Story, d: SocketId, v: SocketId, w: SocketId, now: Time) returns (t': Story)
    requires Tells(es, t) && Watching(t, d, v) && FreshFrom(t, w)
    requires t.world.clock <= now <= t.world.hub.alarm.GetOr(0)
    ensures Tells(es + [ViewerConnects(w, w, MINTED, now)], t') && Rejected(t', d, v, w) && t'.holder == t.holder
    ensures t'.world.clock == now && t'.world.hub.alarm == t.world.hub.alarm
  {
    TellsTruly(es, t);
    var h, e := t.world.hub, ViewerConnects(w, w, MINTED, now);
    assert Enabled(h, e);
    PageIsRejected(h, w, now);
    Continues(es, t, e);
    t' := Tell(t, e);
  }

  lemma OtherPing(h: Hub, w: SocketId, now: Time)
    requires Inv(h) && w in h.sockets && h.sockets[w].role == ViewerRole
    ensures Receive(h, w, PingIn, now) == (h.(viewerLast := Some(now)), [])
    ensures Device(h) != Some(w)
  {
  }

  lemma OtherPingTells(h: Hub, v: HolderTale, d: DeviceTale, w: SocketId, now: Time)
    requires Inv(h) && w in h.sockets && h.sockets[w].role == ViewerRole
    requires Holder(h).Some? && Holder(h) != Some(w) && Device(h).Some?
    ensures var e := Receives(w, PingIn, now);
            TellHolder(h, e, v) == v.(others := Some(now)) && TellDevice(h, e, d) == d
  {
    OtherPing(h, w, now);
  }

  lemma PagePings(es: seq<Event>, t: Story, d: SocketId, v: SocketId, w: SocketId, now: Time) returns (t': Story)
    requires Tells(es, t) && Rejected(t, d, v, w) && t.world.clock <= now <= t.world.hub.alarm.GetOr(0)
    ensures Tells(es + [Receives(w, PingIn, now)], t') && Rejected(t', d, v, w)
    ensures t'.holder == t.holder.(others := Some(now))
    ensures t'.world.clock == now && t'.world.hub.alarm == t.world.hub.alarm
  {
    TellsTruly(es, t);
    var e := Receives(w, PingIn, now);
    OtherPing(t.world.hub, w, now);
    OtherPingTells(t.world.hub, t.holder, t.device, w, now);
    Continues(es, t, e);
    t' := Tell(t, e);
    assert t.world.seen + {w} == t.world.seen;
  }

  lemma PageCloses(es: seq<Event>, t: Story, d: SocketId, v: SocketId, w: SocketId, now: Time) returns (t': Story)
    requires Tells(es, t) && Rejected(t, d, v, w) && t.world.clock <= now <= t.world.hub.alarm.GetOr(0)
    ensures Tells(es + [Closes(w, now)], t') && Watching(t', d, v) && FreshFrom(t', w + 1)
    ensures t'.holder == t.holder && t'.world.clock == now && t'.world.hub.alarm == t.world.hub.alarm
  {
    TellsTruly(es, t);
    var e := Closes(w, now);
    AfterDrop(t.world.hub, w, now);
    Continues(es, t, e);
    t' := Tell(t, e);
    assert t.world.seen + {w} == t.world.seen;
  }

  /** What a page that is rejected does before an alarm. */
  function Visit(w: SocketId, alarm: Time): seq<Event> {
    [ViewerConnects(w, w, MINTED, alarm - 9_000), Receives(w, PingIn, alarm - 8_000), Closes(w, alarm - 1_000),
     AlarmFires(alarm)]
  }

  /** Every viewer socket but the holder's is closed within 10 s of its connect. */
  ghost predicate Brief(es: seq<Event>, v: SocketId) {
    forall i :: 0 <= i < |es| && es[i].ViewerConnects? && es[i].sock != v ==> ClosedSoon(es, i)
  }

  ghost predicate ClosedSoon(es: seq<Event>, i: nat)
    requires i < |es| && es[i].ViewerConnects?
  {
    exists j :: i < j < |es| && es[j].Closes? && es[j].sock == es[i].sock && es[j].now <= es[i].now + 10_000
  }

  lemma VisitsAreBrief(es: seq<Event>, v: SocketId, w: SocketId, alarm: Time)
    requires Brief(es, v)
    ensures Brief(es + Visit(w, alarm), v)
  {
    var all := es + Visit(w, alarm);
    forall i | 0 <= i < |all| && all[i].ViewerConnects? && all[i].sock != v
      ensures ClosedSoon(all, i)
    {
      if i < |es| {
        assert ClosedSoon(es, i);
        var j :| i < j < |es| && es[j].Closes? && es[j].sock == es[i].sock && es[j].now <= es[i].now + 10_000;
        assert all[j] == es[j];
      } else {
        assert all[|es| + 2] == Closes(w, alarm - 1_000);
      }
    }
  }

  /** A page that connects, is rejected, pings once and is gone within 8 s keeps the claim of a silent holder over the
      next alarm. */
  lemma AVisit(es: seq<Event>, t: Story, d: SocketId, v: SocketId, heard: Time, next: nat) returns (t': Story)
    requires Tells(es, t) && Holding(t, d, v, heard, next)
    ensures Tells(es + Visit(next, t.world.clock + 30_000), t') && Holding(t', d, v, heard, next + 1)
    ensures t'.world.clock == t.world.clock + 30_000
  {
    var alarm := t.world.clock + 30_000;
    var e1, e2 := ViewerConnects(next, next, MINTED, alarm - 9_000), Receives(next, PingIn, alarm - 8_000);
    var e3, e4 := Closes(next, alarm - 1_000), AlarmFires(alarm);
    t' := PageConnects(es, t, d, v, next, alarm - 9_000);
    t' := PagePings(es + [e1], t', d, v, next, alarm - 8_000);
    t' := PageCloses(es + [e1] + [e2], t', d, v, next, alarm - 1_000);
    t' := WatchedAlarm(es + [e1] + [e2] + [e3], t', d, v);
    FourEvents(es, e1, e2, e3, e4);
  }

  lemma FourEvents(es: seq<Event>, e1: Event, e2: Event, e3: Event, e4: Event)
    ensures es + [e1] + [e2] + [e3] + [e4] == es + [e1, e2, e3, e4]
  {
  }

  /** A run of visits, with the holder still holding. */
  ghost predicate Kept(es: seq<Event>, t: Story, d: SocketId, v: SocketId, heard: Time, next: nat) {
    Tells(es, t) && Brief(es, v) && Holding(t, d, v, heard, next)
  }

  lemma AnotherRound(es: seq<Event>, t: Story, d: SocketId, v: SocketId, heard: Time, next: nat)
    returns (es': seq<Event>, t': Story)
    requires Kept(es, t, d, v, heard, next)
    ensures Kept(es', t', d, v, heard, next + 1) && t'.world.clock == t.world.clock + 30_000
  {
    t' := AVisit(es, t, d, v, heard, next);
    es' := es + Visit(next, t.world.clock + 30_000);
    VisitsAreBrief(es, v, next, t.world.clock + 30_000);
  }

  lemma {:induction false} Rounds(es: seq<Event>, t: Story, d: SocketId, v: SocketId, heard: Time, next: nat, n: nat)
    returns (es': seq<Event>, t': Story)
    requires Kept(es, t, d, v, heard, next)
    ensures Kept(es', t', d, v, heard, next + n) && t'.world.clock == t.world.clock + 30_000 * n
    decreases n
  {
    es', t' := es, t;
    if n > 0 {
      es', t' := Rounds(es, t, d, v, heard, next, n - 1);
      es', t' := AnotherRound(es', t', d, v, heard, next + (n - 1));
    }
  }

  /** Without the condition on other viewer sockets there is no window at all: for any `n` there is a run after which
      the holder has been silent for 30 s times `n` and has not been told to close, though every other viewer socket
      was closed within 10 s. */
  lemma OthersKeepTheHolder(n: nat)
    ensures exists es, t, v: nat :: Tells(es, t) && Brief(es, v)
              && Holder(t.world.hub) == Some(v) && t.device.told.None? && t.holder.told.None?
              && t.holder.heard.Some? && t.world.clock - t.holder.heard.value >= 30_000 * n
  {
    var es, t := Opening();
    t := WatchedAlarm(es, t, 0, 1);
    es := es + [AlarmFires(t.world.clock)];
    es, t := Rounds(es, t, 0, 1, 1, 2, n);
    assert t.world.clock - 1 >= 30_000 * n;
  }
}
