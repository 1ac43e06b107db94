/** What a run shows of its two peers, read off its events alone: when each last gave a sign of life and when an alarm
    should have found it silent; and that the hub closes idle sockets exactly then. */
module HubHistory {
  import opened Options
  import opened HubModel
  import opened HubSafety
  import opened HubRuns

  /** The claim's holder: its last own sign of life (its claim or a ping), the last ping of another viewer socket since,
      the first alarm since that found all of them silent, and when the holder was first told to close since. */
  datatype HolderTale = HolderTale(heard: Option<Time>, others: Option<Time>, due: Option<Time>, told: Option<Time>)

  /** The live device: its last sign of life (its connect or a ping), the first alarm since the connect that found it
      silent and unwatched, and when it was first told to close since the connect. */
  datatype DeviceTale = DeviceTale(heard: Option<Time>, due: Option<Time>, told: Option<Time>)

  /** A world with both tales, and since when no claim is held. */
  datatype Story = Story(world: World, holder: HolderTale, device: DeviceTale, vacantSince: Option<Time>)

  const NO_HOLDER: HolderTale := HolderTale(None, None, None, None)
  const NO_DEVICE: DeviceTale := DeviceTale(None, None, None)
  const PROLOGUE: Story := Story(START, NO_HOLDER, NO_DEVICE, Some(0))

  ghost predicate ClosedBy(s: Option<SocketId>, outs: seq<Output>) {
    s.Some? && exists code, why :: Close(s.value, code, why) in outs
  }

  ghost predicate HolderSigns(h: Hub, e: Event) {
    match e
    case ViewerConnects(_, _, _, _) => Admits(h)
    case Receives(s, m, _) => m.PingIn? && Holder(h) == Some(s)
    case _ => false
  }

  ghost predicate OtherViewerPings(h: Hub, e: Event)
    requires Enabled(h, e)
  {
    e.Receives? && e.message.PingIn? && h.sockets[e.sock].role == ViewerRole && Holder(h) != Some(e.sock)
  }

  ghost predicate DeviceSigns(h: Hub, e: Event) {
    match e
    case DeviceConnects(_, _, _) => true
    case Receives(s, m, _) => m.PingIn? && Device(h) == Some(s)
    case _ => false
  }

  function LastHeard(v: HolderTale): Time {
    if v.others.Some? then v.others.value else v.heard.GetOr(0)
  }

  predicate HolderSilent(v: HolderTale, now: Time) {
    && now - v.heard.GetOr(0) > VIEWER_IDLE_MS
    && (v.others.Some? ==> now - v.others.value > VIEWER_IDLE_MS)
  }

  predicate DeviceSilent(d: DeviceTale, now: Time) {
    now - d.heard.GetOr(0) > DEVICE_IDLE_MS
  }

  ghost function TellHolder(h: Hub, e: Event, v: HolderTale): HolderTale
    requires Enabled(h, e)
  {
    var (h', outs) := Step(h, e);
    if Holder(h').None? then NO_HOLDER
    else if HolderSigns(h, e) then HolderTale(Some(e.now), None, None, None)
    else
      HolderTale(v.heard,
                 if OtherViewerPings(h, e) then Some(e.now) else v.others,
                 if v.due.None? && e.AlarmFires? && HolderSilent(v, e.now) then Some(e.now) else v.due,
                 if v.told.None? && ClosedBy(Holder(h), outs) then Some(e.now) else v.told)
  }

  ghost function TellDevice(h: Hub, e: Event, d: DeviceTale): DeviceTale
    requires Enabled(h, e)
  {
    var (h', outs) := Step(h, e);
    if Device(h').None? then NO_DEVICE
    else if e.DeviceConnects? then DeviceTale(Some(e.now), None, None)
    else
      DeviceTale(if DeviceSigns(h, e) then Some(e.now) else d.heard,
                 if d.due.None? && e.AlarmFires? && Holder(h).None? && DeviceSilent(d, e.now)
                 then Some(e.now) else d.due,
                 if d.told.None? && ClosedBy(Device(h), outs) then Some(e.now) else d.told)
  }

  ghost function Vacant(h: Hub, e: Event, since: Option<Time>): Option<Time>
    requires Enabled(h, e)
  {
    if Holder(Step(h, e).0).Some? then None else if Holder(h).Some? then Some(e.now) else since
  }

  ghost function Tell(t: Story, e: Event): Story
    requires Possible(t.world, e)
  {
    var h := t.world.hub;
    Story(Exec(t.world, e), TellHolder(h, e, t.holder), TellDevice(h, e, t.device), Vacant(h, e, t.vacantSince))
  }

  ghost predicate IsStory(t: Story, es: seq<Event>)
    decreases |es|
  {
    es == [] || (Possible(t.world, es[0]) && IsStory(Tell(t, es[0]), es[1..]))
  }

  ghost function Recount(t: Story, es: seq<Event>): Story
    requires IsStory(t, es)
    decreases |es|
  {
    if es == [] then t else Recount(Tell(t, es[0]), es[1..])
  }

  // ---- what one step does to the slots and the stamps ----

  /** A step other than an alarm. */
  ghost predicate Moves(h: Hub, e: Event, h': Hub) {
    match e
    case DeviceConnects(s, _, now) =>
      && Device(h') == Some(s) && Device(h) != Some(s) && Holder(h').None?
      && h'.deviceLast == Some(now) && h'.alarm == Some(now + ALARM_MS)
    case ViewerConnects(s, _, _, now) =>
      && Device(h') == Device(h) && h'.alarm == h.alarm && h'.deviceLast == h.deviceLast
      && (if Admits(h) then Holder(h') == Some(s) && Holder(h) != Some(s) && h'.viewerLast == Some(now)
          else Holder(h') == Holder(h) && h'.viewerLast == h.viewerLast)
    case Receives(s, m, now) =>
      && s in h.sockets
      && Device(h') == Device(h) && Holder(h') == Holder(h) && h'.alarm == h.alarm
      && h'.deviceLast == (if m.PingIn? && Device(h) == Some(s) then Some(now) else h.deviceLast)
      && h'.viewerLast == (if m.PingIn? && h.sockets[s].role == ViewerRole then Some(now) else h.viewerLast)
    case Closes(s, _) =>
      && h'.deviceLast == h.deviceLast
      && (Device(h').Some? ==> Device(h') == Device(h) && h'.alarm == h.alarm)
      && (Holder(h').Some? ==> Holder(h') == Holder(h) && Device(h').Some? && h'.viewerLast == h.viewerLast)
      && (Device(h).None? ==> Holder(h').None?)
    case AlarmFires(_) => false
  }

  lemma StepMoves(h: Hub, e: Event)
    requires Inv(h) && Enabled(h, e) && !e.AlarmFires?
    ensures Moves(h, e, Step(h, e).0)
  {
    match e
    case DeviceConnects(s, id, now) => AfterDeviceConnect(h, s, id, now);
    case ViewerConnects(s, sid, minted, now) => AfterClaim(h, s, sid, now);
    case Receives(s, _, _) => if Live(h.sockets[s]) { LiveIsDevice(h.sockets, s); }
    case Closes(s, now) => AfterDrop(h, s, now);
  }

  /** A slot that a step leaves to its socket is not closed by it, unless the step is the alarm. */
  lemma OnlyAlarmsClose(h: Hub, e: Event)
    requires Inv(h) && Enabled(h, e) && !e.AlarmFires?
    ensures var (h', outs) := Step(h, e);
            && (Holder(h') == Holder(h) ==> !ClosedBy(Holder(h), outs))
            && (Device(h') == Device(h) ==> !ClosedBy(Device(h), outs))
  {
    match e
    case DeviceConnects(s, id, now) => AfterDeviceConnect(h, s, id, now);
    case ViewerConnects(s, sid, minted, now) => AfterClaim(h, s, sid, now);
    case Receives(_, _, _) =>
    case Closes(s, now) => AfterDrop(h, s, now);
  }

  lemma AlarmMoves(h: Hub, now: Time)
    requires Inv(h) && Enabled(h, AlarmFires(now))
    ensures var (h', outs) := Alarm(h, now);
            && Device(h') == Device(h) && Holder(h') == Holder(h)
            && h'.deviceLast == h.deviceLast && h'.viewerLast == h.viewerLast
            && (Device(h).Some? ==>
                  (ClosedBy(Device(h), outs) <==> Holder(h).None? && now - h.deviceLast.GetOr(0) > DEVICE_IDLE_MS))
            && (Device(h).Some? && !ClosedBy(Device(h), outs) ==> h'.alarm == Some(now + ALARM_MS))
            && (Holder(h).Some? ==> (ClosedBy(Holder(h), outs) <==> now - h.viewerLast.GetOr(0) > VIEWER_IDLE_MS))
  {
    var outs := Alarm(h, now).1;
    if Device(h).Some? && Holder(h).None? && now - h.deviceLast.GetOr(0) > DEVICE_IDLE_MS {
      assert Close(Device(h).value, NORMAL_CLOSURE, "idle timeout") in outs;
    }
    if Holder(h).Some? && now - h.viewerLast.GetOr(0) > VIEWER_IDLE_MS {
      assert Close(Holder(h).value, NORMAL_CLOSURE, "viewer idle") in outs;
    }
  }

  // ---- the stored stamps are the tales ----

  ghost predicate HolderTaleInv(h: Hub, clock: Time, v: HolderTale) {
    if Holder(h).Some? then
      && v.heard.Some? && v.heard.value <= clock
      && (v.others.Some? ==> v.heard.value <= v.others.value <= clock)
      && h.viewerLast == Some(LastHeard(v)) && v.told == v.due
    else v == NO_HOLDER
  }

  ghost predicate DeviceTaleInv(h: Hub, clock: Time, d: DeviceTale) {
    if Device(h).Some? then d.heard.Some? && d.heard.value <= clock && h.deviceLast == d.heard && d.told == d.due
    else d == NO_DEVICE
  }

  ghost predicate StoryInv(t: Story) {
    && WorldInv(t.world)
    && HolderTaleInv(t.world.hub, t.world.clock, t.holder)
    && DeviceTaleInv(t.world.hub, t.world.clock, t.device)
  }

  lemma HolderTaleKept(h: Hub, clock: Time, v: HolderTale, e: Event)
    requires Inv(h) && Enabled(h, e) && clock <= e.now && HolderTaleInv(h, clock, v)
    ensures HolderTaleInv(Step(h, e).0, e.now, TellHolder(h, e, v))
  {
    if e.AlarmFires? {
      AlarmMoves(h, e.now);
    } else {
      StepMoves(h, e);
      OnlyAlarmsClose(h, e);
    }
  }

  lemma DeviceTaleKept(h: Hub, clock: Time, d: DeviceTale, e: Event)
    requires Inv(h) && Enabled(h, e) && clock <= e.now && DeviceTaleInv(h, clock, d)
    ensures DeviceTaleInv(Step(h, e).0, e.now, TellDevice(h, e, d))
  {
    if e.AlarmFires? {
      AlarmMoves(h, e.now);
    } else {
      StepMoves(h, e);
      OnlyAlarmsClose(h, e);
    }
  }

  lemma TellKeepsInv(t: Story, e: Event)
    requires StoryInv(t) && Possible(t.world, e)
    ensures StoryInv(Tell(t, e))
  {
    ExecKeepsInv(t.world, e);
    HolderTaleKept(t.world.hub, t.world.clock, t.holder, e);
    DeviceTaleKept(t.world.hub, t.world.clock, t.device, e);
  }

  lemma {:induction false} RecountKeepsInv(t: Story, es: seq<Event>)
    requires StoryInv(t) && IsStory(t, es)
    ensures StoryInv(Recount(t, es))
    decreases |es|
  {
    if es != [] {
      TellKeepsInv(t, es[0]);
      RecountKeepsInv(Tell(t, es[0]), es[1..]);
    }
  }

  /** Over every run, whenever the alarms fire: since its last own sign of life the holder has been told to
      close exactly if an alarm has come more than 60 s after that sign and more than 60 s after every other
      viewer socket's ping since, and it was told at the first such alarm. */
  lemma HolderIsToldExactly(es: seq<Event>)
    requires IsStory(PROLOGUE, es)
    ensures var t := Recount(PROLOGUE, es);
            Holder(t.world.hub).Some? ==>
              && t.holder.heard.Some? && t.world.hub.viewerLast == Some(LastHeard(t.holder))
              && t.holder.told == t.holder.due
  {
    RecountKeepsInv(PROLOGUE, es);
  }

  /** Over every run, whenever the alarms fire: since its connect the device has been told to close exactly if
      an alarm has come during a vacancy and more than 90 s after its last sign of life, and it was told at the
      first such alarm. */
  lemma DeviceIsToldExactly(es: seq<Event>)
    requires IsStory(PROLOGUE, es)
    ensures var t := Recount(PROLOGUE, es);
            Device(t.world.hub).Some? ==>
              t.device.heard.Some? && t.world.hub.deviceLast == t.device.heard && t.device.told == t.device.due
  {
    RecountKeepsInv(PROLOGUE, es);
  }

  // ---- the lively are left alone ----

  predicate IdleClose(o: Output, why: string) {
    o.Close? && o.why == why
  }

  predicate NoIdleClose(log: seq<Entry>, why: string) {
    forall i :: 0 <= i < |log| ==> !IdleClose(log[i].out, why)
  }

  /** Every alarm of the run that finds a holder finds it, or another viewer socket since, heard within 60 s. */
  ghost predicate HolderNeverSilent(t: Story, es: seq<Event>)
    requires IsStory(t, es)
    decreases |es|
  {
    es == [] ||
    (&& (es[0].AlarmFires? && Holder(t.world.hub).Some? ==> !HolderSilent(t.holder, es[0].now))
     && HolderNeverSilent(Tell(t, es[0]), es[1..]))
  }

  /** Every alarm of the run that finds an unwatched device finds it heard within 90 s. */
  ghost predicate DeviceNeverSilent(t: Story, es: seq<Event>)
    requires IsStory(t, es)
    decreases |es|
  {
    es == [] ||
    (&& (es[0].AlarmFires? && Device(t.world.hub).Some? && Holder(t.world.hub).None? ==>
           !DeviceSilent(t.device, es[0].now))
     && DeviceNeverSilent(Tell(t, es[0]), es[1..]))
  }

  lemma ViewerIdleCloses(h: Hub, e: Event)
    requires Inv(h) && Enabled(h, e)
    ensures NoIdleClose(Noted(Device(h), Step(h, e).1), "viewer idle") <==>
            !(e.AlarmFires? && Holder(h).Some? && e.now - h.viewerLast.GetOr(0) > VIEWER_IDLE_MS)
  {
    var outs := Step(h, e).1;
    if e.AlarmFires? && Holder(h).Some? && e.now - h.viewerLast.GetOr(0) > VIEWER_IDLE_MS {
      assert IdleClose(Noted(Device(h), outs)[0].out, "viewer idle");
    }
  }

  lemma DeviceIdleCloses(h: Hub, e: Event)
    requires Inv(h) && Enabled(h, e)
    ensures NoIdleClose(Noted(Device(h), Step(h, e).1), "idle timeout") <==>
            !(e.AlarmFires? && Device(h).Some? && Holder(h).None? && e.now - h.deviceLast.GetOr(0) > DEVICE_IDLE_MS)
  {
    var outs := Step(h, e).1;
    if e.AlarmFires? && Device(h).Some? && Holder(h).None? && e.now - h.deviceLast.GetOr(0) > DEVICE_IDLE_MS {
      assert IdleClose(Noted(Device(h), outs)[0].out, "idle timeout");
    }
  }

  lemma NoIdleCloseAppends(a: seq<Entry>, b: seq<Entry>, why: string)
    ensures NoIdleClose(a + b, why) <==> NoIdleClose(a, why) && NoIdleClose(b, why)
  {
    var c := a + b;
    assert forall i :: 0 <= i < |a| ==> c[i] == a[i];
    assert forall i :: 0 <= i < |b| ==> c[|a| + i] == b[i];
  }

  /** Over every run from where nothing is spoilt: no holder is closed for idling exactly if no alarm finds one
      silent. */
  lemma {:induction false} ViewerClosedExactly(t: Story, es: seq<Event>)
    requires StoryInv(t) && IsStory(t, es)
    ensures NoIdleClose(Recount(t, es).world.log, "viewer idle") <==>
            NoIdleClose(t.world.log, "viewer idle") && HolderNeverSilent(t, es)
    decreases |es|
  {
    if es != [] {
      TellKeepsInv(t, es[0]);
      ViewerIdleCloses(t.world.hub, es[0]);
      NoIdleCloseAppends(t.world.log, Noted(Device(t.world.hub), Step(t.world.hub, es[0]).1), "viewer idle");
      ViewerClosedExactly(Tell(t, es[0]), es[1..]);
    }
  }

  /** The same for the device. */
  lemma {:induction false} DeviceClosedExactly(t: Story, es: seq<Event>)
    requires StoryInv(t) && IsStory(t, es)
    ensures NoIdleClose(Recount(t, es).world.log, "idle timeout") <==>
            NoIdleClose(t.world.log, "idle timeout") && DeviceNeverSilent(t, es)
    decreases |es|
  {
    if es != [] {
      TellKeepsInv(t, es[0]);
      DeviceIdleCloses(t.world.hub, es[0]);
      NoIdleCloseAppends(t.world.log, Noted(Device(t.world.hub), Step(t.world.hub, es[0]).1), "idle timeout");
      DeviceClosedExactly(Tell(t, es[0]), es[1..]);
    }
  }

  /** The holder's own claim and pings leave at most 60 s to any alarm. */
  ghost predicate HolderKeepsPinging(t: Story, es: seq<Event>)
    requires IsStory(t, es)
    decreases |es|
  {
    es == [] ||
    (&& (es[0].AlarmFires? && Holder(t.world.hub).Some? ==> es[0].now <= t.holder.heard.GetOr(0) + 60_000)
     && HolderKeepsPinging(Tell(t, es[0]), es[1..]))
  }

  /** The device's connect and pings leave at most 90 s to any alarm. */
  ghost predicate DeviceKeepsPinging(t: Story, es: seq<Event>)
    requires IsStory(t, es)
    decreases |es|
  {
    es == [] ||
    (&& (es[0].AlarmFires? && Device(t.world.hub).Some? ==> es[0].now <= t.device.heard.GetOr(0) + 90_000)
     && DeviceKeepsPinging(Tell(t, es[0]), es[1..]))
  }

  lemma {:induction false} PingingHolderIsNotSilent(t: Story, es: seq<Event>)
    requires IsStory(t, es) && HolderKeepsPinging(t, es)
    ensures HolderNeverSilent(t, es)
    decreases |es|
  {
    if es != [] { PingingHolderIsNotSilent(Tell(t, es[0]), es[1..]); }
  }

  lemma {:induction false} PingingDeviceIsNotSilent(t: Story, es: seq<Event>)
    requires IsStory(t, es) && DeviceKeepsPinging(t, es)
    ensures DeviceNeverSilent(t, es)
    decreases |es|
  {
    if es != [] { PingingDeviceIsNotSilent(Tell(t, es[0]), es[1..]); }
  }

  /** Viewers that ping at gaps of at most 60 s are never closed for idling, whenever the alarms fire. */
  lemma LivelyViewerIsNeverClosed(es: seq<Event>)
    requires IsStory(PROLOGUE, es) && HolderKeepsPinging(PROLOGUE, es)
    ensures NoIdleClose(Recount(PROLOGUE, es).world.log, "viewer idle")
  {
    PingingHolderIsNotSilent(PROLOGUE, es);
    ViewerClosedExactly(PROLOGUE, es);
  }

  /** Devices that ping at gaps of at most 90 s are never closed for idling, whenever the alarms fire. */
  lemma LivelyDeviceIsNeverClosed(es: seq<Event>)
    requires IsStory(PROLOGUE, es) && DeviceKeepsPinging(PROLOGUE, es)
    ensures NoIdleClose(Recount(PROLOGUE, es).world.log, "idle timeout")
  {
    PingingDeviceIsNotSilent(PROLOGUE, es);
    DeviceClosedExactly(PROLOGUE, es);
  }
}
