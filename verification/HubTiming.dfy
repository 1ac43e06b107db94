/** Idle closes under alarms that fire on time: within which windows silent peers are told to close, and the
    runs that show why each window has its condition. */
module HubTiming {
  import opened Options
  import opened HubModel
  import opened HubSafety
  import opened HubRuns
  import opened HubHistory

  /** No event happens past the alarm; the alarm fires at its time. */
  ghost predicate OnTimeAt(h: Hub, e: Event) {
    && (h.alarm.Some? ==> e.now <= h.alarm.value)
    && (e.AlarmFires? ==> h.alarm == Some(e.now))
  }

  ghost predicate OnTime(t: Story, es: seq<Event>)
    requires IsStory(t, es)
    decreases |es|
  {
    es == [] || (OnTimeAt(t.world.hub, es[0]) && OnTime(Tell(t, es[0]), es[1..]))
  }

  // ---- what alarms on time keep ----

  ghost predicate Armed(h: Hub, clock: Time, d: DeviceTale) {
    Device(h).Some? && d.told.None? ==> h.alarm.Some? && clock <= h.alarm.value <= clock + ALARM_MS
  }

  function Max(a: Time, b: Time): Time {
    if a < b then b else a
  }

  /** While the device has not been told to close, the holder's window never closes unseen. */
  ghost predicate HolderWatched(h: Hub, d: DeviceTale, v: HolderTale) {
    var window := LastHeard(v) + VIEWER_IDLE_MS + ALARM_MS;
    Holder(h).Some? && d.told.None? ==>
      && (v.told.None? ==> h.alarm.Some? && h.alarm.value <= window)
      && (v.told.Some? ==> v.heard.GetOr(0) + VIEWER_IDLE_MS < v.told.value <= window)
  }

  ghost predicate DeviceWatched(h: Hub, clock: Time, d: DeviceTale, vacantSince: Option<Time>) {
    && (Holder(h).None? <==> vacantSince.Some?)
    && (vacantSince.Some? ==> vacantSince.value <= clock)
    && (Device(h).Some? && Holder(h).None? && d.told.None? ==>
          h.alarm.Some? &&
          h.alarm.value <= Max(d.heard.GetOr(0) + DEVICE_IDLE_MS + ALARM_MS, vacantSince.GetOr(0) + ALARM_MS))
  }

  /** The row was last written when the alarm was last set. */
  ghost predicate RowDated(h: Hub) {
    Device(h).Some? && h.alarm.Some? ==> h.row.Some? && h.row.value.lastSeen == Some(h.alarm.value - ALARM_MS)
  }

  ghost predicate TimedInv(t: Story) {
    var h, clock := t.world.hub, t.world.clock;
    && StoryInv(t)
    && Armed(h, clock, t.device)
    && HolderWatched(h, t.device, t.holder)
    && DeviceWatched(h, clock, t.device, t.vacantSince)
    && RowDated(h)
  }

  lemma ArmedKept(h: Hub, clock: Time, d: DeviceTale, e: Event)
    requires Inv(h) && Enabled(h, e) && clock <= e.now && OnTimeAt(h, e) && Armed(h, clock, d)
    ensures Armed(Step(h, e).0, e.now, TellDevice(h, e, d))
  {
    if e.AlarmFires? { AlarmMoves(h, e.now); } else { StepMoves(h, e); }
  }

  lemma HolderWatchKept(h: Hub, clock: Time, d: DeviceTale, v: HolderTale, e: Event)
    requires Inv(h) && Enabled(h, e) && clock <= e.now && OnTimeAt(h, e)
    requires Armed(h, clock, d) && HolderTaleInv(h, clock, v) && HolderWatched(h, d, v)
    ensures HolderWatched(Step(h, e).0, TellDevice(h, e, d), TellHolder(h, e, v))
  {
    if e.AlarmFires? {
      AlarmMoves(h, e.now);
    } else {
      StepMoves(h, e);
      OnlyAlarmsClose(h, e);
    }
  }

  lemma DeviceWatchKept(h: Hub, clock: Time, d: DeviceTale, vacant: Option<Time>, e: Event)
    requires Inv(h) && Enabled(h, e) && clock <= e.now && OnTimeAt(h, e)
    requires Armed(h, clock, d) && DeviceTaleInv(h, clock, d) && DeviceWatched(h, clock, d, vacant)
    ensures DeviceWatched(Step(h, e).0, e.now, TellDevice(h, e, d), Vacant(h, e, vacant))
  {
    if e.AlarmFires? { AlarmMoves(h, e.now); } else { StepMoves(h, e); }
  }

  lemma RowStaysDated(h: Hub, e: Event)
    requires Inv(h) && Enabled(h, e) && RowDated(h)
    ensures RowDated(Step(h, e).0)
  {
    match e
    case DeviceConnects(s, id, now) =>
    case ViewerConnects(s, sid, minted, now) => AfterClaim(h, s, sid, now);
    case Receives(_, _, _) =>
    case Closes(s, now) => AfterDrop(h, s, now);
    case AlarmFires(_) =>
  }

  lemma TimelyTellKeepsInv(t: Story, e: Event)
    requires TimedInv(t) && Possible(t.world, e) && OnTimeAt(t.world.hub, e)
    ensures TimedInv(Tell(t, e))
  {
    var h, clock := t.world.hub, t.world.clock;
    TellKeepsInv(t, e);
    ArmedKept(h, clock, t.device, e);
    HolderWatchKept(h, clock, t.device, t.holder, e);
    DeviceWatchKept(h, clock, t.device, t.vacantSince, e);
    RowStaysDated(h, e);
  }

  lemma {:induction false} TimelyRecountKeepsInv(t: Story, es: seq<Event>)
    requires TimedInv(t) && IsStory(t, es) && OnTime(t, es)
    ensures TimedInv(Recount(t, es))
    decreases |es|
  {
    if es != [] {
      TimelyTellKeepsInv(t, es[0]);
      TimelyRecountKeepsInv(Tell(t, es[0]), es[1..]);
    }
  }

  /** While the device has not been told to close: a holder is told to close more than 60 s after its own last
      sign of life, and at most 90 s after it unless another viewer socket pings; then at most 90 s after the
      last of those pings. */
  lemma IdleHolderIsToldWithin90s(es: seq<Event>)
    requires IsStory(PROLOGUE, es) && OnTime(PROLOGUE, es)
    ensures var t := Recount(PROLOGUE, es);
            var v := t.holder;
            Holder(t.world.hub).Some? && t.device.told.None? ==>
              && v.heard.Some?
              && (v.told.Some? ==> v.heard.value + 60_000 < v.told.value)
              && (v.others.None? && v.told.Some? ==> v.told.value <= v.heard.value + 90_000)
              && (v.others.None? && t.world.clock > v.heard.value + 90_000 ==> v.told.Some?)
              && (v.others.Some? && t.world.clock > v.others.value + 90_000 ==> v.told.Some?)
  {
    TimelyRecountKeepsInv(PROLOGUE, es);
  }

  /** A device silent for 120 s, with no claim held for the last 30 s of them, has been told to close. */
  lemma SilentDeviceIsToldWithin120s(es: seq<Event>)
    requires IsStory(PROLOGUE, es) && OnTime(PROLOGUE, es)
    ensures var t := Recount(PROLOGUE, es);
            Device(t.world.hub).Some? && Holder(t.world.hub).None? ==>
              && t.device.heard.Some? && t.vacantSince.Some?
              && (t.world.clock > t.device.heard.value + 120_000 && t.world.clock > t.vacantSince.value + 30_000 ==>
                    t.device.told.Some?)
  {
    TimelyRecountKeepsInv(PROLOGUE, es);
  }

  /** Until it is told to close, a live device's row is online and was written within the last 30 s. */
  lemma PresenceIsFresh(es: seq<Event>)
    requires IsStory(PROLOGUE, es) && OnTime(PROLOGUE, es)
    ensures var t := Recount(PROLOGUE, es);
            var h := t.world.hub;
            Device(h).Some? && t.device.told.None? ==>
              && h.row.Some? && h.row.value.online
              && t.world.clock - 30_000 <= h.row.value.lastSeen.GetOr(0) <= t.world.clock
  {
    TimelyRecountKeepsInv(PROLOGUE, es);
  }
}
