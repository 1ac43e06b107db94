/** The ping rule against alarms that fire on time: fewer stamps lose the connection than when alarms may be late. */
module KeepaliveOnTime {
  import opened Options
  import opened HubModel
  import opened HubSafety
  import opened HubRuns
  import opened Keepalive
  import HubHistory
  import HubTiming
  import P = PeerLoop

  const SLACK: nat := 30_000

  /** Safe when the alarms fire on time. */
  predicate SafeOnTime(last: P.Stamp, connect: int, lastTurn: int) {
    SafeWithin(last, connect, lastTurn, SLACK)
  }

  /** Nothing happens past the alarm, and the alarm fires at its time. */
  ghost predicate ActOnTime(x: Link, a: Act) {
    match a
    case Loop(at) => x.world.hub.alarm.Some? ==> at <= x.world.hub.alarm.value
    case Other(e) => HubTiming.OnTimeAt(x.world.hub, e)
  }

  ghost predicate OnTime(x: Link, acts: seq<Act>)
    requires IsLinkRun(x, acts)
    decreases |acts|
  {
    acts == [] || (ActOnTime(x, acts[0]) && OnTime(Acts(x, acts[0]), acts[1..]))
  }

  // ---- safe stamps keep the connection ----

  /** Until the first ping the alarm stands at 30, 60, 90 or 120 s after the connect. */
  ghost predicate OnGrid(h: Hub) {
    h.alarm.Some? && h.deviceLast.Some? && h.alarm.value - h.deviceLast.value in {30_000, 60_000, 90_000, 120_000}
  }

  ghost predicate LinkInvOnTime(x: Link) {
    && LinkUp(x) && x.world.hub.alarm.Some?
    && var heard := x.world.hub.deviceLast.value;
       || YoungStamp(x, 0)
       || (&& OnGrid(x.world.hub)
           && ((x.lastTurn <= heard && SafeOnTime(x.fw.lastPing, heard, x.lastTurn)) || YoungStamp(x, SLACK)))
  }

  lemma LoopKeepsLinkOnTime(x: Link, at: nat)
    requires LinkInvOnTime(x) && CanAct(x, Loop(at))
    ensures LinkInvOnTime(Acts(x, Loop(at))) && Acts(x, Loop(at)).world.log == x.world.log
  {
    if P.PingDue(x.fw, at) {
      PingIsHeard(x, at);
    } else if YoungStamp(x, 0) {
      QuietLoopIsYoung(x, at, 0);
    } else {
      QuietLoopIsYoung(x, at, SLACK);
    }
  }

  /** An alarm on time finds the device heard within 90 s. */
  lemma AlarmFindsLively(x: Link, now: Time)
    requires LinkInvOnTime(x) && CanAct(x, Other(AlarmFires(now))) && ActOnTime(x, Other(AlarmFires(now)))
    ensures now - x.world.hub.deviceLast.value <= DEVICE_IDLE_MS
    ensures OnGrid(x.world.hub) && !YoungStamp(x, 0) ==> now - x.world.hub.deviceLast.value < 120_000
  {
  }

  lemma OtherKeepsAlarm(h: Hub, d: SocketId, e: Event)
    requires Inv(h) && Enabled(h, e) && Device(h) == Some(d) && h.alarm.Some?
    requires !e.DeviceConnects? && e != Closes(d, e.now) && e != Receives(d, PingIn, e.now)
    requires e.AlarmFires? ==> e.now - h.deviceLast.GetOr(0) <= DEVICE_IDLE_MS
    ensures Step(h, e).0.alarm == if e.AlarmFires? then Some(e.now + ALARM_MS) else h.alarm
  {
    OtherKeepsDevice(h, d, e);
    if e.AlarmFires? { HubHistory.AlarmMoves(h, e.now); } else { HubHistory.StepMoves(h, e); }
  }

  lemma OtherKeepsLinkOnTime(x: Link, e: Event, n: nat)
    requires LinkInvOnTime(x) && CanAct(x, Other(e)) && ActOnTime(x, Other(e)) && Spared(x.world, n)
    ensures LinkInvOnTime(Acts(x, Other(e))) && Spared(Acts(x, Other(e)).world, n)
  {
    var h := x.world.hub;
    if e.AlarmFires? { AlarmFindsLively(x, e.now); }
    ExecKeepsInv(x.world, e);
    OtherKeepsDevice(h, x.device, e);
    OtherKeepsAlarm(h, x.device, e);
    HubHistory.DeviceIdleCloses(h, e);
  }

  lemma {:induction false} SafeLinksStayOnTime(x: Link, acts: seq<Act>, n: nat)
    requires LinkInvOnTime(x) && IsLinkRun(x, acts) && OnTime(x, acts) && Spared(x.world, n)
    ensures Spared(PlayLink(x, acts).world, n)
    decreases |acts|
  {
    if acts != [] {
      match acts[0]
      case Loop(at) =>
        LoopKeepsLinkOnTime(x, at);
        SafeLinksStayOnTime(Acts(x, acts[0]), acts[1..], n);
      case Other(e) =>
        OtherKeepsLinkOnTime(x, e, n);
        SafeLinksStayOnTime(Acts(x, acts[0]), acts[1..], n);
    }
  }

  // ---- unsafe stamps lose it ----

  lemma PrependOnTime(x: Link, a: Act, acts: seq<Act>)
    requires CanAct(x, a) && ActOnTime(x, a) && x.device in x.world.hub.sockets
    requires IsLinkRun(Acts(x, a), acts) && OnTime(Acts(x, a), acts)
    ensures IsLinkRun(x, [a] + acts) && OnTime(x, [a] + acts)
    ensures PlayLink(x, [a] + acts) == PlayLink(Acts(x, a), acts)
  {
    assert ([a] + acts)[1..] == acts;
  }

  /** An unwatched link that was last heard at `heard`, with its alarm set. */
  ghost predicate Silent(x: Link, heard: Time, alarm: Time) {
    && WorldInv(x.world) && Device(x.world.hub) == Some(x.device) && x.world.hub.viewerSid.None? && x.fw.connected
    && x.world.hub.deviceLast == Some(heard) && x.world.hub.alarm == Some(alarm)
  }

  /** An alarm within 90 s of the last sign of life sets the next and leaves the firmware alone. */
  lemma EarlyAlarm(x: Link, heard: Time, alarm: Time)
    requires Silent(x, heard, alarm) && x.world.clock <= alarm <= x.lastTurn + MAX_TURN_GAP
    requires alarm <= heard + DEVICE_IDLE_MS
    ensures var a := Other(AlarmFires(alarm));
            && CanAct(x, a) && ActOnTime(x, a)
            && var y := Acts(x, a);
               && Silent(y, heard, alarm + ALARM_MS) && y.fw == x.fw && y.device == x.device
               && y.lastTurn == x.lastTurn && y.world.clock == alarm && y.world.log == x.world.log
  {
    ExecKeepsInv(x.world, AlarmFires(alarm));
    HubHistory.AlarmMoves(x.world.hub, alarm);
    assert x.world.log + Noted(Device(x.world.hub), []) == x.world.log;
  }

  lemma SilentLoop(x: Link, heard: Time, alarm: Time, at: nat)
    requires Silent(x, heard, alarm) && x.world.clock <= at <= alarm && at <= x.lastTurn + MAX_TURN_GAP
    requires P.Elapsed(P.Cut(at), x.fw.lastPing) < P.APP_PING_INTERVAL_MS
    ensures var a := Loop(at);
            && CanAct(x, a) && ActOnTime(x, a)
            && var y := Acts(x, a);
               && Silent(y, heard, alarm) && y.fw.lastPing == x.fw.lastPing && y.device == x.device
               && y.lastTurn == at && y.world.clock == at && y.world.log == x.world.log
  {
    QuietLoop(x, at);
  }

  /** The end of the run: alarms at 90 s and at 120 s, with no ping in between. */
  lemma LastAlarms(x: Link, connect: Time) returns (acts: seq<Act>)
    requires Silent(x, connect, connect + 90_000) && x.world.clock <= connect + 90_000
    requires connect + 120_000 <= x.lastTurn + MAX_TURN_GAP
    ensures IsLinkRun(x, acts) && OnTime(x, acts) && !Spared(PlayLink(x, acts).world, |x.world.log|)
  {
    var a, b := Other(AlarmFires(connect + 90_000)), Other(AlarmFires(connect + 120_000));
    EarlyAlarm(x, connect, connect + 90_000);
    var y := Acts(x, a);
    LateAlarm(y, connect + 120_000);
    PrependOnTime(y, b, []);
    PrependOnTime(x, a, [b] + []);
    acts := [a] + ([b] + []);
  }

  /** The middle: a loop 29 999 ms after the alias, and before it the alarm at 60 s. */
  lemma FromAlias(x: Link, connect: Time, alias: nat) returns (acts: seq<Act>)
    requires Silent(x, connect, connect + 60_000) && x.world.clock == alias == x.lastTurn
    requires connect + 30_000 < alias <= connect + 60_000
    requires P.Elapsed(P.Cut(alias + 29_999), x.fw.lastPing) < P.APP_PING_INTERVAL_MS
    ensures IsLinkRun(x, acts) && OnTime(x, acts) && !Spared(PlayLink(x, acts).world, |x.world.log|)
  {
    var a, b := Other(AlarmFires(connect + 60_000)), Loop(alias + 29_999);
    EarlyAlarm(x, connect, connect + 60_000);
    var y := Acts(x, a);
    SilentLoop(y, connect, connect + 90_000, alias + 29_999);
    acts := LastAlarms(Acts(y, b), connect);
    PrependOnTime(y, b, acts);
    PrependOnTime(x, a, [b] + acts);
    acts := [a] + ([b] + acts);
  }

  /** The beginning: the alarm at 30 s, and a loop at the alias. */
  lemma ToAlias(x: Link, connect: Time, alias: nat) returns (acts: seq<Act>)
    requires Silent(x, connect, connect + 30_000) && x.world.clock == connect && x.lastTurn <= connect
    requires connect + 30_000 < alias <= x.lastTurn + MAX_TURN_GAP
    requires P.Elapsed(P.Cut(alias), x.fw.lastPing) == 0
    requires P.Elapsed(P.Cut(alias + 29_999), x.fw.lastPing) < P.APP_PING_INTERVAL_MS
    ensures IsLinkRun(x, acts) && OnTime(x, acts) && !Spared(PlayLink(x, acts).world, |x.world.log|)
  {
    var a, b := Other(AlarmFires(connect + 30_000)), Loop(alias);
    EarlyAlarm(x, connect, connect + 30_000);
    var y := Acts(x, a);
    SilentLoop(y, connect, connect + 60_000, alias);
    acts := FromAlias(Acts(y, b), connect, alias);
    PrependOnTime(y, b, acts);
    PrependOnTime(x, a, [b] + acts);
    acts := [a] + ([b] + acts);
  }

  /** Alarms at 30, 60, 90 and 120 s, with iterations at the alias and 29 999 ms after it only. */
  lemma UnsafeLinkIsLostOnTime(x: Link)
    requires JustConnected(x) && !SafeOnTime(x.fw.lastPing, x.world.clock, x.lastTurn)
    ensures exists acts :: IsLinkRun(x, acts) && OnTime(x, acts) && !Spared(PlayLink(x, acts).world, |x.world.log|)
  {
    var connect := x.world.clock;
    var alias := connect + AliasAhead(x.fw.lastPing, connect);
    AgeAfterAlias(x.fw.lastPing, connect, 0);
    AgeAfterAlias(x.fw.lastPing, connect, 29_999);
    var acts := ToAlias(x, connect, alias);
  }

  /** From a fresh connection, with iterations at most 60 s apart and alarms on time: the hub can idle-close the device
      exactly if the 32-bit clock comes round to the old ping stamp more than 30 s after the connect and before
      the first iteration must have run. */
  lemma KeepaliveExactlyOnTime(x: Link)
    requires JustConnected(x)
    ensures (forall acts :: IsLinkRun(x, acts) && OnTime(x, acts) ==> Spared(PlayLink(x, acts).world, |x.world.log|))
            <==> SafeOnTime(x.fw.lastPing, x.world.clock, x.lastTurn)
  {
    if SafeOnTime(x.fw.lastPing, x.world.clock, x.lastTurn) {
      forall acts | IsLinkRun(x, acts) && OnTime(x, acts)
        ensures Spared(PlayLink(x, acts).world, |x.world.log|)
      {
        SafeLinksStayOnTime(x, acts, |x.world.log|);
      }
    } else {
      UnsafeLinkIsLostOnTime(x);
    }
  }

  /** A camera that was switched on without a network and first connects 40 s before its clock wraps: the stamp that was
      never set is unsafe, and a run with its alarms on time idle-closes it. */
  lemma UnsafeLinkHappensOnTime()
    ensures var t := P.WRAP - 40_000;
            var e := DeviceConnects(0, "cam", t);
            && Possible(START, e)
            && var x := Link(P.Do(P.BOOT, P.Connects), Exec(START, e), 0, t);
               && JustConnected(x) && !SafeOnTime(x.fw.lastPing, x.world.clock, x.lastTurn)
               && exists acts :: IsLinkRun(x, acts) && OnTime(x, acts)
                                 && !Spared(PlayLink(x, acts).world, |x.world.log|)
  {
    var t := P.WRAP - 40_000;
    StartHolds();
    ConnectMakesLink(START, P.BOOT, 0, "cam", t, t);
    Remainder(0 - t, -1, 40_000);
    UnsafeLinkIsLostOnTime(Link(P.Do(P.BOOT, P.Connects), Exec(START, DeviceConnects(0, "cam", t)), 0, t));
  }
}
