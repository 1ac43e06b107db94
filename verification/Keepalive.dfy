/** The firmware's ping rule against the hub's idle alarm, through one connection. */
module Keepalive {
  import opened Options
  import opened HubModel
  import opened HubSafety
  import opened HubRuns
  import HubHistory
  import P = PeerLoop

  const MAX_TURN_GAP: int := 60_000

  /** The device with socket `device` and its hub, on one clock; `lastTurn` is the last peer-loop iteration. */
  datatype Link = Link(fw: P.Firmware, world: World, device: SocketId, lastTurn: nat)

  /** A peer-loop iteration with its ping delivered at once, or any other thing that happens to the hub. */
  datatype Act = Loop(at: nat) | Other(e: Event)

  function TurnAt(at: nat): P.Step {
    P.Turn(at, true, true, true, true)
  }

  /** The connection stays up, the device's pings come from its loop, and iterations are at most 60 s apart. */
  ghost predicate CanAct(x: Link, a: Act) {
    match a
    case Loop(at) => x.world.clock <= at <= x.lastTurn + MAX_TURN_GAP
    case Other(e) =>
      && Possible(x.world, e) && e.now <= x.lastTurn + MAX_TURN_GAP
      && !e.DeviceConnects? && e != Closes(x.device, e.now) && e != Receives(x.device, PingIn, e.now)
  }

  ghost function Acts(x: Link, a: Act): Link
    requires CanAct(x, a) && x.device in x.world.hub.sockets
  {
    match a
    case Loop(at) =>
      var fw := P.Iterate(x.fw, TurnAt(at));
      var world := if P.PingDue(x.fw, at) then Exec(x.world, Receives(x.device, PingIn, at)) else x.world.(clock := at);
      Link(fw, world, x.device, at)
    case Other(e) => x.(world := Exec(x.world, e))
  }

  /** How far after `now` the 32-bit clock next reads `last`. */
  function AliasAhead(last: P.Stamp, now: int): P.Stamp {
    (last - now) % P.WRAP
  }

  /** No 32-bit alias of the last ping comes more than `slack` ms after the connect and still before the next
      iteration must have run. */
  predicate SafeWithin(last: P.Stamp, connect: int, lastTurn: int, slack: nat) {
    AliasAhead(last, connect) <= slack || connect + AliasAhead(last, connect) > lastTurn + MAX_TURN_GAP
  }

  /** Safe whenever the alarms fire. */
  predicate SafeStamp(last: P.Stamp, connect: int, lastTurn: int) {
    SafeWithin(last, connect, lastTurn, 1)
  }

  /** A connection just made: the hub has run its connect routine, nobody watches. */
  ghost predicate JustConnected(x: Link) {
    && WorldInv(x.world)
    && Device(x.world.hub) == Some(x.device) && x.world.hub.viewerSid.None?
    && x.world.hub.deviceLast == Some(x.world.clock)
    && x.world.hub.alarm == Some(x.world.clock + ALARM_MS)
    && x.fw.connected
    && x.lastTurn <= x.world.clock <= x.lastTurn + MAX_TURN_GAP
  }

  /** The device has not been idle-closed since the log was `n` entries long. */
  predicate Spared(w: World, n: nat) {
    forall i :: n <= i < |w.log| ==> !HubHistory.IdleClose(w.log[i].out, "idle timeout")
  }

  ghost predicate IsLinkRun(x: Link, acts: seq<Act>)
    decreases |acts|
  {
    acts == [] || (CanAct(x, acts[0]) && x.device in x.world.hub.sockets && IsLinkRun(Acts(x, acts[0]), acts[1..]))
  }

  ghost function PlayLink(x: Link, acts: seq<Act>): Link
    requires IsLinkRun(x, acts)
    decreases |acts|
  {
    if acts == [] then x else PlayLink(Acts(x, acts[0]), acts[1..])
  }

  /** The device is connected and was last heard no later than the hub's clock. */
  ghost predicate LinkUp(x: Link) {
    && WorldInv(x.world) && Device(x.world.hub) == Some(x.device) && x.fw.connected
    && x.world.hub.deviceLast.Some?
    && x.world.hub.deviceLast.value <= x.world.clock <= x.lastTurn + MAX_TURN_GAP
    && x.lastTurn <= x.world.clock
  }

  /** The stamp's age on the firmware's clock is short of a ping and dates it at most `slack` ms after the hub's last
      sign of life. */
  ghost predicate YoungStamp(x: Link, slack: nat)
    requires x.world.hub.deviceLast.Some?
  {
    var age := P.Elapsed(P.Cut(x.lastTurn), x.fw.lastPing);
    age < P.APP_PING_INTERVAL_MS && x.lastTurn - age <= x.world.hub.deviceLast.value + slack
  }

  /** Before the first iteration the stamp is safe; from then on it is young, to a millisecond. */
  ghost predicate LinkInv(x: Link) {
    && LinkUp(x)
    && var heard := x.world.hub.deviceLast.value;
       (x.lastTurn <= heard && SafeStamp(x.fw.lastPing, heard, x.lastTurn)) || YoungStamp(x, 1)
  }

  // ---- 32-bit ages ----

  lemma Remainder(x: int, k: int, r: int)
    requires x == k * P.WRAP + r && 0 <= r < P.WRAP
    ensures x % P.WRAP == r
  {
  }

  lemma AgeIsModular(t: int, stamp: P.Stamp)
    ensures P.Elapsed(P.Cut(t), stamp) == (t - stamp) % P.WRAP
  {
    var k, e := t / P.WRAP, P.Elapsed(P.Cut(t), stamp);
    var j := (P.Cut(t) - stamp) / P.WRAP;
    assert t - stamp == (k + j) * P.WRAP + e;
    Remainder(t - stamp, k + j, e);
  }

  /** While it does not overflow, the age grows with time. */
  lemma AgeGrows(t: int, later: int, stamp: P.Stamp)
    requires t <= later && P.Elapsed(P.Cut(t), stamp) + (later - t) < P.WRAP
    ensures P.Elapsed(P.Cut(later), stamp) == P.Elapsed(P.Cut(t), stamp) + (later - t)
  {
    AgeIsModular(t, stamp);
    AgeIsModular(later, stamp);
    var k, e := (t - stamp) / P.WRAP, (t - stamp) % P.WRAP;
    Remainder(later - stamp, k, e + (later - t));
  }

  /** A young age under a safe stamp dates the stamp's alias to the slack after the connect at the latest. */
  lemma YoungAgeIsOld(t: int, stamp: P.Stamp, connect: int, lastTurn: int, slack: nat)
    requires SafeWithin(stamp, connect, lastTurn, slack) && lastTurn <= connect <= t <= lastTurn + MAX_TURN_GAP
    ensures var age := P.Elapsed(P.Cut(t), stamp); t - age <= connect + slack
  {
    AgeIsModular(t, stamp);
    var age := P.Elapsed(P.Cut(t), stamp);
    var k := (t - stamp) / P.WRAP;
    if t - age > connect + slack {
      assert stamp - connect == -k * P.WRAP + (t - age - connect);
      Remainder(stamp - connect, -k, t - age - connect);
    }
  }

  /** An iteration without a ping keeps the stamp young, or finds it so. */
  lemma QuietLoopIsYoung(x: Link, at: nat, slack: nat)
    requires LinkUp(x) && CanAct(x, Loop(at)) && !P.PingDue(x.fw, at)
    requires var heard := x.world.hub.deviceLast.value;
             || (x.lastTurn <= heard && SafeWithin(x.fw.lastPing, heard, x.lastTurn, slack))
             || YoungStamp(x, slack)
    ensures YoungStamp(Acts(x, Loop(at)), slack)
  {
    var heard := x.world.hub.deviceLast.value;
    if x.lastTurn <= heard && SafeWithin(x.fw.lastPing, heard, x.lastTurn, slack) {
      YoungAgeIsOld(at, x.fw.lastPing, heard, x.lastTurn, slack);
    } else {
      AgeGrows(x.lastTurn, at, x.fw.lastPing);
    }
  }

  /** A ping is heard at once, and its stamp is new. */
  lemma PingIsHeard(x: Link, at: nat)
    requires LinkUp(x) && CanAct(x, Loop(at)) && P.PingDue(x.fw, at)
    ensures var y := Acts(x, Loop(at));
            && LinkUp(y) && YoungStamp(y, 0) && y.world.hub == x.world.hub.(deviceLast := Some(at))
            && y.world.log == x.world.log
  {
    ExecKeepsInv(x.world, Receives(x.device, PingIn, at));
    assert x.world.log + Noted(Device(x.world.hub), []) == x.world.log;
  }

  // ---- safe stamps keep the connection ----

  lemma LoopKeepsLink(x: Link, at: nat)
    requires LinkInv(x) && CanAct(x, Loop(at))
    ensures LinkInv(Acts(x, Loop(at))) && Acts(x, Loop(at)).world.log == x.world.log
  {
    if P.PingDue(x.fw, at) { PingIsHeard(x, at); } else { QuietLoopIsYoung(x, at, 1); }
  }

  lemma OtherKeepsDevice(h: Hub, d: SocketId, e: Event)
    requires Inv(h) && Enabled(h, e) && Device(h) == Some(d)
    requires !e.DeviceConnects? && e != Closes(d, e.now) && e != Receives(d, PingIn, e.now)
    ensures var h' := Step(h, e).0; Device(h') == Some(d) && h'.deviceLast == h.deviceLast
  {
    match e
    case ViewerConnects(s, sid, minted, now) => AfterClaim(h, s, sid, now);
    case Receives(s, _, _) => if Live(h.sockets[s]) { LiveIsDevice(h.sockets, s); }
    case Closes(s, now) => AfterDrop(h, s, now);
    case AlarmFires(_) =>
  }

  lemma LinkIsLively(x: Link, now: Time)
    requires LinkInv(x) && now <= x.lastTurn + MAX_TURN_GAP
    ensures now - x.world.hub.deviceLast.GetOr(0) <= DEVICE_IDLE_MS
  {
  }

  lemma ActKeepsLink(x: Link, a: Act, n: nat)
    requires LinkInv(x) && CanAct(x, a) && Spared(x.world, n)
    ensures LinkInv(Acts(x, a)) && Spared(Acts(x, a).world, n)
  {
    match a
    case Loop(at) =>
      LoopKeepsLink(x, at);
    case Other(e) =>
      ExecKeepsInv(x.world, e);
      OtherKeepsDevice(x.world.hub, x.device, e);
      LinkIsLively(x, e.now);
      HubHistory.DeviceIdleCloses(x.world.hub, e);
  }

  lemma {:induction false} SafeLinksStay(x: Link, acts: seq<Act>, n: nat)
    requires LinkInv(x) && IsLinkRun(x, acts) && Spared(x.world, n)
    ensures Spared(PlayLink(x, acts).world, n)
    decreases |acts|
  {
    if acts != [] {
      ActKeepsLink(x, acts[0], n);
      SafeLinksStay(Acts(x, acts[0]), acts[1..], n);
    }
  }

  // ---- unsafe stamps lose it ----

  lemma Prepend(x: Link, a: Act, acts: seq<Act>)
    requires CanAct(x, a) && x.device in x.world.hub.sockets && IsLinkRun(Acts(x, a), acts)
    ensures IsLinkRun(x, [a] + acts) && PlayLink(x, [a] + acts) == PlayLink(Acts(x, a), acts)
  {
    assert ([a] + acts)[1..] == acts;
  }

  lemma AgeAfterAlias(stamp: P.Stamp, connect: int, k: nat)
    requires k < P.WRAP
    ensures P.Elapsed(P.Cut(connect + AliasAhead(stamp, connect) + k), stamp) == k
  {
    var alias := connect + AliasAhead(stamp, connect);
    AgeIsModular(alias + k, stamp);
    var j := (stamp - connect) / P.WRAP;
    Remainder(alias + k - stamp, -j, k);
  }

  /** An iteration that finds the stamp young leaves the hub alone and the stamp as it is. */
  lemma QuietLoop(x: Link, at: nat)
    requires CanAct(x, Loop(at)) && x.device in x.world.hub.sockets && x.fw.connected
    requires P.Elapsed(P.Cut(at), x.fw.lastPing) < P.APP_PING_INTERVAL_MS
    ensures var y := Acts(x, Loop(at));
            && y.world == x.world.(clock := at) && y.device == x.device && y.lastTurn == at
            && y.fw.connected && y.fw.lastPing == x.fw.lastPing
  {
  }

  /** A late alarm finds the device silent for more than 90 s. */
  lemma LateAlarm(x: Link, now: Time)
    requires WorldInv(x.world) && Device(x.world.hub) == Some(x.device) && x.world.hub.viewerSid.None?
    requires x.world.hub.deviceLast.Some? && now > x.world.hub.deviceLast.value + DEVICE_IDLE_MS
    requires CanAct(x, Other(AlarmFires(now)))
    ensures !Spared(Acts(x, Other(AlarmFires(now))).world, |x.world.log|)
  {
    var closing := Close(x.device, NORMAL_CLOSURE, "idle timeout");
    assert Alarm(x.world.hub, now).1 == [closing];
    assert Acts(x, Other(AlarmFires(now))).world.log[|x.world.log|].out == closing;
  }

  /** Iterations at the alias of the stamp and 29 999 ms after it send no ping. */
  lemma AliasLoops(x: Link, alias: nat)
    requires JustConnected(x) && !SafeStamp(x.fw.lastPing, x.world.clock, x.lastTurn)
    requires alias == x.world.clock + AliasAhead(x.fw.lastPing, x.world.clock)
    ensures CanAct(x, Loop(alias)) && x.device in x.world.hub.sockets
    ensures var y := Acts(x, Loop(alias));
            && CanAct(y, Loop(alias + 29_999)) && y.device in y.world.hub.sockets
            && var z := Acts(y, Loop(alias + 29_999));
               z.world == x.world.(clock := alias + 29_999) && z.device == x.device && z.lastTurn == alias + 29_999
  {
    AgeAfterAlias(x.fw.lastPing, x.world.clock, 0);
    AgeAfterAlias(x.fw.lastPing, x.world.clock, 29_999);
    QuietLoop(x, alias);
    QuietLoop(Acts(x, Loop(alias)), alias + 29_999);
  }

  lemma UnsafeLinkIsLost(x: Link)
    requires JustConnected(x) && !SafeStamp(x.fw.lastPing, x.world.clock, x.lastTurn)
    ensures exists acts :: IsLinkRun(x, acts) && !Spared(PlayLink(x, acts).world, |x.world.log|)
  {
    var alias := x.world.clock + AliasAhead(x.fw.lastPing, x.world.clock);
    AliasLoops(x, alias);
    var first, second, late := Loop(alias), Loop(alias + 29_999), Other(AlarmFires(x.world.clock + 90_001));
    var y := Acts(x, first);
    var z := Acts(y, second);
    LateAlarm(z, x.world.clock + 90_001);
    Prepend(z, late, []);
    Prepend(y, second, [late] + []);
    Prepend(x, first, [second] + ([late] + []));
  }

  /** From a fresh connection, with iterations at most 60 s apart: the hub can idle-close the device exactly if the
      32-bit clock comes round to the old ping stamp between the connect and the first iteration. */
  lemma KeepaliveExactly(x: Link)
    requires JustConnected(x)
    ensures (forall acts :: IsLinkRun(x, acts) ==> Spared(PlayLink(x, acts).world, |x.world.log|))
            <==> SafeStamp(x.fw.lastPing, x.world.clock, x.lastTurn)
  {
    if SafeStamp(x.fw.lastPing, x.world.clock, x.lastTurn) {
      forall acts | IsLinkRun(x, acts)
        ensures Spared(PlayLink(x, acts).world, |x.world.log|)
      {
        SafeLinksStay(x, acts, |x.world.log|);
      }
    } else {
      UnsafeLinkIsLost(x);
    }
  }

  /** A connect handled by the hub while the firmware sees CONNECTED is such a connection, whatever came before. */
  lemma ConnectMakesLink(w: World, f: P.Firmware, s: SocketId, id: string, now: Time, lastTurn: nat)
    requires WorldInv(w) && Possible(w, DeviceConnects(s, id, now))
    requires lastTurn <= now <= lastTurn + MAX_TURN_GAP
    ensures JustConnected(Link(P.Do(f, P.Connects), Exec(w, DeviceConnects(s, id, now)), s, lastTurn))
  {
    ExecKeepsInv(w, DeviceConnects(s, id, now));
    AfterDeviceConnect(w.hub, s, id, now);
  }

  /** A camera that was switched on without a network and first connects a second before its clock wraps: the stamp that
      was never set is unsafe, and there is a run that idle-closes it. */
  lemma UnsafeLinkHappens()
    ensures var t := P.WRAP - 1000;
            var e := DeviceConnects(0, "cam", t);
            && Possible(START, e)
            && var x := Link(P.Do(P.BOOT, P.Connects), Exec(START, e), 0, t);
               && JustConnected(x) && !SafeStamp(x.fw.lastPing, x.world.clock, x.lastTurn)
               && exists acts :: IsLinkRun(x, acts) && !Spared(PlayLink(x, acts).world, |x.world.log|)
  {
    var t := P.WRAP - 1000;
    StartHolds();
    ConnectMakesLink(START, P.BOOT, 0, "cam", t, t);
    Remainder(0 - t, -1, 1000);
    UnsafeLinkIsLost(Link(P.Do(P.BOOT, P.Connects), Exec(START, DeviceConnects(0, "cam", t)), 0, t));
  }

  /** A stamp is safe whenever less than 49 days 17 hours, and the gap, lie between the last ping and the connect. */
  lemma RecentPingIsSafe(ping: int, connect: int, lastTurn: int)
    requires ping <= connect < ping + P.WRAP - MAX_TURN_GAP && lastTurn <= connect
    ensures SafeStamp(P.Cut(ping), connect, lastTurn)
  {
    var k := ping / P.WRAP;
    if ping < connect {
      assert P.Cut(ping) - connect == (-k - 1) * P.WRAP + (ping - connect + P.WRAP);
      Remainder(P.Cut(ping) - connect, -k - 1, ping - connect + P.WRAP);
    } else {
      Remainder(P.Cut(ping) - connect, -k, 0);
    }
  }
}
